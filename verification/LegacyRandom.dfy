/** The two random number generators: the xorshift128 stream and the stateless mixer. */
module LegacyRandom {
  import opened Iteration
  import opened Words

  // ----- the stream -----

  datatype Quad = Quad(x: Word, y: Word, z: Word, w: Word) {
    predicate Valid() {
      |x| == 32 && |y| == 32 && |z| == 32 && |w| == 32
    }
  }

  function Zero(): (r: Quad)
    ensures r.Valid()
    ensures forall i | 0 <= i < 32 :: !r.x[i] && !r.y[i] && !r.z[i] && !r.w[i]
  {
    var o := seq(32, _ => false);
    Quad(o, o, o, o)
  }

  const SEED_Y := 842502087
  const SEED_Z := 3579807591
  const SEED_W := 273326509

  /** The state before any number is drawn. */
  function Seeded(seed: Word): (r: Quad)
    requires |seed| == 32
    ensures r.Valid()
  {
    Quad(seed, BitsOf(SEED_Y, 32), BitsOf(SEED_Z, 32), BitsOf(SEED_W, 32))
  }

  /** One step of xorshift128. */
  function Next(s: Quad): (r: Quad)
    requires s.Valid()
    ensures r.Valid()
  {
    var t := Xor(s.x, Shl(s.x, 11));
    Quad(s.y, s.z, s.w, Xor(Xor(Xor(s.w, Shr(s.w, 19)), t), Shr(t, 8)))
  }

  /** Undoes `v ^ (v << 11)` on 32 bits. */
  function UnshiftLeft(v: Word): (r: Word)
    ensures |r| == |v|
  {
    Xor(Xor(v, Shl(v, 11)), Shl(v, 22))
  }

  /** Undoes `v ^ (v >> 8)` on 32 bits. */
  function UnshiftRight(v: Word): (r: Word)
    ensures |r| == |v|
  {
    Xor(Xor(v, Shr(v, 8)), Xor(Shr(v, 16), Shr(v, 24)))
  }

  function Previous(s: Quad): (r: Quad)
    requires s.Valid()
    ensures r.Valid()
  {
    Quad(UnshiftLeft(UnshiftRight(Xor(Xor(s.w, s.z), Shr(s.z, 19)))), s.x, s.y, s.z)
  }

  lemma UnshiftsLeft(v: Word)
    requires |v| == 32
    ensures UnshiftLeft(Xor(v, Shl(v, 11))) == v
    ensures Xor(UnshiftLeft(v), Shl(UnshiftLeft(v), 11)) == v
  {
  }

  lemma UnshiftsRight(v: Word)
    requires |v| == 32
    ensures UnshiftRight(Xor(v, Shr(v, 8))) == v
    ensures Xor(UnshiftRight(v), Shr(UnshiftRight(v), 8)) == v
  {
    var t, u := Xor(v, Shr(v, 8)), UnshiftRight(v);
    forall i | 0 <= i < 32 ensures UnshiftRight(t)[i] == v[i] && Xor(u, Shr(u, 8))[i] == v[i] {
      UnshiftRightAt(t, i);
      UnshiftRightAt(v, i);
      if i < 24 {
        UnshiftRightAt(v, i + 8);
      }
    }
  }

  /** Bit `i` of a word of 32, and nothing above. */
  predicate BitAt(v: Word, i: nat) {
    i < |v| && v[i]
  }

  /** The three numbers that every seed starts beside. */
  lemma SeededIs(seed: Word)
    requires |seed| == 32
    ensures Seeded(seed).x == seed && Value(Seeded(seed).y) == 842502087
    ensures Value(Seeded(seed).z) == 3579807591 && Value(Seeded(seed).w) == 273326509
  {
    Pow2Of32();
    ValueOfBits(SEED_Y, 32);
    ValueOfBits(SEED_Z, 32);
    ValueOfBits(SEED_W, 32);
  }

  /** Each bit drawn is the parity of two bits of the last word and at most four of the first. */
  lemma StepBits(s: Quad, i: nat)
    requires s.Valid() && i < 32
    ensures Next(s).x == s.y && Next(s).y == s.z && Next(s).z == s.w
    ensures
      var ofFirst := (BitAt(s.x, i) != (i >= 11 && s.x[i - 11])) != (BitAt(s.x, i + 8) != (3 <= i < 24 && s.x[i - 3]));
      Next(s).w[i] == ((s.w[i] != BitAt(s.w, i + 19)) != ofFirst)
  {
    var t := Xor(s.x, Shl(s.x, 11));
    assert t[i] == (s.x[i] != (i >= 11 && s.x[i - 11]));
    assert Shr(t, 8)[i] == (BitAt(s.x, i + 8) != (3 <= i < 24 && s.x[i - 3]));
  }

  lemma UnshiftRightAt(v: Word, i: nat)
    requires |v| == 32 && i < 32
    ensures UnshiftRight(v)[i] == ((BitAt(v, i) != BitAt(v, i + 8)) != (BitAt(v, i + 16) != BitAt(v, i + 24)))
  {
  }

  lemma XorCancels(a: Word, b: Word, c: Word, d: Word)
    requires |a| == |b| == |c| == |d|
    ensures Xor(Xor(Xor(Xor(Xor(a, b), c), d), a), b) == Xor(c, d)
    ensures Xor(Xor(Xor(a, b), c), d) == Xor(Xor(a, b), Xor(c, d))
    ensures Xor(Xor(a, b), Xor(Xor(c, a), b)) == c
  {
  }

  lemma StepUndone(s: Quad)
    requires s.Valid()
    ensures Previous(Next(s)) == s
  {
    var t := Xor(s.x, Shl(s.x, 11));
    XorCancels(s.w, Shr(s.w, 19), t, Shr(t, 8));
    UnshiftsRight(t);
    UnshiftsLeft(s.x);
  }

  lemma StepRedone(s: Quad)
    requires s.Valid()
    ensures Next(Previous(s)) == s
  {
    var u := Xor(Xor(s.w, s.z), Shr(s.z, 19));
    var t := UnshiftRight(u);
    UnshiftsLeft(t);
    UnshiftsRight(u);
    XorCancels(s.z, Shr(s.z, 19), t, Shr(t, 8));
    XorCancels(s.z, Shr(s.z, 19), s.w, s.w);
  }

  /** A step loses nothing: every state has exactly one predecessor. */
  lemma StepIsBijective(s: Quad)
    requires s.Valid()
    ensures Previous(Next(s)) == s
    ensures Next(Previous(s)) == s
  {
    StepUndone(s);
    StepRedone(s);
  }

  /** The step on every quadruple, to repeat it. */
  function Advance(s: Quad): Quad {
    if s.Valid() then Next(s) else s
  }

  lemma AdvanceInjective()
    ensures Injective(Advance)
  {
    forall a, b | Advance(a) == Advance(b) ensures a == b {
      if a.Valid() {
        StepIsBijective(a);
      }
      if b.Valid() {
        StepIsBijective(b);
      }
    }
  }

  lemma ZeroStays()
    ensures Next(Zero()) == Zero()
  {
    var z, n := Zero(), Next(Zero());
    assert n.x == z.x && n.y == z.y && n.z == z.z && n.w == z.w;
  }

  lemma SeededNotZero(seed: Word)
    requires |seed| == 32
    ensures Seeded(seed) != Zero()
  {
    assert Bit(SEED_Y, 0);
    assert Seeded(seed).y[0];
  }

  /** From no seed does the stream ever reach the state that would only repeat zero. */
  lemma NeverStuck(seed: Word, n: nat)
    requires |seed| == 32
    ensures Iterate(Advance, Seeded(seed), n) != Zero()
  {
    ZeroStays();
    SeededNotZero(seed);
    AdvanceInjective();
    StaysAway(Advance, Seeded(seed), Zero(), n);
  }

  /** Streams from different seeds are in different states after every number of draws. */
  lemma SeedsStayApart(a: Word, b: Word, n: nat)
    requires |a| == 32 && |b| == 32 && a != b
    ensures Iterate(Advance, Seeded(a), n) != Iterate(Advance, Seeded(b), n)
  {
    AdvanceInjective();
    if Iterate(Advance, Seeded(a), n) == Iterate(Advance, Seeded(b), n) {
      IterateInjective(Advance, Seeded(a), Seeded(b), n);
    }
  }

  /** The stream repeats only by coming back to its start. */
  lemma NoLeadIn(seed: Word, i: nat, j: nat)
    requires |seed| == 32 && i <= j
    requires Iterate(Advance, Seeded(seed), i) == Iterate(Advance, Seeded(seed), j)
    ensures Iterate(Advance, Seeded(seed), j - i) == Seeded(seed)
  {
    AdvanceInjective();
    Cycles(Advance, Seeded(seed), i, j);
  }

  class Random {
    var x: Word
    var y: Word
    var z: Word
    var w: Word

    function State(): Quad
      reads this
    {
      Quad(x, y, z, w)
    }

    constructor (seed: Word)
      requires |seed| == 32
      ensures State() == Seeded(seed)
    {
      x, y, z, w := seed, BitsOf(SEED_Y, 32), BitsOf(SEED_Z, 32), BitsOf(SEED_W, 32);
    }

    /** `next_uint`: one step of the stream, which `Previous` undoes. */
    method NextUint() returns (r: Word)
      requires State().Valid()
      modifies this
      ensures State() == Advance(old(State())) && r == State().w
      ensures Previous(State()) == old(State())
    {
      StepIsBijective(State());
      var t := Xor(x, Shl(x, 11));
      x := y;
      y := z;
      z := w;
      w := Xor(Xor(Xor(w, Shr(w, 19)), t), Shr(t, 8));
      r := w;
    }
  }

  // ----- the stateless mixer -----

  const FIRST := 0xFF51_AFD7_ED55_8CCD
  const SECOND := 0xC4CE_B9FE_1A85_EC53
  const FIRST_INVERSE := 0x4F74_430C_22A5_4005
  const SECOND_INVERSE := 0x9CB4_B2F8_1293_37DB

  /** `value ^= value >> 33`. */
  function Fold(v: Word): (r: Word)
    ensures |r| == |v|
  {
    Xor(v, Shr(v, 33))
  }

  /** `wrapping_mul` on 64 bits. */
  function Scale(v: Word, c: nat): (r: Word)
    ensures |r| == 64
  {
    BitsOf(Value(v) * c % LIMIT64, 64)
  }

  /** `stateless_mix`. */
  function Mix(v: Word): (r: Word)
    requires |v| == 64
    ensures |r| == 64
  {
    Fold(Scale(Fold(Scale(Fold(v), FIRST)), SECOND))
  }

  function Unmix(v: Word): (r: Word)
    requires |v| == 64
    ensures |r| == 64
  {
    Fold(Scale(Fold(Scale(Fold(v), SECOND_INVERSE)), FIRST_INVERSE))
  }

  /** Folding adds to each bit the one 33 places above. */
  lemma FoldBits(v: Word, i: nat)
    requires |v| == 64 && i < 64
    ensures Fold(v)[i] == (v[i] != BitAt(v, i + 33))
  {
  }

  lemma FoldTwice(v: Word)
    requires |v| == 64
    ensures Fold(Fold(v)) == v
  {
  }

  lemma ScaleBack(v: Word, c: nat, d: nat, k: nat)
    requires |v| == 64 && c * d == 1 + k * LIMIT64
    ensures Scale(Scale(v, c), d) == v
  {
    Pow2Of64();
    var n := Value(v);
    ValueOfBits(n * c % LIMIT64, 64);
    InverseUndoes(n, c, d, k, LIMIT64);
    BitsOfValue(v);
  }

  /** Mixing is a bijection on 64-bit words. */
  lemma MixIsBijective(v: Word)
    requires |v| == 64
    ensures Unmix(Mix(v)) == v
    ensures Mix(Unmix(v)) == v
  {
    MixInverts(v);
    MixInvertsBack(v);
  }

  lemma Inverses()
    ensures FIRST * FIRST_INVERSE == 1 + (FIRST * FIRST_INVERSE / LIMIT64) * LIMIT64
    ensures SECOND * SECOND_INVERSE == 1 + (SECOND * SECOND_INVERSE / LIMIT64) * LIMIT64
  {
  }

  lemma MixInverts(v: Word)
    requires |v| == 64
    ensures Unmix(Mix(v)) == v
  {
    Inverses();
    var a := Fold(v);
    var b := Scale(a, FIRST);
    var c := Fold(b);
    var d := Scale(c, SECOND);
    FoldTwice(d);
    ScaleBack(c, SECOND, SECOND_INVERSE, SECOND * SECOND_INVERSE / LIMIT64);
    FoldTwice(b);
    ScaleBack(a, FIRST, FIRST_INVERSE, FIRST * FIRST_INVERSE / LIMIT64);
    FoldTwice(v);
  }

  lemma MixInvertsBack(v: Word)
    requires |v| == 64
    ensures Mix(Unmix(v)) == v
  {
    Inverses();
    var a := Fold(v);
    var b := Scale(a, SECOND_INVERSE);
    var c := Fold(b);
    var d := Scale(c, FIRST_INVERSE);
    FoldTwice(d);
    ScaleBack(c, FIRST_INVERSE, FIRST, FIRST * FIRST_INVERSE / LIMIT64);
    FoldTwice(b);
    ScaleBack(a, SECOND_INVERSE, SECOND, SECOND * SECOND_INVERSE / LIMIT64);
    FoldTwice(v);
  }

  const LOW_ONES := 0xFFFF_FFFF
  const SALT := 0x1234_5678

  function LowMask(): (r: Word)
    ensures |r| == 64
  {
    BitsOf(LOW_ONES, 64)
  }

  /** `stateless_next_ulong`, on the 64-bit patterns of its two signed arguments. */
  function StatelessNext(seed: Word, series: Word): (r: Word)
    requires |seed| == 64 && |series| == 64
    ensures |r| == 64
  {
    var combined := Or(Shl(And(series, LowMask()), 32), And(seed, LowMask()));
    Mix(Xor(combined, BitsOf(SALT, 64)))
  }

  lemma LowMaskBits()
    ensures forall i | 0 <= i < 64 :: LowMask()[i] == (i < 32)
  {
    Pow2Of32();
    forall i | 0 <= i < 64 ensures LowMask()[i] == (i < 32) {
      Ones(32, i);
    }
  }

  lemma CombinedBits(seed: Word, series: Word, mask: Word)
    requires |seed| == 64 && |series| == 64 && |mask| == 64
    requires forall i | 0 <= i < 64 :: mask[i] == (i < 32)
    ensures Or(Shl(And(series, mask), 32), And(seed, mask)) == seed[..32] + series[..32]
  {
  }

  /** The result tells the low 32 bits of both arguments apart, and nothing else. */
  lemma StatelessNextInjective(seed: Word, series: Word, seed': Word, series': Word)
    requires |seed| == 64 && |series| == 64 && |seed'| == 64 && |series'| == 64
    ensures StatelessNext(seed, series) == StatelessNext(seed', series')
      <==> seed[..32] == seed'[..32] && series[..32] == series'[..32]
  {
    LowMaskBits();
    CombinedBits(seed, series, LowMask());
    CombinedBits(seed', series', LowMask());
    var a, b := seed[..32] + series[..32], seed'[..32] + series'[..32];
    var c := BitsOf(SALT, 64);
    XorBack(a, c);
    XorBack(b, c);
    MixInverts(Xor(a, c));
    MixInverts(Xor(b, c));
    if a == b {
      assert a[..32] == seed[..32] && a[32..] == series[..32];
      assert b[..32] == seed'[..32] && b[32..] == series'[..32];
    }
  }
}
