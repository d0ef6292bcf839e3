/** Machine words as their bits, least significant first. */
module Words {
  import opened Numbers

  type Word = seq<bool>

  function Xor(a: Word, b: Word): (r: Word)
    requires |a| == |b|
    ensures |r| == |a|
    ensures forall i | 0 <= i < |a| :: r[i] == (a[i] != b[i])
  {
    seq(|a|, i requires 0 <= i < |a| => a[i] != b[i])
  }

  function Or(a: Word, b: Word): (r: Word)
    requires |a| == |b|
    ensures |r| == |a|
    ensures forall i | 0 <= i < |a| :: r[i] == (a[i] || b[i])
  {
    seq(|a|, i requires 0 <= i < |a| => a[i] || b[i])
  }

  function And(a: Word, b: Word): (r: Word)
    requires |a| == |b|
    ensures |r| == |a|
    ensures forall i | 0 <= i < |a| :: r[i] == (a[i] && b[i])
  {
    seq(|a|, i requires 0 <= i < |a| => a[i] && b[i])
  }

  /** `a << k`: what leaves the top is lost. */
  function Shl(a: Word, k: nat): (r: Word)
    ensures |r| == |a|
    ensures forall i | 0 <= i < |a| :: r[i] == (i >= k && a[i - k])
  {
    seq(|a|, i requires 0 <= i < |a| => i >= k && a[i - k])
  }

  /** `a >> k`. */
  function Shr(a: Word, k: nat): (r: Word)
    ensures |r| == |a|
    ensures forall i | 0 <= i < |a| :: r[i] == (i + k < |a| && a[i + k])
  {
    seq(|a|, i requires 0 <= i < |a| => i + k < |a| && a[i + k])
  }

  // ----- words and numbers -----

  lemma {:induction false} Pow2Add(a: nat, b: nat)
    ensures Pow2(a + b) == Pow2(a) * Pow2(b)
  {
    if a > 0 {
      Pow2Add(a - 1, b);
      Double(Pow2(a - 1), Pow2(b));
    }
  }

  lemma Double(x: nat, y: nat)
    ensures 2 * (x * y) == (2 * x) * y
  {
  }

  const LIMIT64 := 0x1_0000_0000_0000_0000

  lemma Pow2Of32()
    ensures Pow2(32) == 0x1_0000_0000
  {
    assert Pow2(4) == 16;
    Pow2Add(4, 4);
    Pow2Add(8, 8);
    Pow2Add(16, 16);
  }

  lemma Pow2Of64()
    ensures Pow2(64) == LIMIT64
  {
    Pow2Of32();
    Pow2Add(32, 32);
  }

  /** The number a word stands for. */
  function Value(a: Word): (n: nat)
    ensures n < Pow2(|a|)
  {
    if a == [] then 0 else (if a[0] then 1 else 0) + 2 * Value(a[1..])
  }

  /** Bit `i` of a number. */
  predicate Bit(n: nat, i: nat)
    decreases i
  {
    if i == 0 then n % 2 == 1 else Bit(n / 2, i - 1)
  }

  /** The low `k` bits of a number. */
  function BitsOf(n: nat, k: nat): (r: Word)
    ensures |r| == k
    ensures forall i | 0 <= i < k :: r[i] == Bit(n, i)
  {
    seq(k, i requires 0 <= i < k => Bit(n, i))
  }

  lemma BitsOfTail(n: nat, k: nat)
    requires k > 0
    ensures BitsOf(n, k) == [n % 2 == 1] + BitsOf(n / 2, k - 1)
  {
  }

  lemma {:induction false} BitsOfValue(a: Word)
    ensures BitsOf(Value(a), |a|) == a
  {
    if a != [] {
      BitsOfValue(a[1..]);
      BitsOfTail(Value(a), |a|);
      assert a == [a[0]] + a[1..];
    }
  }

  lemma {:induction false} ValueOfBits(n: nat, k: nat)
    requires n < Pow2(k)
    ensures Value(BitsOf(n, k)) == n
  {
    if k > 0 {
      BitsOfTail(n, k);
      ValueOfBits(n / 2, k - 1);
      assert BitsOf(n, k)[1..] == BitsOf(n / 2, k - 1);
    }
  }

  /** The number of `k` ones has exactly the low `k` bits. */
  lemma {:induction false} Ones(k: nat, i: nat)
    ensures Bit(Pow2(k) - 1, i) == (i < k)
    decreases i
  {
    if k == 0 {
      Zeros(i);
    } else if i > 0 {
      Ones(k - 1, i - 1);
      assert (Pow2(k) - 1) / 2 == Pow2(k - 1) - 1;
    }
  }

  lemma {:induction false} Zeros(i: nat)
    ensures !Bit(0, i)
  {
    if i > 0 {
      Zeros(i - 1);
    }
  }

  lemma XorBack(a: Word, b: Word)
    requires |a| == |b|
    ensures Xor(Xor(a, b), b) == a
  {
  }

  // ----- multiplication that wraps around -----

  lemma ModUnique(n: int, q: int, r: int, m: int)
    requires m > 0 && n == q * m + r && 0 <= r < m
    ensures n % m == r
  {
    var k, s := n / m, n % m;
    assert (k - q) * m == r - s;
    if k - q >= 1 {
      AtLeastOnce(k - q, m);
    } else if q - k >= 1 {
      AtLeastOnce(q - k, m);
    }
  }

  lemma AtLeastOnce(a: int, m: int)
    requires a >= 1 && m > 0
    ensures a * m >= m && (-a) * m <= -m
  {
  }

  /** Multiplying by an inverse modulo `m` undoes a multiplication. */
  lemma InverseUndoes(n: nat, c: nat, d: nat, k: nat, m: nat)
    requires n < m && c * d == 1 + k * m
    ensures (n * c % m) * d % m == n
  {
    var q, r := n * c / m, n * c % m;
    assert n * c == q * m + r;
    calc {
      r * d;
      (n * c - q * m) * d;
      n * c * d - q * m * d;
      { assert n * c * d == n * (c * d); }
      n * (1 + k * m) - q * m * d;
      { assert n * (1 + k * m) == n + n * k * m; assert q * m * d == q * d * m; }
      n + (n * k - q * d) * m;
    }
    ModUnique(r * d, n * k - q * d, n, m);
  }
}
