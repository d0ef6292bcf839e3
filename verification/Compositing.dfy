/** Straight-alpha compositing: the rounding of one pixel, and pictures as rows of pixels. */
module Compositing {
  import opened Numbers

  /** Red, green, blue and alpha. */
  datatype Rgba = Rgba(r: Byte, g: Byte, b: Byte, a: Byte) {
    function Channel(c: nat): Byte
      requires c < 4
    {
      if c == 0 then r else if c == 1 then g else if c == 2 then b else a
    }
  }

  // ----- one pixel -----

  lemma TimesMonotone(a: int, b: int, c: int)
    requires a <= b && 0 <= c
    ensures a * c <= b * c
  {
  }

  function OutAlpha(sa: int, da: int): int {
    sa * 255 + da * (255 - sa)
  }

  function Weighted(sc: int, sa: int, dc: int, da: int): int {
    sc * sa * 255 + dc * da * (255 - sa)
  }

  lemma Regroup(sc: int, sa: int, dc: int, da: int)
    ensures Weighted(sc, sa, dc, da) == sc * (sa * 255) + dc * (da * (255 - sa))
  {
    assert sc * sa * 255 == sc * (sa * 255);
    assert dc * da * (255 - sa) == dc * (da * (255 - sa));
  }

  lemma WeightedBounds(sc: int, sa: int, dc: int, da: int, lo: int, hi: int)
    requires lo <= sc <= hi && lo <= dc <= hi && 0 <= sa <= 255 && 0 <= da
    ensures lo * OutAlpha(sa, da) <= Weighted(sc, sa, dc, da) <= hi * OutAlpha(sa, da)
  {
    var a, b := sa * 255, da * (255 - sa);
    TimesMonotone(0, da, 255 - sa);
    Regroup(sc, sa, dc, da);
    Sandwich(sc, dc, a, b, lo, hi);
  }

  lemma Sandwich(sc: int, dc: int, a: int, b: int, lo: int, hi: int)
    requires lo <= sc <= hi && lo <= dc <= hi && 0 <= a && 0 <= b
    ensures lo * (a + b) <= sc * a + dc * b <= hi * (a + b)
  {
    TimesMonotone(lo, sc, a);
    TimesMonotone(sc, hi, a);
    TimesMonotone(lo, dc, b);
    TimesMonotone(dc, hi, b);
  }

  /** Rounded division stays within integer bounds and is off by at most half. */
  lemma RoundedDivision(n: int, o: int, lo: int, hi: int)
    requires o > 0 && lo * o <= n <= hi * o
    ensures lo <= (n + o / 2) / o <= hi
    ensures -o <= 2 * (o * ((n + o / 2) / o) - n) <= o
  {
    var q := (n + o / 2) / o;
    assert o * q <= n + o / 2 < o * q + o;
    Between(q, n, o, lo, hi);
  }

  lemma Between(q: int, n: int, o: int, lo: int, hi: int)
    requires o > 0 && lo * o <= n <= hi * o && o * q <= n + o / 2 < o * q + o
    ensures lo <= q <= hi
  {
    Below(lo, q, o);
    Below(q, hi, o);
  }

  lemma Below(a: int, b: int, o: int)
    requires o > 0 && a * o < b * o + o
    ensures a <= b
  {
    if b + 1 <= a {
      TimesMonotone(b + 1, a, o);
    }
  }

  lemma OutAlphaBounds(sa: int, da: int)
    requires 0 <= sa <= 255 && 0 <= da <= 255
    ensures sa * 255 <= OutAlpha(sa, da) <= 255 * 255 && da * 255 <= OutAlpha(sa, da)
  {
    TimesMonotone(0, da, 255 - sa);
    TimesMonotone(da, 255, 255 - sa);
    TimesMonotone(0, sa, 255 - da);
    assert sa * (255 - da) == sa * 255 - sa * da;
    assert da * (255 - sa) == da * 255 - sa * da;
  }

  /** One colour channel of the blend of two partly transparent pixels. */
  function Mix(sc: Byte, sa: Byte, dc: Byte, da: Byte): (r: Byte)
    requires sa > 0
    ensures sc <= r <= dc || dc <= r <= sc
  {
    var lo, hi := if sc < dc then sc else dc, if sc < dc then dc else sc;
    OutAlphaBounds(sa, da);
    WeightedBounds(sc, sa, dc, da, lo, hi);
    RoundedDivision(Weighted(sc, sa, dc, da), OutAlpha(sa, da), lo, hi);
    (Weighted(sc, sa, dc, da) + OutAlpha(sa, da) / 2) / OutAlpha(sa, da)
  }

  /** The channel is the exact weighted average, rounded to nearest. */
  lemma MixRounds(sc: Byte, sa: Byte, dc: Byte, da: Byte)
    requires sa > 0
    ensures -OutAlpha(sa, da) <= 2 * (OutAlpha(sa, da) * Mix(sc, sa, dc, da) - Weighted(sc, sa, dc, da))
    ensures 2 * (OutAlpha(sa, da) * Mix(sc, sa, dc, da) - Weighted(sc, sa, dc, da)) <= OutAlpha(sa, da)
  {
    var lo, hi := if sc < dc then sc else dc, if sc < dc then dc else sc;
    OutAlphaBounds(sa, da);
    WeightedBounds(sc, sa, dc, da, lo, hi);
    RoundedDivision(Weighted(sc, sa, dc, da), OutAlpha(sa, da), lo, hi);
  }

  /** The alpha of the blend: no less than either input. */
  function MixAlpha(sa: Byte, da: Byte): (r: Byte)
    ensures sa <= r && da <= r
  {
    OutAlphaBounds(sa, da);
    (OutAlpha(sa, da) + 127) / 255
  }

  /** What `blend_into` leaves in the destination pixel. */
  function Blend(dst: Rgba, src: Rgba): Rgba {
    if src.a == 0 then dst
    else if src.a == 255 || dst.a == 0 then src
    else Rgba(
      Mix(src.r, src.a, dst.r, dst.a), Mix(src.g, src.a, dst.g, dst.a), Mix(src.b, src.a, dst.b, dst.a),
      MixAlpha(src.a, dst.a))
  }

  /** Every colour lies between source and destination; alpha is not below either input. */
  lemma BlendBetween(dst: Rgba, src: Rgba)
    ensures forall c | 0 <= c < 3 ::
      src.Channel(c) <= Blend(dst, src).Channel(c) <= dst.Channel(c)
      || dst.Channel(c) <= Blend(dst, src).Channel(c) <= src.Channel(c)
    ensures src.a <= Blend(dst, src).a && dst.a <= Blend(dst, src).a
  {
  }

  /** What shines through two layers, out of 255 times 255. */
  function Through(sa: int, da: int): int {
    (255 - sa) * (255 - da)
  }

  lemma OutAlphaIs(sa: int, da: int)
    ensures OutAlpha(sa, da) == 255 * 255 - Through(sa, da)
  {
    assert (255 - sa) * (255 - da) == 255 * 255 - 255 * sa - da * (255 - sa);
  }

  lemma AlphaRounds(sa: Byte, da: Byte)
    ensures -127 <= 255 * MixAlpha(sa, da) - OutAlpha(sa, da) <= 127
  {
  }

  /**
   * For every two pixels the blend is the source over the destination: the transparencies multiply, and each colour
   * is the average weighted by how much of either is seen, both rounded to nearest.
   */
  lemma BlendIsOver(dst: Rgba, src: Rgba, c: nat)
    requires c < 3
    ensures -127 <= 255 * (255 - Blend(dst, src).a) - (255 - src.a) * (255 - dst.a) <= 127
    ensures
      var seen := 255 * 255 - (255 - src.a) * (255 - dst.a);
      var sum := 255 * src.a * src.Channel(c) + (255 - src.a) * dst.a * dst.Channel(c);
      -seen <= 2 * (seen * Blend(dst, src).Channel(c) - sum) <= seen
  {
    hide Mix, MixAlpha, OutAlpha, Weighted;
    OutAlphaIs(src.a, dst.a);
    if src.a == 0 || src.a == 255 || dst.a == 0 {
      PlainBlend(dst, src, c);
    } else {
      AlphaRounds(src.a, dst.a);
      MixRounds(src.Channel(c), src.a, dst.Channel(c), dst.a);
      WeightedIs(src.Channel(c), src.a, dst.Channel(c), dst.a);
    }
  }

  lemma WeightedIs(sc: int, sa: int, dc: int, da: int)
    ensures Weighted(sc, sa, dc, da) == 255 * sa * sc + (255 - sa) * da * dc
  {
    assert sc * sa * 255 == 255 * sa * sc && dc * da * (255 - sa) == (255 - sa) * da * dc;
  }

  lemma PlainBlend(dst: Rgba, src: Rgba, c: nat)
    requires c < 3 && (src.a == 0 || src.a == 255 || dst.a == 0)
    ensures 255 * (255 - Blend(dst, src).a) == (255 - src.a) * (255 - dst.a)
    ensures
      var seen := 255 * 255 - (255 - src.a) * (255 - dst.a);
      seen * Blend(dst, src).Channel(c) == 255 * src.a * src.Channel(c) + (255 - src.a) * dst.a * dst.Channel(c)
  {
  }

  // ----- pictures -----

  datatype Picture = Picture(w: nat, h: nat, rows: seq<seq<Rgba>>) {
    predicate Valid() {
      |rows| == h && forall y | 0 <= y < h :: |rows[y]| == w
    }

    predicate SameSize(p: Picture) {
      Valid() && p.Valid() && w == p.w && h == p.h
    }

    function At(x: nat, y: nat): Rgba
      requires Valid() && x < w && y < h
    {
      rows[y][x]
    }

    function Put(x: nat, y: nat, c: Rgba): (r: Picture)
      requires Valid() && x < w && y < h
      ensures r.SameSize(this)
      ensures forall a: nat, b: nat | a < w && b < h :: r.At(a, b) == if a == x && b == y then c else At(a, b)
    {
      Picture(w, h, rows[y := rows[y][x := c]])
    }

    /** `blend_px`: nothing outside the picture. */
    function BlendAt(x: int, y: int, c: Rgba): (r: Picture)
      requires Valid()
      ensures r.SameSize(this)
      ensures forall a: nat, b: nat | a < w && b < h ::
        r.At(a, b) == if a == x && b == y then Blend(At(a, b), c) else At(a, b)
    {
      if x < 0 || y < 0 || x >= w || y >= h then this else Put(x, y, Blend(At(x, y), c))
    }
  }

  /** Pictures of one size with the same pixels are the same. */
  lemma SamePixels(p: Picture, q: Picture)
    requires p.SameSize(q)
    requires forall x: nat, y: nat | x < p.w && y < p.h :: p.At(x, y) == q.At(x, y)
    ensures p == q
  {
    forall y | 0 <= y < p.h ensures p.rows[y] == q.rows[y] {
      forall x | 0 <= x < p.w ensures p.rows[y][x] == q.rows[y][x] {
        assert p.At(x, y) == q.At(x, y);
      }
    }
  }

  // ----- blending a source picture, pixel by pixel -----

  /** The first `n` pixels of source row `sy`, each blended by `blend_px` at its place under the offset. */
  function BlendRow(p: Picture, src: Picture, ox: int, oy: int, sy: nat, n: nat): (r: Picture)
    requires p.Valid() && src.Valid() && sy < src.h && n <= src.w
    ensures r.SameSize(p)
  {
    if n == 0 then p else BlendRow(p, src, ox, oy, sy, n - 1).BlendAt(ox + (n - 1), oy + sy, src.At(n - 1, sy))
  }

  /** The first `m` source rows. */
  function BlendRows(p: Picture, src: Picture, ox: int, oy: int, m: nat): (r: Picture)
    requires p.Valid() && src.Valid() && m <= src.h
    ensures r.SameSize(p)
  {
    if m == 0 then p else BlendRow(BlendRows(p, src, ox, oy, m - 1), src, ox, oy, m - 1, src.w)
  }

  /** Every source pixel. */
  function BlendAll(p: Picture, src: Picture, ox: int, oy: int): (r: Picture)
    requires p.Valid() && src.Valid()
    ensures r.SameSize(p)
  {
    BlendRows(p, src, ox, oy, src.h)
  }

  /** A source pixel lies over `(x, y)`. */
  predicate Under(src: Picture, ox: int, oy: int, x: int, y: int) {
    ox <= x < ox + src.w && oy <= y < oy + src.h
  }

  /** One pixel of the composite. */
  function Composed(p: Picture, src: Picture, ox: int, oy: int, x: nat, y: nat): Rgba
    requires p.Valid() && src.Valid() && x < p.w && y < p.h
  {
    if Under(src, ox, oy, x, y) then Blend(p.At(x, y), src.At(x - ox, y - oy)) else p.At(x, y)
  }

  lemma {:induction false} BlendRowAt(
      p: Picture, src: Picture, ox: int, oy: int, sy: nat, n: nat, x: nat, y: nat)
    requires p.Valid() && src.Valid() && sy < src.h && n <= src.w && x < p.w && y < p.h
    ensures BlendRow(p, src, ox, oy, sy, n).At(x, y) ==
      if y == oy + sy && ox <= x < ox + n then Blend(p.At(x, y), src.At(x - ox, sy)) else p.At(x, y)
  {
    if n > 0 {
      BlendRowAt(p, src, ox, oy, sy, n - 1, x, y);
    }
  }

  /** Each pixel is blended at most once: by the one source pixel over it, when its row has had its turn. */
  lemma {:induction false} BlendRowsAt(p: Picture, src: Picture, ox: int, oy: int, m: nat, x: nat, y: nat)
    requires p.Valid() && src.Valid() && m <= src.h && x < p.w && y < p.h
    ensures BlendRows(p, src, ox, oy, m).At(x, y) ==
      if Under(src, ox, oy, x, y) && y < oy + m then Composed(p, src, ox, oy, x, y) else p.At(x, y)
  {
    if m > 0 {
      BlendRowsAt(p, src, ox, oy, m - 1, x, y);
      BlendRowAt(BlendRows(p, src, ox, oy, m - 1), src, ox, oy, m - 1, src.w, x, y);
    }
  }

  /** A picture that is composed at every pixel is what blending pixel by pixel gives. */
  lemma ComposedIsBlendAll(p: Picture, src: Picture, ox: int, oy: int, r: Picture)
    requires p.SameSize(r) && src.Valid()
    requires forall x: nat, y: nat | x < p.w && y < p.h :: r.At(x, y) == Composed(p, src, ox, oy, x, y)
    ensures r == BlendAll(p, src, ox, oy)
  {
    var q := BlendAll(p, src, ox, oy);
    forall x: nat, y: nat | x < p.w && y < p.h ensures r.At(x, y) == q.At(x, y) {
      BlendRowsAt(p, src, ox, oy, src.h, x, y);
    }
    SamePixels(r, q);
  }
}
