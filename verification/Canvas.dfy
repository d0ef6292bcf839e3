/** The RGBA byte buffer behind a picture, changed in place. */
module Canvas {
  import opened Compositing
  import opened Numbers

  const U32_LIMIT := 0x1_0000_0000

  /** Unsigned 32-bit arithmetic wraps around. */
  function U32(x: int): (r: nat)
    ensures r < U32_LIMIT
  {
    x % U32_LIMIT
  }

  /** The byte offset of a row as the compositing loop computes it, in 32 bits. */
  function RowOffset(y: nat, w: nat, x: nat): nat {
    U32(U32(U32(y * w) + x) * 4)
  }

  lemma WrapTwice(a: int, b: int)
    ensures (a % U32_LIMIT + b) % U32_LIMIT == (a + b) % U32_LIMIT
    ensures (a % U32_LIMIT * 4) % U32_LIMIT == (a * 4) % U32_LIMIT
  {
    var q, r := a / U32_LIMIT, a % U32_LIMIT;
    assert a + b == q * U32_LIMIT + (r + b);
    assert a * 4 == q * 4 * U32_LIMIT + r * 4;
    DropMultiple(r + b, q);
    DropMultiple(r * 4, q * 4);
  }

  lemma DropMultiple(r: int, q: int)
    ensures (q * U32_LIMIT + r) % U32_LIMIT == r % U32_LIMIT
  {
    var s, t := r / U32_LIMIT, r % U32_LIMIT;
    assert q * U32_LIMIT + r == (q + s) * U32_LIMIT + t;
  }

  lemma RowOffsetWraps(y: nat, w: nat, x: nat)
    ensures RowOffset(y, w, x) == 4 * (y * w + x) % U32_LIMIT
  {
    var p := y * w;
    WrapTwice(p, x);
    WrapTwice(p + x, 0);
  }

  /** The 32-bit offset is the true one exactly when the true one fits in 32 bits. */
  lemma RowOffsetExact(y: nat, w: nat, x: nat)
    ensures RowOffset(y, w, x) == 4 * (y * w + x) <==> 4 * (y * w + x) < U32_LIMIT
  {
    hide RowOffset;
    RowOffsetWraps(y, w, x);
    WrapExact(4 * (y * w + x));
  }

  lemma WrapExact(n: nat)
    ensures n % U32_LIMIT == n <==> n < U32_LIMIT
  {
  }

  /** In a canvas 32768 wide, row 32768 is composited over row 0. */
  lemma RowOffsetFails()
    ensures RowOffset(32768, 32768, 0) == RowOffset(0, 32768, 0) == 0
  {
    RowOffsetWraps(32768, 32768, 0);
    RowOffsetWraps(0, 32768, 0);
  }

  /** The offset of cell `c`: a multiple of four, and never past the true one. */
  lemma OffsetOfCell(y: nat, w: nat, x: nat, c: nat)
    requires c == y * w + x
    ensures RowOffset(y, w, x) % 4 == 0 && RowOffset(y, w, x) <= 4 * c
    ensures 4 * c < U32_LIMIT ==> RowOffset(y, w, x) == 4 * c
  {
    RowOffsetWraps(y, w, x);
    WrapBelow(c);
  }

  lemma WrapBelow(c: nat)
    ensures 4 * c % U32_LIMIT % 4 == 0 && 4 * c % U32_LIMIT <= 4 * c
    ensures 4 * c < U32_LIMIT ==> 4 * c % U32_LIMIT == 4 * c
  {
    var q, r := 4 * c / U32_LIMIT, 4 * c % U32_LIMIT;
    assert r == 4 * (c - q * 0x4000_0000);
  }

  // ----- cells of a grid -----

  /** The place of `(x, y)` in a row-major grid: `y` whole rows and `x` more. */
  function Cell(x: int, y: nat, w: nat): int {
    if y == 0 then x else w + Cell(x, y - 1, w)
  }

  lemma {:induction false} CellProduct(x: int, y: nat, w: nat)
    ensures Cell(x, y, w) == y * w + x
  {
    if y > 0 {
      CellProduct(x, y - 1, w);
      assert y * w == (y - 1) * w + w;
    }
  }

  lemma {:induction false} CellShift(x: int, i: int, y: nat, w: nat)
    ensures Cell(x + i, y, w) == Cell(x, y, w) + i
  {
    if y > 0 {
      CellShift(x, i, y - 1, w);
    }
  }

  lemma {:induction false} CellInRange(x: nat, y: nat, w: nat, h: nat)
    requires x < w && y < h
    ensures 0 <= Cell(x, y, w) < Cell(0, h, w)
    decreases h
  {
    if y < h - 1 {
      CellInRange(x, y, w, h - 1);
    } else {
      CellShift(0, x, y, w);
      CellStart(y, w);
    }
  }

  lemma {:induction false} CellStart(y: nat, w: nat)
    ensures Cell(0, y, w) >= 0
  {
    if y > 0 {
      CellStart(y - 1, w);
    }
  }

  lemma CellsDiffer(x: nat, y: nat, a: nat, b: nat, w: nat)
    requires x < w && a < w && (x != a || y != b)
    ensures Cell(x, y, w) != Cell(a, b, w)
  {
    CellShift(0, x, y, w);
    CellShift(0, a, b, w);
    if y < b {
      CellInRange(x, y, w, b);
    } else if b < y {
      CellInRange(a, b, w, y);
    }
  }

  lemma {:induction false} CellBelow(x: int, y: nat, b: nat, w: nat)
    requires y <= b
    ensures Cell(x, y, w) <= Cell(x, b, w)
    decreases b
  {
    if y < b {
      CellBelow(x, y, b - 1, w);
    }
  }

  /** The loop's offset starts a pixel at or before the right one, and it is the right one if that fits 32 bits. */
  method RowStart(x: nat, y: nat, w: nat, h: nat) returns (o: nat)
    requires x < w && y < h
    ensures o % 4 == 0 && o <= 4 * Cell(x, y, w)
    ensures 4 * Cell(x, y, w) < U32_LIMIT ==> o == 4 * Cell(x, y, w)
  {
    CellInRange(x, y, w, h);
    CellProduct(x, y, w);
    OffsetOfCell(y, w, x, Cell(x, y, w));
    hide RowOffset;
    o := RowOffset(y, w, x);
  }

  // ----- the picture a buffer shows -----

  function Chunk(bytes: seq<Byte>, k: nat): Rgba
    requires 4 * k + 4 <= |bytes|
  {
    Rgba(bytes[4 * k], bytes[4 * k + 1], bytes[4 * k + 2], bytes[4 * k + 3])
  }

  /** The pixel at `(x, y)` of a row-major buffer. */
  function PixelOf(bytes: seq<Byte>, w: nat, h: nat, x: nat, y: nat): Rgba
    requires |bytes| == 4 * Cell(0, h, w) && x < w && y < h
  {
    CellInRange(x, y, w, h);
    Chunk(bytes, Cell(x, y, w))
  }

  function RowOf(bytes: seq<Byte>, w: nat, h: nat, y: nat): (r: seq<Rgba>)
    requires |bytes| == 4 * Cell(0, h, w) && y < h
    ensures |r| == w
  {
    seq(w, x requires 0 <= x < w => PixelOf(bytes, w, h, x, y))
  }

  function Grid(bytes: seq<Byte>, w: nat, h: nat): (p: Picture)
    requires |bytes| == 4 * Cell(0, h, w)
    ensures p.Valid() && p.w == w && p.h == h
  {
    Picture(w, h, seq(h, y requires 0 <= y < h => RowOf(bytes, w, h, y)))
  }

  lemma GridAt(bytes: seq<Byte>, w: nat, h: nat, x: nat, y: nat)
    requires |bytes| == 4 * Cell(0, h, w) && x < w && y < h
    ensures Grid(bytes, w, h).At(x, y) == PixelOf(bytes, w, h, x, y)
  {
    assert Grid(bytes, w, h).rows[y] == RowOf(bytes, w, h, y);
  }

  /** `after` is `before` but for pixel `k`, which is now `c`. */
  ghost predicate Written(before: seq<Byte>, after: seq<Byte>, k: nat, c: Rgba) {
    && |after| == |before| && 4 * k + 4 <= |after|
    && Chunk(after, k) == c
    && forall i | 0 <= i < |before| && !(4 * k <= i < 4 * k + 4) :: after[i] == before[i]
  }

  lemma WrittenAt(before: seq<Byte>, after: seq<Byte>, w: nat, h: nat, x: nat, y: nat, c: Rgba, a: nat, b: nat)
    requires |before| == 4 * Cell(0, h, w) && x < w && y < h && a < w && b < h
    requires 0 <= Cell(x, y, w) && Written(before, after, Cell(x, y, w), c)
    ensures PixelOf(after, w, h, a, b) == if a == x && b == y then c else PixelOf(before, w, h, a, b)
  {
    CellInRange(a, b, w, h);
    if a != x || b != y {
      CellsDiffer(x, y, a, b, w);
      OtherPixel(before, after, Cell(x, y, w), Cell(a, b, w), c);
    }
  }

  /** Writing the four bytes of one pixel changes that pixel alone. */
  lemma WrittenPuts(before: seq<Byte>, after: seq<Byte>, w: nat, h: nat, x: nat, y: nat, c: Rgba)
    requires |before| == 4 * Cell(0, h, w) && x < w && y < h
    requires 0 <= Cell(x, y, w) && Written(before, after, Cell(x, y, w), c)
    ensures Grid(after, w, h) == Grid(before, w, h).Put(x, y, c)
  {
    var p, q := Grid(before, w, h).Put(x, y, c), Grid(after, w, h);
    forall a: nat, b: nat | a < w && b < h ensures q.At(a, b) == p.At(a, b) {
      GridAt(before, w, h, a, b);
      GridAt(after, w, h, a, b);
      WrittenAt(before, after, w, h, x, y, c, a, b);
    }
    SamePixels(q, p);
  }

  lemma OtherPixel(before: seq<Byte>, after: seq<Byte>, k: nat, j: nat, c: Rgba)
    requires Written(before, after, k, c) && k != j && 4 * j + 4 <= |before|
    ensures Chunk(after, j) == Chunk(before, j)
  {
  }

  /** `blend_into`, on pixel `k` of the buffer. */
  method BlendInto(data: array<Byte>, k: nat, src: Rgba)
    requires 4 * k + 4 <= data.Length
    modifies data
    ensures Written(old(data[..]), data[..], k, Blend(old(Chunk(data[..], k)), src))
  {
    if src.a == 0 {
      return;
    }
    var da := data[4 * k + 3];
    if src.a == 255 || da == 0 {
      CopyPixel(data, k, src);
      return;
    }
    ghost var before := Chunk(data[..], k);
    for c := 0 to 3
      invariant data[4 * k] == if c > 0 then Mix(src.r, src.a, before.r, da) else before.r
      invariant data[4 * k + 1] == if c > 1 then Mix(src.g, src.a, before.g, da) else before.g
      invariant data[4 * k + 2] == if c > 2 then Mix(src.b, src.a, before.b, da) else before.b
      invariant forall i | 0 <= i < data.Length && !(4 * k <= i < 4 * k + 3) :: data[i] == old(data[i])
    {
      data[4 * k + c] := Mix(src.Channel(c), src.a, data[4 * k + c], da);
    }
    data[4 * k + 3] := MixAlpha(src.a, da);
  }

  /** `copy_from_slice` on one pixel. */
  method CopyPixel(data: array<Byte>, k: nat, src: Rgba)
    requires 4 * k + 4 <= data.Length
    modifies data
    ensures Written(old(data[..]), data[..], k, src)
  {
    data[4 * k], data[4 * k + 1], data[4 * k + 2], data[4 * k + 3] := src.r, src.g, src.b, src.a;
  }

  /** One pixel of a composited row: copied when opaque, skipped when transparent, else blended. */
  method StorePixel(data: array<Byte>, k: nat, src: Rgba)
    requires 4 * k + 4 <= data.Length
    modifies data
    ensures Written(old(data[..]), data[..], k, Blend(old(Chunk(data[..], k)), src))
  {
    if src.a == 255 {
      CopyPixel(data, k, src);
    } else if src.a != 0 {
      BlendInto(data, k, src);
    }
  }

  /** Every pixel set to one colour. */
  method Fill(data: array<Byte>, cells: nat, color: Rgba)
    requires data.Length == 4 * cells
    modifies data
    ensures forall j | 0 <= j < cells :: Chunk(data[..], j) == color
  {
    for k := 0 to cells
      invariant forall j | 0 <= j < k :: Chunk(data[..], j) == color
    {
      ghost var before := data[..];
      CopyPixel(data, k, color);
      forall j | 0 <= j < k ensures Chunk(data[..], j) == color {
        OtherPixel(before, data[..], k, j, color);
      }
    }
  }

  // ----- how far the compositing loop has come -----

  /** The rows above `y`, and of row `y` the pixels left of `x`, are composed; the rest is as before. */
  ghost predicate Progress(before: Picture, now: Picture, src: Picture, ox: int, oy: int, y: int, x: int) {
    && now.SameSize(before) && src.Valid()
    && forall a: nat, b: nat | a < before.w && b < before.h ::
         now.At(a, b) == if b < y || (b == y && a < x) then Composed(before, src, ox, oy, a, b) else before.At(a, b)
  }

  lemma ProgressStart(now: Picture, src: Picture, ox: int, oy: int, y0: nat, x0: nat)
    requires now.Valid() && src.Valid() && (x0 == 0 || x0 == ox) && (y0 == 0 || y0 == oy)
    ensures Progress(now, now, src, ox, oy, y0, x0)
  {
  }

  lemma ProgressPixel(before: Picture, now: Picture, src: Picture, ox: int, oy: int, y: nat, x: nat, c: Rgba)
    requires Progress(before, now, src, ox, oy, y, x)
    requires x < before.w && y < before.h && Under(src, ox, oy, x, y)
    requires c == Blend(now.At(x, y), src.At(x - ox, y - oy))
    ensures Progress(before, now.Put(x, y, c), src, ox, oy, y, x + 1)
  {
  }

  lemma ProgressRow(before: Picture, now: Picture, src: Picture, ox: int, oy: int, y: nat, x0: nat, x1: nat)
    requires Progress(before, now, src, ox, oy, y, x1)
    requires x0 == 0 || x0 == ox
    requires x1 == now.w || x1 == ox + src.w
    ensures Progress(before, now, src, ox, oy, y + 1, x0)
  {
  }

  /** The class of byte buffers; `w`, `h` and the length never change. */
  class Img {
    const w: nat
    const h: nat
    const data: array<Byte>

    ghost predicate Valid() {
      w < U32_LIMIT && h < U32_LIMIT && data.Length == 4 * Cell(0, h, w)
    }

    ghost function Shown(): (p: Picture)
      requires Valid()
      reads data
      ensures p.Valid() && p.w == w && p.h == h
    {
      Grid(data[..], w, h)
    }

    /** A canvas of one colour. */
    constructor (w: nat, h: nat, color: Rgba)
      requires w < U32_LIMIT && h < U32_LIMIT
      ensures Valid() && fresh(data) && this.w == w && this.h == h
      ensures forall x: nat, y: nat | x < w && y < h :: Shown().At(x, y) == color
    {
      var cells := w * h;
      CellProduct(0, h, w);
      this.w, this.h := w, h;
      this.data := new Byte[4 * cells](_ => 0);
      new;
      if color != Rgba(0, 0, 0, 0) {
        Fill(data, cells, color);
      }
      ghost var bytes := data[..];
      assert forall j | 0 <= j < cells :: Chunk(bytes, j) == color;
      forall x: nat, y: nat | x < w && y < h ensures Shown().At(x, y) == color {
        GridAt(bytes, w, h, x, y);
        CellInRange(x, y, w, h);
      }
    }

    /** `idx`: the first byte of a pixel, always in the buffer. */
    function Idx(x: nat, y: nat): (i: nat)
      requires Valid() && x < w && y < h
      ensures i + 4 <= data.Length && i == 4 * Cell(x, y, w)
    {
      CellInRange(x, y, w, h);
      CellProduct(x, y, w);
      (y * w + x) * 4
    }

    /** `blend_px`: one pixel, and nothing when it is off the canvas. */
    method BlendPx(x: int, y: int, c: Rgba)
      requires Valid()
      modifies data
      ensures Shown() == old(Shown()).BlendAt(x, y, c)
    {
      if x < 0 || y < 0 || x >= w || y >= h {
        return;
      }
      var i := Idx(x, y);
      ghost var before := data[..];
      GridAt(before, w, h, x, y);
      BlendInto(data, i / 4, c);
      WrittenPuts(before, data[..], w, h, x, y, Blend(Chunk(before, i / 4), c));
    }

    /** The clipped rectangle is empty, or the byte offsets at which its last row starts fit in 32 bits. */
    ghost predicate OffsetsFit(src: Img, ox: int, oy: int) {
      var x0, y0 := if ox > 0 then ox else 0, if oy > 0 then oy else 0;
      var x1 := if ox + src.w < w then ox + src.w else w;
      var y1 := if oy + src.h < h then oy + src.h else h;
      x0 < x1 && y0 < y1 ==>
        4 * Cell(x0, y1 - 1, w) < U32_LIMIT && 4 * Cell(x0 - ox, y1 - 1 - oy, src.w) < U32_LIMIT
    }

    /**
     * `alpha_composite`: for every offset and every canvas the clipped row loop stays within both buffers, and it
     * does what `blend_px` on each source pixel would as long as no row's byte offset leaves 32 bits.
     */
    method AlphaComposite(src: Img, ox: int, oy: int)
      requires Valid() && src.Valid() && src.data != data
      modifies data
      ensures src.Shown() == old(src.Shown())
      ensures OffsetsFit(src, ox, oy) ==> Shown() == BlendAll(old(Shown()), src.Shown(), ox, oy)
    {
      var x0, y0 := if ox > 0 then ox else 0, if oy > 0 then oy else 0;
      var x1 := if ox + src.w < w then ox + src.w else w;
      var y1 := if oy + src.h < h then oy + src.h else h;
      ghost var before, over := Shown(), src.Shown();
      if x0 >= x1 || y0 >= y1 {
        ComposedIsBlendAll(before, over, ox, oy, before);
        return;
      }
      ghost var fits := OffsetsFit(src, ox, oy);
      assert fits ==> 4 * Cell(x0, y1 - 1, w) < U32_LIMIT && 4 * Cell(x0 - ox, y1 - 1 - oy, src.w) < U32_LIMIT;
      hide OffsetsFit, Progress, Cell;
      ProgressStart(before, over, ox, oy, y0, x0);
      for y := y0 to y1
        invariant src.Shown() == over
        invariant fits ==> Progress(before, Shown(), over, ox, oy, y, x0)
      {
        CellBelow(x0, y, y1 - 1, w);
        CellBelow(x0 - ox, y - oy, y1 - 1 - oy, src.w);
        CompositeRow(src, ox, oy, y, x0, x1, before, fits);
      }
      if fits {
        ComposedIsBlendAll(before, over, ox, oy, Shown());
      }
    }

    /** One row of `alpha_composite`. */
    method CompositeRow(
        src: Img, ox: int, oy: int, y: nat, x0: nat, x1: nat, ghost before: Picture, ghost fits: bool)
      requires Valid() && src.Valid() && src.data != data
      requires ox <= x0 < x1 && x1 <= w && x1 <= ox + src.w && oy <= y < oy + src.h && y < h
      requires fits ==> 4 * Cell(x0, y, w) < U32_LIMIT && 4 * Cell(x0 - ox, y - oy, src.w) < U32_LIMIT
      requires x0 == 0 || x0 == ox
      requires x1 == w || x1 == ox + src.w
      requires fits ==> Progress(before, Shown(), src.Shown(), ox, oy, y, x0)
      modifies data
      ensures src.Shown() == old(src.Shown())
      ensures fits ==> Progress(before, Shown(), src.Shown(), ox, oy, y + 1, x0)
    {
      hide Progress, Cell;
      var sy := y - oy;
      var drow := RowStart(x0, y, w, h);
      var srow := RowStart(x0 - ox, sy, src.w, src.h);
      var count := x1 - x0;
      ghost var over := src.Shown();
      for i := 0 to count
        invariant src.Shown() == over
        invariant fits ==> Progress(before, Shown(), over, ox, oy, y, x0 + i)
      {
        CellShift(x0, i, y, w);
        CellShift(x0 - ox, i, sy, src.w);
        CompositePixel(src, ox, oy, x0 + i, y, drow + 4 * i, srow + 4 * i, before, fits);
      }
      if fits {
        ProgressRow(before, Shown(), over, ox, oy, y, x0, x1);
      }
    }

    method CompositePixel(
        src: Img, ox: int, oy: int, x: nat, y: nat, d: nat, s: nat, ghost before: Picture, ghost fits: bool)
      requires Valid() && src.Valid() && src.data != data
      requires x < w && y < h && ox <= x < ox + src.w && oy <= y < oy + src.h
      requires d % 4 == 0 && d <= 4 * Cell(x, y, w) && s % 4 == 0 && s <= 4 * Cell(x - ox, y - oy, src.w)
      requires fits ==> d == 4 * Cell(x, y, w) && s == 4 * Cell(x - ox, y - oy, src.w)
      requires fits ==> Progress(before, Shown(), src.Shown(), ox, oy, y, x)
      modifies data
      ensures src.Shown() == old(src.Shown())
      ensures fits ==> Progress(before, Shown(), src.Shown(), ox, oy, y, x + 1)
    {
      hide Cell, Blend;
      CellInRange(x, y, w, h);
      CellInRange(x - ox, y - oy, src.w, src.h);
      ghost var bytes := data[..];
      var sp := Rgba(src.data[s], src.data[s + 1], src.data[s + 2], src.data[s + 3]);
      StorePixel(data, d / 4, sp);
      if fits {
        GridAt(bytes, w, h, x, y);
        GridAt(src.data[..], src.w, src.h, x - ox, y - oy);
        ghost var c := Blend(Chunk(bytes, d / 4), sp);
        WrittenPuts(bytes, data[..], w, h, x, y, c);
        ProgressPixel(before, Grid(bytes, w, h), src.Shown(), ox, oy, y, x, c);
      }
    }
  }
}
