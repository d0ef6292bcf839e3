/** The animated GIF writer: palette lookup with a cache, delta rectangles with transparency, chunked frames. */
module GifDelta {
  import opened Numbers
  import opened Wrappers

  datatype Rgb = Rgb(r: Byte, g: Byte, b: Byte)

  const TRANSPARENT: Byte := 255
  const PAR_CHUNK_SIZE := 8

  type Quantiser = Rgb -> Byte

  /** Four-bit posterisation: the high half of the byte, repeated. */
  function Posterize(v: Byte): Byte {
    v - v % 16 + v / 16
  }

  function PosterizePixel(p: Rgb): Rgb {
    Rgb(Posterize(p.r), Posterize(p.g), Posterize(p.b))
  }

  /** Palette index of a posterised colour; the reserved index is never given out. */
  function PaletteIndex(quantise: Quantiser, p: Rgb): (v: Byte)
    ensures v != TRANSPARENT
  {
    if quantise(p) == TRANSPARENT then 254 else quantise(p)
  }

  /** The indexed frame: missing pixels stay at index 0. */
  function Indexed(quantise: Quantiser, pixels: seq<Rgb>, n: nat): (r: seq<Byte>)
    ensures |r| == n && TRANSPARENT !in r
  {
    seq(n, i => if 0 <= i < |pixels| then PaletteIndex(quantise, PosterizePixel(pixels[i])) else 0)
  }

  // ----- the lookup cache -----

  function Key(p: Rgb): int {
    p.r * 65536 + p.g * 256 + p.b
  }

  /** Whatever colour a cached key stands for, it has the cached index. */
  ghost predicate CacheSound(cache: map<int, Byte>, quantise: Quantiser) {
    forall p: Rgb | Key(p) in cache :: cache[Key(p)] == PaletteIndex(quantise, p)
  }

  lemma KeyInjective(p: Rgb, q: Rgb)
    requires Key(p) == Key(q)
    ensures p == q
  {
  }

  /** `q` has the high half of `p` in both its halves, in every channel. */
  predicate HalvesDoubled(p: Rgb, q: Rgb) {
    && q.r / 16 == p.r / 16 == q.r % 16
    && q.g / 16 == p.g / 16 == q.g % 16
    && q.b / 16 == p.b / 16 == q.b % 16
  }

  lemma PosterizeDoubles(v: Byte)
    ensures Posterize(v) / 16 == v / 16 == Posterize(v) % 16
  {
  }

  lemma PosterizedIs(p: Rgb, q: Rgb)
    ensures HalvesDoubled(p, q) <==> q == PosterizePixel(p)
  {
    PosterizeDoubles(p.r);
    PosterizeDoubles(p.g);
    PosterizeDoubles(p.b);
  }

  method IndexFrame(quantise: Quantiser, pixels: seq<Rgb>, n: nat, cache: map<int, Byte>)
    returns (indexed: seq<Byte>, cache': map<int, Byte>)
    requires CacheSound(cache, quantise)
    ensures indexed == Indexed(quantise, pixels, n)
    ensures forall i, q | 0 <= i < n && i < |pixels| && HalvesDoubled(pixels[i], q) ::
      indexed[i] == if quantise(q) == 255 then 254 else quantise(q)
    ensures forall i | |pixels| <= i < n :: indexed[i] == 0
    ensures CacheSound(cache', quantise)
  {
    var buffer := new Byte[n](_ => 0);
    cache' := cache;
    var count := if |pixels| < n then |pixels| else n;
    for i := 0 to count
      invariant CacheSound(cache', quantise)
      invariant forall k | 0 <= k < i :: buffer[k] == Indexed(quantise, pixels, n)[k]
      invariant forall k | i <= k < n :: buffer[k] == 0
    {
      var p := PosterizePixel(pixels[i]);
      if Key(p) !in cache' {
        var idx := quantise(p);
        var value: Byte := if idx == TRANSPARENT then 254 else idx;
        ghost var before := cache';
        cache' := cache'[Key(p) := value];
        forall q: Rgb | Key(q) in cache' ensures cache'[Key(q)] == PaletteIndex(quantise, q) {
          if Key(q) == Key(p) {
            KeyInjective(p, q);
          } else {
            assert Key(q) in before;
          }
        }
      }
      buffer[i] := cache'[Key(p)];
    }
    indexed := buffer[..];
    forall i, q | 0 <= i < count && HalvesDoubled(pixels[i], q)
      ensures indexed[i] == if quantise(q) == 255 then 254 else quantise(q)
    {
      PosterizedIs(pixels[i], q);
    }
  }

  // ----- the grid -----

  lemma MulMonotone(a: int, b: int, w: nat)
    requires a <= b
    ensures a * w <= b * w
  {
  }

  lemma DivideUnique(w: nat, q: int, r: int, y: int, x: int)
    requires q * w + r == y * w + x && 0 <= r < w && 0 <= x < w
    ensures q == y && r == x
  {
    if q < y {
      MulMonotone(q + 1, y, w);
    } else if y < q {
      MulMonotone(y + 1, q, w);
    }
  }

  lemma DivideCell(w: nat, x: nat, y: nat)
    requires x < w
    ensures (y * w + x) / w == y && (y * w + x) % w == x
  {
    var i := y * w + x;
    DivideUnique(w, i / w, i % w, y, x);
  }

  lemma Cell(w: nat, h: nat, x: nat, y: nat)
    requires x < w && y < h
    ensures 0 <= y * w + x < w * h
    ensures (y * w + x) / w == y && (y * w + x) % w == x
  {
    MulMonotone(y + 1, h, w);
    DivideCell(w, x, y);
  }

  lemma CellOf(w: nat, h: nat, i: nat)
    requires i < w * h
    ensures w > 0 && i % w < w && i / w < h && (i / w) * w + i % w == i
  {
    if h <= i / w {
      MulMonotone(h, i / w, w);
    }
  }

  function At(s: seq<Byte>, w: nat, h: nat, x: nat, y: nat): Byte
    requires |s| == w * h && x < w && y < h
  {
    Cell(w, h, x, y);
    s[y * w + x]
  }

  // ----- frames and their meaning -----

  datatype GifFrame = GifFrame(
    left: nat, top: nat, width: nat, height: nat, transparent: Option<Byte>, buffer: seq<Byte>)

  predicate Fits(f: GifFrame, w: nat, h: nat) {
    && f.width > 0 && f.height > 0
    && f.left + f.width <= w && f.top + f.height <= h
    && |f.buffer| == f.width * f.height
  }

  predicate Covers(f: GifFrame, x: nat, y: nat) {
    f.left <= x < f.left + f.width && f.top <= y < f.top + f.height
  }

  /**
   * What a decoder shows at a pixel after drawing `f` over a canvas that is not disposed of
   * (section 23 of the GIF89a specification): a transparent pixel leaves the canvas as it is.
   */
  function Shown(canvas: Byte, f: GifFrame, w: nat, h: nat, x: nat, y: nat): Byte
    requires Fits(f, w, h)
  {
    if Covers(f, x, y) then
      var v := At(f.buffer, f.width, f.height, x - f.left, y - f.top);
      if f.transparent == Some(v) then canvas else v
    else canvas
  }

  function Draw(canvas: seq<Byte>, f: GifFrame, w: nat, h: nat): (r: seq<Byte>)
    requires |canvas| == w * h && Fits(f, w, h)
    ensures |r| == w * h
  {
    seq(w * h, i requires 0 <= i < w * h => CellOf(w, h, i); Shown(canvas[i], f, w, h, i % w, i / w))
  }

  lemma DrawIs(canvas: seq<Byte>, f: GifFrame, w: nat, h: nat, target: seq<Byte>)
    requires |canvas| == |target| == w * h && Fits(f, w, h)
    requires forall x: nat, y: nat | x < w && y < h ::
      Shown(At(canvas, w, h, x, y), f, w, h, x, y) == At(target, w, h, x, y)
    ensures Draw(canvas, f, w, h) == target
  {
    forall i | 0 <= i < w * h ensures Draw(canvas, f, w, h)[i] == target[i] {
      CellOf(w, h, i);
      var x, y := i % w, i / w;
      assert Shown(At(canvas, w, h, x, y), f, w, h, x, y) == At(target, w, h, x, y);
    }
  }

  // ----- the delta of two frames -----

  predicate Changed(prev: seq<Byte>, cur: seq<Byte>, w: nat, h: nat, x: nat, y: nat)
    requires |prev| == |cur| == w * h
  {
    x < w && y < h && At(prev, w, h, x, y) != At(cur, w, h, x, y)
  }

  ghost predicate AnyChange(prev: seq<Byte>, cur: seq<Byte>, w: nat, h: nat)
    requires |prev| == |cur| == w * h
  {
    exists x: nat, y: nat :: Changed(prev, cur, w, h, x, y)
  }

  datatype Box = Box(minX: nat, minY: nat, maxX: nat, maxY: nat)

  /** `b` is the bounding box of the changes among the cells scanned: whole rows below `y`, then up to `x`. */
  ghost predicate Bounds(b: Box, prev: seq<Byte>, cur: seq<Byte>, w: nat, h: nat, x: nat, y: nat)
    requires |prev| == |cur| == w * h
  {
    && (forall p: nat, q: nat | Changed(prev, cur, w, h, p, q) && (q < y || (q == y && p < x)) ::
          b.minX <= p <= b.maxX && b.minY <= q <= b.maxY)
    && (b == Box(w, h, 0, 0)
        || (&& b.minX <= b.maxX < w && b.minY <= b.maxY < h
            && (exists q: nat :: Changed(prev, cur, w, h, b.minX, q))
            && (exists q: nat :: Changed(prev, cur, w, h, b.maxX, q))
            && (exists p: nat :: Changed(prev, cur, w, h, p, b.minY))
            && (exists p: nat :: Changed(prev, cur, w, h, p, b.maxY))))
  }

  lemma GrowBox(b: Box, prev: seq<Byte>, cur: seq<Byte>, w: nat, h: nat, x: nat, y: nat)
    requires |prev| == |cur| == w * h && x < w && y < h
    requires Bounds(b, prev, cur, w, h, x, y) && Changed(prev, cur, w, h, x, y)
    ensures Bounds(Grow(b, x, y), prev, cur, w, h, x + 1, y)
  {
  }

  function Grow(b: Box, x: nat, y: nat): Box {
    Box(if x < b.minX then x else b.minX, if y < b.minY then y else b.minY,
        if x > b.maxX then x else b.maxX, if y > b.maxY then y else b.maxY)
  }

  method FindBox(prev: seq<Byte>, cur: seq<Byte>, w: nat, h: nat) returns (b: Box)
    requires |prev| == |cur| == w * h && w > 0 && h > 0
    ensures Bounds(b, prev, cur, w, h, 0, h)
  {
    var minX, minY, maxX, maxY := w, h, 0, 0;
    for y := 0 to h
      invariant Bounds(Box(minX, minY, maxX, maxY), prev, cur, w, h, 0, y)
    {
      for x := 0 to w
        invariant Bounds(Box(minX, minY, maxX, maxY), prev, cur, w, h, x, y)
      {
        if At(cur, w, h, x, y) != At(prev, w, h, x, y) {
          GrowBox(Box(minX, minY, maxX, maxY), prev, cur, w, h, x, y);
          if x < minX { minX := x; }
          if x > maxX { maxX := x; }
          if y < minY { minY := y; }
          if y > maxY { maxY := y; }
        }
      }
    }
    b := Box(minX, minY, maxX, maxY);
  }

  function DeltaValue(prev: seq<Byte>, cur: seq<Byte>, w: nat, h: nat, x: nat, y: nat): Byte
    requires |prev| == |cur| == w * h && x < w && y < h
  {
    if At(cur, w, h, x, y) == At(prev, w, h, x, y) then TRANSPARENT else At(cur, w, h, x, y)
  }

  /** The value in cell `k` of the rectangle's buffer, rows being `rw` wide. */
  function DeltaCell(prev: seq<Byte>, cur: seq<Byte>, w: nat, h: nat, b: Box, rw: nat, k: nat): Byte
    requires |prev| == |cur| == w * h && rw > 0
  {
    var x, y := b.minX + k % rw, b.minY + k / rw;
    if x < w && y < h then DeltaValue(prev, cur, w, h, x, y) else 0
  }

  /** One row of the rectangle's buffer. */
  method DeltaRow(prev: seq<Byte>, cur: seq<Byte>, w: nat, h: nat, b: Box, y: nat) returns (row: seq<Byte>)
    requires |prev| == |cur| == w * h && b.minX <= b.maxX < w && y < h
    ensures |row| == b.maxX - b.minX + 1
    ensures forall p | 0 <= p < |row| :: row[p] == DeltaValue(prev, cur, w, h, b.minX + p, y)
  {
    row := [];
    for x := b.minX to b.maxX + 1
      invariant |row| == x - b.minX
      invariant forall p | 0 <= p < |row| :: row[p] == DeltaValue(prev, cur, w, h, b.minX + p, y)
    {
      var v := At(cur, w, h, x, y);
      row := row + [if v == At(prev, w, h, x, y) then TRANSPARENT else v];
    }
  }

  lemma AppendRow(
      prev: seq<Byte>, cur: seq<Byte>, w: nat, h: nat, b: Box, rw: nat, j: nat, buf: seq<Byte>, row: seq<Byte>)
    requires |prev| == |cur| == w * h && 0 < rw == |row| && |buf| == j * rw
    requires b.minX + rw <= w && b.minY + j < h
    requires forall k | 0 <= k < |buf| :: buf[k] == DeltaCell(prev, cur, w, h, b, rw, k)
    requires forall p | 0 <= p < rw :: row[p] == DeltaValue(prev, cur, w, h, b.minX + p, b.minY + j)
    ensures |buf + row| == (j + 1) * rw
    ensures forall k | 0 <= k < |buf + row| :: (buf + row)[k] == DeltaCell(prev, cur, w, h, b, rw, k)
  {
    forall k | 0 <= k < |buf + row| ensures (buf + row)[k] == DeltaCell(prev, cur, w, h, b, rw, k) {
      if k >= |buf| {
        DivideCell(rw, k - |buf|, j);
      }
    }
  }

  /** The buffer of the rectangle, row by row. */
  method DeltaBuffer(prev: seq<Byte>, cur: seq<Byte>, w: nat, h: nat, b: Box) returns (buf: seq<Byte>)
    requires |prev| == |cur| == w * h && b.minX <= b.maxX < w && b.minY <= b.maxY < h
    ensures var rw, rh := b.maxX - b.minX + 1, b.maxY - b.minY + 1;
      |buf| == rw * rh && forall k | 0 <= k < |buf| :: buf[k] == DeltaCell(prev, cur, w, h, b, rw, k)
  {
    var rw := b.maxX - b.minX + 1;
    buf := [];
    for y := b.minY to b.maxY + 1
      invariant |buf| == (y - b.minY) * rw
      invariant forall k | 0 <= k < |buf| :: buf[k] == DeltaCell(prev, cur, w, h, b, rw, k)
    {
      var row := DeltaRow(prev, cur, w, h, b, y);
      AppendRow(prev, cur, w, h, b, rw, y - b.minY, buf, row);
      buf := buf + row;
    }
  }

  ghost predicate ColumnChanged(prev: seq<Byte>, cur: seq<Byte>, w: nat, h: nat, x: nat)
    requires |prev| == |cur| == w * h
  {
    exists y: nat :: Changed(prev, cur, w, h, x, y)
  }

  ghost predicate RowChanged(prev: seq<Byte>, cur: seq<Byte>, w: nat, h: nat, y: nat)
    requires |prev| == |cur| == w * h
  {
    exists x: nat :: Changed(prev, cur, w, h, x, y)
  }

  /** The rectangle is as small as it can be: each of its four edges holds a changed pixel. */
  ghost predicate Tight(f: GifFrame, prev: seq<Byte>, cur: seq<Byte>, w: nat, h: nat)
    requires |prev| == |cur| == w * h && f.width > 0 && f.height > 0
  {
    && ColumnChanged(prev, cur, w, h, f.left)
    && ColumnChanged(prev, cur, w, h, f.left + f.width - 1)
    && RowChanged(prev, cur, w, h, f.top)
    && RowChanged(prev, cur, w, h, f.top + f.height - 1)
  }

  const NO_CHANGE := GifFrame(0, 0, 1, 1, Some(TRANSPARENT), [TRANSPARENT])

  lemma NothingShown(prev: seq<Byte>, cur: seq<Byte>, w: nat, h: nat, b: Box)
    requires |prev| == |cur| == w * h && w > 0 && h > 0
    requires Bounds(b, prev, cur, w, h, 0, h) && b.minX > b.maxX
    ensures Draw(prev, NO_CHANGE, w, h) == cur && !AnyChange(prev, cur, w, h)
  {
    forall x: nat, y: nat | x < w && y < h
      ensures Shown(At(prev, w, h, x, y), NO_CHANGE, w, h, x, y) == At(cur, w, h, x, y)
    {
      assert !Changed(prev, cur, w, h, x, y);
    }
    DrawIs(prev, NO_CHANGE, w, h, cur);
  }

  function DeltaFrame(b: Box, buf: seq<Byte>): GifFrame
    requires b.minX <= b.maxX && b.minY <= b.maxY
  {
    GifFrame(b.minX, b.minY, b.maxX - b.minX + 1, b.maxY - b.minY + 1, Some(TRANSPARENT), buf)
  }

  lemma DeltaShown(prev: seq<Byte>, cur: seq<Byte>, w: nat, h: nat, b: Box, f: GifFrame, x: nat, y: nat)
    requires |prev| == |cur| == w * h && TRANSPARENT !in cur && x < w && y < h
    requires Bounds(b, prev, cur, w, h, 0, h) && b.minX <= b.maxX < w && b.minY <= b.maxY < h
    requires f == DeltaFrame(b, f.buffer) && |f.buffer| == f.width * f.height
    requires forall k | 0 <= k < |f.buffer| :: f.buffer[k] == DeltaCell(prev, cur, w, h, b, f.width, k)
    ensures Shown(At(prev, w, h, x, y), f, w, h, x, y) == At(cur, w, h, x, y)
  {
    Cell(w, h, x, y);
    assert At(cur, w, h, x, y) in cur;
    if Covers(f, x, y) {
      Cell(f.width, f.height, x - f.left, y - f.top);
    } else {
      assert !Changed(prev, cur, w, h, x, y);
    }
  }

  lemma DeltaDrawn(prev: seq<Byte>, cur: seq<Byte>, w: nat, h: nat, b: Box, buf: seq<Byte>)
    requires |prev| == |cur| == w * h && TRANSPARENT !in cur
    requires Bounds(b, prev, cur, w, h, 0, h) && b.minX <= b.maxX
    requires b.minX <= b.maxX < w && b.minY <= b.maxY < h
    requires var rw, rh := b.maxX - b.minX + 1, b.maxY - b.minY + 1;
      |buf| == rw * rh && forall k | 0 <= k < |buf| :: buf[k] == DeltaCell(prev, cur, w, h, b, rw, k)
    ensures Draw(prev, DeltaFrame(b, buf), w, h) == cur
  {
    var f := DeltaFrame(b, buf);
    forall x: nat, y: nat | x < w && y < h
      ensures Shown(At(prev, w, h, x, y), f, w, h, x, y) == At(cur, w, h, x, y)
    {
      DeltaShown(prev, cur, w, h, b, f, x, y);
    }
    DrawIs(prev, f, w, h, cur);
  }

  lemma DeltaTight(prev: seq<Byte>, cur: seq<Byte>, w: nat, h: nat, b: Box, buf: seq<Byte>)
    requires |prev| == |cur| == w * h && w > 0 && h > 0
    requires Bounds(b, prev, cur, w, h, 0, h) && b.minX <= b.maxX
    ensures b.maxX < w && b.minY <= b.maxY < h
    ensures Tight(DeltaFrame(b, buf), prev, cur, w, h) && AnyChange(prev, cur, w, h)
  {
    var f := DeltaFrame(b, buf);
    assert f.left + f.width - 1 == b.maxX && f.top + f.height - 1 == b.maxY;
    var q: nat :| Changed(prev, cur, w, h, b.minX, q);
  }

  /** The buffer spends a colour exactly on the pixels that changed. */
  ghost predicate Sparse(f: GifFrame, prev: seq<Byte>, cur: seq<Byte>, w: nat, h: nat)
    requires |prev| == |cur| == w * h && Fits(f, w, h)
  {
    forall x: nat, y: nat | Covers(f, x, y) ::
      At(f.buffer, f.width, f.height, x - f.left, y - f.top) == TRANSPARENT <==> !Changed(prev, cur, w, h, x, y)
  }

  lemma DeltaSparse(prev: seq<Byte>, cur: seq<Byte>, w: nat, h: nat, b: Box, buf: seq<Byte>)
    requires |prev| == |cur| == w * h && TRANSPARENT !in cur
    requires b.minX <= b.maxX < w && b.minY <= b.maxY < h
    requires var rw, rh := b.maxX - b.minX + 1, b.maxY - b.minY + 1;
      |buf| == rw * rh && forall k | 0 <= k < |buf| :: buf[k] == DeltaCell(prev, cur, w, h, b, rw, k)
    ensures Sparse(DeltaFrame(b, buf), prev, cur, w, h)
  {
    var f := DeltaFrame(b, buf);
    forall x: nat, y: nat | Covers(f, x, y)
      ensures At(f.buffer, f.width, f.height, x - f.left, y - f.top) == TRANSPARENT
        <==> !Changed(prev, cur, w, h, x, y)
    {
      Cell(w, h, x, y);
      Cell(f.width, f.height, x - f.left, y - f.top);
      assert At(cur, w, h, x, y) in cur;
    }
  }

  /** One frame of the animation: drawn over its predecessor it gives the frame, from the smallest rectangle. */
  method EncodeDelta(prev: seq<Byte>, cur: seq<Byte>, w: nat, h: nat) returns (f: GifFrame)
    requires |prev| == |cur| == w * h && w > 0 && h > 0 && TRANSPARENT !in cur
    ensures Fits(f, w, h) && Draw(prev, f, w, h) == cur
    ensures if AnyChange(prev, cur, w, h) then Tight(f, prev, cur, w, h) else f == NO_CHANGE
    ensures Sparse(f, prev, cur, w, h)
  {
    var b := FindBox(prev, cur, w, h);
    if b.minX > b.maxX {
      NothingShown(prev, cur, w, h, b);
      f := NO_CHANGE;
    } else {
      DeltaTight(prev, cur, w, h, b, []);
      var buf := DeltaBuffer(prev, cur, w, h, b);
      f := DeltaFrame(b, buf);
      DeltaDrawn(prev, cur, w, h, b, buf);
      DeltaTight(prev, cur, w, h, b, buf);
      DeltaSparse(prev, cur, w, h, b, buf);
    }
  }

  // ----- the whole animation -----

  predicate AllFit(frames: seq<GifFrame>, w: nat, h: nat) {
    forall k | 0 <= k < |frames| :: Fits(frames[k], w, h)
  }

  /** The canvas after drawing the frames in order. */
  function Replay(canvas: seq<Byte>, frames: seq<GifFrame>, w: nat, h: nat): (r: seq<Byte>)
    requires |canvas| == w * h && AllFit(frames, w, h)
    ensures |r| == w * h
  {
    if frames == [] then canvas
    else Draw(Replay(canvas, frames[..|frames| - 1], w, h), frames[|frames| - 1], w, h)
  }

  /** The first frame covers the canvas and has no transparency: what was there before does not matter. */
  lemma FirstFrame(canvas: seq<Byte>, cur: seq<Byte>, w: nat, h: nat)
    requires |canvas| == |cur| == w * h && w > 0 && h > 0
    ensures Fits(GifFrame(0, 0, w, h, None, cur), w, h)
    ensures Draw(canvas, GifFrame(0, 0, w, h, None, cur), w, h) == cur
  {
    DrawIs(canvas, GifFrame(0, 0, w, h, None, cur), w, h, cur);
  }

  /** What frame `k` shows, whatever the canvas held at the start. */
  ghost predicate ShowsFrame(
      frames: seq<GifFrame>, k: nat, quantise: Quantiser, render: nat -> seq<Rgb>, w: nat, h: nat)
    requires AllFit(frames, w, h)
  {
    k < |frames| ==> forall canvas: seq<Byte> | |canvas| == w * h ::
      Replay(canvas, frames[..k + 1], w, h) == Indexed(quantise, render(k), w * h)
  }

  ghost predicate ShowsAll(
      frames: seq<GifFrame>, quantise: Quantiser, render: nat -> seq<Rgb>, w: nat, h: nat)
  {
    AllFit(frames, w, h) && forall k: nat | k < |frames| :: ShowsFrame(frames, k, quantise, render, w, h)
  }

  /** `f` is a right next frame after `frames`. */
  ghost predicate NextFrame(
      frames: seq<GifFrame>, f: GifFrame, quantise: Quantiser, render: nat -> seq<Rgb>, w: nat, h: nat)
  {
    var cur := Indexed(quantise, render(|frames|), w * h);
    && w > 0 && h > 0 && Fits(f, w, h)
    && if frames == [] then f == GifFrame(0, 0, w, h, None, cur)
       else Draw(Indexed(quantise, render(|frames| - 1), w * h), f, w, h) == cur
  }

  lemma ShowsLast(
      frames: seq<GifFrame>, f: GifFrame, quantise: Quantiser, render: nat -> seq<Rgb>, w: nat, h: nat,
      canvas: seq<Byte>)
    requires ShowsAll(frames, quantise, render, w, h) && NextFrame(frames, f, quantise, render, w, h)
    requires |canvas| == w * h && AllFit(frames + [f], w, h)
    ensures Replay(canvas, frames + [f], w, h) == Indexed(quantise, render(|frames|), w * h)
  {
    var n := |frames|;
    assert (frames + [f])[..n] == frames;
    if n == 0 {
      FirstFrame(canvas, Indexed(quantise, render(0), w * h), w, h);
    } else {
      assert ShowsFrame(frames, n - 1, quantise, render, w, h);
      assert frames[..n] == frames;
    }
  }

  lemma ShowsOneMore(
      frames: seq<GifFrame>, f: GifFrame, quantise: Quantiser, render: nat -> seq<Rgb>, w: nat, h: nat)
    requires ShowsAll(frames, quantise, render, w, h) && NextFrame(frames, f, quantise, render, w, h)
    ensures ShowsAll(frames + [f], quantise, render, w, h)
  {
    var all := frames + [f];
    assert AllFit(all, w, h);
    forall k: nat | k < |all| ensures ShowsFrame(all, k, quantise, render, w, h) {
      if k < |frames| {
        assert all[..k + 1] == frames[..k + 1];
        assert ShowsFrame(frames, k, quantise, render, w, h);
      } else {
        assert all[..k + 1] == all;
        forall canvas: seq<Byte> | |canvas| == w * h
          ensures Replay(canvas, all, w, h) == Indexed(quantise, render(k), w * h)
        {
          ShowsLast(frames, f, quantise, render, w, h, canvas);
        }
      }
    }
  }

  /**
   * The frame loop of `save_animated_gif_streamed`: rendered in chunks, encoded in order, so that replaying
   * the first frames reproduces each indexed frame exactly, across chunk borders and for unchanged frames.
   */
  method EncodeAnimation(quantise: Quantiser, render: nat -> seq<Rgb>, frameCount: nat, w: nat, h: nat)
    returns (frames: seq<GifFrame>)
    requires w > 0 && h > 0
    ensures |frames| == frameCount && ShowsAll(frames, quantise, render, w, h)
  {
    hide Draw, Replay, ShowsFrame;
    frames := [];
    var cache: map<int, Byte> := map[];
    var prevIndexed: seq<Byte> := [];
    var chunkStart := 0;
    while chunkStart < frameCount
      invariant 0 <= chunkStart && |frames| == if chunkStart < frameCount then chunkStart else frameCount
      invariant CacheSound(cache, quantise) && ShowsAll(frames, quantise, render, w, h)
      invariant frames != [] ==> prevIndexed == Indexed(quantise, render(|frames| - 1), w * h)
      decreases frameCount - chunkStart
    {
      var chunkEnd := if chunkStart + PAR_CHUNK_SIZE < frameCount then chunkStart + PAR_CHUNK_SIZE else frameCount;
      var rendered := seq(chunkEnd - chunkStart, k requires 0 <= k < chunkEnd - chunkStart => render(chunkStart + k));
      for fi := chunkStart to chunkEnd
        invariant |frames| == fi
        invariant CacheSound(cache, quantise) && ShowsAll(frames, quantise, render, w, h)
        invariant frames != [] ==> prevIndexed == Indexed(quantise, render(|frames| - 1), w * h)
      {
        var indexed;
        indexed, cache := IndexFrame(quantise, rendered[fi - chunkStart], w * h, cache);
        var f;
        if fi == 0 {
          f := GifFrame(0, 0, w, h, None, indexed);
        } else {
          f := EncodeDelta(prevIndexed, indexed, w, h);
        }
        ShowsOneMore(frames, f, quantise, render, w, h);
        frames := frames + [f];
        prevIndexed := indexed;
      }
      chunkStart := chunkStart + PAR_CHUNK_SIZE;
    }
  }
}
