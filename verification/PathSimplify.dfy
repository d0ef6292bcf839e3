/** Ramer-Douglas-Peucker simplification with an explicit stack. */
module PathSimplify {
  import opened Geometry
  import opened Numbers
  import opened StableSort
  import opened Sequences

  const DEGENERATE := 0.0001

  /** Ratio of the point of the segment from `a` to `b` that is compared with `p`. */
  function Foot(a: Point, b: Point, p: Point): (t: real)
    ensures 0.0 <= t <= 1.0
  {
    var d := Minus(b, a);
    if NormSq(d) < DEGENERATE || NormSq(d) == 0.0 then 0.0
    else Clamp(Dot(Minus(p, a), d) / NormSq(d))
  }

  /** Squared distance of `p` from its foot on the segment from `a` to `b`. */
  function OffSegment(a: Point, b: Point, p: Point): real {
    NormSq(Minus(p, Lerp(a, b, Foot(a, b, p))))
  }

  // ----- the foot is the nearest point -----

  /** `f(t)` is the squared length of `(x, y) - t (u, v)`. */
  function AtRatio(x: real, y: real, u: real, v: real, t: real): real {
    NormSq(Point(x - t * u, y - t * v))
  }

  lemma AtRatioIs(x: real, y: real, u: real, v: real, t: real)
    ensures AtRatio(x, y, u, v, t) == x * x + y * y - 2.0 * (t * (x * u + y * v)) + t * t * (u * u + v * v)
  {
    assert (x - t * u) * (x - t * u) == x * x - 2.0 * (t * (x * u)) + t * t * (u * u);
    assert (y - t * v) * (y - t * v) == y * y - 2.0 * (t * (y * v)) + t * t * (v * v);
    assert t * (x * u + y * v) == t * (x * u) + t * (y * v);
    assert t * t * (u * u + v * v) == t * t * (u * u) + t * t * (v * v);
  }

  lemma SameSign(a: real, b: real)
    requires (a >= 0.0 && b >= 0.0) || (a <= 0.0 && b <= 0.0)
    ensures a * b >= 0.0
  {
  }

  lemma FromVertex(n: real, q: real, s: real, t: real)
    ensures -2.0 * (t * (n * q)) + t * t * n - (-2.0 * (s * (n * q)) + s * s * n)
         == n * ((t - s) * (t - s)) + 2.0 * (n * ((t - s) * (s - q)))
  {
    assert (t - s) * (t - s) == t * t - 2.0 * (t * s) + s * s;
    assert (t - s) * (s - q) == t * s - t * q - s * s + s * q;
    assert n * ((t - s) * (t - s)) == n * (t * t) - 2.0 * (n * (t * s)) + n * (s * s);
    assert n * ((t - s) * (s - q)) == n * (t * s) - n * (t * q) - n * (s * s) + n * (s * q);
  }

  /** Of a parabola opening upwards, the clamped vertex is the lowest point between 0 and 1. */
  lemma ClampedVertex(n: real, c: real, s: real, t: real)
    requires n > 0.0 && s == Clamp(c / n) && 0.0 <= t <= 1.0
    ensures -2.0 * (s * c) + s * s * n <= -2.0 * (t * c) + t * t * n
  {
    var q := c / n;
    assert n * q == c;
    SquareNonNegative(t - s);
    SameSign(t - s, s - q);
    SameSign(n, (t - s) * (t - s));
    SameSign(n, (t - s) * (s - q));
    FromVertex(n, q, s, t);
  }

  /** The segment is long enough for its foot to be computed. */
  predicate ProperSegment(a: Point, b: Point) {
    NormSq(Minus(b, a)) >= 0.0001
  }

  lemma LowestAtRatio(x: real, y: real, u: real, v: real, n: real, c: real, s: real, t: real)
    requires n == u * u + v * v && n > 0.0 && c == x * u + y * v && s == Clamp(c / n) && 0.0 <= t <= 1.0
    ensures AtRatio(x, y, u, v, s) <= AtRatio(x, y, u, v, t)
  {
    hide Clamp, AtRatio;
    AtRatioIs(x, y, u, v, s);
    AtRatioIs(x, y, u, v, t);
    ClampedVertex(n, c, s, t);
  }

  lemma ProperFoot(a: Point, b: Point, p: Point)
    requires ProperSegment(a, b)
    ensures NormSq(Minus(b, a)) > 0.0
    ensures Foot(a, b, p) == Clamp(Dot(Minus(p, a), Minus(b, a)) / NormSq(Minus(b, a)))
  {
    hide NormSq, Clamp, Dot;
  }

  lemma SegmentTerms(a: Point, b: Point, p: Point)
    ensures NormSq(Minus(b, a)) == (b.x - a.x) * (b.x - a.x) + (b.y - a.y) * (b.y - a.y)
    ensures Dot(Minus(p, a), Minus(b, a)) == (p.x - a.x) * (b.x - a.x) + (p.y - a.y) * (b.y - a.y)
  {
  }

  /** No point of the segment is nearer to `p` than its foot. */
  lemma FootNearest(a: Point, b: Point, p: Point, t: real)
    requires 0.0 <= t <= 1.0 && ProperSegment(a, b)
    ensures OffSegment(a, b, p) <= NormSq(Minus(p, Lerp(a, b, t)))
  {
    hide Clamp, Foot, NormSq, Dot, Minus, Lerp, AtRatio;
    var s := Foot(a, b, p);
    ProperFoot(a, b, p);
    SegmentTerms(a, b, p);
    LerpOffset(a, b, p, t);
    LerpOffset(a, b, p, s);
    var u, v, x, y := b.x - a.x, b.y - a.y, p.x - a.x, p.y - a.y;
    LowestAtRatio(x, y, u, v, NormSq(Minus(b, a)), Dot(Minus(p, a), Minus(b, a)), s, t);
  }

  /** The foot on a tiny segment is its start. */
  lemma TinyFoot(a: Point, b: Point, p: Point)
    requires !ProperSegment(a, b)
    ensures OffSegment(a, b, p) == NormSq(Minus(p, a))
  {
    assert Foot(a, b, p) == 0.0;
    assert Lerp(a, b, 0.0) == a;
  }

  lemma LerpOffset(a: Point, b: Point, p: Point, t: real)
    ensures NormSq(Minus(p, Lerp(a, b, t))) == AtRatio(p.x - a.x, p.y - a.y, b.x - a.x, b.y - a.y, t)
  {
    assert (b.x - a.x) * t == t * (b.x - a.x) && (b.y - a.y) * t == t * (b.y - a.y);
  }

  /** `p` is farther than the tolerance from every point of the segment; of a tiny one, from its start. */
  ghost predicate FarFrom(a: Point, b: Point, p: Point, toleranceSq: real) {
    if ProperSegment(a, b) then forall t: real | 0.0 <= t <= 1.0 :: !WithinOf(a, b, p, t, toleranceSq)
    else NormSq(Minus(p, a)) > toleranceSq
  }

  lemma OffIsFar(a: Point, b: Point, p: Point, toleranceSq: real)
    ensures FarFrom(a, b, p, toleranceSq) <==> OffSegment(a, b, p) > toleranceSq
  {
    hide Foot, NormSq, Minus;
    if !ProperSegment(a, b) {
      TinyFoot(a, b, p);
    } else if OffSegment(a, b, p) > toleranceSq {
      forall t: real | 0.0 <= t <= 1.0 ensures !WithinOf(a, b, p, t, toleranceSq) {
        FootNearest(a, b, p, t);
      }
    } else {
      assert WithinOf(a, b, p, Foot(a, b, p), toleranceSq);
    }
  }

  function Off(points: seq<Point>, start: nat, end: nat, i: nat): real
    requires start < |points| && end < |points| && i < |points|
  {
    OffSegment(points[start], points[end], points[i])
  }

  /** Largest offset among the points between `start` and `n`, and the first point that has it. */
  function Farthest(points: seq<Point>, start: nat, end: nat, n: nat): (r: (real, nat))
    requires start < n <= end < |points|
    ensures r.0 >= 0.0
    ensures forall i | start < i < n :: Off(points, start, end, i) <= r.0
    ensures r.0 > 0.0 ==> start < r.1 < n && Off(points, start, end, r.1) == r.0
  {
    if n == start + 1 then (0.0, start)
    else
      var r := Farthest(points, start, end, n - 1);
      if Off(points, start, end, n - 1) > r.0 then (Off(points, start, end, n - 1), n - 1) else r
  }

  /** The indices kept after `start`, up to and including `end`. */
  function Keep(points: seq<Point>, toleranceSq: real, start: nat, end: nat): (r: seq<nat>)
    requires start < end < |points| && toleranceSq >= 0.0
    ensures r != [] && r[|r| - 1] == end && r[0] > start
    ensures forall k | 0 < k < |r| :: r[k - 1] < r[k]
    decreases end - start
  {
    if end - start < 2 || Farthest(points, start, end, end).0 <= toleranceSq then [end]
    else
      var m := Farthest(points, start, end, end).1;
      Keep(points, toleranceSq, start, m) + Keep(points, toleranceSq, m, end)
  }

  function KeptIndices(points: seq<Point>, toleranceSq: real): seq<nat>
    requires |points| >= 3 && toleranceSq >= 0.0
  {
    [0] + Keep(points, toleranceSq, 0, |points| - 1)
  }

  /** Every point strictly between `a` and `b` is within the tolerance of their segment. */
  predicate GapClose(points: seq<Point>, toleranceSq: real, a: nat, b: nat) {
    a < |points| && b < |points| && forall j | a < j < b :: Off(points, a, b, j) <= toleranceSq
  }

  /** All gaps from `start` through the kept indices are close. */
  predicate Covered(points: seq<Point>, toleranceSq: real, start: nat, kept: seq<nat>)
    decreases |kept|
  {
    kept == []
    || (GapClose(points, toleranceSq, start, kept[0]) && Covered(points, toleranceSq, kept[0], kept[1..]))
  }

  lemma {:induction false} KeepCovers(points: seq<Point>, toleranceSq: real, start: nat, end: nat)
    requires start < end < |points| && toleranceSq >= 0.0
    ensures Covered(points, toleranceSq, start, Keep(points, toleranceSq, start, end))
    decreases end - start
  {
    if end - start < 2 || Farthest(points, start, end, end).0 <= toleranceSq {
      assert GapClose(points, toleranceSq, start, end);
    } else {
      var m := Farthest(points, start, end, end).1;
      KeepCovers(points, toleranceSq, start, m);
      KeepCovers(points, toleranceSq, m, end);
      JoinCovered(points, toleranceSq, start, Keep(points, toleranceSq, start, m),
                  Keep(points, toleranceSq, m, end));
    }
  }

  lemma {:induction false} JoinCovered(
      points: seq<Point>, toleranceSq: real, start: nat, a: seq<nat>, b: seq<nat>)
    requires a != [] && Covered(points, toleranceSq, start, a) && Covered(points, toleranceSq, a[|a| - 1], b)
    ensures Covered(points, toleranceSq, start, a + b)
    decreases |a|
  {
    assert (a + b)[1..] == a[1..] + b;
    if |a| == 1 {
      assert a[1..] + b == b;
    } else {
      JoinCovered(points, toleranceSq, a[0], a[1..], b);
    }
  }

  lemma {:induction false} CoveredAt(points: seq<Point>, toleranceSq: real, start: nat, kept: seq<nat>, k: nat)
    requires Covered(points, toleranceSq, start, kept) && k < |kept|
    ensures GapClose(points, toleranceSq, ([start] + kept)[k], kept[k])
    decreases k
  {
    if k > 0 {
      CoveredAt(points, toleranceSq, kept[0], kept[1..], k - 1);
      assert ([start] + kept)[k] == ([kept[0]] + kept[1..])[k - 1];
    }
  }

  /**
   * What simplification promises: every dropped point is within the tolerance of the segment between the
   * kept points on either side of it.
   */
  lemma SimplifiedClose(points: seq<Point>, toleranceSq: real, k: nat, j: nat)
    requires |points| >= 3 && toleranceSq >= 0.0
    requires var kept := KeptIndices(points, toleranceSq);
      k + 1 < |kept| && kept[k] < j < kept[k + 1]
    ensures
      var kept := KeptIndices(points, toleranceSq);
      kept[k + 1] < |points|
      && var a, b, p := points[kept[k]], points[kept[k + 1]], points[j];
         exists t :: WithinOf(a, b, p, t, toleranceSq)
  {
    var kept := KeptIndices(points, toleranceSq);
    KeepCovers(points, toleranceSq, 0, |points| - 1);
    CoveredAt(points, toleranceSq, 0, Keep(points, toleranceSq, 0, |points| - 1), k);
    assert GapClose(points, toleranceSq, kept[k], kept[k + 1]);
    assert Off(points, kept[k], kept[k + 1], j) <= toleranceSq;
    var a, b, p := points[kept[k]], points[kept[k + 1]], points[j];
    assert WithinOf(a, b, p, Foot(a, b, p), toleranceSq);
  }

  predicate WithinOf(a: Point, b: Point, p: Point, t: real, toleranceSq: real) {
    0.0 <= t <= 1.0 && NormSq(Minus(p, Lerp(a, b, t))) <= toleranceSq
  }

  /** Every kept index is a valid one, the first is 0, the last the last, and they ascend strictly. */
  lemma KeptShape(points: seq<Point>, toleranceSq: real)
    requires |points| >= 3 && toleranceSq >= 0.0
    ensures
      var kept := KeptIndices(points, toleranceSq);
      && |kept| >= 2 && kept[0] == 0 && kept[|kept| - 1] == |points| - 1
      && (forall k | 0 < k < |kept| :: kept[k - 1] < kept[k])
      && (forall k | 0 <= k < |kept| :: kept[k] < |points|)
  {
    var kept := KeptIndices(points, toleranceSq);
    forall k | 0 <= k < |kept| ensures kept[k] <= kept[|kept| - 1] {
      AscendingFrom(kept, k, |kept| - 1);
    }
  }

  lemma {:induction false} AscendingFrom(s: seq<int>, i: nat, j: nat)
    requires i <= j < |s| && forall k | 0 < k < |s| :: s[k - 1] < s[k]
    ensures s[i] <= s[j] && (i < j ==> s[i] < s[j])
    decreases j
  {
    if i < j {
      AscendingFrom(s, i, j - 1);
    }
  }

  // ----- why a point is kept -----

  /** Point `m` is the farthest of those between `a` and `b`, and too far from their segment to be dropped. */
  ghost predicate Sticks(points: seq<Point>, toleranceSq: real, a: nat, m: nat, b: nat) {
    && a < m < b < |points|
    && FarFrom(points[a], points[b], points[m], toleranceSq)
    && forall i | a < i < b :: Off(points, a, b, i) <= Off(points, a, b, m)
  }

  lemma {:induction false} KeepSticks(points: seq<Point>, toleranceSq: real, start: nat, end: nat, m: nat)
      returns (a: nat, b: nat)
    requires start < end < |points| && toleranceSq >= 0.0
    requires m in Keep(points, toleranceSq, start, end) && m != end
    ensures a == start || a in Keep(points, toleranceSq, start, end)
    ensures b in Keep(points, toleranceSq, start, end) && Sticks(points, toleranceSq, a, m, b)
    decreases end - start
  {
    hide FarFrom, OffSegment;
    var split := Farthest(points, start, end, end).1;
    if m == split {
      a, b := start, end;
      OffIsFar(points[a], points[b], points[m], toleranceSq);
    } else if m in Keep(points, toleranceSq, start, split) {
      a, b := KeepSticks(points, toleranceSq, start, split, m);
    } else {
      a, b := KeepSticks(points, toleranceSq, split, end, m);
    }
  }

  /** An inner point is kept only because it sticks out too far between two other points that are kept. */
  lemma KeptForReason(points: seq<Point>, toleranceSq: real, k: nat) returns (a: nat, b: nat)
    requires |points| >= 3 && toleranceSq >= 0.0 && 0 < k < |KeptIndices(points, toleranceSq)| - 1
    ensures
      var kept := KeptIndices(points, toleranceSq);
      a in kept && b in kept && Sticks(points, toleranceSq, a, kept[k], b)
  {
    hide Keep;
    var kept := KeptIndices(points, toleranceSq);
    KeptShape(points, toleranceSq);
    AscendingFrom(kept, k, |kept| - 1);
    a, b := KeepSticks(points, toleranceSq, 0, |points| - 1, kept[k]);
  }

  // ----- the explicit stack -----

  type Range = (nat, nat)

  predicate Ranges(stack: seq<Range>, points: seq<Point>) {
    && (forall k | 0 <= k < |stack| :: stack[k].0 < stack[k].1 < |points|)
    && (forall k | 0 < k < |stack| :: stack[k].1 == stack[k - 1].0)
  }

  function StackKeep(points: seq<Point>, toleranceSq: real, stack: seq<Range>): seq<nat>
    requires Ranges(stack, points) && toleranceSq >= 0.0
  {
    if stack == [] then []
    else
      var top := stack[|stack| - 1];
      Keep(points, toleranceSq, top.0, top.1) + StackKeep(points, toleranceSq, stack[..|stack| - 1])
  }

  function StackCost(stack: seq<Range>): int {
    if stack == [] then 0
    else
      var top := stack[|stack| - 1];
      2 * (top.1 - top.0) - 1 + StackCost(stack[..|stack| - 1])
  }

  lemma {:induction false} StackCostPositive(stack: seq<Range>, points: seq<Point>)
    requires Ranges(stack, points)
    ensures StackCost(stack) >= 0
  {
    if stack != [] {
      StackCostPositive(stack[..|stack| - 1], points);
    }
  }

  /** The scan for the farthest point. */
  method FindFarthest(points: seq<Point>, start: nat, end: nat) returns (maxDistSq: real, maxIdx: nat)
    requires start < end < |points|
    ensures (maxDistSq, maxIdx) == Farthest(points, start, end, end)
  {
    maxDistSq, maxIdx := 0.0, start;
    for i := start + 1 to end
      invariant (maxDistSq, maxIdx) == Farthest(points, start, end, i)
    {
      var distSq := OffSegment(points[start], points[end], points[i]);
      if distSq > maxDistSq {
        maxDistSq, maxIdx := distSq, i;
      }
    }
  }

  /** Closing a range: its start is recorded unless it is there already, then its end. */
  function Record(result: seq<nat>, range: Range): seq<nat> {
    (if result == [] || result[|result| - 1] != range.0 then result + [range.0] else result) + [range.1]
  }

  /** What the loop has settled so far. */
  predicate Settled(result: seq<nat>, stack: seq<Range>, points: seq<Point>) {
    && Ranges(stack, points)
    && (result == [] ==> |stack| > 0 && stack[|stack| - 1].0 == 0)
    && (result != [] && stack != [] ==> result[|result| - 1] == stack[|stack| - 1].0)
  }

  /** The final answer as far as `result` and `stack` determine it. */
  function Outcome(points: seq<Point>, toleranceSq: real, result: seq<nat>, stack: seq<Range>): seq<nat>
    requires Ranges(stack, points) && toleranceSq >= 0.0
  {
    (if result == [] then [0] else result) + StackKeep(points, toleranceSq, stack)
  }

  lemma CloseRange(points: seq<Point>, toleranceSq: real, result: seq<nat>, stack: seq<Range>)
    requires toleranceSq >= 0.0 && Settled(result, stack, points) && stack != []
    requires var top := stack[|stack| - 1]; Keep(points, toleranceSq, top.0, top.1) == [top.1]
    ensures
      var top, rest := stack[|stack| - 1], stack[..|stack| - 1];
      && Settled(Record(result, top), rest, points)
      && Outcome(points, toleranceSq, Record(result, top), rest) == Outcome(points, toleranceSq, result, stack)
  {
    hide Keep;
    var top, rest := stack[|stack| - 1], stack[..|stack| - 1];
    CloseSettled(points, result, stack);
    var before := if result == [] then [0] else result;
    assert Record(result, top) == before + [top.1];
    assert StackKeep(points, toleranceSq, stack) == [top.1] + StackKeep(points, toleranceSq, rest);
  }

  lemma CloseSettled(points: seq<Point>, result: seq<nat>, stack: seq<Range>)
    requires Settled(result, stack, points) && stack != []
    ensures Settled(Record(result, stack[|stack| - 1]), stack[..|stack| - 1], points)
    ensures Record(result, stack[|stack| - 1])
         == (if result == [] then [0] else result) + [stack[|stack| - 1].1]
  {
    var top, rest := stack[|stack| - 1], stack[..|stack| - 1];
    assert rest != [] ==> rest[|rest| - 1].0 == top.1;
  }

  lemma RangesPush(rest: seq<Range>, top: Range, points: seq<Point>)
    ensures Ranges(rest + [top], points) <==>
      Ranges(rest, points) && top.0 < top.1 < |points| && (rest != [] ==> top.1 == rest[|rest| - 1].0)
  {
    var s := rest + [top];
    assert s[|rest|] == top;
    assert forall k | 0 <= k < |rest| :: s[k] == rest[k];
  }

  lemma CostPush(rest: seq<Range>, top: Range)
    ensures StackCost(rest + [top]) == 2 * (top.1 - top.0) - 1 + StackCost(rest)
  {
    assert (rest + [top])[..|rest|] == rest;
  }

  lemma KeepPush(rest: seq<Range>, top: Range, points: seq<Point>, toleranceSq: real)
    requires Ranges(rest + [top], points) && Ranges(rest, points) && toleranceSq >= 0.0
    requires top.0 < top.1 < |points|
    ensures StackKeep(points, toleranceSq, rest + [top])
         == Keep(points, toleranceSq, top.0, top.1) + StackKeep(points, toleranceSq, rest)
  {
    assert (rest + [top])[..|rest|] == rest;
  }

  lemma SplitRange(points: seq<Point>, toleranceSq: real, result: seq<nat>, rest: seq<Range>, top: Range, m: nat)
    requires toleranceSq >= 0.0 && Settled(result, rest + [top], points)
    requires top.0 < m < top.1
    ensures
      var split := rest + [(m, top.1)] + [(top.0, m)];
      Settled(result, split, points) && StackCost(split) < StackCost(rest + [top])
  {
    RangesPush(rest, top, points);
    RangesPush(rest, (m, top.1), points);
    RangesPush(rest + [(m, top.1)], (top.0, m), points);
    CostPush(rest, top);
    CostPush(rest, (m, top.1));
    CostPush(rest + [(m, top.1)], (top.0, m));
  }

  lemma SplitOutcome(points: seq<Point>, toleranceSq: real, result: seq<nat>, rest: seq<Range>, top: Range, m: nat)
    requires toleranceSq >= 0.0 && Settled(result, rest + [top], points)
    requires top.0 < m < top.1 < |points|
    requires Keep(points, toleranceSq, top.0, top.1)
          == Keep(points, toleranceSq, top.0, m) + Keep(points, toleranceSq, m, top.1)
    requires Ranges(rest + [(m, top.1)] + [(top.0, m)], points)
    ensures Outcome(points, toleranceSq, result, rest + [(m, top.1)] + [(top.0, m)])
         == Outcome(points, toleranceSq, result, rest + [top])
  {
    RangesPush(rest, top, points);
    RangesPush(rest, (m, top.1), points);
    RangesPush(rest + [(m, top.1)], (top.0, m), points);
    KeepPush(rest, top, points, toleranceSq);
    KeepPush(rest, (m, top.1), points, toleranceSq);
    KeepPush(rest + [(m, top.1)], (top.0, m), points, toleranceSq);
    Regroup(Keep(points, toleranceSq, top.0, m), Keep(points, toleranceSq, m, top.1),
            StackKeep(points, toleranceSq, rest));
  }

  /** One turn of the loop: the top range is closed or split. */
  method HandleTop(points: seq<Point>, toleranceSq: real, result: seq<nat>, rest: seq<Range>, top: Range)
    returns (result': seq<nat>, stack': seq<Range>)
    requires toleranceSq >= 0.0 && Settled(result, rest + [top], points)
    ensures Settled(result', stack', points) && 0 <= StackCost(stack') < StackCost(rest + [top])
    ensures Outcome(points, toleranceSq, result', stack') == Outcome(points, toleranceSq, result, rest + [top])
  {
    hide Outcome, StackKeep, Record, OffSegment;
    RangesPush(rest, top, points);
    CostPush(rest, top);
    StackCostPositive(rest, points);
    assert (rest + [top])[..|rest|] == rest;
    if top.1 - top.0 < 2 {
      CloseRange(points, toleranceSq, result, rest + [top]);
      return Record(result, top), rest;
    }
    var maxDistSq, maxIdx := FindFarthest(points, top.0, top.1);
    if maxDistSq <= toleranceSq {
      CloseRange(points, toleranceSq, result, rest + [top]);
      return Record(result, top), rest;
    }
    SplitRange(points, toleranceSq, result, rest, top, maxIdx);
    SplitOutcome(points, toleranceSq, result, rest, top, maxIdx);
    result', stack' := result, rest + [(maxIdx, top.1)] + [(top.0, maxIdx)];
    StackCostPositive(stack', points);
  }

  /** The loop of `simplify_path`: it ends, and what it collects needs no sorting and has no repetition. */
  method CollectIndices(points: seq<Point>, toleranceSq: real) returns (result: seq<nat>)
    requires |points| >= 3 && toleranceSq >= 0.0
    ensures result == KeptIndices(points, toleranceSq)
  {
    result := [];
    var stack: seq<Range> := [(0, |points| - 1)];
    FirstRange(points, toleranceSq);
    while stack != []
      invariant Settled(result, stack, points)
      invariant Outcome(points, toleranceSq, result, stack) == KeptIndices(points, toleranceSq)
      decreases StackCost(stack)
    {
      var top, rest := stack[|stack| - 1], stack[..|stack| - 1];
      assert stack == rest + [top];
      result, stack := HandleTop(points, toleranceSq, result, rest, top);
    }
  }

  lemma FirstRange(points: seq<Point>, toleranceSq: real)
    requires |points| >= 3 && toleranceSq >= 0.0
    ensures Outcome(points, toleranceSq, [], [(0, |points| - 1)]) == KeptIndices(points, toleranceSq)
  {
    var kept := Keep(points, toleranceSq, 0, |points| - 1);
    var stack: seq<Range> := [(0, |points| - 1)];
    assert stack == [] + [stack[0]];
    KeepPush([], stack[0], points, toleranceSq);
    assert kept + [] == kept;
  }

  /** The points with the given indices. */
  function Pick(points: seq<Point>, indices: seq<nat>): seq<Point>
    requires forall k | 0 <= k < |indices| :: indices[k] < |points|
  {
    seq(|indices|, k requires 0 <= k < |indices| => points[indices[k]])
  }

  function ToleranceSq(tolerance: real): (r: real)
    ensures r >= 0.0
  {
    SquareNonNegative(tolerance);
    tolerance * tolerance
  }

  function Simplified(points: seq<Point>, tolerance: real): seq<Point> {
    if |points| < 3 then points
    else
      KeptShape(points, ToleranceSq(tolerance));
      Pick(points, KeptIndices(points, ToleranceSq(tolerance)))
  }

  /** `simplify_path`; the closing sort and dedup find nothing to do. */
  method SimplifyPath(points: seq<Point>, tolerance: real) returns (simplified: seq<Point>)
    ensures simplified == Simplified(points, tolerance)
  {
    if |points| < 3 {
      return points;
    }
    var result := CollectIndices(points, ToleranceSq(tolerance));
    KeptShape(points, ToleranceSq(tolerance));
    SortedAlready(result);
    result := DropRepeats(SortBy<int>(result, AtMost));
    simplified := Pick(points, result);
  }

  lemma SortedAlready(s: seq<int>)
    requires forall k | 0 < k < |s| :: s[k - 1] < s[k]
    ensures DropRepeats(SortBy(s, AtMost)) == s
  {
    forall i, j | 0 <= i < j < |s| ensures AtMost(s[i], s[j]) {
      AscendingFrom(s, i, j);
    }
    SortByIdentity(s, AtMost);
    NothingToDrop(s);
  }
}
