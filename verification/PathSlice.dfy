/** Slider paths with cumulative lengths: position by arc length, and slicing. */
module PathSlice {
  import opened Geometry
  import opened Numbers
  import opened Polyline
  import opened Sequences

  datatype SliderPath = SliderPath(points: seq<Point>, cumulative: seq<real>, total: real)

  // ----- consecutive duplicates -----

  /** Dropping repeated points does not shorten a polyline. */
  lemma {:induction false} DedupeLength(dist: Metric, s: seq<Point>)
    requires IsDist(dist)
    ensures Length(dist, DropRepeats(s)) == Length(dist, s)
  {
    if s != [] {
      var last := |s| - 1;
      var init := s[..last];
      var d := DropRepeats(init);
      DedupeLength(dist, init);
      assert s == init + [s[last]];
      if init != [] {
        LengthSnoc(dist, init, s[last]);
        LengthSnoc(dist, d, s[last]);
        DistZero(dist, d[|d| - 1], s[last]);
      }
    }
  }

  /** `dedupe_points`. */
  method DedupePoints(points: seq<Point>) returns (deduped: seq<Point>)
    ensures deduped == DropRepeats(points)
  {
    deduped := [];
    for i := 0 to |points|
      invariant deduped == DropRepeats(points[..i])
    {
      assert points[..i + 1][..i] == points[..i];
      if deduped == [] || deduped[|deduped| - 1] != points[i] {
        deduped := deduped + [points[i]];
      }
    }
    assert points[..|points|] == points;
  }

  // ----- building -----

  /** A path as `build_path` leaves it: no repeated points, and the lengths of its prefixes. */
  predicate Built(dist: Metric, path: SliderPath) {
    && NoRepeats(path.points)
    && |path.cumulative| == |path.points|
    && (forall i | 0 <= i < |path.points| :: path.cumulative[i] == Cum(dist, path.points, i))
    && path.total == Length(dist, path.points)
  }

  /** `build_path`: repeated points go, the length stays. */
  method BuildPath(dist: Metric, points: seq<Point>) returns (path: SliderPath)
    requires IsDist(dist)
    ensures Built(dist, path)
    ensures path.points == DropRepeats(points) && path.total == Length(dist, points)
  {
    var deduped := DedupePoints(points);
    NoRepeatsLeft(points);
    DedupeLength(dist, points);
    if deduped == [] {
      return SliderPath([], [], 0.0);
    }
    var cumulative, travelled := [0.0], 0.0;
    for i := 1 to |deduped|
      invariant |cumulative| == i && travelled == Cum(dist, deduped, i - 1)
      invariant forall j | 0 <= j < i :: cumulative[j] == Cum(dist, deduped, j)
    {
      travelled := travelled + dist(deduped[i - 1], deduped[i]);
      cumulative := cumulative + [travelled];
    }
    path := SliderPath(deduped, cumulative, travelled);
  }

  lemma {:induction false} Increasing(dist: Metric, path: SliderPath, i: nat, j: nat)
    requires IsDist(dist) && Built(dist, path) && i < j < |path.points|
    ensures path.cumulative[i] < path.cumulative[j]
  {
    DistZero(dist, path.points[j - 1], path.points[j]);
    if i < j - 1 {
      Increasing(dist, path, i, j - 1);
    }
  }

  // ----- position by distance -----

  /** `partition_point(v <= target)` on an ascending table: the first entry above the target. */
  function FirstAbove(table: seq<real>, target: real): (k: nat)
    ensures k <= |table|
    ensures forall i | 0 <= i < k :: table[i] <= target
    ensures k < |table| ==> table[k] > target
  {
    if table == [] || table[0] > target then 0
    else 1 + FirstAbove(table[1..], target)
  }

  /** `path_position_at_distance`. */
  function PositionAt(path: SliderPath, target: real): Point
    requires |path.cumulative| == |path.points|
  {
    if path.points == [] then Point(0.0, 0.0)
    else if target <= 0.0 then path.points[0]
    else if target >= path.total then path.points[|path.points| - 1]
    else
      var index := FirstAbove(path.cumulative, target);
      var before := if index == 0 then 0 else index - 1;
      var after := if index < |path.points| - 1 then index else |path.points| - 1;
      var segment := path.cumulative[after] - path.cumulative[before];
      if segment <= 0.0 then path.points[after]
      else Lerp(path.points[before], path.points[after], (target - path.cumulative[before]) / segment)
  }

  function RatioIn(path: SliderPath, i: nat, d: real): real
    requires |path.cumulative| == |path.points| && i + 1 < |path.points|
    requires path.cumulative[i] < path.cumulative[i + 1]
  {
    (d - path.cumulative[i]) / (path.cumulative[i + 1] - path.cumulative[i])
  }

  lemma RatioEnds(a: real, b: real)
    requires a < b
    ensures (a - a) / (b - a) == 0.0 && (b - a) / (b - a) == 1.0
  {
  }

  lemma IncreasingEq(dist: Metric, path: SliderPath, i: nat, j: nat)
    requires IsDist(dist) && Built(dist, path) && i <= j < |path.points|
    ensures path.cumulative[i] <= path.cumulative[j]
  {
    if i < j {
      Increasing(dist, path, i, j);
    }
  }

  lemma IndexAbove(dist: Metric, path: SliderPath, i: nat, d: real)
    requires IsDist(dist) && Built(dist, path) && i + 1 < |path.points|
    requires path.cumulative[i] <= d < path.cumulative[i + 1]
    ensures FirstAbove(path.cumulative, d) == i + 1
  {
    var k := FirstAbove(path.cumulative, d);
    if k <= i {
      IncreasingEq(dist, path, k, i);
    }
  }

  lemma PositionInside(dist: Metric, path: SliderPath, i: nat, d: real)
    requires IsDist(dist) && Built(dist, path) && i + 1 < |path.points|
    requires 0.0 < d && path.cumulative[i] <= d < path.cumulative[i + 1]
    ensures PositionAt(path, d) == Lerp(path.points[i], path.points[i + 1], RatioIn(path, i, d))
  {
    IndexAbove(dist, path, i, d);
    IncreasingEq(dist, path, i + 1, |path.points| - 1);
  }

  lemma PositionAtVertex(dist: Metric, path: SliderPath, i: nat)
    requires IsDist(dist) && Built(dist, path) && i < |path.points|
    ensures PositionAt(path, path.cumulative[i]) == path.points[i]
  {
    var c, n := path.cumulative, |path.points|;
    if i == 0 {
    } else if i == n - 1 {
      Increasing(dist, path, 0, i);
    } else {
      Increasing(dist, path, 0, i);
      Increasing(dist, path, i, i + 1);
      PositionInside(dist, path, i, c[i]);
      RatioEnds(c[i], c[i + 1]);
      LerpEnds(path.points[i], path.points[i + 1]);
    }
  }

  /** On segment `i`, both ends included, the position is the proportional point of that segment. */
  lemma PositionOnSegment(dist: Metric, path: SliderPath, i: nat, d: real)
    requires IsDist(dist) && Built(dist, path) && i + 1 < |path.points|
    requires path.cumulative[i] <= d <= path.cumulative[i + 1]
    ensures path.cumulative[i] < path.cumulative[i + 1]
    ensures PositionAt(path, d) == Lerp(path.points[i], path.points[i + 1], RatioIn(path, i, d))
  {
    var c := path.cumulative;
    Increasing(dist, path, i, i + 1);
    RatioEnds(c[i], c[i + 1]);
    LerpEnds(path.points[i], path.points[i + 1]);
    IncreasingEq(dist, path, 0, i);
    if d == c[i] {
      PositionAtVertex(dist, path, i);
    } else if d == c[i + 1] {
      PositionAtVertex(dist, path, i + 1);
    } else {
      PositionInside(dist, path, i, d);
    }
  }

  lemma RatioMonotone(x: real, y: real, d: real)
    requires d > 0.0 && x <= y
    ensures x / d <= y / d
  {
  }

  lemma RatioTimes(x: real, y: real, a: real, d: real)
    requires d > 0.0 && x <= y
    ensures (x - a) / d <= (y - a) / d
    ensures Times((y - a) / d - (x - a) / d, d) == y - x
  {
    RatioMonotone(x - a, y - a, d);
    var p, q := (x - a) / d, (y - a) / d;
    assert p * d == x - a && q * d == y - a;
    assert (q - p) * d == q * d - p * d;
  }

  /** Within a segment, positions are as far apart as their arc lengths. */
  lemma DistanceOnSegment(dist: Metric, path: SliderPath, i: nat, x: real, y: real)
    requires IsDist(dist) && Built(dist, path) && i + 1 < |path.points|
    requires path.cumulative[i] <= x <= y <= path.cumulative[i + 1]
    ensures dist(PositionAt(path, x), PositionAt(path, y)) == y - x
  {
    PositionOnSegment(dist, path, i, x);
    PositionOnSegment(dist, path, i, y);
    var a, d := path.cumulative[i], path.cumulative[i + 1] - path.cumulative[i];
    RatioTimes(x, y, a, d);
    DistLerp(dist, path.points[i], path.points[i + 1], RatioIn(path, i, x), RatioIn(path, i, y));
    assert dist(path.points[i], path.points[i + 1]) == d;
  }

  predicate NoVertexBetween(path: SliderPath, x: real, y: real) {
    forall k | 0 <= k < |path.cumulative| :: !(x < path.cumulative[k] < y)
  }

  /** Two positions with no vertex strictly between them lie on one segment. */
  lemma DistanceBetween(dist: Metric, path: SliderPath, x: real, y: real)
    requires IsDist(dist) && Built(dist, path) && |path.points| > 1
    requires 0.0 <= x <= y <= path.total && NoVertexBetween(path, x, y)
    ensures dist(PositionAt(path, x), PositionAt(path, y)) == y - x
  {
    var n := |path.points|;
    var k := FirstAbove(path.cumulative, x);
    if k == n {
      DistanceOnSegment(dist, path, n - 2, x, y) by {
        Increasing(dist, path, n - 2, n - 1);
      }
    } else {
      DistanceOnSegment(dist, path, k - 1, x, y);
    }
  }

  // ----- slicing -----

  lemma ScaleMonotone(t: real, c: real, d: real)
    requires t >= 0.0 && c <= d
    ensures t * c <= t * d
    ensures t * d - t * c == t * (d - c)
  {
  }

  function Lower(s: real, e: real): real {
    Clamp(if s > e then e else s)
  }

  function Upper(s: real, e: real): real {
    Clamp(if s > e then s else e)
  }

  /** The distance along the path that a progress stands for. */
  function DistanceFor(path: SliderPath, progress: real): real {
    path.total * progress
  }

  lemma DistanceBounds(path: SliderPath, lo: real, hi: real)
    requires path.total >= 0.0 && 0.0 <= lo <= hi <= 1.0
    ensures 0.0 <= DistanceFor(path, lo) <= DistanceFor(path, hi) <= path.total
    ensures DistanceFor(path, hi) - DistanceFor(path, lo) == DistanceFor(path, hi - lo)
  {
    ScaleMonotone(path.total, 0.0, lo);
    ScaleMonotone(path.total, lo, hi);
    ScaleMonotone(path.total, hi, 1.0);
    assert DistanceFor(path, 0.0) == 0.0 && DistanceFor(path, 1.0) == path.total;
  }

  lemma Bounds(s: real, e: real)
    ensures 0.0 <= Lower(s, e) <= Upper(s, e) <= 1.0
    ensures Upper(s, e) - Lower(s, e) == Abs(Clamp(e) - Clamp(s))
  {
  }

  /**
   * `slice_path` of a built path: from the position at one progress to the position at the other, with
   * exactly the length in between, through every vertex in between, and without repeated points.
   */
  method SlicePath(dist: Metric, path: SliderPath, startProgress: real, endProgress: real) returns (r: seq<Point>)
    requires IsDist(dist) && Built(dist, path)
    ensures |path.points| < 2 || path.total <= 0.0 ==> r == path.points
    ensures |path.points| >= 2 && path.total > 0.0 ==>
      && r != [] && NoRepeats(r)
      && r[0] == PositionAt(path, DistanceFor(path, Lower(startProgress, endProgress)))
      && r[|r| - 1] == PositionAt(path, DistanceFor(path, Upper(startProgress, endProgress)))
      && Length(dist, r) == DistanceFor(path, Abs(Clamp(endProgress) - Clamp(startProgress)))
      && exists cut ::
           && r == DropRepeats(cut)
           && Cut(path, DistanceFor(path, Lower(startProgress, endProgress)),
                  DistanceFor(path, Upper(startProgress, endProgress)), cut)
  {
    if |path.points| < 2 || path.total <= 0.0 {
      return path.points;
    }
    var s, e := startProgress, endProgress;
    if s > e {
      s, e := e, s;
    }
    s, e := Clamp(s), Clamp(e);
    Bounds(startProgress, endProgress);
    DistanceBounds(path, s, e);
    r := SliceAtDistances(dist, path, DistanceFor(path, s), DistanceFor(path, e));
  }

  method SliceAtDistances(dist: Metric, path: SliderPath, startDistance: real, endDistance: real)
    returns (r: seq<Point>)
    requires IsDist(dist) && Built(dist, path) && |path.points| >= 2
    requires 0.0 <= startDistance <= endDistance <= path.total
    ensures r != [] && NoRepeats(r)
    ensures r[0] == PositionAt(path, startDistance)
    ensures r[|r| - 1] == PositionAt(path, endDistance)
    ensures Length(dist, r) == endDistance - startDistance
    ensures exists cut :: Cut(path, startDistance, endDistance, cut) && r == DropRepeats(cut)
  {
    var sliced := SliceBetween(dist, path, startDistance, endDistance);
    r := DedupePoints(sliced);
    NoRepeatsLeft(sliced);
    DedupeLength(dist, sliced);
  }

  /** The slice so far ends at distance `at`, and no vertex below `index` lies between there and the end. */
  ghost predicate SlicedTo(
      dist: Metric, path: SliderPath, sliced: seq<Point>, start: real, end: real, at: real, index: nat)
    requires |path.cumulative| == |path.points|
  {
    && sliced != [] && sliced[0] == PositionAt(path, start)
    && start <= at <= end
    && sliced[|sliced| - 1] == PositionAt(path, at)
    && Length(dist, sliced) == at - start
    && (forall k | 0 <= k < index && k < |path.cumulative| :: !(at < path.cumulative[k] < end))
    && (at == start || exists k | 0 <= k < index && k < |path.cumulative| :: at == path.cumulative[k])
  }

  lemma SliceOn(
      dist: Metric, path: SliderPath, sliced: seq<Point>, start: real, end: real, at: real, index: nat)
    requires IsDist(dist) && Built(dist, path) && 0 < index < |path.points|
    requires 0.0 <= start <= end <= path.total
    requires SlicedTo(dist, path, sliced, start, end, at, index)
    requires start < path.cumulative[index] < end
    ensures SlicedTo(dist, path, sliced + [path.points[index]], start, end, path.cumulative[index], index + 1)
  {
    Reached(dist, path, at, index, end, start);
    PositionAtVertex(dist, path, index);
    LengthSnoc(dist, sliced, path.points[index]);
    forall k | 0 <= k < index ensures path.cumulative[k] < path.cumulative[index] {
      Increasing(dist, path, k, index);
    }
  }

  /** Of the first `n` vertices those from `i` to `j` lie strictly between the two distances, and no others. */
  predicate Inside(path: SliderPath, i: nat, j: nat, start: real, end: real, n: nat) {
    && i <= j <= n <= |path.cumulative|
    && forall k | 0 <= k < n :: i <= k < j <==> start < path.cumulative[k] < end
  }

  /** The position at one distance, every vertex strictly between, and the position at the other. */
  ghost predicate Cut(path: SliderPath, start: real, end: real, cut: seq<Point>)
    requires |path.cumulative| == |path.points|
  {
    exists i: nat, j: nat :: Inside(path, i, j, start, end, |path.points|)
      && cut == [PositionAt(path, start)] + path.points[i..j] + [PositionAt(path, end)]
  }

  lemma InsideOn(dist: Metric, path: SliderPath, i: nat, j: nat, start: real, end: real, n: nat)
    requires IsDist(dist) && Built(dist, path) && n < |path.points| && Inside(path, i, j, start, end, n)
    requires start < path.cumulative[n] < end
    ensures i < j ==> j == n
    ensures Inside(path, if i == j then n else i, n + 1, start, end, n + 1)
  {
    if i < j < n {
      Increasing(dist, path, i, j);
      Increasing(dist, path, j, n);
    }
  }

  /** The slice so far, with the vertices it has passed. */
  ghost predicate Passed(
      dist: Metric, path: SliderPath, sliced: seq<Point>, start: real, end: real, at: real, i: nat, j: nat, n: nat)
    requires |path.cumulative| == |path.points|
  {
    && SlicedTo(dist, path, sliced, start, end, at, n)
    && Inside(path, i, j, start, end, n)
    && sliced == [PositionAt(path, start)] + path.points[i..j]
  }

  lemma StretchOn<T>(s: seq<T>, first: seq<T>, i: nat, j: nat, n: nat)
    requires i <= j <= n < |s| && (i < j ==> j == n)
    ensures first + s[i..j] + [s[n]] == first + s[if i == j then n else i..n + 1]
  {
  }

  lemma PassOn(
      dist: Metric, path: SliderPath, sliced: seq<Point>, start: real, end: real, at: real, i: nat, j: nat, n: nat)
    requires IsDist(dist) && Built(dist, path) && 0 < n < |path.points| && start < path.cumulative[n] < end
    requires 0.0 <= start <= end <= path.total && Passed(dist, path, sliced, start, end, at, i, j, n)
    ensures Passed(dist, path, sliced + [path.points[n]], start, end, path.cumulative[n],
                   if i == j then n else i, n + 1, n + 1)
  {
    SliceOn(dist, path, sliced, start, end, at, n);
    InsideOn(dist, path, i, j, start, end, n);
    hide IsDist, PositionAt, SlicedTo, Built, Inside;
    StretchOn(path.points, [PositionAt(path, start)], i, j, n);
  }

  lemma PassBy(
      dist: Metric, path: SliderPath, sliced: seq<Point>, start: real, end: real, at: real, i: nat, j: nat, n: nat)
    requires Built(dist, path) && n < |path.points| && !(start < path.cumulative[n] < end)
    requires Passed(dist, path, sliced, start, end, at, i, j, n)
    ensures Passed(dist, path, sliced, start, end, at, i, j, n + 1)
  {
    hide PositionAt;
  }

  lemma PassedAll(
      dist: Metric, path: SliderPath, sliced: seq<Point>, start: real, end: real, at: real, i: nat, j: nat)
    requires IsDist(dist) && Built(dist, path) && |path.points| >= 2 && 0.0 <= start <= end <= path.total
    requires Passed(dist, path, sliced, start, end, at, i, j, |path.points| - 1)
    ensures
      var cut := sliced + [PositionAt(path, end)];
      Length(dist, cut) == end - start && Cut(path, start, end, cut)
  {
    hide PositionAt;
    DistanceBetween(dist, path, at, end);
    LengthSnoc(dist, sliced, PositionAt(path, end));
    assert Inside(path, i, j, start, end, |path.points|);
  }

  /** The points of the slice before repeated ones are dropped. */
  method SliceBetween(dist: Metric, path: SliderPath, startDistance: real, endDistance: real)
    returns (sliced: seq<Point>)
    requires IsDist(dist) && Built(dist, path) && |path.points| >= 2
    requires 0.0 <= startDistance <= endDistance <= path.total
    ensures sliced != [] && sliced[0] == PositionAt(path, startDistance)
    ensures sliced[|sliced| - 1] == PositionAt(path, endDistance)
    ensures Length(dist, sliced) == endDistance - startDistance
    ensures Cut(path, startDistance, endDistance, sliced)
  {
    sliced := [PositionAt(path, startDistance)];
    ghost var at := startDistance;
    ghost var i, j: nat := 0, 0;
    assert Passed(dist, path, sliced, startDistance, endDistance, at, i, j, 1);
    hide PositionAt, Passed, Cut;
    for index := 1 to |path.cumulative| - 1
      invariant sliced != [] && sliced[0] == PositionAt(path, startDistance)
      invariant Passed(dist, path, sliced, startDistance, endDistance, at, i, j, index)
    {
      var distance := path.cumulative[index];
      if startDistance < distance && distance < endDistance {
        PassOn(dist, path, sliced, startDistance, endDistance, at, i, j, index);
        sliced := sliced + [path.points[index]];
        at := distance;
        i, j := if i == j then index else i, index + 1;
      } else {
        PassBy(dist, path, sliced, startDistance, endDistance, at, i, j, index);
      }
    }
    PassedAll(dist, path, sliced, startDistance, endDistance, at, i, j);
    sliced := sliced + [PositionAt(path, endDistance)];
  }

  /** The next vertex inside the slice is reached along a single segment. */
  lemma Reached(dist: Metric, path: SliderPath, at: real, index: nat, endDistance: real, startDistance: real)
    requires IsDist(dist) && Built(dist, path) && 0 < index < |path.points|
    requires 0.0 <= startDistance <= at <= endDistance <= path.total
    requires startDistance < path.cumulative[index] < endDistance
    requires forall k | 0 <= k < index :: !(at < path.cumulative[k] < endDistance)
    requires at == startDistance || exists k | 0 <= k < index :: at == path.cumulative[k]
    ensures at <= path.cumulative[index]
    ensures dist(PositionAt(path, at), PositionAt(path, path.cumulative[index])) == path.cumulative[index] - at
  {
    if at != startDistance {
      var k :| 0 <= k < index && at == path.cumulative[k];
      Increasing(dist, path, k, index);
    }
    forall k | 0 <= k < |path.cumulative| ensures !(at < path.cumulative[k] < path.cumulative[index]) {
      if k >= index {
        IncreasingEq(dist, path, index, k);
      }
    }
    DistanceBetween(dist, path, at, path.cumulative[index]);
  }
}
