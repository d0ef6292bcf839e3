/** Fitting a slider path to its expected length: two algorithms, one result. */
module LengthFit {
  import opened Geometry
  import opened Polyline

  /** Index of the first point at or beyond the expected length. */
  function FirstBeyond(dist: Metric, p: seq<Point>, expected: real, i: nat): (k: nat)
    requires i < |p| && Cum(dist, p, |p| - 1) >= expected
    ensures i <= k < |p| && Cum(dist, p, k) >= expected
    ensures forall j | i <= j < k :: Cum(dist, p, j) < expected
    decreases |p| - i
  {
    if Cum(dist, p, i) >= expected then i else FirstBeyond(dist, p, expected, i + 1)
  }

  /** The path up to point `k - 1`, then along the direction of point `k` to the expected length. */
  function EndAt(dist: Metric, p: seq<Point>, expected: real, k: nat): seq<Point>
    requires 0 < k < |p| && dist(p[k - 1], p[k]) != 0.0
  {
    p[..k] + [Lerp(p[k - 1], p[k], (expected - Cum(dist, p, k - 1)) / dist(p[k - 1], p[k]))]
  }

  predicate Fittable(dist: Metric, p: seq<Point>, expected: real) {
    |p| >= 2 && expected > 0.0 && Length(dist, p) > 0.0
  }

  predicate LastPairDiffers(p: seq<Point>) {
    |p| >= 2 && p[|p| - 1] != p[|p| - 2]
  }

  lemma FirstBeyondSegment(dist: Metric, p: seq<Point>, expected: real)
    requires IsDist(dist) && Fittable(dist, p, expected) && Length(dist, p) >= expected
    ensures var k := FirstBeyond(dist, p, expected, 0);
      && 0 < k && Cum(dist, p, k - 1) < expected <= Cum(dist, p, k)
      && dist(p[k - 1], p[k]) > 0.0
  {
  }

  /** What both algorithms compute. */
  ghost function Fit(dist: Metric, p: seq<Point>, expected: real): seq<Point>
    requires IsDist(dist)
  {
    if !Fittable(dist, p, expected) then p
    else if Length(dist, p) > expected then
      FirstBeyondSegment(dist, p, expected);
      EndAt(dist, p, expected, FirstBeyond(dist, p, expected, 0))
    else if LastPairDiffers(p) then
      DistZero(dist, p[|p| - 2], p[|p| - 1]);
      EndAt(dist, p, expected, |p| - 1)
    else p
  }

  lemma EndAtLength(dist: Metric, p: seq<Point>, expected: real, k: nat)
    requires IsDist(dist) && 0 < k < |p| && p[k - 1] != p[k] && Cum(dist, p, k - 1) <= expected
    requires dist(p[k - 1], p[k]) != 0.0
    ensures Length(dist, EndAt(dist, p, expected, k)) == expected
  {
    hide Between, Times, Square;
    var d, rest := dist(p[k - 1], p[k]), expected - Cum(dist, p, k - 1);
    DistZero(dist, p[k - 1], p[k]);
    var end := Lerp(p[k - 1], p[k], rest / d);
    LengthSnoc(dist, p[..k], end);
    CumPrefix(dist, p, p[..k], k - 1);
    LerpEnds(p[k - 1], p[k]);
    RatioBack(rest, d);
    DistLerp(dist, p[k - 1], p[k], 0.0, rest / d);
  }

  lemma RatioBack(rest: real, d: real)
    requires rest >= 0.0 && d > 0.0
    ensures rest / d >= 0.0 && Times(rest / d - 0.0, d) == rest
  {
  }

  /**
   * The fitted path has exactly the expected length, unless the path is too short and ends in a repeated
   * point, so that there is no direction to extend it in.
   */
  lemma FitLength(dist: Metric, p: seq<Point>, expected: real)
    requires IsDist(dist) && Fittable(dist, p, expected)
    ensures Length(dist, Fit(dist, p, expected)) == expected
       <==> Length(dist, p) >= expected || LastPairDiffers(p)
  {
    if Length(dist, p) > expected {
      FirstBeyondSegment(dist, p, expected);
      var k := FirstBeyond(dist, p, expected, 0);
      DistZero(dist, p[k - 1], p[k]);
      EndAtLength(dist, p, expected, k);
    } else if LastPairDiffers(p) {
      DistZero(dist, p[|p| - 2], p[|p| - 1]);
      EndAtLength(dist, p, expected, |p| - 1);
    }
  }

  /** The fitted path keeps the start and, up to its last point, the points of the path. */
  lemma FitKeepsPoints(dist: Metric, p: seq<Point>, expected: real)
    requires IsDist(dist) && p != []
    ensures var r := Fit(dist, p, expected);
      && 0 < |r| <= |p| && r[0] == p[0]
      && forall i | 0 <= i < |r| - 1 :: r[i] == p[i]
  {
    if Fittable(dist, p, expected) && Length(dist, p) > expected {
      FirstBeyondSegment(dist, p, expected);
    }
  }

  /**
   * Where the fitted path ends: cut, on the segment to the first point at or beyond the expected length; extended,
   * on the last segment's line at or past its end; otherwise where the path ends.
   */
  lemma FitEnds(dist: Metric, p: seq<Point>, expected: real)
    requires IsDist(dist) && Fittable(dist, p, expected)
    ensures
      var r := Fit(dist, p, expected);
      if Length(dist, p) <= expected && !LastPairDiffers(p) then r == p
      else if Length(dist, p) > expected then exists t :: EndsAt(r, p, t) && 0.0 < t <= 1.0
      else |r| == |p| && exists t :: EndsAt(r, p, t) && t >= 1.0
  {
    if Length(dist, p) > expected {
      FirstBeyondSegment(dist, p, expected);
      var k := FirstBeyond(dist, p, expected, 0);
      var t := EndRatio(dist, p, expected, k);
      var r := Fit(dist, p, expected);
      assert r == EndAt(dist, p, expected, k);
      assert EndsAt(r, p, t);
    } else if LastPairDiffers(p) {
      DistZero(dist, p[|p| - 2], p[|p| - 1]);
      var t := EndRatio(dist, p, expected, |p| - 1);
      assert EndsAt(Fit(dist, p, expected), p, t);
      assert Cum(dist, p, |p| - 1) <= expected;
    }
  }

  /** The last point of `r` is at ratio `t` on the line through the point of `p` before it and the one at its place. */
  predicate EndsAt(r: seq<Point>, p: seq<Point>, t: real) {
    var k := |r| - 1;
    0 < k < |p| && r[k] == Lerp(p[k - 1], p[k], t)
  }

  lemma EndRatio(dist: Metric, p: seq<Point>, expected: real, k: nat) returns (t: real)
    requires IsDist(dist) && 0 < k < |p| && dist(p[k - 1], p[k]) > 0.0
    ensures EndsAt(EndAt(dist, p, expected, k), p, t)
    ensures Cum(dist, p, k - 1) < expected <= Cum(dist, p, k) ==> 0.0 < t <= 1.0
    ensures Cum(dist, p, k) <= expected ==> t >= 1.0
  {
    hide Between;
    var d, rest := dist(p[k - 1], p[k]), expected - Cum(dist, p, k - 1);
    assert Cum(dist, p, k) == Cum(dist, p, k - 1) + d;
    t := rest / d;
    RatioBounds(rest, d);
  }

  lemma RatioBounds(rest: real, d: real)
    requires d > 0.0
    ensures 0.0 < rest <= d ==> 0.0 < rest / d <= 1.0
    ensures rest >= d ==> rest / d >= 1.0
  {
  }

  method Cumulative(dist: Metric, path: seq<Point>) returns (cumulative: seq<real>, travelled: real)
    requires |path| > 0
    ensures |cumulative| == |path| && travelled == Length(dist, path)
    ensures forall i | 0 <= i < |path| :: cumulative[i] == Cum(dist, path, i)
  {
    cumulative, travelled := [0.0], 0.0;
    for i := 1 to |path|
      invariant |cumulative| == i && travelled == Cum(dist, path, i - 1)
      invariant forall j | 0 <= j < i :: cumulative[j] == Cum(dist, path, j)
    {
      travelled := travelled + dist(path[i - 1], path[i]);
      cumulative := cumulative + [travelled];
    }
  }

  /** From `from`, by a distance along a direction of the given length. */
  function Along(from: Point, direction: Point, length: real, distance: real): Point
    requires length != 0.0
  {
    Point(from.x + direction.x / length * distance, from.y + direction.y / length * distance)
  }

  lemma DivideFirst(x: real, d: real, r: real)
    requires d != 0.0
    ensures x / d * r == x * (r / d)
  {
  }

  /** Extending from the end by what is missing is going from the last but one point by what it lacks. */
  lemma ExtendForms(a: Point, b: Point, d: real, rest: real, missing: real)
    requires d > 0.0 && missing == rest - d
    ensures Along(b, Minus(b, a), d, missing) == Lerp(a, b, rest / d)
    ensures Along(a, Minus(b, a), d, rest) == Lerp(a, b, rest / d)
  {
    ExtendReal(a.x, b.x, d, rest);
    ExtendReal(a.y, b.y, d, rest);
  }

  lemma ExtendReal(a: real, b: real, d: real, rest: real)
    requires d > 0.0
    ensures b + (b - a) / d * (rest - d) == Between(a, b, rest / d)
    ensures a + (b - a) / d * rest == Between(a, b, rest / d)
  {
    DivideFirst(b - a, d, rest);
    var q := (b - a) / d;
    assert q * d == b - a;
    assert q * (rest - d) == q * rest - q * d;
  }

  lemma ExtendFromEnd(dist: Metric, p: seq<Point>, expected: real, end: Point)
    requires |p| >= 2 && dist(p[|p| - 2], p[|p| - 1]) > 0.0
    requires
      var a, b := p[|p| - 2], p[|p| - 1];
      end == Along(b, Minus(b, a), dist(a, b), expected - Cum(dist, p, |p| - 1))
    ensures p[|p| - 1 := end] == EndAt(dist, p, expected, |p| - 1)
  {
    hide Along, Between;
    var a, b := p[|p| - 2], p[|p| - 1];
    ExtendForms(a, b, dist(a, b), expected - Cum(dist, p, |p| - 2), expected - Cum(dist, p, |p| - 1));
    assert p[|p| - 1 := end] == p[..|p| - 1] + [end];
  }

  /** The cut of `fit_path_truncate_extend`: walk forward to the segment that reaches the expected length. */
  method CutForward(dist: Metric, path: seq<Point>, cumulative: seq<real>, expected: real) returns (fitted: seq<Point>)
    requires IsDist(dist) && Fittable(dist, path, expected) && Length(dist, path) > expected
    requires |cumulative| == |path| && forall i | 0 <= i < |path| :: cumulative[i] == Cum(dist, path, i)
    ensures fitted == Fit(dist, path, expected)
  {
    FirstBeyondSegment(dist, path, expected);
    ghost var k := FirstBeyond(dist, path, expected, 0);
    fitted := [path[0]];
    var previousDistance := 0.0;
    var i := 1;
    while i < |path|
      invariant 1 <= i <= k
      invariant fitted == path[..i]
      invariant previousDistance == Cum(dist, path, i - 1) < expected
    {
      var currentDistance := cumulative[i];
      var previous, current := path[i - 1], path[i];
      if currentDistance >= expected {
        assert i == k;
        var segmentLength := currentDistance - previousDistance;
        if segmentLength <= 0.0 {
          fitted := fitted + [current];
        } else {
          fitted := fitted + [Lerp(previous, current, (expected - previousDistance) / segmentLength)];
        }
        return;
      }
      fitted := fitted + [current];
      previousDistance := currentDistance;
      i := i + 1;
    }
  }

  /** `fit_path_truncate_extend`: cut, or push the last point outward. */
  method FitTruncateExtend(dist: Metric, path: seq<Point>, expected: real) returns (fitted: seq<Point>)
    requires IsDist(dist)
    ensures fitted == Fit(dist, path, expected)
  {
    hide Along, Between;
    if |path| < 2 || expected <= 0.0 {
      return path;
    }
    var cumulative, travelled := Cumulative(dist, path);
    if travelled <= 0.0 {
      return path;
    }
    if travelled > expected {
      fitted := CutForward(dist, path, cumulative, expected);
      return;
    }
    fitted := path;
    var n := |fitted|;
    if fitted[n - 1] == fitted[n - 2] {
      return;
    }
    var a, b := fitted[n - 2], fitted[n - 1];
    var remaining := expected - travelled;
    var direction := Minus(b, a);
    // The length of the direction is the same expression as the distance of its ends.
    var directionLength := dist(b, a);
    DistSymmetric(dist, a, b);
    DistZero(dist, a, b);
    if directionLength > 0.0 {
      var end := Along(b, direction, directionLength, remaining);
      ExtendFromEnd(dist, path, expected, end);
      fitted := fitted[n - 1 := end];
    }
  }

  /** The cut of `fit_path_lazer`: drop points from the end while they are too far, put one back. */
  method CutBack(dist: Metric, path: seq<Point>, cumulative: seq<real>, expected: real)
    returns (fitted: seq<Point>, lengths: seq<real>)
    requires IsDist(dist) && Fittable(dist, path, expected) && Length(dist, path) > expected
    requires |cumulative| == |path| && forall i | 0 <= i < |path| :: cumulative[i] == Cum(dist, path, i)
    ensures var k := FirstBeyond(dist, path, expected, 0);
      fitted == path[..k + 1] && |lengths| == k + 1 && k > 0 && lengths[k - 1] == Cum(dist, path, k - 1)
  {
    FirstBeyondSegment(dist, path, expected);
    ghost var k := FirstBeyond(dist, path, expected, 0);
    fitted, lengths := path, cumulative;
    while lengths != [] && lengths[|lengths| - 1] >= expected
      invariant k <= |lengths| == |fitted| <= |path|
      invariant fitted == path[..|fitted|] && lengths == cumulative[..|lengths|]
      decreases |lengths|
    {
      lengths := lengths[..|lengths| - 1];
      fitted := fitted[..|fitted| - 1];
    }
    if |fitted| > k {
      CumMonotone(dist, path, k, |fitted| - 1);
    }
    fitted := fitted + [path[|fitted|]];
    lengths := lengths + [expected];
  }

  /** `fit_path_lazer`: cut back if too long, then re-aim the last segment. */
  method FitLazer(dist: Metric, path: seq<Point>, expected: real) returns (fitted: seq<Point>)
    requires IsDist(dist)
    ensures fitted == Fit(dist, path, expected)
  {
    hide Along, Between;
    if |path| < 2 || expected <= 0.0 {
      return path;
    }
    var lengths, travelled := Cumulative(dist, path);
    if travelled <= 0.0 {
      return path;
    }
    fitted := path;
    if travelled > expected {
      fitted, lengths := CutBack(dist, path, lengths, expected);
      FirstBeyondSegment(dist, path, expected);
    }
    var n := |fitted|;
    DistZero(dist, fitted[n - 2], fitted[n - 1]);
    if n < 2 || fitted[n - 1] == fitted[n - 2] {
      return;
    }
    var a, b := fitted[n - 2], fitted[n - 1];
    var remaining := expected - lengths[|lengths| - 2];
    var direction := Minus(b, a);
    var directionLength := dist(b, a);
    DistSymmetric(dist, a, b);
    if directionLength > 0.0 {
      ExtendForms(a, b, dist(a, b), remaining, remaining - dist(a, b));
      fitted := fitted[n - 1 := Along(a, direction, directionLength, remaining)];
      assert fitted == EndAt(dist, path, expected, n - 1);
    }
  }

  /** Standard and catch mode give a slider the same shape before simplification. */
  method BothFits(dist: Metric, path: seq<Point>, expected: real) returns (standard: seq<Point>, catchMode: seq<Point>)
    requires IsDist(dist)
    ensures standard == catchMode
    ensures Fittable(dist, path, expected) && (Length(dist, path) >= expected || LastPairDiffers(path)) ==>
      Length(dist, standard) == expected
  {
    standard := FitTruncateExtend(dist, path, expected);
    catchMode := FitLazer(dist, path, expected);
    if Fittable(dist, path, expected) {
      FitLength(dist, path, expected);
    }
  }

  /** One unit long, and its last point is repeated. */
  const SHORT := [Point(0.0, 0.0), Point(1.0, 0.0), Point(1.0, 0.0)]

  lemma UnitRoot()
    ensures RootAt(1.0, -1.0, 0.0)
  {
  }

  lemma ShortDistances(dist: Metric)
    requires IsDist(dist)
    ensures dist(SHORT[0], SHORT[1]) == 1.0 && dist(SHORT[1], SHORT[2]) == 0.0
  {
    hide Square;
    DistZero(dist, SHORT[1], SHORT[2]);
    assert DistAt(dist, SHORT[0], SHORT[1]);
    UnitRoot();
    RootUnique(dist(SHORT[0], SHORT[1]), 1.0, -1.0, 0.0);
  }

  /** Such a path is not extended to length two. */
  lemma RepeatedEndMisses(dist: Metric)
    requires IsDist(dist)
    ensures Fittable(dist, SHORT, 2.0) && Length(dist, Fit(dist, SHORT, 2.0)) == 1.0
  {
    ShortDistances(dist);
    hide IsDist, Square, EndAt;
    assert Cum(dist, SHORT, 1) == Cum(dist, SHORT, 0) + dist(SHORT[0], SHORT[1]);
    assert Cum(dist, SHORT, 2) == Cum(dist, SHORT, 1) + dist(SHORT[1], SHORT[2]);
    assert Length(dist, SHORT) == 1.0;
  }
}
