/** The two slider paths as the game modes build them: what fitting, simplifying and measuring do together. */
module SliderPaths {
  import opened Geometry
  import opened Polyline
  import opened LengthFit
  import opened PathSlice
  import opened PathSimplify
  import opened Sequences

  // ----- straight lines are shortest -----

  lemma CauchyIdentity(u: real, v: real, s: real, t: real)
    ensures (u * s + v * t) * (u * s + v * t) + (u * t - v * s) * (u * t - v * s) == (u * u + v * v) * (s * s + t * t)
  {
    assert (u * s + v * t) * (u * s + v * t) == (u * u) * (s * s) + 2.0 * (u * s) * (v * t) + (v * v) * (t * t);
    assert (u * t - v * s) * (u * t - v * s) == (u * u) * (t * t) - 2.0 * (u * t) * (v * s) + (v * v) * (s * s);
  }

  lemma BySquares(a: real, b: real)
    requires b >= 0.0 && Square(a) <= Square(b)
    ensures a <= b
  {
    hide Square;
    if a > b {
      SquareLess(b, a);
    }
  }

  /** The inner product of two vectors is at most the product of their lengths. */
  lemma InnerProduct(d: real, e: real, u: real, v: real, s: real, t: real)
    requires RootAt(d, u, v) && RootAt(e, s, t)
    ensures u * s + v * t <= d * e
  {
    CauchyIdentity(u, v, s, t);
    SquareNonNegative(u * t - v * s);
    assert (d * e) * (d * e) == (d * d) * (e * e);
    BySquares(u * s + v * t, d * e);
  }

  /** The square of a sum of vectors, and of the sum of their lengths. */
  lemma SquaresOfSums(d: real, e: real, u: real, v: real, s: real, t: real)
    requires Times(d, d) == Times(u, u) + Times(v, v) && Times(e, e) == Times(s, s) + Times(t, t)
    requires u * s + v * t <= d * e
    ensures (u + s) * (u + s) + (v + t) * (v + t) <= (d + e) * (d + e)
  {
    assert (u + s) * (u + s) + (v + t) * (v + t) == (u * u + v * v) + (s * s + t * t) + 2.0 * (u * s + v * t);
    assert (d + e) * (d + e) == d * d + e * e + 2.0 * (d * e);
  }

  lemma RootTriangle(d: real, e: real, f: real, u: real, v: real, s: real, t: real)
    requires RootAt(d, u, v) && RootAt(e, s, t) && RootAt(f, u + s, v + t)
    ensures f <= d + e
  {
    InnerProduct(d, e, u, v, s, t);
    SquaresOfSums(d, e, u, v, s, t);
    BySquares(f, d + e);
  }

  lemma Triangle(dist: Metric, a: Point, b: Point, c: Point)
    requires IsDist(dist)
    ensures dist(a, c) <= dist(a, b) + dist(b, c)
  {
    hide Square;
    assert DistAt(dist, a, b) && DistAt(dist, b, c) && DistAt(dist, a, c);
    var u, v, s, t := a.x - b.x, a.y - b.y, b.x - c.x, b.y - c.y;
    assert u + s == a.x - c.x && v + t == a.y - c.y;
    RootTriangle(dist(a, b), dist(b, c), dist(a, c), u, v, s, t);
  }

  /** A chord is no longer than the stretch of the polyline it cuts off. */
  lemma {:induction false} ChordShorter(dist: Metric, p: seq<Point>, i: nat, j: nat)
    requires IsDist(dist) && i <= j < |p|
    ensures dist(p[i], p[j]) <= Cum(dist, p, j) - Cum(dist, p, i)
    decreases j
  {
    if i == j {
      DistZero(dist, p[i], p[j]);
    } else {
      ChordShorter(dist, p, i, j - 1);
      Triangle(dist, p[i], p[j - 1], p[j]);
    }
  }

  lemma {:induction false} PickShorter(dist: Metric, p: seq<Point>, indices: seq<nat>, k: nat)
    requires IsDist(dist) && k < |indices| && indices[0] == 0
    requires forall i | 0 < i < |indices| :: indices[i - 1] < indices[i]
    requires forall i | 0 <= i < |indices| :: indices[i] < |p|
    ensures Cum(dist, Pick(p, indices), k) <= Cum(dist, p, indices[k])
    decreases k
  {
    if k > 0 {
      PickShorter(dist, p, indices, k - 1);
      ChordShorter(dist, p, indices[k - 1], indices[k]);
    }
  }

  /** Simplifying never lengthens a path, and keeps its ends. */
  lemma SimplifiedShorter(dist: Metric, p: seq<Point>, tolerance: real)
    requires IsDist(dist)
    ensures Length(dist, Simplified(p, tolerance)) <= Length(dist, p)
    ensures p != [] ==>
      var r := Simplified(p, tolerance);
      r != [] && r[0] == p[0] && r[|r| - 1] == p[|p| - 1]
  {
    if |p| >= 3 {
      var kept := KeptIndices(p, ToleranceSq(tolerance));
      KeptShape(p, ToleranceSq(tolerance));
      PickShorter(dist, p, kept, |kept| - 1);
    }
  }

  // ----- what simplifying keeps of the shape -----

  /** `q` is within the tolerance of the segment from point `k` to the next; of the last point, of that point. */
  predicate NearSegment(p: seq<Point>, k: nat, q: Point, t: real, toleranceSq: real) {
    k < |p| && WithinOf(p[k], p[if k + 1 < |p| then k + 1 else k], q, t, toleranceSq)
  }

  ghost predicate NearPath(p: seq<Point>, q: Point, toleranceSq: real) {
    exists k: nat, t :: NearSegment(p, k, q, t, toleranceSq)
  }

  lemma NearStart(a: Point, b: Point, q: Point, toleranceSq: real, t: real)
    requires WithinOf(a, a, q, t, toleranceSq)
    ensures WithinOf(a, b, q, 0.0, toleranceSq)
  {
    assert Lerp(a, a, t) == a == Lerp(a, b, 0.0);
  }

  /** Appending a point keeps what was near near. */
  lemma NearLonger(p: seq<Point>, b: Point, q: Point, toleranceSq: real)
    requires NearPath(p, q, toleranceSq)
    ensures NearPath(p + [b], q, toleranceSq)
  {
    hide WithinOf;
    var k: nat, t :| NearSegment(p, k, q, t, toleranceSq);
    if k + 1 < |p| {
      assert NearSegment(p + [b], k, q, t, toleranceSq);
    } else {
      NearStart(p[k], b, q, toleranceSq, t);
      assert NearSegment(p + [b], k, q, 0.0, toleranceSq);
    }
  }

  /** A path seen without its last point: what was near is near the rest, or near the last segment. */
  lemma NearShorter(s: seq<Point>, q: Point, toleranceSq: real) returns (t: real)
    requires s != [] && NearPath(s, q, toleranceSq)
    ensures
      var last := |s| - 1;
      || NearPath(s[..last], q, toleranceSq)
      || WithinOf(s[last], s[last], q, t, toleranceSq)
      || (last > 0 && WithinOf(s[last - 1], s[last], q, t, toleranceSq))
  {
    hide WithinOf;
    var last := |s| - 1;
    var k: nat, u :| NearSegment(s, k, q, u, toleranceSq);
    t := u;
    if k + 1 < last {
      assert NearSegment(s[..last], k, q, u, toleranceSq);
    }
  }

  lemma {:induction false} NearWithoutRepeats(s: seq<Point>, q: Point, toleranceSq: real)
    requires NearPath(s, q, toleranceSq)
    ensures NearPath(DropRepeats(s), q, toleranceSq)
    decreases |s|
  {
    var last := |s| - 1;
    var r, before := DropRepeats(s), DropRepeats(s[..last]);
    var t := NearShorter(s, q, toleranceSq);
    hide WithinOf, NearPath;
    if NearPath(s[..last], q, toleranceSq) {
      NearWithoutRepeats(s[..last], q, toleranceSq);
      NearLonger(before, s[last], q, toleranceSq);
    } else {
      NearLast(r, before, s, q, toleranceSq, t);
    }
  }

  lemma NearLast(r: seq<Point>, before: seq<Point>, s: seq<Point>, q: Point, toleranceSq: real, t: real)
    requires s != [] && r == DropRepeats(s) && before == DropRepeats(s[..|s| - 1])
    requires WithinOf(s[|s| - 1], s[|s| - 1], q, t, toleranceSq)
      || (|s| > 1 && WithinOf(s[|s| - 2], s[|s| - 1], q, t, toleranceSq))
    ensures NearPath(r, q, toleranceSq)
  {
    hide WithinOf;
    var last := |s| - 1;
    assert r[|r| - 1] == s[last];
    if WithinOf(s[last], s[last], q, t, toleranceSq) {
      assert NearSegment(r, |r| - 1, q, t, toleranceSq);
    } else {
      assert before[|before| - 1] == s[..last][last - 1];
      assert NearSegment(r, |r| - 2, q, t, toleranceSq);
    }
  }

  lemma OwnSegment(p: seq<Point>, k: nat, toleranceSq: real)
    requires k < |p| && toleranceSq >= 0.0
    ensures NearPath(p, p[k], toleranceSq)
  {
    assert Lerp(p[k], p[if k + 1 < |p| then k + 1 else k], 0.0) == p[k];
    assert NearSegment(p, k, p[k], 0.0, toleranceSq);
  }

  /** The kept index at or before `j`. */
  lemma {:induction false} GapOf(kept: seq<nat>, j: nat) returns (k: nat)
    requires kept != [] && kept[0] <= j
    ensures k < |kept| && kept[k] <= j && (k + 1 < |kept| ==> j < kept[k + 1])
    decreases |kept|
  {
    var last := |kept| - 1;
    if kept[last] <= j {
      k := last;
    } else {
      k := GapOf(kept[..last], j);
    }
  }

  /** Every point of a path is close to the simplified path. */
  lemma NearSimplified(p: seq<Point>, tolerance: real, j: nat)
    requires j < |p|
    ensures NearPath(Simplified(p, tolerance), p[j], ToleranceSq(tolerance))
  {
    hide WithinOf, Keep;
    var m := ToleranceSq(tolerance);
    if |p| < 3 {
      OwnSegment(p, j, m);
    } else {
      var kept := KeptIndices(p, m);
      KeptShape(p, m);
      var k := GapOf(kept, j);
      var r := Simplified(p, tolerance);
      if kept[k] == j {
        OwnSegment(r, k, m);
      } else {
        assert k + 1 < |kept|;
        SimplifiedClose(p, m, k, j);
        var t :| WithinOf(p[kept[k]], p[kept[k + 1]], p[j], t, m);
        assert NearSegment(r, k, p[j], t, m);
      }
    }
  }

  /** `q` is a point of `whole` that is too far from the segment between two points of `p` around it. */
  ghost predicate Needed(whole: seq<Point>, p: seq<Point>, q: Point, toleranceSq: real) {
    exists a, m, b :: 0 <= a < m < b < |whole|
      && whole[m] == q && whole[a] in p && whole[b] in p && FarFrom(whole[a], whole[b], q, toleranceSq)
  }

  lemma KeptNeeded(p: seq<Point>, tolerance: real, k: nat)
    requires |p| >= 3 && 0 < k < |Simplified(p, tolerance)| - 1
    ensures
      var s := Simplified(p, tolerance);
      Needed(p, DropRepeats(s), s[k], ToleranceSq(tolerance))
  {
    hide FarFrom, Keep, DropRepeats;
    var m := ToleranceSq(tolerance);
    var kept := KeptIndices(p, m);
    KeptShape(p, m);
    var a, b := KeptForReason(p, m, k);
    PickedIn(p, kept, a);
    PickedIn(p, kept, b);
    assert Simplified(p, tolerance)[k] == p[kept[k]];
  }

  lemma PickedTwice(p: seq<Point>, kept: seq<nat>, places: seq<nat>) returns (both: seq<nat>)
    requires kept != [] && kept[0] == 0 && forall k | 0 <= k < |kept| :: kept[k] < |p|
    requires forall k | 0 < k < |kept| :: kept[k - 1] < kept[k]
    requires PickedAt(Pick(p, kept), DropRepeats(Pick(p, kept)), places)
    ensures PickedAt(p, DropRepeats(Pick(p, kept)), both)
  {
    hide DropRepeats;
    forall k, l | 0 <= k < l < |places| ensures kept[places[k]] < kept[places[l]] {
      AscendingFrom(kept, places[k], places[l]);
    }
    both := seq(|places|, k requires 0 <= k < |places| => kept[places[k]]);
  }

  /** What is left after simplifying and dropping repeats: points of the path in order, none without need. */
  lemma SimplifiedPicks(p: seq<Point>, tolerance: real) returns (places: seq<nat>)
    ensures PickedAt(p, DropRepeats(Simplified(p, tolerance)), places)
    ensures
      var r := DropRepeats(Simplified(p, tolerance));
      |p| >= 3 ==> forall k | 0 < k < |r| - 1 :: Needed(p, r, r[k], ToleranceSq(tolerance))
  {
    var s, m := Simplified(p, tolerance), ToleranceSq(tolerance);
    var r := DropRepeats(s);
    places := DropRepeatsPicks(s);
    if |p| >= 3 {
      var kept := KeptIndices(p, m);
      KeptShape(p, m);
      hide Needed, Keep, DropRepeats;
      forall k | 0 < k < |r| - 1 ensures Needed(p, r, r[k], m) {
        assert places[0] < places[k] < places[|r| - 1] < |s|;
        KeptNeeded(p, tolerance, places[k]);
      }
      places := PickedTwice(p, kept, places);
    }
  }

  lemma PickedIn(p: seq<Point>, kept: seq<nat>, a: nat)
    requires a in kept && forall k | 0 <= k < |kept| :: kept[k] < |p|
    ensures p[a] in DropRepeats(Pick(p, kept))
  {
    var k :| 0 <= k < |kept| && kept[k] == a;
    assert Pick(p, kept)[k] == p[a];
  }

  // ----- the two builders -----

  predicate Exact(dist: Metric, curve: seq<Point>, expected: real) {
    Fittable(dist, curve, expected) && (Length(dist, curve) >= expected || LastPairDiffers(curve))
  }

  /** `build_catch_slider_path`, from the raw curve on: the path has exactly the slider's pixel length. */
  method BuildCatchSliderPath(dist: Metric, curve: seq<Point>, expected: real) returns (path: SliderPath)
    requires IsDist(dist)
    ensures Built(dist, path) && path.points == DropRepeats(Fit(dist, curve, expected))
    ensures Exact(dist, curve, expected) ==> path.total == expected
  {
    var fitted := FitLazer(dist, curve, expected);
    path := BuildPath(dist, fitted);
    if Fittable(dist, curve, expected) {
      FitLength(dist, curve, expected);
    }
  }

  /** `build_standard_slider_path`, from the raw curve on: the path never exceeds the slider's pixel length. */
  method BuildStandardSliderPath(dist: Metric, curve: seq<Point>, expected: real) returns (path: SliderPath)
    requires IsDist(dist)
    ensures Built(dist, path)
    ensures path.total <= Length(dist, Fit(dist, curve, expected))
    ensures Exact(dist, curve, expected) ==> path.total <= expected
    ensures curve != [] ==>
      var fitted := Fit(dist, curve, expected);
      && fitted != [] && path.points != []
      && path.points[0] == curve[0] && path.points[|path.points| - 1] == fitted[|fitted| - 1]
    ensures
      var fitted := Fit(dist, curve, expected);
      && (exists places :: PickedAt(fitted, path.points, places))
      && (forall j | 0 <= j < |fitted| :: NearPath(path.points, fitted[j], 1.0))
      && (|fitted| >= 3 ==> forall k | 0 < k < |path.points| - 1 :: Needed(fitted, path.points, path.points[k], 1.0))
  {
    var fitted := FitTruncateExtend(dist, curve, expected);
    var simplified := SimplifyPath(fitted, 1.0);
    path := BuildPath(dist, simplified);
    SimplifiedShorter(dist, fitted, 1.0);
    forall j | 0 <= j < |fitted| ensures NearPath(path.points, fitted[j], 1.0) {
      NearSimplified(fitted, 1.0, j);
      NearWithoutRepeats(simplified, fitted[j], 1.0);
    }
    var places := SimplifiedPicks(fitted, 1.0);
    if Fittable(dist, curve, expected) {
      FitLength(dist, curve, expected);
    }
    if curve != [] {
      FitKeepsPoints(dist, curve, expected);
    }
  }
}
