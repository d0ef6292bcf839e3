/** Adaptive flattening of a Bezier curve: why the stack empties, and where the emitted points lie. */
module BezierFlatten {
  import opened Geometry
  import opened BezierCurve
  import opened Numbers
  import opened Sequences

  /** BEZIER_TOLERANCE squared, times four. */
  const THRESHOLD := 0.25

  function Second(p: Polygon, i: nat): Point
    requires i + 2 < |p|
  {
    Point(p[i].x - 2.0 * p[i + 1].x + p[i + 2].x, p[i].y - 2.0 * p[i + 1].y + p[i + 2].y)
  }

  /** Every second difference of the control points is within `m` (squared). */
  predicate Within(p: Polygon, m: real) {
    forall i | 0 <= i < |p| - 2 :: NormSq(Second(p, i)) <= m
  }

  /** `bezier_is_flat_enough`. */
  method IsFlatEnough(points: Polygon) returns (flat: bool)
    ensures flat <==> Within(points, THRESHOLD)
  {
    for i := 1 to if |points| < 2 then 1 else |points| - 1
      invariant forall j | 0 <= j < i - 1 :: NormSq(Second(points, j)) <= THRESHOLD
    {
      var dx := points[i - 1].x - 2.0 * points[i].x + points[i + 1].x;
      var dy := points[i - 1].y - 2.0 * points[i].y + points[i + 1].y;
      assert Second(points, i - 1) == Point(dx, dy);
      if dx * dx + dy * dy > THRESHOLD {
        return false;
      }
    }
    return true;
  }

  // ----- halving quarters the second differences -----

  function Delta(p: Polygon): (r: Polygon)
    requires |p| > 1
    ensures |r| == |p| - 1
  {
    seq(|p| - 1, i requires 0 <= i < |p| - 1 => Minus(p[i + 1], p[i]))
  }

  lemma BetweenMinus(a: real, b: real, c: real, d: real, t: real)
    ensures Between(a, b, t) - Between(c, d, t) == Between(a - c, b - d, t)
  {
    assert (b - a) * t - (d - c) * t == ((b - d) - (a - c)) * t;
  }

  lemma LerpMinus(a: Point, b: Point, c: Point, d: Point, t: real)
    ensures Minus(Lerp(a, b, t), Lerp(c, d, t)) == Lerp(Minus(a, c), Minus(b, d), t)
  {
    hide Between;
    BetweenMinus(a.x, b.x, c.x, d.x, t);
    BetweenMinus(a.y, b.y, c.y, d.y, t);
  }

  /** The curve of the differences is the difference of the two curves one degree down. */
  lemma {:induction false} CurveOfDelta(p: Polygon, t: real)
    requires |p| > 1
    ensures Curve(Delta(p), t) == Minus(Curve(p[1..], t), Curve(p[..|p| - 1], t))
    decreases |p|
  {
    var n := |p|;
    if n > 2 {
      CurveOfDelta(p[..n - 1], t);
      CurveOfDelta(p[1..], t);
      assert Delta(p)[..n - 2] == Delta(p[..n - 1]);
      assert Delta(p)[1..] == Delta(p[1..]);
      assert p[..n - 1][1..] == p[1..][..n - 2];
      LerpMinus(Curve(p[1..][..n - 2], t), Curve(p[1..][1..], t),
                Curve(p[..n - 1][..n - 2], t), Curve(p[..n - 1][1..], t), t);
    }
  }

  /** Neighbouring control points of a half differ by half of what the differences' curve gives. */
  lemma LeftDelta(p: Polygon, i: nat)
    requires i + 1 < |p|
    ensures Minus(Left(p)[i + 1], Left(p)[i]) == Scale(0.5, Left(Delta(p))[i])
  {
    var q := p[..i + 2];
    CurveOfDelta(q, 0.5);
    assert q[..i + 1] == p[..i + 1];
    assert Delta(q) == Delta(p)[..i + 1];
  }

  lemma RightDelta(p: Polygon, i: nat)
    requires i + 1 < |p|
    ensures Minus(Right(p)[i + 1], Right(p)[i]) == Scale(0.5, Right(Delta(p))[i])
  {
    var q := p[i..];
    CurveOfDelta(q, 0.5);
    assert q[1..] == p[i + 1..];
    assert Delta(q) == Delta(p)[i..];
  }

  lemma LeftSecond(p: Polygon, i: nat)
    requires i + 2 < |p|
    ensures Second(Left(p), i) == Scale(0.25, Left(Delta(Delta(p)))[i])
  {
    LeftDelta(p, i);
    LeftDelta(p, i + 1);
    LeftDelta(Delta(p), i);
  }

  lemma RightSecond(p: Polygon, i: nat)
    requires i + 2 < |p|
    ensures Second(Right(p), i) == Scale(0.25, Right(Delta(Delta(p)))[i])
  {
    RightDelta(p, i);
    RightDelta(p, i + 1);
    RightDelta(Delta(p), i);
  }

  lemma {:induction false} CurveNorm(p: Polygon, m: real)
    requires AllWithin(p, m)
    ensures NormSq(Curve(p, 0.5)) <= m
    decreases |p|
  {
    if |p| > 1 {
      CurveNorm(p[..|p| - 1], m);
      CurveNorm(p[1..], m);
      MidNorm(Curve(p[..|p| - 1], 0.5), Curve(p[1..], 0.5), m);
      assert Curve(p, 0.5) == Mid(Curve(p[..|p| - 1], 0.5), Curve(p[1..], 0.5));
    }
  }

  lemma QuarterNorm(a: Point)
    ensures NormSq(Scale(0.25, a)) == NormSq(a) / 16.0
  {
    assert 0.25 * a.x * (0.25 * a.x) == a.x * a.x / 16.0;
    assert 0.25 * a.y * (0.25 * a.y) == a.y * a.y / 16.0;
  }

  lemma ScaledNorm(a: Point, q: Point, m: real)
    requires q == Scale(0.25, a) && NormSq(a) <= m
    ensures NormSq(q) <= m / 16.0
  {
    QuarterNorm(a);
  }

  predicate AllWithin(s: seq<Point>, m: real) {
    forall i | 0 <= i < |s| :: NormSq(s[i]) <= m
  }

  lemma DeltasWithin(p: Polygon, m: real)
    requires |p| > 2 && Within(p, m)
    ensures AllWithin(Delta(Delta(p)), m)
  {
    hide NormSq;
    forall k | 0 <= k < |p| - 2 ensures NormSq(Delta(Delta(p))[k]) <= m {
      assert NormSq(Second(p, k)) <= m;
      assert Delta(Delta(p))[k] == Second(p, k);
    }
  }

  lemma SecondOfHalves(p: Polygon, m: real, i: nat)
    requires i + 2 < |p| && Within(p, m)
    ensures NormSq(Second(Left(p), i)) <= m / 16.0
    ensures NormSq(Second(Right(p), i)) <= m / 16.0
  {
    var dd := Delta(Delta(p));
    DeltasWithin(p, m);
    CurveNorm(dd[..i + 1], m);
    CurveNorm(dd[i..], m);
    LeftSecond(p, i);
    RightSecond(p, i);
    ScaledNorm(Left(dd)[i], Second(Left(p), i), m);
    ScaledNorm(Right(dd)[i], Second(Right(p), i), m);
  }

  /** Both halves are sixteen times flatter (in squared second differences) than the whole. */
  lemma HalvesFlatter(p: Polygon, m: real)
    requires Within(p, m)
    ensures Within(Left(p), m / 16.0) && Within(Right(p), m / 16.0)
  {
    forall i | 0 <= i < |p| - 2
      ensures NormSq(Second(Left(p), i)) <= m / 16.0 && NormSq(Second(Right(p), i)) <= m / 16.0
    {
      SecondOfHalves(p, m, i);
    }
  }

  // ----- how deep the subdivision can go -----

  /** The largest squared second difference among the first `n`. */
  function MaxSecond(p: Polygon, n: nat): (m: real)
    requires n <= |p| - 2 || n == 0
    ensures m >= 0.0
    ensures forall i | 0 <= i < n :: NormSq(Second(p, i)) <= m
    ensures m > 0.0 ==> exists i | 0 <= i < n :: NormSq(Second(p, i)) == m
  {
    if n == 0 then 0.0
    else
      var m := MaxSecond(p, n - 1);
      if NormSq(Second(p, n - 1)) > m then NormSq(Second(p, n - 1)) else m
  }

  function Bend(p: Polygon): real {
    MaxSecond(p, if |p| < 2 then 0 else |p| - 2)
  }

  lemma BendWithin(p: Polygon, m: real)
    requires m >= 0.0
    ensures Within(p, m) <==> Bend(p) <= m
  {
  }

  /** How often `m` must be divided by sixteen to come within the threshold. */
  function Levels(m: real): nat
    decreases 8.0 * m
  {
    if m <= THRESHOLD then 0 else 1 + Levels(m / 16.0)
  }

  lemma {:induction false} LevelsMonotone(a: real, b: real)
    requires a <= b
    ensures Levels(a) <= Levels(b)
    decreases 8.0 * b
  {
    if a > THRESHOLD {
      LevelsMonotone(a / 16.0, b / 16.0);
    }
  }

  function Depth(p: Polygon): nat {
    Levels(Bend(p))
  }

  lemma BendOfHalves(p: Polygon)
    ensures Bend(Left(p)) <= Bend(p) / 16.0 && Bend(Right(p)) <= Bend(p) / 16.0
  {
    BendWithin(p, Bend(p));
    HalvesFlatter(p, Bend(p));
    BendWithin(Left(p), Bend(p) / 16.0);
    BendWithin(Right(p), Bend(p) / 16.0);
  }

  lemma LevelsStep(a: real, m: real)
    requires a <= m / 16.0 && m > THRESHOLD
    ensures Levels(a) < Levels(m)
  {
    LevelsMonotone(a, m / 16.0);
  }

  /** A polygon that is not flat enough has two strictly shallower halves; a flat one has depth zero. */
  lemma HalvesShallower(p: Polygon)
    ensures Depth(p) == 0 <==> Within(p, THRESHOLD)
    ensures Depth(p) > 0 ==> Depth(Left(p)) < Depth(p) && Depth(Right(p)) < Depth(p)
  {
    BendWithin(p, THRESHOLD);
    if Bend(p) > THRESHOLD {
      BendOfHalves(p);
      LevelsStep(Bend(Left(p)), Bend(p));
      LevelsStep(Bend(Right(p)), Bend(p));
    }
  }

  // ----- the points emitted -----

  /** What `bezier_approximate` makes of three control points in a row: the middle one, moved a little. */
  function Smoothed(p: Polygon, i: nat): Point
    requires i + 2 < |p|
  {
    Mid(Mid(p[i], p[i + 1]), Mid(p[i + 1], p[i + 2]))
  }

  /** What one flat piece contributes: smoothed control points of its left half only. */
  function LeafPoints(p: Polygon): seq<Point> {
    seq(if |p| < 2 then 0 else |p| - 2, i requires 0 <= i < |p| - 2 =>
      Smoothed(Left(p), i))
  }

  function Flatten(p: Polygon): seq<Point>
    decreases Depth(p)
  {
    HalvesShallower(p);
    if Within(p, THRESHOLD) then LeafPoints(p) else Flatten(Left(p)) + Flatten(Right(p))
  }

  /** `bezier_approximate`. */
  method ApproximateLeaf(points: Polygon) returns (output: seq<Point>)
    requires |points| > 1
    ensures output == LeafPoints(points)
  {
    var left, _ := Subdivide(points);
    output := [];
    for i := 1 to |points| - 1
      invariant |output| == i - 1
      invariant forall k | 0 <= k < i - 1 :: output[k] == LeafPoints(points)[k]
    {
      var p0, p1, p2 := left[i - 1], left[i], left[i + 1];
      output := output + [Point(0.25 * (p0.x + 2.0 * p1.x + p2.x), 0.25 * (p0.y + 2.0 * p1.y + p2.y))];
    }
  }

  // ----- the stack -----

  lemma {:induction false} Pow2Monotone(a: nat, b: nat)
    requires a <= b
    ensures 1 <= Pow2(a) <= Pow2(b)
  {
    if a < b {
      Pow2Monotone(a, b - 1);
    } else if a > 0 {
      Pow2Monotone(a - 1, a - 1);
    }
  }

  /** Nodes of a full binary tree of that depth. */
  function Nodes(p: Polygon): nat {
    Pow2Monotone(0, Depth(p) + 1);
    Pow2(Depth(p) + 1) - 1
  }

  lemma HalvesCheaper(p: Polygon)
    requires !Within(p, THRESHOLD)
    ensures Nodes(Left(p)) + Nodes(Right(p)) < Nodes(p)
  {
    hide Depth, Within, Left, Right;
    HalvesShallower(p);
    Pow2Monotone(Depth(Left(p)) + 1, Depth(p));
    Pow2Monotone(Depth(Right(p)) + 1, Depth(p));
  }

  /** Work still to be done for the pieces on the stack. */
  function StackCost(stack: seq<Polygon>): nat {
    if stack == [] then 0
    else Nodes(stack[|stack| - 1]) + StackCost(stack[..|stack| - 1])
  }

  /** Points still to be emitted: the top of the stack comes first. */
  function StackPoints(stack: seq<Polygon>): seq<Point> {
    if stack == [] then []
    else Flatten(stack[|stack| - 1]) + StackPoints(stack[..|stack| - 1])
  }

  lemma StackPush(stack: seq<Polygon>, p: Polygon)
    ensures StackCost(stack + [p]) == Nodes(p) + StackCost(stack)
    ensures StackPoints(stack + [p]) == Flatten(p) + StackPoints(stack)
  {
    assert (stack + [p])[..|stack|] == stack;
  }

  lemma NodesPositive(p: Polygon)
    ensures Nodes(p) > 0
  {
    Pow2Monotone(1, Depth(p) + 1);
  }

  /** Replacing a flat piece on top by its points, or a piece by its halves, changes nothing in the end. */
  lemma PopFlat(result: seq<Point>, rest: seq<Polygon>, parent: Polygon)
    requires Within(parent, THRESHOLD)
    ensures (result + LeafPoints(parent)) + StackPoints(rest) == result + StackPoints(rest + [parent])
    ensures StackCost(rest) < StackCost(rest + [parent])
  {
    hide Within, Flatten, LeafPoints, Nodes;
    FlattenLeaf(parent);
    StackPush(rest, parent);
    NodesPositive(parent);
    assert result + (LeafPoints(parent) + StackPoints(rest)) == (result + LeafPoints(parent)) + StackPoints(rest);
  }

  lemma FlattenLeaf(p: Polygon)
    requires Within(p, THRESHOLD)
    ensures Flatten(p) == LeafPoints(p)
  {
  }

  lemma FlattenSplit(p: Polygon)
    requires !Within(p, THRESHOLD)
    ensures Flatten(p) == Flatten(Left(p)) + Flatten(Right(p))
  {
  }

  lemma PopSplit(rest: seq<Polygon>, parent: Polygon)
    requires !Within(parent, THRESHOLD)
    ensures StackPoints(rest + [Right(parent)] + [Left(parent)]) == StackPoints(rest + [parent])
  {
    StackPush(rest, parent);
    StackPush(rest, Right(parent));
    StackPush(rest + [Right(parent)], Left(parent));
    FlattenSplit(parent);
    Regroup(Flatten(Left(parent)), Flatten(Right(parent)), StackPoints(rest));
  }

  lemma PopSplitCost(rest: seq<Polygon>, parent: Polygon)
    requires !Within(parent, THRESHOLD)
    ensures StackCost(rest + [Right(parent)] + [Left(parent)]) < StackCost(rest + [parent])
  {
    StackPush(rest, parent);
    StackPush(rest, Right(parent));
    StackPush(rest + [Right(parent)], Left(parent));
    HalvesCheaper(parent);
  }

  function Approximation(p: Polygon): seq<Point> {
    if |p| <= 2 then p else [p[0]] + Flatten(p) + [p[|p| - 1]]
  }

  /** What is emitted and what is still on the stack add up to the whole flattening. */
  predicate Emitted(result: seq<Point>, stack: seq<Polygon>, points: Polygon) {
    && (forall k | 0 <= k < |stack| :: |stack[k]| == |points|)
    && result + StackPoints(stack) == [points[0]] + Flatten(points)
  }

  lemma EmittedLeaf(result: seq<Point>, rest: seq<Polygon>, parent: Polygon, points: Polygon)
    requires Emitted(result, rest + [parent], points) && Within(parent, THRESHOLD)
    ensures Emitted(result + LeafPoints(parent), rest, points)
    ensures StackCost(rest) < StackCost(rest + [parent])
  {
    hide Within, Flatten, LeafPoints, Nodes;
    PopFlat(result, rest, parent);
    forall k | 0 <= k < |rest| ensures |rest[k]| == |points| {
      assert rest[k] == (rest + [parent])[k];
    }
  }

  lemma EmittedSplit(result: seq<Point>, rest: seq<Polygon>, parent: Polygon, points: Polygon)
    requires Emitted(result, rest + [parent], points) && !Within(parent, THRESHOLD)
    ensures Emitted(result, rest + [Right(parent)] + [Left(parent)], points)
    ensures StackCost(rest + [Right(parent)] + [Left(parent)]) < StackCost(rest + [parent])
  {
    hide Within, Flatten, LeafPoints, Nodes;
    PopSplit(rest, parent);
    PopSplitCost(rest, parent);
    assert (rest + [parent])[|rest|] == parent;
    forall k | 0 <= k < |rest| ensures |rest[k]| == |points| {
      assert rest[k] == (rest + [parent])[k];
    }
  }

  /** `approximate_bezier`: the explicit stack always empties, and emits the pieces in curve order. */
  method Approximate(points: Polygon) returns (result: seq<Point>)
    ensures result == Approximation(points)
  {
    if |points| < 2 {
      return points;
    }
    if |points| == 2 {
      return [points[0], points[1]];
    }
    result := [points[0]];
    var stack: seq<Polygon> := [points];
    StackPush([], points);
    assert [] + stack == stack;
    while stack != []
      invariant Emitted(result, stack, points)
      decreases StackCost(stack)
    {
      hide Within, Left, Right, Flatten, LeafPoints, StackCost, StackPoints;
      var parent := stack[|stack| - 1];
      var rest := stack[..|stack| - 1];
      assert stack == rest + [parent];
      var flat := IsFlatEnough(parent);
      if flat {
        EmittedLeaf(result, rest, parent, points);
        var leaf := ApproximateLeaf(parent);
        result, stack := result + leaf, rest;
      } else {
        EmittedSplit(result, rest, parent, points);
        var left, right := Subdivide(parent);
        stack := rest + [right] + [left];
      }
    }
    assert result + [] == result;
    result := result + [points[|points| - 1]];
  }

  // ----- where the points lie -----

  predicate InHalfPlane(q: Point, a: real, b: real, c: real) {
    a * q.x + b * q.y <= c
  }

  predicate AllInHalfPlane(s: seq<Point>, a: real, b: real, c: real) {
    forall i | 0 <= i < |s| :: InHalfPlane(s[i], a, b, c)
  }

  lemma MidInHalfPlane(p: Point, q: Point, a: real, b: real, c: real)
    requires InHalfPlane(p, a, b, c) && InHalfPlane(q, a, b, c)
    ensures InHalfPlane(Mid(p, q), a, b, c)
  {
    assert a * ((p.x + q.x) / 2.0) == (a * p.x + a * q.x) / 2.0;
    assert b * ((p.y + q.y) / 2.0) == (b * p.y + b * q.y) / 2.0;
  }

  lemma {:induction false} CurveInHalfPlane(p: Polygon, a: real, b: real, c: real)
    requires AllInHalfPlane(p, a, b, c)
    ensures InHalfPlane(Curve(p, 0.5), a, b, c)
    decreases |p|
  {
    if |p| > 1 {
      CurveInHalfPlane(p[..|p| - 1], a, b, c);
      CurveInHalfPlane(p[1..], a, b, c);
      MidInHalfPlane(Curve(p[..|p| - 1], 0.5), Curve(p[1..], 0.5), a, b, c);
      assert Curve(p, 0.5) == Mid(Curve(p[..|p| - 1], 0.5), Curve(p[1..], 0.5));
    }
  }

  lemma HalvesInHalfPlane(p: Polygon, a: real, b: real, c: real)
    requires AllInHalfPlane(p, a, b, c)
    ensures AllInHalfPlane(Left(p), a, b, c) && AllInHalfPlane(Right(p), a, b, c)
  {
    forall i | 0 <= i < |p| ensures InHalfPlane(Left(p)[i], a, b, c) && InHalfPlane(Right(p)[i], a, b, c) {
      CurveInHalfPlane(p[..i + 1], a, b, c);
      CurveInHalfPlane(p[i..], a, b, c);
    }
  }

  lemma LeafInHalfPlane(p: Polygon, a: real, b: real, c: real)
    requires AllInHalfPlane(p, a, b, c)
    ensures AllInHalfPlane(LeafPoints(p), a, b, c)
  {
    HalvesInHalfPlane(p, a, b, c);
    forall i | 0 <= i < |LeafPoints(p)| ensures InHalfPlane(LeafPoints(p)[i], a, b, c) {
      var l := Left(p);
      MidInHalfPlane(l[i], l[i + 1], a, b, c);
      MidInHalfPlane(l[i + 1], l[i + 2], a, b, c);
      MidInHalfPlane(Mid(l[i], l[i + 1]), Mid(l[i + 1], l[i + 2]), a, b, c);
    }
  }

  lemma {:induction false} FlattenInHalfPlane(p: Polygon, a: real, b: real, c: real)
    requires AllInHalfPlane(p, a, b, c)
    ensures AllInHalfPlane(Flatten(p), a, b, c)
    decreases Depth(p)
  {
    HalvesShallower(p);
    if Within(p, THRESHOLD) {
      LeafInHalfPlane(p, a, b, c);
    } else {
      HalvesInHalfPlane(p, a, b, c);
      FlattenInHalfPlane(Left(p), a, b, c);
      FlattenInHalfPlane(Right(p), a, b, c);
    }
  }

  /** No emitted point leaves any half-plane that holds the control points: all lie in their convex hull. */
  lemma ApproximationInHull(p: Polygon, a: real, b: real, c: real)
    requires AllInHalfPlane(p, a, b, c)
    ensures AllInHalfPlane(Approximation(p), a, b, c)
  {
    FlattenInHalfPlane(p, a, b, c);
  }

  /** The polyline starts and ends where the curve does. */
  lemma ApproximationEnds(p: Polygon)
    ensures var r := Approximation(p);
      r != [] && r[0] == p[0] == Curve(p, 0.0) && r[|r| - 1] == p[|p| - 1] == Curve(p, 1.0)
  {
    CurveEnds(p);
  }

  predicate OnCurve(q: Point, p: Polygon, t: real) {
    0.0 <= t <= 1.0 && q == Curve(p, t)
  }

  /** A flat quadratic piece emits a single point: the one a quarter of the way along its curve. */
  lemma QuadraticLeaf(p: Polygon)
    requires |p| == 3
    ensures LeafPoints(p) == [Curve(p, 0.25)]
  {
    var l := Left(p);
    assert l[..2] == [l[0], l[1]] && l[1..] == [l[1], l[2]];
    assert Curve([l[0], l[1]], 0.5) == Mid(l[0], l[1]) by {
      assert [l[0], l[1]][..1] == [l[0]] && [l[0], l[1]][1..] == [l[1]];
    }
    assert Curve([l[1], l[2]], 0.5) == Mid(l[1], l[2]) by {
      assert [l[1], l[2]][..1] == [l[1]] && [l[1], l[2]][1..] == [l[2]];
    }
    assert Curve(l, 0.5) == Mid(Mid(l[0], l[1]), Mid(l[1], l[2]));
    LeftHalf(p, 0.5);
  }

  /** For three control points every emitted point is exactly on the curve. */
  lemma {:induction false} QuadraticOnCurve(p: Polygon, k: nat)
    requires |p| == 3 && k < |Flatten(p)|
    ensures exists t :: OnCurve(Flatten(p)[k], p, t)
    decreases Depth(p)
  {
    HalvesShallower(p);
    if Within(p, THRESHOLD) {
      QuadraticLeaf(p);
      assert OnCurve(Flatten(p)[k], p, 0.25);
    } else if k < |Flatten(Left(p))| {
      QuadraticOnCurve(Left(p), k);
      var t :| OnCurve(Flatten(Left(p))[k], Left(p), t);
      LeftHalf(p, t);
      assert OnCurve(Flatten(p)[k], p, t / 2.0);
    } else {
      var l := k - |Flatten(Left(p))|;
      QuadraticOnCurve(Right(p), l);
      var t :| OnCurve(Flatten(Right(p))[l], Right(p), t);
      RightHalf(p, t);
      assert OnCurve(Flatten(p)[k], p, (1.0 + t) / 2.0);
    }
  }
}
