/** Bezier curves by repeated interpolation, and the in-place subdivision at the midpoint. */
module BezierCurve {
  import opened Geometry

  type Polygon = p: seq<Point> | |p| > 0 witness [Point(0.0, 0.0)]

  /** The point at parameter `t` of the curve with control polygon `p`. */
  function Curve(p: Polygon, t: real): Point
    decreases |p|
  {
    if |p| == 1 then p[0] else Lerp(Curve(p[..|p| - 1], t), Curve(p[1..], t), t)
  }

  /** Control points of the left half: how far the first `i + 1` control points take one half of the way. */
  function Left(p: Polygon): (r: Polygon)
    ensures |r| == |p|
  {
    seq(|p|, i requires 0 <= i < |p| => Curve(p[..i + 1], 0.5))
  }

  function Right(p: Polygon): (r: Polygon)
    ensures |r| == |p|
  {
    seq(|p|, i requires 0 <= i < |p| => Curve(p[i..], 0.5))
  }

  function MidPoints(p: Polygon): (r: Polygon)
    requires |p| > 1
    ensures |r| == |p| - 1
  {
    seq(|p| - 1, i requires 0 <= i < |p| - 1 => Mid(p[i], p[i + 1]))
  }

  lemma BetweenMids(a: real, b: real, c: real, d: real, t: real)
    ensures Between((a + b) / 2.0, (c + d) / 2.0, t) == (Between(a, c, t) + Between(b, d, t)) / 2.0
  {
    var u, v := c - a, d - b;
    assert (c + d) / 2.0 - (a + b) / 2.0 == (u + v) / 2.0;
    assert (u + v) / 2.0 * t == (u * t + v * t) / 2.0;
  }

  lemma LerpMid(a: Point, b: Point, c: Point, d: Point, t: real)
    ensures Lerp(Mid(a, b), Mid(c, d), t) == Mid(Lerp(a, c, t), Lerp(b, d, t))
  {
    hide Between;
    BetweenMids(a.x, b.x, c.x, d.x, t);
    BetweenMids(a.y, b.y, c.y, d.y, t);
  }

  /** The curve of the midpoints is the midpoint of the two curves one degree down. */
  lemma {:induction false} CurveOfMidPoints(p: Polygon, t: real)
    requires |p| > 1
    ensures Curve(MidPoints(p), t) == Mid(Curve(p[..|p| - 1], t), Curve(p[1..], t))
    decreases |p|
  {
    var n := |p|;
    if n > 2 {
      var m := MidPoints(p);
      CurveOfMidPoints(p[..n - 1], t);
      CurveOfMidPoints(p[1..], t);
      assert m[..n - 2] == MidPoints(p[..n - 1]);
      assert m[1..] == MidPoints(p[1..]);
      assert p[..n - 1][1..] == p[1..][..n - 2];
      LerpMid(Curve(p[..n - 1][..n - 2], t), Curve(p[..n - 1][1..], t),
              Curve(p[1..][..n - 2], t), Curve(p[1..][1..], t), t);
    }
  }

  lemma LeftShape(p: Polygon)
    requires |p| > 1
    ensures Left(p)[..|p| - 1] == Left(p[..|p| - 1])
    ensures Left(p)[1..] == Left(MidPoints(p))
  {
    var n := |p|;
    forall i | 0 <= i < n - 1 ensures Left(p)[i] == Left(p[..n - 1])[i] {
      assert p[..n - 1][..i + 1] == p[..i + 1];
    }
    forall i | 0 <= i < n - 1 ensures Left(p)[i + 1] == Left(MidPoints(p))[i] {
      var q := p[..i + 2];
      CurveOfMidPoints(q, 0.5);
      assert MidPoints(q) == MidPoints(p)[..i + 1];
    }
  }

  lemma RightShape(p: Polygon)
    requires |p| > 1
    ensures Right(p)[1..] == Right(p[1..])
    ensures Right(p)[..|p| - 1] == Right(MidPoints(p))
  {
    var n := |p|;
    forall i | 0 <= i < n - 1 ensures Right(p)[i + 1] == Right(p[1..])[i] {
      assert p[1..][i..] == p[i + 1..];
    }
    forall i | 0 <= i < n - 1 ensures Right(p)[i] == Right(MidPoints(p))[i] {
      var q := p[i..];
      CurveOfMidPoints(q, 0.5);
      assert MidPoints(q) == MidPoints(p)[i..];
    }
  }

  lemma HalfStep(a: Point, b: Point, t: real)
    ensures Lerp(a, Mid(a, b), t) == Lerp(a, b, t / 2.0)
    ensures Lerp(Mid(a, b), b, t) == Lerp(a, b, (1.0 + t) / 2.0)
  {
  }

  /** The left half's polygon describes the first half of the same curve. */
  lemma {:induction false} LeftHalf(p: Polygon, t: real)
    ensures Curve(Left(p), t) == Curve(p, t / 2.0)
    decreases |p|
  {
    var n := |p|;
    if n == 1 {
      assert p[..1] == p;
    } else {
      LeftShape(p);
      LeftHalf(p[..n - 1], t);
      LeftHalf(MidPoints(p), t);
      CurveOfMidPoints(p, t / 2.0);
      HalfStep(Curve(p[..n - 1], t / 2.0), Curve(p[1..], t / 2.0), t);
    }
  }

  /** The right half's polygon describes the second half of the same curve. */
  lemma {:induction false} RightHalf(p: Polygon, t: real)
    ensures Curve(Right(p), t) == Curve(p, (1.0 + t) / 2.0)
    decreases |p|
  {
    var n := |p|;
    if n > 1 {
      RightShape(p);
      RightHalf(p[1..], t);
      RightHalf(MidPoints(p), t);
      CurveOfMidPoints(p, (1.0 + t) / 2.0);
      HalfStep(Curve(p[..n - 1], (1.0 + t) / 2.0), Curve(p[1..], (1.0 + t) / 2.0), t);
    }
  }

  /** A curve begins and ends at its end control points. */
  lemma {:induction false} CurveEnds(p: Polygon)
    ensures Curve(p, 0.0) == p[0]
    ensures Curve(p, 1.0) == p[|p| - 1]
    decreases |p|
  {
    if |p| > 1 {
      CurveEnds(p[..|p| - 1]);
      CurveEnds(p[1..]);
    }
  }

  /** The two halves meet at the middle of the curve and keep its ends. */
  lemma HalvesMeet(p: Polygon)
    ensures Left(p)[0] == p[0] && Right(p)[|p| - 1] == p[|p| - 1]
    ensures Left(p)[|p| - 1] == Right(p)[0] == Curve(p, 0.5)
  {
    assert p[..|p|] == p;
    assert p[0..] == p;
  }

  /** Row `i` of the triangle: entry `k` is the point half way along control points `k` to `k + i`. */
  predicate IsRow(m: seq<Point>, p: Polygon, i: nat) {
    |m| == |p| && forall k | 0 <= k < |p| - i :: m[k] == Curve(p[k..k + i + 1], 0.5)
  }

  /** The inner loop of `bezier_subdivide`: the next row, over the old one. */
  method NextRow(midpoints: array<Point>, ghost p: Polygon, i: nat)
    requires i < midpoints.Length && IsRow(midpoints[..], p, i)
    modifies midpoints
    ensures IsRow(midpoints[..], p, i + 1)
  {
    for j := 0 to midpoints.Length - i - 1
      invariant forall k | 0 <= k < j :: midpoints[k] == Curve(p[k..k + i + 2], 0.5)
      invariant forall k | j <= k < |p| - i :: midpoints[k] == Curve(p[k..k + i + 1], 0.5)
    {
      HalfWay(p, j, i);
      midpoints[j] := Mid(midpoints[j], midpoints[j + 1]);
    }
  }

  lemma HalfWay(p: Polygon, j: nat, i: nat)
    requires j + i + 2 <= |p|
    ensures Curve(p[j..j + i + 2], 0.5) == Mid(Curve(p[j..j + i + 1], 0.5), Curve(p[j + 1..j + i + 2], 0.5))
  {
    var q := p[j..j + i + 2];
    assert q[..|q| - 1] == p[j..j + i + 1];
    assert q[1..] == p[j + 1..j + i + 2];
  }

  /** `bezier_subdivide`: one buffer of midpoints, overwritten row by row, gives both halves of the curve. */
  method Subdivide(points: Polygon) returns (left: Polygon, right: Polygon)
    ensures left == Left(points) && right == Right(points)
    ensures forall t: real :: Curve(left, t) == Curve(points, t / 2.0)
    ensures forall t: real :: Curve(right, t) == Curve(points, (1.0 + t) / 2.0)
  {
    var count := |points|;
    var midpoints := new Point[count](k requires 0 <= k < count => points[k]);
    var l := seq(count, _ => points[0]);
    var r := seq(count, _ => points[count - 1]);
    forall k | 0 <= k < count ensures midpoints[..][k] == Curve(points[k..k + 1], 0.5) {
    }
    for i := 0 to count
      invariant |l| == |r| == count
      invariant IsRow(midpoints[..], points, i)
      invariant forall k | 0 <= k < i :: l[k] == Left(points)[k]
      invariant forall k | count - i <= k < count :: r[k] == Right(points)[k]
    {
      assert points[count - i - 1..count] == points[count - i - 1..];
      assert midpoints[..][0] == Left(points)[i];
      assert midpoints[..][count - i - 1] == Right(points)[count - i - 1];
      l := l[i := midpoints[0]];
      r := r[count - i - 1 := midpoints[count - i - 1]];
      NextRow(midpoints, points, i);
    }
    left, right := l, r;
    assert left == Left(points) && right == Right(points);
    forall t: real ensures Curve(left, t) == Curve(points, t / 2.0) {
      LeftHalf(points, t);
    }
    forall t: real ensures Curve(right, t) == Curve(points, (1.0 + t) / 2.0) {
      RightHalf(points, t);
    }
  }
}
