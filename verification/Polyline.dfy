/** Distances and lengths of polylines. */
module Polyline {
  import opened Geometry

  type Metric = (Point, Point) -> real

  function Times(a: real, b: real): real {
    a * b
  }

  function Square(r: real): real {
    Times(r, r)
  }

  /** `d` is the square root of the sum of the squares of `u` and `v`. */
  predicate RootAt(d: real, u: real, v: real) {
    d >= 0.0 && Square(d) == Square(u) + Square(v)
  }

  predicate DistAt(dist: Metric, a: Point, b: Point) {
    RootAt(dist(a, b), a.x - b.x, a.y - b.y)
  }

  /** `dist` is the Euclidean distance. */
  ghost predicate IsDist(dist: Metric) {
    forall a, b :: DistAt(dist, a, b)
  }

  lemma TimesPositive(a: real, b: real)
    requires (a > 0.0 && b > 0.0) || (a < 0.0 && b < 0.0)
    ensures Times(a, b) > 0.0
  {
  }

  lemma TimesZero(a: real, b: real)
    requires a == 0.0
    ensures Times(a, b) == 0.0
  {
  }

  lemma SquareSign(r: real)
    ensures Square(r) >= 0.0
    ensures Square(r) == 0.0 <==> r == 0.0
  {
    if r == 0.0 {
      TimesZero(r, r);
    } else {
      TimesPositive(r, r);
    }
  }

  lemma SquareNegated(r: real)
    ensures Square(-r) == Square(r)
  {
  }

  lemma SquareTimes(k: real, r: real)
    ensures Square(Times(k, r)) == Times(Square(k), Square(r))
  {
    assert (k * r) * (k * r) == (k * k) * (r * r);
  }

  lemma SquareLess(s: real, t: real)
    requires 0.0 <= s < t
    ensures Square(s) < Square(t)
  {
    TimesPositive(t - s, t + s);
    assert Times(t - s, t + s) == Square(t) - Square(s);
  }

  lemma RootUnique(d: real, e: real, u: real, v: real)
    requires RootAt(d, u, v) && RootAt(e, u, v)
    ensures d == e
  {
    if d < e {
      SquareLess(d, e);
    } else if e < d {
      SquareLess(e, d);
    }
  }

  lemma RootZero(d: real, u: real, v: real)
    requires RootAt(d, u, v)
    ensures d >= 0.0
    ensures d == 0.0 <==> u == 0.0 && v == 0.0
  {
    SquareSign(d);
    SquareSign(u);
    SquareSign(v);
  }

  lemma RootNegated(d: real, u: real, v: real)
    requires RootAt(d, u, v)
    ensures RootAt(d, -u, -v)
  {
    SquareNegated(u);
    SquareNegated(v);
  }

  lemma TimesSum(k: real, a: real, b: real)
    ensures Times(k, a + b) == Times(k, a) + Times(k, b)
  {
  }

  lemma RootScaled(d: real, u: real, v: real, k: real)
    requires RootAt(d, u, v) && k >= 0.0
    ensures RootAt(Times(k, d), Times(k, u), Times(k, v))
  {
    SquareTimes(k, d);
    SquareTimes(k, u);
    SquareTimes(k, v);
    TimesSum(Square(k), Square(u), Square(v));
  }

  lemma DistZero(dist: Metric, a: Point, b: Point)
    requires IsDist(dist)
    ensures dist(a, b) >= 0.0
    ensures dist(a, b) == 0.0 <==> a == b
  {
    hide Square;
    assert DistAt(dist, a, b);
    RootZero(dist(a, b), a.x - b.x, a.y - b.y);
  }

  lemma DistSymmetric(dist: Metric, a: Point, b: Point)
    requires IsDist(dist)
    ensures dist(a, b) == dist(b, a)
  {
    hide Square;
    assert DistAt(dist, a, b) && DistAt(dist, b, a);
    RootNegated(dist(a, b), a.x - b.x, a.y - b.y);
    RootUnique(dist(a, b), dist(b, a), b.x - a.x, b.y - a.y);
  }

  lemma BetweenDifference(a: real, b: real, r: real, s: real)
    ensures Between(a, b, s) - Between(a, b, r) == Times(s - r, b - a)
  {
    assert (b - a) * s - (b - a) * r == (s - r) * (b - a);
  }

  /** Along a straight line distances are proportional to the ratios. */
  lemma DistLerp(dist: Metric, a: Point, b: Point, r: real, s: real)
    requires IsDist(dist) && r <= s
    ensures dist(Lerp(a, b, r), Lerp(a, b, s)) == Times(s - r, dist(a, b))
  {
    hide Square, Times, Between;
    var p, q := Lerp(a, b, r), Lerp(a, b, s);
    DistSymmetric(dist, a, b);
    DistSymmetric(dist, p, q);
    assert DistAt(dist, b, a) && DistAt(dist, q, p);
    RootScaled(dist(b, a), b.x - a.x, b.y - a.y, s - r);
    BetweenDifference(a.x, b.x, r, s);
    BetweenDifference(a.y, b.y, r, s);
    RootUnique(dist(q, p), Times(s - r, dist(b, a)), q.x - p.x, q.y - p.y);
  }

  lemma LerpEnds(a: Point, b: Point)
    ensures Lerp(a, b, 0.0) == a && Lerp(a, b, 1.0) == b
  {
  }

  /** Length of the first `i` segments. */
  function Cum(dist: Metric, p: seq<Point>, i: nat): real
    requires i < |p|
  {
    if i == 0 then 0.0 else Cum(dist, p, i - 1) + dist(p[i - 1], p[i])
  }

  function Length(dist: Metric, p: seq<Point>): real {
    if p == [] then 0.0 else Cum(dist, p, |p| - 1)
  }

  lemma {:induction false} CumMonotone(dist: Metric, p: seq<Point>, i: nat, j: nat)
    requires IsDist(dist) && i <= j < |p|
    ensures 0.0 <= Cum(dist, p, i) <= Cum(dist, p, j)
  {
    if i < j {
      CumMonotone(dist, p, i, j - 1);
      DistZero(dist, p[j - 1], p[j]);
    } else if i > 0 {
      CumMonotone(dist, p, i - 1, i - 1);
      DistZero(dist, p[i - 1], p[i]);
    }
  }

  lemma {:induction false} CumPrefix(dist: Metric, p: seq<Point>, q: seq<Point>, i: nat)
    requires i < |p| && i < |q| && forall k | 0 <= k <= i :: p[k] == q[k]
    ensures Cum(dist, p, i) == Cum(dist, q, i)
  {
    if i > 0 {
      CumPrefix(dist, p, q, i - 1);
    }
  }

  lemma LengthSnoc(dist: Metric, p: seq<Point>, a: Point)
    requires p != []
    ensures Length(dist, p + [a]) == Length(dist, p) + dist(p[|p| - 1], a)
  {
    CumPrefix(dist, p, p + [a], |p| - 1);
  }
}
