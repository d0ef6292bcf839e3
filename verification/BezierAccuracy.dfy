/** How far from the curve, and in which order, the flattened points of a Bezier curve of any degree lie. */
module BezierAccuracy {
  import opened Geometry
  import opened BezierCurve
  import opened BezierFlatten

  // ----- the curve of a list of numbers -----

  function Value(f: seq<real>, t: real): real
    requires |f| > 0
    decreases |f|
  {
    if |f| == 1 then f[0] else Between(Value(f[..|f| - 1], t), Value(f[1..], t), t)
  }

  function Dots(v: Point, p: seq<Point>): (f: seq<real>)
    ensures |f| == |p|
  {
    seq(|p|, i requires 0 <= i < |p| => Dot(v, p[i]))
  }

  lemma DotLerp(v: Point, a: Point, b: Point, t: real)
    ensures Dot(v, Lerp(a, b, t)) == Between(Dot(v, a), Dot(v, b), t)
  {
    assert v.x * ((b.x - a.x) * t) == (v.x * b.x - v.x * a.x) * t;
    assert v.y * ((b.y - a.y) * t) == (v.y * b.y - v.y * a.y) * t;
  }

  /** Along a direction, a curve is the curve of its control points along that direction. */
  lemma {:induction false} ValueOfDots(v: Point, p: Polygon, t: real)
    ensures Dot(v, Curve(p, t)) == Value(Dots(v, p), t)
    decreases |p|
  {
    hide Dot, Between;
    var n := |p| - 1;
    if n > 0 {
      ValueOfDots(v, p[..n], t);
      ValueOfDots(v, p[1..], t);
      assert Dots(v, p)[..n] == Dots(v, p[..n]) && Dots(v, p)[1..] == Dots(v, p[1..]);
      DotLerp(v, Curve(p[..n], t), Curve(p[1..], t), t);
    }
  }

  lemma BetweenMonotone(a: real, b: real, c: real, d: real, t: real)
    requires a <= c && b <= d && 0.0 <= t <= 1.0
    ensures Between(a, b, t) <= Between(c, d, t)
  {
    assert Between(a, b, t) == a * (1.0 - t) + b * t && Between(c, d, t) == c * (1.0 - t) + d * t;
    assert (c - a) * (1.0 - t) >= 0.0 && (d - b) * t >= 0.0;
  }

  lemma {:induction false} ValueMonotone(f: seq<real>, g: seq<real>, t: real)
    requires |f| == |g| > 0 && 0.0 <= t <= 1.0 && forall j | 0 <= j < |f| :: f[j] <= g[j]
    ensures Value(f, t) <= Value(g, t)
    decreases |f|
  {
    hide Between;
    var n := |f| - 1;
    if n > 0 {
      ValueMonotone(f[..n], g[..n], t);
      ValueMonotone(f[1..], g[1..], t);
      BetweenMonotone(Value(f[..n], t), Value(f[1..], t), Value(g[..n], t), Value(g[1..], t), t);
    }
  }

  // ----- parabolas -----

  /** `c + u x - h x^2` */
  function Arc(c: real, u: real, h: real, x: real): real {
    c + u * x - h * (x * x)
  }

  /** Its values at `s`, `s + 1`, up to `s + n`. */
  function Parabola(c: real, u: real, h: real, s: real, n: nat): (f: seq<real>)
    ensures |f| == n + 1
  {
    seq(n + 1, j requires 0 <= j <= n => Arc(c, u, h, s + j as real))
  }

  /** Interpolating two values one step apart overestimates the drop by `h t (1 - t)`. */
  lemma ArcStep(c: real, u: real, h: real, x: real, t: real)
    ensures Between(Arc(c, u, h, x), Arc(c, u, h, x + 1.0), t) == Arc(c, u, h, x + t) - h * (t * (1.0 - t))
  {
    assert (x + 1.0) * (x + 1.0) - x * x == 2.0 * x + 1.0;
    assert Arc(c, u, h, x + 1.0) - Arc(c, u, h, x) == u - h * (2.0 * x + 1.0);
    assert (u - h * (2.0 * x + 1.0)) * t == u * t - h * (2.0 * x * t + t);
    assert (x + t) * (x + t) == x * x + 2.0 * x * t + t * t;
    assert h * ((x + t) * (x + t)) == h * (x * x) + h * (2.0 * x * t + t * t);
  }

  /** A point of the arc, lowered by `k h t (1 - t)`. */
  function Lowered(c: real, u: real, h: real, x: real, k: real, t: real): real {
    Arc(c, u, h, x) - k * (h * (t * (1.0 - t)))
  }

  lemma LoweredStep(c: real, u: real, h: real, x: real, k: real, t: real)
    ensures Between(Lowered(c, u, h, x, k, t), Lowered(c, u, h, x + 1.0, k, t), t)
         == Lowered(c, u, h, x + t, k + 1.0, t)
  {
    hide Arc;
    ArcStep(c, u, h, x, t);
    var d := h * (t * (1.0 - t));
    assert (k + 1.0) * d == k * d + d;
  }

  lemma LoweredNone(c: real, u: real, h: real, x: real, t: real)
    ensures Lowered(c, u, h, x, 0.0, t) == Arc(c, u, h, x)
  {
  }

  function Along(s: real, n: nat, t: real): real {
    s + n as real * t
  }

  lemma AlongStep(s: real, n: nat, t: real)
    ensures Along(s, 0, t) == s
    ensures n > 0 ==> Along(s, n, t) == Along(s, n - 1, t) + t
    ensures n > 0 ==> Along(s + 1.0, n - 1, t) == Along(s, n - 1, t) + 1.0
  {
  }

  lemma ParabolaRest(c: real, u: real, h: real, s: real, n: nat)
    requires n > 0
    ensures Parabola(c, u, h, s, n)[..n] == Parabola(c, u, h, s, n - 1)
    ensures Parabola(c, u, h, s, n)[1..] == Parabola(c, u, h, s + 1.0, n - 1)
  {
    hide Arc;
    var f := Parabola(c, u, h, s, n);
    forall j | 0 <= j < n ensures f[1..][j] == Parabola(c, u, h, s + 1.0, n - 1)[j] {
      assert s + (j + 1) as real == s + 1.0 + j as real;
    }
  }

  /** The curve of a parabola is that parabola, lowered by `h n t (1 - t)`. */
  lemma {:induction false} ValueOfParabola(c: real, u: real, h: real, s: real, n: nat, t: real)
    ensures Value(Parabola(c, u, h, s, n), t) == Lowered(c, u, h, Along(s, n, t), n as real, t)
    decreases n
  {
    AlongStep(s, n, t);
    if n == 0 {
      assert Parabola(c, u, h, s, 0)[0] == Arc(c, u, h, s + 0.0);
      LoweredNone(c, u, h, s, t);
    } else {
      hide Along, Arc, Between, Lowered, Parabola;
      ParabolaRest(c, u, h, s, n);
      ValueOfParabola(c, u, h, s, n - 1, t);
      ValueOfParabola(c, u, h, s + 1.0, n - 1, t);
      LoweredStep(c, u, h, Along(s, n - 1, t), (n - 1) as real, t);
    }
  }

  // ----- numbers with small second differences -----

  /** All second differences lie between `-m` and `m`. */
  predicate Bent(f: seq<real>, m: real) {
    forall j | 0 <= j < |f| - 2 :: -m <= f[j] - 2.0 * f[j + 1] + f[j + 2] <= m
  }

  lemma {:induction false} StepsRight(f: seq<real>, m: real, i: nat, k: nat)
    requires Bent(f, m) && 0 < i && 0 < k && i + k < |f|
    ensures f[i + k] - f[i + k - 1] >= (f[i + 1] - f[i - 1]) / 2.0 - m * (k as real - 0.5)
    decreases k
  {
    var d := f[i + k - 2] - 2.0 * f[i + k - 1] + f[i + k];
    assert f[i + k - 2 + 1] == f[i + k - 1] && f[i + k - 2 + 2] == f[i + k];
    assert d >= -m;
    if k > 1 {
      StepsRight(f, m, i, k - 1);
      assert m * (k as real - 0.5) == m * ((k - 1) as real - 0.5) + m;
    }
  }

  lemma {:induction false} StepsLeft(f: seq<real>, m: real, i: nat, k: nat)
    requires Bent(f, m) && 0 < k <= i && i + 1 < |f|
    ensures f[i - k] - f[i - k + 1] >= -(f[i + 1] - f[i - 1]) / 2.0 - m * (k as real - 0.5)
    decreases k
  {
    var d := f[i - k] - 2.0 * f[i - k + 1] + f[i - k + 2];
    assert d >= -m;
    if k > 1 {
      StepsLeft(f, m, i, k - 1);
      assert m * (k as real - 0.5) == m * ((k - 1) as real - 0.5) + m;
    }
  }

  /** The parabola that touches `f` at an inner place `i` with this bend. */
  function Touching(f: seq<real>, m: real, i: nat): (g: seq<real>)
    requires 0 < i < |f| - 1
    ensures |g| == |f|
  {
    Parabola(f[i], (f[i + 1] - f[i - 1]) / 2.0, m / 2.0, -(i as real), |f| - 1)
  }

  lemma ArcNext(c: real, u: real, m: real, k: real)
    ensures Arc(c, u, m / 2.0, k) == Arc(c, u, m / 2.0, k - 1.0) + u - m * (k - 0.5)
    ensures Arc(c, u, m / 2.0, -k) == Arc(c, u, m / 2.0, 1.0 - k) - u - m * (k - 0.5)
    ensures Arc(c, u, m / 2.0, 0.0) == c
  {
    assert (k - 1.0) * (k - 1.0) == k * k - 2.0 * k + 1.0 == (1.0 - k) * (1.0 - k) && (-k) * (-k) == k * k;
    assert m / 2.0 * (k * k - 2.0 * k + 1.0) == m / 2.0 * (k * k) - m * (k - 0.5);
  }

  lemma {:induction false} AboveRight(f: seq<real>, m: real, i: nat, k: nat)
    requires Bent(f, m) && 0 < i < |f| - 1 && i + k < |f|
    ensures Touching(f, m, i)[i + k] <= f[i + k]
    decreases k
  {
    hide Arc;
    var u := (f[i + 1] - f[i - 1]) / 2.0;
    ArcNext(f[i], u, m, k as real);
    assert -(i as real) + (i + k) as real == k as real;
    if k > 0 {
      AboveRight(f, m, i, k - 1);
      StepsRight(f, m, i, k);
      assert -(i as real) + (i + k - 1) as real == k as real - 1.0;
    }
  }

  lemma {:induction false} AboveLeft(f: seq<real>, m: real, i: nat, k: nat)
    requires Bent(f, m) && 0 < i < |f| - 1 && k <= i
    ensures Touching(f, m, i)[i - k] <= f[i - k]
    decreases k
  {
    hide Arc;
    var u := (f[i + 1] - f[i - 1]) / 2.0;
    ArcNext(f[i], u, m, k as real);
    assert -(i as real) + (i - k) as real == -(k as real);
    if k > 0 {
      AboveLeft(f, m, i, k - 1);
      StepsLeft(f, m, i, k);
      assert -(i as real) + (i - (k - 1)) as real == 1.0 - k as real;
    }
  }

  /** The share of the way at which an inner control point of `n` steps sits. */
  function Share(i: nat, n: nat): (t: real)
    requires i <= n && n > 0
    ensures 0.0 <= t <= 1.0 && n as real * t == i as real
  {
    i as real / n as real
  }

  lemma ProductAtMostQuarter(t: real)
    ensures t * (1.0 - t) <= 0.25
  {
    SquareNonNegative(t - 0.5);
    assert (t - 0.5) * (t - 0.5) == t * t - t + 0.25;
    assert t * (1.0 - t) == t - t * t;
  }

  lemma TouchingAtShare(f: seq<real>, m: real, i: nat)
    requires m >= 0.0 && 0 < i < |f| - 1
    ensures f[i] - Value(Touching(f, m, i), Share(i, |f| - 1)) <= (|f| - 1) as real * m / 8.0
  {
    hide Arc, Value, Share;
    var n := |f| - 1;
    var t, u := Share(i, n), (f[i + 1] - f[i - 1]) / 2.0;
    ValueOfParabola(f[i], u, m / 2.0, -(i as real), n, t);
    assert Along(-(i as real), n, t) == 0.0;
    ArcNext(f[i], u, m, 0.0);
    ProductAtMostQuarter(t);
    DropBound(n as real, m, t * (1.0 - t));
  }

  lemma AboveTouching(f: seq<real>, m: real, i: nat)
    requires Bent(f, m) && 0 < i < |f| - 1
    ensures forall j | 0 <= j < |f| :: Touching(f, m, i)[j] <= f[j]
  {
    hide Arc, Bent, Touching;
    forall j | 0 <= j < |f| ensures Touching(f, m, i)[j] <= f[j] {
      if j < i {
        AboveLeft(f, m, i, i - j);
      } else {
        AboveRight(f, m, i, j - i);
      }
    }
  }

  /** An inner control value exceeds the curve at its share by at most an eighth of the bend for each step. */
  lemma ControlNearCurve(f: seq<real>, m: real, i: nat)
    requires Bent(f, m) && m >= 0.0 && 0 < i < |f| - 1
    ensures f[i] - Value(f, Share(i, |f| - 1)) <= (|f| - 1) as real * m / 8.0
  {
    hide Value, Share, Bent, Touching;
    AboveTouching(f, m, i);
    ValueMonotone(Touching(f, m, i), f, Share(i, |f| - 1));
    TouchingAtShare(f, m, i);
  }

  lemma DropBound(n: real, m: real, r: real)
    requires n >= 0.0 && m >= 0.0 && r <= 0.25
    ensures n * (m / 2.0 * r) <= n * m / 8.0
  {
    assert m / 2.0 * r <= m / 2.0 * 0.25;
    assert n * (m / 2.0 * r) <= n * (m / 2.0 * 0.25);
    assert n * (m / 2.0 * 0.25) == n * m / 8.0;
  }

  // ----- points of the plane -----

  /** Half of the two numbers, one divided and one multiplied by the weight `k`. */
  function Weighed(a: real, k: real, b: real): real
    requires k > 0.0
  {
    (a / k + k * b) / 2.0
  }

  lemma WeighedBound(a: real, k: real, b: real, d: real)
    requires k > 0.0 && a - 2.0 * (k * d) + k * k * b >= 0.0
    ensures d <= Weighed(a, k, b)
  {
    var q := a / k;
    assert k * q == a;
    assert k * (q - 2.0 * d + k * b) == k * q - 2.0 * (k * d) + k * k * b;
    NonNegativeFactor(k, q - 2.0 * d + k * b);
  }

  /** What two vectors have in common is at most half their squares, weighed. */
  lemma DotBound(v: Point, s: Point, k: real)
    requires k > 0.0
    ensures -Weighed(NormSq(v), k, NormSq(s)) <= Dot(v, s) <= Weighed(NormSq(v), k, NormSq(s))
  {
    Expanded(v, s, k);
    Expanded(v, s, -k);
    hide Dot, NormSq, Weighed;
    var d := Dot(v, s);
    assert -k * d == -(k * d) == k * (-d);
    WeighedBound(NormSq(v), k, NormSq(s), d);
    WeighedBound(NormSq(v), k, NormSq(s), -d);
  }

  lemma NonNegativeFactor(k: real, r: real)
    requires k > 0.0 && k * r >= 0.0
    ensures r >= 0.0
  {
  }

  lemma ExpandedAt(a: real, b: real, k: real)
    ensures a * a - 2.0 * (k * (a * b)) + k * k * (b * b) >= 0.0
  {
    SquareNonNegative(a - k * b);
    assert k * b * (k * b) == k * k * (b * b);
    assert (a - k * b) * (a - k * b) == a * a - 2.0 * (k * (a * b)) + k * b * (k * b);
  }

  lemma Distribute(k: real, a: real, b: real)
    ensures k * (a + b) == k * a + k * b
  {
  }

  /** A square that is not negative, multiplied out. */
  lemma Expanded(v: Point, s: Point, k: real)
    ensures NormSq(v) - 2.0 * (k * Dot(v, s)) + k * k * NormSq(s) >= 0.0
  {
    ExpandedAt(v.x, s.x, k);
    ExpandedAt(v.y, s.y, k);
    Distribute(k, v.x * s.x, v.y * s.y);
    Distribute(k * k, s.x * s.x, s.y * s.y);
  }

  lemma DotSecond(v: Point, p: Polygon, i: nat)
    requires i + 2 < |p|
    ensures Dot(v, Second(p, i)) == Dots(v, p)[i] - 2.0 * Dots(v, p)[i + 1] + Dots(v, p)[i + 2]
  {
    assert v.x * (p[i].x - 2.0 * p[i + 1].x + p[i + 2].x) == v.x * p[i].x - 2.0 * (v.x * p[i + 1].x) + v.x * p[i + 2].x;
    assert v.y * (p[i].y - 2.0 * p[i + 1].y + p[i + 2].y) == v.y * p[i].y - 2.0 * (v.y * p[i + 1].y) + v.y * p[i + 2].y;
  }

  lemma WeighedMonotone(a: real, k: real, b: real, w: real)
    requires k > 0.0 && b <= w
    ensures Weighed(a, k, b) <= Weighed(a, k, w)
  {
    assert k * b <= k * w;
  }

  /** Along any direction the second differences are within this bound, whatever the weight `k`. */
  lemma DotsBent(v: Point, p: Polygon, w: real, k: real)
    requires Within(p, w) && k > 0.0
    ensures Bent(Dots(v, p), Weighed(NormSq(v), k, w))
  {
    hide Dot, Dots, NormSq, Second, Weighed;
    var m, f := Weighed(NormSq(v), k, w), Dots(v, p);
    forall i | 0 <= i < |p| - 2 ensures -m <= f[i] - 2.0 * f[i + 1] + f[i + 2] <= m {
      DotBound(v, Second(p, i), k);
      WeighedMonotone(NormSq(v), k, NormSq(Second(p, i)), w);
      DotSecond(v, p, i);
    }
  }

  lemma DotSmoothed(v: Point, p: Polygon, i: nat)
    requires i + 2 < |p|
    ensures Dot(v, Smoothed(p, i)) == Dots(v, p)[i + 1] + Dot(v, Second(p, i)) / 4.0
  {
    var q, s := Smoothed(p, i), Second(p, i);
    assert q.x == p[i + 1].x + s.x / 4.0 && q.y == p[i + 1].y + s.y / 4.0;
    assert v.x * (p[i + 1].x + s.x / 4.0) == v.x * p[i + 1].x + v.x * s.x / 4.0;
    assert v.y * (p[i + 1].y + s.y / 4.0) == v.y * p[i + 1].y + v.y * s.y / 4.0;
  }

  lemma DotMinus(v: Point, a: Point, b: Point)
    ensures Dot(v, Minus(a, b)) == Dot(v, a) - Dot(v, b)
  {
    assert v.x * (a.x - b.x) == v.x * a.x - v.x * b.x && v.y * (a.y - b.y) == v.y * a.y - v.y * b.y;
  }

  /** Along a direction of bend `m`, a smoothed point exceeds the curve by little. */
  lemma SmoothedAbove(v: Point, p: Polygon, m: real, i: nat)
    requires i + 2 < |p| && Bent(Dots(v, p), m) && m >= 0.0
    ensures Dot(v, Minus(Smoothed(p, i), Curve(p, Share(i + 1, |p| - 1)))) <= (|p| - 1) as real * m / 8.0 + m / 4.0
  {
    hide Dot, Dots, Second, Smoothed, Value, Share, Curve, Minus;
    var t, f, q := Share(i + 1, |p| - 1), Dots(v, p), Smoothed(p, i);
    assert f[i] - 2.0 * f[i + 1] + f[i + 2] <= m;
    hide Bent;
    assert f[i + 1] - Value(f, t) <= (|p| - 1) as real * m / 8.0 by {
      ControlNearCurve(f, m, i + 1);
    }
    assert Dot(v, q) <= f[i + 1] + m / 4.0 by {
      DotSmoothed(v, p, i);
      DotSecond(v, p, i);
    }
    ValueOfDots(v, p, t);
    DotMinus(v, q, Curve(p, t));
  }

  /** A smoothed point is close to the curve, in proportion to the bend and the degree. */
  lemma SmoothedNearCurve(p: Polygon, w: real, i: nat)
    requires i + 2 < |p| && Within(p, w) && w >= 0.0
    ensures NormSq(Minus(Smoothed(p, i), Curve(p, Share(i + 1, |p| - 1)))) <= Sq((|p| + 1) as real / 8.0) * w
  {
    hide Dot, NormSq, Smoothed, Within, Weighed, Bent, Share, Sq;
    var v, k := Minus(Smoothed(p, i), Curve(p, Share(i + 1, |p| - 1))), (|p| + 1) as real / 8.0;
    var m := Weighed(NormSq(v), k, w);
    DotsBent(v, p, w, k);
    NormNonNegative(v);
    WeighedNonNegative(NormSq(v), k, w);
    SmoothedAbove(v, p, m, i);
    DotSelf(v);
    Absorb(NormSq(v), (|p| - 1) as real, k, m, w);
  }

  function Sq(r: real): real {
    r * r
  }

  lemma NormNonNegative(v: Point)
    ensures NormSq(v) >= 0.0
  {
    SquareNonNegative(v.x);
    SquareNonNegative(v.y);
  }

  lemma WeighedNonNegative(a: real, k: real, w: real)
    requires a >= 0.0 && k > 0.0 && w >= 0.0
    ensures Weighed(a, k, w) >= 0.0
  {
    assert a / k >= 0.0;
  }

  lemma DotSelf(v: Point)
    ensures Dot(v, v) == NormSq(v)
  {
  }

  lemma Absorb(a: real, n: real, k: real, m: real, w: real)
    requires k > 0.0 && k == (n + 2.0) / 8.0 && m == Weighed(a, k, w)
    requires a <= n * m / 8.0 + m / 4.0
    ensures a <= Sq(k) * w
  {
    assert n * m / 8.0 + m / 4.0 == (n + 2.0) / 8.0 * m;
    assert k * (a / k) == a && k * (k * w) == Sq(k) * w;
    assert k * m == (a + Sq(k) * w) / 2.0;
  }

  // ----- the emitted points -----

  /** The parameters at which the curve is closest to the emitted points, as far as this bound can tell. */
  function Params(p: Polygon): seq<real>
    decreases Depth(p)
  {
    HalvesShallower(p);
    if Within(p, THRESHOLD) then
      seq(if |p| < 2 then 0 else |p| - 2, i requires 0 <= i < |p| - 2 => Share(i + 1, |p| - 1) / 2.0)
    else InFirst(Params(Left(p))) + InSecond(Params(Right(p)))
  }

  function InFirst(s: seq<real>): (r: seq<real>)
    ensures |r| == |s|
  {
    seq(|s|, i requires 0 <= i < |s| => s[i] / 2.0)
  }

  function InSecond(s: seq<real>): (r: seq<real>)
    ensures |r| == |s|
  {
    seq(|s|, i requires 0 <= i < |s| => (1.0 + s[i]) / 2.0)
  }

  /** Strictly between the ends, and increasing. */
  predicate Ordered(s: seq<real>) {
    && (forall i | 0 <= i < |s| :: 0.0 < s[i] < 1.0)
    && (forall i, j | 0 <= i < j < |s| :: s[i] < s[j])
  }

  lemma SharesOrdered(i: nat, j: nat, n: nat)
    requires 0 < i < n && i < j <= n
    ensures 0.0 < Share(i, n) < Share(j, n)
  {
    LessFactor(n as real, 0.0, Share(i, n), 0.0, i as real);
    LessFactor(n as real, Share(i, n), Share(j, n), i as real, j as real);
  }

  lemma LessFactor(k: real, a: real, b: real, x: real, y: real)
    requires k > 0.0 && k * a == x && k * b == y && x < y
    ensures a < b
  {
    assert k * (b - a) == k * b - k * a > 0.0;
    PositiveFactor(k, b - a);
  }

  lemma PositiveFactor(k: real, r: real)
    requires k > 0.0 && k * r > 0.0
    ensures r > 0.0
  {
  }

  lemma LeafParams(p: Polygon)
    requires Within(p, THRESHOLD)
    ensures Ordered(Params(p))
  {
    hide Share, Within;
    var s := Params(p);
    forall i | 0 <= i < |s| ensures 0.0 < s[i] < 1.0 {
      SharesOrdered(i + 1, i + 2, |p| - 1);
    }
    forall i, j | 0 <= i < j < |s| ensures s[i] < s[j] {
      SharesOrdered(i + 1, j + 1, |p| - 1);
    }
  }

  lemma JoinedOrdered(a: seq<real>, b: seq<real>)
    requires Ordered(a) && Ordered(b)
    ensures Ordered(InFirst(a) + InSecond(b))
  {
    var s := InFirst(a) + InSecond(b);
    forall i | 0 <= i < |s| ensures 0.0 < s[i] < 1.0 && (i < |a| <==> s[i] < 0.5) {
      assert s[i] == if i < |a| then a[i] / 2.0 else (1.0 + b[i - |a|]) / 2.0;
    }
    forall i, j | 0 <= i < j < |s| ensures s[i] < s[j] {
      if j < |a| {
        assert a[i] < a[j];
      } else if i >= |a| {
        assert b[i - |a|] < b[j - |a|];
      }
    }
  }

  /** The points are emitted in the order in which the curve passes them. */
  lemma {:induction false} ParamsOrdered(p: Polygon)
    ensures |Params(p)| == |Flatten(p)| && Ordered(Params(p))
    decreases Depth(p)
  {
    HalvesShallower(p);
    if Within(p, THRESHOLD) {
      LeafParams(p);
    } else {
      hide Ordered, InFirst, InSecond, Within;
      ParamsOrdered(Left(p));
      ParamsOrdered(Right(p));
      JoinedOrdered(Params(Left(p)), Params(Right(p)));
    }
  }

  /** Bound on the squared distance, for this many control points. */
  function Accuracy(n: nat): real {
    Sq((n + 1) as real / 64.0)
  }

  lemma EighthOfAccuracy(n: nat)
    ensures Sq((n + 1) as real / 8.0) * (THRESHOLD / 16.0) == Accuracy(n)
  {
  }

  lemma LeafNearCurve(p: Polygon, i: nat)
    requires i + 2 < |p| && Within(p, THRESHOLD)
    ensures NormSq(Minus(LeafPoints(p)[i], Curve(p, Share(i + 1, |p| - 1) / 2.0))) <= Accuracy(|p|)
  {
    hide NormSq, Curve, Share, Sq, Within, Accuracy;
    HalvesFlatter(p, THRESHOLD);
    assert LeafPoints(p)[i] == Smoothed(Left(p), i);
    SmoothedNearCurve(Left(p), THRESHOLD / 16.0, i);
    LeftHalf(p, Share(i + 1, |p| - 1));
    EighthOfAccuracy(|p|);
  }

  /** What is near the curve of a half is near the curve. */
  lemma HalfNearCurve(p: Polygon, q: Point, t: real)
    ensures Minus(q, Curve(Left(p), t)) == Minus(q, Curve(p, t / 2.0))
    ensures Minus(q, Curve(Right(p), t)) == Minus(q, Curve(p, (1.0 + t) / 2.0))
  {
    LeftHalf(p, t);
    RightHalf(p, t);
  }

  lemma {:induction false} FlattenNearCurve(p: Polygon, k: nat)
    requires k < |Flatten(p)|
    ensures k < |Params(p)| && NormSq(Minus(Flatten(p)[k], Curve(p, Params(p)[k]))) <= Accuracy(|p|)
    decreases Depth(p)
  {
    hide NormSq, Accuracy, Within, Share, Curve, Left, Right, Minus, LeafPoints, Ordered;
    HalvesShallower(p);
    ParamsOrdered(p);
    if Within(p, THRESHOLD) {
      LeafNearCurve(p, k);
    } else {
      ParamsOrdered(Left(p));
      ParamsOrdered(Right(p));
      var n := |Flatten(Left(p))|;
      if k < n {
        FlattenNearCurve(Left(p), k);
        HalfNearCurve(p, Flatten(p)[k], Params(Left(p))[k]);
      } else {
        FlattenNearCurve(Right(p), k - n);
        HalfNearCurve(p, Flatten(p)[k], Params(Right(p))[k - n]);
      }
    }
  }

  /** The parameters of the whole polyline: the ends of the curve around those of the emitted points. */
  function AllParams(p: Polygon): seq<real> {
    if |p| == 1 then [0.0] else if |p| == 2 then [0.0, 1.0] else [0.0] + Params(p) + [1.0]
  }

  predicate Rising(s: seq<real>) {
    forall i, j | 0 <= i < j < |s| :: 0.0 <= s[i] < s[j] <= 1.0
  }

  lemma AllParamsOrdered(p: Polygon)
    ensures |AllParams(p)| == |Approximation(p)|
    ensures Rising(AllParams(p))
  {
    hide Params, Flatten;
    ParamsOrdered(p);
  }

  lemma EndsNearCurve(p: Polygon, k: nat)
    requires k < |Approximation(p)| && (k == 0 || k == |Approximation(p)| - 1)
    ensures |AllParams(p)| == |Approximation(p)|
    ensures Approximation(p)[k] == Curve(p, AllParams(p)[k])
  {
    hide Params, Flatten;
    AllParamsOrdered(p);
    CurveEnds(p);
  }

  lemma NoDistance(q: Point)
    ensures NormSq(Minus(q, q)) == 0.0
  {
  }

  lemma AccuracyNonNegative(n: nat)
    ensures Accuracy(n) >= 0.0
  {
    SquareNonNegative((n + 1) as real / 64.0);
  }

  lemma InnerIsEmitted(p: Polygon, k: nat)
    requires 0 < k < |Approximation(p)| - 1
    ensures k - 1 < |Flatten(p)| && Approximation(p)[k] == Flatten(p)[k - 1]
    ensures k < |AllParams(p)| && k - 1 < |Params(p)| && AllParams(p)[k] == Params(p)[k - 1]
  {
    hide Params, Flatten;
    ParamsOrdered(p);
  }

  /**
   * For every degree, each point of the polyline is within (|p| + 1) / 64 of the curve, and the polyline runs along
   * the curve from its start to its end without turning back.
   */
  lemma ApproximationNearCurve(p: Polygon, k: nat)
    requires k < |Approximation(p)|
    ensures |AllParams(p)| == |Approximation(p)|
    ensures Rising(AllParams(p))
    ensures NormSq(Minus(Approximation(p)[k], Curve(p, AllParams(p)[k]))) <= Accuracy(|p|)
  {
    AllParamsOrdered(p);
    hide Params, Flatten, Curve, Accuracy, Approximation, AllParams, Rising, NormSq, Minus;
    if k == 0 || k == |Approximation(p)| - 1 {
      EndsNearCurve(p, k);
      AccuracyNonNegative(|p|);
      NoDistance(Approximation(p)[k]);
    } else {
      InnerIsEmitted(p, k);
      FlattenNearCurve(p, k - 1);
    }
  }
}
