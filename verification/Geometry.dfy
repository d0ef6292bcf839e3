/** Points of the plane over the reals. */
module Geometry {
  datatype Point = Point(x: real, y: real)

  function Mid(a: Point, b: Point): Point {
    Point((a.x + b.x) / 2.0, (a.y + b.y) / 2.0)
  }

  function Between(a: real, b: real, t: real): real {
    a + (b - a) * t
  }

  /** The point at ratio `t` on the way from `a` to `b`. */
  function Lerp(a: Point, b: Point, t: real): Point {
    Point(Between(a.x, b.x, t), Between(a.y, b.y, t))
  }

  function Minus(a: Point, b: Point): Point {
    Point(a.x - b.x, a.y - b.y)
  }

  function Scale(k: real, a: Point): Point {
    Point(k * a.x, k * a.y)
  }

  function Dot(v: Point, a: Point): real {
    v.x * a.x + v.y * a.y
  }

  function NormSq(a: Point): real {
    a.x * a.x + a.y * a.y
  }

  lemma SquareNonNegative(r: real)
    ensures r * r >= 0.0
  {
  }

  lemma MidNorm(a: Point, b: Point, m: real)
    requires NormSq(a) <= m && NormSq(b) <= m
    ensures NormSq(Mid(a, b)) <= m
  {
    var c := Minus(a, b);
    SquareNonNegative(c.x);
    SquareNonNegative(c.y);
    assert 4.0 * NormSq(Mid(a, b)) + NormSq(c) == 2.0 * NormSq(a) + 2.0 * NormSq(b);
  }
}
