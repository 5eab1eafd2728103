/** The two geometric helpers of the landmark guide: `dist` (through `Math.hypot`) and `mid`. */
module Geometry {
  import opened JsMath

  /** A clicked position, in pixels of the displayed image. */
  datatype Point = Point(x: real, y: real)

  /** `dist`: the Euclidean distance between two points, the square root of the summed
      squares of the coordinate differences. */
  ghost function Dist(a: Point, b: Point): (d: real)
    ensures d >= 0.0
    ensures a == b ==> d == 0.0
  {
    SqrtOfSquare(0.0);
    Sqrt(Sq(a.x - b.x) + Sq(a.y - b.y))
  }

  /** `mid(a, b)`: the point halfway between `a` and `b`. */
  function Mid(a: Point, b: Point): (m: Point)
    ensures m.x - a.x == b.x - m.x
    ensures m.y - a.y == b.y - m.y
    ensures a == b ==> m == a
  {
    Point((a.x + b.x) / 2.0, (a.y + b.y) / 2.0)
  }

  /** Shifts a point by `(dx, dy)`. */
  function Shift(a: Point, dx: real, dy: real): (s: Point)
    ensures s.x - a.x == dx && s.y - a.y == dy
  {
    Point(a.x + dx, a.y + dy)
  }

  lemma DistSymmetric(a: Point, b: Point)
    ensures Dist(a, b) == Dist(b, a)
  {
    assert Sq(a.x - b.x) == Sq(b.x - a.x);
    assert Sq(a.y - b.y) == Sq(b.y - a.y);
  }

  lemma MidSymmetric(a: Point, b: Point)
    ensures Mid(a, b) == Mid(b, a)
  {
  }

  /** Two points on one horizontal line are as far apart as their x coordinates. */
  lemma DistHorizontal(a: Point, b: Point)
    requires a.y == b.y
    ensures Dist(a, b) == Abs(a.x - b.x)
  {
    assert Sq(a.y - b.y) == 0.0;
    SqrtOfSquare(a.x - b.x);
  }

  /** Two points on one vertical line are as far apart as their y coordinates. */
  lemma DistVertical(a: Point, b: Point)
    requires a.x == b.x
    ensures Dist(a, b) == Abs(a.y - b.y)
  {
    assert Sq(a.x - b.x) == 0.0;
    SqrtOfSquare(a.y - b.y);
  }

  /** Moving both points by the same offset keeps their distance. */
  lemma DistShift(a: Point, b: Point, dx: real, dy: real)
    ensures Dist(Shift(a, dx, dy), Shift(b, dx, dy)) == Dist(a, b)
  {
    var a', b' := Shift(a, dx, dy), Shift(b, dx, dy);
    assert a'.x - b'.x == a.x - b.x;
    assert a'.y - b'.y == a.y - b.y;
  }

  /** The midpoint moves with its end points. */
  lemma MidShift(a: Point, b: Point, dx: real, dy: real)
    ensures Mid(Shift(a, dx, dy), Shift(b, dx, dy)) == Shift(Mid(a, b), dx, dy)
  {
  }
}
