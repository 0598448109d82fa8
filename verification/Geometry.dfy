/** Plane points and the two measures every geometric routine is built on. */
module Geometry {
  datatype Point = Point(x: real, y: real)

  /** Squared distance: `hypot` without the root. */
  function Len2(a: Point, b: Point): (r: real)
    ensures r >= 0.0
  {
    (b.x - a.x) * (b.x - a.x) + (b.y - a.y) * (b.y - a.y)
  }

  /** Twice the signed area of the triangle o, p, q; positive when q lies left of o -> p. */
  function Cross(o: Point, p: Point, q: Point): real {
    (p.x - o.x) * (q.y - o.y) - (p.y - o.y) * (q.x - o.x)
  }

  /** The point a fraction t of the way from a to b. */
  function At(a: Point, b: Point, t: real): Point {
    Point(a.x + t * (b.x - a.x), a.y + t * (b.y - a.y))
  }

  function Abs(r: real): real {
    if r < 0.0 then -r else r
  }
}
