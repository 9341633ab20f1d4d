/**
 Integer screen geometry (the toolkit's `QPoint` and `QRect`). Coordinates
 are unbounded integers; the toolkit's 32-bit range is not modelled.
 */
module Geometry {

  datatype Point = Point(x: int, y: int)

  /** Component-wise sum, as `QPoint + QPoint`. */
  function Add(p: Point, q: Point): (r: Point)
    ensures r.x - q.x == p.x && r.y - q.y == p.y
  {
    Point(p.x + q.x, p.y + q.y)
  }

  /** Component-wise difference, as `QPoint - QPoint`. */
  function Sub(p: Point, q: Point): (r: Point)
    ensures Add(r, q) == p
  {
    Point(p.x - q.x, p.y - q.y)
  }

  /** A rectangle given by its top-left corner and its size, as `QRect(x, y, w, h)`. */
  datatype Rect = Rect(x: int, y: int, width: int, height: int)
}
