/**
 Fixed-point geometry. A scalar is its raw signed Q32.32 integer, bounded to one million logical
 units. Every sum the source forms in `f64` stays below 2^53 units wherever it is accepted, so
 integer sums decide the same cases.
 */
module Scalars {
  import opened Wrappers

  const ONE: int := 0x1_0000_0000
  const SCALAR_LIMIT: int := 1_000_000 * ONE

  predicate InRange(raw: int) {
    -SCALAR_LIMIT <= raw <= SCALAR_LIMIT
  }

  type Scalar = raw: int | InRange(raw)

  datatype Point = Point(x: Scalar, y: Scalar)

  function NewPoint(x: int, y: int): Option<Point> {
    if InRange(x) && InRange(y) then Some(Point(x, y)) else None
  }

  datatype Rect = Rect(origin: Point, width: Scalar, height: Scalar)

  /** Positive extent whose far edges are still representable. */
  predicate ValidRect(r: Rect) {
    r.width > 0 && r.height > 0 && InRange(r.origin.x + r.width) && InRange(r.origin.y + r.height)
  }

  function NewRect(x: int, y: int, width: int, height: int): (r: Option<Rect>)
    ensures r.Some? ==> ValidRect(r.value)
  {
    if !InRange(x) || !InRange(y) || !InRange(width) || !InRange(height) then None
    else
      var rect := Rect(Point(x, y), width, height);
      if ValidRect(rect) then Some(rect) else None
  }

  predicate Contains(r: Rect, p: Point) {
    0 <= p.x - r.origin.x < r.width && 0 <= p.y - r.origin.y < r.height
  }

  /** `p` relative to the origin of `r`, when that is representable. */
  function Local(r: Rect, p: Point): Option<Point> {
    NewPoint(p.x - r.origin.x, p.y - r.origin.y)
  }
}
