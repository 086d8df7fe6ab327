/**
 * The AppKit geometry the canvas works in: points, sizes and axis-aligned
 * rectangles (NSPoint, NSSize, CGRect). Coordinates are real numbers.
 */
module Geometry {

  datatype Point = Point(x: real, y: real)

  datatype Size = Size(width: real, height: real)

  /** A rectangle given by its origin (minimum corner) and its size. */
  datatype Rect = Rect(origin: Point, size: Size) {

    function MinX(): real { origin.x }
    function MinY(): real { origin.y }
    function MaxX(): real { origin.x + size.width }
    function MaxY(): real { origin.y + size.height }

    /** CGRect containment is half-open: the minimum edges belong to the
        rectangle, the maximum edges do not. */
    predicate Contains(p: Point) {
      MinX() <= p.x < MaxX() && MinY() <= p.y < MaxY()
    }

    /** The centre of the rectangle: as far from the left edge as from the
        right one, and as far from the minimum y edge as from the maximum one. */
    function Center(): (c: Point)
      ensures c.x - MinX() == MaxX() - c.x
      ensures c.y - MinY() == MaxY() - c.y
      ensures size.width > 0.0 && size.height > 0.0 ==> Contains(c)
    {
      Point(MinX() + size.width / 2.0, MinY() + size.height / 2.0)
    }
  }
}
