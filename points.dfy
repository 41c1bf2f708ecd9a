/**
 * Points as the rectangle helpers see them: coordinates plus the routing
 * metadata that an anchor or a line vertex carries. The helpers that rotate
 * and scale points live in point.ts, which is not part of this model: rotation
 * is passed in as a function value, and scaling is the linear map that its
 * callers rely on.
 */
module Points {
  import opened Options

  /** A point; `prev`/`next` are the Bezier control handles of a line vertex. */
  datatype Point = Point(
    x: real,
    y: real,
    id: Option<string>,
    penId: Option<string>,
    connectTo: Option<string>,
    anchorId: Option<string>,
    prevNextType: Option<int>,  // an enum tag, copied and never interpreted here
    prev: Option<Point>,
    next: Option<Point>)

  /** A bare point `{ x, y }` with no metadata. */
  function Pt(x: real, y: real): Point {
    Point(x, y, None, None, None, None, None, None, None)
  }

  /** `rotatePoint(pt, degrees, center)`: the rotated copy of a point. */
  type Rotation = (Point, real, Point) -> Point

  /** One coordinate of `scalePoint`: `v` moved away from `c` by the factor `s`. */
  function ScaleCoord(v: real, s: real, c: real): real {
    c + (v - c) * s
  }
}
