/** Canvas-relative points, the closed point-in-rectangle test, and the four
    corners an image can be resized from. */
module Geometry {

  /** A pointer position, already converted to canvas coordinates. */
  datatype Point = Point(x: real, y: real)

  /** The four resize corners, in the order the hit test tries them. */
  datatype Corner = TopLeft | TopRight | BottomLeft | BottomRight

  /** A resize handle under the pointer, or none. */
  datatype Handle = NoHandle | Handle(corner: Corner)

  /** The corners in the order the hit test tries them and the overlay
      shows them. */
  const CornerOrder: seq<Corner> := [TopLeft, TopRight, BottomLeft, BottomRight]

  /** Position of a corner in the hit test's priority order (0 is tried first). */
  function Rank(c: Corner): (r: nat)
    ensures r < |CornerOrder| && CornerOrder[r] == c
  {
    match c
    case TopLeft => 0
    case TopRight => 1
    case BottomLeft => 2
    case BottomRight => 3
  }

  /** Left-hand corners move the image's x when dragged. */
  predicate IsLeft(c: Corner) {
    c == TopLeft || c == BottomLeft
  }

  /** Top corners move the image's y when dragged. */
  predicate IsTop(c: Corner) {
    c == TopLeft || c == TopRight
  }

  /** The closed rectangle test: every edge counts as inside. A rectangle
      with a negative side contains no point at all. */
  function InRect(p: Point, rx: real, ry: real, rw: real, rh: real): (b: bool)
    ensures b ==> rw >= 0.0 && rh >= 0.0
    ensures b <==> 0.0 <= p.x - rx <= rw && 0.0 <= p.y - ry <= rh
  {
    rx <= p.x <= rx + rw && ry <= p.y <= ry + rh
  }

  /** The test depends only on the point's offset from the rectangle's
      origin: shifting point and rectangle together changes nothing. */
  lemma InRectShift(p: Point, rx: real, ry: real, rw: real, rh: real, dx: real, dy: real)
    ensures InRect(p, rx, ry, rw, rh) <==> InRect(Point(p.x + dx, p.y + dy), rx + dx, ry + dy, rw, rh)
  {
  }

  /** Edges are inclusive: all four corners of a rectangle of non-negative
      size lie inside it, and a point just past an edge does not. */
  lemma InRectClosed(rx: real, ry: real, rw: real, rh: real, eps: real)
    requires rw >= 0.0 && rh >= 0.0 && eps > 0.0
    ensures InRect(Point(rx, ry), rx, ry, rw, rh)
    ensures InRect(Point(rx + rw, ry), rx, ry, rw, rh)
    ensures InRect(Point(rx, ry + rh), rx, ry, rw, rh)
    ensures InRect(Point(rx + rw, ry + rh), rx, ry, rw, rh)
    ensures !InRect(Point(rx + rw + eps, ry), rx, ry, rw, rh)
    ensures !InRect(Point(rx, ry - eps), rx, ry, rw, rh)
    ensures !InRect(Point(rx - eps, ry), rx, ry, rw, rh)
    ensures !InRect(Point(rx, ry + rh + eps), rx, ry, rw, rh)
  {
  }
}
