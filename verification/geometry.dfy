/**
 Row rectangles and the geometry of one curve. Unity computes in single-precision floats;
 here coordinates are exact reals.
 */
module Geometry {

  datatype Point = Point(x: real, y: real)

  /** A rectangle given by its top-left corner and its size, y growing downwards. */
  datatype Rect = Rect(x: real, y: real, width: real, height: real) {
    function XMin(): real { x }
    function YMin(): real { y }
    function YMax(): real { y + height }
  }

  /** `Rect.zero`, the value of a rectangle never assigned. */
  const Zero: Rect := Rect(0.0, 0.0, 0.0, 0.0)

  /** How far right of the source row's left edge a curve starts. */
  const StartInset: real := 15.0

  /** How far the tangent handles reach horizontally from each end. */
  const TangentLength: real := 50.0

  /** Blue for curves to referenced objects, red for curves from referencing objects. */
  datatype Color = Blue | Red

  /** One curve as the renderer requests it: the rectangles it joins and its colour. */
  datatype Curve = Curve(from: Rect, to: Rect, color: Color)

  /** The control points handed to the Bezier rasteriser. */
  datatype Bezier = Bezier(start: Point, end: Point, startTangent: Point, endTangent: Point)

  /**
   GetEdgeRect: the stand-in for an off-screen row. It keeps the selected row's x, width and
   height and sits on the panel's top edge (incoming) or bottom edge (outgoing).
   */
  function EdgeRect(selectedRect: Rect, panel: Rect, isReferencing: bool): (r: Rect)
    ensures r.x == selectedRect.x && r.width == selectedRect.width && r.height == selectedRect.height
    ensures isReferencing ==> r.YMin() == panel.YMin()
    ensures !isReferencing ==> r.YMax() == panel.YMax()
  {
    if isReferencing then selectedRect.(y := panel.YMin())
    else selectedRect.(y := panel.YMax() - selectedRect.height)
  }

  /**
   DrawBezier's control points: the curve leaves the source row a fixed inset right of its
   left edge and enters the destination row at its left edge, both at mid-height, with
   horizontal handles pointing right out of the start and left into the end.
   */
  function BezierOf(c: Curve): (b: Bezier)
    ensures b.start.x == c.from.XMin() + StartInset
    ensures b.start.y - c.from.YMin() == c.from.YMax() - b.start.y
    ensures b.end.x == c.to.XMin()
    ensures b.end.y - c.to.YMin() == c.to.YMax() - b.end.y
    ensures b.startTangent.y == b.start.y && b.endTangent.y == b.end.y
    ensures b.startTangent.x - b.start.x == TangentLength == b.end.x - b.endTangent.x
    ensures c.from.height >= 0.0 ==> c.from.YMin() <= b.start.y <= c.from.YMax()
    ensures c.to.height >= 0.0 ==> c.to.YMin() <= b.end.y <= c.to.YMax()
  {
    var start := Point(c.from.XMin() + StartInset, c.from.y + c.from.height / 2.0);
    var end := Point(c.to.XMin(), c.to.y + c.to.height / 2.0);
    Bezier(start, end, Point(start.x + TangentLength, start.y), Point(end.x - TangentLength, end.y))
  }

}
