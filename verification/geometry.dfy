/** Data-space points, draw modes and the geometric primitives a drawing
    surface can display. Coordinates are `real`, so midpoints are exact. */
module Geometry {

  datatype Point = Point(x: real, y: real)

  /** The tool armed for the next pointer drag. */
  datatype DrawMode =
    | None
    | TrendLine
    | HorizontalLine
    | VerticalLine
    | Rectangle
    | Circle
    | FibonacciRetracement
    | FibonacciExtension

  /** The enumeration member's name, as `ToString` spells it. */
  function ModeName(m: DrawMode): string
  {
    match m
    case None => "None"
    case TrendLine => "TrendLine"
    case HorizontalLine => "HorizontalLine"
    case VerticalLine => "VerticalLine"
    case Rectangle => "Rectangle"
    case Circle => "Circle"
    case FibonacciRetracement => "FibonacciRetracement"
    case FibonacciExtension => "FibonacciExtension"
  }

  /** The geometry of a primitive. A rectangle is kept normalised
      (left <= right, bottom <= top); an ellipse by centre and radii. */
  datatype Figure =
    | Segment(start: Point, end: Point)
    | HorizontalAt(y: real)
    | VerticalAt(x: real)
    | Box(left: real, bottom: real, right: real, top: real)
    | Ellipse(center: Point, radiusX: real, radiusY: real)
    | Retracement(start: Point, end: Point)

  /** A primitive: its figure and its line width (colours are not modelled). */
  datatype Primitive = Primitive(figure: Figure, lineWidth: nat)

  /** A primitive registered under a handle: the handle is its reference
      identity on the surface, so two equal figures stay distinguishable. */
  datatype Plottable = Plottable(handle: nat, primitive: Primitive)

  function Min(a: real, b: real): real { if a <= b then a else b }
  function Max(a: real, b: real): real { if a <= b then b else a }
  function Abs(a: real): real { if a < 0.0 then -a else a }
}
