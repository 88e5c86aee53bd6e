/** The per-shape-type construction strategies and the factory that picks
    one for a draw mode. A strategy is a pair of pure constructors from a
    start and an end point to a primitive: a thin preview and a final one. */
module Strategies {
  import opened Wrappers
  import opened Geometry

  datatype Strategy =
    | TrendLineStrategy
    | HorizontalLineStrategy
    | VerticalLineStrategy
    | RectangleStrategy
    | CircleStrategy
    | FibonacciRetracementStrategy

  const PreviewWidth: nat := 1
  const FinalWidth: nat := 2

  /** The draw mode a strategy serves. */
  function ModeOf(s: Strategy): (m: DrawMode)
    ensures m != DrawMode.None && m != FibonacciExtension
  {
    match s
    case TrendLineStrategy => TrendLine
    case HorizontalLineStrategy => HorizontalLine
    case VerticalLineStrategy => VerticalLine
    case RectangleStrategy => Rectangle
    case CircleStrategy => Circle
    case FibonacciRetracementStrategy => FibonacciRetracement
  }

  /** The strategy for a mode; `None` and the unimplemented
      `FibonacciExtension` yield no strategy (never an error). */
  function CreateStrategy(mode: DrawMode): (r: Option<Strategy>)
    ensures r.None? <==> (mode == DrawMode.None || mode == FibonacciExtension)
    ensures r.Some? ==> ModeOf(r.value) == mode
  {
    match mode
    case None => Option.None
    case TrendLine => Some(TrendLineStrategy)
    case HorizontalLine => Some(HorizontalLineStrategy)
    case VerticalLine => Some(VerticalLineStrategy)
    case Rectangle => Some(RectangleStrategy)
    case Circle => Some(CircleStrategy)
    case FibonacciRetracement => Some(FibonacciRetracementStrategy)
    case FibonacciExtension => Option.None
  }

  /** True of a point inside (or on) an axis-aligned box figure. */
  predicate InBox(f: Figure, p: Point)
    requires f.Box?
  {
    f.left <= p.x <= f.right && f.bottom <= p.y <= f.top
  }

  /** The figure a strategy draws between `start` and `end`. */
  function Shape(s: Strategy, start: Point, end: Point): (f: Figure)
    ensures s == TrendLineStrategy ==> f.Segment? && f.start == start && f.end == end
    ensures s == HorizontalLineStrategy ==> f.HorizontalAt? && f.y == end.y
    ensures s == VerticalLineStrategy ==> f.VerticalAt? && f.x == end.x
    ensures s == RectangleStrategy ==>
              && f.Box? && f.left <= f.right && f.bottom <= f.top
              && InBox(f, start) && InBox(f, end)
              && (f.left == start.x || f.left == end.x)
              && (f.right == start.x || f.right == end.x)
              && (f.bottom == start.y || f.bottom == end.y)
              && (f.top == start.y || f.top == end.y)
    ensures s == CircleStrategy ==>
              && f.Ellipse?
              && 2.0 * f.center.x == start.x + end.x
              && 2.0 * f.center.y == start.y + end.y
              && 2.0 * f.radiusX == Abs(end.x - start.x)
              && 2.0 * f.radiusY == Abs(end.y - start.y)
    ensures s == FibonacciRetracementStrategy ==>
              f.Retracement? && f.start == start && f.end == end
  {
    match s
    case TrendLineStrategy => Segment(start, end)
    case HorizontalLineStrategy => HorizontalAt(end.y)
    case VerticalLineStrategy => VerticalAt(end.x)
    case RectangleStrategy =>
      Box(Min(start.x, end.x), Min(start.y, end.y), Max(start.x, end.x), Max(start.y, end.y))
    case CircleStrategy =>
      Ellipse(Point((start.x + end.x) / 2.0, (start.y + end.y) / 2.0),
              Abs(end.x - start.x) / 2.0, Abs(end.y - start.y) / 2.0)
    case FibonacciRetracementStrategy => Retracement(start, end)
  }

  /** The thin primitive shown while dragging. */
  function CreatePreview(s: Strategy, start: Point, end: Point): (r: Primitive)
    ensures r.lineWidth == 1
    ensures r.figure == Shape(s, start, end)
  {
    Primitive(Shape(s, start, end), PreviewWidth)
  }

  /** The styled primitive kept once the drag completes. */
  function CreateFinal(s: Strategy, start: Point, end: Point): (r: Primitive)
    ensures r.lineWidth == 2
    ensures r.figure == Shape(s, start, end)
  {
    Primitive(Shape(s, start, end), FinalWidth)
  }

  /** The factory and `ModeOf` are inverse: each implemented mode has its own
      strategy, and distinct implemented modes get distinct strategies. */
  lemma FactoryInverse(m: DrawMode, s: Strategy)
    ensures CreateStrategy(ModeOf(s)) == Some(s)
    ensures CreateStrategy(m) == Some(s) <==> ModeOf(s) == m
  {
  }

  lemma FactoryInjective(m1: DrawMode, m2: DrawMode)
    requires CreateStrategy(m1).Some? && CreateStrategy(m2).Some?
    ensures CreateStrategy(m1) == CreateStrategy(m2) <==> m1 == m2
  {
    FactoryInverse(m1, CreateStrategy(m1).value);
    FactoryInverse(m2, CreateStrategy(m2).value);
  }

  /** A horizontal line depends on the release point only, a vertical
      line likewise; a rectangle does not depend on which corner came first. */
  lemma ShapeIgnoresAnchor(start1: Point, start2: Point, end: Point)
    ensures Shape(HorizontalLineStrategy, start1, end) == Shape(HorizontalLineStrategy, start2, end)
    ensures Shape(VerticalLineStrategy, start1, end) == Shape(VerticalLineStrategy, start2, end)
  {
  }

  lemma RectangleOrderIndependent(a: Point, b: Point)
    ensures Shape(RectangleStrategy, a, b) == Shape(RectangleStrategy, b, a)
    ensures Shape(RectangleStrategy, a, b)
         == Shape(RectangleStrategy, Point(a.x, b.y), Point(b.x, a.y))
  {
  }
}
