/** The shape entity: a primitive owned by one entity, tagged with the draw
    mode that produced it, with visibility and selection flags. */
module ShapeEntity {
  import opened Wrappers
  import opened Geometry

  /** Opaque shape identity; 0 plays the part of the empty identifier. */
  type ShapeId = nat

  datatype DrawnShape = DrawnShape(
    id: ShapeId,
    plottable: Plottable,
    drawMode: DrawMode,
    isVisible: bool,
    isSelected: bool)

  /** Construction fails on an absent primitive (ChartPro's null argument). */
  datatype ShapeError = NullPlottable

  /** The source of fresh identifiers: every id handed out so far is at most `last`. */
  datatype IdSource = IdSource(last: nat)

  /** Builds a shape around `plottable` with a fresh id, visible and unselected. */
  function NewShape(plottable: Option<Plottable>, mode: DrawMode, ids: IdSource)
    : (r: Result<(DrawnShape, IdSource), ShapeError>)
    ensures plottable.None? <==> r.Err?
    ensures r.Ok? ==>
              var (s, ids') := r.value;
              && s.plottable == plottable.value
              && s.drawMode == mode
              && s.id != 0
              && s.isVisible
              && !s.isSelected
              && ids.last < s.id <= ids'.last
  {
    match plottable
    case None => Err(NullPlottable)
    case Some(p) =>
      var id := ids.last + 1;
      Ok((DrawnShape(id, p, mode, true, false), IdSource(id)))
  }

  /** Writes the selection flag; nothing else about the shape changes. */
  function SetSelected(s: DrawnShape, selected: bool): (r: DrawnShape)
    ensures r.isSelected == selected
    ensures r.id == s.id && r.plottable == s.plottable && r.drawMode == s.drawMode
    ensures r.isVisible == s.isVisible
  {
    s.(isSelected := selected)
  }

  /** Writes the visibility flag; nothing else about the shape changes. */
  function SetVisible(s: DrawnShape, visible: bool): (r: DrawnShape)
    ensures r.isVisible == visible
    ensures r.id == s.id && r.plottable == s.plottable && r.drawMode == s.drawMode
    ensures r.isSelected == s.isSelected
  {
    s.(isVisible := visible)
  }

  /** `b` is `a` with at most its visibility and selection flags changed. */
  predicate SameButFlags(a: DrawnShape, b: DrawnShape)
  {
    b.id == a.id && b.plottable == a.plottable && b.drawMode == a.drawMode
  }

  /** Flag writes: the last write wins, writing the current value changes
      nothing, and the two flags do not disturb each other. */
  lemma FlagWrites(s: DrawnShape, a: bool, b: bool)
    ensures SetSelected(SetSelected(s, a), b) == SetSelected(s, b)
    ensures SetVisible(SetVisible(s, a), b) == SetVisible(s, b)
    ensures SetSelected(s, s.isSelected) == s && SetVisible(s, s.isVisible) == s
    ensures SetSelected(SetVisible(s, a), b) == SetVisible(SetSelected(s, b), a)
    ensures SameButFlags(s, SetSelected(SetVisible(s, a), b))
  {
  }

  /** Builds one shape per primitive, in order, drawing ids from `ids`. */
  function NewShapes(items: seq<(Plottable, DrawMode)>, ids: IdSource)
    : (r: (seq<DrawnShape>, IdSource))
    ensures |r.0| == |items|
    ensures ids.last <= r.1.last
    ensures forall i :: 0 <= i < |items| ==>
              && r.0[i].plottable == items[i].0
              && r.0[i].drawMode == items[i].1
              && r.0[i].isVisible && !r.0[i].isSelected
              && ids.last < r.0[i].id <= r.1.last
    ensures forall i, j :: 0 <= i < j < |items| ==> r.0[i].id < r.0[j].id
    decreases |items|
  {
    if items == [] then ([], ids)
    else
      var (s, ids1) := NewShape(Some(items[0].0), items[0].1, ids).value;
      var (rest, ids2) := NewShapes(items[1..], ids1);
      ([s] + rest, ids2)
  }

  /** Two shapes built one after the other never share an id. */
  lemma {:induction false} SuccessiveShapesDiffer(
    p1: Plottable, m1: DrawMode, p2: Plottable, m2: DrawMode, ids: IdSource)
    ensures var (s1, ids1) := NewShape(Some(p1), m1, ids).value;
            var (s2, _) := NewShape(Some(p2), m2, ids1).value;
            s1.id != s2.id && s1.id != 0 && s2.id != 0
  {
  }
}
