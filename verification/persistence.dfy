/** The persistence mapper: the managed shapes as a versioned flat list of
    records and back. Reading and writing the file and the JSON text are
    outside the model: loading starts from an already-parsed document, and
    a missing file or unparsable text arrive as error values. */
module Persistence {
  import opened Wrappers
  import opened Geometry
  import opened Strategies
  import opened Seqs
  import opened ShapeEntity
  import opened Edits
  import opened ShapeManagement

  /** The only document version the mapper writes. */
  const FormatVersion: int := 1

  /** One saved shape: its draw mode's name, the two defining corners and
      its line width (colours and fill are not modelled). */
  datatype ShapeAnnotation = ShapeAnnotation(shapeType: string, x1: real, y1: real, x2: real, y2: real, lineWidth: int)

  datatype ChartAnnotations = ChartAnnotations(version: int, shapes: seq<ShapeAnnotation>)

  /** Why no document could be read. */
  datatype FileError = FileNotFound | MalformedDocument

  datatype LoadError = ChartNotAttached | NotFound | Malformed

  /** The coordinates that define a figure, as (x1, y1, x2, y2). A horizontal
      line keeps only its y and a vertical line only its x; an ellipse is
      saved as its bounding box. */
  function Corners(f: Figure): (real, real, real, real)
  {
    match f
    case Segment(a, b) => (a.x, a.y, b.x, b.y)
    case Retracement(a, b) => (a.x, a.y, b.x, b.y)
    case HorizontalAt(y) => (0.0, y, 0.0, y)
    case VerticalAt(x) => (x, 0.0, x, 0.0)
    case Box(l, b, r, t) => (l, b, r, t)
    case Ellipse(c, rx, ry) => (c.x - rx, c.y - ry, c.x + rx, c.y + ry)
  }

  /** The record a shape is saved as. */
  function Record(s: DrawnShape): (r: ShapeAnnotation)
    ensures r.shapeType == ModeName(s.drawMode)
    ensures r.lineWidth == s.plottable.primitive.lineWidth
  {
    var (x1, y1, x2, y2) := Corners(s.plottable.primitive.figure);
    ShapeAnnotation(ModeName(s.drawMode), x1, y1, x2, y2, s.plottable.primitive.lineWidth)
  }

  /** The document for a list of shapes: version 1, one record per shape, in order. */
  function Save(shapes: seq<DrawnShape>): (d: ChartAnnotations)
    ensures d.version == FormatVersion && |d.shapes| == |shapes|
    ensures forall i :: 0 <= i < |shapes| ==> d.shapes[i] == Record(shapes[i])
  {
    ChartAnnotations(FormatVersion, seq(|shapes|, i requires 0 <= i < |shapes| => Record(shapes[i])))
  }

  /** The draw mode a type name spells, if it spells one. */
  function ParseShapeType(t: string): (r: Option<DrawMode>)
    ensures r.Some? ==> ModeName(r.value) == t
  {
    if t == "None" then Some(DrawMode.None)
    else if t == "TrendLine" then Some(TrendLine)
    else if t == "HorizontalLine" then Some(HorizontalLine)
    else if t == "VerticalLine" then Some(VerticalLine)
    else if t == "Rectangle" then Some(Rectangle)
    else if t == "Circle" then Some(Circle)
    else if t == "FibonacciRetracement" then Some(FibonacciRetracement)
    else if t == "FibonacciExtension" then Some(FibonacciExtension)
    else Option.None
  }

  /** Parsing inverts naming, and names are all it accepts. */
  lemma ParseModeName(m: DrawMode, t: string)
    ensures ParseShapeType(ModeName(m)) == Some(m)
    ensures ParseShapeType(t).None? <==> forall m' :: ModeName(m') != t
  {
    if ParseShapeType(t).None? {
      forall m' ensures ModeName(m') != t {
        assert ParseShapeType(ModeName(m')).Some?;
      }
    }
  }

  /** The strategy that rebuilds a record: none for an unknown type name, nor
      for a mode without a strategy. */
  function StrategyFor(rec: ShapeAnnotation): (r: Option<Strategy>)
    ensures r.Some? <==>
              ParseShapeType(rec.shapeType).Some? && CreateStrategy(ParseShapeType(rec.shapeType).value).Some?
    ensures r.Some? ==> ModeName(ModeOf(r.value)) == rec.shapeType
  {
    match ParseShapeType(rec.shapeType)
    case None => Option.None
    case Some(m) => CreateStrategy(m)
  }

  predicate Recognised(rec: ShapeAnnotation)
  {
    StrategyFor(rec).Some?
  }

  /** The records a load keeps: the recognised ones, in order. */
  function Kept(recs: seq<ShapeAnnotation>): (r: seq<ShapeAnnotation>)
    ensures |r| <= |recs|
    ensures forall x :: x in r <==> x in recs && Recognised(x)
  {
    if recs == [] then []
    else (if Recognised(recs[0]) then [recs[0]] else []) + Kept(recs[1..])
  }

  /** Filtering splits over concatenation, so the kept records keep their
      relative order; a list of recognised records is kept whole. */
  lemma {:induction false} KeptAppend(a: seq<ShapeAnnotation>, b: seq<ShapeAnnotation>)
    ensures Kept(a + b) == Kept(a) + Kept(b)
  {
    if a == [] {
      assert a + b == b;
    } else {
      assert (a + b)[0] == a[0];
      assert (a + b)[1..] == a[1..] + b;
      KeptAppend(a[1..], b);
    }
  }

  lemma {:induction false} KeptAll(recs: seq<ShapeAnnotation>)
    ensures Kept(recs) == recs <==> forall x :: x in recs ==> Recognised(x)
  {
    if recs != [] {
      KeptAll(recs[1..]);
      if !Recognised(recs[0]) {
        assert |Kept(recs)| < |recs|;
      }
    }
  }

  /** The final primitive a recognised record is rebuilt as. */
  function Rebuilt(rec: ShapeAnnotation): Primitive
    requires Recognised(rec)
  {
    CreateFinal(StrategyFor(rec).value, Point(rec.x1, rec.y1), Point(rec.x2, rec.y2))
  }

  /** The primitives and modes for a list of recognised records, each
      primitive registered under its own handle from `handle` on. */
  function Items(kept: seq<ShapeAnnotation>, handle: nat): (r: seq<(Plottable, DrawMode)>)
    requires forall x :: x in kept ==> Recognised(x)
    ensures |r| == |kept|
    ensures forall i :: 0 <= i < |kept| ==>
              && r[i].0 == Plottable(handle + i, Rebuilt(kept[i]))
              && ModeName(r[i].1) == kept[i].shapeType
              && r[i].1 == ModeOf(StrategyFor(kept[i]).value)
  {
    assert forall i :: 0 <= i < |kept| ==> kept[i] in kept && Recognised(kept[i]);
    seq(|kept|, i requires 0 <= i < |kept| =>
      (Plottable(handle + i, Rebuilt(kept[i])), ModeOf(StrategyFor(kept[i]).value)))
  }

  /** The shapes keyed by their ids. */
  function StoreOf(shapes: seq<DrawnShape>): (store: map<Id, DrawnShape>)
    requires forall i, j :: 0 <= i < j < |shapes| ==> shapes[i].id < shapes[j].id
    ensures forall i :: 0 <= i < |shapes| ==> shapes[i].id in store && store[shapes[i].id] == shapes[i]
    ensures forall id :: id in store ==> exists i :: 0 <= i < |shapes| && shapes[i].id == id
  {
    map i | 0 <= i < |shapes| :: shapes[i].id := shapes[i]
  }

  /** A manager holding exactly `shapes`, in order, with empty history. */
  function Manage(shapes: seq<DrawnShape>): (m: ShapeManager)
    requires forall i, j :: 0 <= i < j < |shapes| ==> shapes[i].id < shapes[j].id
    ensures WellFormed(m) && m.attached && m.undoStack == [] && m.redoStack == []
    ensures Shapes(m) == shapes
    ensures forall id :: id in m.store <==> id in m.layer.order
  {
    var order: seq<Id> := seq(|shapes|, i requires 0 <= i < |shapes| => shapes[i].id);
    var store := StoreOf(shapes);
    ListedShapes(shapes, order, store);
    var m := ShapeManager(true, store, Layer(order, PlotsOf(store, order)), [], []);
    ManagedAsListed(shapes, m);
    m
  }

  /** A manager that stores `shapes` by id and lists their ids in order
      holds exactly those shapes, in that order. */
  lemma ManagedAsListed(shapes: seq<DrawnShape>, m: ShapeManager)
    requires forall i, j :: 0 <= i < j < |shapes| ==> shapes[i].id < shapes[j].id
    requires m.store == StoreOf(shapes)
    requires |m.layer.order| == |shapes| && forall i :: 0 <= i < |shapes| ==> m.layer.order[i] == shapes[i].id
    ensures Known(m) && Distinct(m.layer.order) && Shapes(m) == shapes
    ensures forall id :: id in m.store <==> id in m.layer.order
  {
    ListedShapes(shapes, m.layer.order, m.store);
    Pointwise(Shapes(m), shapes);
  }

  /** Listing the ids of shapes with increasing ids gives a duplicate-free
      list that looks up to those very shapes. */
  lemma ListedShapes(shapes: seq<DrawnShape>, order: seq<Id>, store: map<Id, DrawnShape>)
    requires forall i, j :: 0 <= i < j < |shapes| ==> shapes[i].id < shapes[j].id
    requires |order| == |shapes| && forall i :: 0 <= i < |shapes| ==> order[i] == shapes[i].id
    requires forall i :: 0 <= i < |shapes| ==> shapes[i].id in store && store[shapes[i].id] == shapes[i]
    ensures Distinct(order)
    ensures forall id :: id in order ==> id in store
    ensures forall i :: 0 <= i < |order| ==> store[order[i]] == shapes[i]
  {
  }

  /** The result of a successful load: the new manager and the advanced
      id and handle sources. */
  datatype Loaded = Loaded(manager: ShapeManager, ids: IdSource, nextHandle: nat)

  /** The shapes rebuilt from a document's recognised records, in order,
      each visible and unselected with a fresh id and the next free handle,
      installed in a manager of their own with empty history. */
  function Installed(d: ChartAnnotations, ids: IdSource, handle: nat): (l: Loaded)
    ensures var n := l.manager;
            var kept := Kept(d.shapes);
            && WellFormed(n) && n.attached && !CanUndo(n) && !CanRedo(n)
            && |Shapes(n)| == |kept|
            && (forall i :: 0 <= i < |kept| ==>
                  && ModeName(Shapes(n)[i].drawMode) == kept[i].shapeType
                  && Shapes(n)[i].plottable.primitive == Rebuilt(kept[i])
                  && Shapes(n)[i].isVisible && !Shapes(n)[i].isSelected
                  && ids.last < Shapes(n)[i].id <= l.ids.last
                  && Shapes(n)[i].plottable.handle == handle + i)
            && (forall i, j :: 0 <= i < j < |kept| ==> Shapes(n)[i].id < Shapes(n)[j].id)
            && l.nextHandle == handle + |kept|
    ensures forall id :: id in l.manager.store ==>
              && ids.last < id <= l.ids.last
              && handle <= l.manager.store[id].plottable.handle < l.nextHandle
  {
    var kept := Kept(d.shapes);
    var items := Items(kept, handle);
    var (shapes, ids') := NewShapes(items, ids);
    ManagedFresh(items, ids, handle);
    Loaded(Manage(shapes), ids', handle + |kept|)
  }

  /** Loads a parsed document. Fails before attach and on a missing or
      malformed file; a null document changes nothing; otherwise the shapes
      rebuilt from the document replace all current shapes and both history
      stacks are emptied. */
  function Load(m: ShapeManager, doc: Result<Option<ChartAnnotations>, FileError>,
                ids: IdSource, handle: nat): (r: Result<Loaded, LoadError>)
    ensures r == Err(ChartNotAttached) <==> !m.attached
    ensures m.attached && doc == Err(FileNotFound) ==> r == Err(NotFound)
    ensures m.attached && doc == Err(MalformedDocument) ==> r == Err(Malformed)
    ensures m.attached && doc == Ok(Option.None) ==> r == Ok(Loaded(m, ids, handle))
    ensures m.attached && doc.Ok? && doc.value.Some? ==> r == Ok(Installed(doc.value.value, ids, handle))
  {
    if !m.attached then Err(ChartNotAttached)
    else match doc
      case Err(FileNotFound) => Err(NotFound)
      case Err(MalformedDocument) => Err(Malformed)
      case Ok(parsed) =>
        if parsed.None? then Ok(Loaded(m, ids, handle))
        else Ok(Installed(parsed.value, ids, handle))
  }

  /** The record a recognised record comes back as once loaded and saved
      again: same type name, the rebuilt figure's defining coordinates and
      the rebuilt primitive's width. */
  function Normal(rec: ShapeAnnotation): (r: ShapeAnnotation)
    requires Recognised(rec)
  {
    var (x1, y1, x2, y2) := Corners(Rebuilt(rec).figure);
    ShapeAnnotation(rec.shapeType, x1, y1, x2, y2, Rebuilt(rec).lineWidth)
  }

  /** Which records survive a load and a save unchanged. Every record comes
      back at the final line width 2. Trend lines and Fibonacci retracements
      keep their corners, rectangles and circles exactly when written lower
      corner first; a horizontal line keeps only its second y and a vertical
      line only its second x. Normalising twice changes nothing more. */
  lemma NormalExact(rec: ShapeAnnotation)
    requires Recognised(rec)
    ensures Recognised(Normal(rec)) && Normal(rec).shapeType == rec.shapeType
    ensures Normal(rec).lineWidth == 2
    ensures rec.shapeType == "TrendLine" || rec.shapeType == "FibonacciRetracement" ==>
              Normal(rec) == rec.(lineWidth := 2)
    ensures rec.shapeType == "Rectangle" || rec.shapeType == "Circle" ==>
              (Normal(rec) == rec <==> rec.x1 <= rec.x2 && rec.y1 <= rec.y2 && rec.lineWidth == 2)
    ensures rec.shapeType == "HorizontalLine" ==>
              Normal(rec) == rec.(x1 := 0.0, y1 := rec.y2, x2 := 0.0, lineWidth := 2)
    ensures rec.shapeType == "VerticalLine" ==>
              Normal(rec) == rec.(x1 := rec.x2, y1 := 0.0, y2 := 0.0, lineWidth := 2)
    ensures Normal(Normal(rec)) == Normal(rec)
  {
  }

  /** The figure a saved shape of each mode has: the kind its strategy
      draws, a box with its corners in order, an ellipse with non-negative
      radii. Modes without a strategy match nothing. */
  predicate Matches(mode: DrawMode, f: Figure)
  {
    match mode
    case TrendLine => f.Segment?
    case HorizontalLine => f.HorizontalAt?
    case VerticalLine => f.VerticalAt?
    case Rectangle => f.Box? && f.left <= f.right && f.bottom <= f.top
    case Circle => f.Ellipse? && f.radiusX >= 0.0 && f.radiusY >= 0.0
    case FibonacciRetracement => f.Retracement?
    case _ => false
  }

  /** A shape as a load builds it: its figure matches its mode and it is
      drawn at the final width 2. */
  predicate Canonical(s: DrawnShape)
  {
    Matches(s.drawMode, s.plottable.primitive.figure) && s.plottable.primitive.lineWidth == 2
  }

  /** Every final primitive a strategy builds matches the strategy's mode. */
  lemma FinalMatches(s: Strategy, start: Point, end: Point)
    ensures Matches(ModeOf(s), CreateFinal(s, start, end).figure)
  {
  }

  /** A canonical shape's record is recognised and comes back unchanged. */
  lemma RecordRoundTrip(s: DrawnShape)
    requires Canonical(s)
    ensures Recognised(Record(s)) && Normal(Record(s)) == Record(s)
  {
    var f := s.plottable.primitive.figure;
    assert ParseShapeType(ModeName(s.drawMode)) == Some(s.drawMode) by {
      ParseModeName(s.drawMode, ModeName(s.drawMode));
    }
    if f.Ellipse? {
      var st := StrategyFor(Record(s)).value;
      assert st == CircleStrategy;
      var g := Rebuilt(Record(s)).figure;
      assert g.center == f.center;
      assert g.radiusX == f.radiusX && g.radiusY == f.radiusY;
    }
  }

  /** Loading a document and saving again gives version 1 and the
      normalised recognised records, in order. */
  lemma LoadThenSave(d: ChartAnnotations, ids: IdSource, handle: nat)
    ensures var n := Installed(d, ids, handle).manager;
            var saved := Save(Shapes(n));
            var kept := Kept(d.shapes);
            && saved.version == FormatVersion && |saved.shapes| == |kept|
            && forall i :: 0 <= i < |kept| ==> saved.shapes[i] == Normal(kept[i])
  {
    var kept := Kept(d.shapes);
    assert forall i :: 0 <= i < |kept| ==> kept[i] in kept;
    SavedAsNormal(Shapes(Installed(d, ids, handle).manager), kept);
  }

  /** Shapes rebuilt from recognised records are saved as those records'
      normal forms. */
  lemma SavedAsNormal(shapes: seq<DrawnShape>, recs: seq<ShapeAnnotation>)
    requires |shapes| == |recs|
    requires forall i :: 0 <= i < |recs| ==>
               && Recognised(recs[i]) && ModeName(shapes[i].drawMode) == recs[i].shapeType
               && shapes[i].plottable.primitive == Rebuilt(recs[i])
    ensures forall i :: 0 <= i < |recs| ==> Save(shapes).shapes[i] == Normal(recs[i])
  {
  }

  /** Trend lines, Fibonacci retracements and rectangles or circles written
      lower corner first, all at line width 2, survive a load and a save
      exactly. */
  predicate Exact(rec: ShapeAnnotation)
  {
    && rec.lineWidth == 2
    && (|| rec.shapeType == "TrendLine" || rec.shapeType == "FibonacciRetracement"
        || ((rec.shapeType == "Rectangle" || rec.shapeType == "Circle")
            && rec.x1 <= rec.x2 && rec.y1 <= rec.y2))
  }

  lemma LoadThenSaveExact(d: ChartAnnotations, ids: IdSource, handle: nat)
    requires forall x :: x in d.shapes ==> Exact(x)
    ensures Save(Shapes(Installed(d, ids, handle).manager)).shapes == d.shapes
  {
    forall i | 0 <= i < |d.shapes|
      ensures Recognised(d.shapes[i]) && Normal(d.shapes[i]) == d.shapes[i]
    {
      ExactIsNormal(d.shapes[i]);
    }
    NormalDocumentSurvives(d, ids, handle);
  }

  lemma ExactIsNormal(rec: ShapeAnnotation)
    requires Exact(rec)
    ensures Recognised(rec) && Normal(rec) == rec
  {
    assert ParseShapeType(rec.shapeType).Some?;
    NormalExact(rec);
  }

  /** A document whose records are all recognised and already normal loads
      and saves back to the same records. */
  lemma NormalDocumentSurvives(d: ChartAnnotations, ids: IdSource, handle: nat)
    requires forall i :: 0 <= i < |d.shapes| ==> Recognised(d.shapes[i]) && Normal(d.shapes[i]) == d.shapes[i]
    ensures Save(Shapes(Installed(d, ids, handle).manager)).shapes == d.shapes
  {
    assert forall x :: x in d.shapes ==> Recognised(x);
    KeptAll(d.shapes);
    LoadThenSave(d, ids, handle);
    var saved := Save(Shapes(Installed(d, ids, handle).manager)).shapes;
    NormalFixed(saved, d.shapes);
  }

  /** Records that are their own normal forms equal their normal forms. */
  lemma NormalFixed(saved: seq<ShapeAnnotation>, recs: seq<ShapeAnnotation>)
    requires |saved| == |recs|
    requires forall i :: 0 <= i < |recs| ==> Recognised(recs[i]) && Normal(recs[i]) == recs[i]
    requires forall i :: 0 <= i < |recs| ==> saved[i] == Normal(recs[i])
    ensures saved == recs
  {
    Pointwise(saved, recs);
  }

  /** Saving canonical shapes and loading the document back gives shapes
      that save to the same document. */
  lemma SaveLoadRoundTrip(shapes: seq<DrawnShape>, ids: IdSource, handle: nat)
    requires forall s :: s in shapes ==> Canonical(s)
    ensures Save(Shapes(Installed(Save(shapes), ids, handle).manager)) == Save(shapes)
  {
    var d := Save(shapes);
    forall i | 0 <= i < |shapes|
      ensures Recognised(d.shapes[i]) && Normal(d.shapes[i]) == d.shapes[i]
    {
      RecordRoundTrip(shapes[i]);
    }
    NormalDocumentSurvives(d, ids, handle);
  }

  /** Every loaded shape is canonical, so loading, saving, loading and saving
      again reproduces the first save. */
  lemma LoadedAreCanonical(d: ChartAnnotations, ids: IdSource, handle: nat)
    ensures forall s :: s in Shapes(Installed(d, ids, handle).manager) ==> Canonical(s)
  {
    var kept := Kept(d.shapes);
    assert forall i :: 0 <= i < |kept| ==> kept[i] in kept;
    AllRebuiltCanonical(Shapes(Installed(d, ids, handle).manager), kept);
  }

  lemma AllRebuiltCanonical(shapes: seq<DrawnShape>, recs: seq<ShapeAnnotation>)
    requires |shapes| == |recs|
    requires forall i :: 0 <= i < |recs| ==>
               && Recognised(recs[i]) && ModeName(shapes[i].drawMode) == recs[i].shapeType
               && shapes[i].plottable.primitive == Rebuilt(recs[i])
    ensures forall s :: s in shapes ==> Canonical(s)
  {
    forall s | s in shapes
      ensures Canonical(s)
    {
      var i :| 0 <= i < |shapes| && shapes[i] == s;
      RebuiltCanonical(s, recs[i]);
    }
  }

  /** A shape rebuilt from a recognised record carries the figure its mode
      draws. */
  lemma RebuiltCanonical(s: DrawnShape, rec: ShapeAnnotation)
    requires Recognised(rec)
    requires ModeName(s.drawMode) == rec.shapeType && s.plottable.primitive == Rebuilt(rec)
    ensures Canonical(s)
  {
    var st := StrategyFor(rec).value;
    FinalMatches(st, Point(rec.x1, rec.y1), Point(rec.x2, rec.y2));
    ParseModeName(s.drawMode, ModeName(s.drawMode));
    assert ModeOf(st) == s.drawMode;
  }

  /** A manager rebuilt from shapes with increasing ids and distinct
      primitives satisfies the manager invariant. */
  lemma ManageValid(shapes: seq<DrawnShape>)
    requires forall i, j :: 0 <= i < j < |shapes| ==> shapes[i].id < shapes[j].id
    requires forall i, j :: 0 <= i < j < |shapes| ==> shapes[i].plottable != shapes[j].plottable
    ensures Valid(Manage(shapes))
  {
    ManageKeyed(shapes);
  }

  lemma ManageKeyed(shapes: seq<DrawnShape>)
    requires forall i, j :: 0 <= i < j < |shapes| ==> shapes[i].id < shapes[j].id
    requires forall i, j :: 0 <= i < j < |shapes| ==> shapes[i].plottable != shapes[j].plottable
    ensures SelfKeyed(StoreOf(shapes)) && OwnersUnique(StoreOf(shapes))
  {
    var store := StoreOf(shapes);
    forall a, b | a in store && b in store && a != b
      ensures store[a].plottable != store[b].plottable
    {
      var i :| 0 <= i < |shapes| && shapes[i].id == a;
      var j :| 0 <= j < |shapes| && shapes[j].id == b;
      assert store[a] == shapes[i] && store[b] == shapes[j];
      assert i != j;
    }
    forall id | id in store
      ensures store[id].id == id
    {
      var i :| 0 <= i < |shapes| && shapes[i].id == id;
      assert store[id] == shapes[i];
    }
  }

  /** Shapes built from items under consecutive handles hold ids the id
      source had not handed out and handles from `handle` on, and the
      advanced counters run past all of them. */
  lemma ManagedFresh(items: seq<(Plottable, DrawMode)>, ids: IdSource, handle: nat)
    requires forall i :: 0 <= i < |items| ==> items[i].0.handle == handle + i
    ensures var (shapes, ids') := NewShapes(items, ids);
            var n := Manage(shapes);
            forall id :: id in n.store ==>
              && ids.last < id <= ids'.last
              && handle <= n.store[id].plottable.handle < handle + |items|
  {
    var (shapes, ids') := NewShapes(items, ids);
    StoredWithin(shapes, ids.last, ids'.last, handle, handle + |items|);
  }

  /** Bounds every shape's id and handle obey hold for everything stored. */
  lemma StoredWithin(shapes: seq<DrawnShape>, lo: Id, hi: Id, h0: nat, h1: nat)
    requires forall i, j :: 0 <= i < j < |shapes| ==> shapes[i].id < shapes[j].id
    requires forall i :: 0 <= i < |shapes| ==>
               lo < shapes[i].id <= hi && h0 <= shapes[i].plottable.handle < h1
    ensures forall id :: id in StoreOf(shapes) ==>
              lo < id <= hi && h0 <= StoreOf(shapes)[id].plottable.handle < h1
  {
    var store := StoreOf(shapes);
    forall id | id in store
      ensures lo < id <= hi && h0 <= store[id].plottable.handle < h1
    {
      var i :| 0 <= i < |shapes| && shapes[i].id == id;
    }
  }

  /** Loading keeps the manager invariant: the rebuilt shapes have fresh
      increasing ids and primitives under distinct handles. */
  lemma LoadKeepsValid(m: ShapeManager, doc: Result<Option<ChartAnnotations>, FileError>,
                       ids: IdSource, handle: nat)
    requires Valid(m) && Load(m, doc, ids, handle).Ok?
    ensures Valid(Load(m, doc, ids, handle).value.manager)
  {
    if doc.Ok? && doc.value.Some? {
      LoadedValid(doc.value.value, ids, handle);
    }
  }

  lemma LoadedValid(d: ChartAnnotations, ids: IdSource, handle: nat)
    ensures Valid(Installed(d, ids, handle).manager)
  {
    var shapes := NewShapes(Items(Kept(d.shapes), handle), ids).0;
    RebuiltDistinct(Items(Kept(d.shapes), handle), handle, ids);
    ManageValid(shapes);
  }

  /** Shapes rebuilt under consecutive handles own distinct primitives. */
  lemma RebuiltDistinct(items: seq<(Plottable, DrawMode)>, handle: nat, ids: IdSource)
    requires forall i :: 0 <= i < |items| ==> items[i].0.handle == handle + i
    ensures var shapes := NewShapes(items, ids).0;
            forall i, j :: 0 <= i < j < |shapes| ==> shapes[i].plottable != shapes[j].plottable
  {
    var shapes := NewShapes(items, ids).0;
    forall i, j | 0 <= i < j < |shapes|
      ensures shapes[i].plottable != shapes[j].plottable
    {
      assert shapes[i].plottable.handle == handle + i;
    }
  }
}
