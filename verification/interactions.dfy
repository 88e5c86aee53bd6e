/** The interaction controller: the armed draw mode, the snap configuration,
    the bound candles, and the drag that turns a pointer press, moves and a
    release into one managed shape. Pointer positions arrive already in data
    space and already snapped: the pixel transform and the snap arithmetic
    are outside the model. */
module Interactions {
  import opened Wrappers
  import opened Geometry
  import opened Strategies
  import opened Seqs
  import opened ShapeEntity
  import opened Edits
  import opened ShapeManagement
  import Persistence
  import ShapeManagerProofs

  datatype SnapMode = None | Price | CandleOHLC

  /** One bound candle; only its presence matters to the model. */
  datatype Candle = Candle(time: real, open: real, high: real, low: real, close: real)

  /** A drag in progress: the strategy of the mode it started in, the anchor
      point, and the preview primitive currently shown. */
  datatype Drag = Drag(strategy: Strategy, anchor: Point, preview: Plottable)

  datatype Controller = Controller(
    manager: ShapeManager,
    mode: DrawMode,
    snapEnabled: bool,
    snapMode: SnapMode,
    candles: seq<Candle>,
    drag: Option<Drag>,
    ids: IdSource,
    nextHandle: nat)

  /** A controller around a new manager: no mode armed, snapping off. */
  function NewController(): (c: Controller)
    ensures c.mode == DrawMode.None && !c.snapEnabled && c.snapMode == SnapMode.None
    ensures c.drag.None? && !IsAttached(c.manager) && Known(c.manager) && Shapes(c.manager) == []
  {
    Controller(Initial(), DrawMode.None, false, SnapMode.None, [], Option.None, IdSource(0), 0)
  }

  /** The controller's invariant: the manager's, plus counters above every id
      and handle in use, and a drag only while attached and in the mode whose
      strategy it uses. */
  ghost predicate Consistent(c: Controller)
  {
    && Valid(c.manager)
    && Counted(c)
    && (c.drag.Some? ==> c.manager.attached && ModeOf(c.drag.value.strategy) == c.mode)
  }

  /** The id and handle counters run ahead of everything stored. */
  predicate Counted(c: Controller)
  {
    && (forall id :: id in c.manager.store ==> id <= c.ids.last)
    && (forall id :: id in c.manager.store ==> c.manager.store[id].plottable.handle < c.nextHandle)
  }

  lemma NewControllerConsistent()
    ensures Consistent(NewController())
  {
    InitialValid();
  }

  function Attach(c: Controller): (r: Result<Controller, ManagerError>)
    ensures r.Ok? <==> !IsAttached(c.manager)
    ensures r.Ok? ==> IsAttached(r.value.manager) && r.value.manager.layer == c.manager.layer
    ensures r.Ok? ==> r.value.snapEnabled == c.snapEnabled && r.value.snapMode == c.snapMode
  {
    match ShapeManagement.Attach(c.manager)
    case Err(e) => Err(e)
    case Ok(m) => Ok(c.(manager := m))
  }

  /** Arms a draw mode, first discarding any drag in progress; the snap
      configuration and the shapes are untouched. */
  function SetDrawMode(c: Controller, mode: DrawMode): (r: Controller)
    ensures r.mode == mode && r.drag.None?
    ensures r.snapEnabled == c.snapEnabled && r.snapMode == c.snapMode && r.candles == c.candles
    ensures r.manager == c.manager && r.ids == c.ids && r.nextHandle == c.nextHandle
  {
    c.(mode := mode, drag := Option.None)
  }

  function SetSnapEnabled(c: Controller, enabled: bool): (r: Controller)
    ensures r.snapEnabled == enabled
    ensures r.snapMode == c.snapMode && r.mode == c.mode && r.drag == c.drag
    ensures r.manager == c.manager && r.candles == c.candles
  {
    c.(snapEnabled := enabled)
  }

  function SetSnapMode(c: Controller, mode: SnapMode): (r: Controller)
    ensures r.snapMode == mode
    ensures r.snapEnabled == c.snapEnabled && r.mode == c.mode && r.drag == c.drag
    ensures r.manager == c.manager && r.candles == c.candles
  {
    c.(snapMode := mode)
  }

  /** Binds a candle series (empty or not) for candle snapping. */
  function BindCandles(c: Controller, candles: seq<Candle>): (r: Controller)
    ensures r.candles == candles
    ensures r.snapEnabled == c.snapEnabled && r.snapMode == c.snapMode && r.mode == c.mode
    ensures r.manager == c.manager && r.drag == c.drag
  {
    c.(candles := candles)
  }

  /** The two snap settings are independent and each is last-write-wins. */
  lemma SnapSettingsIndependent(c: Controller, e1: bool, e2: bool, m1: SnapMode, m2: SnapMode)
    ensures SetSnapMode(SetSnapMode(c, m1), m2) == SetSnapMode(c, m2)
    ensures SetSnapEnabled(SetSnapEnabled(c, e1), e2) == SetSnapEnabled(c, e2)
    ensures SetSnapMode(SetSnapEnabled(c, e1), m1) == SetSnapEnabled(SetSnapMode(c, m1), e1)
    ensures SetSnapEnabled(SetSnapMode(c, m1), e1).snapEnabled == e1
    ensures SetSnapMode(SetSnapEnabled(c, e1), m1).snapMode == m1
  {
  }

  /** Pressing the pointer while idle in a mode with a strategy starts a drag
      anchored at `p` with a zero-length preview under a fresh handle. Before
      attach, during a drag, and in a mode without a strategy nothing
      happens (selection by hit-testing is not modelled). */
  function PointerDown(c: Controller, p: Point): (r: Controller)
    ensures !IsAttached(c.manager) || c.drag.Some? || CreateStrategy(c.mode).None? ==> r == c
    ensures IsAttached(c.manager) && c.drag.None? && CreateStrategy(c.mode).Some? ==>
              var s := CreateStrategy(c.mode).value;
              && r.drag == Some(Drag(s, p, Plottable(c.nextHandle, CreatePreview(s, p, p))))
              && r.nextHandle == c.nextHandle + 1
              && r == c.(drag := r.drag, nextHandle := r.nextHandle)
  {
    if !IsAttached(c.manager) || c.drag.Some? then c
    else match CreateStrategy(c.mode)
      case None => c
      case Some(s) =>
        c.(drag := Some(Drag(s, p, Plottable(c.nextHandle, CreatePreview(s, p, p)))),
           nextHandle := c.nextHandle + 1)
  }

  /** Moving the pointer during a drag replaces the preview in place (same
      handle, so previews never accumulate); nothing else changes. */
  function PointerMove(c: Controller, p: Point): (r: Controller)
    ensures c.drag.None? ==> r == c
    ensures c.drag.Some? ==>
              var d := c.drag.value;
              && r.drag.Some? && r.drag.value.strategy == d.strategy && r.drag.value.anchor == d.anchor
              && r.drag.value.preview.handle == d.preview.handle
              && r.drag.value.preview.primitive == CreatePreview(d.strategy, d.anchor, p)
              && r == c.(drag := r.drag)
  {
    match c.drag
    case None => c
    case Some(d) =>
      c.(drag := Some(d.(preview := Plottable(d.preview.handle, CreatePreview(d.strategy, d.anchor, p)))))
  }

  /** The shape a release at `p` completes: the final primitive from the
      anchor to `p` under the next handle, tagged with the current mode. */
  function Completed(c: Controller, d: Drag, p: Point): (r: Result<(DrawnShape, IdSource), ShapeError>)
  {
    NewShape(Some(Plottable(c.nextHandle, CreateFinal(d.strategy, d.anchor, p))), c.mode, c.ids)
  }

  /** Releasing the pointer ends a drag: the preview is dropped and the
      completed shape is added to the manager as one undoable step. Without
      a drag nothing happens. */
  function PointerUp(c: Controller, p: Point): (r: Controller)
    requires WellFormed(c.manager)
    ensures WellFormed(r.manager) && r.drag.None?
    ensures c.drag.None? ==> r == c
    ensures r.mode == c.mode && r.snapEnabled == c.snapEnabled && r.snapMode == c.snapMode
    ensures c.drag.Some? ==> r.nextHandle == c.nextHandle + 1
  {
    match c.drag
    case None => c
    case Some(d) =>
      var (sh, ids') := Completed(c, d, p).value;
      var added := AddShape(c.manager, sh);
      // The Err branch is unreachable for a consistent controller (see ReleaseAdds).
      var m := if added.Ok? then added.value else c.manager;
      c.(manager := m, drag := Option.None, ids := ids', nextHandle := c.nextHandle + 1)
  }

  /** Escape cancels a drag without recording anything and disarms the mode. */
  function Escape(c: Controller): (r: Controller)
    ensures r.mode == DrawMode.None && r.drag.None?
    ensures r.manager == c.manager && r.snapEnabled == c.snapEnabled && r.snapMode == c.snapMode
  {
    SetDrawMode(c, DrawMode.None)
  }

  /** Undo through the controller: fails before attach; otherwise the
      manager's undo, reporting whether there was history, with the rest of
      the controller untouched. */
  function Undo(c: Controller): (r: Result<(bool, Controller), ManagerError>)
    ensures r.Err? <==> !IsAttached(c.manager)
    ensures r.Err? ==> r.error == NotAttached
    ensures r.Ok? ==> (r.value.0 <==> CanUndo(c.manager))
    ensures r.Ok? ==> r.value.1 == c.(manager := UndoStep(c.manager).1)
  {
    match ShapeManagement.Undo(c.manager)
    case Err(e) => Err(e)
    case Ok((ok, m)) => Ok((ok, c.(manager := m)))
  }

  /** Redo through the controller, in the same way. */
  function Redo(c: Controller): (r: Result<(bool, Controller), ManagerError>)
    ensures r.Err? <==> !IsAttached(c.manager)
    ensures r.Err? ==> r.error == NotAttached
    ensures r.Ok? ==> (r.value.0 <==> CanRedo(c.manager))
    ensures r.Ok? ==> r.value.1 == c.(manager := RedoStep(c.manager).1)
  {
    match ShapeManagement.Redo(c.manager)
    case Err(e) => Err(e)
    case Ok((ok, m)) => Ok((ok, c.(manager := m)))
  }

  /** Deleting the selected shapes through the controller: fails before
      attach; otherwise exactly the unselected shapes stay, in order, and the
      rest of the controller is untouched. */
  function DeleteSelected(c: Controller): (r: Result<Controller, ManagerError>)
    requires WellFormed(c.manager)
    ensures r.Err? <==> !IsAttached(c.manager)
    ensures r.Err? ==> r.error == NotAttached
    ensures r.Ok? ==> r.value == c.(manager := DeleteSelectedStep(c.manager))
    ensures r.Ok? ==> Known(r.value.manager) && Shapes(r.value.manager) == UnselectedOf(Shapes(c.manager))
  {
    match DeleteSelectedShapes(c.manager)
    case Err(e) => Err(e)
    case Ok(m) => Ok(c.(manager := m))
  }

  /** The document for the managed shapes. */
  function SaveShapes(c: Controller): (d: Persistence.ChartAnnotations)
    requires Known(c.manager)
    ensures d == Persistence.Save(Shapes(c.manager))
  {
    Persistence.Save(Shapes(c.manager))
  }

  /** Loads a parsed document into the manager, advancing the counters. */
  function LoadShapes(c: Controller, doc: Result<Option<Persistence.ChartAnnotations>, Persistence.FileError>)
    : (r: Result<Controller, Persistence.LoadError>)
    ensures r.Err? <==> Persistence.Load(c.manager, doc, c.ids, c.nextHandle).Err?
    ensures r.Ok? ==>
              var l := Persistence.Load(c.manager, doc, c.ids, c.nextHandle).value;
              r.value == c.(manager := l.manager, ids := l.ids, nextHandle := l.nextHandle)
  {
    match Persistence.Load(c.manager, doc, c.ids, c.nextHandle)
    case Err(e) => Err(e)
    case Ok(l) => Ok(c.(manager := l.manager, ids := l.ids, nextHandle := l.nextHandle))
  }

  /** A press and a release in a mode with a strategy add exactly one shape
      at the end of the list: the final primitive from the press point to the
      release point, tagged with the mode, as one undoable step. */
  lemma DownUpAddsOne(c: Controller, a: Point, b: Point)
    requires Consistent(c) && IsAttached(c.manager) && c.drag.None?
    requires CreateStrategy(c.mode).Some?
    ensures var r := PointerUp(PointerDown(c, a), b);
            var n := |Shapes(c.manager)|;
            && Known(r.manager) && |Shapes(r.manager)| == n + 1
            && Shapes(r.manager)[..n] == Shapes(c.manager)
            && Shapes(r.manager)[n].drawMode == c.mode
            && Shapes(r.manager)[n].plottable.primitive == CreateFinal(CreateStrategy(c.mode).value, a, b)
            && Shapes(r.manager)[n].isVisible && !Shapes(r.manager)[n].isSelected
            && CanUndo(r.manager) && !CanRedo(r.manager) && r.drag.None?
  {
    ReleaseAdds(PointerDown(c, a), b);
  }

  /** Releasing during a drag adds the completed shape: its id and handle are
      fresh because the counters run ahead of the store. */
  lemma ReleaseAdds(c: Controller, p: Point)
    requires WellFormed(c.manager) && Counted(c) && c.drag.Some? && IsAttached(c.manager)
    ensures var (sh, _) := Completed(c, c.drag.value, p).value;
            && AddShape(c.manager, sh).Ok?
            && PointerUp(c, p).manager == AddShape(c.manager, sh).value
  {
    var (sh, _) := Completed(c, c.drag.value, p).value;
    assert sh.id !in c.manager.store;
    assert !OwnedByOther(c.manager, sh.id, sh.plottable);
  }

  /** Moves during a drag only change the preview: the release that follows
      builds the same shape as without them. */
  lemma MovesDoNotChangeRelease(c: Controller, q: Point, p: Point)
    requires WellFormed(c.manager)
    ensures PointerUp(PointerMove(c, q), p) == PointerUp(c, p)
  {
  }

  lemma PointerDownKeepsConsistent(c: Controller, p: Point)
    requires Consistent(c)
    ensures Consistent(PointerDown(c, p))
  {
  }

  lemma PointerUpKeepsConsistent(c: Controller, p: Point)
    requires Consistent(c)
    ensures Consistent(PointerUp(c, p))
  {
    if c.drag.Some? {
      var (sh, ids') := Completed(c, c.drag.value, p).value;
      ReleaseAdds(c, p);
      ShapeManagerProofs.AddShapeKeepsValid(c.manager, sh);
      StoreGrowsCounted(c.manager.store, sh, PointerUp(c, p).manager.store, c.ids.last, ids'.last, c.nextHandle);
    }
  }

  /** Storing a shape whose id and handle the counters just handed out keeps
      the advanced counters ahead of the store. */
  lemma StoreGrowsCounted(store: map<Id, DrawnShape>, sh: DrawnShape, store': map<Id, DrawnShape>,
                          last: Id, last': Id, handle: nat)
    requires forall id :: id in store ==> id <= last && store[id].plottable.handle < handle
    requires last < sh.id <= last' && sh.plottable.handle == handle
    requires store' == store[sh.id := sh]
    ensures forall id :: id in store' ==> id <= last' && store'[id].plottable.handle < handle + 1
  {
  }

  /** Loading keeps the invariant: the rebuilt shapes take ids and handles
      the counters had not yet handed out, and the counters move past them. */
  lemma LoadKeepsConsistent(c: Controller, doc: Result<Option<Persistence.ChartAnnotations>, Persistence.FileError>)
    requires Consistent(c) && LoadShapes(c, doc).Ok?
    ensures Consistent(LoadShapes(c, doc).value)
  {
    var r := LoadShapes(c, doc).value;
    Persistence.LoadKeepsValid(c.manager, doc, c.ids, c.nextHandle);
  }

  /** Drawing a trend line and saving gives a version 1 document whose last
      record is that trend line. */
  lemma DrawThenSave(c: Controller, a: Point, b: Point)
    requires Consistent(c) && IsAttached(c.manager) && c.drag.None? && c.mode == TrendLine
    ensures var r := PointerUp(PointerDown(c, a), b);
            var d := SaveShapes(r);
            && d.version == 1 && |d.shapes| == |Shapes(c.manager)| + 1
            && d.shapes[|d.shapes| - 1] == Persistence.ShapeAnnotation("TrendLine", a.x, a.y, b.x, b.y, 2)
  {
    DownUpAddsOne(c, a, b);
  }
}
