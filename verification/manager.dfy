/** The shape manager: owns the managed shapes, the drawing surface they are
    registered on, and the undo/redo stacks; attaches to a surface once. */
module ShapeManagement {
  import opened Wrappers
  import opened Geometry
  import opened Seqs
  import opened ShapeEntity
  import opened Edits

  datatype ManagerError = NotAttached | AlreadyAttached | DuplicateShape | UnmanagedShape

  /** `store` holds every shape object the manager has been given (their flags
      live here, so commands that still refer to a shape see its current
      flags); `layer.order` lists the currently managed ones. */
  datatype ShapeManager = ShapeManager(
    attached: bool,
    store: map<Id, DrawnShape>,
    layer: Layer,
    undoStack: seq<Edit>,
    redoStack: seq<Edit>)

  /** A new manager: unattached, with no shapes, nothing selected and
      nothing to undo or redo. */
  function Initial(): (r: ShapeManager)
    ensures Known(r) && Shapes(r) == [] && SelectedShapes(r) == []
    ensures !IsAttached(r) && !CanUndo(r) && !CanRedo(r)
  {
    ShapeManager(false, map[], Layer([], {}), [], [])
  }

  predicate IsAttached(m: ShapeManager) { m.attached }
  predicate CanUndo(m: ShapeManager) { m.undoStack != [] }
  predicate CanRedo(m: ShapeManager) { m.redoStack != [] }

  /** Every managed id names a stored shape. */
  predicate Known(m: ShapeManager)
  {
    forall id :: id in m.layer.order ==> id in m.store
  }

  /** Every managed id names a stored shape, and none is managed twice. */
  predicate WellFormed(m: ShapeManager)
  {
    Known(m) && Distinct(m.layer.order) && (!m.attached ==> m.layer.order == [])
  }

  /** The primitives of the shapes with the given ids. */
  function PlotsOf(store: map<Id, DrawnShape>, ids: seq<Id>): set<Plottable>
    requires forall id :: id in ids ==> id in store
  {
    set id | id in ids :: store[id].plottable
  }

  /** A stored shape answers to its own key. */
  predicate SelfKeyed(store: map<Id, DrawnShape>)
  {
    forall id :: id in store ==> store[id].id == id
  }

  /** No two stored shapes share a primitive: each primitive has one owner. */
  predicate OwnersUnique(store: map<Id, DrawnShape>)
  {
    forall a, b :: a in store && b in store && a != b ==> store[a].plottable != store[b].plottable
  }

  /** Every recorded edit names a stored shape together with its primitive. */
  predicate EditsAgree(store: map<Id, DrawnShape>, edits: seq<Edit>)
  {
    forall e :: e in edits ==> e.id in store && store[e.id].plottable == e.plottable
  }

  /** The representation invariant: the surface shows exactly the managed
      shapes' primitives, an unattached manager is empty, and both stacks
      are consistent with the current layer. */
  ghost predicate Valid(m: ShapeManager)
  {
    && WellFormed(m)
    && SelfKeyed(m.store)
    && OwnersUnique(m.store)
    && m.layer.surface == PlotsOf(m.store, m.layer.order)
    && EditsAgree(m.store, m.undoStack)
    && EditsAgree(m.store, m.redoStack)
    && (!m.attached ==> m.layer.order == [] && m.undoStack == [] && m.redoStack == [])
    && History(m.layer, m.undoStack)
    && Future(m.layer, m.redoStack)
  }

  /** The managed shapes, in insertion order. */
  function Shapes(m: ShapeManager): (r: seq<DrawnShape>)
    requires Known(m)
    ensures |r| == |m.layer.order|
    ensures forall i :: 0 <= i < |r| ==> r[i] == m.store[m.layer.order[i]]
  {
    seq(|m.layer.order|, i requires 0 <= i < |m.layer.order| => m.store[m.layer.order[i]])
  }

  /** The managed shapes whose selection flag is set, in order. */
  function SelectedOf(ss: seq<DrawnShape>): (r: seq<DrawnShape>)
    ensures forall s :: s in r <==> s in ss && s.isSelected
    ensures |r| <= |ss|
  {
    if ss == [] then []
    else (if ss[0].isSelected then [ss[0]] else []) + SelectedOf(ss[1..])
  }

  /** The shapes whose selection flag is clear, in order. */
  function UnselectedOf(ss: seq<DrawnShape>): (r: seq<DrawnShape>)
    ensures forall s :: s in r <==> s in ss && !s.isSelected
    ensures |r| <= |ss|
  {
    if ss == [] then []
    else (if ss[0].isSelected then [] else [ss[0]]) + UnselectedOf(ss[1..])
  }

  /** The selected managed shapes: a shape is among them exactly when it is
      listed and its flag is set, and together with the unselected ones
      they account for every listed shape. */
  function SelectedShapes(m: ShapeManager): (r: seq<DrawnShape>)
    requires Known(m)
    ensures forall s :: s in r <==> s in Shapes(m) && s.isSelected
    ensures |r| + |UnselectedOf(Shapes(m))| == |Shapes(m)|
  {
    SelectionSplits(Shapes(m));
    SelectedOf(Shapes(m))
  }

  /** Every shape is either selected or not: the two filters split the list. */
  lemma {:induction false} SelectionSplits(ss: seq<DrawnShape>)
    ensures |SelectedOf(ss)| + |UnselectedOf(ss)| == |ss|
  {
    if ss != [] {
      SelectionSplits(ss[1..]);
    }
  }

  lemma InitialValid()
    ensures Valid(Initial())
  {
  }

  /** Attaching succeeds once; a second attach fails. */
  function Attach(m: ShapeManager): (r: Result<ShapeManager, ManagerError>)
    ensures m.attached <==> r == Err(AlreadyAttached)
    ensures r.Ok? ==> IsAttached(r.value) && r.value == m.(attached := true)
  {
    if m.attached then Err(AlreadyAttached) else Ok(m.(attached := true))
  }

  lemma AttachKeepsValid(m: ShapeManager)
    requires Valid(m) && Attach(m).Ok?
    ensures Valid(Attach(m).value)
  {
  }

  /** True when a stored shape other than `id` owns primitive `p`. */
  predicate OwnedByOther(m: ShapeManager, id: Id, p: Plottable)
  {
    exists x :: x in m.store && x != id && m.store[x].plottable == p
  }

  /** A shape can be added when it is not managed now, still owns the
      primitive it had if the manager was given it before (and it has been
      deleted since), and no other shape owns that primitive. */
  predicate Addable(m: ShapeManager, sh: DrawnShape)
  {
    && sh.id !in m.layer.order
    && (sh.id in m.store ==> m.store[sh.id].plottable == sh.plottable)
    && !OwnedByOther(m, sh.id, sh.plottable)
  }

  /** Adds a shape as an undoable step: the shape goes to the end of the list,
      its primitive onto the surface, the add onto the undo stack, and the
      redo stack is emptied. Fails before attach, and for a shape that is
      managed already or that clashes with another shape's primitive. */
  function AddShape(m: ShapeManager, sh: DrawnShape): (r: Result<ShapeManager, ManagerError>)
    requires WellFormed(m)
    ensures !m.attached ==> r == Err(NotAttached)
    ensures r == Err(DuplicateShape) <==> m.attached && !Addable(m, sh)
    ensures r.Ok? <==> m.attached && Addable(m, sh)
    ensures r.Ok? ==>
              && WellFormed(r.value)
              && r.value.attached && r.value.store == m.store[sh.id := sh]
              && Shapes(r.value) == Shapes(m) + [sh]
              && sh.plottable in r.value.layer.surface
              && CanUndo(r.value) && !CanRedo(r.value)
              && |r.value.undoStack| == |m.undoStack| + 1
              && r.value.undoStack[..|m.undoStack|] == m.undoStack
  {
    if !m.attached then Err(NotAttached)
    else if !Addable(m, sh) then Err(DuplicateShape)
    else
      var e := Added(sh.id, sh.plottable);
      var r := m.(store := m.store[sh.id := sh],
                  layer := Apply(e, m.layer),
                  undoStack := m.undoStack + [e],
                  redoStack := []);
      ShapesAppend(m, r, sh);
      Ok(r)
  }

  /** Listing one more id, whose shape is stored under it, appends that
      shape to the list. */
  lemma ShapesAppend(m: ShapeManager, r: ShapeManager, sh: DrawnShape)
    requires Known(m) && sh.id !in m.layer.order
    requires r.store == m.store[sh.id := sh] && r.layer.order == m.layer.order + [sh.id]
    ensures Known(r) && Shapes(r) == Shapes(m) + [sh]
  {
    var a, b := Shapes(r), Shapes(m) + [sh];
    assert forall k :: 0 <= k < |m.layer.order| ==> a[k] == b[k];
    assert a[|m.layer.order|] == b[|m.layer.order|];
    Pointwise(a, b);
  }

  /** Deletes a managed shape as an undoable step, remembering its position.
      Fails before attach and for a shape that is not managed. */
  function DeleteShape(m: ShapeManager, sh: DrawnShape): (r: Result<ShapeManager, ManagerError>)
    requires WellFormed(m)
    ensures !m.attached ==> r == Err(NotAttached)
    ensures r == Err(UnmanagedShape) <==> m.attached && sh.id !in m.layer.order
    ensures r.Ok? ==>
              && WellFormed(r.value)
              && r.value.store == m.store
              && (forall id :: id in r.value.layer.order <==> id in m.layer.order && id != sh.id)
              && m.store[sh.id].plottable !in r.value.layer.surface
              && r.value.layer.surface == m.layer.surface - {m.store[sh.id].plottable}
              && (var i := IndexOf(m.layer.order, sh.id);
                  Shapes(r.value) == Shapes(m)[..i] + Shapes(m)[i + 1..])
              && CanUndo(r.value) && !CanRedo(r.value)
              && |r.value.undoStack| == |m.undoStack| + 1
              && r.value.undoStack[..|m.undoStack|] == m.undoStack
  {
    if !m.attached then Err(NotAttached)
    else if sh.id !in m.layer.order then Err(UnmanagedShape)
    else DeleteIdCuts(m, sh.id); Ok(DeleteId(m, sh.id))
  }

  function DeleteId(m: ShapeManager, id: Id): (r: ShapeManager)
    requires WellFormed(m) && id in m.layer.order
    ensures WellFormed(r) && r.store == m.store
    ensures forall x :: x in r.layer.order <==> x in m.layer.order && x != id
    ensures m.store[id].plottable !in r.layer.surface
    ensures r.undoStack == m.undoStack + [DeletedAt(m, id)] && r.redoStack == []
    ensures r.layer == Apply(DeletedAt(m, id), m.layer) && r.attached == m.attached
  {
    var e := DeletedAt(m, id);
    DistinctRemove(m.layer.order, id);
    m.(layer := Apply(e, m.layer), undoStack := m.undoStack + [e], redoStack := [])
  }

  /** A delete step cuts the shape out of its place in the list, keeping the
      others in order, and takes exactly its primitive off the surface. */
  lemma DeleteIdCuts(m: ShapeManager, id: Id)
    requires WellFormed(m) && id in m.layer.order
    ensures var r := DeleteId(m, id);
            var i := IndexOf(m.layer.order, id);
            && r.layer.surface == m.layer.surface - {m.store[id].plottable}
            && r.layer.order == m.layer.order[..i] + m.layer.order[i + 1..]
            && Shapes(r) == Shapes(m)[..i] + Shapes(m)[i + 1..]
  {
    DeleteIdLayer(m, id);
    ShapesCut(m, DeleteId(m, id), IndexOf(m.layer.order, id));
  }

  lemma DeleteIdLayer(m: ShapeManager, id: Id)
    requires WellFormed(m) && id in m.layer.order
    ensures var r := DeleteId(m, id);
            var i := IndexOf(m.layer.order, id);
            && r.layer.surface == m.layer.surface - {m.store[id].plottable}
            && r.layer.order == m.layer.order[..i] + m.layer.order[i + 1..]
  {
    var l := DeleteId(m, id).layer;
    var p := m.store[id].plottable;
    assert p !in l.surface && l.surface - {p} == m.layer.surface - {p};
  }

  /** Cutting position `i` out of the managed ids cuts the same position out
      of the shape list. */
  lemma ShapesCut(m: ShapeManager, r: ShapeManager, i: nat)
    requires Known(m) && i < |m.layer.order| && r.store == m.store
    requires r.layer.order == m.layer.order[..i] + m.layer.order[i + 1..]
    ensures Known(r) && Shapes(r) == Shapes(m)[..i] + Shapes(m)[i + 1..]
  {
    assert forall k :: 0 <= k < i ==> r.layer.order[k] == m.layer.order[k];
    assert forall k :: i <= k < |r.layer.order| ==> r.layer.order[k] == m.layer.order[k + 1];
    assert Known(r);
    var cut := Shapes(m)[..i] + Shapes(m)[i + 1..];
    assert forall k :: 0 <= k < i ==> cut[k] == Shapes(m)[k];
    assert forall k :: i <= k < |cut| ==> cut[k] == Shapes(m)[k + 1];
    Pointwise(Shapes(r), cut);
  }

  /** The edit that deletes managed shape `id` from its current position. */
  function DeletedAt(m: ShapeManager, id: Id): (e: Edit)
    requires WellFormed(m) && id in m.layer.order
    ensures e.Deleted? && e.id == id && e.plottable == m.store[id].plottable
    ensures e.at < |m.layer.order| && m.layer.order[e.at] == id
  {
    Deleted(id, m.store[id].plottable, IndexOf(m.layer.order, id))
  }

  /** Takes back the most recent edit; reports whether there was one. */
  function UndoStep(m: ShapeManager): (r: (bool, ShapeManager))
    ensures r.0 <==> CanUndo(m)
    ensures !r.0 ==> r.1 == m
    ensures r.0 ==> CanRedo(r.1) && |r.1.undoStack| == |m.undoStack| - 1
    ensures r.1.store == m.store && r.1.attached == m.attached
  {
    if m.undoStack == [] then (false, m)
    else
      var e := m.undoStack[|m.undoStack| - 1];
      (true, m.(layer := Revert(e, m.layer),
                undoStack := m.undoStack[..|m.undoStack| - 1],
                redoStack := m.redoStack + [e]))
  }

  /** Re-applies the most recently undone edit; reports whether there was one. */
  function RedoStep(m: ShapeManager): (r: (bool, ShapeManager))
    ensures r.0 <==> CanRedo(m)
    ensures !r.0 ==> r.1 == m
    ensures r.0 ==> CanUndo(r.1) && |r.1.redoStack| == |m.redoStack| - 1
    ensures r.1.store == m.store && r.1.attached == m.attached
  {
    if m.redoStack == [] then (false, m)
    else
      var e := m.redoStack[|m.redoStack| - 1];
      (true, m.(layer := Apply(e, m.layer),
                undoStack := m.undoStack + [e],
                redoStack := m.redoStack[..|m.redoStack| - 1]))
  }

  /** Flips the selection flag of a shape the manager holds; not undoable. */
  function ToggleStep(m: ShapeManager, sh: DrawnShape): (r: ShapeManager)
    ensures r.layer == m.layer && r.undoStack == m.undoStack && r.redoStack == m.redoStack
    ensures r.store.Keys == m.store.Keys
    ensures sh.id in m.store ==>
              r.store[sh.id].isSelected == !m.store[sh.id].isSelected
    ensures forall id :: id in m.store && id != sh.id ==> r.store[id] == m.store[id]
    ensures forall id :: id in m.store ==>
              r.store[id] == SetSelected(m.store[id], r.store[id].isSelected)
  {
    if sh.id in m.store then
      var s := m.store[sh.id];
      m.(store := m.store[sh.id := SetSelected(s, !s.isSelected)])
    else m
  }

  /** Clears the selection flag of every managed shape; not undoable. */
  function ClearStep(m: ShapeManager): (r: ShapeManager)
    ensures r.layer == m.layer && r.undoStack == m.undoStack && r.redoStack == m.redoStack
    ensures r.store.Keys == m.store.Keys
    ensures forall id :: id in m.layer.order && id in m.store ==> !r.store[id].isSelected
    ensures forall id :: id in m.store ==>
              r.store[id] == SetSelected(m.store[id], r.store[id].isSelected)
    ensures forall id :: id in m.store && id !in m.layer.order ==> r.store[id] == m.store[id]
  {
    m.(store := map id | id in m.store ::
                  if id in m.layer.order then SetSelected(m.store[id], false) else m.store[id])
  }

  /** Undo as the manager offers it: fails before attach; otherwise takes
      back the most recent edit and reports whether there was one. */
  function Undo(m: ShapeManager): (r: Result<(bool, ShapeManager), ManagerError>)
    ensures r.Err? <==> !m.attached
    ensures r.Err? ==> r.error == NotAttached
    ensures r.Ok? ==> (r.value.0 <==> CanUndo(m)) && (!r.value.0 ==> r.value.1 == m)
    ensures r.Ok? ==> r.value == UndoStep(m)
  {
    if !m.attached then Err(NotAttached) else Ok(UndoStep(m))
  }

  /** Redo as the manager offers it: fails before attach; otherwise
      re-applies the most recently undone edit and reports whether there
      was one. */
  function Redo(m: ShapeManager): (r: Result<(bool, ShapeManager), ManagerError>)
    ensures r.Err? <==> !m.attached
    ensures r.Err? ==> r.error == NotAttached
    ensures r.Ok? ==> (r.value.0 <==> CanRedo(m)) && (!r.value.0 ==> r.value.1 == m)
    ensures r.Ok? ==> r.value == RedoStep(m)
  {
    if !m.attached then Err(NotAttached) else Ok(RedoStep(m))
  }

  /** Toggling as the manager offers it: fails before attach. */
  function ToggleSelection(m: ShapeManager, sh: DrawnShape): (r: Result<ShapeManager, ManagerError>)
    ensures r.Err? <==> !m.attached
    ensures r.Err? ==> r.error == NotAttached
    ensures r.Ok? ==> r.value == ToggleStep(m, sh)
    ensures r.Ok? && sh.id in m.store ==>
              r.value.store[sh.id].isSelected == !m.store[sh.id].isSelected
    ensures r.Ok? ==> r.value.layer == m.layer && r.value.undoStack == m.undoStack
  {
    if !m.attached then Err(NotAttached) else Ok(ToggleStep(m, sh))
  }

  /** Clearing the selection as the manager offers it: fails before attach. */
  function ClearSelection(m: ShapeManager): (r: Result<ShapeManager, ManagerError>)
    ensures r.Err? <==> !m.attached
    ensures r.Err? ==> r.error == NotAttached
    ensures r.Ok? ==> r.value == ClearStep(m)
    ensures r.Ok? ==> forall id :: id in m.layer.order && id in m.store ==> !r.value.store[id].isSelected
  {
    if !m.attached then Err(NotAttached) else Ok(ClearStep(m))
  }

  /** Writes the selection flag of a stored shape, as a caller holding the
      shape does; not undoable and not tied to attachment. An id the manager
      does not hold changes nothing. */
  function SetSelectedOf(m: ShapeManager, id: Id, selected: bool): (r: ShapeManager)
    ensures r.attached == m.attached && r.layer == m.layer
    ensures r.undoStack == m.undoStack && r.redoStack == m.redoStack
    ensures r.store.Keys == m.store.Keys
    ensures id in m.store ==> r.store[id].isSelected == selected
    ensures id in m.store ==> r.store[id].isVisible == m.store[id].isVisible
    ensures forall x :: x in m.store ==> SameButFlags(m.store[x], r.store[x])
    ensures forall x :: x in m.store && x != id ==> r.store[x] == m.store[x]
  {
    if id in m.store then m.(store := m.store[id := SetSelected(m.store[id], selected)]) else m
  }

  /** Writes the visibility flag of a stored shape; like the selection flag,
      not undoable and not tied to attachment. */
  function SetVisibleOf(m: ShapeManager, id: Id, visible: bool): (r: ShapeManager)
    ensures r.attached == m.attached && r.layer == m.layer
    ensures r.undoStack == m.undoStack && r.redoStack == m.redoStack
    ensures r.store.Keys == m.store.Keys
    ensures id in m.store ==> r.store[id].isVisible == visible
    ensures id in m.store ==> r.store[id].isSelected == m.store[id].isSelected
    ensures forall x :: x in m.store ==> SameButFlags(m.store[x], r.store[x])
    ensures forall x :: x in m.store && x != id ==> r.store[x] == m.store[x]
  {
    if id in m.store then m.(store := m.store[id := SetVisible(m.store[id], visible)]) else m
  }

  /** The managed ids whose shapes are selected, in list order. */
  function SelectedIds(order: seq<Id>, store: map<Id, DrawnShape>): (r: seq<Id>)
    requires forall id :: id in order ==> id in store
    ensures forall id :: id in r <==> id in order && store[id].isSelected
    ensures |r| <= |order|
    ensures Distinct(order) ==> Distinct(r)
  {
    if order == [] then []
    else
      var rest := SelectedIds(order[1..], store);
      assert forall id :: id in order[1..] ==> id in order;
      if store[order[0]].isSelected then [order[0]] + rest else rest
  }

  /** Deletes the listed managed shapes one after the other, each as its own
      undoable step. */
  function DeleteEach(m: ShapeManager, ids: seq<Id>): (r: ShapeManager)
    requires WellFormed(m) && Distinct(ids)
    requires forall id :: id in ids ==> id in m.layer.order
    ensures WellFormed(r) && r.store == m.store && r.attached == m.attached
    ensures forall x :: x in r.layer.order <==> x in m.layer.order && x !in ids
    ensures r.layer.order == Without(m.layer.order, ids)
    ensures |r.undoStack| == |m.undoStack| + |ids|
    ensures r.undoStack[..|m.undoStack|] == m.undoStack
    ensures ids != [] ==> r.redoStack == []
    ensures ids == [] ==> r == m
    decreases |ids|
  {
    if ids == [] then WithoutNothing(m.layer.order); m
    else
      var m' := DeleteId(m, ids[0]);
      var r := DeleteEach(m', ids[1..]);
      DeleteIdWithout(m, ids);
      assert r.undoStack[..|m.undoStack|] == r.undoStack[..|m'.undoStack|][..|m.undoStack|];
      r
  }

  /** Filtering the rest of `ids` out of the list left by deleting the first
      is filtering all of `ids` out of the original list. */
  lemma DeleteIdWithout(m: ShapeManager, ids: seq<Id>)
    requires WellFormed(m) && ids != [] && ids[0] in m.layer.order
    ensures Without(DeleteId(m, ids[0]).layer.order, ids[1..]) == Without(m.layer.order, ids)
  {
    WithoutCut(m.layer.order, ids);
  }

  /** Deletes every selected managed shape; each deletion is its own undo
      step. The unselected shapes stay, in their order. */
  function DeleteSelectedStep(m: ShapeManager): (r: ShapeManager)
    requires WellFormed(m)
    ensures WellFormed(r) && r.store == m.store && r.attached == m.attached
    ensures Shapes(r) == UnselectedOf(Shapes(m))
    ensures forall id :: id in r.layer.order <==>
              id in m.layer.order && !m.store[id].isSelected
    ensures |r.undoStack| == |m.undoStack| + |SelectedIds(m.layer.order, m.store)|
  {
    var sel := SelectedIds(m.layer.order, m.store);
    var r := DeleteEach(m, sel);
    ShapesLookup(m);
    ShapesLookup(r);
    UnselectedShapes(m.layer.order, m.store, sel);
    r
  }

  /** The stored shapes of the given ids, in order; ids not stored are
      skipped. */
  function Lookup(store: map<Id, DrawnShape>, ids: seq<Id>): (r: seq<DrawnShape>)
  {
    if ids == [] then []
    else (if ids[0] in store then [store[ids[0]]] else []) + Lookup(store, ids[1..])
  }

  /** Looking up ids that are all stored gives one shape per id, position by
      position. */
  lemma {:induction false} LookupAt(store: map<Id, DrawnShape>, ids: seq<Id>)
    requires forall id :: id in ids ==> id in store
    ensures |Lookup(store, ids)| == |ids|
    ensures forall i :: 0 <= i < |ids| ==> Lookup(store, ids)[i] == store[ids[i]]
  {
    if ids != [] {
      assert forall id :: id in ids[1..] ==> id in ids;
      LookupAt(store, ids[1..]);
    }
  }

  /** The shape list is the lookup of the managed ids. */
  lemma ShapesLookup(m: ShapeManager)
    requires Known(m)
    ensures Shapes(m) == Lookup(m.store, m.layer.order)
  {
    LookupAt(m.store, m.layer.order);
    Pointwise(Shapes(m), Lookup(m.store, m.layer.order));
  }

  /** Looking up the ids left after filtering out the selected ones gives
      the unselected shapes, in order. */
  lemma {:induction false} UnselectedShapes(order: seq<Id>, store: map<Id, DrawnShape>, sel: seq<Id>)
    requires forall id :: id in order ==> id in store && (id in sel <==> store[id].isSelected)
    ensures Lookup(store, Without(order, sel)) == UnselectedOf(Lookup(store, order))
  {
    if order != [] {
      var x, rest := order[0], order[1..];
      assert forall id :: id in rest ==> id in order;
      UnselectedShapes(rest, store, sel);
      assert Lookup(store, order) == [store[x]] + Lookup(store, rest);
      var ls := Lookup(store, order);
      assert ls[0] == store[x] && ls[1..] == Lookup(store, rest);
      if x in sel {
        assert Without(order, sel) == Without(rest, sel);
      } else {
        var w := Without(rest, sel);
        assert Without(order, sel) == [x] + w;
        assert ([x] + w)[0] == x && ([x] + w)[1..] == w;
      }
    }
  }

  /** Deleting the selected shapes as the manager offers it: fails before
      attach; otherwise exactly the unselected shapes stay, in order. */
  function DeleteSelectedShapes(m: ShapeManager): (r: Result<ShapeManager, ManagerError>)
    requires WellFormed(m)
    ensures r.Err? <==> !m.attached
    ensures r.Err? ==> r.error == NotAttached
    ensures r.Ok? ==> r.value == DeleteSelectedStep(m)
    ensures r.Ok? ==> WellFormed(r.value) && Shapes(r.value) == UnselectedOf(Shapes(m))
  {
    if !m.attached then Err(NotAttached) else Ok(DeleteSelectedStep(m))
  }
}
