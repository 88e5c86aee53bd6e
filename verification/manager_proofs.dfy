/** Properties of the shape manager: every operation keeps the
    representation invariant, undo and redo are exact inverses, a new edit
    discards the redo history, and the stacks are last-in first-out. */
module ShapeManagerProofs {
  import opened Wrappers
  import opened Geometry
  import opened Seqs
  import opened ShapeEntity
  import opened Edits
  import opened ShapeManagement

  /** Removing a managed id from the list takes exactly its primitive off
      the set of managed primitives. */
  lemma PlotsAfterRemove(store: map<Id, DrawnShape>, order: seq<Id>, id: Id)
    requires forall x :: x in order ==> x in store
    requires Distinct(order) && id in order && OwnersUnique(store)
    ensures forall x :: x in Remove(order, id) ==> x in store
    ensures PlotsOf(store, Remove(order, id)) == PlotsOf(store, order) - {store[id].plottable}
  {
    DistinctRemove(order, id);
  }

  /** Inserting a stored id adds exactly its primitive. */
  lemma PlotsAfterInsert(store: map<Id, DrawnShape>, order: seq<Id>, at: nat, id: Id)
    requires forall x :: x in order ==> x in store
    requires id in store
    ensures forall x :: x in InsertAt(order, at, id) ==> x in store
    ensures PlotsOf(store, InsertAt(order, at, id)) == PlotsOf(store, order) + {store[id].plottable}
  {
  }

  lemma AddShapeKeepsValid(m: ShapeManager, sh: DrawnShape)
    requires Valid(m) && AddShape(m, sh).Ok?
    ensures Valid(AddShape(m, sh).value)
  {
    var r := AddShape(m, sh).value;
    var e := Added(sh.id, sh.plottable);
    AddedIsApplicable(m, sh);
    PushKeepsHistory(m.layer, m.undoStack, e);
    AddShapeKeepsStore(m, sh);
  }

  /** A shape the manager accepts is new to the list and to the surface. */
  lemma AddedIsApplicable(m: ShapeManager, sh: DrawnShape)
    requires WellFormed(m) && Distinct(m.layer.order)
    requires m.layer.surface == PlotsOf(m.store, m.layer.order)
    requires AddShape(m, sh).Ok?
    ensures Applicable(Added(sh.id, sh.plottable), m.layer)
    ensures AddShape(m, sh).value.layer == Apply(Added(sh.id, sh.plottable), m.layer)
    ensures AddShape(m, sh).value.undoStack == m.undoStack + [Added(sh.id, sh.plottable)]
  {
    assert !OwnedByOther(m, sh.id, sh.plottable);
    assert forall id :: id in m.layer.order ==> id != sh.id && m.store[id].plottable != sh.plottable;
  }

  lemma AddShapeKeepsStore(m: ShapeManager, sh: DrawnShape)
    requires WellFormed(m) && SelfKeyed(m.store) && OwnersUnique(m.store)
    requires m.layer.surface == PlotsOf(m.store, m.layer.order)
    requires EditsAgree(m.store, m.undoStack)
    requires AddShape(m, sh).Ok?
    ensures var r := AddShape(m, sh).value;
            && SelfKeyed(r.store) && OwnersUnique(r.store)
            && r.layer.surface == PlotsOf(r.store, r.layer.order)
            && EditsAgree(r.store, r.undoStack) && EditsAgree(r.store, r.redoStack)
            && r.attached
  {
    var r := AddShape(m, sh).value;
    var store := m.store[sh.id := sh];
    assert r.store == store && r.layer.order == m.layer.order + [sh.id];
    assert r.layer.surface == m.layer.surface + {sh.plottable};
    assert !OwnedByOther(m, sh.id, sh.plottable);
    StoreExtended(m.store, sh, m.layer.order);
  }

  /** Storing a shape that is not listed, under its own id, with a primitive
      no other stored shape owns (and the one it had, if it was stored
      before) keeps the store keyed by id with unique owners and every
      recorded edit in agreement, and adds exactly that primitive. */
  lemma StoreExtended(store: map<Id, DrawnShape>, sh: DrawnShape, order: seq<Id>)
    requires SelfKeyed(store) && OwnersUnique(store)
    requires sh.id in store ==> store[sh.id].plottable == sh.plottable
    requires forall id :: id in store && id != sh.id ==> store[id].plottable != sh.plottable
    requires forall id :: id in order ==> id in store && id != sh.id
    ensures SelfKeyed(store[sh.id := sh]) && OwnersUnique(store[sh.id := sh])
    ensures PlotsOf(store[sh.id := sh], order + [sh.id]) == PlotsOf(store, order) + {sh.plottable}
    ensures forall es :: EditsAgree(store, es) ==> EditsAgree(store[sh.id := sh], es)
  {
    var s' := store[sh.id := sh];
    forall p
      ensures p in PlotsOf(s', order + [sh.id]) <==> p in PlotsOf(store, order) + {sh.plottable}
    {
      if p in PlotsOf(s', order + [sh.id]) {
        var id :| id in order + [sh.id] && s'[id].plottable == p;
        if id != sh.id {
          assert id in order;
        }
      }
      if p in PlotsOf(store, order) {
        var id :| id in order && store[id].plottable == p;
        assert id in order + [sh.id] && s'[id].plottable == p;
      }
      if p == sh.plottable {
        assert sh.id in order + [sh.id];
      }
    }
  }

  lemma DeleteShapeKeepsValid(m: ShapeManager, sh: DrawnShape)
    requires Valid(m) && DeleteShape(m, sh).Ok?
    ensures Valid(DeleteShape(m, sh).value)
  {
    DeleteIdKeepsValid(m, sh.id);
  }

  lemma DeleteIdKeepsValid(m: ShapeManager, id: Id)
    requires Valid(m) && id in m.layer.order
    ensures Valid(DeleteId(m, id))
  {
    var e := DeletedAt(m, id);
    PlotsAfterRemove(m.store, m.layer.order, id);
    assert Applicable(e, m.layer);
    PushKeepsHistory(m.layer, m.undoStack, e);
  }

  lemma {:induction false} DeleteEachKeepsValid(m: ShapeManager, ids: seq<Id>)
    requires Valid(m) && Distinct(ids)
    requires forall id :: id in ids ==> id in m.layer.order
    ensures Valid(DeleteEach(m, ids))
    decreases |ids|
  {
    if ids != [] {
      var m' := DeleteId(m, ids[0]);
      DeleteIdKeepsValid(m, ids[0]);
      RestStillManaged(m, ids);
      DeleteEachKeepsValid(m', ids[1..]);
      assert DeleteEach(m, ids) == DeleteEach(m', ids[1..]);
    }
  }

  lemma RestStillManaged(m: ShapeManager, ids: seq<Id>)
    requires WellFormed(m) && Distinct(ids) && ids != []
    requires forall id :: id in ids ==> id in m.layer.order
    ensures Distinct(ids[1..])
    ensures forall id :: id in ids[1..] ==> id in DeleteId(m, ids[0]).layer.order
  {
    forall id | id in ids[1..]
      ensures id != ids[0]
    {
      var k :| 0 <= k < |ids[1..]| && ids[1..][k] == id;
      assert ids[k + 1] == id;
    }
  }

  /** A shape is listed exactly when some managed id names it. */
  lemma ShapesMembers(m: ShapeManager, s: DrawnShape)
    requires Known(m)
    ensures s in Shapes(m) <==> exists id :: id in m.layer.order && m.store[id] == s
  {
    if exists id :: id in m.layer.order && m.store[id] == s {
      var id :| id in m.layer.order && m.store[id] == s;
      var i :| 0 <= i < |m.layer.order| && m.layer.order[i] == id;
      assert Shapes(m)[i] == s;
    }
  }

  /** Deleting the selected shapes leaves exactly the unselected ones, keeps
      the invariant, and records one undo step per deleted shape. */
  lemma DeleteSelectedLeavesUnselected(m: ShapeManager)
    requires Valid(m)
    ensures Valid(DeleteSelectedStep(m))
    ensures forall s :: s in Shapes(DeleteSelectedStep(m)) <==> s in Shapes(m) && !s.isSelected
    ensures SelectedShapes(DeleteSelectedStep(m)) == []
    ensures |DeleteSelectedStep(m).undoStack| == |m.undoStack| + |SelectedShapes(m)|
  {
    DeleteEachKeepsValid(m, SelectedIds(m.layer.order, m.store));
    DeleteSelectedContents(m);
  }

  lemma DeleteSelectedContents(m: ShapeManager)
    requires WellFormed(m)
    ensures forall s :: s in Shapes(DeleteSelectedStep(m)) <==> s in Shapes(m) && !s.isSelected
    ensures SelectedShapes(DeleteSelectedStep(m)) == []
    ensures |DeleteSelectedStep(m).undoStack| == |m.undoStack| + |SelectedShapes(m)|
  {
    var r := DeleteSelectedStep(m);
    forall s
      ensures s in Shapes(r) <==> s in Shapes(m) && !s.isSelected
    {
      KeptShape(m, r, s);
    }
    NoneSelected(Shapes(r));
    DeleteSelectedCount(m);
  }

  lemma DeleteSelectedCount(m: ShapeManager)
    requires Known(m)
    ensures |SelectedIds(m.layer.order, m.store)| == |SelectedShapes(m)|
  {
    SelectedCount(m.layer.order, m.store, Shapes(m));
  }

  /** One shape survives the deletion of the selected ones iff it was managed
      and unselected. */
  lemma KeptShape(m: ShapeManager, r: ShapeManager, s: DrawnShape)
    requires Known(m) && Known(r) && r.store == m.store
    requires forall id :: id in r.layer.order <==>
               id in m.layer.order && !m.store[id].isSelected
    ensures s in Shapes(r) <==> s in Shapes(m) && !s.isSelected
  {
    ShapesMembers(r, s);
    ShapesMembers(m, s);
    if s in Shapes(m) && !s.isSelected {
      var id :| id in m.layer.order && m.store[id] == s;
      assert id in r.layer.order;
    }
  }

  /** The selected ids and the selected shapes they look up are as many. */
  lemma {:induction false} SelectedCount(order: seq<Id>, store: map<Id, DrawnShape>, ss: seq<DrawnShape>)
    requires forall id :: id in order ==> id in store
    requires |ss| == |order| && forall i :: 0 <= i < |order| ==> ss[i] == store[order[i]]
    ensures |SelectedIds(order, store)| == |SelectedOf(ss)|
  {
    if order != [] {
      assert forall id :: id in order[1..] ==> id in order;
      SelectedCount(order[1..], store, ss[1..]);
    }
  }

  lemma UndoKeepsValid(m: ShapeManager)
    requires Valid(m)
    ensures Valid(UndoStep(m).1)
  {
    if CanUndo(m) {
      var e := m.undoStack[|m.undoStack| - 1];
      var prev := Revert(e, m.layer);
      UndoKeepsStacks(m.layer, m.undoStack, m.redoStack);
      assert e in m.undoStack;
      assert e.Added? ==> e.id in m.layer.order;
      RevertKeepsMirror(m.store, m.layer, e);
    }
  }

  /** Taking back an edit of a stored shape keeps the surface equal to the
      managed shapes' primitives. */
  lemma RevertKeepsMirror(store: map<Id, DrawnShape>, l: Layer, e: Edit)
    requires forall x :: x in l.order ==> x in store
    requires OwnersUnique(store) && Distinct(l.order) && l.surface == PlotsOf(store, l.order)
    requires e.id in store && store[e.id].plottable == e.plottable
    requires e.Added? ==> e.id in l.order
    ensures forall x :: x in Revert(e, l).order ==> x in store
    ensures Revert(e, l).surface == PlotsOf(store, Revert(e, l).order)
  {
    match e
    case Added(id, p) =>
      PlotsAfterRemove(store, l.order, id);
      assert Revert(e, l) == Layer(Remove(l.order, id), l.surface - {p});
    case Deleted(id, p, at) =>
      PlotsAfterInsert(store, l.order, at, id);
      assert Revert(e, l) == Layer(InsertAt(l.order, at, id), l.surface + {p});
  }

  lemma RedoKeepsValid(m: ShapeManager)
    requires Valid(m)
    ensures Valid(RedoStep(m).1)
  {
    if CanRedo(m) {
      var n := |m.redoStack|;
      var e := m.redoStack[n - 1];
      RedoKeepsStacks(m.layer, m.undoStack, m.redoStack);
      assert e in m.redoStack;
      ApplyKeepsMirror(m.store, m.layer, e);
      EditsAgreeMoved(m.store, m.undoStack, m.redoStack);
    }
  }

  /** Carrying out an applicable edit of a stored shape keeps the surface
      equal to the managed shapes' primitives. */
  lemma ApplyKeepsMirror(store: map<Id, DrawnShape>, l: Layer, e: Edit)
    requires forall x :: x in l.order ==> x in store
    requires OwnersUnique(store) && l.surface == PlotsOf(store, l.order)
    requires e.id in store && store[e.id].plottable == e.plottable
    requires Applicable(e, l)
    ensures forall x :: x in Apply(e, l).order ==> x in store
    ensures Apply(e, l).surface == PlotsOf(store, Apply(e, l).order)
  {
    match e
    case Added(id, p) =>
      assert PlotsOf(store, l.order + [id]) == PlotsOf(store, l.order) + {p};
    case Deleted(id, p, at) =>
      PlotsAfterRemove(store, l.order, id);
  }

  /** Moving the top redo entry onto the undo stack keeps both in agreement
      with the store. */
  lemma EditsAgreeMoved(store: map<Id, DrawnShape>, undo: seq<Edit>, redo: seq<Edit>)
    requires EditsAgree(store, undo) && EditsAgree(store, redo) && redo != []
    ensures EditsAgree(store, undo + [redo[|redo| - 1]])
    ensures EditsAgree(store, redo[..|redo| - 1])
  {
    assert redo[|redo| - 1] in redo;
    assert forall e :: e in redo[..|redo| - 1] ==> e in redo;
  }

  /** Redo exactly reverses the most recent undo. */
  lemma RedoAfterUndo(m: ShapeManager)
    requires Valid(m) && CanUndo(m)
    ensures RedoStep(UndoStep(m).1) == (true, m)
  {
    RedoAfterUndoStacks(m);
  }

  lemma RedoAfterUndoStacks(m: ShapeManager)
    requires History(m.layer, m.undoStack) && CanUndo(m)
    ensures RedoStep(UndoStep(m).1) == (true, m)
  {
    var n := |m.undoStack|;
    var e := m.undoStack[n - 1];
    var rest := m.undoStack[..n - 1];
    SplitLast(m.undoStack);
    UndoTop(m, rest, e);
    var u := UndoStep(m).1;
    RedoTop(u, m.redoStack, e);
    HistoryTop(m.layer, m.undoStack);
  }

  /** Undo exactly reverses the most recent redo. */
  lemma UndoAfterRedo(m: ShapeManager)
    requires Valid(m) && CanRedo(m)
    ensures UndoStep(RedoStep(m).1) == (true, m)
  {
    UndoAfterRedoStacks(m);
  }

  lemma UndoAfterRedoStacks(m: ShapeManager)
    requires Future(m.layer, m.redoStack) && CanRedo(m)
    ensures UndoStep(RedoStep(m).1) == (true, m)
  {
    var n := |m.redoStack|;
    var e := m.redoStack[n - 1];
    var rest := m.redoStack[..n - 1];
    SplitLast(m.redoStack);
    RedoTop(m, rest, e);
    var r := RedoStep(m).1;
    UndoTop(r, m.undoStack, e);
    RevertApply(e, m.layer);
  }

  /** Undo right after an add brings back the previous shape list and
      leaves the add on the redo stack. */
  lemma UndoAfterAdd(m: ShapeManager, sh: DrawnShape)
    requires Valid(m) && AddShape(m, sh).Ok?
    ensures var (ok, u) := UndoStep(AddShape(m, sh).value);
            && ok && u.layer == m.layer && Known(u) && Shapes(u) == Shapes(m)
            && u.undoStack == m.undoStack && CanRedo(u)
  {
    UndoAfterAddLayer(m, sh);
  }

  lemma UndoAfterAddLayer(m: ShapeManager, sh: DrawnShape)
    requires WellFormed(m) && m.layer.surface == PlotsOf(m.store, m.layer.order)
    requires AddShape(m, sh).Ok?
    ensures var (ok, u) := UndoStep(AddShape(m, sh).value);
            && ok && u.layer == m.layer && Known(u) && Shapes(u) == Shapes(m)
            && u.undoStack == m.undoStack && CanRedo(u)
  {
    var r := AddShape(m, sh).value;
    var e := Added(sh.id, sh.plottable);
    AddedIsApplicable(m, sh);
    RevertApply(e, m.layer);
    assert r.undoStack[..|m.undoStack|] == m.undoStack;
    var u := UndoStep(r).1;
    assert u.layer == m.layer;
    assert u.store == m.store[sh.id := sh];
    assert sh.id !in m.layer.order;
  }

  /** Three adds, two undos and one redo leave the shapes of the first two
      adds: undo takes back the newest edit first, and redo brings back the
      most recently undone one. */
  lemma UndoRedoIsLifo(m: ShapeManager, s1: DrawnShape, s2: DrawnShape, s3: DrawnShape)
    requires Valid(m) && AddShape(m, s1).Ok?
    requires AddShape(AddShape(m, s1).value, s2).Ok?
    requires AddShape(AddShape(AddShape(m, s1).value, s2).value, s3).Ok?
    ensures var m3 := AddShape(AddShape(AddShape(m, s1).value, s2).value, s3).value;
            var u1 := UndoStep(m3).1;
            var u2 := UndoStep(u1).1;
            var r := RedoStep(u2).1;
            && Shapes(m3) == Shapes(m) + [s1, s2, s3]
            && UndoStep(m3).0 && UndoStep(u1).0 && Known(u2) && Shapes(u2) == Shapes(m) + [s1]
            && RedoStep(u2).0 && Known(r) && Shapes(r) == Shapes(m) + [s1, s2]
            && CanUndo(r) && CanRedo(r)
  {
    var m1 := AddShape(m, s1).value;
    LifoAdds(m, s1, s2, s3);
    LifoLayers(m, s1, s2, s3);
    LifoRestores(m1, s2, s3);
  }

  /** The three adds append their shapes in order. */
  lemma LifoAdds(m: ShapeManager, s1: DrawnShape, s2: DrawnShape, s3: DrawnShape)
    requires WellFormed(m) && AddShape(m, s1).Ok?
    requires AddShape(AddShape(m, s1).value, s2).Ok?
    requires AddShape(AddShape(AddShape(m, s1).value, s2).value, s3).Ok?
    ensures var m2 := AddShape(AddShape(m, s1).value, s2).value;
            && Shapes(m2) == Shapes(m) + [s1, s2]
            && Shapes(AddShape(m2, s3).value) == Shapes(m) + [s1, s2, s3]
  {
    var m1 := AddShape(m, s1).value;
    var m2 := AddShape(m1, s2).value;
    var m3 := AddShape(m2, s3).value;
    AppendInTurn(Shapes(m), s1, s2, s3);
  }

  /** After the two undos and the redo the stored shapes still agree with
      those of the layers they return to. */
  lemma LifoRestores(m1: ShapeManager, s2: DrawnShape, s3: DrawnShape)
    requires WellFormed(m1) && AddShape(m1, s2).Ok? && AddShape(AddShape(m1, s2).value, s3).Ok?
    ensures var m2 := AddShape(m1, s2).value;
            var m3 := AddShape(m2, s3).value;
            forall u: ShapeManager :: u.store == m3.store && u.layer == m1.layer ==>
              Known(u) && Shapes(u) == Shapes(m1)
    ensures var m2 := AddShape(m1, s2).value;
            var m3 := AddShape(m2, s3).value;
            forall u: ShapeManager :: u.store == m3.store && u.layer == m2.layer ==>
              Known(u) && Shapes(u) == Shapes(m2)
  {
    var m2 := AddShape(m1, s2).value;
    var m3 := AddShape(m2, s3).value;
    forall u: ShapeManager | u.store == m3.store && u.layer == m1.layer
      ensures Known(u) && Shapes(u) == Shapes(m1)
    {
      SameShapes(m1, u);
    }
    forall u: ShapeManager | u.store == m3.store && u.layer == m2.layer
      ensures Known(u) && Shapes(u) == Shapes(m2)
    {
      SameShapes(m2, u);
    }
  }

  /** The layers the LIFO scenario passes through: each undo restores the
      layer before the matching add, and the redo re-applies the second add. */
  lemma AddStep(m: ShapeManager, sh: DrawnShape)
    requires WellFormed(m) && SelfKeyed(m.store) && OwnersUnique(m.store)
    requires m.layer.surface == PlotsOf(m.store, m.layer.order)
    requires EditsAgree(m.store, m.undoStack)
    requires AddShape(m, sh).Ok?
    ensures var r := AddShape(m, sh).value;
            && WellFormed(r) && SelfKeyed(r.store) && OwnersUnique(r.store)
            && r.layer.surface == PlotsOf(r.store, r.layer.order)
            && EditsAgree(r.store, r.undoStack)
            && Applicable(Added(sh.id, sh.plottable), m.layer)
            && r.layer == Apply(Added(sh.id, sh.plottable), m.layer)
            && r.undoStack == m.undoStack + [Added(sh.id, sh.plottable)]
            && r.store == m.store[sh.id := sh]
  {
    AddShapeKeepsStore(m, sh);
    AddedIsApplicable(m, sh);
  }

  lemma LifoLayers(m: ShapeManager, s1: DrawnShape, s2: DrawnShape, s3: DrawnShape)
    requires WellFormed(m) && SelfKeyed(m.store) && OwnersUnique(m.store)
    requires m.layer.surface == PlotsOf(m.store, m.layer.order)
    requires EditsAgree(m.store, m.undoStack)
    requires AddShape(m, s1).Ok?
    requires AddShape(AddShape(m, s1).value, s2).Ok?
    requires AddShape(AddShape(AddShape(m, s1).value, s2).value, s3).Ok?
    ensures var m1 := AddShape(m, s1).value;
            var m2 := AddShape(m1, s2).value;
            var m3 := AddShape(m2, s3).value;
            var u1 := UndoStep(m3).1;
            var u2 := UndoStep(u1).1;
            && UndoStep(m3).0 && UndoStep(u1).0 && RedoStep(u2).0
            && u2.layer == m1.layer && u2.store == m3.store
            && RedoStep(u2).1.layer == m2.layer
  {
    var m1 := AddShape(m, s1).value;
    AddStep(m, s1);
    var m2 := AddShape(m1, s2).value;
    AddStep(m1, s2);
    var m3 := AddShape(m2, s3).value;
    AddStep(m2, s3);
    var e2 := Added(s2.id, s2.plottable);
    var e3 := Added(s3.id, s3.plottable);
    RevertApply(e3, m2.layer);
    RevertApply(e2, m1.layer);
    UndoTop(m3, m2.undoStack, e3);
    var u1 := UndoStep(m3).1;
    UndoTop(u1, m1.undoStack, e2);
    var u2 := UndoStep(u1).1;
    RedoTop(u2, m3.redoStack + [e3], e2);
  }

  /** Undo takes back the edit on top of the undo stack. */
  lemma UndoTop(m: ShapeManager, rest: seq<Edit>, e: Edit)
    requires m.undoStack == rest + [e]
    ensures UndoStep(m) == (true, m.(layer := Revert(e, m.layer), undoStack := rest,
                                 redoStack := m.redoStack + [e]))
  {
    assert m.undoStack[..|m.undoStack| - 1] == rest;
  }

  /** Redo re-applies the edit on top of the redo stack. */
  lemma RedoTop(m: ShapeManager, rest: seq<Edit>, e: Edit)
    requires m.redoStack == rest + [e]
    ensures RedoStep(m) == (true, m.(layer := Apply(e, m.layer), undoStack := m.undoStack + [e],
                                 redoStack := rest))
  {
    assert m.redoStack[..|m.redoStack| - 1] == rest;
  }

  /** Two managers that list the same ids and agree on those ids' shapes show
      the same shapes. */
  lemma SameShapes(a: ShapeManager, b: ShapeManager)
    requires Known(a) && a.layer.order == b.layer.order
    requires forall id :: id in a.layer.order ==> id in b.store && b.store[id] == a.store[id]
    ensures Known(b) && Shapes(a) == Shapes(b)
  {
  }

  /** Undo right after a delete brings the shape back where it was. */
  lemma UndoAfterDelete(m: ShapeManager, sh: DrawnShape)
    requires Valid(m) && DeleteShape(m, sh).Ok?
    ensures var (ok, u) := UndoStep(DeleteShape(m, sh).value);
            && ok && u.layer == m.layer && Known(u) && Shapes(u) == Shapes(m)
            && sh.id in u.layer.order && u.undoStack == m.undoStack && CanRedo(u)
  {
    var e := DeletedAt(m, sh.id);
    PlotsAfterRemove(m.store, m.layer.order, sh.id);
    RevertApply(e, m.layer);
    var r := DeleteShape(m, sh).value;
    assert r.undoStack[..|m.undoStack|] == m.undoStack;
  }

  /** A managed shape that is deleted can be added again: it goes back on
      the list, at the end, as one more undoable step, and the invariant
      holds throughout. */
  lemma ReAddAfterDelete(m: ShapeManager, sh: DrawnShape)
    requires Valid(m) && m.attached && sh in Shapes(m)
    ensures DeleteShape(m, sh).Ok?
    ensures var d := DeleteShape(m, sh).value;
            && Valid(d) && AddShape(d, sh).Ok? && Valid(AddShape(d, sh).value)
            && Shapes(AddShape(d, sh).value) == Shapes(d) + [sh]
            && |AddShape(d, sh).value.undoStack| == |m.undoStack| + 2
  {
    ShapesMembers(m, sh);
    var id :| id in m.layer.order && m.store[id] == sh;
    assert id == sh.id;
    var d := DeleteShape(m, sh).value;
    DeleteShapeKeepsValid(m, sh);
    assert !OwnedByOther(d, sh.id, sh.plottable);
    AddShapeKeepsValid(d, sh);
  }

  /** Before attach every mutating operation is refused with NotAttached,
      and attaching is the one step that succeeds. */
  lemma UnattachedRefuses(m: ShapeManager, sh: DrawnShape)
    requires WellFormed(m) && !m.attached
    ensures AddShape(m, sh) == Err(NotAttached) && DeleteShape(m, sh) == Err(NotAttached)
    ensures Undo(m) == Err(NotAttached) && Redo(m) == Err(NotAttached)
    ensures ToggleSelection(m, sh) == Err(NotAttached) && ClearSelection(m) == Err(NotAttached)
    ensures DeleteSelectedShapes(m) == Err(NotAttached)
    ensures Attach(m).Ok?
  {
  }

  /** Undo and redo on empty histories report false and change nothing. */
  lemma EmptyHistory(m: ShapeManager)
    requires m.undoStack == [] && m.redoStack == []
    ensures UndoStep(m) == (false, m) && RedoStep(m) == (false, m)
  {
  }

  /** A new add after an undo discards the redo history. */
  lemma AddAfterUndoClearsRedo(m: ShapeManager, sh: DrawnShape)
    requires Valid(m) && CanUndo(m)
    ensures Valid(UndoStep(m).1) && CanRedo(UndoStep(m).1)
    ensures AddShape(UndoStep(m).1, sh).Ok? ==> !CanRedo(AddShape(UndoStep(m).1, sh).value)
  {
    UndoKeepsValid(m);
  }

  /** Selection flips are involutions and never disturb the history. */
  lemma {:induction false} ToggleTwice(m: ShapeManager, sh: DrawnShape)
    ensures ToggleStep(ToggleStep(m, sh), sh) == m
    ensures m.attached ==> ToggleSelection(ToggleSelection(m, sh).value, sh) == Ok(m)
  {
    var t := ToggleStep(ToggleStep(m, sh), sh);
    assert t.store.Keys == m.store.Keys;
    forall id | id in m.store
      ensures t.store[id] == m.store[id]
    {
    }
  }

  /** Changing only selection and visibility flags keeps the invariant. */
  lemma FlagsOnlyKeepsValid(m: ShapeManager, r: ShapeManager)
    requires Valid(m)
    requires r.attached == m.attached && r.layer == m.layer
    requires r.undoStack == m.undoStack && r.redoStack == m.redoStack
    requires r.store.Keys == m.store.Keys
    requires forall id :: id in m.store ==> SameButFlags(m.store[id], r.store[id])
    ensures Valid(r)
  {
    FlagsOnlyKeepsStore(m.store, r.store, m.layer.order);
  }

  lemma FlagsOnlyKeepsStore(store: map<Id, DrawnShape>, store': map<Id, DrawnShape>, order: seq<Id>)
    requires forall x :: x in order ==> x in store
    requires store'.Keys == store.Keys
    requires forall id :: id in store ==> SameButFlags(store[id], store'[id])
    ensures PlotsOf(store', order) == PlotsOf(store, order)
    ensures SelfKeyed(store) ==> SelfKeyed(store')
    ensures OwnersUnique(store) ==> OwnersUnique(store')
    ensures forall es :: EditsAgree(store, es) ==> EditsAgree(store', es)
  {
    assert forall id :: id in store ==> store'[id].plottable == store[id].plottable;
  }

  /** Toggling, clearing and writing the flags directly keep the invariant. */
  lemma SelectionKeepsValid(m: ShapeManager, sh: DrawnShape, id: Id, b: bool)
    requires Valid(m)
    ensures Valid(ToggleStep(m, sh)) && Valid(ClearStep(m))
    ensures Valid(SetSelectedOf(m, id, b)) && Valid(SetVisibleOf(m, id, b))
  {
    FlagsOnlyKeepsValid(m, ToggleStep(m, sh));
    FlagsOnlyKeepsValid(m, ClearStep(m));
    FlagsOnlyKeepsValid(m, SetSelectedOf(m, id, b));
    FlagsOnlyKeepsValid(m, SetVisibleOf(m, id, b));
  }

  /** Selecting a managed shape directly puts it among the selected shapes,
      and clearing it takes it out; the list itself is unchanged apart from
      that shape's flag. */
  lemma SetSelectedShows(m: ShapeManager, id: Id, b: bool)
    requires Known(m) && id in m.layer.order
    ensures var r := SetSelectedOf(m, id, b);
            && Known(r) && |Shapes(r)| == |Shapes(m)|
            && (r.store[id] in SelectedShapes(r) <==> b)
            && r.store[id] == SetSelected(m.store[id], b)
  {
    var r := SetSelectedOf(m, id, b);
    var i :| 0 <= i < |m.layer.order| && m.layer.order[i] == id;
    assert Shapes(r)[i] == r.store[id];
  }

  /** Flag writes on the manager: the last write wins and writing the
      current value changes nothing. */
  lemma FlagWritesOf(m: ShapeManager, id: Id, a: bool, b: bool)
    ensures SetSelectedOf(SetSelectedOf(m, id, a), id, b) == SetSelectedOf(m, id, b)
    ensures SetVisibleOf(SetVisibleOf(m, id, a), id, b) == SetVisibleOf(m, id, b)
    ensures id in m.store ==> SetSelectedOf(m, id, m.store[id].isSelected) == m
    ensures id in m.store ==> SetVisibleOf(m, id, m.store[id].isVisible) == m
  {
    SelectedWritesOf(m, id, a, b);
    VisibleWritesOf(m, id, a, b);
  }

  lemma SelectedWritesOf(m: ShapeManager, id: Id, a: bool, b: bool)
    ensures SetSelectedOf(SetSelectedOf(m, id, a), id, b) == SetSelectedOf(m, id, b)
    ensures id in m.store ==> SetSelectedOf(m, id, m.store[id].isSelected) == m
  {
    if id in m.store {
      var s := m.store[id];
      FlagWrites(s, a, b);
      var once := m.store[id := SetSelected(s, a)];
      assert once[id := SetSelected(once[id], b)] == m.store[id := SetSelected(s, b)];
      assert m.store[id := SetSelected(s, s.isSelected)] == m.store;
    }
  }

  lemma VisibleWritesOf(m: ShapeManager, id: Id, a: bool, b: bool)
    ensures SetVisibleOf(SetVisibleOf(m, id, a), id, b) == SetVisibleOf(m, id, b)
    ensures id in m.store ==> SetVisibleOf(m, id, m.store[id].isVisible) == m
  {
    if id in m.store {
      var s := m.store[id];
      FlagWrites(s, a, b);
      var once := m.store[id := SetVisible(s, a)];
      assert once[id := SetVisible(once[id], b)] == m.store[id := SetVisible(s, b)];
      assert m.store[id := SetVisible(s, s.isVisible)] == m.store;
    }
  }

  /** After clearing, no managed shape is selected; the list is otherwise
      the same shapes in the same order. */
  lemma ClearSelectionClears(m: ShapeManager)
    requires Known(m)
    ensures Known(ClearStep(m))
    ensures SelectedShapes(ClearStep(m)) == []
    ensures var c := Shapes(ClearStep(m));
            |c| == |Shapes(m)| &&
            forall i :: 0 <= i < |c| ==> c[i] == SetSelected(Shapes(m)[i], false)
  {
    var c := Shapes(ClearStep(m));
    assert forall s :: s in c ==> !s.isSelected;
    NoneSelected(c);
  }

  lemma NoneSelected(ss: seq<DrawnShape>)
    requires forall s :: s in ss ==> !s.isSelected
    ensures SelectedOf(ss) == []
  {
  }
}
