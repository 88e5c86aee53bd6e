/** The reversible edits the shape manager records, acting in tandem on the
    ordered list of managed shape ids and on the drawing surface, and the
    stack invariants that make undo and redo exact inverses. */
module Edits {
  import opened Geometry
  import opened Seqs
  import Commands

  /** What the edits touch: the managed shape ids in insertion order, and
      the primitives registered on the surface. */
  datatype Layer = Layer(order: seq<Id>, surface: set<Plottable>)

  /** An add or a delete of one shape, with the primitive it owns; a delete
      remembers the position it removed the shape from. */
  datatype Edit =
    | Added(id: Id, plottable: Plottable)
    | Deleted(id: Id, plottable: Plottable, at: nat)

  /** The surface command an edit carries out. */
  function CommandOf(e: Edit): (c: Commands.Command)
    ensures c.plottable == e.plottable
    ensures c.AddShapeCommand? <==> e.Added?
  {
    match e
    case Added(_, p) => Commands.AddShapeCommand(p)
    case Deleted(_, p, _) => Commands.DeleteShapeCommand(p)
  }

  /** Carries out an edit: an add appends its id (unless already present) and
      registers the primitive; a delete removes the id and unregisters it. */
  function Apply(e: Edit, l: Layer): (r: Layer)
    ensures e.Added? ==> e.id in r.order && e.plottable in r.surface
    ensures e.Deleted? ==> e.plottable !in r.surface
    ensures r.surface - {e.plottable} == l.surface - {e.plottable}
    ensures e.Deleted? && Distinct(l.order) ==> e.id !in r.order && Distinct(r.order)
    ensures e.Added? && e.id !in l.order ==> r.order == l.order + [e.id]
    ensures e.Added? && e.id in l.order ==> r.order == l.order
    ensures e.Deleted? && e.id in l.order ==>
              var i := IndexOf(l.order, e.id);
              r.order == l.order[..i] + l.order[i + 1..]
    ensures e.Deleted? && e.id !in l.order ==> r.order == l.order
  {
    var surface := Commands.Execute(CommandOf(e), l.surface);
    match e
    case Added(id, _) =>
      Layer(if id in l.order then l.order else l.order + [id], surface)
    case Deleted(id, _, _) =>
      DistinctRemoveFacts(l.order, id);
      if id in l.order then RemoveAtIndex(l.order, id); Layer(Remove(l.order, id), surface)
      else Layer(Remove(l.order, id), surface)
  }

  lemma DistinctRemoveFacts(xs: seq<Id>, x: Id)
    ensures Distinct(xs) ==> Distinct(Remove(xs, x)) && x !in Remove(xs, x)
  {
    if Distinct(xs) {
      DistinctRemove(xs, x);
    }
  }

  /** Takes an edit back: an add's id is removed and its primitive
      unregistered; a deleted id goes back to its old position and its
      primitive is registered again. */
  function Revert(e: Edit, l: Layer): (r: Layer)
    ensures e.Added? ==> e.plottable !in r.surface
    ensures e.Deleted? ==> e.id in r.order && e.plottable in r.surface
    ensures r.surface - {e.plottable} == l.surface - {e.plottable}
    ensures e.Added? && Distinct(l.order) ==> e.id !in r.order
    ensures e.Added? && e.id in l.order ==>
              var i := IndexOf(l.order, e.id);
              r.order == l.order[..i] + l.order[i + 1..]
    ensures e.Added? && e.id !in l.order ==> r.order == l.order
    ensures e.Deleted? && e.at <= |l.order| ==>
              r.order == l.order[..e.at] + [e.id] + l.order[e.at..]
    ensures e.Deleted? && e.at > |l.order| ==> r.order == l.order + [e.id]
  {
    var surface := Commands.Undo(CommandOf(e), l.surface);
    match e
    case Added(id, _) =>
      DistinctRemoveFacts(l.order, id);
      if id in l.order then RemoveAtIndex(l.order, id); Layer(Remove(l.order, id), surface)
      else Layer(Remove(l.order, id), surface)
    case Deleted(id, _, at) =>
      var r := Layer(InsertAt(l.order, at, id), surface);
      if at <= |l.order| then InsertAtSplit(l.order, at, id); r else r
  }

  /** The layers an edit can be carried out on so that it can be taken back:
      an add of an id and a primitive not yet present; a delete of the id at
      position `at` whose primitive is registered. */
  predicate Applicable(e: Edit, l: Layer)
  {
    && Distinct(l.order)
    && match e
       case Added(id, p) => id !in l.order && p !in l.surface
       case Deleted(id, p, at) => at < |l.order| && l.order[at] == id && p in l.surface
  }

  /** Revert undoes Apply exactly, and the result stays duplicate-free. */
  lemma {:induction false} RevertApply(e: Edit, l: Layer)
    requires Applicable(e, l)
    ensures Revert(e, Apply(e, l)) == l
    ensures Distinct(Apply(e, l).order)
  {
    Commands.UndoAfterExecute(CommandOf(e), l.surface);
    match e
    case Added(id, p) =>
      RemoveAppended(l.order, id);
    case Deleted(id, p, at) =>
      DistinctRemoveFacts(l.order, id);
      InsertRemoved(l.order, at, id);
  }

  /** Apply undoes Revert exactly: re-doing the newest add, or a delete whose
      shape is gone from a position that still exists, restores the layer. */
  lemma ApplyRevert(e: Edit, l: Layer)
    requires Distinct(l.order)
    requires e.Added? ==> l.order != [] && l.order[|l.order| - 1] == e.id && e.plottable in l.surface
    requires e.Deleted? ==> e.id !in l.order && e.at <= |l.order| && e.plottable !in l.surface
    ensures Apply(e, Revert(e, l)) == l
  {
    match e
    case Added(id, p) => ReapplyAdd(id, p, l);
    case Deleted(id, p, at) => ReapplyDelete(id, p, at, l);
  }

  /** Re-adding the newest shape after taking its add back restores the layer. */
  lemma ReapplyAdd(id: Id, p: Plottable, l: Layer)
    requires Distinct(l.order) && l.order != [] && l.order[|l.order| - 1] == id && p in l.surface
    ensures Apply(Added(id, p), Revert(Added(id, p), l)) == l
  {
    var front := l.order[..|l.order| - 1];
    assert l.order == front + [id];
    assert id !in front by {
      forall k | 0 <= k < |front|
        ensures front[k] != id
      {
        assert front[k] == l.order[k];
      }
    }
    RemoveAppended(front, id);
    assert Revert(Added(id, p), l) == Layer(front, l.surface - {p});
    assert (l.surface - {p}) + {p} == l.surface;
  }

  /** Deleting again a shape whose delete was taken back restores the layer. */
  lemma ReapplyDelete(id: Id, p: Plottable, at: nat, l: Layer)
    requires id !in l.order && at <= |l.order| && p !in l.surface
    ensures Apply(Deleted(id, p, at), Revert(Deleted(id, p, at), l)) == l
  {
    RemoveInserted(l.order, at, id);
    assert Revert(Deleted(id, p, at), l) == Layer(InsertAt(l.order, at, id), l.surface + {p});
    assert (l.surface + {p}) - {p} == l.surface;
  }

  /** The undo stack is consistent with layer `l`: taking back its top edit
      gives a layer the edit applies to and re-applying it returns to `l`,
      and so on down the stack. */
  ghost predicate History(l: Layer, undo: seq<Edit>)
    decreases |undo|
  {
    && Distinct(l.order)
    && (undo != [] ==>
          var e := undo[|undo| - 1];
          var prev := Revert(e, l);
          && Applicable(e, prev)
          && Apply(e, prev) == l
          && History(prev, undo[..|undo| - 1]))
  }

  /** The redo stack is consistent with layer `l`: its top edit applies to
      `l`, and the rest applies to the outcome, and so on. */
  ghost predicate Future(l: Layer, redo: seq<Edit>)
    decreases |redo|
  {
    && Distinct(l.order)
    && (redo != [] ==>
          var e := redo[|redo| - 1];
          && Applicable(e, l)
          && Future(Apply(e, l), redo[..|redo| - 1]))
  }

  /** Re-applying the top of a consistent undo stack after taking it back
      returns to the same layer. */
  lemma HistoryTop(l: Layer, undo: seq<Edit>)
    requires History(l, undo) && undo != []
    ensures Apply(undo[|undo| - 1], Revert(undo[|undo| - 1], l)) == l
  {
  }

  /** Pushing an applicable edit after carrying it out keeps the undo stack
      consistent. */
  lemma PushKeepsHistory(l: Layer, undo: seq<Edit>, e: Edit)
    requires History(l, undo) && Applicable(e, l)
    ensures History(Apply(e, l), undo + [e])
    ensures Future(Apply(e, l), [])
  {
    RevertApply(e, l);
    assert (undo + [e])[..|undo|] == undo;
  }

  /** Taking back the top of the undo stack moves it to the redo stack and
      keeps both consistent. */
  lemma UndoKeepsStacks(l: Layer, undo: seq<Edit>, redo: seq<Edit>)
    requires History(l, undo) && Future(l, redo) && undo != []
    ensures var e := undo[|undo| - 1];
            History(Revert(e, l), undo[..|undo| - 1]) && Future(Revert(e, l), redo + [e])
  {
    var e := undo[|undo| - 1];
    assert (redo + [e])[..|redo|] == redo;
  }

  /** Re-applying the top of the redo stack moves it back to the undo stack
      and keeps both consistent. */
  lemma RedoKeepsStacks(l: Layer, undo: seq<Edit>, redo: seq<Edit>)
    requires History(l, undo) && Future(l, redo) && redo != []
    ensures var e := redo[|redo| - 1];
            History(Apply(e, l), undo + [e]) && Future(Apply(e, l), redo[..|redo| - 1])
  {
    var e := redo[|redo| - 1];
    PushKeepsHistory(l, undo, e);
  }
}
