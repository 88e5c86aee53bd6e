/** The two reversible commands over a drawing surface. The surface is the
    set of registered primitives (duplicate-free); a command registers or
    unregisters one primitive. */
module Commands {
  import opened Geometry

  type Surface = set<Plottable>

  datatype Command = AddShapeCommand(plottable: Plottable) | DeleteShapeCommand(plottable: Plottable)

  /** Registers (add) or unregisters (delete) the command's primitive;
      every other primitive stays as it was. */
  function Execute(c: Command, s: Surface): (r: Surface)
    ensures c.AddShapeCommand? ==> c.plottable in r
    ensures c.DeleteShapeCommand? ==> c.plottable !in r
    ensures r - {c.plottable} == s - {c.plottable}
    ensures c.AddShapeCommand? && c.plottable !in s ==> |r| == |s| + 1
    ensures c.DeleteShapeCommand? && c.plottable in s ==> |r| == |s| - 1
  {
    match c
    case AddShapeCommand(p) => s + {p}
    case DeleteShapeCommand(p) => s - {p}
  }

  /** The inverse of `Execute`: delete for an add, restore for a delete. */
  function Undo(c: Command, s: Surface): (r: Surface)
    ensures c.AddShapeCommand? ==> c.plottable !in r
    ensures c.DeleteShapeCommand? ==> c.plottable in r
    ensures r - {c.plottable} == s - {c.plottable}
    ensures c.AddShapeCommand? && c.plottable in s ==> |r| == |s| - 1
    ensures c.DeleteShapeCommand? && c.plottable !in s ==> |r| == |s| + 1
  {
    match c
    case AddShapeCommand(p) => s - {p}
    case DeleteShapeCommand(p) => s + {p}
  }

  /** The surface a command may start from: an add's primitive is not yet
      registered, a delete's primitive is. */
  predicate CanExecute(c: Command, s: Surface)
  {
    match c
    case AddShapeCommand(p) => p !in s
    case DeleteShapeCommand(p) => p in s
  }

  /** Undo exactly reverses Execute, and Execute exactly reverses Undo. */
  lemma UndoAfterExecute(c: Command, s: Surface)
    requires CanExecute(c, s)
    ensures Undo(c, Execute(c, s)) == s
    ensures Execute(c, Undo(c, Execute(c, s))) == Execute(c, s)
  {
  }

  /** The surface after `n` execute/undo cycles of one command. */
  function Cycles(c: Command, s: Surface, n: nat): Surface
    decreases n
  {
    if n == 0 then s else Cycles(c, Undo(c, Execute(c, s)), n - 1)
  }

  /** However many execute/undo cycles an add command goes through, its
      primitive is present after each Execute and absent after each Undo.
      From a surface without the primitive the surface ends where it
      started; from one where it was registered beforehand, every cycle
      ends with it gone and the rest of the surface as it was. */
  lemma {:induction false} AddCyclesAlternate(p: Plottable, s: Surface, n: nat)
    ensures p !in s ==> Cycles(AddShapeCommand(p), s, n) == s
    ensures n > 0 ==> Cycles(AddShapeCommand(p), s, n) == s - {p}
    ensures p in Execute(AddShapeCommand(p), Cycles(AddShapeCommand(p), s, n))
    ensures p !in Undo(AddShapeCommand(p), Execute(AddShapeCommand(p), Cycles(AddShapeCommand(p), s, n)))
  {
    if n > 0 {
      var once := Undo(AddShapeCommand(p), Execute(AddShapeCommand(p), s));
      assert once == s - {p};
      AddCyclesAlternate(p, once, n - 1);
      assert once - {p} == once;
    }
  }
}
