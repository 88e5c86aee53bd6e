/** The main window's keyboard shortcuts and its draw-mode status text.
    Button styling and the status strip itself are not modelled. */
module Keyboard {
  import opened Wrappers
  import opened Geometry
  import opened Strategies
  import opened ShapeManagement
  import I = Interactions

  /** The keys the window reacts to; every other key is `Other`. */
  datatype Key = Z | Y | Delete | Escape | Digit(n: nat) | NumPad(n: nat) | Other

  datatype KeyEvent = KeyEvent(key: Key, control: bool, shift: bool)

  /** The controller after the key, and the event's two flags: handled, and
      suppress the key press. */
  datatype Outcome = Outcome(controller: I.Controller, handled: bool, suppress: bool)

  predicate IsUndoChord(e: KeyEvent) { e.control && e.key == Z && !e.shift }

  predicate IsRedoChord(e: KeyEvent)
  {
    (e.control && e.key == Y) || (e.control && e.shift && e.key == Z)
  }

  /** The mode a number key arms: 1 to 6, on the main row or the keypad, in
      toolbar order. */
  function NumberMode(k: Key): (r: Option<DrawMode>)
    ensures r.Some? <==> (k.Digit? && 1 <= k.n <= 6) || (k.NumPad? && 1 <= k.n <= 6)
  {
    match k
    case Digit(n) => DigitMode(n)
    case NumPad(n) => DigitMode(n)
    case _ => Option.None
  }

  function DigitMode(n: nat): (r: Option<DrawMode>)
    ensures r.Some? <==> 1 <= n <= 6
  {
    if n == 1 then Some(TrendLine)
    else if n == 2 then Some(HorizontalLine)
    else if n == 3 then Some(VerticalLine)
    else if n == 4 then Some(Rectangle)
    else if n == 5 then Some(Circle)
    else if n == 6 then Some(FibonacciRetracement)
    else Option.None
  }

  /** Dispatches one key press. Undo and redo chords are handled (and the
      press suppressed) only when there was something to undo or redo;
      Delete deletes the selected shapes and Escape disarms the mode, both
      always handled and suppressed; a number key arms its mode and is
      handled but not suppressed; any other key changes nothing. The
      manager's refusal to undo, redo or delete before attach reaches the
      caller. */
  function KeyDown(c: I.Controller, e: KeyEvent): (r: Result<Outcome, ManagerError>)
    requires WellFormed(c.manager)
    ensures r.Err? <==> !IsAttached(c.manager) && (IsUndoChord(e) || IsRedoChord(e) || e.key == Delete)
    ensures r.Err? ==> r.error == NotAttached
    ensures r.Ok? ==> (r.value.suppress ==> r.value.handled)
    ensures IsUndoChord(e) && r.Ok? ==>
              && r.value.handled == r.value.suppress == CanUndo(c.manager)
              && r.value.controller == c.(manager := UndoStep(c.manager).1)
    ensures IsRedoChord(e) && r.Ok? ==>
              && r.value.handled == r.value.suppress == CanRedo(c.manager)
              && r.value.controller == c.(manager := RedoStep(c.manager).1)
    ensures e.key == Delete && r.Ok? ==>
              && r.value.handled && r.value.suppress
              && r.value.controller == c.(manager := DeleteSelectedStep(c.manager))
    ensures e.key == Escape ==>
              && r == Ok(Outcome(I.Escape(c), true, true))
              && r.value.controller.manager == c.manager
              && r.value.controller.mode == DrawMode.None && r.value.controller.drag.None?
    ensures NumberMode(e.key).Some? ==>
              && r == Ok(Outcome(I.SetDrawMode(c, NumberMode(e.key).value), true, false))
              && r.value.controller.manager == c.manager
              && r.value.controller.mode == NumberMode(e.key).value
    ensures (!IsUndoChord(e) && !IsRedoChord(e) && e.key != Delete && e.key != Escape
             && NumberMode(e.key).None?) ==> r == Ok(Outcome(c, false, false))
  {
    if IsUndoChord(e) then
      match I.Undo(c)
      case Err(x) => Err(x)
      case Ok((ok, c')) => Ok(Outcome(c', ok, ok))
    else if IsRedoChord(e) then
      match I.Redo(c)
      case Err(x) => Err(x)
      case Ok((ok, c')) => Ok(Outcome(c', ok, ok))
    else if e.key == Delete then
      match I.DeleteSelected(c)
      case Err(x) => Err(x)
      case Ok(c') => Ok(Outcome(c', true, true))
    else if e.key == Escape then
      Ok(Outcome(I.Escape(c), true, true))
    else match NumberMode(e.key)
      case Some(mode) => Ok(Outcome(I.SetDrawMode(c, mode), true, false))
      case None => Ok(Outcome(c, false, false))
  }

  /** No key arms Fibonacci extension, and every mode a key arms has a
      drawing strategy. */
  lemma NoKeyArmsExtension(c: I.Controller, e: KeyEvent)
    requires WellFormed(c.manager)
    ensures KeyDown(c, e).Ok? && KeyDown(c, e).value.controller.mode == FibonacciExtension ==>
              c.mode == FibonacciExtension
    ensures NumberMode(e.key).Some? ==> CreateStrategy(NumberMode(e.key).value).Some?
  {
  }

  /** The digits pick the six drawable modes, one each, in toolbar order,
      and the keypad agrees with the main row. */
  lemma DigitsCoverDrawableModes(m: DrawMode, n: nat)
    ensures CreateStrategy(m).Some? <==> exists k :: 1 <= k <= 6 && DigitMode(k) == Some(m)
    ensures NumberMode(Digit(n)) == NumberMode(NumPad(n))
  {
    if CreateStrategy(m).Some? {
      var k := match m
        case TrendLine => 1
        case HorizontalLine => 2
        case VerticalLine => 3
        case Rectangle => 4
        case Circle => 5
        case _ => 6;
      assert DigitMode(k) == Some(m);
    }
  }

  /** The status-bar label of a mode: spaced words for the drawable modes,
      "Fibonacci" for the retracement, and the member's own name otherwise. */
  function ModeLabel(m: DrawMode): (r: string)
    ensures m == TrendLine ==> r == "Trend Line"
    ensures m == FibonacciRetracement ==> r == "Fibonacci"
    ensures r == ModeName(m) <==> m in {DrawMode.None, Rectangle, Circle, FibonacciExtension}
    ensures r != []
  {
    match m
    case None => "None"
    case TrendLine => "Trend Line"
    case HorizontalLine => "Horizontal Line"
    case VerticalLine => "Vertical Line"
    case Rectangle => "Rectangle"
    case Circle => "Circle"
    case FibonacciRetracement => "Fibonacci"
    case _ => ModeName(m)
  }

  /** The text of the status label for a mode. */
  function StatusText(m: DrawMode): (r: string)
    ensures |r| > 6 && r[..6] == "Mode: " && r[6..] == ModeLabel(m)
  {
    "Mode: " + ModeLabel(m)
  }

  /** The status text starts with "Mode: ", falls back to the member's name
      for the unlisted mode, and tells the modes apart. */
  lemma StatusTextNamesMode(m: DrawMode, m': DrawMode)
    ensures StatusText(m)[..6] == "Mode: " && StatusText(m)[6..] == ModeLabel(m)
    ensures m == FibonacciExtension ==> ModeLabel(m) == "FibonacciExtension"
    ensures StatusText(m) == StatusText(m') <==> m == m'
  {
    if StatusText(m) == StatusText(m') {
      assert ModeLabel(m) == StatusText(m)[6..] == StatusText(m')[6..] == ModeLabel(m');
    }
  }

  /** The status texts of the trend line and the retracement, in full. */
  lemma StatusTexts()
    ensures StatusText(TrendLine) == "Mode: Trend Line"
    ensures StatusText(FibonacciRetracement) == "Mode: Fibonacci"
  {
    assert StatusText(TrendLine) == "Mode: " + "Trend Line";
    assert StatusText(FibonacciRetracement) == "Mode: " + "Fibonacci";
  }
}
