# ChartPro annotation engine — a Dafny reference model

ChartPro is a WinForms charting application whose annotation engine lets a
user draw trend lines, horizontal and vertical lines, rectangles, circles and
Fibonacci retracements on a price chart. This project models that engine as
immutable datatypes and pure functions, and proves the behaviour its xUnit
suites and its main window promise. The engine's implementation classes are
not part of this model. Its contracts come from the test suites that pin them
down and from the keyboard and status-label code of `ChartPro/MainForm.cs`.

The model covers:

- **Shape entity** (`ShapeEntity`, `shapes.dfy`). A shape is a fresh non-zero
  id, a primitive, the draw mode that produced it, and visibility and
  selection flags. Construction from an absent primitive fails.
- **Commands** (`Commands`, `commands.dfy`). Add and delete commands register
  and unregister a primitive on a drawing surface. The surface is a set of
  primitives, each carrying a reference handle.
- **Shape manager** (`ShapeManagement`, `manager.dfy`, with proofs in
  `ShapeManagerProofs`, `manager_proofs.dfy`).
  - It attaches once. It holds the managed shapes in insertion order, the
    surface, and undo/redo stacks of edits (`Edits`, `edits.dfy`).
  - Add, delete, undo and redo are modelled, along with toggling and clearing
    the selection, writing a held shape's selection and visibility flags,
    the selected-shapes filter and deleting the selected shapes.
  - Each operation that needs an attached chart fails with `NotAttached`
    before attach. Its unchecked step (`UndoStep`, `ToggleStep`, …) is what
    it does once attached.
  - A representation invariant `Valid` is preserved by every operation. Under
    it, undo and redo are exact inverses.
- **Draw strategies and their factory** (`Strategies`, `strategies.dfy`). The
  factory is a total match from draw mode to an optional strategy. Each
  strategy builds a width-1 preview and a width-2 final primitive from a
  start and an end point.
- **Persistence mapper** (`Persistence`, `persistence.dfy`).
  - A `ChartAnnotations` document (version 1, one record per shape) is saved
    and loaded over an already-parsed document.
  - Unknown shape types are skipped.
  - A load replaces all shapes and clears the history. A null document
    changes nothing. Errors are typed.
- **Interaction controller** (`Interactions`, `interactions.dfy`).
  - It holds the draw mode, snap settings, bound candles, and the drag in
    progress.
  - A pointer down/up pair in an armed mode adds exactly one shape as an
    undoable step.
- **Keyboard dispatch and status label** (`Keyboard`, `keyboard.dfy`).
  - The undo/redo chords, Delete, Escape and the number keys 1 to 6.
  - The "Mode: …" status text.

Sequences of managed ids (`Seqs`, `seqs.dfy`), points and figures
(`Geometry`, `geometry.dfy`) and `Option`/`Result` (`Wrappers`,
`wrappers.dfy`) are supporting definitions.

## Model

| member | source | states |
|---|---|---|
| ShapeEntity.NewShape | ChartPro.Tests/DrawnShapeTests.cs:10-27 | a shape built from a present primitive keeps that primitive and mode, has a non-zero id drawn fresh from the id source, is visible and unselected; an absent primitive is the only failure |
| ShapeEntity.SetSelected | ChartPro.Tests/DrawnShapeTests.cs:30-42 | writing the selection flag is read back, and id, primitive, mode and visibility are untouched |
| ShapeEntity.SetVisible | ChartPro.Tests/DrawnShapeTests.cs:45-57 | writing the visibility flag is read back, and id, primitive, mode and selection are untouched |
| ShapeEntity.FlagWrites | ChartPro.Tests/DrawnShapeTests.cs:30-57 | for either flag the last write wins and writing the current value changes nothing; the two flags commute and leave identity, primitive and mode alone |
| ShapeEntity.NewShapes | ChartPro.Tests/DrawnShapeTests.cs:67-80 | shapes built in a row carry their primitives and modes in order, with strictly increasing fresh ids |
| ShapeEntity.SuccessiveShapesDiffer | ChartPro.Tests/DrawnShapeTests.cs:67-80 | two shapes constructed one after the other have distinct, non-empty ids |
| Commands.Execute | ChartPro.Tests/CommandTests.cs:22-72 | an add registers its primitive and a delete unregisters it; no other primitive changes; the surface grows by one for an absent add and shrinks by one for a present delete |
| Commands.Undo | ChartPro.Tests/CommandTests.cs:39-91 | undoing an add unregisters the primitive, undoing a delete registers it again; nothing else changes; the counts move by one in the matching cases |
| Commands.UndoAfterExecute | ChartPro.Tests/CommandTests.cs:39-91 | from a surface the command can run on, Undo after Execute restores the surface exactly, and Execute after that gives the executed surface again |
| Commands.AddCyclesAlternate | ChartPro.Tests/CommandTests.cs:94-109 | from any surface, including one where the primitive was registered beforehand, after any number of execute/undo cycles an add command's primitive is present after Execute and absent after Undo; each cycle leaves the rest of the surface as it was, so a surface without the primitive is back where it started |
| Edits.CommandOf | ChartPro.Tests/CommandTests.cs:22-91 | each recorded edit carries out the surface command of its own kind on its own primitive |
| Edits.Apply | ChartPro.Tests/ShapeManagerTests.cs:63-247 | an add appends its shape to the end of the managed list and registers its primitive; a delete cuts the shape out of its position, keeping the other shapes in their order, and unregisters its primitive; no other primitive changes and the list stays duplicate-free |
| Edits.Revert | ChartPro.Tests/ShapeManagerTests.cs:93-128 | taking back an add cuts the shape out of the list and unregisters its primitive; taking back a delete puts the shape back at the position it was deleted from, the others keeping their order, and registers its primitive again |
| Edits.ApplyRevert | ChartPro.Tests/ShapeManagerTests.cs:111-128 | re-applying the newest add, or a delete whose shape is gone and whose position still exists, right after taking it back restores the list and surface exactly |
| Edits.RevertApply | ChartPro.Tests/ShapeManagerTests.cs:222-237 | reverting an applicable edit right after applying it restores the previous list and surface exactly |
| Edits.PushKeepsHistory | ChartPro.Tests/ShapeManagerTests.cs:151-167 | recording a fresh edit keeps the undo stack consistent with the new state, and the emptied redo stack is trivially consistent |
| Edits.UndoKeepsStacks | ChartPro.Tests/ShapeManagerTests.cs:93-128 | moving the top edit from the undo stack to the redo stack keeps both stacks consistent with the reverted state |
| Edits.RedoKeepsStacks | ChartPro.Tests/ShapeManagerTests.cs:111-128 | moving the top edit from the redo stack back to the undo stack keeps both stacks consistent with the re-applied state |
| ShapeManagement.Initial | ChartPro.Tests/ShapeManagerTests.cs:16-19 | a new manager is unattached, lists no shapes, has nothing selected, and can neither undo nor redo |
| ShapeManagement.Attach | ChartPro.Tests/ShapeManagerTests.cs:29-60 | attaching succeeds exactly when not yet attached and then reports attached; a second attach fails with AlreadyAttached |
| ShapeManagement.AttachKeepsValid | ChartPro.Tests/ShapeManagerTests.cs:29-45 | attaching keeps the manager's representation invariant |
| ShapeManagement.InitialValid | ChartPro.Tests/ShapeManagerTests.cs:29-45 | a new manager satisfies the representation invariant |
| ShapeManagement.Shapes | ChartPro.Tests/ShapeManagerTests.cs:63-76 | the shape list has one entry per managed id, each the stored shape for that id, in insertion order |
| ShapeManagement.SelectedShapes | ChartPro.Tests/ShapeManagerTests.cs:309-333 | a shape is among the selected shapes exactly when it is listed and its flag is set, and the selected and unselected shapes together number the listed ones |
| ShapeManagement.SelectedOf | ChartPro.Tests/ShapeManagerTests.cs:309-333 | the selected shapes are exactly the listed shapes whose selection flag is set |
| ShapeManagement.AddShape | ChartPro.Tests/ShapeManagerTests.cs:63-90 | adding fails with NotAttached before attach, and with DuplicateShape exactly for a shape that is managed now, that comes back with a different primitive, or whose primitive another shape owns; otherwise, a deleted shape included, the list becomes the old list plus the new shape, its primitive is on the surface, the earlier history stays below one new undo step and redo is not possible |
| ShapeManagement.DeleteShape | ChartPro.Tests/ShapeManagerTests.cs:206-247 | deleting fails before attach and, with UnmanagedShape, exactly for a shape not managed; otherwise that shape alone is cut out of the list, the others keeping their order, exactly its primitive leaves the surface, and one undo step is added with no redo |
| ShapeManagement.DeleteIdCuts | ChartPro.Tests/ShapeManagerTests.cs:206-220 | a delete step cuts the shape out at its position in both the id list and the shape list and takes exactly its primitive off the surface |
| ShapeManagement.DeleteIdLayer | ChartPro.Tests/ShapeManagerTests.cs:206-220 | a delete step cuts the id out at its position and takes exactly its primitive off the surface |
| ShapeManagement.DeleteId | ChartPro.Tests/ShapeManagerTests.cs:206-220 | a delete step removes exactly the given managed shape and its primitive, records a delete of that shape, and clears the redo stack |
| ShapeManagement.DeletedAt | ChartPro.Tests/ShapeManagerTests.cs:222-237 | the recorded delete names the shape, its primitive and the position it held in the list |
| ShapeManagement.UndoStep | ChartPro.Tests/ShapeManagerTests.cs:93-148 | an undo step reports success exactly when there is history and then makes redo possible; with empty history it changes nothing and reports false |
| ShapeManagement.RedoStep | ChartPro.Tests/ShapeManagerTests.cs:111-148 | a redo step reports success exactly when something was undone and then makes undo possible; otherwise it changes nothing and reports false |
| ShapeManagement.Undo | ChartPro.Tests/ShapeManagerTests.cs:93-148 | undo fails with NotAttached exactly before attach; otherwise it reports whether there was history and changes nothing when there was none |
| ShapeManagement.Redo | ChartPro.Tests/ShapeManagerTests.cs:111-148 | redo fails with NotAttached exactly before attach; otherwise it reports whether anything was undone and changes nothing when nothing was |
| ShapeManagement.ToggleStep | ChartPro.Tests/ShapeManagerTests.cs:266-286 | the toggled shape's flag is negated, every other shape and the list, surface and history are untouched |
| ShapeManagement.ToggleSelection | ChartPro.Tests/ShapeManagerTests.cs:266-286 | toggling fails with NotAttached exactly before attach; otherwise the shape's flag is negated and the list, surface and history are untouched |
| ShapeManagement.ClearStep | ChartPro.Tests/ShapeManagerTests.cs:288-306 | every managed shape ends unselected, only selection flags change, and the list, surface and history are untouched |
| ShapeManagement.ClearSelection | ChartPro.Tests/ShapeManagerTests.cs:288-306 | clearing fails with NotAttached exactly before attach; otherwise every managed shape ends unselected |
| ShapeManagement.SetSelectedOf | ChartPro.Tests/ShapeManagerTests.cs:288-356 | writing a held shape's selection flag is read back, leaves its visibility, identity, primitive and mode and every other shape untouched, and changes neither the list, the surface nor the history; an unknown id changes nothing |
| ShapeManagement.SetVisibleOf | ChartPro.Tests/DrawnShapeTests.cs:45-57 | writing a held shape's visibility flag is read back, leaves its selection, identity, primitive and mode and every other shape untouched, and changes neither the list, the surface nor the history |
| ShapeManagement.SelectedIds | ChartPro.Tests/ShapeManagerTests.cs:309-333 | the selected ids are exactly the managed ids whose shape is selected, without repeats |
| ShapeManagement.UnselectedOf | ChartPro.Tests/ShapeManagerTests.cs:335-356 | the unselected shapes are exactly the listed shapes whose selection flag is clear |
| ShapeManagement.DeleteEach | ChartPro.Tests/ShapeManagerTests.cs:335-356 | deleting a list of managed shapes leaves the old id list with exactly those ids filtered out, the rest in order, with one undo step each and the earlier history below them |
| ShapeManagement.UnselectedShapes | ChartPro.Tests/ShapeManagerTests.cs:335-356 | looking up the ids left after the selected ones are filtered out gives exactly the unselected shapes, in list order |
| ShapeManagement.DeleteSelectedStep | ChartPro.Tests/ShapeManagerTests.cs:335-356 | exactly the unselected managed shapes remain, in their order, and one undo step is recorded per selected shape |
| ShapeManagement.DeleteSelectedShapes | ChartPro.Tests/ShapeManagerTests.cs:335-356 | deleting the selection fails with NotAttached exactly before attach; otherwise the shapes left are exactly the unselected ones, in their order |
| ShapeManagerProofs.AddShapeKeepsValid | ChartPro.Tests/ShapeManagerTests.cs:63-90 | a successful add keeps the representation invariant |
| ShapeManagerProofs.AddedIsApplicable | ChartPro.Tests/ShapeManagerTests.cs:93-109 | the edit an add records can be taken back from the state before it, and is what produced the new state |
| ShapeManagerProofs.AddShapeKeepsStore | ChartPro.Tests/ShapeManagerTests.cs:63-76 | after an add the surface still shows exactly the managed shapes' primitives and every recorded edit still names its shape |
| ShapeManagerProofs.DeleteShapeKeepsValid | ChartPro.Tests/ShapeManagerTests.cs:206-220 | a successful delete keeps the representation invariant |
| ShapeManagerProofs.DeleteEachKeepsValid | ChartPro.Tests/ShapeManagerTests.cs:335-356 | deleting several managed shapes step by step keeps the representation invariant |
| ShapeManagerProofs.ShapesMembers | ChartPro.Tests/ShapeManagerTests.cs:63-76 | a shape is in the list exactly when some managed id stores it |
| ShapeManagerProofs.DeleteSelectedLeavesUnselected | ChartPro.Tests/ShapeManagerTests.cs:335-356 | deleting the selected shapes keeps the invariant, leaves exactly the unselected shapes, leaves nothing selected, and records one undo step per selected shape |
| ShapeManagerProofs.DeleteSelectedContents | ChartPro.Tests/ShapeManagerTests.cs:335-356 | the shapes left after deleting the selected ones are exactly the previously unselected shapes |
| ShapeManagerProofs.DeleteSelectedCount | ChartPro.Tests/ShapeManagerTests.cs:309-333 | the number of selected ids equals the number of selected shapes |
| ShapeManagerProofs.SelectedCount | ChartPro.Tests/ShapeManagerTests.cs:309-333 | filtering ids by their shapes' flags and filtering the shapes themselves give lists of the same length |
| ShapeManagerProofs.RevertKeepsMirror | ChartPro.Tests/ShapeManagerTests.cs:93-109 | taking back a recorded edit keeps the surface showing exactly the listed shapes' primitives |
| ShapeManagerProofs.UndoKeepsValid | ChartPro.Tests/ShapeManagerTests.cs:93-109 | undo keeps the representation invariant |
| ShapeManagerProofs.RedoKeepsValid | ChartPro.Tests/ShapeManagerTests.cs:111-128 | redo keeps the representation invariant |
| ShapeManagerProofs.RedoAfterUndo | ChartPro.Tests/ShapeManagerTests.cs:111-128 | redo right after a successful undo returns the manager to exactly its state before the undo |
| ShapeManagerProofs.UndoAfterRedo | ChartPro.Tests/ShapeManagerTests.cs:111-128 | undo right after a successful redo returns the manager to exactly its state before the redo |
| ShapeManagerProofs.UndoAfterAdd | ChartPro.Tests/ShapeManagerTests.cs:93-109 | undoing an add restores the previous list and surface and history, and makes redo possible |
| ShapeManagerProofs.UndoRedoIsLifo | ChartPro.Tests/ShapeManagerTests.cs:170-203 | after three adds, two undos leave only the first new shape and one redo brings back the second, with both undo and redo then possible |
| ShapeManagerProofs.LifoAdds | ChartPro.Tests/ShapeManagerTests.cs:170-185 | successive adds append their shapes in order |
| ShapeManagerProofs.LifoLayers | ChartPro.Tests/ShapeManagerTests.cs:186-203 | the two undos return the list and surface to their state after the first add, and the redo to their state after the second |
| ShapeManagerProofs.ReAddAfterDelete | ChartPro.Tests/ShapeManagerTests.cs:63-90 | a managed shape that is deleted can be added again: it goes back at the end of the list, two undo steps are recorded, and the invariant holds throughout |
| ShapeManagerProofs.UnattachedRefuses | ChartPro.Tests/ShapeManagerTests.cs:29-60 | before attach, add, delete, undo, redo, toggling, clearing and deleting the selection all fail with NotAttached, and attaching succeeds |
| ShapeManagerProofs.UndoAfterDelete | ChartPro.Tests/ShapeManagerTests.cs:222-237 | undoing a delete puts the shape back at its old position, restoring the previous list, surface and history |
| ShapeManagerProofs.EmptyHistory | ChartPro.Tests/ShapeManagerTests.cs:131-148 | with both stacks empty, undo and redo report false and change nothing |
| ShapeManagerProofs.AddAfterUndoClearsRedo | ChartPro.Tests/ShapeManagerTests.cs:151-167 | after an undo redo is possible, and a subsequent add discards the redo history |
| ShapeManagerProofs.ToggleTwice | ChartPro.Tests/ShapeManagerTests.cs:266-286 | toggling the same shape twice restores the manager exactly, and on an attached manager the checked toggle does so too |
| ShapeManagerProofs.FlagsOnlyKeepsValid | ChartPro.Tests/ShapeManagerTests.cs:266-306 | any change that only rewrites selection and visibility flags keeps the representation invariant |
| ShapeManagerProofs.SelectionKeepsValid | ChartPro.Tests/ShapeManagerTests.cs:266-333 | toggling, clearing, and writing the selection or visibility flag of a held shape keep the representation invariant |
| ShapeManagerProofs.SetSelectedShows | ChartPro.Tests/ShapeManagerTests.cs:309-333 | after a managed shape's selection flag is written it is among the selected shapes exactly when the flag was set, and the list keeps its length |
| ShapeManagerProofs.FlagWritesOf | ChartPro.Tests/DrawnShapeTests.cs:30-57 | on the manager, the last write of either flag wins and writing a flag's current value changes nothing |
| ShapeManagement.SelectionSplits | ChartPro.Tests/ShapeManagerTests.cs:309-356 | the selected and the unselected shapes together account for every listed shape |
| ShapeManagerProofs.ClearSelectionClears | ChartPro.Tests/ShapeManagerTests.cs:288-306 | after clearing, no shape is selected and each listed shape is the old one with its flag cleared, in the same order |
| ShapeManagerProofs.NoneSelected | ChartPro.Tests/ShapeManagerTests.cs:309-333 | a list with no selected shape has an empty selection |
| Strategies.ModeOf | ChartPro.Tests/Strategies/DrawModeStrategyFactoryTests.cs:10-73 | every strategy serves an implemented mode, never None or FibonacciExtension |
| Strategies.CreateStrategy | ChartPro.Tests/Strategies/DrawModeStrategyFactoryTests.cs:10-93 | the factory yields no strategy exactly for None and FibonacciExtension (without failing), and otherwise the strategy of that very mode |
| Strategies.FactoryInverse | ChartPro.Tests/Strategies/DrawModeStrategyFactoryTests.cs:10-73 | the factory and the strategy's mode are inverse: a mode yields a strategy exactly when that strategy serves the mode |
| Strategies.FactoryInjective | ChartPro.Tests/Strategies/DrawModeStrategyFactoryTests.cs:10-73 | distinct implemented modes get distinct strategies |
| Strategies.Shape | ChartPro.Tests/Strategies/CircleStrategyTests.cs:51-68 | a trend line runs from start to end, a horizontal line sits at the end's y, a vertical line at the end's x, a rectangle is the normalised box spanned by the two corners, and a circle is centred on the midpoint with half the extents as radii |
| Strategies.CreatePreview | ChartPro.Tests/Strategies/TrendLineStrategyTests.cs:19-32 | the preview draws the strategy's figure with line width 1 |
| Strategies.CreateFinal | ChartPro.Tests/Strategies/TrendLineStrategyTests.cs:35-48 | the final primitive draws the same figure with line width 2 |
| Strategies.ShapeIgnoresAnchor | ChartPro.Tests/Strategies/HorizontalLineStrategyTests.cs:51-64 | horizontal and vertical lines do not depend on the start point |
| Strategies.RectangleOrderIndependent | ChartPro.Tests/Strategies/RectangleStrategyTests.cs:61-72 | a rectangle is the same whichever corner comes first, and whichever diagonal the corners span |
| Persistence.Record | ChartPro.Tests/AnnotationPersistenceTests.cs:161-229 | a saved record is typed with its shape's draw-mode name and carries its primitive's line width |
| Persistence.Save | ChartPro.Tests/AnnotationPersistenceTests.cs:44-87 | a saved document has version 1 and one record per shape, in order |
| Persistence.ParseShapeType | ChartPro.Tests/AnnotationPersistenceTests.cs:286-333 | a type name parses only to the mode of that name |
| Persistence.ParseModeName | ChartPro.Tests/AnnotationPersistenceTests.cs:286-371 | every mode name parses back to its mode, and a name fails to parse exactly when no mode has it |
| Persistence.StrategyFor | ChartPro.Tests/AnnotationPersistenceTests.cs:336-371 | a record gets a strategy exactly when its type names a drawable mode, and that strategy serves the named mode |
| Persistence.Kept | ChartPro.Tests/AnnotationPersistenceTests.cs:336-371 | the records kept on load are exactly the recognised ones, never more than were read |
| Persistence.KeptAppend | ChartPro.Tests/AnnotationPersistenceTests.cs:336-371 | filtering a concatenation filters each part, so the kept records stay in file order |
| Persistence.KeptAll | ChartPro.Tests/AnnotationPersistenceTests.cs:286-333 | nothing is skipped exactly when every record is recognised |
| Persistence.Items | ChartPro.Tests/AnnotationPersistenceTests.cs:161-229 | each kept record becomes a primitive rebuilt from its corners, under a fresh handle, tagged with the mode it names |
| Persistence.Manage | ChartPro.Tests/AnnotationPersistenceTests.cs:232-283 | a manager built from loaded shapes lists exactly those shapes, is attached and has empty history |
| Persistence.Installed | ChartPro.Tests/AnnotationPersistenceTests.cs:161-283 | the shapes a document loads as are its recognised records, in file order, each rebuilt from its corners under the mode it names, visible and unselected, with increasing ids the id source had not handed out and consecutive handles from the handle counter on; the new manager is attached with empty undo and redo stacks, and the advanced counters run past every stored id and handle |
| Persistence.Load | ChartPro.Tests/AnnotationPersistenceTests.cs:90-158 | load fails exactly when unattached, maps a missing or malformed file to its error, leaves manager and counters untouched on a null document, and otherwise replaces everything by the installed document |
| Persistence.NormalExact | ChartPro.Tests/AnnotationPersistenceTests.cs:161-229 | every record comes back at line width 2; trend-line and Fibonacci records keep their corners, rectangles and circles come back exactly when their corners are ordered and their width is 2, and the lines only keep their defining coordinate; normalising is idempotent |
| Persistence.FinalMatches | ChartPro.Tests/AnnotationPersistenceTests.cs:286-333 | every strategy's final figure has the kind its mode's records describe |
| Persistence.RecordRoundTrip | ChartPro.Tests/AnnotationPersistenceTests.cs:286-333 | the record of a well-formed width-2 shape is recognised and already in normal form |
| Persistence.LoadThenSave | ChartPro.Tests/AnnotationPersistenceTests.cs:161-229 | saving right after a load gives version 1 and the normalised recognised records, in order |
| Persistence.NormalDocumentSurvives | ChartPro.Tests/AnnotationPersistenceTests.cs:161-229 | a document whose records are all recognised and already normal saves back to exactly its records after a load |
| Persistence.LoadThenSaveExact | ChartPro.Tests/AnnotationPersistenceTests.cs:161-229 | a document of width-2 trend lines, Fibonacci retracements, and rectangles and circles written lower corner first loads and saves back identically |
| Persistence.SaveLoadRoundTrip | ChartPro.Tests/AnnotationPersistenceTests.cs:286-333 | saving well-formed shapes, loading the document and saving again gives the same document |
| Persistence.LoadedAreCanonical | ChartPro.Tests/AnnotationPersistenceTests.cs:286-333 | every loaded shape is well formed for its mode |
| Persistence.ManageValid | ChartPro.Tests/AnnotationPersistenceTests.cs:232-283 | a manager built from shapes with increasing ids and distinct primitives satisfies the representation invariant |
| Persistence.LoadKeepsValid | ChartPro.Tests/AnnotationPersistenceTests.cs:232-283 | a successful load keeps the representation invariant |
| Interactions.NewController | ChartPro.Tests/SnapFunctionalityTests.cs:31-42 | a new controller has no mode armed, snapping off with snap mode None, and an unattached empty manager |
| Interactions.NewControllerConsistent | ChartPro.Tests/SnapFunctionalityTests.cs:31-42 | a new controller satisfies the controller invariant |
| Interactions.Attach | ChartPro.Tests/SnapFunctionalityTests.cs:146-162 | attaching succeeds exactly once and leaves shapes and snap settings as they were |
| Interactions.SetDrawMode | ChartPro.Tests/SnapFunctionalityTests.cs:165-177 | the mode is set, any drag is dropped, and snap settings, candles and shapes are unchanged |
| Interactions.SetSnapEnabled | ChartPro.Tests/SnapFunctionalityTests.cs:45-53 | the written flag is read back; snap mode, draw mode, candles and shapes are unchanged |
| Interactions.SetSnapMode | ChartPro.Tests/SnapFunctionalityTests.cs:55-72 | the written snap mode is read back; the flag, draw mode, candles and shapes are unchanged |
| Interactions.BindCandles | ChartPro.Tests/SnapFunctionalityTests.cs:75-89 | any candle list, empty or not, is bound without touching the snap settings, mode or shapes |
| Interactions.SnapSettingsIndependent | ChartPro.Tests/SnapFunctionalityTests.cs:91-130 | snap writes are last-write-wins and the two snap settings commute and do not disturb each other |
| Interactions.PointerDown | ChartPro.Tests/AnnotationPersistenceTests.cs:44-70 | in an armed mode on an attached chart a press starts a drag with a degenerate preview under a fresh handle; otherwise nothing changes |
| Interactions.PointerMove | ChartPro.Tests/AnnotationPersistenceTests.cs:44-70 | moving during a drag redraws the preview from the anchor to the pointer under the same handle; otherwise nothing changes |
| Interactions.PointerUp | ChartPro.Tests/AnnotationPersistenceTests.cs:44-70 | a release ends any drag, keeps the mode and snap settings and the manager well formed, and without a drag changes nothing |
| Interactions.Escape | ChartPro/MainForm.cs:271-278 | escape disarms the mode and drops any drag, leaving shapes and snap settings alone |
| Interactions.Undo | ChartPro/MainForm.cs:243-251 | the controller's undo fails with NotAttached exactly before attach; otherwise it is the manager's undo step, reporting whether there was history, with mode, snap settings and drag kept |
| Interactions.Redo | ChartPro/MainForm.cs:253-261 | the controller's redo fails with NotAttached exactly before attach; otherwise it is the manager's redo step, reporting whether anything was undone, with the rest of the controller kept |
| Interactions.DeleteSelected | ChartPro/MainForm.cs:263-269 | the controller's delete fails with NotAttached exactly before attach; otherwise exactly the unselected shapes remain, in order, and the rest of the controller is kept |
| Interactions.SaveShapes | ChartPro.Tests/AnnotationPersistenceTests.cs:44-87 | saving the controller saves the manager's shapes |
| Interactions.LoadShapes | ChartPro.Tests/AnnotationPersistenceTests.cs:90-158 | loading through the controller fails exactly when the manager's load fails, and otherwise installs its result |
| Interactions.DownUpAddsOne | ChartPro.Tests/AnnotationPersistenceTests.cs:44-70 | a press and release in an armed mode appends exactly one visible, unselected shape of that mode, drawn as the strategy's final primitive between the two points, as one undoable step |
| Interactions.ReleaseAdds | ChartPro.Tests/AnnotationPersistenceTests.cs:44-70 | releasing a drag always succeeds in adding the completed shape to the manager |
| Interactions.MovesDoNotChangeRelease | ChartPro.Tests/AnnotationPersistenceTests.cs:44-70 | moves during a drag do not change what the release adds |
| Interactions.PointerDownKeepsConsistent | ChartPro.Tests/AnnotationPersistenceTests.cs:44-70 | a press keeps the controller invariant |
| Interactions.PointerUpKeepsConsistent | ChartPro.Tests/AnnotationPersistenceTests.cs:44-70 | a release keeps the controller invariant |
| Interactions.LoadKeepsConsistent | ChartPro.Tests/AnnotationPersistenceTests.cs:232-283 | a successful load keeps the controller invariant |
| Interactions.DrawThenSave | ChartPro.Tests/AnnotationPersistenceTests.cs:44-70 | drawing a trend line and saving gives version 1, one more record, and the last record is that trend line with its two points |
| Keyboard.NumberMode | ChartPro/MainForm.cs:280-300 | exactly the keys 1 to 6, on the main row or the keypad, arm a mode |
| Keyboard.DigitMode | ChartPro/MainForm.cs:281-290 | exactly the digits 1 to 6 name a mode |
| Keyboard.KeyDown | ChartPro/MainForm.cs:240-301 | on an attached chart Ctrl+Z undoes and is handled and suppressed exactly when there was history, and Ctrl+Y or Ctrl+Shift+Z redoes likewise, the rest of the controller kept; Delete deletes the selected shapes and Escape disarms, both handled and suppressed; a number key arms its mode, handled but not suppressed; every other key changes nothing and is not handled; only the undo, redo and Delete keys can fail, with NotAttached, and only before attach |
| Keyboard.NoKeyArmsExtension | ChartPro/MainForm.cs:281-290 | no key arms Fibonacci extension, and every mode a key arms has a strategy |
| Keyboard.DigitsCoverDrawableModes | ChartPro/MainForm.cs:281-290 | the digits pick exactly the modes that have a strategy, and keypad and main-row digits agree |
| Keyboard.ModeLabel | ChartPro/MainForm.cs:484-494 | the label of the trend line is "Trend Line" and of the retracement "Fibonacci"; the label is the member's own name exactly for None, Rectangle, Circle and the unlisted Fibonacci extension, and is never empty |
| Keyboard.StatusText | ChartPro/MainForm.cs:496 | the status text is "Mode: " followed by the mode's label |
| Keyboard.StatusTexts | ChartPro/MainForm.cs:484-496 | the status text reads "Mode: Trend Line" for the trend line and "Mode: Fibonacci" for the retracement |
| Keyboard.StatusTextNamesMode | ChartPro/MainForm.cs:479-497 | the status text is "Mode: " followed by the mode's label, unlisted modes fall back to their own name, and different modes show different texts |

## Left out

- The WinForms layout is not modelled: buttons, button styling, the status strip, file dialogs and message boxes. These are user-interface plumbing.
- Start-up wiring and dependency injection (`ChartPro/Program.cs`) are not modelled.
- Random sample data generation is left out because it is nondeterministic.
- Chart rendering and the pixel-to-data transform are left out. Pointer points arrive in data coordinates, already snapped.
- `SelectShapeAt` hit-testing is left out, because it depends on that transform. Its test asserts only that it does not crash.
- JSON text and the file system are replaced by an already-parsed document. A missing file and malformed text become the `FileNotFound` and `MalformedDocument` inputs.
- Colours and fill transparency are left out, on primitives and on saved records. Line width, geometry and figure kind are modelled.
- Coordinates are `real`, not IEEE doubles, so midpoints and equalities are exact.
- Snap arithmetic (price-grid rounding, nearest OHLC value) is not fixed by any code or test shown. Only the snap configuration is modelled.
- The placement of Fibonacci levels is not modelled, for the same reason.
- Reflection-based event injection, `Dispose`, and the design-time stub classes of `ChartPro/MainForm.cs` are not modelled.
- The engine's implementation classes (manager, commands, strategies, factory, controller, persistence mapper) are not part of this model. Their behaviour is taken from the tests that exercise them.
- Persistence.Load: the document version is not checked on load, since no test loads any version other than 1.
- Persistence.Load: a record's line width is saved but not read back. Every loaded shape is rebuilt through its strategy's final primitive, at width 2, so a record of another width saves back at width 2.
- Persistence.ParseShapeType: only the exact enumeration names are recognised. Case-insensitive or numeric spellings a lenient enum parser might accept are treated as unknown and skipped.
- Persistence.Load: attachment is checked before the document. A missing file on an unattached chart therefore reports `ChartNotAttached`.
- Persistence.Record: the saved coordinates of a horizontal line keep only its y (x1 = x2 = 0), and those of a vertical line keep only its x (y1 = y2 = 0). The unused coordinates' values are not fixed by the tests. A circle is saved as its bounding box.
- ShapeManagement.DeleteSelectedShapes: deletes each selected shape as its own undo step. The undo granularity is not fixed by any test.
- ShapeManagement.AddShape: refuses, with `DuplicateShape`, a shape that is managed now, a known id coming back with a different primitive, or a primitive another shape owns; a deleted shape can be added again. Shapes are values here, so a second add of a managed shape would register its primitive twice and record an add whose undo removes the shape, and undo and redo would no longer be exact inverses.
- ShapeEntity.NewShape: the creation timestamp is not modelled. The clock is outside the model, and DrawnShapeTests.cs:26 only bounds the timestamp by the current time.
- Keyboard.KeyDown: on an unattached chart the undo, redo and Delete keys report `NotAttached` instead of an exception escaping the key handler.
- Commands.Execute: the surface is a duplicate-free set. The count properties hold under "absent before an add" and "present before a delete", rather than for the double registration the command tests set up.
- Interactions.PointerDown: a press during a drag is ignored. The drag's preview is held by the controller and not registered on the manager's surface.
- Interactions.NewController: starts from a new, unattached manager with no shapes.
