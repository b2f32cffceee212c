# Wick editor undo/redo engine in Dafny

This project models `WickActionHandler`, the undo/redo history engine of the Wick animation editor (`src/editor/wickactions.js`), and proves what it does to its stacks and to the document.

The model has these parts:

- **The engine.** A registry of named actions holds two dictionaries, one of do halves and one of undo halves. There is an undo stack and a redo stack of `WickAction` records. `doAction` builds an action from the registry, runs its do half on the argument bag, and records it unless the caller suppresses that. `undoAction` and `redoAction` pop an action, run the other half on the action's own bag, and push the action onto the other stack.
- **The registered actions**, over an abstract document:
  - `addObjects` and `deleteObjects`;
  - `gotoFrame`;
  - `addEmptyFrame`, a composite that calls `gotoFrame` back through the engine with history suppressed;
  - `extendFrame` and `shrinkFrame`;
  - `editObject` and `finishEditingCurrentObject`, whose undo halves are "not yet implemented" stubs.

  The document is the object being edited plus, for every object, its playhead, the lengths of its frames, its children and its parent.
- **Failure.** A handler that would fail with a JavaScript `TypeError` on `undefined` yields `Thrown`, with the editor as it stood at the throw. That is the editor the handler started from, with two exceptions. editObject on an unknown object has already made the current object `undefined`. A composite that throws keeps what it and its nested call changed before the throw. For example, addEmptyFrame's do half keeps the frame it appended when the nested gotoFrame throws (`Actions.AddEmptyFrameKeepsFrameOnThrow`). Likewise, its undo half keeps what the nested call did when the pop at line 200 then throws. When that happens:
  - `doAction` records nothing;
  - `undoAction` and `redoAction` have already popped the action, so it is lost from both stacks.

The files:

- `document.dfy` (module `Document`): the document state and the effect of the `WickObject` primitives.
- `actions.dfy` (module `Actions`):
  - the handlers, one specification function per closure;
  - the argument bags;
  - dispatch, including the nested suppressed call;
  - for each action, a lemma stating when doing and then undoing it gives the editor back.
- `history.dfy` (module `History`):
  - the engine as functions on an immutable `State`;
  - the laws of its stacks;
  - an invariant kept by every sequence of calls.
- `handler.dfy` (module `WickActions`): class `WickActionHandler`.
  - Its fields are the dictionaries, the stacks and the editor state, and its methods update them in place.
  - The loops of `addObjects` and `deleteObjects` are `while` loops with invariants.
  - Every method is proved to produce exactly the state and outcome that the `History` and `Actions` functions give.
- `scenarios.dfy` (module `Scenarios`): whole-engine consequences for any handler whose registry holds the pairs the constructor registers, which a new handler does.

Two behaviours of the engine that its log messages and comments do not suggest:

- **Missing undo half.** `doAction` reports a half that "is not a defined" action (`src/editor/wickactions.js:36-41`) but does not return. An action with a missing undo half still runs and is recorded at line 49 (`History.MissingUndoHalf`).
- **A half that throws during undo or redo.** `undoAction` and `redoAction` pop the action (lines 64 and 84) before calling its half (lines 70 and 90). A half that throws therefore loses the action from both stacks (`History.UndoRedoKeepTotal`).

## Model

| member | source | states |
|---|---|---|
| Document.Detach | src/editor/wickactions.js:113-119 | `getChildByID` then `removeChildByID` for each id leaves the children not listed. The `getChildByID` results found exactly the listed ids that were children, one result per id. |
| Actions.Call | src/editor/wickactions.js:45 | Calling an `undefined` half throws and leaves the editor unchanged. |
| Actions.Suppressed | src/editor/wickactions.js:193 | The nested `doAction(name, bag, true)` of a composite throws on an unregistered name. A handler that throws there leaves the editor unchanged, unless it is editObject's do half. |
| Actions.GotoFrameCapture | src/editor/wickactions.js:161-174 | gotoFrame saves the playhead in `oldFrame`, moves it to `toFrame` and changes nothing else. |
| Actions.GotoFrameRoundTrip | src/editor/wickactions.js:160-185 | gotoFrame, then undo, restores the editor, and redo repeats it. This holds if and only if the bag has the gotoFrame shape and there is a current object. |
| Actions.AddObjectsRoundTrip | src/editor/wickactions.js:97-110 | addObjects, then undo, restores the editor, and redo repeats it, if and only if the list is empty, or there is a current object and none of the added objects was already one of its children. |
| Actions.DeleteObjectsRoundTrip | src/editor/wickactions.js:112-125 | deleteObjects, then undo, always restores the children, given a current object or an empty id list. The do half keeps exactly the objects it removed. |
| Actions.ExtendFrameRoundTrip | src/editor/wickactions.js:206-218 | extendFrame(k), then extend(-k) on the frame it recorded, restores the editor. This holds if and only if the playhead is on an existing frame. |
| Actions.ShrinkFrameRoundTrip | src/editor/wickactions.js:220-234 | shrinkFrame(k), then shrink(-k) on the recorded frame, restores the editor. This holds if and only if the playhead is on an existing frame. |
| Actions.AddEmptyFrameRoundTrip | src/editor/wickactions.js:187-204 | With gotoFrame registered, the do half appends a frame and moves the playhead onto it. The undo half removes that frame and leaves the playhead on the last remaining frame. So the pair is reversible if and only if the playhead started on the last frame. |
| Actions.EditObjectForwardOnly | src/editor/wickactions.js:302-343 | editObject enters the target at frame 0 and remembers the previous object. Its undo stub changes nothing, so the pair is reversible if and only if the editor was already in the target at frame 0. |
| Actions.EditObjectUnknownTarget | src/editor/wickactions.js:310-312 | editObject on an id with no object throws after making the current object `undefined`. From then on gotoFrame, addEmptyFrame and finishEditingCurrentObject throw for want of a current object. |
| Actions.AddEmptyFrameKeepsFrameOnThrow | src/editor/wickactions.js:188-193 | When the nested gotoFrame throws because the name is not registered, addEmptyFrame throws too, and the current object keeps the frame appended at line 190. |
| Actions.FinishEditingForwardOnly | src/editor/wickactions.js:345-363 | finishEditingCurrentObject moves to the parent and remembers the object it left. Its undo stub changes nothing, so the pair is reversible if and only if the object is its own parent. |
| History.Assign | src/editor/wickactions.js:18-21 | Assigning to one name changes what that name looks up to, and no other name. Assigning `undefined` makes the name unregistered. |
| History.InitialRegistry | src/editor/wickactions.js:9-21 | A new handler has empty stacks and holds, under each action's name, the do and undo halves registered for it, and no other name. |
| History.RegisterStoresBoth | src/editor/wickactions.js:18-21 | registerAction stores both halves under the name. Other names, the stacks and the editor are untouched. |
| History.RegisterLastWins | src/editor/wickactions.js:18-21 | Registering a name twice is the same as registering it once, with the later halves. |
| History.RecordedDo | src/editor/wickactions.js:25-53 | A recorded doAction runs the do half and pushes one action on top of the old undo stack. That action holds the registry's halves and the bag as the do half left it. The redo stack is emptied. |
| History.SuppressedDo | src/editor/wickactions.js:48-51 | With `dontAddToStack`, the do half still runs, and both stacks and the registry stay exactly as they were. |
| History.MissingDoHalf | src/editor/wickactions.js:32-45 | Without a do half, doAction throws and the whole state is unchanged. |
| History.MissingUndoHalf | src/editor/wickactions.js:36-41 | With only the undo half missing, the action is still recorded. Undoing it throws, and the action is gone from both stacks. |
| History.UndoEmpty | src/editor/wickactions.js:58-61 | undoAction on an empty undo stack changes nothing. |
| History.RedoEmpty | src/editor/wickactions.js:78-81 | redoAction on an empty redo stack changes nothing. |
| History.UndoMovesTop | src/editor/wickactions.js:55-73 | undoAction removes exactly the top action, runs its undo half on its own bag and, unless that throws, appends the action to the redo stack. |
| History.RedoMovesTop | src/editor/wickactions.js:75-93 | redoAction removes exactly the top of the redo stack, runs its do half and, unless that throws, appends the action to the undo stack. |
| History.UndoRedoKeepTotal | src/editor/wickactions.js:55-93 | undoAction and redoAction keep the total size of the two stacks, except that a half which throws loses one action. |
| History.DoUndoRedo | src/editor/wickactions.js:25-93 | For a reversible action, doAction then undoAction gives back the editor and the undo stack, leaving the action alone on the redo stack. A following redoAction restores exactly the state after the doAction. |
| History.DoUndoRedoStacks | src/editor/wickactions.js:48-91 | For any action whose do, undo and redo halves all complete, doAction, undoAction and redoAction bring both stacks back as they were after the doAction: the entries below are unchanged, the top has the same halves and the redo stack is empty. |
| History.Lifo | src/editor/wickactions.js:25-73 | After doing A and then B, the first undo runs B's undo half and the second runs A's, on the bags their do halves filled in. |
| History.NewActionClearsRedo | src/editor/wickactions.js:48-51 | doing A, undoing it, then recording B leaves nothing to redo. |
| History.DoAllStacks | src/editor/wickactions.js:48-51 | N recorded actions that complete add exactly N entries above the old undo stack, in request order, and leave the redo stack empty. |
| History.StepRecordable | src/editor/wickactions.js:18-93 | Any single call keeps the invariant: every undo-stack entry has a do half, and every redo-stack entry has both halves. |
| History.RedoRunsDoHalf | src/editor/wickactions.js:84-90 | Under that invariant, the top of a non-empty redo stack has both halves, and redoAction runs its do half on its own bag. |
| History.ExecRecordable | src/editor/wickactions.js:18-93 | Any sequence of registerAction, doAction, undoAction and redoAction calls keeps that invariant. |
| Scenarios.UnregisteredNameThrows | src/editor/wickactions.js:32-45 | On a new handler, doAction of a name no registration uses throws and changes nothing. |
| Scenarios.GotoFrameUndoRedo | src/editor/wickactions.js:160-185 | With gotoFrame registered, gotoFrame moves the playhead and pushes one action whose bag holds the frame it left. Undo restores the editor and the undo stack, and redo restores the state after the doAction. |
| Scenarios.AddObjectsUndoRedo | src/editor/wickactions.js:97-110 | With addObjects registered, adding objects that are not children yet adds them. Undo restores the editor and the undo stack, and redo adds them again. |
| Scenarios.AddEmptyFrameRecordsOnce | src/editor/wickactions.js:187-204 | With both actions registered, addEmptyFrame pushes only itself, because its nested gotoFrame is suppressed. It grows the timeline by one frame with the playhead on it, and undo takes the frame away again. |
| Scenarios.EditObjectUndoKeepsEditing | src/editor/wickactions.js:320-322 | Undoing editObject moves the action to the redo stack but leaves the editor inside the object it entered. |
| Scenarios.InitialHolds | src/editor/wickactions.js:97-363 | A new handler has empty stacks and holds the pairs that the lemmas above assume. |
| WickActions.WickActionHandler.constructor | src/editor/wickactions.js:5-15 | Empty stacks, the given editor, every action registered, and the invariant established. |
| WickActions.WickActionHandler.RegisterAction | src/editor/wickactions.js:18-21 | The new state is `History.RegisterAction` of the old state, and the invariant is kept. |
| WickActions.WickActionHandler.DoAction | src/editor/wickactions.js:25-53 | The new state and outcome are those of `History.DoAction`, and the invariant is kept. |
| WickActions.WickActionHandler.UndoAction | src/editor/wickactions.js:55-73 | The new state and report are those of `History.UndoAction`, and the invariant is kept. |
| WickActions.WickActionHandler.RedoAction | src/editor/wickactions.js:75-93 | The new state and report are those of `History.RedoAction`, and the invariant is kept. A non-empty redo stack's top always has a do half, which the method runs on the top's bag. |
| WickActions.WickActionHandler.Invoke | src/editor/wickactions.js:45 | Calling a half, or `undefined`, has the effect and outcome of `Actions.Call`. |
| WickActions.WickActionHandler.DoSuppressed | src/editor/wickactions.js:193 | The nested suppressed call has the effect and outcome of `Actions.Suppressed`. |
| WickActions.WickActionHandler.InvokePrimitive | src/editor/wickactions.js:97-363 | A non-composite handler has the effect and outcome of `Actions.RunPrimitive`. |
| WickActions.WickActionHandler.DoAddObjects | src/editor/wickactions.js:98-105 | The loop adds each object to the current object's children and records their ids, as `Actions.AddObjectsForward` specifies. |
| WickActions.WickActionHandler.UndoAddObjects | src/editor/wickactions.js:106-109 | The loop removes the recorded ids, as `Actions.AddObjectsReverse` specifies. |
| WickActions.WickActionHandler.DoDeleteObjects | src/editor/wickactions.js:113-120 | The loop keeps each `getChildByID` result and removes the child, as `Actions.DeleteObjectsForward` specifies through `Document.Detach`. |
| WickActions.WickActionHandler.UndoDeleteObjects | src/editor/wickactions.js:121-124 | The loop adds back every object found, as `Actions.DeleteObjectsReverse` specifies. |
| WickActions.WickActionHandler.DoGotoFrame | src/editor/wickactions.js:161-174 | Saves the playhead and moves it, as `Actions.GotoFrameForward` specifies. |
| WickActions.WickActionHandler.UndoGotoFrame | src/editor/wickactions.js:175-185 | Moves the playhead back to `oldFrame`, as `Actions.GotoFrameReverse` specifies. |
| WickActions.WickActionHandler.DoAddEmptyFrame | src/editor/wickactions.js:188-196 | Appends a frame, then goes to it through the suppressed nested call, as `Actions.AddEmptyFrameForward` specifies. |
| WickActions.WickActionHandler.UndoAddEmptyFrame | src/editor/wickactions.js:197-204 | Goes to the frame before the last through the suppressed nested call, then pops the last frame, as `Actions.AddEmptyFrameReverse` specifies. |
| WickActions.WickActionHandler.DoExtendFrame | src/editor/wickactions.js:207-214 | Records the playhead's frame and extends it, as `Actions.ExtendFrameForward` specifies. |
| WickActions.WickActionHandler.UndoExtendFrame | src/editor/wickactions.js:215-218 | Extends the recorded frame by `-k`, as `Actions.ExtendFrameReverse` specifies. |
| WickActions.WickActionHandler.DoShrinkFrame | src/editor/wickactions.js:221-228 | Records the playhead's frame and shrinks it, as `Actions.ShrinkFrameForward` specifies. |
| WickActions.WickActionHandler.UndoShrinkFrame | src/editor/wickactions.js:229-234 | Shrinks the recorded frame by `-k`, as `Actions.ShrinkFrameReverse` specifies. |
| WickActions.WickActionHandler.DoEditObject | src/editor/wickactions.js:303-319 | Remembers the edited object and enters the target at frame 0, as `Actions.EditObjectForward` specifies. For an id with no object, it leaves no current object and throws. |
| WickActions.WickActionHandler.DoFinishEditing | src/editor/wickactions.js:346-360 | Remembers the edited object and moves to its parent, as `Actions.FinishEditingForward` specifies. |

## Left out

- `modifyObject`, `convertSelectionToSymbol`, `sendObjectToBack` and `bringObjectToFront` are not registered in the model. They depend on the geometry, the symbol conversion and the z-order of `WickObject`, whose code is not part of this model.
- The canvas and panel calls (`syncInterfaces`, `deselectAll`, `syncWithEditor`, `closeScriptingGUI`) and every `VerboseLog` call are left out. They only update the user interface or write logs.
- `syncEditorWithfabricInterface` (lines 168, 179, 307 and 350) writes the canvas's unsaved edits to the current frame into the project. The model treats it as a no-op on the document, which assumes the project already holds every edit made on the canvas.
- `WickProject`, `WickObject` and `WickFrame` are not part of this model.
  - Only the effect of the primitives the actions call is stated.
  - `project.getCurrentObject()` and `wickEditor.currentObject` are taken to be the same object.
  - An object's children are one set of ids, not a list per frame.
- `WickFrame.extend(k)` and `shrink(k)` are modelled as adding `k` to and subtracting `k` from the frame's length, with no clamping. A new empty frame has length 1.
- `Actions.ExtendFrameReverse`: every frame is taken to have `WickFrame`'s methods, so the model leaves out the re-attachment of `WickFrame.prototype` that the source does before calling `extend` or `shrink` (lines 210, 224 and 230). extendFrame's undo half (line 216) is the only frame handler that does not re-attach it. On a frame without the prototype, which is the case the re-attachments guard against, the source throws a `TypeError` there, and the action is lost. The model extends the frame by `-k` instead.
- `Actions.DeleteObjectsReverse`: an id that `getChildByID` did not find is skipped on undo. The source passes `undefined` to `addObject`, whose behaviour is in code not part of this model.
- Argument bags: a bag whose shape does not fit the handler gives `MissingArgument`. The source would read `undefined` fields and carry on.
- editObject: the object to edit is passed by id, not as a canvas object holding a `wickObject`. An id that is not an object stands for an `undefined` `wickObject`.
- `Scenarios.UnregisteredNameThrows`: the registries are modelled as plain dictionaries, without the members every JavaScript object inherits. The source's dictionaries are object literals, so a name such as `constructor`, `toString` or `hasOwnProperty` finds an inherited function. For such a name, the source calls that function and records an action where the model throws `NotAFunction`. The lemma excludes these names (`History.InheritedNames`).
- `Actions.RunPrimitive`: a composite action reached through the nested suppressed call throws `CallStackExceeded` at once. The source would recurse until the JavaScript call stack overflows. If addEmptyFrame's do half is registered under `gotoFrame`, each level appends a frame before it recurses. If the undo half is registered there, it recurses before its pop, so nothing changes before the overflow.
- `WickActions.WickActionHandler.DoAction`: the caller's argument bag is not updated in place. The filled-in bag is returned in the outcome and stored in the recorded action, so nothing can alias it.
