/**
 * Whole-engine consequences of the registered actions driven through
 * doAction, undoAction and redoAction, for any handler whose registry holds
 * the pairs the constructor registers (InitialHolds: a new handler does).
 */
module Scenarios {
  import opened Wrappers
  import opened Document
  import opened Actions
  import opened History

  /** A name the constructor does not register is `undefined`: doAction on
      it throws at once and changes nothing.  (The four registrations this
      model leaves out are excluded, and so are the names every JavaScript
      object inherits a function under.) */
  lemma UnregisteredNameThrows(e: Editor, name: string, args: Args, dontAddToStack: bool)
    requires name !in {"addObjects", "deleteObjects", GotoFrameName, "addEmptyFrame",
                       "extendFrame", "shrinkFrame", "editObject", "finishEditingCurrentObject",
                       "modifyObject", "convertSelectionToSymbol", "sendObjectToBack", "bringObjectToFront"}
    requires name !in InheritedNames
    ensures DoAction(Initial(e), name, args, dontAddToStack) == (Initial(e), Thrown(e, NotAFunction))
  {
    InitialRegistry(e);
    MissingDoHalf(Initial(e), name, args, dontAddToStack);
  }

  /** The pair a name holds in the registry. */
  predicate Holds(s: State, name: string, d: Handler, u: Handler)
  {
    Lookup(s.doActions, name) == Some(d) && Lookup(s.undoActions, name) == Some(u)
  }

  /** The constructor's registrations, one name at a time. */
  lemma InitialHolds(e: Editor)
    ensures var s := Initial(e);
            && s.undoStack == [] && s.redoStack == [] && s.editor == e
            && Holds(s, "addObjects", AddObjectsDo, AddObjectsUndo)
            && Holds(s, GotoFrameName, GotoFrameDo, GotoFrameUndo)
            && Holds(s, "addEmptyFrame", AddEmptyFrameDo, AddEmptyFrameUndo)
            && Holds(s, "editObject", EditObjectDo, EditObjectUndo)
  {
    InitialRegistry(e);
  }

  /** gotoFrame from any state with gotoFrame registered: the playhead
      moves, the recorded bag holds the frame it left, undo puts it back and
      redo moves it again. */
  lemma GotoFrameUndoRedo(s: State, toFrame: int)
    requires Holds(s, GotoFrameName, GotoFrameDo, GotoFrameUndo)
    requires CurrentObject(s.editor).Some?
    ensures var s1 := DoAction(s, GotoFrameName, GotoFrameArgs(toFrame, None), false).0;
            var s2 := UndoAction(s1).0;
            && CurrentObject(s1.editor) == Some(CurrentObject(s.editor).value.(currentFrame := toFrame))
            && s1.undoStack == s.undoStack + [Action(Some(GotoFrameDo), Some(GotoFrameUndo),
                                       GotoFrameArgs(toFrame, Some(CurrentObject(s.editor).value.currentFrame)))]
            && s2.editor == s.editor && s2.undoStack == s.undoStack && |s2.redoStack| == 1
            && RedoAction(s2).0 == s1
  {
    var args := GotoFrameArgs(toFrame, None);
    GotoFrameRoundTrip(s.doActions, s.editor, args);
    GotoFrameCapture(s.editor, toFrame, None);
    DoUndoRedo(s, GotoFrameName, args);
  }

  /** addObjects of objects that are not yet children, undone at once,
      gives the editor back; redo adds them again. */
  lemma AddObjectsUndoRedo(s: State, objs: seq<ObjId>)
    requires Holds(s, "addObjects", AddObjectsDo, AddObjectsUndo)
    requires CurrentObject(s.editor).Some? && |objs| > 0
    requires Elems(objs) !! CurrentObject(s.editor).value.children
    ensures var o := CurrentObject(s.editor).value;
            var s1 := DoAction(s, "addObjects", AddObjectsArgs(objs, []), false).0;
            var s2 := UndoAction(s1).0;
            && CurrentObject(s1.editor) == Some(o.(children := o.children + Elems(objs)))
            && s2.editor == s.editor && s2.undoStack == s.undoStack
            && RedoAction(s2).0 == s1
  {
    AddObjectsRoundTrip(s.doActions, s.editor, objs, []);
    DoUndoRedo(s, "addObjects", AddObjectsArgs(objs, []));
  }

  /** addEmptyFrame, with gotoFrame registered as usual, records one action
      only (its nested gotoFrame is suppressed), grows the timeline by one
      frame with the playhead on it, and its undo removes the frame again. */
  lemma AddEmptyFrameRecordsOnce(s: State)
    requires Holds(s, "addEmptyFrame", AddEmptyFrameDo, AddEmptyFrameUndo)
    requires Holds(s, GotoFrameName, GotoFrameDo, GotoFrameUndo)
    requires CurrentObject(s.editor).Some?
    ensures var o := CurrentObject(s.editor).value;
            var s1 := DoAction(s, "addEmptyFrame", NoArgs, false).0;
            var s2 := UndoAction(s1).0;
            && s1.undoStack == s.undoStack + [Action(Some(AddEmptyFrameDo), Some(AddEmptyFrameUndo), NoArgs)]
            && CurrentObject(s1.editor) == Some(o.(frames := o.frames + [EmptyFrameLength], currentFrame := |o.frames|))
            && s2.undoStack == s.undoStack && |s2.redoStack| == 1
            && CurrentObject(s2.editor) == Some(o.(currentFrame := |o.frames| - 1))
  {
    AddEmptyFrameRoundTrip(s.doActions, s.editor, NoArgs);
    var s1 := DoAction(s, "addEmptyFrame", NoArgs, false).0;
    assert s1.undoStack[..|s1.undoStack| - 1] == s.undoStack;
  }

  /** editObject cannot be undone: the undo half leaves the editor inside
      the object that was entered, while the action moves to the redo stack. */
  lemma EditObjectUndoKeepsEditing(s: State, target: ObjId)
    requires Holds(s, "editObject", EditObjectDo, EditObjectUndo)
    requires target in s.editor.objects
    ensures var s1 := DoAction(s, "editObject", EditObjectArgs(target, None), false).0;
            var (s2, rep) := UndoAction(s1);
            && s1.editor.currentObject == Some(target)
            && s1.undoStack == s.undoStack + [Action(Some(EditObjectDo), Some(EditObjectUndo), EditObjectArgs(target, s.editor.currentObject))]
            && rep.Ran? && rep.outcome.Done?
            && s2.editor == s1.editor
            && s2.undoStack == s.undoStack && s2.redoStack == [s1.undoStack[|s1.undoStack| - 1]]
  {
    EditObjectForwardOnly(s.doActions, s.editor, target, None);
    var s1 := DoAction(s, "editObject", EditObjectArgs(target, None), false).0;
    assert s1.undoStack[..|s1.undoStack| - 1] == s.undoStack;
  }

}
