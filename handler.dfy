/**
 * WickActionHandler: the registry dictionaries and the two stacks as fields
 * updated in place, and the registered closures as methods that change the
 * editor state they reach through `wickEditor` (here the fields `objects`
 * and `currentObject`).  Every method is proved to follow the functions of
 * the History and Actions modules, where the engine's properties are proved.
 */
module WickActions {
  import opened Wrappers
  import opened Document
  import opened Actions
  import opened History

  class WickActionHandler {
    var undoStack: seq<Action>
    var redoStack: seq<Action>
    var doActions: map<string, Handler>
    var undoActions: map<string, Handler>
    var objects: map<ObjId, WickObject>
    var currentObject: Option<ObjId>

    /** The editor state the closures read and write. */
    function Doc(): Editor
      reads this
    {
      Editor(objects, currentObject)
    }

    /** The whole handler as a History state. */
    function Model(): State
      reads this
    {
      State(doActions, undoActions, undoStack, redoStack, Doc())
    }

    ghost predicate Valid()
      reads this
    {
      Recordable(Model())
    }

    /** Starts with empty stacks and registers the actions. */
    constructor (editor: Editor)
      ensures Valid()
      ensures Model() == Initial(editor)
    {
      undoStack, redoStack := [], [];
      doActions, undoActions := map[], map[];
      objects, currentObject := editor.objects, editor.currentObject;
      new;
      RegisterAction("addObjects", Some(AddObjectsDo), Some(AddObjectsUndo));
      RegisterAction("deleteObjects", Some(DeleteObjectsDo), Some(DeleteObjectsUndo));
      RegisterAction(GotoFrameName, Some(GotoFrameDo), Some(GotoFrameUndo));
      RegisterAction("addEmptyFrame", Some(AddEmptyFrameDo), Some(AddEmptyFrameUndo));
      RegisterAction("extendFrame", Some(ExtendFrameDo), Some(ExtendFrameUndo));
      RegisterAction("shrinkFrame", Some(ShrinkFrameDo), Some(ShrinkFrameUndo));
      RegisterAction("editObject", Some(EditObjectDo), Some(EditObjectUndo));
      RegisterAction("finishEditingCurrentObject", Some(FinishEditingDo), Some(FinishEditingUndo));
    }

    method RegisterAction(name: string, doFunction: Option<Handler>, undoFunction: Option<Handler>)
      modifies this
      ensures old(Valid()) ==> Valid()
      ensures Model() == History.RegisterAction(old(Model()), name, doFunction, undoFunction)
    {
      doActions := Assign(doActions, name, doFunction);
      undoActions := Assign(undoActions, name, undoFunction);
    }

    method DoAction(actionName: string, args: Args, dontAddToStack: bool) returns (out: Outcome)
      requires Valid()
      modifies this
      ensures Valid()
      ensures (Model(), out) == History.DoAction(old(Model()), actionName, args, dontAddToStack)
    {
      ghost var s0 := Model();
      var action := Action(Lookup(doActions, actionName), Lookup(undoActions, actionName), args);
      out := Invoke(action.doAction, action.args);
      if out.Done? && !dontAddToStack {
        undoStack := undoStack + [action.(args := out.args)];
        redoStack := [];
      }
      StepRecordable(s0, Do(actionName, args, dontAddToStack));
    }

    method UndoAction() returns (report: Report)
      requires Valid()
      modifies this
      ensures Valid()
      ensures (Model(), report) == History.UndoAction(old(Model()))
    {
      ghost var s0 := Model();
      if |undoStack| == 0 {
        return NothingToDo;
      }
      var action := undoStack[|undoStack| - 1];
      undoStack := undoStack[..|undoStack| - 1];
      var out := Invoke(action.undoAction, action.args);
      if out.Done? {
        redoStack := redoStack + [action.(args := out.args)];
      }
      report := Ran(out);
      StepRecordable(s0, Undo);
    }

    method RedoAction() returns (report: Report)
      requires Valid()
      modifies this
      ensures Valid()
      ensures (Model(), report) == History.RedoAction(old(Model()))
      ensures old(|redoStack|) > 0 ==>
        var top := old(redoStack[|redoStack| - 1]);
        top.doAction.Some? && report == Ran(Run(old(doActions), top.doAction.value, top.args, old(Doc())))
    {
      ghost var s0 := Model();
      if |redoStack| == 0 {
        return NothingToDo;
      }
      RedoRunsDoHalf(s0);
      var action := redoStack[|redoStack| - 1];
      redoStack := redoStack[..|redoStack| - 1];
      var out := Invoke(action.doAction, action.args);
      if out.Done? {
        undoStack := undoStack + [action.(args := out.args)];
      }
      report := Ran(out);
      StepRecordable(s0, Redo);
    }

    // -------------------------------------------------------------------
    // Calling a half

    method Invoke(h: Option<Handler>, args: Args) returns (out: Outcome)
      modifies this`objects, this`currentObject
      ensures out == Call(doActions, h, args, old(Doc())) && Doc() == out.editor
    {
      match h
      case None => out := Thrown(Doc(), NotAFunction);
      case Some(AddEmptyFrameDo) => out := DoAddEmptyFrame(args);
      case Some(AddEmptyFrameUndo) => out := UndoAddEmptyFrame(args);
      case Some(other) => out := InvokePrimitive(other, args);
    }

    /** The nested `doAction(name, args, true)` a composite makes. */
    method DoSuppressed(name: string, args: Args) returns (out: Outcome)
      modifies this`objects, this`currentObject
      ensures out == Suppressed(doActions, name, args, old(Doc())) && Doc() == out.editor
    {
      if name !in doActions {
        return Thrown(Doc(), NotAFunction);
      }
      out := InvokePrimitive(doActions[name], args);
    }

    method InvokePrimitive(h: Handler, args: Args) returns (out: Outcome)
      modifies this`objects, this`currentObject
      ensures out == RunPrimitive(h, args, old(Doc())) && Doc() == out.editor
    {
      match h
      case AddObjectsDo => out := DoAddObjects(args);
      case AddObjectsUndo => out := UndoAddObjects(args);
      case DeleteObjectsDo => out := DoDeleteObjects(args);
      case DeleteObjectsUndo => out := UndoDeleteObjects(args);
      case GotoFrameDo => out := DoGotoFrame(args);
      case GotoFrameUndo => out := UndoGotoFrame(args);
      case AddEmptyFrameDo => out := Thrown(Doc(), CallStackExceeded);
      case AddEmptyFrameUndo => out := Thrown(Doc(), CallStackExceeded);
      case ExtendFrameDo => out := DoExtendFrame(args);
      case ExtendFrameUndo => out := UndoExtendFrame(args);
      case ShrinkFrameDo => out := DoShrinkFrame(args);
      case ShrinkFrameUndo => out := UndoShrinkFrame(args);
      case EditObjectDo => out := DoEditObject(args);
      case EditObjectUndo => out := Done(Doc(), args);
      case FinishEditingDo => out := DoFinishEditing(args);
      case FinishEditingUndo => out := Done(Doc(), args);
    }

    // -------------------------------------------------------------------
    // The registered closures

    method DoAddObjects(args: Args) returns (out: Outcome)
      modifies this`objects
      ensures out == AddObjectsForward(old(Doc()), args) && Doc() == out.editor
    {
      if !args.AddObjectsArgs? {
        return Thrown(Doc(), MissingArgument);
      }
      var wickObjects := args.wickObjects;
      var addedObjectIDs: seq<ObjId> := [];
      var i := 0;
      while i < |wickObjects|
        invariant 0 <= i <= |wickObjects|
        invariant addedObjectIDs == wickObjects[..i]
        invariant currentObject == old(currentObject)
        invariant i == 0 ==> objects == old(objects)
        invariant i > 0 ==> CurrentObject(old(Doc())).Some?
        invariant i > 0 ==>
          var o0 := CurrentObject(old(Doc())).value;
          Doc() == WithCurrent(old(Doc()), o0.(children := o0.children + Elems(wickObjects[..i])))
      {
        // wickEditor.project.addObject(wickObjects[i])
        match CurrentObject(Doc()) {
          case None =>
            return Thrown(Doc(), NoCurrentObject);
          case Some(o) =>
            ghost var o0 := CurrentObject(old(Doc())).value;
            assert wickObjects[..i + 1] == wickObjects[..i] + [wickObjects[i]];
            ElemsAppend(wickObjects[..i], wickObjects[i]);
            if i == 0 {
              assert Elems(wickObjects[..0]) == {};
            }
            assert o.children == o0.children + Elems(wickObjects[..i]);
            assert AddChild(o, wickObjects[i]) == o0.(children := o0.children + Elems(wickObjects[..i + 1]));
            objects := objects[currentObject.value := AddChild(o, wickObjects[i])];
            WithCurrentTwice(old(Doc()), o, AddChild(o, wickObjects[i]));
        }
        addedObjectIDs := addedObjectIDs + [wickObjects[i]];
        i := i + 1;
      }
      assert wickObjects[..i] == wickObjects;
      return Done(Doc(), AddObjectsArgs(wickObjects, addedObjectIDs));
    }

    method UndoAddObjects(args: Args) returns (out: Outcome)
      modifies this`objects
      ensures out == AddObjectsReverse(old(Doc()), args) && Doc() == out.editor
    {
      if !args.AddObjectsArgs? {
        return Thrown(Doc(), MissingArgument);
      }
      var i := 0;
      while i < |args.wickObjects|
        invariant 0 <= i <= |args.wickObjects|
        invariant currentObject == old(currentObject)
        invariant i == 0 ==> objects == old(objects)
        invariant i > 0 ==> CurrentObject(old(Doc())).Some?
        invariant i > 0 ==>
          var o0 := CurrentObject(old(Doc())).value;
          var k := if i < |args.addedObjectIDs| then i else |args.addedObjectIDs|;
          Doc() == WithCurrent(old(Doc()), o0.(children := o0.children - Elems(args.addedObjectIDs[..k])))
      {
        // getCurrentObject().removeChildByID(addedObjectIDs[i])
        match CurrentObject(Doc()) {
          case None =>
            return Thrown(Doc(), NoCurrentObject);
          case Some(o) =>
            ghost var o0 := CurrentObject(old(Doc())).value;
            var added := args.addedObjectIDs;
            ghost var k := if i < |added| then i else |added|;
            if i == 0 {
              assert Elems(added[..0]) == {};
            }
            assert o.children == o0.children - Elems(added[..k]);
            if i < |added| {
              var id := added[i];
              assert added[..i + 1] == added[..i] + [id];
              ElemsAppend(added[..i], id);
              assert RemoveChild(o, id) == o0.(children := o0.children - Elems(added[..i + 1]));
              objects := objects[currentObject.value := RemoveChild(o, id)];
              WithCurrentTwice(old(Doc()), o, RemoveChild(o, id));
            } else {
              // an index past addedObjectIDs finds no child to remove
              if i == 0 {
                WithCurrentUnchanged(old(Doc()), o);
              } else {
                WithCurrentUnchanged(Doc(), o);
              }
            }
        }
        i := i + 1;
      }
      return Done(Doc(), args);
    }

    method DoDeleteObjects(args: Args) returns (out: Outcome)
      modifies this`objects
      ensures out == DeleteObjectsForward(old(Doc()), args) && Doc() == out.editor
    {
      if !args.DeleteObjectsArgs? {
        return Thrown(Doc(), MissingArgument);
      }
      var ids := args.ids;
      var restoredWickObjects: seq<Option<ObjId>> := [];
      var i := 0;
      while i < |ids|
        invariant 0 <= i <= |ids|
        invariant currentObject == old(currentObject)
        invariant i == 0 ==> objects == old(objects) && restoredWickObjects == []
        invariant i > 0 ==> CurrentObject(old(Doc())).Some?
        invariant i > 0 ==>
          var o0 := CurrentObject(old(Doc())).value;
          var detached := Detach(o0.children, ids[..i]);
          Doc() == WithCurrent(old(Doc()), o0.(children := detached.0)) && restoredWickObjects == detached.1
      {
        match CurrentObject(Doc()) {
          case None =>
            return Thrown(Doc(), NoCurrentObject);
          case Some(o) =>
            // getChildByID(ids[i]) is kept for the undo half, then removeChildByID(ids[i])
            restoredWickObjects := restoredWickObjects + [GetChild(o, ids[i])];
            objects := objects[currentObject.value := RemoveChild(o, ids[i])];
            WithCurrentTwice(old(Doc()), o, RemoveChild(o, ids[i]));
            assert ids[..i + 1][..i] == ids[..i];
        }
        i := i + 1;
      }
      assert ids[..i] == ids;
      return Done(Doc(), DeleteObjectsArgs(ids, restoredWickObjects));
    }

    method UndoDeleteObjects(args: Args) returns (out: Outcome)
      modifies this`objects
      ensures out == DeleteObjectsReverse(old(Doc()), args) && Doc() == out.editor
    {
      if !args.DeleteObjectsArgs? {
        return Thrown(Doc(), MissingArgument);
      }
      var restored := args.restoredWickObjects;
      var i := 0;
      while i < |restored|
        invariant 0 <= i <= |restored|
        invariant currentObject == old(currentObject)
        invariant i == 0 ==> objects == old(objects)
        invariant i > 0 ==> CurrentObject(old(Doc())).Some?
        invariant i > 0 ==>
          var o0 := CurrentObject(old(Doc())).value;
          Doc() == WithCurrent(old(Doc()), o0.(children := o0.children + Somes(restored[..i])))
      {
        // wickEditor.project.addObject(restoredWickObjects[i])
        match CurrentObject(Doc()) {
          case None =>
            return Thrown(Doc(), NoCurrentObject);
          case Some(o) =>
            ghost var o0 := CurrentObject(old(Doc())).value;
            assert restored[..i + 1] == restored[..i] + [restored[i]];
            SomesAppend(restored[..i], restored[i]);
            if i == 0 {
              assert Somes(restored[..0]) == {};
            }
            assert o.children == o0.children + Somes(restored[..i]);
            if restored[i].Some? {
              assert AddChild(o, restored[i].value) == o0.(children := o0.children + Somes(restored[..i + 1]));
              objects := objects[currentObject.value := AddChild(o, restored[i].value)];
              WithCurrentTwice(old(Doc()), o, AddChild(o, restored[i].value));
            } else {
              assert o == o0.(children := o0.children + Somes(restored[..i + 1]));
              WithCurrentUnchanged(Doc(), o);
              if i == 0 {
                WithCurrentUnchanged(old(Doc()), o);
              } else {
                WithCurrentTwice(old(Doc()), o, o);
              }
            }
        }
        i := i + 1;
      }
      assert restored[..i] == restored;
      return Done(Doc(), args);
    }

    method DoGotoFrame(args: Args) returns (out: Outcome)
      modifies this`objects
      ensures out == GotoFrameForward(old(Doc()), args) && Doc() == out.editor
    {
      match CurrentObject(Doc()) {
        case None =>
          return Thrown(Doc(), NoCurrentObject);
        case Some(o) =>
          if !args.GotoFrameArgs? {
            return Thrown(Doc(), MissingArgument);
          }
          // save the current frame, then go to the requested one
          var saved := GotoFrameArgs(args.toFrame, Some(o.currentFrame));
          objects := objects[currentObject.value := o.(currentFrame := args.toFrame)];
          return Done(Doc(), saved);
      }
    }

    method UndoGotoFrame(args: Args) returns (out: Outcome)
      modifies this`objects
      ensures out == GotoFrameReverse(old(Doc()), args) && Doc() == out.editor
    {
      match CurrentObject(Doc()) {
        case None =>
          return Thrown(Doc(), NoCurrentObject);
        case Some(o) =>
          if !args.GotoFrameArgs? || args.oldFrame.None? {
            return Thrown(Doc(), MissingArgument);
          }
          objects := objects[currentObject.value := o.(currentFrame := args.oldFrame.value)];
          return Done(Doc(), args);
      }
    }

    method DoAddEmptyFrame(args: Args) returns (out: Outcome)
      modifies this`objects, this`currentObject
      ensures out == AddEmptyFrameForward(doActions, old(Doc()), args) && Doc() == out.editor
    {
      match CurrentObject(Doc()) {
        case None =>
          return Thrown(Doc(), NoCurrentObject);
        case Some(o) =>
          var grown := AppendEmptyFrame(o);
          objects := objects[currentObject.value := grown];
          var nested := DoSuppressed(GotoFrameName, GotoFrameArgs(|grown.frames| - 1, None));
          if nested.Thrown? {
            return nested;
          }
          return Done(Doc(), args);
      }
    }

    method UndoAddEmptyFrame(args: Args) returns (out: Outcome)
      modifies this`objects, this`currentObject
      ensures out == AddEmptyFrameReverse(doActions, old(Doc()), args) && Doc() == out.editor
    {
      match CurrentObject(Doc()) {
        case None =>
          return Thrown(Doc(), NoCurrentObject);
        case Some(o) =>
          var nested := DoSuppressed(GotoFrameName, GotoFrameArgs(|o.frames| - 2, None));
          if nested.Thrown? {
            return nested;
          }
          match CurrentObject(Doc()) {
            case None =>
              return Thrown(Doc(), NoCurrentObject);
            case Some(o2) =>
              objects := objects[currentObject.value := PopFrame(o2)];
              return Done(Doc(), args);
          }
      }
    }

    method DoExtendFrame(args: Args) returns (out: Outcome)
      modifies this`objects
      ensures out == ExtendFrameForward(old(Doc()), args) && Doc() == out.editor
    {
      match CurrentObject(Doc()) {
        case None =>
          return Thrown(Doc(), NoCurrentObject);
        case Some(o) =>
          if !args.ExtendFrameArgs? {
            return Thrown(Doc(), MissingArgument);
          }
          var frameNumber := o.currentFrame;
          if !HasFrame(o, frameNumber) {
            return Thrown(Doc(), NoSuchFrame);
          }
          objects := objects[currentObject.value := ExtendFrame(o, frameNumber, args.nFramesToExtendBy)];
          return Done(Doc(), ExtendFrameArgs(args.nFramesToExtendBy, Some(frameNumber)));
      }
    }

    method UndoExtendFrame(args: Args) returns (out: Outcome)
      modifies this`objects
      ensures out == ExtendFrameReverse(old(Doc()), args) && Doc() == out.editor
    {
      match CurrentObject(Doc()) {
        case None =>
          return Thrown(Doc(), NoCurrentObject);
        case Some(o) =>
          if !args.ExtendFrameArgs? {
            return Thrown(Doc(), MissingArgument);
          }
          if args.frameNumber.None? || !HasFrame(o, args.frameNumber.value) {
            return Thrown(Doc(), NoSuchFrame);
          }
          objects := objects[currentObject.value := ExtendFrame(o, args.frameNumber.value, -args.nFramesToExtendBy)];
          return Done(Doc(), args);
      }
    }

    method DoShrinkFrame(args: Args) returns (out: Outcome)
      modifies this`objects
      ensures out == ShrinkFrameForward(old(Doc()), args) && Doc() == out.editor
    {
      match CurrentObject(Doc()) {
        case None =>
          return Thrown(Doc(), NoCurrentObject);
        case Some(o) =>
          if !args.ShrinkFrameArgs? {
            return Thrown(Doc(), MissingArgument);
          }
          var frameNumber := o.currentFrame;
          if !HasFrame(o, frameNumber) {
            return Thrown(Doc(), NoSuchFrame);
          }
          objects := objects[currentObject.value := ShrinkFrame(o, frameNumber, args.nFramesToShrinkBy)];
          return Done(Doc(), ShrinkFrameArgs(args.nFramesToShrinkBy, Some(frameNumber)));
      }
    }

    method UndoShrinkFrame(args: Args) returns (out: Outcome)
      modifies this`objects
      ensures out == ShrinkFrameReverse(old(Doc()), args) && Doc() == out.editor
    {
      match CurrentObject(Doc()) {
        case None =>
          return Thrown(Doc(), NoCurrentObject);
        case Some(o) =>
          if !args.ShrinkFrameArgs? {
            return Thrown(Doc(), MissingArgument);
          }
          if args.frameNumber.None? || !HasFrame(o, args.frameNumber.value) {
            return Thrown(Doc(), NoSuchFrame);
          }
          objects := objects[currentObject.value := ShrinkFrame(o, args.frameNumber.value, -args.nFramesToShrinkBy)];
          return Done(Doc(), args);
      }
    }

    method DoEditObject(args: Args) returns (out: Outcome)
      modifies this`objects, this`currentObject
      ensures out == EditObjectForward(old(Doc()), args) && Doc() == out.editor
    {
      if !args.EditObjectArgs? {
        return Thrown(Doc(), MissingArgument);
      }
      var target := args.objectToEdit;
      var prevEditedObject := currentObject;
      // the editor moves to `objectToEdit.wickObject`, undefined for an unknown id
      currentObject := if target in objects then Some(target) else None;
      if target !in objects {
        return Thrown(Doc(), NoSuchObject);
      }
      objects := objects[target := objects[target].(currentFrame := 0)];
      return Done(Doc(), EditObjectArgs(target, prevEditedObject));
    }

    method DoFinishEditing(args: Args) returns (out: Outcome)
      modifies this`currentObject
      ensures out == FinishEditingForward(old(Doc()), args) && Doc() == out.editor
    {
      var prevEditedObject := currentObject;
      match CurrentObject(Doc()) {
        case None =>
          return Thrown(Doc(), NoCurrentObject);
        case Some(o) =>
          currentObject := o.parentObject;
          return Done(Doc(), FinishEditingArgs(prevEditedObject));
      }
    }
  }
}
