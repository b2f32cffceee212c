/**
 * The actions that `WickActionHandler` registers, each a pair of handlers
 * (the do half and the undo half) over the editor state and the action's
 * argument bag.  Each handler is specified here by a function from the
 * editor and the bag to an Outcome: either it runs to completion, having
 * possibly written into the bag what its partner will read later, or it
 * throws (a JavaScript TypeError on `undefined`), leaving the editor as it
 * was at the point of the throw.
 */
module Actions {
  import opened Wrappers
  import opened Document

  /** Name under which the composite `addEmptyFrame` finds `gotoFrame`. */
  const GotoFrameName: string := "gotoFrame"

  /** The registered closures, one constructor per do or undo half. */
  datatype Handler =
    | AddObjectsDo | AddObjectsUndo
    | DeleteObjectsDo | DeleteObjectsUndo
    | GotoFrameDo | GotoFrameUndo
    | AddEmptyFrameDo | AddEmptyFrameUndo
    | ExtendFrameDo | ExtendFrameUndo
    | ShrinkFrameDo | ShrinkFrameUndo
    | EditObjectDo | EditObjectUndo
    | FinishEditingDo | FinishEditingUndo

  /** Handlers that call back into the engine (`doAction(..., true)`). */
  predicate IsComposite(h: Handler)
  {
    h.AddEmptyFrameDo? || h.AddEmptyFrameUndo?
  }

  /** The argument bag, one shape per action; the Option fields are the ones
      a do half fills in for its undo half (None: not yet written). */
  datatype Args =
    | AddObjectsArgs(wickObjects: seq<ObjId>, addedObjectIDs: seq<ObjId>)
    | DeleteObjectsArgs(ids: seq<ObjId>, restoredWickObjects: seq<Option<ObjId>>)
    | GotoFrameArgs(toFrame: int, oldFrame: Option<int>)
    | ExtendFrameArgs(nFramesToExtendBy: int, frameNumber: Option<int>)
    | ShrinkFrameArgs(nFramesToShrinkBy: int, frameNumber: Option<int>)
    | EditObjectArgs(objectToEdit: ObjId, prevEditedObject: Option<ObjId>)
    | FinishEditingArgs(prevEditedObject: Option<ObjId>)
    | NoArgs

  /** Why a handler threw. */
  datatype Fault =
    | NotAFunction        // the handler looked up is undefined
    | NoCurrentObject     // wickEditor.currentObject is undefined
    | NoSuchFrame         // frames[n] is undefined
    | NoSuchObject        // the object to edit is not a known object
    | MissingArgument     // the bag lacks a field the handler reads
    | CallStackExceeded   // a composite's nested call reaches a composite again

  datatype Outcome =
    | Done(editor: Editor, args: Args)
    | Thrown(editor: Editor, fault: Fault)

  // ---------------------------------------------------------------------
  // addObjects

  function AddObjectsForward(e: Editor, args: Args): Outcome
  {
    if !args.AddObjectsArgs? then Thrown(e, MissingArgument)
    else if |args.wickObjects| == 0 then Done(e, AddObjectsArgs(args.wickObjects, []))
    else match CurrentObject(e)
      case None => Thrown(e, NoCurrentObject)
      case Some(o) =>
        Done(WithCurrent(e, o.(children := o.children + Elems(args.wickObjects))),
             AddObjectsArgs(args.wickObjects, args.wickObjects))
  }

  /** How many recorded ids the undo loop reaches: it runs over `wickObjects`
      and indexes `addedObjectIDs` (an index past its end finds nothing). */
  function RemovedCount(args: Args): nat
    requires args.AddObjectsArgs?
  {
    if |args.addedObjectIDs| < |args.wickObjects| then |args.addedObjectIDs| else |args.wickObjects|
  }

  function AddObjectsReverse(e: Editor, args: Args): Outcome
  {
    if !args.AddObjectsArgs? then Thrown(e, MissingArgument)
    else if |args.wickObjects| == 0 then Done(e, args)
    else match CurrentObject(e)
      case None => Thrown(e, NoCurrentObject)
      case Some(o) =>
        Done(WithCurrent(e, o.(children := o.children - Elems(args.addedObjectIDs[..RemovedCount(args)]))), args)
  }

  // ---------------------------------------------------------------------
  // deleteObjects

  function DeleteObjectsForward(e: Editor, args: Args): Outcome
  {
    if !args.DeleteObjectsArgs? then Thrown(e, MissingArgument)
    else if |args.ids| == 0 then Done(e, DeleteObjectsArgs(args.ids, []))
    else match CurrentObject(e)
      case None => Thrown(e, NoCurrentObject)
      case Some(o) =>
        var (rest, restored) := Detach(o.children, args.ids);
        Done(WithCurrent(e, o.(children := rest)), DeleteObjectsArgs(args.ids, restored))
  }

  function DeleteObjectsReverse(e: Editor, args: Args): Outcome
  {
    if !args.DeleteObjectsArgs? then Thrown(e, MissingArgument)
    else if |args.restoredWickObjects| == 0 then Done(e, args)
    else match CurrentObject(e)
      case None => Thrown(e, NoCurrentObject)
      case Some(o) =>
        Done(WithCurrent(e, o.(children := o.children + Somes(args.restoredWickObjects))), args)
  }

  // ---------------------------------------------------------------------
  // gotoFrame

  function GotoFrameForward(e: Editor, args: Args): Outcome
  {
    match CurrentObject(e)
    case None => Thrown(e, NoCurrentObject)
    case Some(o) =>
      if !args.GotoFrameArgs? then Thrown(e, MissingArgument)
      else Done(WithCurrent(e, o.(currentFrame := args.toFrame)), GotoFrameArgs(args.toFrame, Some(o.currentFrame)))
  }

  function GotoFrameReverse(e: Editor, args: Args): Outcome
  {
    match CurrentObject(e)
    case None => Thrown(e, NoCurrentObject)
    case Some(o) =>
      if !args.GotoFrameArgs? || args.oldFrame.None? then Thrown(e, MissingArgument)
      else Done(WithCurrent(e, o.(currentFrame := args.oldFrame.value)), args)
  }

  // ---------------------------------------------------------------------
  // addEmptyFrame: a composite that moves the playhead through a
  // suppressed `gotoFrame` looked up in the registry

  function AddEmptyFrameForward(doActions: map<string, Handler>, e: Editor, args: Args): Outcome
  {
    match CurrentObject(e)
    case None => Thrown(e, NoCurrentObject)
    case Some(o) =>
      var grown := AppendEmptyFrame(o);
      match Suppressed(doActions, GotoFrameName, GotoFrameArgs(|grown.frames| - 1, None), WithCurrent(e, grown))
      case Thrown(e2, f) => Thrown(e2, f)
      case Done(e2, _) => Done(e2, args)
  }

  function AddEmptyFrameReverse(doActions: map<string, Handler>, e: Editor, args: Args): Outcome
  {
    match CurrentObject(e)
    case None => Thrown(e, NoCurrentObject)
    case Some(o) =>
      match Suppressed(doActions, GotoFrameName, GotoFrameArgs(|o.frames| - 2, None), e)
      case Thrown(e2, f) => Thrown(e2, f)
      case Done(e2, _) =>
        match CurrentObject(e2)
        case None => Thrown(e2, NoCurrentObject)
        case Some(o2) => Done(WithCurrent(e2, PopFrame(o2)), args)
  }

  // ---------------------------------------------------------------------
  // extendFrame and shrinkFrame: act on the frame under the playhead and
  // remember its index for the undo half

  function ExtendFrameForward(e: Editor, args: Args): Outcome
  {
    match CurrentObject(e)
    case None => Thrown(e, NoCurrentObject)
    case Some(o) =>
      if !args.ExtendFrameArgs? then Thrown(e, MissingArgument)
      else if !HasFrame(o, o.currentFrame) then Thrown(e, NoSuchFrame)
      else Done(WithCurrent(e, ExtendFrame(o, o.currentFrame, args.nFramesToExtendBy)),
                ExtendFrameArgs(args.nFramesToExtendBy, Some(o.currentFrame)))
  }

  function ExtendFrameReverse(e: Editor, args: Args): Outcome
  {
    match CurrentObject(e)
    case None => Thrown(e, NoCurrentObject)
    case Some(o) =>
      if !args.ExtendFrameArgs? then Thrown(e, MissingArgument)
      else if args.frameNumber.None? || !HasFrame(o, args.frameNumber.value) then Thrown(e, NoSuchFrame)
      else Done(WithCurrent(e, ExtendFrame(o, args.frameNumber.value, -args.nFramesToExtendBy)), args)
  }

  function ShrinkFrameForward(e: Editor, args: Args): Outcome
  {
    match CurrentObject(e)
    case None => Thrown(e, NoCurrentObject)
    case Some(o) =>
      if !args.ShrinkFrameArgs? then Thrown(e, MissingArgument)
      else if !HasFrame(o, o.currentFrame) then Thrown(e, NoSuchFrame)
      else Done(WithCurrent(e, ShrinkFrame(o, o.currentFrame, args.nFramesToShrinkBy)),
                ShrinkFrameArgs(args.nFramesToShrinkBy, Some(o.currentFrame)))
  }

  function ShrinkFrameReverse(e: Editor, args: Args): Outcome
  {
    match CurrentObject(e)
    case None => Thrown(e, NoCurrentObject)
    case Some(o) =>
      if !args.ShrinkFrameArgs? then Thrown(e, MissingArgument)
      else if args.frameNumber.None? || !HasFrame(o, args.frameNumber.value) then Thrown(e, NoSuchFrame)
      else Done(WithCurrent(e, ShrinkFrame(o, args.frameNumber.value, -args.nFramesToShrinkBy)), args)
  }

  // ---------------------------------------------------------------------
  // editObject and finishEditingCurrentObject: forward-only, their undo
  // halves only log that they are not yet implemented

  function EditObjectForward(e: Editor, args: Args): Outcome
  {
    if !args.EditObjectArgs? then Thrown(e, MissingArgument)
    // `objectToEdit.wickObject` is undefined: it becomes the current object
    // before setting its playhead throws
    else if args.objectToEdit !in e.objects then Thrown(e.(currentObject := None), NoSuchObject)
    else
      var target := args.objectToEdit;
      Done(Editor(e.objects[target := e.objects[target].(currentFrame := 0)], Some(target)),
           EditObjectArgs(target, e.currentObject))
  }

  function FinishEditingForward(e: Editor, args: Args): Outcome
  {
    match CurrentObject(e)
    case None => Thrown(e, NoCurrentObject)
    case Some(o) => Done(e.(currentObject := o.parentObject), FinishEditingArgs(e.currentObject))
  }

  /** The "undo NYI" halves: they log and change nothing. */
  function NotYetImplemented(e: Editor, args: Args): Outcome
  {
    Done(e, args)
  }

  // ---------------------------------------------------------------------
  // Dispatch

  /** Runs a handler that does not call back into the engine; a composite
      reached here would re-enter itself without end. */
  function RunPrimitive(h: Handler, args: Args, e: Editor): (r: Outcome)
    ensures r.Thrown? && !h.EditObjectDo? ==> r.editor == e
    ensures r.Thrown? && h.EditObjectDo? ==> r.editor in {e, e.(currentObject := None)}
  {
    match h
    case AddObjectsDo => AddObjectsForward(e, args)
    case AddObjectsUndo => AddObjectsReverse(e, args)
    case DeleteObjectsDo => DeleteObjectsForward(e, args)
    case DeleteObjectsUndo => DeleteObjectsReverse(e, args)
    case GotoFrameDo => GotoFrameForward(e, args)
    case GotoFrameUndo => GotoFrameReverse(e, args)
    case AddEmptyFrameDo => Thrown(e, CallStackExceeded)
    case AddEmptyFrameUndo => Thrown(e, CallStackExceeded)
    case ExtendFrameDo => ExtendFrameForward(e, args)
    case ExtendFrameUndo => ExtendFrameReverse(e, args)
    case ShrinkFrameDo => ShrinkFrameForward(e, args)
    case ShrinkFrameUndo => ShrinkFrameReverse(e, args)
    case EditObjectDo => EditObjectForward(e, args)
    case EditObjectUndo => NotYetImplemented(e, args)
    case FinishEditingDo => FinishEditingForward(e, args)
    case FinishEditingUndo => NotYetImplemented(e, args)
  }

  /** `doAction(name, args, true)` issued from inside a handler: the
      registry lookup and the forward call, with no change to either stack. */
  function Suppressed(doActions: map<string, Handler>, name: string, args: Args, e: Editor): (r: Outcome)
    ensures name !in doActions ==> r == Thrown(e, NotAFunction)
    ensures r.Thrown? && !(name in doActions && doActions[name].EditObjectDo?) ==> r.editor == e
  {
    if name !in doActions then Thrown(e, NotAFunction)
    else RunPrimitive(doActions[name], args, e)
  }

  function Run(doActions: map<string, Handler>, h: Handler, args: Args, e: Editor): Outcome
  {
    match h
    case AddEmptyFrameDo => AddEmptyFrameForward(doActions, e, args)
    case AddEmptyFrameUndo => AddEmptyFrameReverse(doActions, e, args)
    case _ => RunPrimitive(h, args, e)
  }

  /** `action.doAction(action.args)` or `action.undoAction(action.args)`,
      where the half may be `undefined`. */
  function Call(doActions: map<string, Handler>, h: Option<Handler>, args: Args, e: Editor): (r: Outcome)
    ensures h.None? ==> r == Thrown(e, NotAFunction)
  {
    match h
    case None => Thrown(e, NotAFunction)
    case Some(h) => Run(doActions, h, args, e)
  }

  // ---------------------------------------------------------------------
  // Properties of the registered pairs

  /** Undoing right after doing gives back the editor as it was, and doing
      again (a redo) from there reproduces the same editor and bag. */
  predicate Reversible(doActions: map<string, Handler>, d: Handler, u: Handler, args: Args, e: Editor)
  {
    var fwd := Run(doActions, d, args, e);
    && fwd.Done?
    && Run(doActions, u, fwd.args, fwd.editor) == Done(e, fwd.args)
    && Run(doActions, d, fwd.args, e) == fwd
  }

  /** gotoFrame saves the playhead in `oldFrame` before moving it to
      `toFrame`, and nothing else changes. */
  lemma GotoFrameCapture(e: Editor, toFrame: int, oldFrame: Option<int>)
    requires CurrentObject(e).Some?
    ensures var o := CurrentObject(e).value;
            GotoFrameForward(e, GotoFrameArgs(toFrame, oldFrame))
            == Done(WithCurrent(e, o.(currentFrame := toFrame)), GotoFrameArgs(toFrame, Some(o.currentFrame)))
  {
  }

  lemma GotoFrameRoundTrip(doActions: map<string, Handler>, e: Editor, args: Args)
    ensures Reversible(doActions, GotoFrameDo, GotoFrameUndo, args, e)
            <==> args.GotoFrameArgs? && CurrentObject(e).Some?
  {
    if args.GotoFrameArgs? && CurrentObject(e).Some? {
      var o := CurrentObject(e).value;
      WithCurrentTwice(e, o.(currentFrame := args.toFrame), o);
      WithCurrentUnchanged(e, o);
    }
  }

  /** addObjects undone right away gives the children back exactly when
      the list is empty, or there is a current object and none of the added
      objects was already one of its children. */
  lemma AddObjectsRoundTrip(doActions: map<string, Handler>, e: Editor, objs: seq<ObjId>, added: seq<ObjId>)
    ensures Reversible(doActions, AddObjectsDo, AddObjectsUndo, AddObjectsArgs(objs, added), e)
            <==> |objs| == 0 || (CurrentObject(e).Some? && Elems(objs) !! CurrentObject(e).value.children)
  {
    if |objs| > 0 && CurrentObject(e).Some? {
      var o := CurrentObject(e).value;
      var a1 := AddObjectsArgs(objs, objs);
      var grown := o.(children := o.children + Elems(objs));
      var shrunk := grown.(children := grown.children - Elems(objs));
      assert RemovedCount(a1) == |objs| && objs[..|objs|] == objs;
      WithCurrentTwice(e, grown, shrunk);
      if Elems(objs) !! o.children {
        assert shrunk == o;
        WithCurrentUnchanged(e, o);
      } else {
        var x :| x in Elems(objs) && x in o.children;
        assert x !in shrunk.children;
        assert CurrentObject(WithCurrent(e, shrunk)) != CurrentObject(e);
      }
    }
  }

  /** deleteObjects undone right away always gives the children back: the
      do half keeps exactly the objects it removed. */
  lemma DeleteObjectsRoundTrip(doActions: map<string, Handler>, e: Editor, ids: seq<ObjId>, restored: seq<Option<ObjId>>)
    ensures Reversible(doActions, DeleteObjectsDo, DeleteObjectsUndo, DeleteObjectsArgs(ids, restored), e)
            <==> |ids| == 0 || CurrentObject(e).Some?
  {
    if |ids| > 0 && CurrentObject(e).Some? {
      var o := CurrentObject(e).value;
      var (rest, found) := Detach(o.children, ids);
      var back := o.(children := rest).(children := rest + Somes(found));
      assert back == o;
      WithCurrentTwice(e, o.(children := rest), back);
      WithCurrentUnchanged(e, o);
    }
  }

  lemma ExtendFrameRoundTrip(doActions: map<string, Handler>, e: Editor, args: Args)
    ensures Reversible(doActions, ExtendFrameDo, ExtendFrameUndo, args, e)
            <==> args.ExtendFrameArgs? && CurrentObject(e).Some?
                 && HasFrame(CurrentObject(e).value, CurrentObject(e).value.currentFrame)
  {
    if args.ExtendFrameArgs? && CurrentObject(e).Some? {
      var o := CurrentObject(e).value;
      var n := o.currentFrame;
      if HasFrame(o, n) {
        var k := args.nFramesToExtendBy;
        assert ExtendFrame(ExtendFrame(o, n, k), n, -k) == o;
        WithCurrentTwice(e, ExtendFrame(o, n, k), o);
        WithCurrentUnchanged(e, o);
      }
    }
  }

  lemma ShrinkFrameRoundTrip(doActions: map<string, Handler>, e: Editor, args: Args)
    ensures Reversible(doActions, ShrinkFrameDo, ShrinkFrameUndo, args, e)
            <==> args.ShrinkFrameArgs? && CurrentObject(e).Some?
                 && HasFrame(CurrentObject(e).value, CurrentObject(e).value.currentFrame)
  {
    if args.ShrinkFrameArgs? && CurrentObject(e).Some? {
      var o := CurrentObject(e).value;
      var n := o.currentFrame;
      if HasFrame(o, n) {
        var k := args.nFramesToShrinkBy;
        assert ShrinkFrame(ShrinkFrame(o, n, k), n, -k) == o;
        WithCurrentTwice(e, ShrinkFrame(o, n, k), o);
        WithCurrentUnchanged(e, o);
      }
    }
  }

  /** With `gotoFrame` registered as usual, addEmptyFrame appends a frame and
      moves the playhead onto it; its undo always removes that frame again
      but moves the playhead to the frame before the last one, so the
      editor comes back exactly when the playhead started on the last frame. */
  lemma AddEmptyFrameRoundTrip(doActions: map<string, Handler>, e: Editor, args: Args)
    requires GotoFrameName in doActions && doActions[GotoFrameName] == GotoFrameDo
    requires CurrentObject(e).Some?
    ensures var o := CurrentObject(e).value;
            var fwd := AddEmptyFrameForward(doActions, e, args);
            && fwd.Done?
            && CurrentObject(fwd.editor) == Some(o.(frames := o.frames + [EmptyFrameLength], currentFrame := |o.frames|))
            && CurrentObject(AddEmptyFrameReverse(doActions, fwd.editor, fwd.args).editor)
               == Some(o.(currentFrame := |o.frames| - 1))
    ensures Reversible(doActions, AddEmptyFrameDo, AddEmptyFrameUndo, args, e)
            <==> CurrentObject(e).value.currentFrame == |CurrentObject(e).value.frames| - 1
  {
    var o := CurrentObject(e).value;
    var grown := AppendEmptyFrame(o);
    var moved := grown.(currentFrame := |o.frames|);
    WithCurrentTwice(e, grown, moved);
    var e1 := WithCurrent(e, moved);
    var back := moved.(currentFrame := |o.frames| - 1);
    WithCurrentTwice(e1, back, PopFrame(back));
    assert PopFrame(back) == o.(currentFrame := |o.frames| - 1) by {
      assert back.frames[..|back.frames| - 1] == o.frames;
    }
    WithCurrentTwice(e, moved, o.(currentFrame := |o.frames| - 1));
    if o.currentFrame == |o.frames| - 1 {
      assert o.(currentFrame := |o.frames| - 1) == o;
      WithCurrentUnchanged(e, o);
    } else {
      assert CurrentObject(WithCurrent(e, o.(currentFrame := |o.frames| - 1))) != CurrentObject(e);
    }
  }

  /** editObject switches the editor to the object at its first frame and
      remembers the object left behind; its undo half restores nothing, so
      the pair is reversible only when the do half changed nothing. */
  lemma EditObjectForwardOnly(doActions: map<string, Handler>, e: Editor, target: ObjId, prev: Option<ObjId>)
    requires target in e.objects
    ensures var fwd := EditObjectForward(e, EditObjectArgs(target, prev));
            && fwd.Done?
            && fwd.editor.currentObject == Some(target)
            && CurrentObject(fwd.editor) == Some(e.objects[target].(currentFrame := 0))
            && fwd.args.prevEditedObject == e.currentObject
            && forall a :: Run(doActions, EditObjectUndo, a, fwd.editor) == Done(fwd.editor, a)
    ensures Reversible(doActions, EditObjectDo, EditObjectUndo, EditObjectArgs(target, prev), e)
            <==> e.currentObject == Some(target) && e.objects[target].currentFrame == 0
  {
    if e.currentObject == Some(target) && e.objects[target].currentFrame == 0 {
      assert e.objects[target := e.objects[target].(currentFrame := 0)] == e.objects;
    }
  }

  /** editObject on an id that names no object leaves the editor with no
      current object when it throws, so every handler that needs one throws
      from then on. */
  lemma EditObjectUnknownTarget(doActions: map<string, Handler>, e: Editor, target: ObjId, prev: Option<ObjId>, args: Args)
    requires target !in e.objects
    ensures var r := EditObjectForward(e, EditObjectArgs(target, prev));
            && r == Thrown(e.(currentObject := None), NoSuchObject)
            && CurrentObject(r.editor) == None
            && Run(doActions, GotoFrameDo, args, r.editor) == Thrown(r.editor, NoCurrentObject)
            && Run(doActions, AddEmptyFrameDo, args, r.editor) == Thrown(r.editor, NoCurrentObject)
            && Run(doActions, FinishEditingDo, args, r.editor) == Thrown(r.editor, NoCurrentObject)
  {
  }

  /** When the nested gotoFrame of addEmptyFrame throws (here: the name is
      not registered), the frame appended before the call stays. */
  lemma AddEmptyFrameKeepsFrameOnThrow(doActions: map<string, Handler>, e: Editor, args: Args)
    requires GotoFrameName !in doActions
    requires CurrentObject(e).Some?
    ensures var o := CurrentObject(e).value;
            var r := AddEmptyFrameForward(doActions, e, args);
            && r == Thrown(WithCurrent(e, AppendEmptyFrame(o)), NotAFunction)
            && CurrentObject(r.editor) == Some(o.(frames := o.frames + [EmptyFrameLength]))
  {
  }

  /** finishEditingCurrentObject moves the editor to the parent and
      remembers the object it left; its undo half restores nothing. */
  lemma FinishEditingForwardOnly(doActions: map<string, Handler>, e: Editor, args: Args)
    requires CurrentObject(e).Some?
    ensures var fwd := FinishEditingForward(e, args);
            && fwd == Done(e.(currentObject := CurrentObject(e).value.parentObject), FinishEditingArgs(e.currentObject))
            && forall a :: Run(doActions, FinishEditingUndo, a, fwd.editor) == Done(fwd.editor, a)
    ensures Reversible(doActions, FinishEditingDo, FinishEditingUndo, args, e)
            <==> CurrentObject(e).value.parentObject == e.currentObject
  {
  }
}
