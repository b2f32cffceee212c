/**
 * The history engine of WickActionHandler as a state machine over values:
 * the two registry dictionaries, the undo and redo stacks (most recent
 * last) and the editor the actions work on.  The class in handler.dfy is
 * proved to follow these functions step by step; the lemmas below state
 * what the engine promises about its stacks.
 */
module History {
  import opened Wrappers
  import opened Document
  import opened Actions

  /** A WickAction: the halves the registry held when it was created, and
      the argument bag that its do half fills in for its undo half. */
  datatype Action = Action(doAction: Option<Handler>, undoAction: Option<Handler>, args: Args)

  datatype State = State(
    doActions: map<string, Handler>,
    undoActions: map<string, Handler>,
    undoStack: seq<Action>,
    redoStack: seq<Action>,
    editor: Editor)

  /** What undoAction or redoAction did: nothing (empty stack), or ran a half. */
  datatype Report = NothingToDo | Ran(outcome: Outcome)

  /** Dictionary lookup; None is `undefined`. */
  function Lookup(m: map<string, Handler>, name: string): Option<Handler>
  {
    if name in m then Some(m[name]) else None
  }

  /** `dict[name] = h`; assigning `undefined` makes the name look unregistered. */
  function Assign(m: map<string, Handler>, name: string, h: Option<Handler>): (r: map<string, Handler>)
    ensures Lookup(r, name) == h
    ensures forall n :: n != name ==> Lookup(r, n) == Lookup(m, n)
  {
    if h.Some? then m[name := h.value] else m - {name}
  }

  function RegisterAction(s: State, name: string, doFunction: Option<Handler>, undoFunction: Option<Handler>): State
  {
    s.(doActions := Assign(s.doActions, name, doFunction),
       undoActions := Assign(s.undoActions, name, undoFunction))
  }

  function NewAction(s: State, actionName: string, args: Args): Action
  {
    Action(Lookup(s.doActions, actionName), Lookup(s.undoActions, actionName), args)
  }

  /** doAction: build the action, run its do half, and unless told not to
      (or the do half threw) record it and forget everything redoable. */
  function DoAction(s: State, actionName: string, args: Args, dontAddToStack: bool): (State, Outcome)
  {
    var action := NewAction(s, actionName, args);
    var out := Call(s.doActions, action.doAction, action.args, s.editor);
    var s1 := s.(editor := out.editor);
    if out.Thrown? || dontAddToStack then (s1, out)
    else (s1.(undoStack := s.undoStack + [action.(args := out.args)], redoStack := []), out)
  }

  /** undoAction: pop the last action, run its undo half on its own bag and
      push it onto the redo stack; a half that throws loses the action. */
  function UndoAction(s: State): (State, Report)
  {
    if |s.undoStack| == 0 then (s, NothingToDo)
    else
      var action := s.undoStack[|s.undoStack| - 1];
      var out := Call(s.doActions, action.undoAction, action.args, s.editor);
      var s1 := s.(undoStack := s.undoStack[..|s.undoStack| - 1], editor := out.editor);
      if out.Thrown? then (s1, Ran(out))
      else (s1.(redoStack := s.redoStack + [action.(args := out.args)]), Ran(out))
  }

  /** redoAction: the mirror image of undoAction, running the do half. */
  function RedoAction(s: State): (State, Report)
  {
    if |s.redoStack| == 0 then (s, NothingToDo)
    else
      var action := s.redoStack[|s.redoStack| - 1];
      var out := Call(s.doActions, action.doAction, action.args, s.editor);
      var s1 := s.(redoStack := s.redoStack[..|s.redoStack| - 1], editor := out.editor);
      if out.Thrown? then (s1, Ran(out))
      else (s1.(undoStack := s.undoStack + [action.(args := out.args)]), Ran(out))
  }

  /** Names every JavaScript object inherits a function under, which a
      lookup in the source's object-literal dictionaries finds even when
      nothing was registered under them. */
  const InheritedNames: set<string> := {
    "constructor", "toString", "toLocaleString", "valueOf", "hasOwnProperty",
    "isPrototypeOf", "propertyIsEnumerable", "__defineGetter__", "__defineSetter__",
    "__lookupGetter__", "__lookupSetter__"}

  /** A new handler: empty stacks, and the registrations of the modelled
      actions in the order the constructor makes them. */
  function Initial(e: Editor): State
  {
    var s := State(map[], map[], [], [], e);
    var s := RegisterAction(s, "addObjects", Some(AddObjectsDo), Some(AddObjectsUndo));
    var s := RegisterAction(s, "deleteObjects", Some(DeleteObjectsDo), Some(DeleteObjectsUndo));
    var s := RegisterAction(s, GotoFrameName, Some(GotoFrameDo), Some(GotoFrameUndo));
    var s := RegisterAction(s, "addEmptyFrame", Some(AddEmptyFrameDo), Some(AddEmptyFrameUndo));
    var s := RegisterAction(s, "extendFrame", Some(ExtendFrameDo), Some(ExtendFrameUndo));
    var s := RegisterAction(s, "shrinkFrame", Some(ShrinkFrameDo), Some(ShrinkFrameUndo));
    var s := RegisterAction(s, "editObject", Some(EditObjectDo), Some(EditObjectUndo));
    RegisterAction(s, "finishEditingCurrentObject", Some(FinishEditingDo), Some(FinishEditingUndo))
  }

  /** A fresh handler has empty stacks, holds both halves of every action
      under its name, and knows no other name. */
  lemma InitialRegistry(e: Editor)
    ensures var s := Initial(e);
            && s.undoStack == [] && s.redoStack == [] && s.editor == e
            && s.doActions == map["addObjects" := AddObjectsDo, "deleteObjects" := DeleteObjectsDo,
                                  GotoFrameName := GotoFrameDo, "addEmptyFrame" := AddEmptyFrameDo,
                                  "extendFrame" := ExtendFrameDo, "shrinkFrame" := ShrinkFrameDo,
                                  "editObject" := EditObjectDo, "finishEditingCurrentObject" := FinishEditingDo]
            && s.undoActions == map["addObjects" := AddObjectsUndo, "deleteObjects" := DeleteObjectsUndo,
                                    GotoFrameName := GotoFrameUndo, "addEmptyFrame" := AddEmptyFrameUndo,
                                    "extendFrame" := ExtendFrameUndo, "shrinkFrame" := ShrinkFrameUndo,
                                    "editObject" := EditObjectUndo, "finishEditingCurrentObject" := FinishEditingUndo]
            && Recordable(s)
  {
  }

  // ---------------------------------------------------------------------
  // The registry

  /** Registering stores both halves under the name and touches nothing else. */
  lemma RegisterStoresBoth(s: State, name: string, d: Option<Handler>, u: Option<Handler>)
    ensures var r := RegisterAction(s, name, d, u);
            && Lookup(r.doActions, name) == d && Lookup(r.undoActions, name) == u
            && (forall n :: n != name ==>
                  Lookup(r.doActions, n) == Lookup(s.doActions, n) && Lookup(r.undoActions, n) == Lookup(s.undoActions, n))
            && r.undoStack == s.undoStack && r.redoStack == s.redoStack && r.editor == s.editor
  {
  }

  /** A later registration of the same name overwrites both halves. */
  lemma RegisterLastWins(s: State, name: string, d1: Option<Handler>, u1: Option<Handler>,
                         d2: Option<Handler>, u2: Option<Handler>)
    ensures RegisterAction(RegisterAction(s, name, d1, u1), name, d2, u2) == RegisterAction(s, name, d2, u2)
  {
    AssignTwice(s.doActions, name, d1, d2);
    AssignTwice(s.undoActions, name, u1, u2);
  }

  lemma AssignTwice(m: map<string, Handler>, name: string, h1: Option<Handler>, h2: Option<Handler>)
    ensures Assign(Assign(m, name, h1), name, h2) == Assign(m, name, h2)
  {
    var a, b := Assign(Assign(m, name, h1), name, h2), Assign(m, name, h2);
    forall n ensures n in a <==> n in b {
      assert Lookup(a, n) == Lookup(b, n);
    }
    assert a.Keys == b.Keys;
  }

  // ---------------------------------------------------------------------
  // doAction

  /** A recorded doAction runs the do half on the given bag, leaves the new
      action (with the bag as the do half left it) on top of the old undo
      stack, and empties the redo stack. */
  lemma RecordedDo(s: State, actionName: string, args: Args)
    requires Call(s.doActions, Lookup(s.doActions, actionName), args, s.editor).Done?
    ensures var (r, out) := DoAction(s, actionName, args, false);
            && out == Call(s.doActions, Lookup(s.doActions, actionName), args, s.editor)
            && r.undoStack == s.undoStack + [Action(Lookup(s.doActions, actionName), Lookup(s.undoActions, actionName), out.args)]
            && r.redoStack == []
            && r.editor == out.editor
            && r.doActions == s.doActions && r.undoActions == s.undoActions
  {
  }

  /** A suppressed doAction still runs the do half but leaves both stacks
      exactly as they were. */
  lemma SuppressedDo(s: State, actionName: string, args: Args)
    ensures var (r, out) := DoAction(s, actionName, args, true);
            && out == Call(s.doActions, Lookup(s.doActions, actionName), args, s.editor)
            && r == s.(editor := out.editor)
  {
  }

  /** Without a do half the call throws before anything is recorded: the
      whole state is unchanged. */
  lemma MissingDoHalf(s: State, actionName: string, args: Args, dontAddToStack: bool)
    requires actionName !in s.doActions
    ensures DoAction(s, actionName, args, dontAddToStack) == (s, Thrown(s.editor, NotAFunction))
  {
  }

  /** With only the undo half missing the action is still recorded; undoing
      it later throws, and the popped action is lost from both stacks. */
  lemma MissingUndoHalf(s: State, actionName: string, args: Args)
    requires actionName in s.doActions && actionName !in s.undoActions
    requires Call(s.doActions, Lookup(s.doActions, actionName), args, s.editor).Done?
    ensures var (r, out) := DoAction(s, actionName, args, false);
            var (r2, rep) := UndoAction(r);
            && r.undoStack == s.undoStack + [Action(Some(s.doActions[actionName]), None, out.args)]
            && rep == Ran(Thrown(r.editor, NotAFunction))
            && r2 == r.(undoStack := s.undoStack)
  {
    var (r, out) := DoAction(s, actionName, args, false);
    assert r.undoStack[..|r.undoStack| - 1] == s.undoStack;
  }

  // ---------------------------------------------------------------------
  // undoAction and redoAction

  lemma UndoEmpty(s: State)
    requires s.undoStack == []
    ensures UndoAction(s) == (s, NothingToDo)
  {
  }

  lemma RedoEmpty(s: State)
    requires s.redoStack == []
    ensures RedoAction(s) == (s, NothingToDo)
  {
  }

  /** Undo removes exactly the top action, runs its undo half on its own
      bag and appends it to the redo stack; no other entry changes. */
  lemma UndoMovesTop(s: State)
    requires |s.undoStack| > 0
    ensures var top := s.undoStack[|s.undoStack| - 1];
            var (r, rep) := UndoAction(s);
            && rep == Ran(Call(s.doActions, top.undoAction, top.args, s.editor))
            && r.undoStack == s.undoStack[..|s.undoStack| - 1]
            && r.redoStack == (if rep.outcome.Thrown? then s.redoStack
                               else s.redoStack + [top.(args := rep.outcome.args)])
            && r.editor == rep.outcome.editor
            && r.doActions == s.doActions && r.undoActions == s.undoActions
  {
  }

  /** Redo moves the top of the redo stack onto the undo stack after running
      its do half. */
  lemma RedoMovesTop(s: State)
    requires |s.redoStack| > 0
    ensures var top := s.redoStack[|s.redoStack| - 1];
            var (r, rep) := RedoAction(s);
            && rep == Ran(Call(s.doActions, top.doAction, top.args, s.editor))
            && r.redoStack == s.redoStack[..|s.redoStack| - 1]
            && r.undoStack == (if rep.outcome.Thrown? then s.undoStack
                               else s.undoStack + [top.(args := rep.outcome.args)])
            && r.editor == rep.outcome.editor
            && r.doActions == s.doActions && r.undoActions == s.undoActions
  {
  }

  /** Undo and redo keep |undoStack| + |redoStack|, except that a half which
      throws loses the one action it was called for. */
  lemma UndoRedoKeepTotal(s: State)
    ensures var (r, rep) := UndoAction(s);
            |r.undoStack| + |r.redoStack|
            == |s.undoStack| + |s.redoStack| - (if rep.Ran? && rep.outcome.Thrown? then 1 else 0)
    ensures var (r, rep) := RedoAction(s);
            |r.undoStack| + |r.redoStack|
            == |s.undoStack| + |s.redoStack| - (if rep.Ran? && rep.outcome.Thrown? then 1 else 0)
  {
  }

  /** For a reversible action, doAction then undoAction gives back the editor
      and the undo stack, and a following redoAction gives back exactly the
      state right after the doAction. */
  lemma DoUndoRedo(s: State, actionName: string, args: Args)
    requires actionName in s.doActions && actionName in s.undoActions
    requires Reversible(s.doActions, s.doActions[actionName], s.undoActions[actionName], args, s.editor)
    ensures var s1 := DoAction(s, actionName, args, false).0;
            var s2 := UndoAction(s1).0;
            && s2.editor == s.editor
            && s2.undoStack == s.undoStack
            && s2.redoStack == [s1.undoStack[|s1.undoStack| - 1]]
            && RedoAction(s2).0 == s1
  {
    var s1 := DoAction(s, actionName, args, false).0;
    assert s1.undoStack[..|s1.undoStack| - 1] == s.undoStack;
    var s2 := UndoAction(s1).0;
    assert s2.redoStack[..|s2.redoStack| - 1] == [];
  }

  /** After doAction(A); doAction(B), the first undo runs B's undo half and the
      next one A's, whether or not B's undo half threw. */
  lemma Lifo(s: State, a: string, argsA: Args, b: string, argsB: Args)
    requires DoAction(s, a, argsA, false).1.Done?
    requires DoAction(DoAction(s, a, argsA, false).0, b, argsB, false).1.Done?
    ensures var s1 := DoAction(s, a, argsA, false);
            var s2 := DoAction(s1.0, b, argsB, false);
            var u1 := UndoAction(s2.0);
            var u2 := UndoAction(u1.0);
            && u1.1 == Ran(Call(s.doActions, Lookup(s.undoActions, b), s2.1.args, s2.0.editor))
            && u2.1 == Ran(Call(s.doActions, Lookup(s.undoActions, a), s1.1.args, u1.0.editor))
            && u2.0.undoStack == s.undoStack
  {
    var s1 := DoAction(s, a, argsA, false);
    var s2 := DoAction(s1.0, b, argsB, false);
    assert s2.0.undoStack[..|s2.0.undoStack| - 1] == s1.0.undoStack;
    assert s1.0.undoStack[..|s1.0.undoStack| - 1] == s.undoStack;
  }

  /** A new recorded action after an undo makes the undone action unreachable. */
  lemma NewActionClearsRedo(s: State, a: string, argsA: Args, b: string, argsB: Args)
    requires DoAction(UndoAction(DoAction(s, a, argsA, false).0).0, b, argsB, false).1.Done?
    ensures DoAction(UndoAction(DoAction(s, a, argsA, false).0).0, b, argsB, false).0.redoStack == []
  {
  }

  /** Whenever doAction, undoAction and redoAction all run their halves to
      completion, the stacks come back as they were after the doAction: the
      same action object is moved back and forth.  Its bag is the one the
      redo left, which need not equal the first (editObject records the
      object it left, which is then the target itself). */
  lemma DoUndoRedoStacks(s: State, actionName: string, args: Args)
    requires DoAction(s, actionName, args, false).1.Done?
    requires var u := UndoAction(DoAction(s, actionName, args, false).0).1;
             u.Ran? && u.outcome.Done?
    requires var r := RedoAction(UndoAction(DoAction(s, actionName, args, false).0).0).1;
             r.Ran? && r.outcome.Done?
    ensures var s1 := DoAction(s, actionName, args, false).0;
            var s3 := RedoAction(UndoAction(s1).0).0;
            && |s3.undoStack| == |s1.undoStack|
            && s3.redoStack == s1.redoStack == []
            && s3.undoStack[..|s.undoStack|] == s1.undoStack[..|s.undoStack|] == s.undoStack
            && s3.undoStack[|s.undoStack|].doAction == s1.undoStack[|s.undoStack|].doAction
                 == Lookup(s.doActions, actionName)
            && s3.undoStack[|s.undoStack|].undoAction == s1.undoStack[|s.undoStack|].undoAction
                 == Lookup(s.undoActions, actionName)
            && s3.doActions == s.doActions && s3.undoActions == s.undoActions
  {
    var s1 := DoAction(s, actionName, args, false).0;
    assert s1.undoStack[..|s1.undoStack| - 1] == s.undoStack;
  }

  // ---------------------------------------------------------------------
  // Many recorded actions in a row

  /** Recorded doActions, one per (name, bag) request, in order. */
  function DoAll(s: State, requests: seq<(string, Args)>): State
    decreases |requests|
  {
    if requests == [] then s
    else DoAll(DoAction(s, requests[0].0, requests[0].1, false).0, requests[1..])
  }

  /** Every request's do half runs to completion. */
  predicate AllDone(s: State, requests: seq<(string, Args)>)
    decreases |requests|
  {
    requests == []
    || (DoAction(s, requests[0].0, requests[0].1, false).1.Done?
        && AllDone(DoAction(s, requests[0].0, requests[0].1, false).0, requests[1..]))
  }

  /** N recorded actions that complete add exactly N entries above the old
      undo stack, in request order, and leave nothing to redo. */
  lemma {:induction false} DoAllStacks(s: State, requests: seq<(string, Args)>)
    requires AllDone(s, requests)
    ensures var r := DoAll(s, requests);
            && |r.undoStack| == |s.undoStack| + |requests|
            && r.undoStack[..|s.undoStack|] == s.undoStack
            && (forall i :: 0 <= i < |requests| ==>
                  r.undoStack[|s.undoStack| + i].doAction == Lookup(s.doActions, requests[i].0))
            && (|requests| > 0 ==> r.redoStack == [])
            && r.doActions == s.doActions && r.undoActions == s.undoActions
    decreases |requests|
  {
    if requests != [] {
      var s1 := DoAction(s, requests[0].0, requests[0].1, false).0;
      DoAllStacks(s1, requests[1..]);
      var r := DoAll(s, requests);
      assert r == DoAll(s1, requests[1..]);
      assert r.undoStack[..|s1.undoStack|] == s1.undoStack;
      assert r.undoStack[..|s.undoStack|] == s1.undoStack[..|s.undoStack|];
      forall i | 0 <= i < |requests|
        ensures r.undoStack[|s.undoStack| + i].doAction == Lookup(s.doActions, requests[i].0)
      {
        if i > 0 {
          assert requests[1..][i - 1] == requests[i];
        } else {
          assert r.undoStack[|s.undoStack|] == s1.undoStack[|s.undoStack|];
        }
      }
      if |requests| > 1 {
        assert r.redoStack == [];
      }
    }
  }

  // ---------------------------------------------------------------------
  // The stack invariant over any sequence of calls

  /** Every action on the undo stack has a do half, and every action on the
      redo stack has both: an action is only ever recorded after its do half
      ran, and only reaches the redo stack after its undo half ran. */
  ghost predicate Recordable(s: State)
  {
    && (forall i :: 0 <= i < |s.undoStack| ==> s.undoStack[i].doAction.Some?)
    && (forall i :: 0 <= i < |s.redoStack| ==> s.redoStack[i].doAction.Some? && s.redoStack[i].undoAction.Some?)
  }

  /** A call on the engine's public surface. */
  datatype Request =
    | Register(name: string, doFunction: Option<Handler>, undoFunction: Option<Handler>)
    | Do(actionName: string, args: Args, dontAddToStack: bool)
    | Undo
    | Redo

  function Step(s: State, q: Request): State
  {
    match q
    case Register(name, d, u) => RegisterAction(s, name, d, u)
    case Do(name, args, dontAddToStack) => DoAction(s, name, args, dontAddToStack).0
    case Undo => UndoAction(s).0
    case Redo => RedoAction(s).0
  }

  function Exec(s: State, qs: seq<Request>): State
    decreases |qs|
  {
    if qs == [] then s else Exec(Step(s, qs[0]), qs[1..])
  }

  lemma StepRecordable(s: State, q: Request)
    requires Recordable(s)
    ensures Recordable(Step(s, q))
  {
    match q
    case Register(_, _, _) =>
    case Do(name, args, dontAddToStack) =>
    case Undo =>
      if |s.undoStack| > 0 {
        var r := UndoAction(s).0;
        assert forall i :: 0 <= i < |r.undoStack| ==> r.undoStack[i] == s.undoStack[i];
      }
    case Redo =>
      if |s.redoStack| > 0 {
        var r := RedoAction(s).0;
        assert forall i :: 0 <= i < |r.redoStack| ==> r.redoStack[i] == s.redoStack[i];
      }
  }

  /** What the invariant buys: redo never meets an `undefined` do half, so
      it always runs the recorded action's own do half on its bag. */
  lemma RedoRunsDoHalf(s: State)
    requires Recordable(s) && |s.redoStack| > 0
    ensures var top := s.redoStack[|s.redoStack| - 1];
            && top.doAction.Some? && top.undoAction.Some?
            && RedoAction(s).1 == Ran(Run(s.doActions, top.doAction.value, top.args, s.editor))
  {
  }

  /** Whatever the host calls, in whatever order, the invariant holds. */
  lemma {:induction false} ExecRecordable(s: State, qs: seq<Request>)
    requires Recordable(s)
    ensures Recordable(Exec(s, qs))
    decreases |qs|
  {
    if qs != [] {
      StepRecordable(s, qs[0]);
      ExecRecordable(Step(s, qs[0]), qs[1..]);
    }
  }
}
