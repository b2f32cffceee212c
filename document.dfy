/**
 * The part of the Wick editor's document that the history engine's actions
 * touch: the object being edited (`wickEditor.currentObject`), and for every
 * object its playhead (`currentFrame`), the lengths of its frames, its
 * children and its parent.
 *
 * WickObject, WickFrame and WickProject live in files that are not part of
 * this model; only the abstract effect of the primitives the actions call
 * (`addObject`, `getChildByID`, `removeChildByID`, `addEmptyFrame`,
 * `frames.pop`, `WickFrame.extend`, `WickFrame.shrink`) is stated here.
 */
module Document {
  import opened Wrappers

  /** Identity of a WickObject; the source finds objects by their `id`. */
  type ObjId = nat

  /** Length of the frame that `WickObject.addEmptyFrame` creates. */
  const EmptyFrameLength: int := 1

  datatype WickObject = WickObject(
    currentFrame: int,              // index of the frame the playhead is on
    frames: seq<int>,               // length of each frame, in timeline order
    children: set<ObjId>,           // objects placed inside this one
    parentObject: Option<ObjId>)    // None for the root object

  datatype Editor = Editor(
    objects: map<ObjId, WickObject>,
    currentObject: Option<ObjId>)   // None once the editor has left the root

  /** `wickEditor.currentObject`, or None where the source would find `undefined`. */
  function CurrentObject(e: Editor): Option<WickObject>
  {
    if e.currentObject.Some? && e.currentObject.value in e.objects
    then Some(e.objects[e.currentObject.value])
    else None
  }

  /** The editor after the current object's state is replaced by `o`. */
  function WithCurrent(e: Editor, o: WickObject): (r: Editor)
    requires e.currentObject.Some?
    ensures CurrentObject(r) == Some(o)
    ensures r.currentObject == e.currentObject
  {
    e.(objects := e.objects[e.currentObject.value := o])
  }

  /** The set of ids listed in `s`. */
  function Elems(s: seq<ObjId>): set<ObjId>
  {
    set x | x in s
  }

  /** The ids that a sequence of `getChildByID` results actually found. */
  function Somes(rs: seq<Option<ObjId>>): set<ObjId>
  {
    set i | 0 <= i < |rs| && rs[i].Some? :: rs[i].value
  }

  // Primitives of WickObject / WickProject, by their effect on one object.

  function AddChild(o: WickObject, id: ObjId): WickObject
  {
    o.(children := o.children + {id})
  }

  function RemoveChild(o: WickObject, id: ObjId): WickObject
  {
    o.(children := o.children - {id})
  }

  /** `getChildByID`: the child itself if present, `undefined` otherwise. */
  function GetChild(o: WickObject, id: ObjId): Option<ObjId>
  {
    if id in o.children then Some(id) else None
  }

  predicate HasFrame(o: WickObject, n: int)
  {
    0 <= n < |o.frames|
  }

  /** `frames[n].extend(k)`: the frame grows by `k`. */
  function ExtendFrame(o: WickObject, n: int, k: int): WickObject
    requires HasFrame(o, n)
  {
    o.(frames := o.frames[n := o.frames[n] + k])
  }

  /** `frames[n].shrink(k)`: the frame loses `k`. */
  function ShrinkFrame(o: WickObject, n: int, k: int): WickObject
    requires HasFrame(o, n)
  {
    o.(frames := o.frames[n := o.frames[n] - k])
  }

  /** `addEmptyFrame(frames.length)`: a new empty frame after the last one. */
  function AppendEmptyFrame(o: WickObject): WickObject
  {
    o.(frames := o.frames + [EmptyFrameLength])
  }

  /** `frames.pop()`; popping an empty array changes nothing. */
  function PopFrame(o: WickObject): WickObject
  {
    if |o.frames| == 0 then o else o.(frames := o.frames[..|o.frames| - 1])
  }

  // Facts about the primitives used by the action proofs.

  lemma WithCurrentTwice(e: Editor, o1: WickObject, o2: WickObject)
    requires e.currentObject.Some?
    ensures WithCurrent(WithCurrent(e, o1), o2) == WithCurrent(e, o2)
  {
  }

  lemma WithCurrentUnchanged(e: Editor, o: WickObject)
    requires CurrentObject(e) == Some(o)
    ensures WithCurrent(e, o) == e
  {
    assert e.objects[e.currentObject.value := o] == e.objects;
  }

  lemma ElemsAppend(s: seq<ObjId>, x: ObjId)
    ensures Elems(s + [x]) == Elems(s) + {x}
  {
    assert forall y :: y in s + [x] <==> y in s || y == x;
  }

  lemma SomesAppend(rs: seq<Option<ObjId>>, x: Option<ObjId>)
    ensures Somes(rs + [x]) == Somes(rs) + (if x.Some? then {x.value} else {})
  {
    var rs' := rs + [x];
    forall y | y in Somes(rs')
      ensures y in Somes(rs) + (if x.Some? then {x.value} else {})
    {
      var i :| 0 <= i < |rs'| && rs'[i].Some? && rs'[i].value == y;
      if i < |rs| {
        assert rs[i] == rs'[i];
      }
    }
    forall y | y in Somes(rs)
      ensures y in Somes(rs')
    {
      var i :| 0 <= i < |rs| && rs[i].Some? && rs[i].value == y;
      assert rs'[i] == rs[i];
    }
    if x.Some? {
      assert rs'[|rs|] == x;
    }
  }

  /** Running `getChildByID` then `removeChildByID` for each id in order
      leaves the children not listed, and `getChildByID` finds, in total,
      exactly the listed ids that were children to begin with. */
  function Detach(children: set<ObjId>, ids: seq<ObjId>): (r: (set<ObjId>, seq<Option<ObjId>>))
    ensures r.0 == children - Elems(ids)
    ensures |r.1| == |ids|
    ensures Somes(r.1) == children * Elems(ids)
    decreases |ids|
  {
    if ids == [] then (children, [])
    else
      var prefix := ids[..|ids| - 1];
      var id := ids[|ids| - 1];
      var (rest, restored) := Detach(children, prefix);
      var found := if id in rest then Some(id) else None;
      assert ids == prefix + [id];
      ElemsAppend(prefix, id);
      SomesAppend(restored, found);
      (rest - {id}, restored + [found])
  }
}
