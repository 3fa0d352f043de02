/** The objects of a document and what one operation does to them
    (applyOpLocked and its cases in crdt/doc.go, setVisibility in crdt/seq.go). */
module Objects {
  import opened OpIds
  import opened Values
  import opened Rga
  import opened Ops
  import Runes

  datatype Entry = Entry(value: Value, id: OpID, deleted: bool)

  datatype Object =
    | MapObject(entries: map<Str, Entry>)
    | SeqObject(isText: bool, elems: seq<Elem>)
  {
    function Kind(): Kind {
      if MapObject? then MapKind else if isText then TextKind else ListKind
    }
  }

  type Objects = map<ObjID, Object>

  /** The object every document starts with, named "root". */
  const ROOT: ObjID := [114, 111, 111, 116]

  function NewObject(kind: Kind): Object {
    match kind
    case MapKind => MapObject(map[])
    case ListKind => SeqObject(false, [])
    case TextKind => SeqObject(true, [])
  }

  datatype Patch = Patch(obj: ObjID, prop: Str, action: Action, value: Value)

  /** New objects, and the patch unless the operation was refused. A refused
      operation keeps whatever it changed before the refusal. */
  datatype Applied = Applied(objects: Objects, patch: Option<Patch>)

  // ---- visible elements ----

  function Visible(s: seq<Elem>): (r: seq<Elem>)
    ensures |r| <= |s|
  {
    if s == [] then []
    else Visible(s[..|s| - 1]) + (if s[|s| - 1].deleted then [] else [s[|s| - 1]])
  }

  /** visibleIndexOf: the visible length when absent or tombstoned. */
  function VisibleIndexOf(s: seq<Elem>, id: OpID): nat {
    var k := IndexOf(s, id);
    if k < 0 || s[k].deleted then |Visible(s)| else |Visible(s[..k])|
  }

  /** The Str field of a value. */
  function StrOf(value: Value): Str {
    match value
    case Text(str) => str
    case Custom(_, text) => text
    case _ => []
  }

  function Texts(s: seq<Elem>): (r: seq<Str>)
    ensures |r| == |s| && forall i :: 0 <= i < |s| ==> r[i] == StrOf(s[i].value)
  {
    seq(|s|, i requires 0 <= i < |s| => StrOf(s[i].value))
  }

  /** visibleText. */
  function VisibleText(s: seq<Elem>): Str {
    Runes.Concat(Texts(Visible(s)))
  }

  // ---- visibility ----

  /** The identity that last decided an element's visibility. */
  function Decider(e: Elem): OpID {
    if e.visId.actor == [] then e.id else e.visId
  }

  /** setVisibility on an element that is present. */
  function SetVisible(e: Elem, deleted: bool, visId: OpID): Elem {
    if visId.Greater(Decider(e)) then e.(deleted := deleted, visId := visId) else e
  }

  /** setVisibility; the sequence is unchanged when the element is absent. */
  function SetVisibility(s: seq<Elem>, id: OpID, deleted: bool, visId: OpID): (r: seq<Elem>)
    ensures |r| == |s|
    ensures forall i :: 0 <= i < |s| ==> r[i].id == s[i].id && r[i].Core() == s[i].Core()
  {
    var k := IndexOf(s, id);
    if k < 0 then s else s[k := SetVisible(s[k], deleted, visId)]
  }

  /** Deletes of a splice, in order; stops at the first absent element. */
  function DeleteAll(s: seq<Elem>, ids: seq<OpID>, visId: OpID): (r: (seq<Elem>, bool))
    decreases |ids|
  {
    if ids == [] then (s, true)
    else if !Contains(s, ids[0]) then (s, false)
    else DeleteAll(SetVisibility(s, ids[0], true, visId), ids[1..], visId)
  }

  /** Inserts of a splice: each rune behind the previous one. */
  function InsertRun(s: seq<Elem>, after: Option<OpID>, runes: seq<Str>, id: OpID): seq<Elem>
    decreases |runes|
  {
    if runes == [] then s
    else
      var next := OpID(id.counter + 1, id.actor);
      if Contains(s, id) then InsertRun(s, Some(id), runes[1..], next)
      else
        var e := Elem(id, FormatRef(after), Text(runes[0]), false, id);
        InsertRun(InsertAfter(s, after, e), Some(id), runes[1..], next)
  }

  // ---- one operation ----

  function EnsureObject(objs: Objects, value: Value): Objects {
    if value.ObjectValue? && value.obj !in objs then objs[value.obj := NewObject(value.kind)] else objs
  }

  function AfterOf(ref: Parse): Option<OpID>
    requires !ref.Malformed?
  {
    if ref.Ref? then Some(ref.id) else None
  }

  /** A write to a map key goes in when it is newer than what is there. */
  function WriteEntry(entries: map<Str, Entry>, key: Str, e: Entry): map<Str, Entry> {
    if key !in entries || entries[key].id.actor == [] || e.id.Greater(entries[key].id)
    then entries[key := e] else entries
  }

  function ApplyPut(objs: Objects, op: Op): Applied
    requires op.obj in objs
  {
    match objs[op.obj]
    case MapObject(entries) =>
      Applied(objs[op.obj := MapObject(WriteEntry(entries, op.prop, Entry(op.value, op.id, false)))],
              Some(Patch(op.obj, op.prop, Put, op.value)))
    case SeqObject(_, _) => Applied(objs, None)
  }

  function ApplyDelete(objs: Objects, op: Op): Applied
    requires op.obj in objs
  {
    var patch := Some(Patch(op.obj, op.prop, Delete, NoValue));
    match objs[op.obj]
    case MapObject(entries) =>
      Applied(objs[op.obj := MapObject(WriteEntry(entries, op.prop, Entry(NoValue, op.id, true)))], patch)
    case SeqObject(isText, elems) =>
      var target := ParseRef(op.prop);
      if target.Ref? then
        Applied(objs[op.obj := SeqObject(isText, SetVisibility(elems, target.id, true, op.id))], patch)
      else Applied(objs, patch)
  }

  function ApplyRevive(objs: Objects, op: Op): Applied
    requires op.obj in objs
  {
    match objs[op.obj]
    case MapObject(_) => Applied(objs, None)
    case SeqObject(isText, elems) =>
      var target := ParseRef(op.prop);
      if !target.Ref? || !Contains(elems, target.id) then Applied(objs, None)
      else
        var s := SetVisibility(elems, target.id, false, op.id);
        Applied(objs[op.obj := SeqObject(isText, s)],
                Some(Patch(op.obj, op.prop, Revive, s[IndexOf(elems, target.id)].value)))
  }

  /** The increment of a counter or integer entry; anything else restarts as a
      counter. 64-bit wrap-around is taken over. */
  function Incremented(current: Value, n: Value): Value {
    var step := if n.Counter? then n.count else 0;
    match current
    case Counter(c) => Counter(WrapInt64(c + step))
    case Int(i) => Int(WrapInt64(i + step))
    case _ => Counter(step)
  }

  function WrapInt64(x: int): int {
    var m := x % 0x1_0000_0000_0000_0000;
    if m < 0x8000_0000_0000_0000 then m else m - 0x1_0000_0000_0000_0000
  }

  function ApplyIncrement(objs: Objects, op: Op): Applied
    requires op.obj in objs
  {
    match objs[op.obj]
    case MapObject(entries) =>
      var current := if op.prop in entries then entries[op.prop].value else NoValue;
      var next := Incremented(current, op.value);
      Applied(objs[op.obj := MapObject(entries[op.prop := Entry(next, op.id, false)])],
              Some(Patch(op.obj, op.prop, Increment, next)))
    case SeqObject(_, _) => Applied(objs, None)
  }

  function ApplyInsert(objs: Objects, op: Op): Applied
    requires op.obj in objs
  {
    match objs[op.obj]
    case MapObject(_) => Applied(objs, None)
    case SeqObject(isText, elems) =>
      var ref := ParseRef(op.after);
      if ref.Malformed? then Applied(objs, None)
      else
        var e := Elem(op.id, op.after, op.value, false, op.id);
        var s := if Contains(elems, op.id) then elems else InsertAfter(elems, AfterOf(ref), e);
        Applied(objs[op.obj := SeqObject(isText, s)],
                Some(Patch(op.obj, Decimal(VisibleIndexOf(s, op.id)), Insert, op.value)))
  }

  function ApplySplice(objs: Objects, op: Op): Applied
    requires op.obj in objs
  {
    if objs[op.obj].Kind() != TextKind then Applied(objs, None)
    else
      var (deleted, found) := DeleteAll(objs[op.obj].elems, ExpandRuns(op.deleteRuns), op.id);
      var ref := ParseRef(op.after);
      if !found || ref.Malformed? then Applied(objs[op.obj := SeqObject(true, deleted)], None)
      else
        var s := InsertRun(deleted, AfterOf(ref), Runes.Split(op.run), op.id);
        var index := if op.run == [] then 0 else VisibleIndexOf(s, op.id);
        Applied(objs[op.obj := SeqObject(true, s)],
                Some(Patch(op.obj, Decimal(index), Splice, Text(op.run))))
  }

  /** applyOpLocked. */
  function ApplyOp(objs: Objects, op: Op): Applied {
    if op.obj !in objs then Applied(objs, None)
    else
      var ready := EnsureObject(objs, op.value);
      match op.action
      case Put => ApplyPut(ready, op)
      case Delete => ApplyDelete(ready, op)
      case Revive => ApplyRevive(ready, op)
      case Increment => ApplyIncrement(ready, op)
      case Insert => ApplyInsert(ready, op)
      case Splice => ApplySplice(ready, op)
      case Unknown(_) => Applied(ready, None)
  }
}
