/** The local editing calls of a document, each shown to keep the invariant. */
module LocalCalls {
  import opened OpIds
  import opened Values
  import opened Rga
  import opened Ops
  import opened Objects
  import opened Histories
  import opened Representation
  import opened Application
  import opened Documents
  import opened CausalGraph
  import opened DocInvariant
  import Runes

  datatype Call =
    | CallPut(obj: ObjID, prop: Str, value: Value)
    | CallDelete(obj: ObjID, prop: Str)
    | CallMake(obj: ObjID, prop: Str, kind: Kind)
    | CallInsert(obj: ObjID, index: nat, value: Value)
    | CallDeleteAt(obj: ObjID, index: nat)
    | CallSetElement(obj: ObjID, id: OpID, deleted: bool)
    | CallSplice(obj: ObjID, index: nat, count: nat, insert: Str)

  function DoCall(d: Doc, call: Call): Doc {
    match call
    case CallPut(obj, prop, value) => PutKey(d, obj, prop, value).0
    case CallDelete(obj, prop) => DeleteKey(d, obj, prop).0
    case CallMake(obj, prop, kind) => MakeChild(d, obj, prop, kind).0
    case CallInsert(obj, index, value) => InsertAt(d, obj, index, value).0
    case CallDeleteAt(obj, index) => DeleteAt(d, obj, index).0
    case CallSetElement(obj, id, deleted) => SetElement(d, obj, id, deleted).0
    case CallSplice(obj, index, count, insert) => SpliceText(d, obj, index, count, insert).0
  }

  ghost predicate ValueAgrees(value: Value, kinds: Kinds) {
    value.ObjectValue? ==> kinds(value.obj) == value.kind
  }

  /** A put of a new object on a list is refused only after the object has been
      added, and nobody else will ever see that object. */
  ghost predicate NoOrphan(d: Doc, obj: ObjID, value: Value) {
    value.ObjectValue? && value.obj !in d.objects ==> !IsSeq(d, obj)
  }

  /** A delete by text on a list names an element that is there. */
  ghost predicate TargetThere(d: Doc, obj: ObjID, prop: Str) {
    IsSeq(d, obj) && ParseRef(prop).Ref? ==> Contains(d.objects[obj].elems, ParseRef(prop).id)
  }

  function Width(call: Call): nat {
    match call
    case CallMake(_, _, _) => 2
    case CallSplice(_, _, _, insert) => 1 + |Runes.Split(insert)|
    case _ => 1
  }

  /** The calls the convergence claim covers. */
  ghost predicate CallAllowed(d: Doc, call: Call, kinds: Kinds) {
    && d.maxOp + Width(call) < UINT64_LIMIT
    && match call
       case CallPut(obj, prop, value) => ValueAgrees(value, kinds) && NoOrphan(d, obj, value)
       case CallDelete(obj, prop) => TargetThere(d, obj, prop)
       case CallMake(obj, prop, kind) =>
         var value := ObjectValue(kind, ChildID(Advance(d, 1)));
         ValueAgrees(value, kinds) && NoOrphan(d, obj, value)
       case CallInsert(obj, index, value) => ValueAgrees(value, kinds)
       case _ => true
  }

  // ---- what is known of elements that are there ----

  lemma {:induction false} VisibleMembers(s: seq<Elem>)
    ensures forall e :: e in Visible(s) <==> e in s && !e.deleted
  {
    if s != [] {
      VisibleMembers(s[..|s| - 1]);
      assert s == s[..|s| - 1] + [s[|s| - 1]];
    }
  }

  lemma ObjectMade(d: Doc, obj: ObjID, kinds: Kinds)
    requires StateOK(d, kinds) && obj in d.objects
    ensures obj == ROOT || Made(OpsOf(d), obj)
    ensures d.objects[obj].Kind() == kinds(obj)
  {
    hide ObjectOf, Sound;
  }

  /** A present element was created by an applied operation, so its identity is
      in range, prints and parses. */
  lemma ElementKnown(d: Doc, obj: ObjID, e: Elem, kinds: Kinds)
    requires StateOK(d, kinds) && IsSeq(d, obj) && e in d.objects[obj].elems
    ensures Known(OpsOf(d), obj, e.id)
    ensures e.id.counter <= d.maxOp && e.id.actor != []
    ensures ParseRef(Print(e.id)) == Ref(e.id) && Contains(d.objects[obj].elems, e.id)
  {
    hide WellFormed, TreeOrdered, Print, ParseRef, LastCounter, AllDecided, Apart;
    var elems := d.objects[obj].elems;
    assert ObjectOf(d.objects[obj], OpsOf(d), obj);
    var k :| 0 <= k < |elems| && elems[k] == e;
    assert elems[k].Core() in Cores(OpsOf(d), obj);
    var c := e.Core();
    assert c.id == e.id;
    hide ObjectOf, Represents, UniqueIds;
    var o :| o in OpsOf(d) && o.obj == obj && c in Created(o);
    var i :| 0 <= i < |Created(o)| && Created(o)[i] == c;
    assert WellFormed(o, kinds);
    WellFormedActor(o, kinds);
    ParsePrint(e.id);
  }

  // ---- calls ----

  /** An operation on a list-like object that names only present elements. */
  lemma SeqCall(d: Doc, maxOp: nat, op: Op, kinds: Kinds, hashOf: HashFn)
    requires DocOK(d, kinds, hashOf) && Allocates(d, maxOp, op) && IsSeq(d, op.obj)
    requires WellFormed(op, kinds)
    requires forall v :: v in EventsOf(op) ==> Contains(d.objects[op.obj].elems, v.target)
    requires op.action.Insert? || op.action.Splice? ==>
               ParseRef(op.after).Ref? ==> Contains(d.objects[op.obj].elems, ParseRef(op.after).id)
    ensures var r := Journal(d.(maxOp := maxOp), op); r.1 && DocOK(r.0, kinds, hashOf)
  {
    var elems := d.objects[op.obj].elems;
    hide WellFormed, Graph, ChangesOK, PendingOK, Journal, EventsOf, Known, ParseRef, StateOK;
    forall id | Contains(elems, id) ensures Known(OpsOf(d), op.obj, id) {
      ElementKnown(d, op.obj, elems[IndexOf(elems, id)], kinds);
    }
    ObjectMade(d, op.obj, kinds);
    JournalOK(d, maxOp, op, kinds, hashOf);
  }

  lemma RefusedOK(d: Doc, maxOp: nat, op: Op, kinds: Kinds, hashOf: HashFn)
    requires DocOK(d, kinds, hashOf) && d.maxOp <= maxOp < UINT64_LIMIT
    requires ApplyOp(d.objects, op) == Applied(d.objects, None)
    ensures DocOK(Journal(d.(maxOp := maxOp), op).0, kinds, hashOf)
  {
    hide DocOK, ApplyOp;
    AdvanceOK(d, maxOp - d.maxOp, kinds, hashOf);
    assert d.(maxOp := maxOp).(objects := d.objects) == Advance(d, maxOp - d.maxOp);
  }

  /** Put, at whatever counter the call has reached. */
  lemma PutOK(d: Doc, maxOp: nat, obj: ObjID, prop: Str, value: Value, kinds: Kinds, hashOf: HashFn)
    requires DocOK(d, kinds, hashOf) && d.maxOp < maxOp < UINT64_LIMIT
    requires ValueAgrees(value, kinds) && NoOrphan(d, obj, value)
    ensures var n := d.(maxOp := maxOp);
            DocOK(Journal(n, LocalOp(n, Action.Put, obj, prop, value, [])).0, kinds, hashOf)
  {
    hide Graph, ChangesOK, PendingOK, Journal, Sound, Represents, Known, ParseRef;
    var n := d.(maxOp := maxOp);
    var op := LocalOp(n, Action.Put, obj, prop, value, []);
    if obj in d.objects && d.objects[obj].MapObject? {
      ObjectMade(d, obj, kinds);
      hide StateOK;
      JournalOK(d, maxOp, op, kinds, hashOf);
    } else {
      assert EnsureObject(d.objects, value) == d.objects || obj !in d.objects;
      hide StateOK;
      RefusedOK(d, maxOp, op, kinds, hashOf);
    }
  }

  lemma DeleteOK(d: Doc, obj: ObjID, prop: Str, kinds: Kinds, hashOf: HashFn)
    requires DocOK(d, kinds, hashOf) && d.maxOp + 1 < UINT64_LIMIT
    requires TargetThere(d, obj, prop)
    ensures DocOK(DeleteKey(d, obj, prop).0, kinds, hashOf)
  {
    hide Graph, ChangesOK, PendingOK, Journal, Sound, Represents, Known, ParseRef;
    var op := LocalOp(Advance(d, 1), Action.Delete, obj, prop, Null, []);
    if obj !in d.objects {
      hide StateOK;
      RefusedOK(d, d.maxOp + 1, op, kinds, hashOf);
    } else {
      ObjectMade(d, obj, kinds);
      if IsSeq(d, obj) {
        if ParseRef(prop).Ref? {
          var elems := d.objects[obj].elems;
          ElementKnown(d, obj, elems[IndexOf(elems, ParseRef(prop).id)], kinds);
        }
        hide StateOK;
        SeqCall(d, d.maxOp + 1, op, kinds, hashOf);
      } else {
        hide StateOK;
        JournalOK(d, d.maxOp + 1, op, kinds, hashOf);
      }
    }
  }

  lemma SetElementOK(d: Doc, obj: ObjID, id: OpID, deleted: bool, kinds: Kinds, hashOf: HashFn)
    requires DocOK(d, kinds, hashOf) && d.maxOp + 1 < UINT64_LIMIT
    ensures DocOK(SetElement(d, obj, id, deleted).0, kinds, hashOf)
  {
    hide Graph, ChangesOK, PendingOK, Journal, Sound, Represents, Known, ParseRef, Print;
    if IsSeq(d, obj) && Contains(d.objects[obj].elems, id) {
      var op := LocalOp(Advance(d, 1), if deleted then Action.Delete else Action.Revive, obj, Print(id), Null, []);
      var elems := d.objects[obj].elems;
      ObjectMade(d, obj, kinds);
      ElementKnown(d, obj, elems[IndexOf(elems, id)], kinds);
      hide StateOK;
      SeqCall(d, d.maxOp + 1, op, kinds, hashOf);
    }
  }

  lemma InsertOK(d: Doc, obj: ObjID, index: nat, value: Value, kinds: Kinds, hashOf: HashFn)
    requires DocOK(d, kinds, hashOf) && d.maxOp + 1 < UINT64_LIMIT && ValueAgrees(value, kinds)
    ensures DocOK(InsertAt(d, obj, index, value).0, kinds, hashOf)
  {
    hide DocOK, Journal, Print, AfterText, Decimal;
    if IsSeq(d, obj) && AfterText(d.objects[obj].elems, index).Some? {
      InsertJournalOK(d, obj, index, value, kinds, hashOf);
    }
  }

  lemma InsertJournalOK(d: Doc, obj: ObjID, index: nat, value: Value, kinds: Kinds, hashOf: HashFn)
    requires DocOK(d, kinds, hashOf) && d.maxOp + 1 < UINT64_LIMIT && ValueAgrees(value, kinds)
    requires IsSeq(d, obj) && AfterText(d.objects[obj].elems, index).Some?
    ensures var n := Advance(d, 1); var after := AfterText(d.objects[obj].elems, index).value;
            DocOK(Journal(n, LocalOp(n, Action.Insert, obj, Decimal(index), value, after)).0, kinds, hashOf)
  {
    hide Graph, ChangesOK, PendingOK, Journal, Sound, Represents, Known, Print;
    var elems := d.objects[obj].elems;
    var op := LocalOp(Advance(d, 1), Action.Insert, obj, Decimal(index), value, AfterText(elems, index).value);
    ObjectMade(d, obj, kinds);
    if index > 0 {
      VisibleMembers(elems);
      ElementKnown(d, obj, Visible(elems)[index - 1], kinds);
    }
    hide StateOK, ParseRef;
    SeqCall(d, d.maxOp + 1, op, kinds, hashOf);
  }

  /** The identities a splice deletes are those of the visible range. */
  lemma SpliceDeletes(d: Doc, obj: ObjID, index: nat, count: nat, insert: Str, kinds: Kinds)
    requires StateOK(d, kinds) && IsSeq(d, obj) && index + count <= |Visible(d.objects[obj].elems)|
    ensures var op := SpliceOp(d, obj, index, count, insert);
            && ExpandRuns(op.deleteRuns) == Ids(Visible(d.objects[obj].elems)[index..index + count])
            && forall id :: id in ExpandRuns(op.deleteRuns) ==> id.counter <= d.maxOp && Contains(d.objects[obj].elems, id)
  {
    hide StateOK, CompressRuns, ExpandRuns, Print, ParseRef, Known;
    var elems := d.objects[obj].elems;
    var op := SpliceOp(d, obj, index, count, insert);
    VisibleMembers(elems);
    CompressExpand(Ids(Visible(elems)[index..index + count]));
    forall id | id in ExpandRuns(op.deleteRuns) ensures id.counter <= d.maxOp && Contains(elems, id) {
      var i :| 0 <= i < count && Ids(Visible(elems)[index..index + count])[i] == id;
      ElementKnown(d, obj, Visible(elems)[index + i], kinds);
    }
  }

  lemma SpliceReference(d: Doc, obj: ObjID, index: nat, count: nat, insert: Str, kinds: Kinds)
    requires StateOK(d, kinds) && IsSeq(d, obj) && index + count <= |Visible(d.objects[obj].elems)|
    ensures var op := SpliceOp(d, obj, index, count, insert);
            && RefBelow(op.after, op.id)
            && (ParseRef(op.after).Ref? ==> Contains(d.objects[obj].elems, ParseRef(op.after).id))
  {
    hide StateOK, CompressRuns, ExpandRuns, Print, Known;
    var elems := d.objects[obj].elems;
    if index > 0 {
      VisibleMembers(elems);
      ElementKnown(d, obj, Visible(elems)[index - 1], kinds);
    }
  }

  lemma SpliceWellFormed(d: Doc, obj: ObjID, index: nat, count: nat, insert: Str, kinds: Kinds)
    requires StateOK(d, kinds) && IsSeq(d, obj) && d.objects[obj].isText
    requires index + count <= |Visible(d.objects[obj].elems)|
    ensures var op := SpliceOp(d, obj, index, count, insert);
            && WellFormed(op, kinds)
            && (forall v :: v in EventsOf(op) ==> Contains(d.objects[obj].elems, v.target))
            && LastCounter(op) <= d.maxOp + if |Runes.Split(insert)| < 1 then 1 else |Runes.Split(insert)|
  {
    hide RefBelow, Represents, Sound, Print, ParseRef, CompressRuns, ExpandRuns, Visible;
    ObjectMade(d, obj, kinds);
    SpliceDeletes(d, obj, index, count, insert, kinds);
    SpliceReference(d, obj, index, count, insert, kinds);
  }

  lemma SpliceOK(d: Doc, obj: ObjID, index: nat, count: nat, insert: Str, kinds: Kinds, hashOf: HashFn)
    requires DocOK(d, kinds, hashOf) && d.maxOp + 1 + |Runes.Split(insert)| < UINT64_LIMIT
    ensures DocOK(SpliceText(d, obj, index, count, insert).0, kinds, hashOf)
    ensures (IsSeq(d, obj) && d.objects[obj].isText && index + count <= |Visible(d.objects[obj].elems)|)
              ==> SpliceText(d, obj, index, count, insert).1.Some?
  {
    hide DocOK, Journal, SpliceOp, Visible, Runes.Split;
    var runes := Runes.Split(insert);
    if IsSeq(d, obj) && d.objects[obj].isText && index + count <= |Visible(d.objects[obj].elems)|
       && (count > 0 || runes != [])
    {
      SpliceJournalOK(d, obj, index, count, insert, if |runes| < 1 then 1 else |runes|, kinds, hashOf);
    }
  }

  lemma SpliceJournalOK(d: Doc, obj: ObjID, index: nat, count: nat, insert: Str, width: nat, kinds: Kinds, hashOf: HashFn)
    requires DocOK(d, kinds, hashOf) && IsSeq(d, obj) && d.objects[obj].isText
    requires index + count <= |Visible(d.objects[obj].elems)|
    requires width == (if |Runes.Split(insert)| < 1 then 1 else |Runes.Split(insert)|) && d.maxOp + width < UINT64_LIMIT
    ensures var r := Journal(Advance(d, width), SpliceOp(d, obj, index, count, insert)); r.1 && DocOK(r.0, kinds, hashOf)
  {
    hide Graph, ChangesOK, PendingOK, Journal, StateOK, RefBelow, ParseRef, CompressRuns, ExpandRuns, Visible, WellFormed,
         EventsOf, LastCounter, Print, Runes.Split;
    var op := SpliceOp(d, obj, index, count, insert);
    SpliceWellFormed(d, obj, index, count, insert, kinds);
    SpliceReference(d, obj, index, count, insert, kinds);
    SeqCall(d, d.maxOp + width, op, kinds, hashOf);
  }

  /** Every allowed local call keeps the invariant. */
  lemma CallOK(d: Doc, call: Call, kinds: Kinds, hashOf: HashFn)
    requires DocOK(d, kinds, hashOf) && CallAllowed(d, call, kinds)
    ensures DocOK(DoCall(d, call), kinds, hashOf)
    ensures DoCall(d, call).changes == d.changes && DoCall(d, call).actor == d.actor
  {
    hide DocOK, ApplyOp, SpliceOp;
    match call
    case CallPut(obj, prop, value) =>
      PutOK(d, d.maxOp + 1, obj, prop, value, kinds, hashOf);
    case CallDelete(obj, prop) => DeleteOK(d, obj, prop, kinds, hashOf);
    case CallMake(obj, prop, kind) =>
      PutOK(d, d.maxOp + 2, obj, prop, ObjectValue(kind, ChildID(Advance(d, 1))), kinds, hashOf);
    case CallInsert(obj, index, value) => InsertOK(d, obj, index, value, kinds, hashOf);
    case CallDeleteAt(obj, index) => DeleteAtOK(d, obj, index, kinds, hashOf);
    case CallSetElement(obj, id, deleted) => SetElementOK(d, obj, id, deleted, kinds, hashOf);
    case CallSplice(obj, index, count, insert) => SpliceOK(d, obj, index, count, insert, kinds, hashOf);
  }

  lemma DeleteAtOK(d: Doc, obj: ObjID, index: nat, kinds: Kinds, hashOf: HashFn)
    requires DocOK(d, kinds, hashOf) && d.maxOp + 1 < UINT64_LIMIT
    ensures DocOK(DeleteAt(d, obj, index).0, kinds, hashOf)
  {
    hide Graph, ChangesOK, PendingOK, Journal, StateOK, Print, ParseRef, DeleteKey;
    if IsSeq(d, obj) && index < |Visible(d.objects[obj].elems)| {
      var elems := d.objects[obj].elems;
      VisibleMembers(elems);
      ElementKnown(d, obj, Visible(elems)[index], kinds);
      DeleteOK(d, obj, Print(Visible(elems)[index].id), kinds, hashOf);
    }
  }
}
