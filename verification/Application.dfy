/** Applying one causally ready operation keeps the representation. */
module Application {
  import opened OpIds
  import opened Values
  import opened Rga
  import opened Ops
  import opened Objects
  import opened Histories
  import opened Representation
  import Runes

  ghost predicate Known(ops: set<Op>, obj: ObjID, id: OpID) {
    exists c :: c in Cores(ops, obj) && c.id == id
  }

  /** Everything the operation names was created by the operations in ops. */
  ghost predicate Ready(op: Op, ops: set<Op>, kinds: Kinds) {
    && (op.obj == ROOT || Made(ops, op.obj))
    && (kinds(op.obj) != MapKind ==>
          && (forall v :: v in EventsOf(op) ==> Known(ops, op.obj, v.target))
          && ((op.action.Insert? || op.action.Splice?) && ParseRef(op.after).Ref? ==>
                Known(ops, op.obj, ParseRef(op.after).id)))
  }

  /** More operations never make a ready operation unready. */
  lemma ReadyMore(op: Op, ops: set<Op>, more: set<Op>, kinds: Kinds)
    requires Ready(op, ops, kinds) && ops <= more
    ensures Ready(op, more, kinds)
  {
    hide Created, EventsOf;
    if op.obj != ROOT {
      var o :| o in ops && o.value.ObjectValue? && o.value.obj == op.obj;
    }
    forall id | Known(ops, op.obj, id) ensures Known(more, op.obj, id) {
      var c :| c in Cores(ops, op.obj) && c.id == id;
      assert c in Cores(more, op.obj);
    }
  }

  // ---- objects the operation does not address ----

  lemma OtherObject(o: Object, ops: set<Op>, op: Op, obj: ObjID)
    requires ObjectOf(o, ops, obj) && op.obj != obj
    ensures ObjectOf(o, ops + {op}, obj)
  {
    hide Cores, Events, Writes, SeqOf, MapOf, TargetsKnown;
    AddOp(ops, op, obj);
    assert Cores(ops, obj) + {} == Cores(ops, obj);
    assert Events(ops, obj) + {} == Events(ops, obj);
    assert Writes(ops, obj) + {} == Writes(ops, obj);
  }

  lemma NewObjectOf(ops: set<Op>, kind: Kind, obj: ObjID)
    requires forall o :: o in ops ==> o.obj != obj
    ensures ObjectOf(NewObject(kind), ops, obj) && NewObject(kind).Kind() == kind
  {
    assert Cores(ops, obj) == {} && Events(ops, obj) == {} && Writes(ops, obj) == {};
  }

  lemma EnsureRepresents(objs: Objects, ops: set<Op>, value: Value, kinds: Kinds)
    requires Represents(objs, ops, kinds)
    requires value.ObjectValue? ==> kinds(value.obj) == value.kind
    ensures var ready := EnsureObject(objs, value);
            && objs.Keys <= ready.Keys <= objs.Keys + (if value.ObjectValue? then {value.obj} else {})
            && (value.ObjectValue? ==> value.obj in ready)
            && (forall k :: k in ready ==> ready[k].Kind() == kinds(k) && ObjectOf(ready[k], ops, k))
  {
    hide ObjectOf;
    if value.ObjectValue? && value.obj !in objs {
      NewObjectOf(ops, value.kind, value.obj);
    }
  }

  // ---- the object the operation addresses ----

  lemma WriteObject(entries: map<Str, Entry>, ops: set<Op>, op: Op, w: Write, kinds: Kinds)
    requires MapOf(entries, Writes(ops, op.obj)) && Sound(ops + {op}, kinds)
    requires WritesOf(op) == {w}
    ensures MapOf(WriteEntry(entries, w.key, w.entry), Writes(ops + {op}, op.obj))
  {
    hide MapOf, WritesOf, Writes, WriteEntry, Cores, Events, LastCounter;
    AddOp(ops, op, op.obj);
    WritesUnique(ops + {op}, kinds, op.obj);
    WritesSubset(Writes(ops, op.obj), Writes(ops + {op}, op.obj));
    assert w in Writes(ops + {op}, op.obj);
    WriteEntryMapOf(entries, w.key, w.entry, Writes(ops, op.obj));
    assert Write(w.key, w.entry) == w;
  }

  lemma WritesSubset(a: set<Write>, b: set<Write>)
    requires a <= b && WritesSound(b)
    ensures WritesSound(a)
  {
  }

  lemma KnownContains(elems: seq<Elem>, ops: set<Op>, obj: ObjID, id: OpID)
    requires SameCores(elems, Cores(ops, obj)) && Known(ops, obj, id)
    ensures Contains(elems, id)
  {
    hide Cores;
    var c :| c in Cores(ops, obj) && c.id == id;
    assert HasCore(elems, c);
    var k :| 0 <= k < |elems| && elems[k].Core() == c;
    assert elems[k].id == id;
  }

  lemma TargetsMore(ops: set<Op>, op: Op, kinds: Kinds)
    requires TargetsKnown(Cores(ops, op.obj), Events(ops, op.obj))
    requires Ready(op, ops, kinds) && kinds(op.obj) != MapKind
    ensures TargetsKnown(Cores(ops + {op}, op.obj), Events(ops + {op}, op.obj))
  {
    hide Cores, Events, EventsOf, Created;
    AddOp(ops, op, op.obj);
    var cores, cores' := Cores(ops, op.obj), Cores(ops + {op}, op.obj);
    forall v | v in Events(ops + {op}, op.obj) ensures exists c :: c in cores' && c.id == v.target {
      assert v in EventsOf(op) ==> Known(ops, op.obj, v.target);
      assert exists c :: c in cores && c.id == v.target;
      var c :| c in cores && c.id == v.target;
      assert c in cores';
    }
  }

  /** A delete or revive of one element. */
  lemma VisibilityObject(elems: seq<Elem>, ops: set<Op>, op: Op, kinds: Kinds, v: Event)
    requires SeqOf(elems, Cores(ops, op.obj), Events(ops, op.obj))
    requires WellFormed(op, kinds) && Ready(op, ops, kinds) && kinds(op.obj) != MapKind
    requires op.action.Delete? || op.action.Revive?
    requires EventsOf(op) == {v}
    ensures Contains(elems, v.target)
    ensures SeqOf(SetVisibility(elems, v.target, v.deleted, op.id), Cores(ops + {op}, op.obj), Events(ops + {op}, op.obj))
  {
    hide SeqOf, Cores, Events, WellFormed, EventsOf, OpID.Less;
    AddOp(ops, op, op.obj);
    assert v in EventsOf(op);
    EventsOfOp(op, kinds, v);
    WellFormedActor(op, kinds);
    assert SameCores(elems, Cores(ops, op.obj)) by { SeqOfCores(elems, Cores(ops, op.obj), Events(ops, op.obj)); }
    KnownContains(elems, ops, op.obj, v.target);
    SetVisibilitySeqOf(elems, v.target, v.deleted, op.id, Cores(ops, op.obj), Events(ops, op.obj));
    assert Event(v.target, v.deleted, op.id) == v;
    assert Created(op) == [];
    assert Cores(ops, op.obj) + SetOf(Created(op)) == Cores(ops, op.obj);
  }

  lemma SeqOfCores(elems: seq<Elem>, cores: set<Elem>, events: set<Event>)
    requires SeqOf(elems, cores, events)
    ensures SameCores(elems, cores)
  {
  }

  lemma RefBelowLess(after: Str, id: OpID)
    requires RefBelow(after, id)
    ensures !ParseRef(after).Malformed?
    ensures FormatRef(AfterOf(ParseRef(after))) == after
    ensures ParseRef(after).Ref? ==> ParseRef(after).id.Less(id)
  {
    assert after == [] ==> ParseRef(after) == Head;
  }

  lemma ReferencePresent(elems: seq<Elem>, ops: set<Op>, op: Op, kinds: Kinds)
    requires SeqOf(elems, Cores(ops, op.obj), Events(ops, op.obj))
    requires WellFormed(op, kinds) && Ready(op, ops, kinds)
    requires op.action.Insert? || op.action.Splice?
    ensures !ParseRef(op.after).Malformed?
    ensures FormatRef(AfterOf(ParseRef(op.after))) == op.after
    ensures RefPresent(elems, AfterOf(ParseRef(op.after)), op.id)
  {
    hide SeqOf, Cores, Events, OpID.Less, RefBelow;
    assert RefBelow(op.after, op.id);
    RefBelowLess(op.after, op.id);
    SeqOfCores(elems, Cores(ops, op.obj), Events(ops, op.obj));
    if ParseRef(op.after).Ref? {
      KnownContains(elems, ops, op.obj, ParseRef(op.after).id);
    }
  }

  lemma InsertObject(elems: seq<Elem>, ops: set<Op>, op: Op, kinds: Kinds)
    requires SeqOf(elems, Cores(ops, op.obj), Events(ops, op.obj))
    requires TargetsKnown(Cores(ops, op.obj), Events(ops, op.obj))
    requires WellFormed(op, kinds) && Ready(op, ops, kinds) && op.action.Insert?
    requires Sound(ops + {op}, kinds)
    ensures !ParseRef(op.after).Malformed?
    ensures var e := Elem(op.id, op.after, op.value, false, op.id);
            SeqOf(InsertOnce(elems, AfterOf(ParseRef(op.after)), e), Cores(ops + {op}, op.obj), Events(ops + {op}, op.obj))
  {
    hide SeqOf, Cores, Events, RefBelow, Sound, TargetsKnown, CoreIdsUnique, InsertOnce, RefPresent;
    var e := Elem(op.id, op.after, op.value, false, op.id);
    ReferencePresent(elems, ops, op, kinds);
    AddOp(ops, op, op.obj);
    CoresUnique(ops + {op}, kinds, op.obj);
    assert SetOf(Created(op)) == {e};
    assert Events(ops, op.obj) + EventsOf(op) == Events(ops, op.obj);
    InsertOnceSeqOf(elems, AfterOf(ParseRef(op.after)), e, Cores(ops, op.obj), Events(ops, op.obj));
  }

  lemma SpliceObject(elems: seq<Elem>, ops: set<Op>, op: Op, kinds: Kinds)
    requires SeqOf(elems, Cores(ops, op.obj), Events(ops, op.obj))
    requires TargetsKnown(Cores(ops, op.obj), Events(ops, op.obj))
    requires WellFormed(op, kinds) && Ready(op, ops, kinds) && op.action.Splice?
    requires Sound(ops + {op}, kinds)
    ensures !ParseRef(op.after).Malformed?
    ensures var (deleted, found) := DeleteAll(elems, ExpandRuns(op.deleteRuns), op.id);
            && found
            && SeqOf(InsertRun(deleted, AfterOf(ParseRef(op.after)), Runes.Split(op.run), op.id),
                     Cores(ops + {op}, op.obj), Events(ops + {op}, op.obj))
  {
    hide SeqOf, Cores, Events, RefBelow, Sound, TargetsKnown, CoreIdsUnique, RefPresent, OpID.Less;
    ReferencePresent(elems, ops, op, kinds);
    var ids := ExpandRuns(op.deleteRuns);
    var after := AfterOf(ParseRef(op.after));
    var cores, events := Cores(ops, op.obj), Events(ops, op.obj);
    SeqOfCores(elems, cores, events);
    forall id | id in ids ensures Contains(elems, id) && id.Less(op.id) {
      var v := Event(id, true, op.id);
      assert v in EventsOf(op);
      EventsOfOp(op, kinds, v);
      KnownContains(elems, ops, op.obj, v.target);
    }
    DeleteAllSeqOf(elems, ids, op.id, cores, events);
    var (deleted, found) := DeleteAll(elems, ids, op.id);
    assert RefPresent(deleted, after, op.id) by { RefStillPresent(elems, deleted, after, op.id); }
    AddOp(ops, op, op.obj);
    CoresUnique(ops + {op}, kinds, op.obj);
    TargetsMore(ops, op, kinds);
    assert TargetsKnown(cores, events + DeleteEvents(ids, op.id)) by { TargetsBefore(ops, op, kinds); }
    InsertRunSeqOf(deleted, after, Runes.Split(op.run), op.id, cores, events + DeleteEvents(ids, op.id));
  }

  lemma RefStillPresent(s: seq<Elem>, t: seq<Elem>, after: Option<OpID>, id: OpID)
    requires RefPresent(s, after, id) && forall x :: Contains(t, x) == Contains(s, x)
    ensures RefPresent(t, after, id)
  {
  }

  lemma TargetsBefore(ops: set<Op>, op: Op, kinds: Kinds)
    requires TargetsKnown(Cores(ops, op.obj), Events(ops, op.obj))
    requires Ready(op, ops, kinds) && kinds(op.obj) != MapKind
    ensures TargetsKnown(Cores(ops, op.obj), Events(ops, op.obj) + EventsOf(op))
  {
    hide Cores, Events, EventsOf;
    var cores := Cores(ops, op.obj);
    forall v | v in Events(ops, op.obj) + EventsOf(op) ensures exists c :: c in cores && c.id == v.target {
      assert v in EventsOf(op) ==> Known(ops, op.obj, v.target);
    }
  }

  // ---- one operation ----

  /** What remains to show once the addressed object is known to be right. */
  lemma TargetUpdated(objs: Objects, ready: Objects, target: Object, ops: set<Op>, op: Op, kinds: Kinds)
    requires Represents(objs, ops, kinds) && op.obj in objs
    requires ready == EnsureObject(objs, op.value) && WellFormed(op, kinds)
    requires target.Kind() == kinds(op.obj) && ObjectOf(target, ops + {op}, op.obj)
    ensures Represents(ready[op.obj := target], ops + {op}, kinds)
  {
    hide ObjectOf;
    var after := ready[op.obj := target];
    assert op.value.ObjectValue? ==> kinds(op.value.obj) == op.value.kind;
    hide WellFormed;
    EnsureRepresents(objs, ops, op.value, kinds);
    KeysUpdated(objs, after, ops, op);
    forall k | k in after ensures ObjectOf(after[k], ops + {op}, k) {
      if k != op.obj { OtherObject(ready[k], ops, op, k); }
    }
  }

  lemma KeysUpdated(objs: Objects, after: Objects, ops: set<Op>, op: Op)
    requires KeysOf(objs, ops) && op.obj in objs
    requires objs.Keys <= after.Keys <= objs.Keys + (if op.value.ObjectValue? then {op.value.obj} else {})
    requires op.value.ObjectValue? ==> op.value.obj in after
    ensures KeysOf(after, ops + {op})
  {
    forall k | k in after ensures k == ROOT || Made(ops + {op}, k) {
      if k !in objs {
        assert op in ops + {op};
      } else if k != ROOT {
        var o :| o in ops && o.value.ObjectValue? && o.value.obj == k;
        assert o in ops + {op};
      }
    }
  }

  lemma PutTarget(entries: map<Str, Entry>, ops: set<Op>, op: Op, kinds: Kinds)
    requires ObjectOf(MapObject(entries), ops, op.obj) && Sound(ops + {op}, kinds)
    requires op.action.Put? || op.action.Delete?
    ensures var e := if op.action.Put? then Entry(op.value, op.id, false) else Entry(NoValue, op.id, true);
            ObjectOf(MapObject(WriteEntry(entries, op.prop, e)), ops + {op}, op.obj)
  {
    hide Sound, Writes, MapOf, WriteEntry;
    var e := if op.action.Put? then Entry(op.value, op.id, false) else Entry(NoValue, op.id, true);
    WriteObject(entries, ops, op, Write(op.prop, e), kinds);
  }

  /** The addressed object after the operation, and that it was accepted. */
  ghost predicate Accepts(ready: Objects, op: Op, ops: set<Op>, kinds: Kinds)
    requires op.obj in ready
  {
    var a := match op.action
             case Put => ApplyPut(ready, op)
             case Delete => ApplyDelete(ready, op)
             case Revive => ApplyRevive(ready, op)
             case Insert => ApplyInsert(ready, op)
             case Splice => ApplySplice(ready, op)
             case _ => Applied(ready, None);
    && a.patch.Some?
    && op.obj in a.objects
    && a.objects == ready[op.obj := a.objects[op.obj]]
    && a.objects[op.obj].Kind() == kinds(op.obj)
    && ObjectOf(a.objects[op.obj], ops + {op}, op.obj)
  }

  lemma MapTarget(ready: Objects, ops: set<Op>, op: Op, kinds: Kinds)
    requires op.obj in ready && ready[op.obj].MapObject? && kinds(op.obj) == MapKind
    requires ObjectOf(ready[op.obj], ops, op.obj)
    requires WellFormed(op, kinds) && Sound(ops + {op}, kinds)
    ensures Accepts(ready, op, ops, kinds)
  {
    hide Sound, ObjectOf, WriteEntry;
    PutTarget(ready[op.obj].entries, ops, op, kinds);
  }

  lemma DeleteReviveTarget(ready: Objects, ops: set<Op>, op: Op, kinds: Kinds)
    requires op.obj in ready && ready[op.obj].SeqObject?
    requires ready[op.obj].Kind() == kinds(op.obj)
    requires ObjectOf(ready[op.obj], ops, op.obj) && Ready(op, ops, kinds)
    requires WellFormed(op, kinds) && (op.action.Delete? || op.action.Revive?)
    ensures Accepts(ready, op, ops, kinds)
  {
    hide Ready, SeqOf, Cores, Events, TargetsKnown, SetVisibility, ParseRef;
    var elems := ready[op.obj].elems;
    TargetsMore(ops, op, kinds);
    if ParseRef(op.prop).Ref? {
      var v := Event(ParseRef(op.prop).id, op.action.Delete?, op.id);
      assert EventsOf(op) == {v};
      VisibilityObject(elems, ops, op, kinds, v);
    } else {
      assert EventsOf(op) == {} && SetOf(Created(op)) == {};
      AddOp(ops, op, op.obj);
      assert Cores(ops, op.obj) + {} == Cores(ops, op.obj);
      assert Events(ops, op.obj) + {} == Events(ops, op.obj);
      assert ready[op.obj := ready[op.obj]] == ready;
    }
  }

  lemma InsertTarget(ready: Objects, ops: set<Op>, op: Op, kinds: Kinds)
    requires op.obj in ready && ready[op.obj].SeqObject?
    requires ready[op.obj].Kind() == kinds(op.obj)
    requires ObjectOf(ready[op.obj], ops, op.obj) && Ready(op, ops, kinds)
    requires WellFormed(op, kinds) && op.action.Insert? && Sound(ops + {op}, kinds)
    ensures Accepts(ready, op, ops, kinds)
  {
    hide Sound, SeqOf, Cores, Events, TargetsKnown, ParseRef, InsertAfter, VisibleIndexOf, Ready;
    TargetsMore(ops, op, kinds);
    InsertObject(ready[op.obj].elems, ops, op, kinds);
  }

  lemma SpliceTarget(ready: Objects, ops: set<Op>, op: Op, kinds: Kinds)
    requires op.obj in ready && ready[op.obj].SeqObject?
    requires ready[op.obj].Kind() == kinds(op.obj)
    requires ObjectOf(ready[op.obj], ops, op.obj) && Ready(op, ops, kinds)
    requires WellFormed(op, kinds) && op.action.Splice? && Sound(ops + {op}, kinds)
    ensures Accepts(ready, op, ops, kinds)
  {
    hide Sound, SeqOf, Cores, Events, TargetsKnown, ParseRef, InsertRun, DeleteAll, VisibleIndexOf, Ready;
    TargetsMore(ops, op, kinds);
    SpliceObject(ready[op.obj].elems, ops, op, kinds);
  }

  lemma Acceptance(ready: Objects, ops: set<Op>, op: Op, kinds: Kinds)
    requires op.obj in ready && ready[op.obj].Kind() == kinds(op.obj)
    requires ObjectOf(ready[op.obj], ops, op.obj) && Ready(op, ops, kinds)
    requires WellFormed(op, kinds) && Sound(ops + {op}, kinds)
    ensures Accepts(ready, op, ops, kinds)
  {
    hide Sound, ObjectOf, Ready, Accepts;
    match op.action
    case Put => MapTarget(ready, ops, op, kinds);
    case Delete =>
      if ready[op.obj].MapObject? { MapTarget(ready, ops, op, kinds); }
      else { DeleteReviveTarget(ready, ops, op, kinds); }
    case Revive => DeleteReviveTarget(ready, ops, op, kinds);
    case Insert => InsertTarget(ready, ops, op, kinds);
    case Splice => SpliceTarget(ready, ops, op, kinds);
    case _ =>
  }

  /** A causally ready operation is accepted, and the document then represents
      one operation more, also when it had been applied before. */
  lemma ApplyRepresents(objs: Objects, ops: set<Op>, op: Op, kinds: Kinds)
    requires Represents(objs, ops, kinds) && Ready(op, ops, kinds)
    requires WellFormed(op, kinds) && Sound(ops + {op}, kinds)
    ensures ApplyOp(objs, op).patch.Some?
    ensures Represents(ApplyOp(objs, op).objects, ops + {op}, kinds)
  {
    ReadyPresent(objs, ops, op, kinds);
    var ready := EnsureObject(objs, op.value);
    WellFormedValue(op, kinds);
    EnsureRepresents(objs, ops, op.value, kinds);
    hide *;
    Acceptance(ready, ops, op, kinds);
    AcceptedOp(objs, ops, op, kinds);
    TargetUpdated(objs, ready, ApplyOp(objs, op).objects[op.obj], ops, op, kinds);
  }

  /** An accepted operation is what ApplyOp does. */
  lemma AcceptedOp(objs: Objects, ops: set<Op>, op: Op, kinds: Kinds)
    requires op.obj in objs && op.obj in EnsureObject(objs, op.value)
    requires !op.action.Increment? && Accepts(EnsureObject(objs, op.value), op, ops, kinds)
    ensures var a := ApplyOp(objs, op); var ready := EnsureObject(objs, op.value);
            && a.patch.Some? && op.obj in a.objects && a.objects == ready[op.obj := a.objects[op.obj]]
            && a.objects[op.obj].Kind() == kinds(op.obj) && ObjectOf(a.objects[op.obj], ops + {op}, op.obj)
  {
    hide EnsureObject, ObjectOf, ApplyPut, ApplyDelete, ApplyRevive, ApplyInsert, ApplySplice;
  }

  lemma ReadyPresent(objs: Objects, ops: set<Op>, op: Op, kinds: Kinds)
    requires Represents(objs, ops, kinds) && Ready(op, ops, kinds)
    ensures op.obj in objs
  {
    if op.obj != ROOT {
      var o :| o in ops && o.value.ObjectValue? && o.value.obj == op.obj;
    }
  }

  lemma WellFormedValue(op: Op, kinds: Kinds)
    requires WellFormed(op, kinds)
    ensures op.value.ObjectValue? ==> kinds(op.value.obj) == op.value.kind
    ensures !op.action.Increment? && !op.action.Unknown?
  {
  }
}
