/** Where the promises of crdt/doc.go stop: for each operation that can leave two
    replicas with different objects, the exact condition, and a reachable document
    on which it happens. */
module Limits {
  import opened OpIds
  import opened Values
  import opened Rga
  import opened Ops
  import opened Objects
  import opened Documents

  /** Two operations agree in both orders of arrival. */
  ghost predicate Commute(objs: Objects, a: Op, b: Op) {
    ApplyOp(ApplyOp(objs, a).objects, b).objects == ApplyOp(ApplyOp(objs, b).objects, a).objects
  }

  // ---- refused puts ----

  /** A put is refused exactly when its target is missing or a sequence. It then
      changes the objects exactly when it brings a new object to a sequence: that
      object is added first and stays behind. */
  lemma RefusedPutLeavesOrphan(objs: Objects, op: Op)
    requires op.action.Put?
    ensures var a := ApplyOp(objs, op);
            var orphan := op.obj in objs && objs[op.obj].SeqObject? && op.value.ObjectValue? && op.value.obj !in objs;
            && (a.patch.None? <==> op.obj !in objs || objs[op.obj].SeqObject?)
            && (a.patch.None? && a.objects != objs <==> orphan)
            && (orphan ==> a.objects == objs[op.value.obj := NewObject(op.value.kind)])
  {
    hide WriteEntry;
    if op.value.ObjectValue? && op.value.obj !in objs {
      assert op.value.obj in EnsureObject(objs, op.value);
    }
  }

  /** So MakeMap, MakeList or MakeText on a sequence changes the objects of one
      replica although it journals nothing, and no other call to them does. */
  lemma RefusedMakeDiverges(d: Doc, obj: ObjID, prop: Str, kind: Kind)
    ensures var (n, ok) := MakeChild(d, obj, prop, kind);
            && (!ok && n.objects != d.objects <==> IsSeq(d, obj) && ChildID(Advance(d, 1)) !in d.objects)
            && n.changes == d.changes && (!ok ==> n.pending == d.pending)
  {
    hide ApplyOp, ChildName;
    var n := Advance(Advance(d, 1), 1);
    RefusedPutLeavesOrphan(d.objects, LocalOp(n, Action.Put, obj, prop, ObjectValue(kind, ChildID(Advance(d, 1))), []));
  }

  /** A new document with one empty list. */
  function WithList(actor: Str): Doc {
    MakeChild(NewDoc(actor), ROOT, [107], ListKind).0
  }

  lemma ListMade(actor: Str)
    ensures var d := WithList(actor); var list := ChildName(actor, 1);
            && d.actor == actor && d.maxOp == 2 && list in d.objects && d.objects[list] == SeqObject(false, [])
            && d.objects.Keys == {ROOT, list}
  {
    ChildNamesDiffer(actor, 1, actor, 1);
    hide ChildName;
  }

  lemma OneMakeDiverges()
    ensures var d := WithList([97]);
            var (n, ok) := MakeChild(d, ChildName([97], 1), [120], MapKind);
            !ok && n.objects != d.objects
  {
    hide MakeChild, WithList, ChildName, Decimal;
    var d := WithList([97]);
    ListMade([97]);
    ThirdChildIsNew(d);
    RefusedMakeDiverges(d, ChildName([97], 1), [120], MapKind);
  }

  lemma ThirdChildIsNew(d: Doc)
    requires d.actor == [97] && d.maxOp == 2 && d.objects.Keys == {ROOT, ChildName([97], 1)}
    ensures ChildID(Advance(d, 1)) !in d.objects
  {
    hide ChildName;
    ChildNamesDiffer([97], 3, [97], 1);
  }

  // ---- early deletes ----

  /** A delete by text that names an element which has not arrived is lost, while
      a replica that has the element deletes it: the two orders agree exactly when
      the delete would have lost the comparison anyway. */
  lemma EarlyDeleteIsLost(objs: Objects, insert: Op, delete: Op)
    requires insert.action.Insert? && delete.action.Delete? && insert.obj == delete.obj
    requires insert.obj in objs && objs[insert.obj].SeqObject?
    requires !insert.value.ObjectValue? && !delete.value.ObjectValue?
    requires !ParseRef(insert.after).Malformed? && ParseRef(delete.prop) == Ref(insert.id)
    requires !Contains(objs[insert.obj].elems, insert.id) && insert.id.actor != []
    ensures Commute(objs, insert, delete) <==> !delete.id.Greater(insert.id)
  {
    hide InsertPosition, OpID.Less, ParseRef, VisibleIndexOf;
    var s := objs[insert.obj].elems;
    var e := Elem(insert.id, insert.after, insert.value, false, insert.id);
    var after := AfterOf(ParseRef(insert.after));
    var t := InsertAfter(s, after, e);
    var p := InsertPosition(s, after, e.id);
    assert t[p] == e;
    assert forall i :: 0 <= i < p ==> t[i].id != e.id by {
      forall i | 0 <= i < p ensures t[i].id != e.id { assert t[i] == s[i]; }
    }
    assert IndexOf(t, e.id) == p;
    assert SetVisibility(s, e.id, true, delete.id) == s;
    assert SetVisibility(t, e.id, true, delete.id) == t[p := SetVisible(e, true, delete.id)];
    assert t[p := SetVisible(e, true, delete.id)] == t <==> SetVisible(e, true, delete.id) == e;
    OrdersOfTwo(objs, insert, delete, t, t[p := SetVisible(e, true, delete.id)]);
  }

  lemma OrdersOfTwo(objs: Objects, insert: Op, delete: Op, t: seq<Elem>, u: seq<Elem>)
    requires insert.action.Insert? && delete.action.Delete? && insert.obj == delete.obj
    requires insert.obj in objs && objs[insert.obj].SeqObject?
    requires !insert.value.ObjectValue? && !delete.value.ObjectValue?
    requires !ParseRef(insert.after).Malformed? && ParseRef(delete.prop) == Ref(insert.id)
    requires !Contains(objs[insert.obj].elems, insert.id)
    requires t == InsertAfter(objs[insert.obj].elems, AfterOf(ParseRef(insert.after)),
                              Elem(insert.id, insert.after, insert.value, false, insert.id))
    requires SetVisibility(objs[insert.obj].elems, insert.id, true, delete.id) == objs[insert.obj].elems
    requires SetVisibility(t, insert.id, true, delete.id) == u
    ensures Commute(objs, insert, delete) <==> t == u
  {
    hide InsertAfter, SetVisibility, OpID.Less, ParseRef, VisibleIndexOf, Contains;
    var obj := insert.obj;
    var isText := objs[obj].isText;
    var one := ApplyOp(ApplyOp(objs, insert).objects, delete).objects;
    var two := ApplyOp(ApplyOp(objs, delete).objects, insert).objects;
    assert objs[obj := SeqObject(isText, objs[obj].elems)] == objs;
    assert one == objs[obj := SeqObject(isText, u)];
    assert two == objs[obj := SeqObject(isText, t)];
    assert one[obj].elems == u && two[obj].elems == t;
  }

  lemma OneDeleteIsLost()
    ensures var d := WithList([97]); var list := ChildName([97], 1); var id := OpID(3, [97]);
            !Commute(d.objects, Op(id, Action.Insert, list, Decimal(0), Int(5), [], [], []),
                     Op(OpID(4, [98]), Action.Delete, list, Print(id), Null, [], [], []))
  {
    var d := WithList([97]);
    ListMade([97]);
    hide WithList, ChildName, Print;
    var id := OpID(3, [97]);
    ParsePrint(id);
    EarlyDeleteIsLost(d.objects, Op(id, Action.Insert, ChildName([97], 1), Decimal(0), Int(5), [], [], []),
                      Op(OpID(4, [98]), Action.Delete, ChildName([97], 1), Print(id), Null, [], [], []));
  }

  // ---- clashing kinds ----

  /** Two writes to a map agree in both orders, if they are on separate keys or
      carry separate identities. */
  lemma WritesCommute(entries: map<Str, Entry>, x: Str, ex: Entry, y: Str, ey: Entry)
    requires x == y ==> ex.id != ey.id && ex.id.actor != [] && ey.id.actor != []
    ensures WriteEntry(WriteEntry(entries, x, ex), y, ey) == WriteEntry(WriteEntry(entries, y, ey), x, ex)
  {
    if x == y {
      LessIsTotal(ex.id, ey.id);
      if x in entries {
        LessIsStrictOrder(entries[x].id, ex.id, ey.id);
        LessIsStrictOrder(entries[x].id, ey.id, ex.id);
        LessIsTotal(entries[x].id, ex.id);
        LessIsTotal(entries[x].id, ey.id);
      }
    }
  }

  function EntriesOf(objs: Objects, obj: ObjID): map<Str, Entry>
    requires obj in objs && objs[obj].MapObject?
  {
    objs[obj].entries
  }

  /** What a put does to a map and to the child that its value names. */
  lemma PutStores(objs: Objects, op: Op)
    requires op.action.Put? && op.obj in objs && objs[op.obj].MapObject?
    ensures var ready := EnsureObject(objs, op.value);
            && op.obj in ready && ready[op.obj] == objs[op.obj]
            && ApplyOp(objs, op).objects
                 == ready[op.obj := MapObject(WriteEntry(EntriesOf(objs, op.obj), op.prop, Entry(op.value, op.id, false)))]
  {
    hide WriteEntry;
  }

  /** Two puts, on any maps and keys, that name one new object: both orders agree
      exactly when they give it the same kind. */
  lemma KindsClash(objs: Objects, a: Op, b: Op)
    requires a.action.Put? && b.action.Put?
    requires a.obj in objs && objs[a.obj].MapObject? && b.obj in objs && objs[b.obj].MapObject?
    requires a.obj == b.obj && a.prop == b.prop ==> a.id != b.id && a.id.actor != [] && b.id.actor != []
    requires a.value.ObjectValue? && b.value.ObjectValue? && a.value.obj == b.value.obj && a.value.obj !in objs
    ensures Commute(objs, a, b) <==> a.value.kind == b.value.kind
  {
    BothPuts(objs, a, b);
    BothPuts(objs, b, a);
    var ea, eb := Entry(a.value, a.id, false), Entry(b.value, b.id, false);
    if a.obj == b.obj { WritesCommute(EntriesOf(objs, a.obj), a.prop, ea, b.prop, eb); }
    hide WriteEntry, ApplyOp;
    var child := a.value.obj;
    var one, two := ApplyOp(ApplyOp(objs, a).objects, b).objects, ApplyOp(ApplyOp(objs, b).objects, a).objects;
    assert one[child] == NewObject(a.value.kind) && two[child] == NewObject(b.value.kind);
    if a.value.kind == b.value.kind {
      assert one.Keys == two.Keys;
      assert forall k :: k in one ==> one[k] == two[k];
    }
  }

  /** The objects after two puts that name one new child. */
  lemma BothPuts(objs: Objects, a: Op, b: Op)
    requires a.action.Put? && b.action.Put?
    requires a.obj in objs && objs[a.obj].MapObject? && b.obj in objs && objs[b.obj].MapObject?
    requires a.value.ObjectValue? && b.value.ObjectValue? && a.value.obj == b.value.obj && a.value.obj !in objs
    ensures var ea, eb := Entry(a.value, a.id, false), Entry(b.value, b.id, false);
            var first := WriteEntry(EntriesOf(objs, a.obj), a.prop, ea);
            var n := ApplyOp(ApplyOp(objs, a).objects, b).objects;
            && n.Keys == objs.Keys + {a.value.obj} && n[a.value.obj] == NewObject(a.value.kind)
            && n[b.obj] == MapObject(WriteEntry(if a.obj == b.obj then first else EntriesOf(objs, b.obj), b.prop, eb))
            && (a.obj != b.obj ==> n[a.obj] == MapObject(first))
            && forall k :: k in objs && k != a.obj && k != b.obj ==> n[k] == objs[k]
  {
    PutStores(objs, a);
    var m := ApplyOp(objs, a).objects;
    assert m[b.obj].MapObject?;
    PutStores(m, b);
    hide WriteEntry, ApplyOp;
  }

  lemma OneChildClashes()
    ensures var a := Op(OpID(1, [97]), Action.Put, ROOT, [120], ObjectValue(MapKind, [99]), [], [], []);
            var b := Op(OpID(1, [98]), Action.Put, ROOT, [121], ObjectValue(ListKind, [99]), [], [], []);
            !Commute(NewDoc([97]).objects, a, b)
  {
    var a := Op(OpID(1, [97]), Action.Put, ROOT, [120], ObjectValue(MapKind, [99]), [], [], []);
    var b := Op(OpID(1, [98]), Action.Put, ROOT, [121], ObjectValue(ListKind, [99]), [], [], []);
    KindsClash(NewDoc([97]).objects, a, b);
  }

  // ---- increments ----

  /** The guard of a write: it takes an entry that is absent or older. */
  predicate Takes(entries: map<Str, Entry>, key: Str, id: OpID) {
    key !in entries || entries[key].id.actor == [] || id.Greater(entries[key].id)
  }

  function ValueAt(entries: map<Str, Entry>, key: Str): Value {
    if key in entries then entries[key].value else NoValue
  }

  /** The entry that a put or a delete writes. */
  function Written(op: Op): Entry {
    if op.action.Put? then Entry(op.value, op.id, false) else Entry(NoValue, op.id, true)
  }

  /** An operation that addresses a map. */
  predicate OnMap(objs: Objects, op: Op) {
    op.obj in objs && objs[op.obj].MapObject?
  }

  /** A put or a delete on a map. */
  predicate IsWrite(objs: Objects, op: Op) {
    (op.action.Put? || op.action.Delete?) && OnMap(objs, op)
  }

  /** An increment of a map entry; its value is an amount. */
  predicate IsIncrement(objs: Objects, op: Op) {
    op.action.Increment? && OnMap(objs, op) && !op.value.ObjectValue?
  }

  /** One entry of one map gets another content. */
  function SetEntry(objs: Objects, obj: ObjID, key: Str, e: Entry): Objects
    requires obj in objs && objs[obj].MapObject?
  {
    objs[obj := MapObject(objs[obj].entries[key := e])]
  }

  lemma SameEntry(objs: Objects, obj: ObjID, key: Str, a: Entry, b: Entry)
    requires obj in objs && objs[obj].MapObject?
    ensures SetEntry(objs, obj, key, a) == SetEntry(objs, obj, key, b) <==> a == b
  {
    var x, y := SetEntry(objs, obj, key, a), SetEntry(objs, obj, key, b);
    assert x[obj].entries[key] == a && y[obj].entries[key] == b;
  }

  /** What a write does: the child, if any, and the entry, if it takes it. */
  lemma WriteStores(objs: Objects, w: Op)
    requires IsWrite(objs, w)
    ensures var ready := EnsureObject(objs, w.value);
            && OnMap(ready, w) && ready[w.obj] == objs[w.obj]
            && ApplyOp(objs, w).objects
                 == if Takes(objs[w.obj].entries, w.prop, w.id) then SetEntry(ready, w.obj, w.prop, Written(w)) else ready
  {
    var ready := EnsureObject(objs, w.value);
    assert ready[w.obj := ready[w.obj]] == ready;
  }

  /** What an increment does: always a new entry, with its own identity. */
  lemma IncrementStores(objs: Objects, inc: Op)
    requires IsIncrement(objs, inc)
    ensures ApplyOp(objs, inc).objects
         == SetEntry(objs, inc.obj, inc.prop,
                     Entry(Incremented(ValueAt(objs[inc.obj].entries, inc.prop), inc.value), inc.id, false))
  {
    hide Incremented;
  }

  lemma WriteThenIncrement(objs: Objects, w: Op, inc: Op)
    requires IsWrite(objs, w) && IsIncrement(objs, inc) && w.obj == inc.obj && w.prop == inc.prop
    ensures var entries := objs[w.obj].entries; var ready := EnsureObject(objs, w.value);
            var after := if Takes(entries, w.prop, w.id) then Written(w).value else ValueAt(entries, w.prop);
            && OnMap(ready, w)
            && ApplyOp(ApplyOp(objs, w).objects, inc).objects
                 == SetEntry(ready, w.obj, w.prop, Entry(Incremented(after, inc.value), inc.id, false))
  {
    WriteStores(objs, w);
    IncrementStores(ApplyOp(objs, w).objects, inc);
    hide ApplyOp, Incremented, EnsureObject, Takes;
    var ready, entries := EnsureObject(objs, w.value), objs[w.obj].entries;
    var v := Incremented(if Takes(entries, w.prop, w.id) then Written(w).value else ValueAt(entries, w.prop), inc.value);
    assert entries[w.prop := Written(w)][w.prop := Entry(v, inc.id, false)] == entries[w.prop := Entry(v, inc.id, false)];
  }

  lemma IncrementThenWrite(objs: Objects, w: Op, inc: Op)
    requires IsWrite(objs, w) && IsIncrement(objs, inc) && w.obj == inc.obj && w.prop == inc.prop && inc.id.actor != []
    ensures var ready := EnsureObject(objs, w.value);
            var second := Entry(Incremented(ValueAt(objs[w.obj].entries, w.prop), inc.value), inc.id, false);
            && OnMap(ready, w)
            && ApplyOp(ApplyOp(objs, inc).objects, w).objects
                 == SetEntry(ready, w.obj, w.prop, if w.id.Greater(inc.id) then Written(w) else second)
  {
    IncrementStores(objs, inc);
    var mid := ApplyOp(objs, inc).objects;
    WriteStores(mid, w);
    hide ApplyOp, Incremented, OpID.Less;
    var second := Entry(Incremented(ValueAt(objs[w.obj].entries, w.prop), inc.value), inc.id, false);
    assert mid[w.obj].entries[w.prop] == second;
    var ready := EnsureObject(objs, w.value);
    assert EnsureObject(mid, w.value) == SetEntry(ready, w.obj, w.prop, second);
    var e := Written(w);
    assert objs[w.obj].entries[w.prop := second][w.prop := e] == objs[w.obj].entries[w.prop := e];
  }

  /** An increment overwrites the identity of an entry without comparing it. Beside
      a put or a delete of the same entry the two orders agree exactly when the
      write is not the newer one and, if it takes the entry at all, leaves the
      increment the same outcome. */
  lemma IncrementCommutes(objs: Objects, w: Op, inc: Op)
    requires IsWrite(objs, w) && IsIncrement(objs, inc) && w.obj == inc.obj && w.prop == inc.prop && inc.id.actor != []
    ensures var entries := objs[w.obj].entries;
            var same := Incremented(Written(w).value, inc.value) == Incremented(ValueAt(entries, w.prop), inc.value);
            Commute(objs, w, inc) <==> !w.id.Greater(inc.id) && (Takes(entries, w.prop, w.id) ==> same)
  {
    WriteThenIncrement(objs, w, inc);
    IncrementThenWrite(objs, w, inc);
    hide ApplyOp, Incremented, OpID.Less, EnsureObject;
    var entries := objs[w.obj].entries;
    var after := if Takes(entries, w.prop, w.id) then Written(w).value else ValueAt(entries, w.prop);
    var first := Entry(Incremented(after, inc.value), inc.id, false);
    var second := Entry(Incremented(ValueAt(entries, w.prop), inc.value), inc.id, false);
    SameEntry(EnsureObject(objs, w.value), w.obj, w.prop, first, if w.id.Greater(inc.id) then Written(w) else second);
    LessIsTotal(w.id, inc.id);
  }

  lemma WrapTwice(x: int, y: int)
    ensures WrapInt64(WrapInt64(x) + y) == WrapInt64(x + y)
  {
  }

  /** The amounts of increments add up in either order, with the wrap-around of
      64-bit integers. */
  lemma AmountsCommute(current: Value, a: Value, b: Value)
    ensures Incremented(Incremented(current, a), b) == Incremented(Incremented(current, b), a)
  {
    hide WrapInt64;
    var x, y := if a.Counter? then a.count else 0, if b.Counter? then b.count else 0;
    match current
    case Counter(c) => WrapTwice(c + x, y); WrapTwice(c + y, x);
    case Int(i) => WrapTwice(i + x, y); WrapTwice(i + y, x);
    case _ =>
  }

  /** Two increments of one entry leave the same amount in both orders, but each
      order leaves the identity of its later one: they agree exactly when they are
      one operation. */
  lemma IncrementsCommute(objs: Objects, a: Op, b: Op)
    requires IsIncrement(objs, a) && IsIncrement(objs, b) && a.obj == b.obj && a.prop == b.prop
    ensures Commute(objs, a, b) <==> a.id == b.id
    ensures var one, two := ApplyOp(ApplyOp(objs, a).objects, b).objects, ApplyOp(ApplyOp(objs, b).objects, a).objects;
            && OnMap(one, a) && OnMap(two, a) && a.prop in one[a.obj].entries && a.prop in two[a.obj].entries
            && one[a.obj].entries[a.prop].value == two[a.obj].entries[a.prop].value
            && one[a.obj].entries[a.prop].id == b.id && two[a.obj].entries[a.prop].id == a.id
  {
    BothIncrements(objs, a, b);
    BothIncrements(objs, b, a);
    var v := ValueAt(objs[a.obj].entries, a.prop);
    AmountsCommute(v, a.value, b.value);
    hide ApplyOp, Incremented;
    var sum := Incremented(Incremented(v, a.value), b.value);
    SameEntry(objs, a.obj, a.prop, Entry(sum, b.id, false), Entry(sum, a.id, false));
  }

  lemma BothIncrements(objs: Objects, a: Op, b: Op)
    requires IsIncrement(objs, a) && IsIncrement(objs, b) && a.obj == b.obj && a.prop == b.prop
    ensures var v := ValueAt(objs[a.obj].entries, a.prop);
            ApplyOp(ApplyOp(objs, a).objects, b).objects
              == SetEntry(objs, a.obj, a.prop, Entry(Incremented(Incremented(v, a.value), b.value), b.id, false))
  {
    IncrementStores(objs, a);
    var mid := ApplyOp(objs, a).objects;
    IncrementStores(mid, b);
    hide ApplyOp, Incremented;
    var first := Entry(Incremented(ValueAt(objs[a.obj].entries, a.prop), a.value), a.id, false);
    var e := Entry(Incremented(first.value, b.value), b.id, false);
    assert mid[a.obj].entries[a.prop] == first;
    assert objs[a.obj].entries[a.prop := first][a.prop := e] == objs[a.obj].entries[a.prop := e];
  }

  /** On separate entries an increment never gets in the way of a put, a delete or
      another increment. */
  lemma IncrementApart(objs: Objects, op: Op, inc: Op)
    requires IsIncrement(objs, inc) && (IsWrite(objs, op) || IsIncrement(objs, op))
    requires op.obj != inc.obj || op.prop != inc.prop
    ensures Commute(objs, op, inc)
  {
    if IsIncrement(objs, op) { IncrementsApart(objs, op, inc); } else { WriteApart(objs, op, inc); }
  }

  /** The entry that an increment stores. */
  function Stepped(objs: Objects, inc: Op): Entry
    requires IsIncrement(objs, inc)
  {
    Entry(Incremented(ValueAt(objs[inc.obj].entries, inc.prop), inc.value), inc.id, false)
  }

  lemma IncrementsApart(objs: Objects, op: Op, inc: Op)
    requires IsIncrement(objs, op) && IsIncrement(objs, inc) && (op.obj != inc.obj || op.prop != inc.prop)
    ensures Commute(objs, op, inc)
  {
    IncrementStores(objs, op);
    IncrementStores(objs, inc);
    var one, two := ApplyOp(objs, op).objects, ApplyOp(objs, inc).objects;
    IncrementStores(one, inc);
    IncrementStores(two, op);
    ApartEntries(objs, op.obj, op.prop, inc.obj, inc.prop);
    hide ApplyOp, Incremented;
    assert Stepped(one, inc) == Stepped(objs, inc) && Stepped(two, op) == Stepped(objs, op);
  }

  lemma WriteApart(objs: Objects, w: Op, inc: Op)
    requires IsWrite(objs, w) && IsIncrement(objs, inc) && (w.obj != inc.obj || w.prop != inc.prop)
    ensures Commute(objs, w, inc)
  {
    WriteStores(objs, w);
    IncrementStores(objs, inc);
    var ready := EnsureObject(objs, w.value);
    var one, two := ApplyOp(objs, w).objects, ApplyOp(objs, inc).objects;
    IncrementStores(one, inc);
    WriteStores(two, w);
    ApartEntries(ready, w.obj, w.prop, inc.obj, inc.prop);
    hide ApplyOp, Incremented, OpID.Less;
    var e := Stepped(objs, inc);
    assert ready[inc.obj] == objs[inc.obj];
    assert Stepped(one, inc) == e;
    assert EnsureObject(two, w.value) == SetEntry(ready, inc.obj, inc.prop, e);
    assert Takes(two[w.obj].entries, w.prop, w.id) == Takes(objs[w.obj].entries, w.prop, w.id);
  }

  lemma ApartEntries(objs: Objects, o: ObjID, k: Str, p: ObjID, l: Str)
    requires o in objs && objs[o].MapObject? && p in objs && objs[p].MapObject? && (o != p || k != l)
    ensures forall e, f :: SetEntry(SetEntry(objs, o, k, e), p, l, f) == SetEntry(SetEntry(objs, p, l, f), o, k, e)
  {
    forall e, f ensures SetEntry(SetEntry(objs, o, k, e), p, l, f) == SetEntry(SetEntry(objs, p, l, f), o, k, e) {
      if o == p {
        assert objs[o].entries[k := e][l := f] == objs[o].entries[l := f][k := e];
      }
      var x, y := SetEntry(SetEntry(objs, o, k, e), p, l, f), SetEntry(SetEntry(objs, p, l, f), o, k, e);
      assert x.Keys == y.Keys;
      assert forall q :: q in x ==> x[q] == y[q];
    }
  }

  /** Two replicas that each increment one fresh entry keep different identities. */
  lemma OneIncrementDiverges()
    ensures var a := Op(OpID(1, [97]), Action.Increment, ROOT, [107], Counter(1), [], [], []);
            var b := Op(OpID(1, [98]), Action.Increment, ROOT, [107], Counter(1), [], [], []);
            !Commute(NewDoc([97]).objects, a, b)
  {
    var a := Op(OpID(1, [97]), Action.Increment, ROOT, [107], Counter(1), [], [], []);
    var b := Op(OpID(1, [98]), Action.Increment, ROOT, [107], Counter(1), [], [], []);
    IncrementsCommute(NewDoc([97]).objects, a, b);
  }

  /** A newer put beside an increment. */
  lemma IncrementDoesNotCommute()
    ensures var put := Op(OpID(2, [98]), Action.Put, ROOT, [107], Int(5), [], [], []);
            var inc := Op(OpID(1, [97]), Action.Increment, ROOT, [107], Counter(1), [], [], []);
            !Commute(NewDoc([97]).objects, put, inc)
  {
    var put := Op(OpID(2, [98]), Action.Put, ROOT, [107], Int(5), [], [], []);
    var inc := Op(OpID(1, [97]), Action.Increment, ROOT, [107], Counter(1), [], [], []);
    IncrementCommutes(NewDoc([97]).objects, put, inc);
  }
}
