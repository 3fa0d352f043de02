/** The objects of a document are determined by the set of operations it has
    applied. Applying one more causally ready operation keeps that so, whatever
    the order of arrival and however often an operation arrives. */
module Representation {
  import opened OpIds
  import opened Values
  import opened Ops
  import opened Objects
  import opened Histories
  import Runes

  /** The kind each object identity stands for, across all replicas. */
  type Kinds = ObjID -> Kind

  // ---- what one operation contributes ----

  function Created(op: Op): (r: seq<Elem>)
    ensures forall i :: 0 <= i < |r| ==> r[i].id == OpID(op.id.counter + i, op.id.actor) && r[i] == r[i].Core()
    ensures |r| <= LastCounter(op) - op.id.counter + 1
  {
    match op.action
    case Insert => [Elem(op.id, op.after, op.value, false, op.id)]
    case Splice =>
      if ParseRef(op.after).Malformed? then []
      else RunElems(AfterOf(ParseRef(op.after)), Runes.Split(op.run), op.id)
    case _ => []
  }

  function EventsOf(op: Op): set<Event> {
    match op.action
    case Splice => DeleteEvents(ExpandRuns(op.deleteRuns), op.id)
    case Delete => if ParseRef(op.prop).Ref? then {Event(ParseRef(op.prop).id, true, op.id)} else {}
    case Revive => if ParseRef(op.prop).Ref? then {Event(ParseRef(op.prop).id, false, op.id)} else {}
    case _ => {}
  }

  function WritesOf(op: Op): set<Write> {
    match op.action
    case Put => {Write(op.prop, Entry(op.value, op.id, false))}
    case Delete => {Write(op.prop, Entry(NoValue, op.id, true))}
    case _ => {}
  }

  // ---- what a set of operations contributes to one object ----

  function Cores(ops: set<Op>, obj: ObjID): set<Elem> {
    set o, c | o in ops && o.obj == obj && c in Created(o) :: c
  }

  function Events(ops: set<Op>, obj: ObjID): set<Event> {
    set o, v | o in ops && o.obj == obj && v in EventsOf(o) :: v
  }

  function Writes(ops: set<Op>, obj: ObjID): set<Write> {
    set o, w | o in ops && o.obj == obj && w in WritesOf(o) :: w
  }

  lemma AddOp(ops: set<Op>, op: Op, obj: ObjID)
    ensures Cores(ops + {op}, obj) == Cores(ops, obj) + if op.obj == obj then SetOf(Created(op)) else {}
    ensures Events(ops + {op}, obj) == Events(ops, obj) + if op.obj == obj then EventsOf(op) else {}
    ensures Writes(ops + {op}, obj) == Writes(ops, obj) + if op.obj == obj then WritesOf(op) else {}
  {
    hide Created, EventsOf, WritesOf;
  }

  // ---- well-formed operations ----

  ghost predicate RefBelow(after: Str, id: OpID) {
    after == [] ||
    (ParseRef(after).Ref? && Print(ParseRef(after).id) == after && ParseRef(after).id.counter < id.counter)
  }

  /** What the local editing calls guarantee of each operation they journal.
      Increments and unknown actions are outside the convergence claim. */
  ghost predicate WellFormed(op: Op, kinds: Kinds) {
    && op.id.actor != []
    && (op.value.ObjectValue? ==> kinds(op.value.obj) == op.value.kind)
    && match op.action
       case Put => kinds(op.obj) == MapKind
       case Delete => kinds(op.obj) == MapKind || (ParseRef(op.prop).Ref? ==> ParseRef(op.prop).id.counter < op.id.counter)
       case Revive => kinds(op.obj) != MapKind && ParseRef(op.prop).Ref? && ParseRef(op.prop).id.counter < op.id.counter
       case Insert => kinds(op.obj) != MapKind && RefBelow(op.after, op.id)
       case Splice =>
         && kinds(op.obj) == TextKind && RefBelow(op.after, op.id)
         && forall id :: id in ExpandRuns(op.deleteRuns) ==> id.counter < op.id.counter
       case _ => false
  }

  /** Two operations of one actor occupy separate counters. */
  ghost predicate Apart(a: Op, b: Op) {
    a.id.actor != b.id.actor || LastCounter(a) < b.id.counter || LastCounter(b) < a.id.counter
  }

  ghost predicate Sound(ops: set<Op>, kinds: Kinds) {
    && (forall o :: o in ops ==> WellFormed(o, kinds))
    && (forall a, b :: a in ops && b in ops && a != b ==> Apart(a, b))
  }

  /** Only one operation occupies an identity. */
  lemma CreatorUnique(ops: set<Op>, kinds: Kinds, a: Op, b: Op, i: nat, j: nat)
    requires Sound(ops, kinds) && a in ops && b in ops
    requires i < |Created(a)| && j < |Created(b)| && Created(a)[i].id == Created(b)[j].id
    ensures a == b && i == j
  {
    hide WellFormed, Created, LastCounter;
    assert a != b ==> Apart(a, b);
  }

  lemma CoresUnique(ops: set<Op>, kinds: Kinds, obj: ObjID)
    requires Sound(ops, kinds)
    ensures CoreIdsUnique(Cores(ops, obj))
  {
    hide WellFormed, Created, LastCounter, Sound;
    forall c, d | c in Cores(ops, obj) && d in Cores(ops, obj) && c.id == d.id ensures c == d {
      var a :| a in ops && a.obj == obj && c in Created(a);
      var b :| b in ops && b.obj == obj && d in Created(b);
      var i :| 0 <= i < |Created(a)| && Created(a)[i] == c;
      var j :| 0 <= j < |Created(b)| && Created(b)[j] == d;
      CreatorUnique(ops, kinds, a, b, i, j);
    }
  }

  lemma WritesUnique(ops: set<Op>, kinds: Kinds, obj: ObjID)
    requires Sound(ops, kinds)
    ensures WritesSound(Writes(ops, obj))
  {
    hide LastCounter;
    forall v, w | v in Writes(ops, obj) && w in Writes(ops, obj) && v.entry.id == w.entry.id ensures v == w {
      var a :| a in ops && a.obj == obj && v in WritesOf(a);
      var b :| b in ops && b.obj == obj && w in WritesOf(b);
      assert a != b ==> Apart(a, b);
    }
    forall w | w in Writes(ops, obj) ensures w.entry.id.actor != [] {
      var a :| a in ops && a.obj == obj && w in WritesOf(a);
      assert WellFormed(a, kinds);
    }
  }

  lemma EventsOfOp(op: Op, kinds: Kinds, v: Event)
    requires WellFormed(op, kinds) && kinds(op.obj) != MapKind && v in EventsOf(op)
    ensures v.id == op.id && v.target.Less(v.id) && v.deleted == !op.action.Revive?
  {
  }

  lemma EventsUnique(ops: set<Op>, kinds: Kinds, obj: ObjID)
    requires Sound(ops, kinds) && kinds(obj) != MapKind
    ensures EventsSound(Events(ops, obj))
  {
    hide LastCounter, WellFormed, EventsOf, OpID.Less;
    forall v | v in Events(ops, obj) ensures v.target.Less(v.id) && v.id.actor != [] {
      var a :| a in ops && a.obj == obj && v in EventsOf(a);
      EventsOfOp(a, kinds, v);
      assert WellFormed(a, kinds);
      assert a.id.actor != [] by { WellFormedActor(a, kinds); }
    }
    forall v, w | v in Events(ops, obj) && w in Events(ops, obj) && v.target == w.target && v.id == w.id ensures v == w {
      var a :| a in ops && a.obj == obj && v in EventsOf(a);
      var b :| b in ops && b.obj == obj && w in EventsOf(b);
      EventsOfOp(a, kinds, v);
      EventsOfOp(b, kinds, w);
      assert a != b ==> Apart(a, b);
    }
  }

  lemma WellFormedActor(op: Op, kinds: Kinds)
    requires WellFormed(op, kinds)
    ensures op.id.actor != []
  {
  }

  // ---- the state of a set of operations ----

  ghost predicate Made(ops: set<Op>, obj: ObjID) {
    exists o :: o in ops && o.value.ObjectValue? && o.value.obj == obj
  }

  ghost predicate ObjectOf(o: Object, ops: set<Op>, obj: ObjID) {
    match o
    case MapObject(entries) => MapOf(entries, Writes(ops, obj))
    case SeqObject(_, elems) =>
      && SeqOf(elems, Cores(ops, obj), Events(ops, obj))
      && TargetsKnown(Cores(ops, obj), Events(ops, obj))
  }

  ghost predicate KeysOf(objs: Objects, ops: set<Op>) {
    && ROOT in objs
    && (forall k :: k in objs ==> k == ROOT || Made(ops, k))
    && (forall o :: o in ops && o.value.ObjectValue? ==> o.value.obj in objs)
    && (forall o :: o in ops ==> o.obj in objs)
  }

  ghost predicate Represents(objs: Objects, ops: set<Op>, kinds: Kinds) {
    && KeysOf(objs, ops)
    && (forall k :: k in objs ==> objs[k].Kind() == kinds(k))
    && (forall k :: k in objs ==> ObjectOf(objs[k], ops, k))
  }

  lemma SameObject(a: Object, b: Object, ops: set<Op>, kinds: Kinds, obj: ObjID)
    requires Sound(ops, kinds) && ObjectOf(a, ops, obj) && ObjectOf(b, ops, obj)
    requires a.Kind() == b.Kind() == kinds(obj)
    ensures a == b
  {
    hide Sound, Cores, Events, Writes, SeqOf, MapOf, CoreIdsUnique, EventsSound, WritesSound, TargetsKnown;
    if a.MapObject? {
      WritesUnique(ops, kinds, obj);
      MapOfIsUnique(a.entries, b.entries, Writes(ops, obj));
    } else {
      CoresUnique(ops, kinds, obj);
      EventsUnique(ops, kinds, obj);
      SeqOfIsUnique(a.elems, b.elems, Cores(ops, obj), Events(ops, obj));
    }
  }

  /** Two documents that applied the same operations hold the same objects: same
      map entries and identities, same element order, same tombstones. */
  lemma RepresentsIsUnique(a: Objects, b: Objects, ops: set<Op>, kinds: Kinds)
    requires Sound(ops, kinds) && Represents(a, ops, kinds) && Represents(b, ops, kinds)
    ensures a == b
  {
    hide Sound, ObjectOf;
    forall k | k in a ensures k in b && a[k] == b[k] {
      if k != ROOT {
        var o :| o in ops && o.value.ObjectValue? && o.value.obj == k;
      }
      SameObject(a[k], b[k], ops, kinds, k);
    }
    forall k | k in b ensures k in a {
      if k != ROOT {
        var o :| o in ops && o.value.ObjectValue? && o.value.obj == k;
      }
    }
  }
}
