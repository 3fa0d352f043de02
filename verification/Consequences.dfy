/** What the calls of crdt/doc.go do to a reachable document, as their callers see it. */
module Consequences {
  import opened OpIds
  import opened Values
  import opened Rga
  import opened Reorder
  import opened Ops
  import opened Objects
  import opened Histories
  import opened Representation
  import opened Documents
  import opened CausalGraph
  import opened DocInvariant
  import opened LocalCalls
  import opened TextSplice
  import Runes

  // ---- text ----

  lemma TextsConcat(a: seq<Elem>, b: seq<Elem>)
    ensures Texts(a + b) == Texts(a) + Texts(b)
  {
  }

  /** A splice of a valid UTF-8 insertion is the string splice of the text. */
  lemma SpliceTextIsStringSplice(d: Doc, obj: ObjID, index: nat, count: nat, insert: Str, kinds: Kinds, hashOf: HashFn)
    requires DocOK(d, kinds, hashOf) && d.maxOp + 1 + |Runes.Split(insert)| < UINT64_LIMIT
    requires IsSeq(d, obj) && d.objects[obj].isText && index + count <= |Visible(d.objects[obj].elems)|
    requires Runes.ValidUtf8(insert)
    ensures var n := SpliceText(d, obj, index, count, insert).0;
            var texts := Texts(Visible(d.objects[obj].elems));
            IsSeq(n, obj) &&
            VisibleText(n.objects[obj].elems)
              == Runes.Concat(texts[..index]) + insert + Runes.Concat(texts[index + count..])
  {
    hide DocOK, SpliceText, Visible, Runes.ValidUtf8;
    SpliceTextReplaces(d, obj, index, count, insert, kinds, hashOf);
    var (n, r) := SpliceText(d, obj, index, count, insert);
    var v := Visible(d.objects[obj].elems);
    var run: seq<Elem> :| Visible(n.objects[obj].elems) == v[..index] + run + v[index + count..]
                          && Ids(run) == r.value.inserted && Texts(run) == Runes.Split(insert);
    TextsConcat(v[..index] + run, v[index + count..]);
    TextsConcat(v[..index], run);
    Runes.ConcatAppend(Texts(v[..index]) + Texts(run), Texts(v[index + count..]));
    Runes.ConcatAppend(Texts(v[..index]), Texts(run));
    Runes.SplitConcat(insert);
    assert Texts(v[..index]) == Texts(v)[..index];
    assert Texts(v[index + count..]) == Texts(v)[index + count..];
  }

  // ---- order ----

  /** The order of a reachable sequence is the one orderListElems computes, so
      loading a snapshot never reorders it. */
  lemma ReachableOrderIsStable(d: Doc, obj: ObjID, kinds: Kinds, hashOf: HashFn)
    requires DocOK(d, kinds, hashOf) && IsSeq(d, obj)
    ensures OrderElems(d.objects[obj].elems) == d.objects[obj].elems
    ensures NormalizeOrder(d.objects[obj].elems) == d.objects[obj].elems
  {
    var elems := d.objects[obj].elems;
    assert ObjectOf(d.objects[obj], OpsOf(d), obj);
    assert TreeOrdered(elems) && UniqueIds(elems);
    hide DocOK, TreeOrdered, UniqueIds, OrderElems;
    OrderRebuilds(elems, elems);
  }

  // ---- counters ----

  lemma EntryKnown(d: Doc, obj: ObjID, key: Str, kinds: Kinds)
    requires StateOK(d, kinds) && obj in d.objects && d.objects[obj].MapObject? && key in d.objects[obj].entries
    ensures d.objects[obj].entries[key].id.counter <= d.maxOp
  {
    hide Sound, LastCounter;
    var e := d.objects[obj].entries[key];
    assert ObjectOf(d.objects[obj], OpsOf(d), obj);
    assert Write(key, e) in Writes(OpsOf(d), obj);
    hide Represents, ObjectOf;
    var o :| o in OpsOf(d) && o.obj == obj && Write(key, e) in WritesOf(o);
  }

  /** The counter of a document dominates every identity in it. */
  lemma CounterDominates(d: Doc, obj: ObjID, kinds: Kinds, hashOf: HashFn)
    requires DocOK(d, kinds, hashOf) && obj in d.objects
    ensures match d.objects[obj]
            case MapObject(entries) => forall key :: key in entries ==> entries[key].id.counter <= d.maxOp
            case SeqObject(_, elems) =>
              forall e :: e in elems ==> e.id.counter <= d.maxOp && e.visId.counter <= d.maxOp
  {
    hide Graph, ChangesOK, PendingOK, StateOK;
    match d.objects[obj]
    case MapObject(entries) =>
      forall key | key in entries ensures entries[key].id.counter <= d.maxOp { EntryKnown(d, obj, key, kinds); }
    case SeqObject(_, elems) =>
      forall e | e in elems ensures e.id.counter <= d.maxOp && e.visId.counter <= d.maxOp {
        ElementKnown(d, obj, e, kinds);
        DecisionKnown(d, obj, e, kinds);
      }
  }

  // ---- delete and revive ----

  function CoresOf(s: seq<Elem>): (r: seq<Elem>)
    ensures |r| == |s| && forall i :: 0 <= i < |s| ==> r[i] == s[i].Core()
  {
    seq(|s|, i requires 0 <= i < |s| => s[i].Core())
  }

  lemma DecisionApplied(objs: Objects, op: Op, k: nat, deleted: bool)
    requires op.action == (if deleted then Action.Delete else Action.Revive) && op.value == Null
    requires op.obj in objs && objs[op.obj].SeqObject? && k < |objs[op.obj].elems|
    requires var elems := objs[op.obj].elems;
             && ParseRef(op.prop) == Ref(elems[k].id) && IndexOf(elems, elems[k].id) == k
             && Decider(elems[k]).Less(op.id)
    ensures var elems := objs[op.obj].elems;
            && ApplyOp(objs, op).patch.Some?
            && ApplyOp(objs, op).objects
                 == objs[op.obj := SeqObject(objs[op.obj].isText, elems[k := elems[k].(deleted := deleted, visId := op.id)])]
  {
    hide Decider, OpID.Less, ParseRef;
  }

  /** A local delete or revive always wins: the element takes the new state. */
  lemma LocalDecisionWins(d: Doc, obj: ObjID, k: nat, deleted: bool, kinds: Kinds, hashOf: HashFn)
    requires DocOK(d, kinds, hashOf) && IsSeq(d, obj) && k < |d.objects[obj].elems|
    requires d.maxOp + 1 < UINT64_LIMIT
    ensures var elems := d.objects[obj].elems;
            var n := SetElement(d, obj, elems[k].id, deleted).0;
            && IsSeq(n, obj) && DocOK(n, kinds, hashOf) && n.maxOp == d.maxOp + 1
            && n.objects[obj].elems == elems[k := elems[k].(deleted := deleted, visId := OpID(d.maxOp + 1, d.actor))]
  {
    var id := d.objects[obj].elems[k].id;
    SetElementOK(d, obj, id, deleted, kinds, hashOf);
    hide DocOK;
    DecisionStored(d, obj, k, deleted, kinds, hashOf);
  }

  /** The element a decision is about, and that the new identity beats it. */
  lemma DecisionReady(d: Doc, obj: ObjID, k: nat, kinds: Kinds)
    requires StateOK(d, kinds) && IsSeq(d, obj) && k < |d.objects[obj].elems|
    ensures var elems := d.objects[obj].elems; var id := elems[k].id;
            && Contains(elems, id) && IndexOf(elems, id) == k && ParseRef(Print(id)) == Ref(id)
            && Decider(elems[k]).Less(OpID(d.maxOp + 1, d.actor))
  {
    hide StateOK, Decider, OpID.Less, UniqueIds, Print, ParseRef;
    var elems := d.objects[obj].elems;
    ElementKnown(d, obj, elems[k], kinds);
    DecisionKnown(d, obj, elems[k], kinds);
    SequenceUnique(d, obj, kinds);
    IndexOfUnique(elems, k);
    CounterLess(Decider(elems[k]), OpID(d.maxOp + 1, d.actor));
  }

  lemma DecisionStored(d: Doc, obj: ObjID, k: nat, deleted: bool, kinds: Kinds, hashOf: HashFn)
    requires DocOK(d, kinds, hashOf) && IsSeq(d, obj) && k < |d.objects[obj].elems|
    ensures var elems := d.objects[obj].elems;
            var n := SetElement(d, obj, elems[k].id, deleted).0;
            && IsSeq(n, obj) && n.maxOp == d.maxOp + 1
            && n.objects[obj].elems == elems[k := elems[k].(deleted := deleted, visId := OpID(d.maxOp + 1, d.actor))]
  {
    hide Graph, ChangesOK, PendingOK, StateOK, Decider, OpID.Less, Print, ParseRef, ApplyOp, Contains;
    DecisionReady(d, obj, k, kinds);
    hide DocOK;
    var op := LocalOp(Advance(d, 1), if deleted then Action.Delete else Action.Revive, obj,
                      Print(d.objects[obj].elems[k].id), Null, []);
    DecisionApplied(d.objects, op, k, deleted);
  }

  lemma {:induction false} VisibleCores(s: seq<Elem>, t: seq<Elem>)
    requires |s| == |t| && forall i :: 0 <= i < |s| ==> s[i].Core() == t[i].Core() && s[i].deleted == t[i].deleted
    ensures CoresOf(Visible(s)) == CoresOf(Visible(t))
  {
    if s != [] {
      VisibleCores(s[..|s| - 1], t[..|t| - 1]);
    }
  }

  lemma VisibleCount(s: seq<Elem>, t: seq<Elem>, k: nat)
    requires k < |s| == |t| && s[k].deleted && !t[k].deleted
    requires t == s[k := t[k]]
    ensures |Visible(t)| == |Visible(s)| + 1
  {
    assert s == s[..k] + [s[k]] + s[k + 1..];
    assert t == s[..k] + [t[k]] + s[k + 1..];
    VisibleConcat(s[..k], [s[k]]);
    VisibleConcat(s[..k] + [s[k]], s[k + 1..]);
    VisibleConcat(s[..k], [t[k]]);
    VisibleConcat(s[..k] + [t[k]], s[k + 1..]);
    assert [s[k]][..0] == [] && [t[k]][..0] == [];
  }

  /** ReviveElem after DeleteByElemID moves nothing, and gives the visible
      sequence back exactly when the element had been visible. */
  lemma DeleteThenRevive(d: Doc, obj: ObjID, k: nat, kinds: Kinds, hashOf: HashFn)
    requires DocOK(d, kinds, hashOf) && IsSeq(d, obj) && k < |d.objects[obj].elems|
    requires d.maxOp + 2 < UINT64_LIMIT
    ensures var elems := d.objects[obj].elems;
            var n := SetElement(SetElement(d, obj, elems[k].id, true).0, obj, elems[k].id, false).0;
            && IsSeq(n, obj) && CoresOf(n.objects[obj].elems) == CoresOf(elems)
            && (CoresOf(Visible(n.objects[obj].elems)) == CoresOf(Visible(elems)) <==> !elems[k].deleted)
  {
    hide DocOK, SetElement, Visible;
    var elems := d.objects[obj].elems;
    var id := elems[k].id;
    LocalDecisionWins(d, obj, k, true, kinds, hashOf);
    var m := SetElement(d, obj, id, true).0;
    LocalDecisionWins(m, obj, k, false, kinds, hashOf);
    var t := SetElement(m, obj, id, false).0.objects[obj].elems;
    assert t == elems[k := t[k]];
    if elems[k].deleted { VisibleCount(elems, t, k); } else { VisibleCores(t, elems); }
  }
}
