/** What each call of crdt/doc.go stores, journals and reports, in the caller's own
    values, and when it is refused. */
module Effects {
  import opened OpIds
  import opened Values
  import opened Rga
  import opened Ops
  import opened Objects
  import opened Histories
  import opened Representation
  import opened Documents
  import opened CausalGraph
  import opened DocInvariant
  import opened LocalCalls
  import opened TextSplice
  import opened Consequences
  import opened ListEdits
  import Limits
  import Utf8
  import Runes

  /** n is d after one accepted edit: the operation is journalled, the patch
      reported, the counter moved up to the given one; only objects change besides. */
  ghost predicate Edited(d: Doc, n: Doc, op: Op, patch: Patch, counter: nat) {
    n == d.(objects := n.objects, maxOp := counter, pending := d.pending + [op], patches := d.patches + [patch])
  }

  /** n is d after a refused edit: at most some counters are used up. */
  ghost predicate Refused(d: Doc, n: Doc, counter: nat) {
    n == d.(objects := n.objects, maxOp := counter)
  }

  /** An empty object of a kind. */
  function Empty(kind: Kind): Object {
    match kind
    case MapKind => MapObject(map[])
    case ListKind => SeqObject(false, [])
    case TextKind => SeqObject(true, [])
  }

  /** The only differences between the objects: this one, and the empty new object
      that a value names. */
  ghost predicate OnlyChanges(before: Objects, after: Objects, obj: ObjID, value: Value) {
    && after.Keys == before.Keys + (if value.ObjectValue? then {value.obj} else {})
    && (forall o :: o in before && o != obj ==> after[o] == before[o])
    && (value.ObjectValue? && value.obj !in before ==> after[value.obj] == Empty(value.kind))
  }

  ghost predicate IsMap(d: Doc, obj: ObjID) {
    obj in d.objects && d.objects[obj].MapObject?
  }

  /** A local write is newer than the entry it meets. */
  lemma WriteWins(d: Doc, obj: ObjID, key: Str, id: OpID, kinds: Kinds)
    requires StateOK(d, kinds) && IsMap(d, obj) && id.counter > d.maxOp
    ensures Limits.Takes(d.objects[obj].entries, key, id)
  {
    hide StateOK;
    if key in d.objects[obj].entries { EntryKnown(d, obj, key, kinds); }
  }

  /** An accepted edit journals the operation it applied and reports its patch. */
  lemma JournalEdits(d: Doc, op: Op)
    requires ApplyOp(d.objects, op).patch.Some?
    ensures var (n, ok) := Journal(d, op);
            ok && n.objects == ApplyOp(d.objects, op).objects && Edited(d, n, op, ApplyOp(d.objects, op).patch.value, d.maxOp)
  {
    hide ApplyOp;
  }

  lemma EditedOn(d: Doc, skip: nat, n: Doc, op: Op, patch: Patch)
    requires Edited(Advance(d, skip), n, op, patch, d.maxOp + skip)
    ensures Edited(d, n, op, patch, d.maxOp + skip)
    ensures n.patches[|n.patches| - 1] == patch && n.pending != [] && n.pending[|n.pending| - 1] == op
  {
  }

  lemma InsertRefused(d: Doc, obj: ObjID, index: nat, value: Value)
    requires !(IsSeq(d, obj) && index <= |Visible(d.objects[obj].elems)|)
    ensures InsertAt(d, obj, index, value) == (d, false)
  {
  }

  /** What a write that wins does to the objects, and what it reports. */
  lemma WriteShape(objs: Objects, w: Op)
    requires Limits.IsWrite(objs, w) && Limits.Takes(objs[w.obj].entries, w.prop, w.id)
    ensures var a := ApplyOp(objs, w);
            && a.patch == Some(Patch(w.obj, w.prop, w.action, if w.action.Put? then w.value else NoValue))
            && OnlyChanges(objs, a.objects, w.obj, w.value) && w.obj in a.objects
            && a.objects[w.obj] == MapObject(objs[w.obj].entries[w.prop := Limits.Written(w)])
  {
    Limits.WriteStores(objs, w);
    hide Limits.Takes, WriteEntry;
  }

  // ---- maps ----

  /** A put behind some used up counters. */
  lemma PutBehind(d: Doc, skip: nat, obj: ObjID, prop: Str, value: Value, kinds: Kinds)
    requires StateOK(d, kinds) && IsMap(d, obj)
    ensures var (n, ok) := PutKey(Advance(d, skip), obj, prop, value); var id := OpID(d.maxOp + skip + 1, d.actor);
            && ok && Edited(d, n, Op(id, Action.Put, obj, prop, value, [], [], []),
                          Patch(obj, prop, Action.Put, value), id.counter)
            && OnlyChanges(d.objects, n.objects, obj, value)
            && n.objects[obj] == MapObject(d.objects[obj].entries[prop := Entry(value, id, false)])
  {
    var id := OpID(d.maxOp + skip + 1, d.actor);
    var op := Op(id, Action.Put, obj, prop, value, [], [], []);
    WriteWins(d, obj, prop, id, kinds);
    PutIsJournal(d, skip, op);
    assert Limits.IsWrite(d.objects, op) && Limits.Written(op) == Entry(value, id, false);
    hide *;
    WriteShape(d.objects, op);
    JournalEdits(Advance(d, skip + 1), op);
    EditedOn(d, skip + 1, PutKey(Advance(d, skip), obj, prop, value).0, op, ApplyOp(d.objects, op).patch.value);
  }

  lemma PutIsJournal(d: Doc, skip: nat, op: Op)
    requires op == Op(OpID(d.maxOp + skip + 1, d.actor), Action.Put, op.obj, op.prop, op.value, [], [], [])
    ensures PutKey(Advance(d, skip), op.obj, op.prop, op.value) == Journal(Advance(d, skip + 1), op)
    ensures Advance(d, skip + 1).objects == d.objects && Advance(d, skip + 1).maxOp == op.id.counter
  {
    hide Journal;
  }

  /** Put on a map: the entry of that key holds the caller's value under the next
      identity, all other entries stay, and the patch says so. */
  lemma PutStores(d: Doc, obj: ObjID, prop: Str, value: Value, kinds: Kinds)
    requires StateOK(d, kinds) && IsMap(d, obj)
    ensures var (n, ok) := PutKey(d, obj, prop, value); var id := OpID(d.maxOp + 1, d.actor);
            && ok && Edited(d, n, Op(id, Action.Put, obj, prop, value, [], [], []),
                          Patch(obj, prop, Action.Put, value), d.maxOp + 1)
            && OnlyChanges(d.objects, n.objects, obj, value)
            && n.objects[obj] == MapObject(d.objects[obj].entries[prop := Entry(value, id, false)])
  {
    assert Advance(d, 0) == d;
    hide PutKey, StateOK, Edited, OnlyChanges;
    PutBehind(d, 0, obj, prop, value, kinds);
  }

  /** Put on a list, on a text or on nothing is refused. */
  lemma PutRefused(d: Doc, obj: ObjID, prop: Str, value: Value)
    requires !IsMap(d, obj)
    ensures var (n, ok) := PutKey(d, obj, prop, value); !ok && Refused(d, n, d.maxOp + 1)
  {
  }

  /** Delete on a map: the entry of that key becomes a tombstone with the next
      identity, present before or not. */
  lemma DeleteBuries(d: Doc, obj: ObjID, prop: Str, kinds: Kinds)
    requires StateOK(d, kinds) && IsMap(d, obj)
    ensures var (n, ok) := DeleteKey(d, obj, prop); var id := OpID(d.maxOp + 1, d.actor);
            && ok && Edited(d, n, Op(id, Action.Delete, obj, prop, Null, [], [], []),
                          Patch(obj, prop, Action.Delete, NoValue), d.maxOp + 1)
            && OnlyChanges(d.objects, n.objects, obj, Null)
            && n.objects[obj] == MapObject(d.objects[obj].entries[prop := Entry(NoValue, id, true)])
  {
    var id := OpID(d.maxOp + 1, d.actor);
    var op := Op(id, Action.Delete, obj, prop, Null, [], [], []);
    WriteWins(d, obj, prop, id, kinds);
    DeleteIsJournal(d, op);
    assert Limits.IsWrite(d.objects, op) && Limits.Written(op) == Entry(NoValue, id, true);
    hide *;
    WriteShape(d.objects, op);
    JournalEdits(Advance(d, 1), op);
    EditedOn(d, 1, DeleteKey(d, obj, prop).0, op, ApplyOp(d.objects, op).patch.value);
  }

  lemma DeleteIsJournal(d: Doc, op: Op)
    requires op == Op(OpID(d.maxOp + 1, d.actor), Action.Delete, op.obj, op.prop, Null, [], [], [])
    ensures DeleteKey(d, op.obj, op.prop) == Journal(Advance(d, 1), op)
    ensures Advance(d, 1).objects == d.objects && Advance(d, 1).maxOp == op.id.counter
  {
    hide Journal;
  }

  /** The signed 64-bit number that equals x up to multiples of 2^64. */
  ghost predicate Wrapped(x: int, w: int) {
    -0x8000_0000_0000_0000 <= w < 0x8000_0000_0000_0000 && (w - x) % 0x1_0000_0000_0000_0000 == 0
  }

  /** What an increment makes of a value: counters and integers go up by the amount,
      with wrap-around, and anything else starts again as a counter. */
  ghost predicate Raised(current: Option<Value>, amount: int, next: Value) {
    if current.Some? && current.value.Counter? then next.Counter? && Wrapped(current.value.count + amount, next.count)
    else if current.Some? && current.value.Int? then next.Int? && Wrapped(current.value.i + amount, next.i)
    else next == Counter(amount)
  }

  lemma WrapIsWrapped(x: int)
    ensures Wrapped(x, WrapInt64(x))
  {
  }

  /** Increment on a map: the entry of that key goes up by the caller's amount, is
      present again, and takes the next identity. */
  lemma IncrementRaises(d: Doc, obj: ObjID, prop: Str, amount: int)
    requires IsMap(d, obj)
    ensures var (n, ok) := IncrementKey(d, obj, prop, amount); var id := OpID(d.maxOp + 1, d.actor);
            var entries := d.objects[obj].entries;
            && ok && OnlyChanges(d.objects, n.objects, obj, Null) && IsMap(n, obj) && prop in n.objects[obj].entries
            && var next := n.objects[obj].entries[prop].value;
               && Raised(if prop in entries then Some(entries[prop].value) else None, amount, next)
               && n.objects[obj] == MapObject(entries[prop := Entry(next, id, false)])
               && Edited(d, n, Op(id, Action.Increment, obj, prop, Counter(amount), [], [], []),
                         Patch(obj, prop, Action.Increment, next), d.maxOp + 1)
  {
    hide WrapInt64, Wrapped;
    forall x { WrapIsWrapped(x); }
  }

  lemma IncrementRefused(d: Doc, obj: ObjID, prop: Str, amount: int)
    requires !IsMap(d, obj)
    ensures var (n, ok) := IncrementKey(d, obj, prop, amount); !ok && n == d.(maxOp := d.maxOp + 1)
  {
  }

  /** MakeMap, MakeList and MakeText on a map: an empty child with the name actor,
      dash, counter, and an entry that holds it under the identity behind that. */
  lemma MakeMakes(d: Doc, obj: ObjID, prop: Str, kind: Kind, kinds: Kinds)
    requires StateOK(d, kinds) && IsMap(d, obj)
    ensures var (n, ok) := MakeChild(d, obj, prop, kind); var id := OpID(d.maxOp + 2, d.actor);
            var value := ObjectValue(kind, d.actor + [45] + Decimal(d.maxOp + 1));
            && ok && Edited(d, n, Op(id, Action.Put, obj, prop, value, [], [], []),
                          Patch(obj, prop, Action.Put, value), d.maxOp + 2)
            && OnlyChanges(d.objects, n.objects, obj, value)
            && n.objects[obj] == MapObject(d.objects[obj].entries[prop := Entry(value, id, false)])
  {
    hide PutKey, StateOK, Edited, OnlyChanges, Decimal;
    PutBehind(d, 1, obj, prop, ObjectValue(kind, ChildName(d.actor, d.maxOp + 1)), kinds);
  }

  // ---- lists and texts ----

  /** The reference an insert in front of visible index i carries. */
  function Before(v: seq<Elem>, i: nat): Str
    requires i <= |v|
  {
    if i == 0 then [] else Print(v[i - 1].id)
  }

  /** What an accepted insert or splice touches and reports, up to the index. */
  lemma SeqOpShape(objs: Objects, op: Op)
    requires op.obj in objs && objs[op.obj].SeqObject? && ApplyOp(objs, op).patch.Some?
    requires op.action.Insert? || op.action.Splice?
    ensures var a := ApplyOp(objs, op);
            && OnlyChanges(objs, a.objects, op.obj, op.value)
            && a.patch.value
                 == Patch(op.obj, a.patch.value.prop, op.action, if op.action.Insert? then op.value else Text(op.run))
  {
    hide ParseRef, InsertAfter, VisibleIndexOf, Contains, DeleteAll, InsertRun, ExpandRuns, Decimal;
  }

  /** InsertAt journals and reports the caller's index and value; where the element
      lands is ListEdits.InsertAtInserts. */
  lemma InsertReports(d: Doc, obj: ObjID, index: nat, value: Value, kinds: Kinds, hashOf: HashFn)
    requires DocOK(d, kinds, hashOf) && IsSeq(d, obj) && index <= |Visible(d.objects[obj].elems)|
    ensures var (n, ok) := InsertAt(d, obj, index, value); var id := OpID(d.maxOp + 1, d.actor);
            var after := Before(Visible(d.objects[obj].elems), index);
            && ok && OnlyChanges(d.objects, n.objects, obj, value)
            && Edited(d, n, Op(id, Action.Insert, obj, Decimal(index), value, after, [], []),
                      Patch(obj, Decimal(index), Action.Insert, value), d.maxOp + 1)
  {
    InsertAtInserts(d, obj, index, value, kinds, hashOf);
    var op := Op(OpID(d.maxOp + 1, d.actor), Action.Insert, obj, Decimal(index), value,
                 Before(Visible(d.objects[obj].elems), index), [], []);
    InsertIsJournal(d, obj, index, value, op);
    hide *;
    JournalEdits(Advance(d, 1), op);
    SeqOpShape(d.objects, op);
    EditedOn(d, 1, InsertAt(d, obj, index, value).0, op, ApplyOp(d.objects, op).patch.value);
  }

  lemma InsertIsJournal(d: Doc, obj: ObjID, index: nat, value: Value, op: Op)
    requires IsSeq(d, obj) && index <= |Visible(d.objects[obj].elems)|
    requires op == Op(OpID(d.maxOp + 1, d.actor), Action.Insert, obj, Decimal(index), value,
                      Before(Visible(d.objects[obj].elems), index), [], [])
    ensures InsertAt(d, obj, index, value) == Journal(Advance(d, 1), op) && Advance(d, 1).objects == d.objects
    ensures InsertAt(d, obj, index, value).1 ==> ApplyOp(d.objects, op).patch.Some?
  {
    hide Visible, Print, Decimal, ApplyOp;
  }

  /** DeleteByElemID and ReviveElem journal and report the element; what becomes of
      it is Consequences.LocalDecisionWins. */
  lemma SetReports(d: Doc, obj: ObjID, k: nat, deleted: bool, kinds: Kinds)
    requires StateOK(d, kinds) && IsSeq(d, obj) && k < |d.objects[obj].elems|
    ensures var e := d.objects[obj].elems[k]; var (n, ok) := SetElement(d, obj, e.id, deleted);
            var id := OpID(d.maxOp + 1, d.actor);
            && ok && OnlyChanges(d.objects, n.objects, obj, Null)
            && Edited(d, n, Op(id, if deleted then Action.Delete else Action.Revive, obj, Print(e.id), Null, [], [], []),
                      if deleted then Patch(obj, Print(e.id), Action.Delete, NoValue)
                      else Patch(obj, Print(e.id), Action.Revive, e.value), d.maxOp + 1)
  {
    hide StateOK, SetElement, ApplyOp, OnlyChanges, Edited, Decider, OpID.Less, Print, ParseRef, Contains, Journal;
    DecisionReady(d, obj, k, kinds);
    var e := d.objects[obj].elems[k];
    var op := Op(OpID(d.maxOp + 1, d.actor), if deleted then Action.Delete else Action.Revive, obj,
                 Print(e.id), Null, [], [], []);
    SetIsJournal(d, obj, e.id, deleted, op);
    DecisionShape(d.objects, op, k, deleted);
    JournalEdits(Advance(d, 1), op);
    EditedOn(d, 1, SetElement(d, obj, e.id, deleted).0, op, ApplyOp(d.objects, op).patch.value);
  }

  lemma SetIsJournal(d: Doc, obj: ObjID, id: OpID, deleted: bool, op: Op)
    requires IsSeq(d, obj) && Contains(d.objects[obj].elems, id)
    requires op == Op(OpID(d.maxOp + 1, d.actor), if deleted then Action.Delete else Action.Revive, obj,
                      Print(id), Null, [], [], [])
    ensures SetElement(d, obj, id, deleted) == Journal(Advance(d, 1), op) && Advance(d, 1).objects == d.objects
  {
    hide Print, ApplyOp, Contains;
  }

  lemma DecisionShape(objs: Objects, op: Op, k: nat, deleted: bool)
    requires op.action == (if deleted then Action.Delete else Action.Revive) && op.value == Null
    requires op.obj in objs && objs[op.obj].SeqObject? && k < |objs[op.obj].elems|
    requires var elems := objs[op.obj].elems;
             && ParseRef(op.prop) == Ref(elems[k].id) && IndexOf(elems, elems[k].id) == k
             && Decider(elems[k]).Less(op.id)
    ensures var a := ApplyOp(objs, op);
            && OnlyChanges(objs, a.objects, op.obj, Null)
            && a.patch == Some(if deleted then Patch(op.obj, op.prop, Action.Delete, NoValue)
                               else Patch(op.obj, op.prop, Action.Revive, objs[op.obj].elems[k].value))
  {
    hide Decider, OpID.Less, ParseRef;
  }

  lemma SetRefused(d: Doc, obj: ObjID, id: OpID, deleted: bool)
    requires !(IsSeq(d, obj) && Contains(d.objects[obj].elems, id))
    ensures SetElement(d, obj, id, deleted) == (d, false)
  {
  }

  /** DeleteAt is the delete of the element with that visible index. */
  lemma DeleteAtIsSet(d: Doc, obj: ObjID, index: nat, kinds: Kinds)
    requires StateOK(d, kinds) && IsSeq(d, obj) && index < |Visible(d.objects[obj].elems)|
    ensures DeleteAt(d, obj, index) == SetElement(d, obj, Visible(d.objects[obj].elems)[index].id, true)
  {
    hide StateOK, Visible, Contains;
    SequenceUnique(d, obj, kinds);
    var k := VisiblePlaceOf(d.objects[obj].elems, index);
    SameDelete(d, obj, index);
  }

  lemma DeleteAtRefused(d: Doc, obj: ObjID, index: nat)
    requires !(IsSeq(d, obj) && index < |Visible(d.objects[obj].elems)|)
    ensures DeleteAt(d, obj, index) == (d, false)
  {
  }

  /** Delete by text on a list or text: as DeleteByElemID when the text is the printed
      identity of an element that is there; otherwise it is journalled and reported
      but changes no object. */
  lemma DeleteByText(d: Doc, obj: ObjID, prop: Str)
    requires IsSeq(d, obj)
    ensures var (n, ok) := DeleteKey(d, obj, prop); var id := OpID(d.maxOp + 1, d.actor); var elems := d.objects[obj].elems;
            && ok && Edited(d, n, Op(id, Action.Delete, obj, prop, Null, [], [], []),
                          Patch(obj, prop, Action.Delete, NoValue), d.maxOp + 1)
            && (!(ParseRef(prop).Ref? && Contains(elems, ParseRef(prop).id)) ==> n.objects == d.objects)
            && (forall e :: e in elems && prop == Print(e.id) && Contains(elems, e.id) ==>
                  DeleteKey(d, obj, prop) == SetElement(d, obj, e.id, true))
  {
    hide OpID.Less, ParseRef, Print;
    var elems := d.objects[obj].elems;
    assert d.objects[obj := SeqObject(d.objects[obj].isText, elems)] == d.objects;
  }

  lemma DeleteRefused(d: Doc, obj: ObjID, prop: Str)
    requires obj !in d.objects
    ensures DeleteKey(d, obj, prop) == (d.(maxOp := d.maxOp + 1), false)
  {
  }

  /** SpliceText journals the caller's insertion and the identities of its range, takes
      one counter for each rune and at least one, and reports index and insertion; a
      splice of nothing does nothing. What becomes of the text is
      TextSplice.SpliceTextReplaces. */
  lemma SpliceReports(d: Doc, obj: ObjID, index: nat, count: nat, insert: Str, kinds: Kinds, hashOf: HashFn)
    requires DocOK(d, kinds, hashOf) && d.maxOp + 1 + |Runes.Split(insert)| < UINT64_LIMIT
    requires IsSeq(d, obj) && d.objects[obj].isText && index + count <= |Visible(d.objects[obj].elems)|
    ensures var (n, r) := SpliceText(d, obj, index, count, insert); var v := Visible(d.objects[obj].elems);
            var width := |Runes.Split(insert)|;
            if count == 0 && insert == [] then n == d && r == Some(Spliced([], []))
            else
              && n.pending != [] && var op := n.pending[|n.pending| - 1];
              && op == Op(OpID(d.maxOp + 1, d.actor), Action.Splice, obj, [], NoValue, Before(v, index), insert, op.deleteRuns)
              && ExpandRuns(op.deleteRuns) == Ids(v[index..index + count])
              && Edited(d, n, op, Patch(obj, Decimal(if insert == [] then 0 else index), Action.Splice, Text(insert)),
                        d.maxOp + if width > 1 then width else 1)
  {
    SpliceTextReplaces(d, obj, index, count, insert, kinds, hashOf);
    hide *;
    CompressExpand(Ids(Visible(d.objects[obj].elems)[index..index + count]));
    if count > 0 || insert != [] {
      SpliceShape(d, obj, index, count, insert);
    } else {
      SpliceOfNothing(d, obj, index);
    }
  }

  /** What an accepted splice journals and reports, up to the index. */
  lemma SpliceShape(d: Doc, obj: ObjID, index: nat, count: nat, insert: Str)
    requires IsSeq(d, obj) && d.objects[obj].isText && index + count <= |Visible(d.objects[obj].elems)|
    requires (count > 0 || insert != []) && SpliceText(d, obj, index, count, insert).1.Some?
    ensures var (n, r) := SpliceText(d, obj, index, count, insert); var v := Visible(d.objects[obj].elems);
            var width := |Runes.Split(insert)|;
            && n.pending != [] && n.patches != []
            && var op := n.pending[|n.pending| - 1]; var prop := n.patches[|n.patches| - 1].prop;
            && op == Op(OpID(d.maxOp + 1, d.actor), Action.Splice, obj, [], NoValue, Before(v, index), insert, op.deleteRuns)
            && op.deleteRuns == CompressRuns(Ids(v[index..index + count]))
            && Edited(d, n, op, Patch(obj, prop, Action.Splice, Text(insert)), d.maxOp + if width > 1 then width else 1)
            && (insert == [] ==> prop == Decimal(0))
  {
    hide Visible, SpliceText, ApplyOp, Edited, OnlyChanges, Print, CompressRuns, ExpandRuns, Decimal, Journal,
         Runes.Split, Before;
    var op := SpliceOp(d, obj, index, count, insert);
    var width := |Runes.Split(insert)|;
    var m := if width > 1 then width else 1;
    SpliceIsJournal(d, obj, index, count, insert, op);
    hide SpliceOp;
    JournalEdits(Advance(d, m), op);
    SeqOpShape(d.objects, op);
    EditedOn(d, m, SpliceText(d, obj, index, count, insert).0, op, ApplyOp(d.objects, op).patch.value);
  }

  lemma SpliceOfNothing(d: Doc, obj: ObjID, index: nat)
    requires IsSeq(d, obj) && d.objects[obj].isText && index <= |Visible(d.objects[obj].elems)|
    ensures SpliceText(d, obj, index, 0, []) == (d, Some(Spliced([], [])))
  {
    hide Visible;
  }

  lemma SpliceIsJournal(d: Doc, obj: ObjID, index: nat, count: nat, insert: Str, op: Op)
    requires IsSeq(d, obj) && d.objects[obj].isText && index + count <= |Visible(d.objects[obj].elems)|
    requires (count > 0 || insert != []) && op == SpliceOp(d, obj, index, count, insert)
    ensures var width := |Runes.Split(insert)|; var m := Advance(d, if width > 1 then width else 1);
            && SpliceText(d, obj, index, count, insert).0 == Journal(m, op).0 && m.objects == d.objects
            && (SpliceText(d, obj, index, count, insert).1.Some? ==> ApplyOp(d.objects, op).patch.Some?)
            && op == Op(OpID(d.maxOp + 1, d.actor), Action.Splice, obj, [], NoValue,
                        Before(Visible(d.objects[obj].elems), index), insert, op.deleteRuns)
            && op.deleteRuns == CompressRuns(Ids(Visible(d.objects[obj].elems)[index..index + count]))
            && (insert == [] ==> ApplyOp(d.objects, op).patch.Some? ==> ApplyOp(d.objects, op).patch.value.prop == Decimal(0))
  {
    hide Visible, Print, Decimal, ParseRef, DeleteAll, InsertRun, VisibleIndexOf, CompressRuns, ExpandRuns;
  }

  lemma SpliceRefused(d: Doc, obj: ObjID, index: nat, count: nat, insert: Str)
    requires !(IsSeq(d, obj) && d.objects[obj].isText && index + count <= |Visible(d.objects[obj].elems)|)
    ensures SpliceText(d, obj, index, count, insert) == (d, None)
  {
  }

  // ---- commit ----

  /** Commit records the journal under the caller's message and group on the heads
      of the document, and empties the journal; nothing else changes. */
  lemma CommitRecords(d: Doc, hashOf: HashFn, time: Time, message: Str, group: Str)
    requires d.pending != []
    ensures var n := Commit(d, hashOf, time, message, group); var number := d.seqNo + 1;
            n.changes != [] &&
            var c := n.changes[|n.changes| - 1];
            && c.actor == d.actor && c.seqNo == number && c.deps == d.heads && c.startOp == d.pending[0].id.counter
            && c.time == time && c.message == message && c.ops == d.pending
            && c.group == (if group != [] then group else d.actor + [58] + Decimal(number))
            && c.hash == hashOf(c.(hash := []))
            && n == d.(seqNo := number, changes := d.changes + [c], index := d.index[c.hash := c], heads := [c.hash],
                       pending := [], patches := [])
  {
    hide Decimal;
  }

  lemma CommitNothing(d: Doc, hashOf: HashFn, time: Time, message: Str, group: Str)
    requires d.pending == []
    ensures Commit(d, hashOf, time, message, group) == d
  {
  }

  // ---- remote changes ----

  /** The last counter of an operation: a splice of n code points takes n counters, at
      least one, and every other operation takes one. */
  lemma LastCounterMeans(op: Op, cs: seq<nat>)
    requires op.action.Splice? ==> Utf8.Scalars(cs) && op.run == Utf8.Text(cs)
    ensures LastCounter(op) == op.id.counter + if op.action.Splice? && cs != [] then |cs| - 1 else 0
  {
    if op.action.Splice? { Utf8.SplitText(cs); }
  }

  lemma {:induction false} ApplyOpsCounter(objs: Objects, maxOp: nat, ops: seq<Op>)
    requires ApplyOps(objs, maxOp, ops).2
    ensures var last := ApplyOps(objs, maxOp, ops).1;
            && last >= maxOp && (forall o :: o in ops ==> LastCounter(o) <= last)
            && (last == maxOp || exists o :: o in ops && LastCounter(o) == last)
    decreases |ops|
  {
    hide ApplyOp, LastCounter;
    if ops != [] {
      ApplyOpsCounter(ApplyOp(objs, ops[0]).objects, Max(maxOp, LastCounter(ops[0])), ops[1..]);
      assert ops == [ops[0]] + ops[1..];
    }
  }

  /** After a remote change the counter is the greatest that the document or the change
      has used, no more; and the journal of the replica is untouched. */
  lemma RemoteCounts(d: Doc, c: Change)
    requires ApplyRemote(d, c).1
    ensures var n := ApplyRemote(d, c).0;
            && n.maxOp >= d.maxOp && (forall o :: o in c.ops ==> LastCounter(o) <= n.maxOp)
            && (n.maxOp == d.maxOp || exists o :: o in c.ops && LastCounter(o) == n.maxOp)
            && n == d.(objects := n.objects, maxOp := n.maxOp, changes := d.changes + [c],
                       index := d.index[c.hash := c], heads := n.heads)
  {
    hide LastCounter, MergeHeads;
    ApplyOpsCounter(d.objects, d.maxOp, c.ops);
    hide ApplyOps;
  }

  // ---- which operations are accepted ----

  ghost predicate Present(s: seq<Elem>, id: OpID) {
    exists k :: 0 <= k < |s| && s[k].id == id
  }

  lemma PresentMeans(s: seq<Elem>, id: OpID)
    ensures Contains(s, id) <==> Present(s, id)
  {
  }

  /** The operations that a replica can apply to these objects: puts and increments
      on maps, deletes on anything, inserts with a readable reference on lists and
      texts, revives of present elements, splices of a text whose deleted elements
      are all present. */
  ghost predicate Acceptable(objs: Objects, op: Op) {
    op.obj in objs &&
    match op.action
    case Put => objs[op.obj].MapObject?
    case Delete => true
    case Revive => objs[op.obj].SeqObject? && ParseRef(op.prop).Ref? && Present(objs[op.obj].elems, ParseRef(op.prop).id)
    case Increment => objs[op.obj].MapObject?
    case Insert => objs[op.obj].SeqObject? && !ParseRef(op.after).Malformed?
    case Splice =>
      && objs[op.obj].SeqObject? && objs[op.obj].isText && !ParseRef(op.after).Malformed?
      && forall id :: id in ExpandRuns(op.deleteRuns) ==> Present(objs[op.obj].elems, id)
    case Unknown(_) => false
  }

  lemma {:induction false} DeleteAllFinds(s: seq<Elem>, ids: seq<OpID>, visId: OpID)
    ensures DeleteAll(s, ids, visId).1 <==> forall id :: id in ids ==> Present(s, id)
    decreases |ids|
  {
    hide OpID.Less;
    if ids != [] {
      assert ids == [ids[0]] + ids[1..];
      PresentMeans(s, ids[0]);
      var t := SetVisibility(s, ids[0], true, visId);
      DeleteAllFinds(t, ids[1..], visId);
      forall id ensures Present(t, id) <==> Present(s, id) {
        if Present(s, id) {
          var k :| 0 <= k < |s| && s[k].id == id;
          assert t[k].id == id;
        }
        if Present(t, id) {
          var k :| 0 <= k < |t| && t[k].id == id;
          assert s[k].id == id;
        }
      }
    }
  }

  /** Exactly these are accepted, local or remote; and a refused operation that is no
      splice changes nothing but for the new object that its value names. */
  lemma AcceptedExactly(objs: Objects, op: Op)
    ensures ApplyOp(objs, op).patch.Some? <==> Acceptable(objs, op)
    ensures ApplyOp(objs, op).patch.None? && !op.action.Splice? ==>
              ApplyOp(objs, op).objects == if op.obj in objs then EnsureObject(objs, op.value) else objs
  {
    if op.obj in objs && objs[op.obj].SeqObject? {
      if op.action.Splice? { DeleteAllFinds(objs[op.obj].elems, ExpandRuns(op.deleteRuns), op.id); }
      if ParseRef(op.prop).Ref? { PresentMeans(objs[op.obj].elems, ParseRef(op.prop).id); }
    }
    hide ParseRef, Contains, Present, InsertAfter, VisibleIndexOf, DeleteAll, InsertRun, ExpandRuns, Decimal, SetVisibility,
         WriteEntry, Incremented, IndexOf;
  }
}
