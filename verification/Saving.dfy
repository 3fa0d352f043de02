/** Save and Load of crdt/doc.go on reachable documents. */
module Saving {
  import opened OpIds
  import opened Values
  import opened Rga
  import opened Ops
  import opened Objects
  import opened Histories
  import opened Representation
  import opened Documents
  import opened CausalGraph
  import opened DocInvariant
  import opened LocalCalls
  import opened Recording
  import opened Consequences
  import opened Varints
  import opened ValueCodec
  import opened ElemCodec
  import opened OpCodec
  import opened ChangeCodec
  import opened Snapshot
  import opened DocumentCodec
  import Runes

  /** Save commits what is pending and encodes the document. */
  function Save(d: Doc, hashOf: HashFn, time: Time): Str
    requires HeadsFit(Commit(d, hashOf, time, [], []))
  {
    Encode(Commit(d, hashOf, time, [], []))
  }

  /** A hash is an array of 32 bytes. */
  ghost predicate HashesFit(hashOf: HashFn) {
    forall c :: |hashOf(c)| == HASH_BYTES
  }

  ghost predicate ChangeWidths(c: Change) {
    && c.seqNo < UINT64_LIMIT && TimeFits(c.time)
    && forall o :: o in c.ops ==> ValueFits(o.value) && forall k :: 0 <= k < |o.deleteRuns| ==> RunFits(o.deleteRuns[k])
  }

  /** What the Go types say of the numbers in a document. */
  ghost predicate Widths(d: Doc) {
    && IsActor(d.actor) && d.seqNo < UINT64_LIMIT
    && (forall k :: 0 <= k < |d.changes| ==> ChangeWidths(d.changes[k]))
    && (forall k :: k in d.objects ==>
          match d.objects[k]
          case MapObject(entries) => forall key :: key in entries ==> ValueFits(entries[key].value)
          case SeqObject(_, elems) => forall e :: e in elems ==> ValueFits(e.value))
  }

  // ---- what is unset reads back as null ----

  function NullElem(e: Elem): Elem {
    e.(value := Stored(e.value))
  }

  function NullElems(elems: seq<Elem>): (r: seq<Elem>)
    ensures |r| == |elems| && forall i :: 0 <= i < |r| ==> r[i] == NullElem(elems[i])
  {
    seq(|elems|, i requires 0 <= i < |elems| => NullElem(elems[i]))
  }

  function NullObject(o: Object): Object {
    match o
    case MapObject(entries) => MapObject(StoredEntries(entries))
    case SeqObject(isText, elems) => SeqObject(isText, NullElems(elems))
  }

  function NullObjects(objs: Objects): (r: Objects)
    ensures r.Keys == objs.Keys && forall k :: k in objs ==> r[k] == NullObject(objs[k])
  {
    map k | k in objs :: NullObject(objs[k])
  }

  /** The document without uncommitted work, with null for every unset value. */
  function Kept(d: Doc): Doc {
    d.(objects := NullObjects(d.objects), pending := [], patches := [])
  }

  // ---- reachable documents are in the form that a snapshot keeps ----

  ghost predicate Canonical(after: Str) {
    after == [] || (ParseRef(after).Ref? && Print(ParseRef(after).id) == after)
  }

  lemma PrintedCanonical(id: OpID)
    requires id.counter < UINT64_LIMIT && id.actor != []
    ensures Canonical(Print(id))
  {
    ParsePrint(id);
  }

  lemma CreatedReference(op: Op, c: Elem, kinds: Kinds)
    requires WellFormed(op, kinds) && c in Created(op) && LastCounter(op) < UINT64_LIMIT
    ensures Canonical(c.after)
  {
    hide ParseRef, Print, LastCounter, RunElems;
    var i :| 0 <= i < |Created(op)| && Created(op)[i] == c;
    if op.action.Splice? {
      SplicedReference(op, i);
    }
  }

  lemma SplicedReference(op: Op, i: nat)
    requires RefBelow(op.after, op.id) && i < |Runes.Split(op.run)| && op.id.actor != []
    requires op.id.counter + i <= UINT64_LIMIT && !ParseRef(op.after).Malformed?
    ensures Canonical(RunElems(AfterOf(ParseRef(op.after)), Runes.Split(op.run), op.id)[i].after)
  {
    hide ParseRef, Print, RunElems, Runes.Split;
    RunReferences(AfterOf(ParseRef(op.after)), Runes.Split(op.run), op.id, i);
    EmptyReference();
    if i > 0 {
      PrintedCanonical(OpID(op.id.counter + i - 1, op.id.actor));
    }
  }

  lemma {:induction false} RunReferences(after: Option<OpID>, runes: seq<Str>, id: OpID, i: nat)
    requires i < |runes|
    ensures RunElems(after, runes, id)[i].after
         == if i == 0 then FormatRef(after) else Print(OpID(id.counter + i - 1, id.actor))
    decreases i
  {
    if i > 0 {
      RunReferences(Some(id), runes[1..], OpID(id.counter + 1, id.actor), i - 1);
    }
  }

  /** Every element of a reachable document is kept as it is. */
  lemma ElementKept(d: Doc, obj: ObjID, e: Elem, kinds: Kinds, hashOf: HashFn)
    requires DocOK(d, kinds, hashOf) && IsSeq(d, obj) && e in d.objects[obj].elems && ValueFits(e.value)
    ensures ElemFits(e) && StoredElem(e) == NullElem(e)
  {
    assert StateOK(d, kinds);
    ElementReference(d, obj, e, kinds);
    CounterDominates(d, obj, kinds, hashOf);
    ElementDecider(d, obj, e, kinds);
    CounterInRange(d, kinds, hashOf);
    assert e.id.counter <= d.maxOp && e.visId.counter <= d.maxOp;
    hide *;
    CanonicalKept(e);
  }

  lemma CanonicalKept(e: Elem)
    requires Canonical(e.after) && e.visId.actor != [] && ValueFits(e.value)
    requires e.id.counter < UINT64_LIMIT && e.visId.counter < UINT64_LIMIT
    ensures ElemFits(e) && StoredElem(e) == NullElem(e)
  {
    EmptyReference();
    hide ParseRef, Print, Stored, ValueFits;
  }

  lemma EmptyReference()
    ensures ParseRef([]) == Head
  {
  }

  lemma CounterInRange(d: Doc, kinds: Kinds, hashOf: HashFn)
    requires DocOK(d, kinds, hashOf)
    ensures d.maxOp < UINT64_LIMIT
  {
  }

  lemma ElementDecider(d: Doc, obj: ObjID, e: Elem, kinds: Kinds)
    requires StateOK(d, kinds) && IsSeq(d, obj) && e in d.objects[obj].elems
    ensures e.visId.actor != []
  {
    hide Sound, TreeOrdered, OpsBelow;
    assert ObjectOf(d.objects[obj], OpsOf(d), obj);
    var elems := d.objects[obj].elems;
    var k :| 0 <= k < |elems| && elems[k] == e;
    assert Decided(elems[k], Events(OpsOf(d), obj));
  }

  lemma ElementReference(d: Doc, obj: ObjID, e: Elem, kinds: Kinds)
    requires StateOK(d, kinds) && IsSeq(d, obj) && e in d.objects[obj].elems
    ensures Canonical(e.after)
  {
    hide WellFormed, TreeOrdered, Canonical, LastCounter, AllDecided, Apart;
    var elems := d.objects[obj].elems;
    assert ObjectOf(d.objects[obj], OpsOf(d), obj);
    var k :| 0 <= k < |elems| && elems[k] == e;
    assert elems[k].Core() in Cores(OpsOf(d), obj);
    var c := e.Core();
    hide ObjectOf, Represents, UniqueIds;
    var o :| o in OpsOf(d) && o.obj == obj && c in Created(o);
    CreatedReference(o, c, kinds);
  }

  lemma ObjectKept(d: Doc, obj: ObjID, kinds: Kinds, hashOf: HashFn)
    requires DocOK(d, kinds, hashOf) && Widths(d) && obj in d.objects
    ensures ObjectFits(d.objects[obj]) && StoredObject(d.objects[obj]) == NullObject(d.objects[obj])
  {
    hide DocOK, ElemFits, StoredElem, NullElem, ValueFits, ChangeWidths, IsActor;
    match d.objects[obj]
    case MapObject(entries) =>
      CounterDominates(d, obj, kinds, hashOf);
      CounterInRange(d, kinds, hashOf);
    case SeqObject(_, elems) =>
      forall i | 0 <= i < |elems| ensures ElemFits(elems[i]) && StoredElem(elems[i]) == NullElem(elems[i]) {
        assert elems[i] in elems;
        ElementKept(d, obj, elems[i], kinds, hashOf);
      }
  }

  lemma ChangeKept(d: Doc, k: nat, kinds: Kinds, hashOf: HashFn)
    requires DocOK(d, kinds, hashOf) && Widths(d) && HashesFit(hashOf) && k < |d.changes|
    ensures ChangeFits(d.changes[k]) && d.changes[k].hash == hashOf(d.changes[k].(hash := []))
    ensures |d.changes[k].hash| == HASH_BYTES
  {
    var c := d.changes[k];
    ChangeHashed(d, k, kinds, hashOf);
    forall i | 0 <= i < |c.deps| ensures |c.deps[i]| == HASH_BYTES {
      assert c.deps[i] in c.deps;
      var j :| 0 <= j < k && d.changes[..k][j].hash == c.deps[i];
      ChangeHashed(d, j, kinds, hashOf);
    }
    forall i | 0 <= i < |c.ops| ensures OpFits(c.ops[i]) {
      OpKept(d, k, i, kinds, hashOf);
    }
    assert c.startOp == c.ops[0].id.counter;
    assert OpFits(c.ops[0]);
  }

  lemma ChangeHashed(d: Doc, k: nat, kinds: Kinds, hashOf: HashFn)
    requires DocOK(d, kinds, hashOf) && HashesFit(hashOf) && k < |d.changes|
    ensures d.changes[k].hash == hashOf(d.changes[k].(hash := [])) && |d.changes[k].hash| == HASH_BYTES
    ensures ChangeOK(d.changes[k], hashOf)
    ensures forall h :: h in d.changes[k].deps ==> Recorded(d.changes[..k], h)
  {
    hide StateOK, PendingOK, OwnChange, HeadsExact, IndexExact, NoRepeats, OpsBy, Ascending;
    assert ChangeOK(d.changes[k], hashOf);
  }

  lemma OpKept(d: Doc, k: nat, i: nat, kinds: Kinds, hashOf: HashFn)
    requires DocOK(d, kinds, hashOf) && Widths(d) && k < |d.changes| && i < |d.changes[k].ops|
    ensures OpFits(d.changes[k].ops[i])
  {
    hide *;
    var o := d.changes[k].ops[i];
    OpInDoc(d, k, o);
    OpWellFormed(d, o, kinds, hashOf);
    OpWidths(d, k, o);
  }

  lemma OpWidths(d: Doc, k: nat, o: Op)
    requires Widths(d) && k < |d.changes| && o in d.changes[k].ops && o.id.counter < UINT64_LIMIT && !o.action.Unknown?
    ensures OpFits(o)
  {
    hide ValueFits, RunFits, IsActor;
    assert ChangeWidths(d.changes[k]);
  }

  lemma OpInDoc(d: Doc, k: nat, o: Op)
    requires k < |d.changes| && o in d.changes[k].ops
    ensures o in OpsOf(d)
  {
    assert d.changes[k] in d.changes;
    assert o in AllOps(d.changes);
  }

  lemma OpWellFormed(d: Doc, o: Op, kinds: Kinds, hashOf: HashFn)
    requires DocOK(d, kinds, hashOf) && o in OpsOf(d)
    ensures o.id.counter < UINT64_LIMIT && !o.action.Unknown?
  {
    hide Represents, Graph, ChangesOK, PendingOK, LastCounter, Apart, OpsOf;
    assert o.id.counter <= LastCounter(o) <= d.maxOp;
  }

  lemma HeadsKept(d: Doc, kinds: Kinds, hashOf: HashFn)
    requires DocOK(d, kinds, hashOf) && HashesFit(hashOf)
    ensures HeadsFit(d)
  {
    forall i | 0 <= i < |d.heads| ensures |d.heads[i]| == HASH_BYTES {
      assert d.heads[i] in d.heads;
      var k :| 0 <= k < |d.changes| && d.changes[k].hash == d.heads[i];
      ChangeHashed(d, k, kinds, hashOf);
    }
  }

  lemma DocKept(d: Doc, kinds: Kinds, hashOf: HashFn)
    requires DocOK(d, kinds, hashOf) && Widths(d) && HashesFit(hashOf)
    ensures DocFits(d, hashOf) && StoredDoc(d) == Kept(d)
    ensures IndexExact(d.changes, d.index) && NoRepeats(d.changes)
  {
    HeadsKept(d, kinds, hashOf);
    CounterInRange(d, kinds, hashOf);
    assert ROOT in d.objects;
    hide StateOK, PendingOK, ChangesOK, Widths, ObjectFits, StoredObject, NullObject, ChangeFits, IndexExact, NoRepeats, Topological,
         HeadsExact, HashesFit, IsActor;
    forall k | k in d.objects ensures ObjectFits(d.objects[k]) && StoredObject(d.objects[k]) == NullObject(d.objects[k]) {
      ObjectKept(d, k, kinds, hashOf);
    }
    forall k | 0 <= k < |d.changes|
      ensures ChangeFits(d.changes[k]) && d.changes[k].hash == hashOf(d.changes[k].(hash := []))
    {
      ChangeKept(d, k, kinds, hashOf);
    }
    assert IsActor(d.actor) && d.seqNo < UINT64_LIMIT by { WidthsHead(d); }
    assert StoredObjects(d.objects) == NullObjects(d.objects);
  }

  lemma WidthsHead(d: Doc)
    requires Widths(d)
    ensures IsActor(d.actor) && d.seqNo < UINT64_LIMIT
  {
  }

  /** Loading what a reachable document saved gives back the document as it was
      committed: actor, counters, heads, all objects with element order,
      tombstones and visibility identities, and all changes with their hashes.
      A value that was never set reads back as null. */
  lemma SaveThenLoad(d: Doc, hashOf: HashFn, time: Time, kinds: Kinds)
    requires DocOK(d, kinds, hashOf) && HashesFit(hashOf)
    requires d.pending != [] ==> NewChange(d, hashOf, time, [], []).hash !in d.index
    requires Widths(Commit(d, hashOf, time, [], []))
    ensures HeadsFit(Commit(d, hashOf, time, [], []))
    ensures |Save(d, hashOf, time)| < UINT64_LIMIT ==>
              Decode(Save(d, hashOf, time), hashOf) == Got(Kept(Commit(d, hashOf, time, [], [])), [])
  {
    hide DocOK, Widths, HashesFit, DocFits, StoredDoc, Kept, IndexExact, NoRepeats, Encode, Decode, NewChange;
    var n := Commit(d, hashOf, time, [], []);
    CommitOK(d, hashOf, time, [], [], kinds);
    hide Commit;
    HeadsKept(n, kinds, hashOf);
    DocKept(n, kinds, hashOf);
    if |Encode(n)| < UINT64_LIMIT { SnapshotRoundTrip(n, hashOf); }
  }
}
