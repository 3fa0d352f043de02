/** The replica state machine of crdt/doc.go: local edits, commit, and the
    receipt of remote changes. Each call is a function of the document. */
module Documents {
  import opened OpIds
  import opened Values
  import opened Rga
  import opened Ops
  import opened Objects
  import Runes

  /** A change hash is a function of the change content, not of its hash field. */
  type HashFn = Change -> Hash

  datatype Doc = Doc(actor: Str, objects: Objects, changes: seq<Change>, index: map<Hash, Change>,
                     heads: seq<Hash>, seqNo: nat, maxOp: nat, pending: seq<Op>, patches: seq<Patch>)

  function NewDoc(actor: Str): Doc {
    Doc(actor, map[ROOT := MapObject(map[])], [], map[], [], 0, 0, [], [])
  }

  // ---- local edits ----

  const COLON: Byte := 58
  const DASH: Byte := 45

  /** Apply a local operation and, if it is accepted, journal it. */
  function Journal(d: Doc, op: Op): (Doc, bool) {
    var a := ApplyOp(d.objects, op);
    match a.patch
    case None => (d.(objects := a.objects), false)
    case Some(p) => (d.(objects := a.objects, pending := d.pending + [op], patches := d.patches + [p]), true)
  }

  /** newLocalOpLocked on a document whose counter has already advanced. */
  function LocalOp(d: Doc, action: Action, obj: ObjID, prop: Str, value: Value, after: Str): Op {
    Op(OpID(d.maxOp, d.actor), action, obj, prop, value, after, [], [])
  }

  function Advance(d: Doc, n: nat): Doc {
    d.(maxOp := d.maxOp + n)
  }

  function PutKey(d: Doc, obj: ObjID, prop: Str, value: Value): (Doc, bool) {
    var n := Advance(d, 1);
    Journal(n, LocalOp(n, Action.Put, obj, prop, value, []))
  }

  function DeleteKey(d: Doc, obj: ObjID, prop: Str): (Doc, bool) {
    var n := Advance(d, 1);
    Journal(n, LocalOp(n, Action.Delete, obj, prop, Null, []))
  }

  function IncrementKey(d: Doc, obj: ObjID, prop: Str, amount: int): (Doc, bool) {
    var n := Advance(d, 1);
    Journal(n, LocalOp(n, Action.Increment, obj, prop, Counter(amount), []))
  }

  /** newObjectIDLocked: the actor, a dash and the counter. */
  function ChildName(actor: Str, counter: nat): ObjID {
    actor + [DASH] + Decimal(counter)
  }

  function ChildID(d: Doc): ObjID {
    ChildName(d.actor, d.maxOp)
  }

  /** MakeMap, MakeList and MakeText. */
  function MakeChild(d: Doc, obj: ObjID, prop: Str, kind: Kind): (Doc, bool) {
    var n := Advance(d, 1);
    PutKey(n, obj, prop, ObjectValue(kind, ChildID(n)))
  }

  predicate IsSeq(d: Doc, obj: ObjID) {
    obj in d.objects && d.objects[obj].SeqObject?
  }

  /** afterIDLocked. */
  function AfterText(s: seq<Elem>, index: nat): Option<Str> {
    if index == 0 then Some([])
    else if index > |Visible(s)| then None
    else Some(Print(Visible(s)[index - 1].id))
  }

  function InsertAt(d: Doc, list: ObjID, index: nat, value: Value): (Doc, bool) {
    if !IsSeq(d, list) then (d, false)
    else
      match AfterText(d.objects[list].elems, index)
      case None => (d, false)
      case Some(after) =>
        var n := Advance(d, 1);
        Journal(n, LocalOp(n, Action.Insert, list, Decimal(index), value, after))
  }

  function DeleteAt(d: Doc, list: ObjID, index: nat): (Doc, bool) {
    if !IsSeq(d, list) || index >= |Visible(d.objects[list].elems)| then (d, false)
    else DeleteKey(d, list, Print(Visible(d.objects[list].elems)[index].id))
  }

  /** DeleteByElemID and ReviveElem. */
  function SetElement(d: Doc, list: ObjID, id: OpID, deleted: bool): (Doc, bool) {
    if !IsSeq(d, list) || !Contains(d.objects[list].elems, id) then (d, false)
    else
      var n := Advance(d, 1);
      Journal(n, LocalOp(n, if deleted then Action.Delete else Action.Revive, list, Print(id), Null, []))
  }

  datatype Spliced = Spliced(inserted: seq<OpID>, deleted: seq<OpID>)

  function Ids(s: seq<Elem>): (r: seq<OpID>)
    ensures |r| == |s| && forall i :: 0 <= i < |s| ==> r[i] == s[i].id
  {
    seq(|s|, i requires 0 <= i < |s| => s[i].id)
  }

  function CountUp(id: OpID, n: nat): (r: seq<OpID>)
    ensures |r| == n && forall i :: 0 <= i < n ==> r[i] == OpID(id.counter + i, id.actor)
  {
    seq(n, i requires 0 <= i < n => OpID(id.counter + i, id.actor))
  }

  /** The operation SpliceText journals. */
  function SpliceOp(d: Doc, text: ObjID, index: nat, count: nat, insert: Str): Op
    requires IsSeq(d, text) && index + count <= |Visible(d.objects[text].elems)|
  {
    var visible := Visible(d.objects[text].elems);
    Op(OpID(d.maxOp + 1, d.actor), Action.Splice, text, [], NoValue,
       if index == 0 then [] else Print(visible[index - 1].id), insert,
       CompressRuns(Ids(visible[index..index + count])))
  }

  function SpliceText(d: Doc, text: ObjID, index: nat, count: nat, insert: Str): (Doc, Option<Spliced>) {
    if !IsSeq(d, text) || !d.objects[text].isText then (d, None)
    else
      var visible := Visible(d.objects[text].elems);
      if index > |visible| || count > |visible| - index then (d, None)
      else
        var runes := Runes.Split(insert);
        if count == 0 && runes == [] then (d, Some(Spliced([], [])))
        else
          var op := SpliceOp(d, text, index, count, insert);
          var (n, ok) := Journal(Advance(d, if |runes| < 1 then 1 else |runes|), op);
          (n, if ok then Some(Spliced(CountUp(op.id, |runes|), Ids(visible[index..index + count]))) else None)
  }

  // ---- commit ----

  function DefaultGroup(actor: Str, seqNo: nat): Str {
    actor + [COLON] + Decimal(seqNo)
  }

  /** The change commitPending records. */
  function NewChange(d: Doc, hashOf: HashFn, time: Time, message: Str, group: Str): Change
    requires d.pending != []
  {
    var c := Change([], d.actor, d.seqNo + 1, d.heads, d.pending[0].id.counter, time, message,
                    if group == [] then DefaultGroup(d.actor, d.seqNo + 1) else group, d.pending);
    c.(hash := hashOf(c))
  }

  function Commit(d: Doc, hashOf: HashFn, time: Time, message: Str, group: Str): Doc {
    if d.pending == [] then d
    else
      var c := NewChange(d, hashOf, time, message, group);
      d.(seqNo := c.seqNo, changes := d.changes + [c], index := d.index[c.hash := c],
         heads := [c.hash], pending := [], patches := [])
  }

  // ---- remote changes ----

  function Max(a: nat, b: nat): nat {
    if a > b then a else b
  }

  /** The operations of a change in order; a refusal stops with what was done. */
  function ApplyOps(objs: Objects, maxOp: nat, ops: seq<Op>): (Objects, nat, bool)
    decreases |ops|
  {
    if ops == [] then (objs, maxOp, true)
    else
      var a := ApplyOp(objs, ops[0]);
      if a.patch.None? then (a.objects, maxOp, false)
      else ApplyOps(a.objects, Max(maxOp, LastCounter(ops[0])), ops[1..])
  }

  /** A strictly increasing hash list with h added. */
  function InsertHash(h: Hash, s: seq<Hash>): seq<Hash> {
    if s == [] then [h]
    else if h == s[0] then s
    else if StrLess(h, s[0]) then [h] + s
    else [s[0]] + InsertHash(h, s[1..])
  }

  function HeadsWithout(heads: seq<Hash>, deps: seq<Hash>): seq<Hash> {
    if heads == [] then []
    else
      var rest := HeadsWithout(heads[1..], deps);
      if heads[0] in deps then rest else InsertHash(heads[0], rest)
  }

  /** mergeHeadsLocked: drop what the change depends on, add the change. */
  function MergeHeads(heads: seq<Hash>, change: Change): seq<Hash> {
    InsertHash(change.hash, HeadsWithout(heads, change.deps))
  }

  /** applyRemoteChangeLocked for a change that carries its hash. */
  function ApplyRemote(d: Doc, c: Change): (Doc, bool) {
    var (objs, maxOp, ok) := ApplyOps(d.objects, d.maxOp, c.ops);
    var n := d.(objects := objs, maxOp := maxOp);
    if !ok then (n, false)
    else (n.(changes := d.changes + [c], index := d.index[c.hash := c], heads := MergeHeads(d.heads, c)), true)
  }

  predicate DepsKnown(d: Doc, c: Change) {
    forall h :: h in c.deps ==> h in d.index
  }

  /** ReceiveSyncMessage on the decoded changes of one message: skip what is
      known, put off what misses a dependency, stop at a refusal. */
  function Receive(d: Doc, changes: seq<Change>): (Doc, bool)
    decreases |changes|
  {
    if changes == [] then (d, true)
    else
      var c := changes[0];
      if c.hash in d.index || !DepsKnown(d, c) then Receive(d, changes[1..])
      else
        var (n, ok) := ApplyRemote(d, c);
        if ok then Receive(n, changes[1..]) else (n, false)
  }

  predicate StartsBefore(a: Change, b: Change) {
    if a.startOp != b.startOp then a.startOp < b.startOp else StrLess(a.hash, b.hash)
  }

  function InsertChange(c: Change, s: seq<Change>): (r: seq<Change>)
    ensures multiset(r) == multiset{c} + multiset(s)
  {
    if s == [] then [c]
    else if StartsBefore(c, s[0]) then [c] + s
    else
      assert s == [s[0]] + s[1..];
      [s[0]] + InsertChange(c, s[1..])
  }

  /** The order in which Merge applies changes. */
  function SortChanges(s: seq<Change>): (r: seq<Change>)
    ensures multiset(r) == multiset(s)
  {
    if s == [] then []
    else
      assert s == [s[0]] + s[1..];
      InsertChange(s[0], SortChanges(s[1..]))
  }

  /** The loop of Merge: no dependency check, only the sort. */
  function MergeSorted(d: Doc, changes: seq<Change>): (Doc, bool)
    decreases |changes|
  {
    if changes == [] then (d, true)
    else
      var c := changes[0];
      if c.hash in d.index then MergeSorted(d, changes[1..])
      else
        var (n, ok) := ApplyRemote(d, c);
        if ok then MergeSorted(n, changes[1..]) else (n, false)
  }

  function Merge(d: Doc, other: Doc): (Doc, bool) {
    MergeSorted(d, SortChanges(other.changes))
  }

  // ---- names of new objects ----

  /** Two new objects get one identity only from the same actor and counter,
      whatever characters the actors hold. */
  lemma ChildNamesDiffer(a: Str, m: nat, b: Str, n: nat)
    ensures ChildName(a, m) == ChildName(b, n) <==> a == b && m == n
    ensures ChildName(a, m) != ROOT
  {
    LastDash(a, m);
    LastDash(b, n);
    hide Decimal, IsDigit;
    var x, y := ChildName(a, m), ChildName(b, n);
    if x == y && |a| == |b| {
      assert x[..|a|] == a && y[..|b|] == b;
      assert x[|a| + 1..] == Decimal(m) && y[|b| + 1..] == Decimal(n);
      DecimalValue(m);
      DecimalValue(n);
    }
    NoDashInRoot(x, |a|);
  }

  /** The dash before the counter is the last one. */
  lemma LastDash(a: Str, m: nat)
    ensures var x := ChildName(a, m);
            |a| < |x| && x[|a|] == DASH && !IsDigit(DASH) && forall k :: |a| < k < |x| ==> IsDigit(x[k])
  {
    hide Decimal;
    var x := ChildName(a, m);
    forall k | |a| < k < |x| ensures IsDigit(x[k]) { assert x[k] == Decimal(m)[k - |a| - 1]; }
  }

  lemma NoDashInRoot(x: Str, k: nat)
    requires k < |x| && x[k] == DASH
    ensures x != ROOT
  {
  }
}
