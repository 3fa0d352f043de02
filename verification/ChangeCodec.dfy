/** The change table of crdt/snapshot.go: times as differences, dependencies as
    table indexes, hashes recomputed. */
module ChangeCodec {
  import opened OpIds
  import opened Values
  import opened Ops
  import opened Varints
  import opened Interning
  import opened ValueCodec
  import opened ElemCodec
  import opened OpCodec
  import opened Documents

  const HASH_BYTES: nat := 32

  /** The last place of each hash in the change list, as encodeSnapshotV2 builds it. */
  function HashPlaces(changes: seq<Change>): (m: map<Hash, nat>)
    ensures forall h :: h in m ==> m[h] < |changes| && changes[m[h]].hash == h
  {
    if changes == [] then map[]
    else HashPlaces(changes[..|changes| - 1])[changes[|changes| - 1].hash := |changes| - 1]
  }

  function PreviousSeconds(prev: seq<Change>): int {
    if prev == [] then 0 else prev[|prev| - 1].time.seconds
  }

  // ---- dependencies ----

  /** An earlier place in the table, or a zero and the raw hash. */
  function EncDep(dep: Hash, position: nat, places: map<Hash, nat>): (s: Str)
    ensures s != []
  {
    if dep in places && places[dep] < position then EncUint(places[dep] + 1) else EncUint(0) + dep
  }

  function DecDep(s: Str, existing: seq<Change>): Read<Hash> {
    var (ref, r) :- DecUint(s);
    if ref == 0 then DecRaw(r, HASH_BYTES)
    else if ref - 1 >= |existing| then Bad
    else Got(existing[ref - 1].hash, r)
  }

  function DepWriter(position: nat, places: map<Hash, nat>): Encoder<Hash> {
    (prev, dep, t) => (EncDep(dep, position, places), t)
  }

  function DepReader(existing: seq<Change>): Decoder<Hash> {
    (prev, s) => DecDep(s, existing)
  }

  lemma DepRoundTrip(dep: Hash, changes: seq<Change>, position: nat, rest: Str)
    requires position <= |changes| < UINT64_LIMIT && |dep| == HASH_BYTES
    ensures DecDep(EncDep(dep, position, HashPlaces(changes)) + rest, changes[..position]) == Got(dep, rest)
  {
    hide *;
    var places := HashPlaces(changes);
    if dep in places && places[dep] < position {
      KnownDep(dep, places[dep], changes, position, places, rest);
    } else {
      RawDep(dep, position, places, changes[..position], rest);
    }
  }

  lemma KnownDep(dep: Hash, at: nat, changes: seq<Change>, position: nat, places: map<Hash, nat>, rest: Str)
    requires dep in places && places[dep] == at < position <= |changes| < UINT64_LIMIT && changes[at].hash == dep
    ensures DecDep(EncDep(dep, position, places) + rest, changes[..position]) == Got(dep, rest)
  {
    hide EncUint, DecUint;
    UintRoundTrip(at + 1, rest);
  }

  lemma RawDep(dep: Hash, position: nat, places: map<Hash, nat>, existing: seq<Change>, rest: Str)
    requires dep !in places || places[dep] >= position
    requires |dep| == HASH_BYTES
    ensures DecDep(EncDep(dep, position, places) + rest, existing) == Got(dep, rest)
  {
    hide EncUint, DecUint, DecRaw;
    Assoc(EncUint(0), dep, rest);
    UintRoundTrip(0, dep + rest);
    RawRoundTrip(dep, rest);
  }

  lemma DepItem(deps: seq<Hash>, i: nat, changes: seq<Change>, position: nat, t: Tables, c: Ctx)
    requires i < |deps| && position <= |changes| < UINT64_LIMIT && |deps[i]| == HASH_BYTES
    ensures ItemReads(deps, deps, i, t, DepWriter(position, HashPlaces(changes)), DepReader(changes[..position]), c)
  {
    hide EncDep, DecDep, HashPlaces;
    forall rest: Str
      ensures DecDep(EncDep(deps[i], position, HashPlaces(changes)) + rest, changes[..position]) == Got(deps[i], rest)
    {
      DepRoundTrip(deps[i], changes, position, rest);
    }
  }

  lemma SaneDeps(position: nat, places: map<Hash, nat>)
    ensures Sane(DepWriter(position, places))
  {
    hide EncDep;
  }

  // ---- one change ----

  function ChangeFlags(ch: Change): (bits: seq<bool>)
    ensures |bits| == 2
  {
    [ch.group == DefaultGroup(ch.actor, ch.seqNo), ch.message != []]
  }

  /** Sequence number, first operation, seconds since the change before, nanoseconds. */
  function EncStamp(prev: seq<Change>, ch: Change): Str {
    EncUint(ch.seqNo) + (EncUint(ch.startOp) + (EncInt(Wrap(ch.time.seconds - PreviousSeconds(prev))) + EncUint(ch.time.nanos)))
  }

  /** Message and group, as far as the flags announce them. */
  function EncLabels(ch: Change, t: Tables): (r: (Str, Tables))
    ensures Extends(r.1, t)
  {
    var (m, t1) := if ch.message != [] then EncString(ch.message, t) else ([], t);
    var (g, t2) := if ch.group == DefaultGroup(ch.actor, ch.seqNo) then ([], t1) else EncString(ch.group, t1);
    (m + g, t2)
  }

  /** Dependencies and operations. */
  function EncWork(prev: seq<Change>, ch: Change, places: map<Hash, nat>, t: Tables): (r: (Str, Tables))
    ensures Extends(r.1, t)
  {
    var (d, t1) := EncList(ch.deps, t, DepWriter(|prev|, places));
    var (o, t2) := EncList(ch.ops, t1, OpWriter());
    SaneDeps(|prev|, places);
    SaneOps();
    ListLength(ch.deps, t, DepWriter(|prev|, places));
    ListLength(ch.ops, t1, OpWriter());
    (d + o, t2)
  }

  /** writeChange. */
  function EncChange(prev: seq<Change>, ch: Change, places: map<Hash, nat>, t: Tables): (r: (Str, Tables))
    ensures Extends(r.1, t) && r.0 != []
  {
    var (a, t1) := EncActor(ch.actor, t);
    var (l, t2) := EncLabels(ch, t1);
    var (w, t3) := EncWork(prev, ch, places, t2);
    ([FlagByte(ChangeFlags(ch))] + (a + (EncStamp(prev, ch) + (l + w))), t3)
  }

  datatype Stamp = Stamp(seqNo: nat, startOp: nat, time: Time)

  function DecStamp(prev: seq<Change>, s: Str): Read<Stamp> {
    var (seqNo, s1) :- DecUint(s);
    var (startOp, s2) :- DecUint(s1);
    var (delta, s3) :- DecInt(s2);
    var (nanos, s4) :- DecUint(s3);
    Got(Stamp(seqNo, startOp, Time(Wrap(PreviousSeconds(prev) + delta), nanos)), s4)
  }

  function DecMessage(has: bool, s: Str, c: Ctx): Read<Str> {
    if has then DecString(s, c) else Got([], s)
  }

  function DecGroup(isDefault: bool, actor: Str, seqNo: nat, s: Str, c: Ctx): Read<Str> {
    if isDefault then Got(DefaultGroup(actor, seqNo), s) else DecString(s, c)
  }

  /** readChange, and the hash that decodeSnapshotV2 recomputes. */
  function DecChange(prev: seq<Change>, s: Str, c: Ctx, hashOf: HashFn): Read<Change> {
    var (flags, s1) :- DecByte(s);
    var (actor, s2) :- DecActor(s1, c);
    var (stamp, s3) :- DecStamp(prev, s2);
    var (message, s4) :- DecMessage(Bit(flags, 1), s3, c);
    var (group, s5) :- DecGroup(Bit(flags, 0), actor, stamp.seqNo, s4, c);
    var (deps, s6) :- DecList(s5, c, DepReader(prev));
    var (ops, s7) :- DecList(s6, c, OpReader(c));
    var ch := Change.Change([], actor, stamp.seqNo, deps, stamp.startOp, stamp.time, message, group, ops);
    Got(ch.(hash := hashOf(ch)), s7)
  }

  predicate ChangeFits(ch: Change) {
    && ch.seqNo < UINT64_LIMIT && ch.startOp < UINT64_LIMIT && TimeFits(ch.time)
    && (forall k :: 0 <= k < |ch.deps| ==> |ch.deps[k]| == HASH_BYTES)
    && (forall k :: 0 <= k < |ch.ops| ==> OpFits(ch.ops[k]))
  }

  lemma StampRoundTrip(prev: seq<Change>, ch: Change, rest: Str)
    requires ChangeFits(ch) && IsInt64(PreviousSeconds(prev))
    ensures DecStamp(prev, EncStamp(prev, ch) + rest) == Got(Stamp(ch.seqNo, ch.startOp, ch.time), rest)
  {
    hide EncUint, DecUint, EncInt, DecInt, OpFits, Wrap;
    var before := PreviousSeconds(prev);
    var a, b, d, n := EncUint(ch.seqNo), EncUint(ch.startOp), EncInt(Wrap(ch.time.seconds - before)), EncUint(ch.time.nanos);
    WrapRoundTrip(ch.time.seconds, before);
    Assoc(a, b + (d + n), rest);
    Assoc(b, d + n, rest);
    Assoc(d, n, rest);
    UintRoundTrip(ch.seqNo, b + (d + (n + rest)));
    UintRoundTrip(ch.startOp, d + (n + rest));
    IntRoundTrip(Wrap(ch.time.seconds - before), n + rest);
    UintRoundTrip(ch.time.nanos, rest);
  }

  lemma LabelsRoundTrip(ch: Change, t: Tables, c: Ctx, rest: Str) returns (mid: Str)
    requires c.OK() && Extends(c.tables, EncLabels(ch, t).1)
    ensures DecMessage(ch.message != [], EncLabels(ch, t).0 + rest, c) == Got(ch.message, mid)
    ensures DecGroup(ch.group == DefaultGroup(ch.actor, ch.seqNo), ch.actor, ch.seqNo, mid, c) == Got(ch.group, rest)
  {
    hide EncString, DecString, DefaultGroup, Ctx.OK;
    var (m, t1) := if ch.message != [] then EncString(ch.message, t) else ([], t);
    var (g, t2) := if ch.group == DefaultGroup(ch.actor, ch.seqNo) then ([], t1) else EncString(ch.group, t1);
    mid := g + rest;
    Assoc(m, g, rest);
    if ch.message != [] { StringRoundTrip(ch.message, t, c, mid); } else { NothingWritten(mid); }
    if ch.group != DefaultGroup(ch.actor, ch.seqNo) { StringRoundTrip(ch.group, t1, c, rest); } else { NothingWritten(rest); }
  }

  lemma WorkRoundTrip(changes: seq<Change>, k: nat, t: Tables, c: Ctx, rest: Str) returns (mid: Str)
    requires k < |changes| < UINT64_LIMIT && ChangeFits(changes[k])
    requires c.OK() && Extends(c.tables, EncWork(changes[..k], changes[k], HashPlaces(changes), t).1)
    requires |EncWork(changes[..k], changes[k], HashPlaces(changes), t).0 + rest| <= c.limit
    ensures DecList(EncWork(changes[..k], changes[k], HashPlaces(changes), t).0 + rest, c, DepReader(changes[..k]))
         == Got(changes[k].deps, mid)
    ensures DecList(mid, c, OpReader(c)) == Got(changes[k].ops, rest)
  {
    hide EncList, DecList, HashPlaces, DepWriter, DepReader, OpWriter, OpReader, OpFits, ItemReads, Sane, TimeFits, Ctx.OK;
    var prev, ch, places := changes[..k], changes[k], HashPlaces(changes);
    var (d, t1) := EncList(ch.deps, t, DepWriter(k, places));
    var (o, t2) := EncList(ch.ops, t1, OpWriter());
    SaneDeps(k, places);
    SaneOps();
    ListLength(ch.ops, t1, OpWriter());
    Assoc(d, o, rest);
    mid := o + rest;
    forall i | 0 <= i < |ch.deps| ensures ItemReads(ch.deps, ch.deps, i, t, DepWriter(k, places), DepReader(prev), c) {
      DepItem(ch.deps, i, changes, k, t, c);
    }
    ListRoundTrip(ch.deps, ch.deps, t, DepWriter(k, places), DepReader(prev), c, mid);
    forall i | 0 <= i < |ch.ops| ensures ItemReads(ch.ops, ch.ops, i, t1, OpWriter(), OpReader(c), c) {
      OpItem(ch.ops, i, t1, c);
    }
    ListRoundTrip(ch.ops, ch.ops, t1, OpWriter(), OpReader(c), c, rest);
  }

  lemma ChangeBits(ch: Change)
    ensures Bit(FlagByte(ChangeFlags(ch)), 0) == (ch.group == DefaultGroup(ch.actor, ch.seqNo))
    ensures Bit(FlagByte(ChangeFlags(ch)), 1) == (ch.message != [])
  {
    hide Bit, FlagByte, DefaultGroup;
    BitOfFlags(ChangeFlags(ch), 0);
    BitOfFlags(ChangeFlags(ch), 1);
  }

  lemma ChangeLayout(f: Byte, a: Str, p: Str, l: Str, w: Str, rest: Str)
    ensures DecByte([f] + (a + (p + (l + w))) + rest) == Got(f, a + (p + (l + (w + rest))))
    ensures |w + rest| <= |[f] + (a + (p + (l + w))) + rest|
  {
    CodeStep(f, a + (p + (l + w)), rest);
    Assoc(a, p + (l + w), rest);
    Assoc(p, l + w, rest);
    Assoc(l, w, rest);
  }

  /** A change whose hash is the hash of its content reads back exactly, hash and
      dependencies included, behind the changes before it. */
  lemma ChangeRoundTrip(changes: seq<Change>, k: nat, t: Tables, c: Ctx, hashOf: HashFn, rest: Str)
    requires k < |changes| < UINT64_LIMIT && ChangeFits(changes[k])
    requires changes[k].hash == hashOf(changes[k].(hash := []))
    requires IsInt64(PreviousSeconds(changes[..k]))
    requires c.OK() && Extends(c.tables, EncChange(changes[..k], changes[k], HashPlaces(changes), t).1)
    requires |EncChange(changes[..k], changes[k], HashPlaces(changes), t).0 + rest| <= c.limit
    ensures DecChange(changes[..k], EncChange(changes[..k], changes[k], HashPlaces(changes), t).0 + rest, c, hashOf)
         == Got(changes[k], rest)
  {
    hide FlagByte, ChangeFlags, Bit, EncStamp, DecStamp, EncLabels, DecMessage, DecGroup, EncWork, DecList, EncActor, DecActor,
         ChangeFits, HashPlaces, DepReader, OpReader, DefaultGroup, DecByte, Ctx.OK, PreviousSeconds, DecChange;
    var prev, ch, places := changes[..k], changes[k], HashPlaces(changes);
    var f := FlagByte(ChangeFlags(ch));
    var (a, t1) := EncActor(ch.actor, t);
    var (l, t2) := EncLabels(ch, t1);
    var (w, t3) := EncWork(prev, ch, places, t2);
    var p := EncStamp(prev, ch);
    ChangeLayout(f, a, p, l, w, rest);
    ChangeBits(ch);
    ActorRoundTrip(ch.actor, t, c, p + (l + (w + rest)));
    StampRoundTrip(prev, ch, l + (w + rest));
    var m := LabelsRoundTrip(ch, t1, c, w + rest);
    var d := WorkRoundTrip(changes, k, t2, c, rest);
    DecChangeSteps(prev, ch, f, EncChange(prev, ch, places, t).0 + rest, a + (p + (l + (w + rest))), p + (l + (w + rest)),
                   l + (w + rest), m, w + rest, d, rest, c, hashOf);
  }

  lemma DecChangeSteps(prev: seq<Change>, ch: Change, f: Byte, s: Str, s1: Str, s2: Str, s3: Str, s4: Str, s5: Str, s6: Str,
                       s7: Str, c: Ctx, hashOf: HashFn)
    requires DecByte(s) == Got(f, s1) && DecActor(s1, c) == Got(ch.actor, s2)
    requires DecStamp(prev, s2) == Got(Stamp(ch.seqNo, ch.startOp, ch.time), s3)
    requires DecMessage(Bit(f, 1), s3, c) == Got(ch.message, s4)
    requires DecGroup(Bit(f, 0), ch.actor, ch.seqNo, s4, c) == Got(ch.group, s5)
    requires DecList(s5, c, DepReader(prev)) == Got(ch.deps, s6)
    requires DecList(s6, c, OpReader(c)) == Got(ch.ops, s7)
    requires ch.hash == hashOf(ch.(hash := []))
    ensures DecChange(prev, s, c, hashOf) == Got(ch, s7)
  {
    hide DecByte, DecActor, DecStamp, DecMessage, DecGroup, DecList, DepReader, OpReader, Bit;
  }

  function ChangeWriter(places: map<Hash, nat>): Encoder<Change> {
    (prev, ch, t) => EncChange(prev, ch, places, t)
  }

  function ChangeReader(c: Ctx, hashOf: HashFn): Decoder<Change> {
    (prev, s) => DecChange(prev, s, c, hashOf)
  }

  /** The changes of a document as a snapshot can carry them. */
  ghost predicate ChangesFit(changes: seq<Change>, hashOf: HashFn) {
    forall k :: 0 <= k < |changes| ==> ChangeFits(changes[k]) && changes[k].hash == hashOf(changes[k].(hash := []))
  }

  lemma SecondsFit(changes: seq<Change>, k: nat, hashOf: HashFn)
    requires k <= |changes| && ChangesFit(changes, hashOf)
    ensures IsInt64(PreviousSeconds(changes[..k]))
  {
    if k > 0 { assert ChangeFits(changes[k - 1]); }
  }

  lemma ChangeItem(changes: seq<Change>, k: nat, t: Tables, c: Ctx, hashOf: HashFn)
    requires k < |changes| < UINT64_LIMIT && ChangesFit(changes, hashOf) && c.OK()
    ensures ItemReads(changes, changes, k, t, ChangeWriter(HashPlaces(changes)), ChangeReader(c, hashOf), c)
  {
    SecondsFit(changes, k, hashOf);
    assert ChangeFits(changes[k]);
    hide EncChange, DecChange, EncItems, ChangeFits, ChangesFit, HashPlaces, PreviousSeconds, IsInt64, Ctx.OK;
    var places := HashPlaces(changes);
    var u := EncItems(changes[..k], t, ChangeWriter(places)).1;
    if Extends(c.tables, EncChange(changes[..k], changes[k], places, u).1) {
      forall rest: Str | |EncChange(changes[..k], changes[k], places, u).0 + rest| <= c.limit
        ensures DecChange(changes[..k], EncChange(changes[..k], changes[k], places, u).0 + rest, c, hashOf) == Got(changes[k], rest)
      {
        ChangeRoundTrip(changes, k, u, c, hashOf, rest);
      }
    }
  }

  lemma SaneChanges(places: map<Hash, nat>)
    ensures Sane(ChangeWriter(places))
  {
    hide EncChange;
  }

  /** By induction over the table: every recomputed hash is the original, so every
      table index resolves to the hash it stands for. */
  lemma ChangesRoundTrip(changes: seq<Change>, t: Tables, c: Ctx, hashOf: HashFn, rest: Str)
    requires ChangesFit(changes, hashOf) && c.OK()
    requires Extends(c.tables, EncList(changes, t, ChangeWriter(HashPlaces(changes))).1)
    requires |EncList(changes, t, ChangeWriter(HashPlaces(changes))).0 + rest| <= c.limit
    ensures DecList(EncList(changes, t, ChangeWriter(HashPlaces(changes))).0 + rest, c, ChangeReader(c, hashOf)) == Got(changes, rest)
  {
    hide EncList, DecList, ItemReads, Sane, ChangeWriter, ChangeReader, HashPlaces, ChangesFit;
    var enc := ChangeWriter(HashPlaces(changes));
    SaneChanges(HashPlaces(changes));
    ListLength(changes, t, enc);
    forall k | 0 <= k < |changes| ensures ItemReads(changes, changes, k, t, enc, ChangeReader(c, hashOf), c) {
      ChangeItem(changes, k, t, c, hashOf);
    }
    ListRoundTrip(changes, changes, t, enc, ChangeReader(c, hashOf), c, rest);
  }
}
