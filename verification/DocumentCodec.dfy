/** A whole document as a compact snapshot: encodeSnapshotV2 and
    decodeSnapshotV2 of crdt/snapshot.go. */
module DocumentCodec {
  import opened OpIds
  import opened Ops
  import opened Objects
  import opened Documents
  import opened CausalGraph
  import opened Varints
  import opened Interning
  import opened ChangeCodec
  import opened Snapshot

  const VERSION: Byte := 2

  // ---- actor identities ----

  predicate IsLowerHex(b: Byte) {
    48 <= b <= 57 || 97 <= b <= 102
  }

  /** ActorID.String: sixteen bytes as lower-case hexadecimal. */
  predicate IsActor(s: Str) {
    |s| == 32 && forall i :: 0 <= i < 32 ==> IsLowerHex(s[i])
  }

  function Lower(b: Byte): Byte {
    if 65 <= b <= 70 then b + 32 else b
  }

  /** ParseActorID, printed again: upper-case digits are accepted. */
  function ParseActor(s: Str): Option<Str> {
    if |s| != 32 || exists i :: 0 <= i < 32 && !IsLowerHex(Lower(s[i])) then None
    else Some(seq(32, i requires 0 <= i < 32 => Lower(s[i])))
  }

  lemma ActorParses(s: Str)
    requires IsActor(s)
    ensures ParseActor(s) == Some(s)
  {
    assert forall i :: 0 <= i < 32 ==> Lower(s[i]) == s[i] && IsLowerHex(Lower(s[i]));
    assert seq(32, i requires 0 <= i < 32 => Lower(s[i])) == s;
  }

  // ---- heads and tables ----

  /** A change hash is an array of 32 bytes. */
  type RawHash = h: Str | |h| == HASH_BYTES witness seq(HASH_BYTES, i => 0)

  function HashWriter(): Encoder<RawHash> {
    (prev, h, t) => (h, t)
  }

  function HashReader(): Decoder<RawHash> {
    (prev, s) => DecRaw(s, HASH_BYTES)
  }

  function NameWriter(): Encoder<Str> {
    (prev, s, t) => (EncStr(s), t)
  }

  function NameReader(): Decoder<Str> {
    (prev, s) => DecStr(s)
  }

  function EncTable(list: seq<Str>): Str {
    EncList(list, NO_TABLES, NameWriter()).0
  }

  function DecTable(s: Str, limit: nat): Read<seq<Str>> {
    DecList(s, Ctx(NO_TABLES, limit), NameReader())
  }

  lemma {:induction false} NamesKeepTables(list: seq<Str>, t: Tables)
    ensures EncItems(list, t, NameWriter()).1 == t
  {
    if list != [] { NamesKeepTables(list[..|list| - 1], t); }
  }

  lemma {:induction false} NameBytes(list: seq<Str>, i: nat, t: Tables)
    requires i < |list|
    ensures |list[i]| <= |EncItems(list, t, NameWriter()).0|
    decreases |list|
  {
    if i < |list| - 1 {
      NameBytes(list[..|list| - 1], i, t);
    }
  }

  lemma TableRoundTrip(list: seq<Str>, limit: nat, rest: Str)
    requires limit < UINT64_LIMIT && |EncTable(list) + rest| <= limit
    ensures DecTable(EncTable(list) + rest, limit) == Got(list, rest)
    ensures |list| < |EncTable(list)|
  {
    hide DecList;
    var c := Ctx(NO_TABLES, limit);
    NamesKeepTables(list, NO_TABLES);
    assert Sane(NameWriter());
    ListLength(list, NO_TABLES, NameWriter());
    forall i | 0 <= i < |list| ensures ItemReads(list, list, i, NO_TABLES, NameWriter(), NameReader(), c) {
      NameItem(list, i, c);
    }
    ListRoundTrip(list, list, NO_TABLES, NameWriter(), NameReader(), c, rest);
  }

  lemma NameItem(list: seq<Str>, i: nat, c: Ctx)
    requires i < |list| && |EncItems(list, NO_TABLES, NameWriter()).0| < UINT64_LIMIT
    ensures ItemReads(list, list, i, NO_TABLES, NameWriter(), NameReader(), c)
  {
    NameBytes(list, i, NO_TABLES);
    hide EncStr, DecStr, EncItems;
    forall rest: Str ensures DecStr(EncStr(list[i]) + rest) == Got(list[i], rest) { StrRoundTrip(list[i], rest); }
  }

  lemma HashesRoundTrip(heads: seq<RawHash>, t: Tables, c: Ctx, rest: Str)
    requires c.OK() && Extends(c.tables, EncList(heads, t, HashWriter()).1)
    requires |EncList(heads, t, HashWriter()).0 + rest| <= c.limit
    ensures DecList(EncList(heads, t, HashWriter()).0 + rest, c, HashReader()) == Got(heads, rest)
  {
    hide EncList, DecList;
    assert Sane(HashWriter());
    forall i | 0 <= i < |heads| ensures ItemReads(heads, heads, i, t, HashWriter(), HashReader(), c) {
      forall rest: Str ensures DecRaw(heads[i] + rest, HASH_BYTES) == Got(heads[i], rest) { RawRoundTrip(heads[i], rest); }
    }
    hide ItemReads, Sane;
    ListRoundTrip(heads, heads, t, HashWriter(), HashReader(), c, rest);
  }

  // ---- the body ----

  predicate HeadsFit(d: Doc) {
    forall i :: 0 <= i < |d.heads| ==> |d.heads[i]| == HASH_BYTES
  }

  /** The objects and changes of a document. */
  function EncContent(d: Doc, t: Tables): (r: (Str, Tables))
    ensures Extends(r.1, t)
  {
    var places := HashPlaces(d.changes);
    var (o, t1) := EncList(Rows(d.objects), t, ObjectWriter());
    var (c, t2) := EncList(d.changes, t1, ChangeWriter(places));
    SaneObjects();
    SaneChanges(places);
    ListLength(Rows(d.objects), t, ObjectWriter());
    ListLength(d.changes, t1, ChangeWriter(places));
    (o + c, t2)
  }

  function EncBody(d: Doc, t: Tables): (r: (Str, Tables))
    requires HeadsFit(d)
    ensures Extends(r.1, t)
  {
    var (a, t1) := EncActor(d.actor, t);
    var (h, t2) := EncList(RawHeads(d), t1, HashWriter());
    assert Sane(HashWriter());
    ListLength(RawHeads(d), t1, HashWriter());
    var (b, t3) := EncContent(d, t2);
    (a + (EncUint(d.seqNo) + (EncUint(d.maxOp) + (h + b))), t3)
  }

  /** encodeSnapshotV2: the version, the complete tables, the body. */
  function Encode(d: Doc): Str
    requires HeadsFit(d)
  {
    var (b, t) := EncBody(d, NO_TABLES);
    [VERSION] + (EncTable(t.actors) + (EncTable(t.objects) + (EncTable(t.strings) + b)))
  }

  /** The index of changes by hash. */
  function IndexChanges(changes: seq<Change>): map<Hash, Change> {
    if changes == [] then map[]
    else IndexChanges(changes[..|changes| - 1])[changes[|changes| - 1].hash := changes[|changes| - 1]]
  }

  function WithRoot(objs: Objects): Objects {
    if ROOT in objs then objs else objs[ROOT := MapObject(map[])]
  }

  function DecBody(s: Str, c: Ctx, hashOf: HashFn): Read<Doc> {
    var (name, s1) :- DecActor(s, c);
    match ParseActor(name)
    case None => Bad
    case Some(actor) =>
      var (seqNo, s2) :- DecUint(s1);
      var (maxOp, s3) :- DecUint(s2);
      var (heads, s4) :- DecList(s3, c, HashReader());
      var (rows, s5) :- DecList(s4, c, ObjectReader(c));
      var (changes, s6) :- DecList(s5, c, ChangeReader(c, hashOf));
      Got(Doc.Doc(actor, WithRoot(FromRows(rows)), changes, IndexChanges(changes), heads, seqNo, maxOp, [], []), s6)
  }

  /** decodeSnapshotV2; another first byte means another format. */
  function Decode(s: Str, hashOf: HashFn): Read<Doc> {
    if s == [] || s[0] != VERSION then Bad
    else
      var (actors, s1) :- DecTable(s[1..], |s|);
      var (objects, s2) :- DecTable(s1, |s|);
      var (strings, s3) :- DecTable(s2, |s|);
      DecBody(s3, Ctx(Tables(actors, objects, strings), |s|), hashOf)
  }

  // ---- the round trip ----

  /** The widths of the Go types behind a document. */
  ghost predicate DocFits(d: Doc, hashOf: HashFn) {
    && IsActor(d.actor) && d.seqNo < UINT64_LIMIT && d.maxOp < UINT64_LIMIT && HeadsFit(d) && ROOT in d.objects
    && (forall k :: k in d.objects ==> ObjectFits(d.objects[k]))
    && ChangesFit(d.changes, hashOf)
  }

  /** What a snapshot keeps of a document without uncommitted operations. */
  function StoredDoc(d: Doc): Doc {
    d.(objects := StoredObjects(d.objects), pending := [], patches := [])
  }

  lemma {:induction false} IndexChangesExact(changes: seq<Change>)
    requires NoRepeats(changes)
    ensures IndexExact(changes, IndexChanges(changes))
  {
    if changes != [] {
      IndexChangesExact(changes[..|changes| - 1]);
      IndexedMore(changes, IndexChanges(changes[..|changes| - 1]));
    }
  }

  lemma IndexedMore(changes: seq<Change>, index: map<Hash, Change>)
    requires changes != [] && NoRepeats(changes) && IndexExact(changes[..|changes| - 1], index)
    ensures IndexExact(changes, index[changes[|changes| - 1].hash := changes[|changes| - 1]])
  {
    var last, n := changes[|changes| - 1], |changes| - 1;
    var before, more := changes[..n], index[last.hash := last];
    forall k | 0 <= k < |changes| ensures changes[k].hash in more && more[changes[k].hash] == changes[k] {
      if k < n { assert before[k] == changes[k]; }
    }
    forall h | h in more ensures Recorded(changes, h) {
      if h == last.hash {
        assert changes[n].hash == h;
      } else {
        var k :| 0 <= k < n && before[k].hash == h;
        assert changes[k].hash == h;
      }
    }
  }

  lemma IndexIsUnique(changes: seq<Change>, a: map<Hash, Change>, b: map<Hash, Change>)
    requires IndexExact(changes, a) && IndexExact(changes, b)
    ensures a == b
  {
    forall h ensures h in a <==> h in b {
      if h in a || h in b {
        var k :| 0 <= k < |changes| && changes[k].hash == h;
      }
    }
  }

  lemma ContentRoundTrip(d: Doc, t: Tables, c: Ctx, hashOf: HashFn, rest: Str) returns (mid: Str)
    requires DocFits(d, hashOf) && c.OK() && Extends(c.tables, EncContent(d, t).1)
    requires |EncContent(d, t).0 + rest| <= c.limit
    ensures DecList(EncContent(d, t).0 + rest, c, ObjectReader(c)) == Got(StoredObjectRows(Rows(d.objects)), mid)
    ensures DecList(mid, c, ChangeReader(c, hashOf)) == Got(d.changes, rest)
    ensures FromRows(StoredObjectRows(Rows(d.objects))) == StoredObjects(d.objects)
  {
    hide EncList, DecList, ObjectWriter, ObjectReader, ChangeWriter, ChangeReader, HashPlaces, ChangesFit, ObjectFits, Ctx.OK,
         FromRows, Sane;
    var places := HashPlaces(d.changes);
    var (o, t1) := EncList(Rows(d.objects), t, ObjectWriter());
    var (b, t2) := EncList(d.changes, t1, ChangeWriter(places));
    SaneChanges(places);
    ListLength(d.changes, t1, ChangeWriter(places));
    Assoc(o, b, rest);
    mid := b + rest;
    ObjectsRoundTrip(d.objects, t, c, mid);
    ChangesRoundTrip(d.changes, t1, c, hashOf, rest);
  }

  lemma BodyLayout(a: Str, s: Str, m: Str, h: Str, b: Str, rest: Str)
    ensures a + (s + (m + (h + b))) + rest == a + (s + (m + (h + (b + rest))))
    ensures |b + rest| <= |h + (b + rest)| <= |a + (s + (m + (h + b))) + rest|
  {
    Assoc(a, s + (m + (h + b)), rest);
    Assoc(s, m + (h + b), rest);
    Assoc(m, h + b, rest);
    Assoc(h, b, rest);
  }

  lemma BodyRoundTrip(d: Doc, t: Tables, c: Ctx, hashOf: HashFn, rest: Str)
    requires DocFits(d, hashOf) && IndexExact(d.changes, d.index) && NoRepeats(d.changes)
    requires c.OK() && Extends(c.tables, EncBody(d, t).1)
    requires |EncBody(d, t).0 + rest| <= c.limit
    ensures DecBody(EncBody(d, t).0 + rest, c, hashOf) == Got(StoredDoc(d), rest)
  {
    hide EncActor, DecActor, EncUint, DecUint, EncList, DecList, EncContent, HashWriter, HashReader, ObjectReader, ChangeReader,
         ObjectFits, ChangesFit, IsActor, ParseActor, Ctx.OK, FromRows, Sane, StoredObjects, StoredObjectRows, IndexExact,
         NoRepeats, IndexChanges, Rows, HeadsFit;
    var (a, t1) := EncActor(d.actor, t);
    var heads := RawHeads(d);
    var (h, t2) := EncList(heads, t1, HashWriter());
    var (b, t3) := EncContent(d, t2);
    var s, m := EncUint(d.seqNo), EncUint(d.maxOp);
    BodyLayout(a, s, m, h, b, rest);
    HashesKeep(heads, t1);
    ActorRoundTrip(d.actor, t, c, s + (m + (h + (b + rest))));
    ActorParses(d.actor);
    UintRoundTrip(d.seqNo, m + (h + (b + rest)));
    UintRoundTrip(d.maxOp, h + (b + rest));
    HashesRoundTrip(heads, t1, c, b + rest);
    var mid := ContentRoundTrip(d, t2, c, hashOf, rest);
    IndexChangesExact(d.changes);
    IndexIsUnique(d.changes, IndexChanges(d.changes), d.index);
  }

  function RawHeads(d: Doc): (r: seq<RawHash>)
    requires HeadsFit(d)
    ensures r == d.heads
  {
    d.heads
  }

  lemma HashesKeep(heads: seq<RawHash>, t: Tables)
    ensures Extends(EncList(heads, t, HashWriter()).1, t)
  {
    assert Sane(HashWriter());
    ListLength(heads, t, HashWriter());
  }

  lemma HeaderLayout(a: Str, o: Str, n: Str, b: Str)
    ensures var s := [VERSION] + (a + (o + (n + b)));
            && s != [] && s[0] == VERSION && s[1..] == a + (o + (n + b))
            && |b + []| <= |n + b| <= |o + (n + b)| <= |a + (o + (n + b))| <= |s|
            && b + [] == b
  {
  }

  /** Decoding the encoding of a document gives it back: actor, counters, heads,
      every object and every change with its hash. Only uncommitted operations are
      not kept, and an element or entry as StoredElem and StoredEntry say. */
  lemma SnapshotRoundTrip(d: Doc, hashOf: HashFn)
    requires DocFits(d, hashOf) && IndexExact(d.changes, d.index) && NoRepeats(d.changes)
    requires |Encode(d)| < UINT64_LIMIT
    ensures Decode(Encode(d), hashOf) == Got(StoredDoc(d), [])
  {
    assert HeadsFit(d);
    var (b, t) := EncBody(d, NO_TABLES);
    var x, o, n := EncTable(t.actors), EncTable(t.objects), EncTable(t.strings);
    assert Encode(d) == [VERSION] + (x + (o + (n + b)));
    hide *;
    var limit := |Encode(d)|;
    HeaderLayout(x, o, n, b);
    TableRoundTrip(t.actors, limit, o + (n + b));
    TableRoundTrip(t.objects, limit, n + b);
    TableRoundTrip(t.strings, limit, b);
    CtxFits(t, limit);
    BodyRoundTrip(d, NO_TABLES, Ctx(t, limit), hashOf, []);
    DecodeSteps(Encode(d), o + (n + b), n + b, b, t, StoredDoc(d), hashOf);
  }

  lemma CtxFits(t: Tables, limit: nat)
    requires limit < UINT64_LIMIT && |t.actors| < limit && |t.objects| < limit && |t.strings| < limit
    ensures Ctx(t, limit).OK() && Extends(t, t)
  {
  }

  lemma DecodeSteps(s: Str, s1: Str, s2: Str, s3: Str, t: Tables, d: Doc, hashOf: HashFn)
    requires s != [] && s[0] == VERSION && DecTable(s[1..], |s|) == Got(t.actors, s1)
    requires DecTable(s1, |s|) == Got(t.objects, s2) && DecTable(s2, |s|) == Got(t.strings, s3)
    requires DecBody(s3, Ctx(t, |s|), hashOf) == Got(d, [])
    ensures Decode(s, hashOf) == Got(d, [])
  {
    hide DecTable, DecBody;
  }
}
