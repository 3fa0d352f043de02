/** The interned tables of a snapshot and the coding of lists
    (snapWriter and snapReader in crdt/snapshot.go). */
module Interning {
  import opened OpIds
  import opened Varints

  datatype Tables = Tables(actors: seq<Str>, objects: seq<Str>, strings: seq<Str>)

  const NO_TABLES := Tables([], [], [])

  /** new holds everything old does, at the same places. */
  predicate Extends(new_: Tables, old_: Tables) {
    old_.actors <= new_.actors && old_.objects <= new_.objects && old_.strings <= new_.strings
  }

  /** The first place of s in a table, or its length. */
  function Place(list: seq<Str>, s: Str): (k: nat)
    ensures k <= |list| && (k < |list| ==> list[k] == s)
    ensures k == |list| <==> s !in list
  {
    if list == [] then 0 else if list[0] == s then 0 else Place(list[1..], s) + 1
  }

  function Intern(list: seq<Str>, s: Str): (r: (nat, seq<Str>))
    ensures list <= r.1 && r.0 < |r.1| && r.1[r.0] == s
  {
    (Place(list, s), if s in list then list else list + [s])
  }

  /** actorRef, objectRef and stringRef: the index as written, and the tables after. */
  function EncActor(s: Str, t: Tables): (r: (Str, Tables))
    ensures Extends(r.1, t) && r.0 != []
  {
    var (k, list) := Intern(t.actors, s);
    (EncUint(k), t.(actors := list))
  }

  function EncObjectID(s: Str, t: Tables): (r: (Str, Tables))
    ensures Extends(r.1, t) && r.0 != []
  {
    var (k, list) := Intern(t.objects, s);
    (EncUint(k), t.(objects := list))
  }

  function EncString(s: Str, t: Tables): (r: (Str, Tables))
    ensures Extends(r.1, t) && r.0 != []
  {
    var (k, list) := Intern(t.strings, s);
    (EncUint(k), t.(strings := list))
  }

  /** What a reader knows: the complete tables and the length of the body. */
  datatype Ctx = Ctx(tables: Tables, limit: nat) {
    predicate OK() {
      && limit < UINT64_LIMIT
      && |tables.actors| < UINT64_LIMIT && |tables.objects| < UINT64_LIMIT && |tables.strings| < UINT64_LIMIT
    }
  }

  function DecEntry(s: Str, list: seq<Str>): Read<Str> {
    var (k, r) :- DecUint(s);
    if k >= |list| then Bad else Got(list[k], r)
  }

  function DecActor(s: Str, c: Ctx): Read<Str> {
    DecEntry(s, c.tables.actors)
  }

  function DecObjectID(s: Str, c: Ctx): Read<Str> {
    DecEntry(s, c.tables.objects)
  }

  function DecString(s: Str, c: Ctx): Read<Str> {
    DecEntry(s, c.tables.strings)
  }

  lemma EntryRoundTrip(list: seq<Str>, s: Str, all: seq<Str>, rest: Str)
    requires Intern(list, s).1 <= all && |all| < UINT64_LIMIT
    ensures DecEntry(EncUint(Intern(list, s).0) + rest, all) == Got(s, rest)
  {
    UintRoundTrip(Intern(list, s).0, rest);
  }

  /** An index written at any time reads back against the complete table. */
  lemma ActorRoundTrip(s: Str, t: Tables, c: Ctx, rest: Str)
    requires c.OK() && Extends(c.tables, EncActor(s, t).1)
    ensures DecActor(EncActor(s, t).0 + rest, c) == Got(s, rest)
  {
    EntryRoundTrip(t.actors, s, c.tables.actors, rest);
  }

  lemma ObjectIDRoundTrip(s: Str, t: Tables, c: Ctx, rest: Str)
    requires c.OK() && Extends(c.tables, EncObjectID(s, t).1)
    ensures DecObjectID(EncObjectID(s, t).0 + rest, c) == Got(s, rest)
  {
    EntryRoundTrip(t.objects, s, c.tables.objects, rest);
  }

  lemma StringRoundTrip(s: Str, t: Tables, c: Ctx, rest: Str)
    requires c.OK() && Extends(c.tables, EncString(s, t).1)
    ensures DecString(EncString(s, t).0 + rest, c) == Got(s, rest)
  {
    EntryRoundTrip(t.strings, s, c.tables.strings, rest);
  }

  // ---- lists ----

  /** An item encoder sees the items before it and the tables so far. */
  type Encoder<!T> = (seq<T>, T, Tables) -> (Str, Tables)
  /** An item decoder sees the items read so far. */
  type Decoder<!T> = (seq<T>, Str) -> Read<T>

  function EncItems<T>(items: seq<T>, t: Tables, enc: Encoder<T>): (Str, Tables) {
    if items == [] then ([], t)
    else
      var before := items[..|items| - 1];
      var (a, u) := EncItems(before, t, enc);
      var (b, v) := enc(before, items[|items| - 1], u);
      (a + b, v)
  }

  function DecItems<T>(acc: seq<T>, s: Str, n: nat, dec: Decoder<T>): Read<seq<T>>
    decreases n
  {
    if n == 0 then Got(acc, s)
    else
      var (item, r) :- dec(acc, s);
      DecItems(acc + [item], r, n - 1, dec)
  }

  /** A count and the items. */
  function EncList<T>(items: seq<T>, t: Tables, enc: Encoder<T>): (Str, Tables) {
    var (s, u) := EncItems(items, t, enc);
    (EncUint(|items|) + s, u)
  }

  /** No count beyond the length of the body is believed. */
  function DecList<T>(s: Str, c: Ctx, dec: Decoder<T>): Read<seq<T>> {
    var (n, r) :- DecUint(s);
    if n > c.limit then Bad else DecItems([], r, n, dec)
  }

  /** Every item takes a byte and never forgets a table entry. */
  ghost predicate Sane<T(!new)>(enc: Encoder<T>) {
    forall prev: seq<T>, x: T, t: Tables :: enc(prev, x, t).0 != [] && Extends(enc(prev, x, t).1, t)
  }

  /** Item i as written, with the tables it was written with. */
  function ItemBytes<T>(items: seq<T>, i: nat, t: Tables, enc: Encoder<T>): (Str, Tables)
    requires i < |items|
  {
    enc(items[..i], items[i], EncItems(items[..i], t, enc).1)
  }

  /** Item i reads back as out[i] behind what was read before it. */
  ghost predicate ItemReads<T(!new)>(items: seq<T>, out: seq<T>, i: nat, t: Tables, enc: Encoder<T>, dec: Decoder<T>, c: Ctx)
    requires i < |items| == |out|
  {
    Extends(c.tables, ItemBytes(items, i, t, enc).1) ==>
      forall rest: Str :: |ItemBytes(items, i, t, enc).0 + rest| <= c.limit ==>
        dec(out[..i], ItemBytes(items, i, t, enc).0 + rest) == Got(out[i], rest)
  }

  lemma ItemsStep<T>(items: seq<T>, i: nat, t: Tables, enc: Encoder<T>)
    requires i < |items|
    ensures EncItems(items[..i + 1], t, enc)
         == (EncItems(items[..i], t, enc).0 + ItemBytes(items, i, t, enc).0, ItemBytes(items, i, t, enc).1)
  {
    assert items[..i + 1][..i] == items[..i];
  }

  lemma {:induction false} ItemsGrow<T(!new)>(items: seq<T>, t: Tables, enc: Encoder<T>)
    requires Sane(enc)
    ensures |EncItems(items, t, enc).0| >= |items|
    ensures Extends(EncItems(items, t, enc).1, t)
  {
    if items != [] {
      ItemsGrow(items[..|items| - 1], t, enc);
    }
  }

  lemma ListLength<T(!new)>(items: seq<T>, t: Tables, enc: Encoder<T>)
    requires Sane(enc)
    ensures |EncList(items, t, enc).0| > |items| && Extends(EncList(items, t, enc).1, t)
  {
    ItemsGrow(items, t, enc);
  }

  lemma {:induction false} ItemsRoundTrip<T(!new)>(items: seq<T>, out: seq<T>, i: nat, t: Tables, enc: Encoder<T>, dec: Decoder<T>,
                                             c: Ctx, rest: Str)
    requires i <= |items| == |out| && Sane(enc)
    requires forall k :: 0 <= k < |items| ==> ItemReads(items, out, k, t, enc, dec, c)
    requires Extends(c.tables, EncItems(items[..i], t, enc).1)
    requires |EncItems(items[..i], t, enc).0 + rest| <= c.limit
    ensures DecItems([], EncItems(items[..i], t, enc).0 + rest, |items|, dec) == DecItems(out[..i], rest, |items| - i, dec)
    decreases i
  {
    if i == 0 {
      assert items[..0] == [] && out[..0] == [];
      assert EncItems(items[..0], t, enc).0 + rest == rest;
    } else {
      var k := i - 1;
      var (b, v) := ItemBytes(items, k, t, enc);
      ItemsStep(items, k, t, enc);
      Assoc(EncItems(items[..k], t, enc).0, b, rest);
      ItemsRoundTrip(items, out, k, t, enc, dec, c, b + rest);
      assert ItemReads(items, out, k, t, enc, dec, c);
      assert out[..k] + [out[k]] == out[..i];
    }
  }

  /** If each item reads back, so does the list, and exactly its bytes are used. */
  lemma ListRoundTrip<T(!new)>(items: seq<T>, out: seq<T>, t: Tables, enc: Encoder<T>, dec: Decoder<T>, c: Ctx, rest: Str)
    requires |items| == |out| && Sane(enc) && c.OK()
    requires forall k :: 0 <= k < |items| ==> ItemReads(items, out, k, t, enc, dec, c)
    requires Extends(c.tables, EncList(items, t, enc).1)
    requires |EncList(items, t, enc).0 + rest| <= c.limit
    ensures DecList(EncList(items, t, enc).0 + rest, c, dec) == Got(out, rest)
  {
    var s := EncItems(items, t, enc).0;
    ItemsGrow(items, t, enc);
    assert items[..|items|] == items && out[..|out|] == out;
    Assoc(EncUint(|items|), s, rest);
    UintRoundTrip(|items|, s + rest);
    ItemsRoundTrip(items, out, |items|, t, enc, dec, c, rest);
  }
}
