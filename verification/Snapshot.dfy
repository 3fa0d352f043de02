/** The compact document body of crdt/snapshot.go: encodeSnapshotV2 and
    decodeSnapshotV2. */
module Snapshot {
  import opened OpIds
  import opened Values
  import opened Ops
  import opened Objects
  import opened Documents
  import opened Varints
  import opened Interning
  import opened ValueCodec
  import opened ElemCodec
  import opened Sorting

  datatype Row<+T> = Row(key: Str, value: T)

  function RowsOf<T>(m: map<Str, T>, keys: seq<Str>): (r: seq<Row<T>>)
    requires forall k :: k in keys ==> k in m
    ensures |r| == |keys| && forall i :: 0 <= i < |r| ==> r[i] == Row(keys[i], m[keys[i]])
  {
    seq(|keys|, i requires 0 <= i < |keys| => Row(keys[i], m[keys[i]]))
  }

  /** The rows of a map in key order. */
  function Rows<T>(m: map<Str, T>): (r: seq<Row<T>>)
    ensures |r| == |SortedKeys(m.Keys)|
    ensures forall i :: 0 <= i < |r| ==> r[i] == Row(SortedKeys(m.Keys)[i], m[SortedKeys(m.Keys)[i]])
  {
    RowsOf(m, SortedKeys(m.Keys))
  }

  /** Rows stored one after the other. */
  function FromRows<T>(rows: seq<Row<T>>): map<Str, T> {
    if rows == [] then map[]
    else FromRows(rows[..|rows| - 1])[rows[|rows| - 1].key := rows[|rows| - 1].value]
  }

  lemma {:induction false} FromRowsKeys<T>(rows: seq<Row<T>>)
    requires forall i, j :: 0 <= i < j < |rows| ==> rows[i].key != rows[j].key
    ensures forall i :: 0 <= i < |rows| ==> rows[i].key in FromRows(rows) && FromRows(rows)[rows[i].key] == rows[i].value
    ensures forall k :: k in FromRows(rows) ==> exists i :: 0 <= i < |rows| && rows[i].key == k
  {
    if rows != [] {
      FromRowsKeys(rows[..|rows| - 1]);
      var last := rows[|rows| - 1];
      forall k | k in FromRows(rows) ensures exists i :: 0 <= i < |rows| && rows[i].key == k {
        if k == last.key {
          assert rows[|rows| - 1].key == k;
        } else {
          var i :| 0 <= i < |rows| - 1 && rows[..|rows| - 1][i].key == k;
          assert rows[i].key == k;
        }
      }
    }
  }

  /** Storing the rows of a map, each with another value, gives the map with those values. */
  lemma RowsRoundTrip<T>(m: map<Str, T>, out: seq<Row<T>>, n: map<Str, T>)
    requires |out| == |Rows(m)| && n.Keys == m.Keys
    requires forall i :: 0 <= i < |out| ==> out[i].key == Rows(m)[i].key && out[i].value == n[out[i].key]
    ensures FromRows(out) == n
  {
    hide FromRows;
    FromRowsIs(SortedKeys(m.Keys), out, n);
  }

  lemma FromRowsIs<T>(keys: seq<Str>, out: seq<Row<T>>, n: map<Str, T>)
    requires |keys| == |out| && forall k :: k in keys <==> k in n
    requires forall i :: 0 <= i < |out| ==> out[i].key == keys[i] && out[i].value == n[keys[i]]
    requires forall i, j :: 0 <= i < j < |keys| ==> keys[i] != keys[j]
    ensures FromRows(out) == n
  {
    FromRowsKeys(out);
    hide *;
    var got := FromRows(out);
    forall k | k in n ensures k in got && got[k] == n[k] {
      var i :| 0 <= i < |keys| && keys[i] == k;
      assert out[i].key == k;
    }
    forall k | k in got ensures k in n {
      var i :| 0 <= i < |out| && out[i].key == k;
      assert keys[i] in keys;
    }
  }

  // ---- objects ----

  /** One map entry. */
  function EncEntry(row: Row<Entry>, t: Tables): (r: (Str, Tables))
    ensures Extends(r.1, t) && r.0 != []
  {
    var (a, t1) := EncActor(row.value.id.actor, t);
    var (v, t2) := EncValue(row.value.value, t1);
    (EncStr(row.key) + (a + (EncUint(row.value.id.counter) + ([if row.value.deleted then 1 else 0] + v))), t2)
  }

  function DecEntryRow(s: Str, c: Ctx): Read<Row<Entry>> {
    var (key, s1) :- DecStr(s);
    var (actor, s2) :- DecActor(s1, c);
    var (counter, s3) :- DecUint(s2);
    var (deleted, s4) :- DecByte(s3);
    var (value, s5) :- DecValue(s4, c);
    Got(Row(key, Entry(value, OpID(counter, actor), deleted != 0)), s5)
  }

  predicate EntryFits(e: Entry) {
    e.id.counter < UINT64_LIMIT && ValueFits(e.value)
  }

  function StoredEntry(e: Entry): Entry {
    e.(value := Stored(e.value))
  }

  lemma EntryLayout(k: Str, a: Str, n: Str, d: Str, v: Str, rest: Str)
    ensures k + (a + (n + (d + v))) + rest == k + (a + (n + (d + (v + rest))))
    ensures |v + rest| <= |k + (a + (n + (d + v))) + rest|
  {
    Assoc(k, a + (n + (d + v)), rest);
    Assoc(a, n + (d + v), rest);
    Assoc(n, d + v, rest);
    Assoc(d, v, rest);
  }

  lemma EntryRowRoundTrip(row: Row<Entry>, t: Tables, c: Ctx, rest: Str)
    requires EntryFits(row.value) && c.OK() && Extends(c.tables, EncEntry(row, t).1)
    requires |EncEntry(row, t).0 + rest| <= c.limit
    ensures DecEntryRow(EncEntry(row, t).0 + rest, c) == Got(Row(row.key, StoredEntry(row.value)), rest)
  {
    hide EncActor, DecActor, EncUint, DecUint, EncStr, DecStr, EncValue, DecValue, DecByte, ValueFits;
    var (a, t1) := EncActor(row.value.id.actor, t);
    var (v, t2) := EncValue(row.value.value, t1);
    var k, n, d := EncStr(row.key), EncUint(row.value.id.counter), [if row.value.deleted then 1 else 0];
    EntryLayout(k, a, n, d, v, rest);
    StrRoundTrip(row.key, a + (n + (d + (v + rest))));
    ActorRoundTrip(row.value.id.actor, t, c, n + (d + (v + rest)));
    UintRoundTrip(row.value.id.counter, d + (v + rest));
    ByteRoundTrip(if row.value.deleted then 1 else 0, v + rest);
    ValueRoundTrip(row.value.value, t1, c, rest);
  }

  function EntryWriter(): Encoder<Row<Entry>> {
    (prev, row, t) => EncEntry(row, t)
  }

  function EntryReader(c: Ctx): Decoder<Row<Entry>> {
    (prev, s) => DecEntryRow(s, c)
  }

  /** writeObject: the keys of a map in order, the elements of a sequence. */
  function EncObject(o: Object, t: Tables): (Str, Tables) {
    match o
    case MapObject(entries) =>
      var (s, u) := EncList(Rows(entries), t, EntryWriter());
      ([0] + s, u)
    case SeqObject(isText, elems) =>
      var (s, u) := EncElems(elems, t);
      ([if isText then 2 else 1] + s, u)
  }

  /** readObject. */
  function DecObject(s: Str, c: Ctx): Read<Object> {
    var (code, r) :- DecByte(s);
    if code == 0 then
      var (rows, r1) :- DecList(r, c, EntryReader(c));
      Got(MapObject(FromRows(rows)), r1)
    else if code == 1 || code == 2 then
      var (elems, r1) :- DecElems(r, c);
      Got(SeqObject(code == 2, elems), r1)
    else Bad
  }

  ghost predicate ObjectFits(o: Object) {
    match o
    case MapObject(entries) => forall k :: k in entries ==> EntryFits(entries[k])
    case SeqObject(_, elems) => forall i :: 0 <= i < |elems| ==> ElemFits(elems[i])
  }

  function StoredEntries(m: map<Str, Entry>): (n: map<Str, Entry>)
    ensures n.Keys == m.Keys && forall k :: k in m ==> n[k] == StoredEntry(m[k])
  {
    map k | k in m :: StoredEntry(m[k])
  }

  function StoredObject(o: Object): Object {
    match o
    case MapObject(entries) => MapObject(StoredEntries(entries))
    case SeqObject(isText, elems) => SeqObject(isText, StoredElems(elems))
  }

  function StoredRows(rows: seq<Row<Entry>>): (r: seq<Row<Entry>>)
    ensures |r| == |rows| && forall i :: 0 <= i < |r| ==> r[i] == Row(rows[i].key, StoredEntry(rows[i].value))
  {
    seq(|rows|, i requires 0 <= i < |rows| => Row(rows[i].key, StoredEntry(rows[i].value)))
  }

  lemma EntryItem(rows: seq<Row<Entry>>, i: nat, t: Tables, c: Ctx)
    requires i < |rows| && EntryFits(rows[i].value) && c.OK()
    ensures ItemReads(rows, StoredRows(rows), i, t, EntryWriter(), EntryReader(c), c)
  {
    hide EncEntry, DecEntryRow, EncItems, EntryFits, StoredEntry;
    var u := EncItems(rows[..i], t, EntryWriter()).1;
    if Extends(c.tables, EncEntry(rows[i], u).1) {
      forall rest: Str | |EncEntry(rows[i], u).0 + rest| <= c.limit
        ensures DecEntryRow(EncEntry(rows[i], u).0 + rest, c) == Got(StoredRows(rows)[i], rest)
      {
        EntryRowRoundTrip(rows[i], u, c, rest);
      }
    }
  }

  lemma SaneEntries()
    ensures Sane(EntryWriter())
  {
    hide EncEntry;
  }

  lemma EntriesRoundTrip(entries: map<Str, Entry>, t: Tables, c: Ctx, rest: Str)
    requires forall k :: k in entries ==> EntryFits(entries[k])
    requires c.OK() && Extends(c.tables, EncList(Rows(entries), t, EntryWriter()).1)
    requires |EncList(Rows(entries), t, EntryWriter()).0 + rest| <= c.limit
    ensures DecList(EncList(Rows(entries), t, EntryWriter()).0 + rest, c, EntryReader(c)) == Got(StoredRows(Rows(entries)), rest)
    ensures FromRows(StoredRows(Rows(entries))) == StoredEntries(entries)
  {
    hide EncList, DecList, ItemReads, Sane, EntryWriter, EntryReader, EntryFits, StoredEntry, FromRows, SortedKeys;
    var rows := Rows(entries);
    SaneEntries();
    forall i | 0 <= i < |rows| ensures ItemReads(rows, StoredRows(rows), i, t, EntryWriter(), EntryReader(c), c) {
      assert SortedKeys(entries.Keys)[i] in entries.Keys;
      EntryItem(rows, i, t, c);
    }
    ListRoundTrip(rows, StoredRows(rows), t, EntryWriter(), EntryReader(c), c, rest);
    RowsRoundTrip(entries, StoredRows(rows), StoredEntries(entries));
  }

  lemma ElemsGrow(elems: seq<Elem>, t: Tables)
    ensures Extends(EncElems(elems, t).1, t)
  {
    SaneWriters();
    ListLength(elems, t, ElemWriter());
  }

  lemma ObjectGrows(o: Object, t: Tables)
    ensures Extends(EncObject(o, t).1, t) && EncObject(o, t).0 != []
  {
    hide EncList, EncElems, Sane, EntryWriter;
    match o
    case MapObject(entries) =>
      SaneEntries();
      ListLength(Rows(entries), t, EntryWriter());
    case SeqObject(_, elems) => ElemsGrow(elems, t);
  }

  lemma ObjectRoundTrip(o: Object, t: Tables, c: Ctx, rest: Str)
    requires ObjectFits(o) && c.OK() && Extends(c.tables, EncObject(o, t).1)
    requires |EncObject(o, t).0 + rest| <= c.limit
    ensures DecObject(EncObject(o, t).0 + rest, c) == Got(StoredObject(o), rest)
  {
    hide EncList, DecList, EncElems, DecElems, EntryWriter, EntryReader, FromRows, DecByte, Ctx.OK, ElemFits, EntryFits,
         StoredElems, StoredEntries;
    match o
    case MapObject(entries) =>
      CodeStep(0, EncList(Rows(entries), t, EntryWriter()).0, rest);
      EntriesRoundTrip(entries, t, c, rest);
    case SeqObject(isText, elems) =>
      CodeStep(if isText then 2 else 1, EncElems(elems, t).0, rest);
      ElemsRoundTrip(elems, t, c, rest);
  }

  // ---- the object table ----

  function EncObjectRow(row: Row<Object>, t: Tables): (r: (Str, Tables))
    ensures Extends(r.1, t) && r.0 != []
  {
    var (a, t1) := EncObjectID(row.key, t);
    var (b, t2) := EncObject(row.value, t1);
    ObjectGrows(row.value, t1);
    (a + b, t2)
  }

  function DecObjectRow(s: Str, c: Ctx): Read<Row<Object>> {
    var (id, s1) :- DecObjectID(s, c);
    var (o, s2) :- DecObject(s1, c);
    Got(Row(id, o), s2)
  }

  function ObjectWriter(): Encoder<Row<Object>> {
    (prev, row, t) => EncObjectRow(row, t)
  }

  function ObjectReader(c: Ctx): Decoder<Row<Object>> {
    (prev, s) => DecObjectRow(s, c)
  }

  function StoredObjects(objs: Objects): (r: Objects)
    ensures r.Keys == objs.Keys && forall k :: k in objs ==> r[k] == StoredObject(objs[k])
  {
    map k | k in objs :: StoredObject(objs[k])
  }

  function StoredObjectRows(rows: seq<Row<Object>>): (r: seq<Row<Object>>)
    ensures |r| == |rows| && forall i :: 0 <= i < |r| ==> r[i] == Row(rows[i].key, StoredObject(rows[i].value))
  {
    seq(|rows|, i requires 0 <= i < |rows| => Row(rows[i].key, StoredObject(rows[i].value)))
  }

  lemma ObjectRowRoundTrip(row: Row<Object>, t: Tables, c: Ctx, rest: Str)
    requires ObjectFits(row.value) && c.OK() && Extends(c.tables, EncObjectRow(row, t).1)
    requires |EncObjectRow(row, t).0 + rest| <= c.limit
    ensures DecObjectRow(EncObjectRow(row, t).0 + rest, c) == Got(Row(row.key, StoredObject(row.value)), rest)
  {
    hide EncObjectID, DecObjectID, EncObject, DecObject, ObjectFits, Ctx.OK, StoredObject;
    var (a, t1) := EncObjectID(row.key, t);
    var (b, t2) := EncObject(row.value, t1);
    ObjectGrows(row.value, t1);
    Assoc(a, b, rest);
    ObjectIDRoundTrip(row.key, t, c, b + rest);
    ObjectRoundTrip(row.value, t1, c, rest);
  }

  lemma ObjectItem(rows: seq<Row<Object>>, i: nat, t: Tables, c: Ctx)
    requires i < |rows| && ObjectFits(rows[i].value) && c.OK()
    ensures ItemReads(rows, StoredObjectRows(rows), i, t, ObjectWriter(), ObjectReader(c), c)
  {
    hide EncObjectRow, DecObjectRow, EncItems, ObjectFits, StoredObject;
    var u := EncItems(rows[..i], t, ObjectWriter()).1;
    if Extends(c.tables, EncObjectRow(rows[i], u).1) {
      forall rest: Str | |EncObjectRow(rows[i], u).0 + rest| <= c.limit
        ensures DecObjectRow(EncObjectRow(rows[i], u).0 + rest, c) == Got(StoredObjectRows(rows)[i], rest)
      {
        ObjectRowRoundTrip(rows[i], u, c, rest);
      }
    }
  }

  lemma SaneObjects()
    ensures Sane(ObjectWriter())
  {
    hide EncObjectRow;
  }

  lemma ObjectsRoundTrip(objs: Objects, t: Tables, c: Ctx, rest: Str)
    requires forall k :: k in objs ==> ObjectFits(objs[k])
    requires c.OK() && Extends(c.tables, EncList(Rows(objs), t, ObjectWriter()).1)
    requires |EncList(Rows(objs), t, ObjectWriter()).0 + rest| <= c.limit
    ensures DecList(EncList(Rows(objs), t, ObjectWriter()).0 + rest, c, ObjectReader(c)) == Got(StoredObjectRows(Rows(objs)), rest)
    ensures FromRows(StoredObjectRows(Rows(objs))) == StoredObjects(objs)
  {
    hide EncList, DecList, ItemReads, Sane, ObjectWriter, ObjectReader, ObjectFits, StoredObject, FromRows, SortedKeys;
    var rows := Rows(objs);
    SaneObjects();
    forall i | 0 <= i < |rows| ensures ItemReads(rows, StoredObjectRows(rows), i, t, ObjectWriter(), ObjectReader(c), c) {
      assert SortedKeys(objs.Keys)[i] in objs.Keys;
      ObjectItem(rows, i, t, c);
    }
    ListRoundTrip(rows, StoredObjectRows(rows), t, ObjectWriter(), ObjectReader(c), c, rest);
    RowsRoundTrip(objs, StoredObjectRows(rows), StoredObjects(objs));
  }
}
