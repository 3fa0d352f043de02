/** snapReader of crdt/snapshot.go: a position in a buffer. Every method reads
    what the pure decoder reads, and fails where it fails. */
module SnapReader {
  import opened OpIds
  import opened Values
  import opened Ops
  import opened Objects
  import opened Documents
  import opened Varints
  import opened Interning
  import opened ValueCodec
  import opened ElemCodec
  import opened OpCodec
  import opened ChangeCodec
  import opened Snapshot
  import opened DocumentCodec

  datatype Result<+T> = Ok(value: T) | Err {
    predicate IsFailure() {
      Err?
    }

    function PropagateFailure<U>(): Result<U>
      requires Err?
    {
      Err
    }

    function Extract(): T
      requires Ok?
    {
      value
    }
  }

  class SnapReader {
    const buf: Str
    var pos: nat
    var actors: seq<Str>
    var objects: seq<Str>
    var strings: seq<Str>

    constructor (body: Str, start: nat)
      requires start <= |body|
      ensures Valid() && buf == body && Rest() == body[start..]
    {
      buf, pos, actors, objects, strings := body, start, [], [], [];
    }

    ghost predicate Valid()
      reads this`pos
    {
      pos <= |buf|
    }

    ghost function Rest(): Str
      requires Valid()
      reads this`pos
    {
      buf[pos..]
    }

    ghost function Known(): Ctx
      reads this`actors, this`objects, this`strings
    {
      Ctx(Tables(actors, objects, strings), |buf|)
    }

    /** The outcome r, and the position after it, are those of the decoder. */
    ghost predicate Took<T>(r: Result<T>, d: Read<T>)
      reads this`pos
    {
      && Valid()
      && match d
         case Got(v, rest) => r == Ok(v) && Rest() == rest
         case Bad => r == Err
    }

    // ---- numbers and strings ----

    method Uint() returns (r: Result<nat>)
      requires Valid()
      modifies this`pos
      ensures Took(r, DecUint(old(Rest())))
    {
      hide DecUint;
      var value, n, ok := ReadUleb(buf[pos..]);
      if !ok {
        return Err;
      }
      pos := pos + n;
      return Ok(value);
    }

    method Int() returns (r: Result<int>)
      requires Valid()
      modifies this`pos
      ensures Took(r, DecInt(old(Rest())))
    {
      hide DecUint, Unzigzag;
      var value :- Uint();
      return Ok(Unzigzag(value));
    }

    method ByteVal() returns (r: Result<Byte>)
      requires Valid()
      modifies this`pos
      ensures Took(r, DecByte(old(Rest())))
    {
      if pos >= |buf| {
        return Err;
      }
      pos := pos + 1;
      return Ok(buf[pos - 1]);
    }

    method Raw(n: nat) returns (r: Result<Str>)
      requires Valid()
      modifies this`pos
      ensures Took(r, DecRaw(old(Rest()), n))
    {
      if pos + n > |buf| {
        return Err;
      }
      ghost var rest := Rest();
      pos := pos + n;
      assert rest[..n] == buf[pos - n..pos] && rest[n..] == Rest();
      return Ok(buf[pos - n..pos]);
    }

    /** bytes and str. */
    method String() returns (r: Result<Str>)
      requires Valid()
      modifies this`pos
      ensures Took(r, DecStr(old(Rest())))
    {
      hide DecUint;
      var length :- Uint();
      if length > |buf| - pos {
        return Err;
      }
      r := Raw(length);
    }

    method Word(k: nat) returns (r: Result<nat>)
      requires Valid()
      modifies this`pos
      ensures Took(r, DecWord(old(Rest()), k))
    {
      hide DecRaw;
      var raw :- Raw(k);
      return Ok(FromLittleEndian(raw));
    }

    method TableEntry(list: seq<Str>) returns (r: Result<Str>)
      requires Valid()
      modifies this`pos
      ensures Took(r, DecEntry(old(Rest()), list))
    {
      hide DecUint;
      var index :- Uint();
      if index >= |list| {
        return Err;
      }
      return Ok(list[index]);
    }

    method Actor() returns (r: Result<Str>)
      requires Valid()
      modifies this`pos
      ensures Took(r, DecActor(old(Rest()), Known()))
    {
      r := TableEntry(actors);
    }

    method ObjectName() returns (r: Result<Str>)
      requires Valid()
      modifies this`pos
      ensures Took(r, DecObjectID(old(Rest()), Known()))
    {
      r := TableEntry(objects);
    }

    method Interned() returns (r: Result<Str>)
      requires Valid()
      modifies this`pos
      ensures Took(r, DecString(old(Rest()), Known()))
    {
      r := TableEntry(strings);
    }

    // ---- values ----

    method ReadTime() returns (r: Result<Option<Time>>)
      requires Valid()
      modifies this`pos
      ensures Took(r, DecTime(old(Rest())))
    {
      hide DecByte, DecInt, DecUint;
      var present :- ByteVal();
      if present == 0 {
        return Ok(None);
      }
      var seconds :- Int();
      var nanos :- Uint();
      return Ok(Some(UnixTime(seconds, nanos)));
    }

    method ReadVector() returns (r: Result<Value>)
      requires Valid()
      modifies this`pos
      ensures Took(r, DecVector(old(Rest())))
    {
      hide DecStr, DecWord, DecInt;
      var packed :- String();
      var norm :- Word(4);
      var dim :- Int();
      var width :- Int();
      return Ok(Vector(packed, norm, dim, width));
    }

    method ReadCustom() returns (r: Result<Value>)
      requires Valid()
      modifies this`pos
      ensures Took(r, DecCustom(old(Rest())))
    {
      hide DecStr;
      var name :- String();
      var text :- String();
      return Ok(Custom(name, text));
    }

    method ReadObjectValue(kind: Kind) returns (r: Result<Value>)
      requires Valid()
      modifies this`pos
      ensures Took(r, DecObjectValue(kind, old(Rest()), Known()))
    {
      hide DecObjectID;
      var obj :- ObjectName();
      return Ok(ObjectValue(kind, obj));
    }

    /** readValue. */
    method ReadValue() returns (r: Result<Value>)
      requires Valid()
      modifies this`pos
      ensures Took(r, DecValue(old(Rest()), Known()))
    {
      hide DecByte, DecInt, DecUint, DecStr, DecWord, DecTime, DecVector, DecCustom, DecObjectValue;
      var code :- ByteVal();
      match code
      case 0 => return Ok(Null);
      case 1 => var b :- ByteVal(); return Ok(Bool(b != 0));
      case 2 => var i :- Int(); return Ok(Value.Int(i));
      case 3 => var u :- Uint(); return Ok(Value.Uint(u));
      case 4 => var bits :- Word(8); return Ok(Float(bits));
      case 5 => var str :- String(); return Ok(Text(str));
      case 6 => var bytes :- String(); return Ok(Bytes(bytes));
      case 7 => var count :- Int(); return Ok(Counter(count));
      case 8 => var time :- ReadTime(); return Ok(Timestamp(time));
      case 9 => r := ReadObjectValue(MapKind);
      case 10 => r := ReadObjectValue(ListKind);
      case 11 => r := ReadObjectValue(TextKind);
      case 12 => r := ReadVector();
      case 255 => r := ReadCustom();
      case _ => return Err;
    }

    // ---- elements ----

    /** readOpIDRef. */
    method ReadIDRef(base: nat) returns (r: Result<OpID>)
      requires Valid()
      modifies this`pos
      ensures Took(r, DecIDRef(old(Rest()), base, Known()))
    {
      hide DecActor, DecInt, AddDelta;
      var actor :- Actor();
      var delta :- Int();
      return Ok(OpID(AddDelta(base, delta), actor));
    }

    method ReadOwnActor(flags: Byte, previous: Option<OpID>, ghost prev: seq<Elem>) returns (r: Result<Str>)
      requires Valid()
      requires previous == if prev == [] then None else Some(prev[|prev| - 1].id)
      modifies this`pos
      ensures Took(r, DecOwnActor(flags, prev, old(Rest()), Known()))
    {
      hide Bit, DecActor;
      if !Bit(flags, 3) {
        r := Actor();
      } else if previous.None? {
        return Err;
      } else {
        return Ok(previous.value.actor);
      }
    }

    method ReadAfter(flags: Byte, previous: Option<OpID>, counter: nat, ghost prev: seq<Elem>) returns (r: Result<Str>)
      requires Valid()
      requires previous == if prev == [] then None else Some(prev[|prev| - 1].id)
      modifies this`pos
      ensures Took(r, DecAfter(flags, prev, counter, old(Rest()), Known()))
    {
      hide Bit, DecIDRef, Print;
      if Bit(flags, 0) {
        return Ok([]);
      } else if Bit(flags, 1) {
        if previous.None? {
          return Err;
        }
        return Ok(Print(previous.value));
      }
      var id :- ReadIDRef(counter);
      return Ok(Print(id));
    }

    method ReadVisId(flags: Byte, id: OpID) returns (r: Result<OpID>)
      requires Valid()
      modifies this`pos
      ensures Took(r, DecVisId(flags, id, old(Rest()), Known()))
    {
      hide Bit, DecIDRef;
      if Bit(flags, 2) {
        return Ok(id);
      }
      r := ReadIDRef(id.counter);
    }

    method ReadElemValue(flags: Byte) returns (r: Result<Value>)
      requires Valid()
      modifies this`pos
      ensures Took(r, DecElemValue(flags, old(Rest()), Known()))
    {
      hide Bit, DecStr, DecValue;
      if Bit(flags, 4) {
        var text :- String();
        return Ok(Text(text));
      }
      r := ReadValue();
    }

    /** The first loop body of readElems. */
    method ReadElem(previous: Option<OpID>, ghost prev: seq<Elem>) returns (r: Result<Elem>)
      requires Valid()
      requires previous == if prev == [] then None else Some(prev[|prev| - 1].id)
      modifies this`pos
      ensures Took(r, DecElem(prev, old(Rest()), Known()))
    {
      hide DecByte, DecInt, AddDelta, DecOwnActor, DecAfter, DecVisId, DecElemValue;
      var flags :- ByteVal();
      var delta :- Int();
      var counter := AddDelta(if previous.Some? then previous.value.counter else 0, delta);
      var actor :- ReadOwnActor(flags, previous, prev);
      var id := OpID(counter, actor);
      var after :- ReadAfter(flags, previous, counter, prev);
      var visId :- ReadVisId(flags, id);
      var value :- ReadElemValue(flags);
      return Ok(Elem(id, after, value, false, visId));
    }

    method ReadElemList() returns (r: Result<seq<Elem>>)
      requires Valid()
      modifies this`pos
      ensures Took(r, DecList(old(Rest()), Known(), ElemReader(Known())))
    {
      hide DecUint, DecElem;
      ghost var c := Known();
      var count :- Uint();
      if count > |buf| {
        return Err;
      }
      ghost var s := Rest();
      var elems: seq<Elem> := [];
      var previous: Option<OpID> := None;
      for i := 0 to count
        invariant Valid() && previous == if elems == [] then None else Some(elems[|elems| - 1].id)
        invariant DecItems([], s, count, ElemReader(c)) == DecItems(elems, Rest(), count - i, ElemReader(c))
      {
        var elem :- ReadElem(previous, elems);
        elems := elems + [elem];
        previous := Some(elem.id);
      }
      return Ok(elems);
    }

    /** The second loop of readElems: runs of visible and deleted elements in turn. */
    method ReadTombstones(elems: seq<Elem>) returns (r: Result<seq<Elem>>)
      requires Valid()
      modifies this`pos
      ensures Valid()
      ensures match DecList(old(Rest()), Known(), RunReader(|elems|))
              case Got(runs, rest) => r == Ok(Mark(elems, Spread(runs))) && Rest() == rest
              case Bad => r == Err
    {
      hide DecUint, Spread;
      var count :- Uint();
      if count > |buf| {
        return Err;
      }
      ghost var s := Rest();
      ghost var runs: seq<nat> := [];
      var out, position: nat, deleted := elems, 0, false;
      NoSpread(elems);
      for i := 0 to count
        invariant Valid() && position == |Spread(runs)| <= |elems| && deleted == (|runs| % 2 == 1)
        invariant out == Mark(elems, Spread(runs))
        invariant DecItems([], s, count, RunReader(|elems|)) == DecItems(runs, Rest(), count - i, RunReader(|elems|))
      {
        var run :- Uint();
        if run > |elems| - position {
          return Err;
        }
        SpreadMore(runs, run);
        if deleted {
          for j := 0 to run
            invariant |out| == |elems|
            invariant forall k :: 0 <= k < |out| ==>
                        out[k] == if position <= k < position + j then elems[k].(deleted := true) else Mark(elems, Spread(runs))[k]
          {
            out := out[position + j := out[position + j].(deleted := true)];
          }
        }
        position := position + run;
        deleted := !deleted;
        runs := runs + [run];
      }
      return Ok(out);
    }

    /** readElems. */
    method ReadElems() returns (r: Result<seq<Elem>>)
      requires Valid()
      modifies this`pos
      ensures Took(r, DecElems(old(Rest()), Known()))
    {
      hide DecList, ElemReader, RunReader, Spread;
      var elems :- ReadElemList();
      r := ReadTombstones(elems);
    }

    // ---- operations ----

    method ReadText(has: bool, isRef: bool, base: nat) returns (r: Result<Str>)
      requires Valid()
      modifies this`pos
      ensures Took(r, DecText(has, isRef, base, old(Rest()), Known()))
    {
      hide DecIDRef, DecString, Print;
      if !has {
        return Ok([]);
      }
      if isRef {
        var id :- ReadIDRef(base);
        return Ok(Print(id));
      }
      r := Interned();
    }

    method ReadDeleteRun() returns (r: Result<Run>)
      requires Valid()
      modifies this`pos
      ensures Took(r, DecDeleteRun(old(Rest()), Known()))
    {
      hide DecActor, DecUint;
      var actor :- Actor();
      var start :- Uint();
      var count :- Uint();
      return Ok(Run.Run(actor, start, count));
    }

    method ReadDeletes(has: bool) returns (r: Result<seq<Run>>)
      requires Valid()
      modifies this`pos
      ensures Took(r, DecDeletes(has, old(Rest()), Known()))
    {
      hide DecUint, DecDeleteRun;
      if !has {
        return Ok([]);
      }
      ghost var c := Known();
      var count :- Uint();
      if count > |buf| {
        return Err;
      }
      ghost var s := Rest();
      var runs: seq<Run> := [];
      for i := 0 to count
        invariant Valid()
        invariant DecItems([], s, count, DeleteRunReader(c)) == DecItems(runs, Rest(), count - i, DeleteRunReader(c))
      {
        var run :- ReadDeleteRun();
        runs := runs + [run];
      }
      return Ok(runs);
    }

    method ReadOpHead() returns (r: Result<OpHead>)
      requires Valid()
      modifies this`pos
      ensures Took(r, DecOpHead(old(Rest()), Known()))
    {
      hide DecActor, DecUint, DecString, DecObjectID, ActionOf;
      var actor :- Actor();
      var counter :- Uint();
      var action :- Interned();
      var obj :- ObjectName();
      return Ok(OpHead(OpID(counter, actor), ActionOf(action), obj));
    }

    method ReadOpValue(has: bool) returns (r: Result<Value>)
      requires Valid()
      modifies this`pos
      ensures Took(r, DecOpValue(has, old(Rest()), Known()))
    {
      if has {
        r := ReadValue();
      } else {
        return Ok(NoValue);
      }
    }

    method ReadOpRun(has: bool) returns (r: Result<Str>)
      requires Valid()
      modifies this`pos
      ensures Took(r, DecOpRun(has, old(Rest())))
    {
      if has {
        r := String();
      } else {
        return Ok([]);
      }
    }

    method ReadOpFields(flags: Byte, base: nat) returns (r: Result<OpFields>)
      requires Valid()
      modifies this`pos
      ensures Took(r, DecOpFields(flags, base, old(Rest()), Known()))
    {
      hide Bit, DecText, DecOpValue;
      var prop :- ReadText(Bit(flags, 0), Bit(flags, 5), base);
      var value :- ReadOpValue(Bit(flags, 4));
      var after :- ReadText(Bit(flags, 1), Bit(flags, 6), base);
      return Ok(OpFields(prop, value, after));
    }

    method ReadOpTail(flags: Byte, head: OpHead) returns (r: Result<Op>)
      requires Valid()
      modifies this`pos
      ensures Took(r, DecOpTail(flags, head, old(Rest()), Known()))
    {
      hide Bit, DecOpFields, DecOpRun, DecDeletes;
      var f :- ReadOpFields(flags, head.id.counter);
      var run :- ReadOpRun(Bit(flags, 2));
      var deletes :- ReadDeletes(Bit(flags, 3));
      return Ok(Op.Op(head.id, head.action, head.obj, f.prop, f.value, f.after, run, deletes));
    }

    /** readOp. */
    method ReadOp() returns (r: Result<Op>)
      requires Valid()
      modifies this`pos
      ensures Took(r, DecOp(old(Rest()), Known()))
    {
      hide DecByte, DecOpHead, DecOpTail;
      var flags :- ByteVal();
      var head :- ReadOpHead();
      r := ReadOpTail(flags, head);
    }

    method ReadOps() returns (r: Result<seq<Op>>)
      requires Valid()
      modifies this`pos
      ensures Took(r, DecList(old(Rest()), Known(), OpReader(Known())))
    {
      hide DecUint, DecOp;
      ghost var c := Known();
      var count :- Uint();
      if count > |buf| {
        return Err;
      }
      ghost var s := Rest();
      var ops: seq<Op> := [];
      for i := 0 to count
        invariant Valid()
        invariant DecItems([], s, count, OpReader(c)) == DecItems(ops, Rest(), count - i, OpReader(c))
      {
        var op :- ReadOp();
        ops := ops + [op];
      }
      return Ok(ops);
    }

    // ---- changes ----

    method ReadDep(existing: seq<Change>) returns (r: Result<Hash>)
      requires Valid()
      modifies this`pos
      ensures Took(r, DecDep(old(Rest()), existing))
    {
      hide DecUint, DecRaw;
      var ref :- Uint();
      if ref == 0 {
        r := Raw(HASH_BYTES);
        return;
      }
      if ref - 1 >= |existing| {
        return Err;
      }
      return Ok(existing[ref - 1].hash);
    }

    method ReadDeps(existing: seq<Change>) returns (r: Result<seq<Hash>>)
      requires Valid()
      modifies this`pos
      ensures Took(r, DecList(old(Rest()), Known(), DepReader(existing)))
    {
      hide DecUint, DecDep;
      var count :- Uint();
      if count > |buf| {
        return Err;
      }
      ghost var s := Rest();
      var deps: seq<Hash> := [];
      for i := 0 to count
        invariant Valid()
        invariant DecItems([], s, count, DepReader(existing)) == DecItems(deps, Rest(), count - i, DepReader(existing))
      {
        var dep :- ReadDep(existing);
        deps := deps + [dep];
      }
      return Ok(deps);
    }

    method ReadStamp(previousTime: int, ghost prev: seq<Change>) returns (r: Result<Stamp>)
      requires Valid() && previousTime == PreviousSeconds(prev)
      modifies this`pos
      ensures Took(r, DecStamp(prev, old(Rest())))
    {
      hide DecUint, DecInt, Wrap;
      var seqNo :- Uint();
      var startOp :- Uint();
      var delta :- Int();
      var nanos :- Uint();
      return Ok(Stamp(seqNo, startOp, Time(Wrap(previousTime + delta), nanos)));
    }

    method ReadMessage(has: bool) returns (r: Result<Str>)
      requires Valid()
      modifies this`pos
      ensures Took(r, DecMessage(has, old(Rest()), Known()))
    {
      if has {
        r := Interned();
      } else {
        return Ok([]);
      }
    }

    method ReadGroup(isDefault: bool, actor: Str, seqNo: nat) returns (r: Result<Str>)
      requires Valid()
      modifies this`pos
      ensures Took(r, DecGroup(isDefault, actor, seqNo, old(Rest()), Known()))
    {
      if isDefault {
        return Ok(DefaultGroup(actor, seqNo));
      } else {
        r := Interned();
      }
    }

    /** readChange, with the hash recomputed by the caller. */
    method ReadChange(existing: seq<Change>, previousTime: int, hashOf: HashFn) returns (r: Result<Change>)
      requires Valid() && previousTime == PreviousSeconds(existing)
      modifies this`pos
      ensures Took(r, DecChange(existing, old(Rest()), Known(), hashOf))
    {
      hide DecByte, DecActor, DecStamp, DecMessage, DecGroup, DecList, DepReader, OpReader, Bit, PreviousSeconds;
      var flags :- ByteVal();
      var actor :- Actor();
      var stamp :- ReadStamp(previousTime, existing);
      var message :- ReadMessage(Bit(flags, 1));
      var group :- ReadGroup(Bit(flags, 0), actor, stamp.seqNo);
      var deps :- ReadDeps(existing);
      var ops :- ReadOps();
      var ch := Change.Change([], actor, stamp.seqNo, deps, stamp.startOp, stamp.time, message, group, ops);
      return Ok(ch.(hash := hashOf(ch)));
    }

    /** The change loop of decodeSnapshotV2. */
    method ReadChanges(hashOf: HashFn) returns (r: Result<seq<Change>>)
      requires Valid()
      modifies this`pos
      ensures Took(r, DecList(old(Rest()), Known(), ChangeReader(Known(), hashOf)))
    {
      hide DecUint, DecChange;
      ghost var c := Known();
      var count :- Uint();
      if count > |buf| {
        return Err;
      }
      ghost var s := Rest();
      var changes: seq<Change> := [];
      var previousTime := 0;
      for i := 0 to count
        invariant Valid() && previousTime == PreviousSeconds(changes)
        invariant DecItems([], s, count, ChangeReader(c, hashOf)) == DecItems(changes, Rest(), count - i, ChangeReader(c, hashOf))
      {
        var ch :- ReadChange(changes, previousTime, hashOf);
        changes := changes + [ch];
        previousTime := ch.time.seconds;
      }
      return Ok(changes);
    }

    // ---- objects ----

    method ReadEntry() returns (r: Result<Row<Entry>>)
      requires Valid()
      modifies this`pos
      ensures Took(r, DecEntryRow(old(Rest()), Known()))
    {
      hide DecStr, DecActor, DecUint, DecByte, DecValue;
      var key :- String();
      var actor :- Actor();
      var counter :- Uint();
      var deleted :- ByteVal();
      var value :- ReadValue();
      return Ok(Row(key, Entry.Entry(value, OpID(counter, actor), deleted != 0)));
    }

    method ReadEntries() returns (r: Result<map<Str, Entry>>)
      requires Valid()
      modifies this`pos
      ensures Valid()
      ensures match DecList(old(Rest()), Known(), EntryReader(Known()))
              case Got(rows, rest) => r == Ok(FromRows(rows)) && Rest() == rest
              case Bad => r == Err
    {
      hide DecUint, DecEntryRow;
      ghost var c := Known();
      var count :- Uint();
      if count > |buf| {
        return Err;
      }
      ghost var s := Rest();
      ghost var rows: seq<Row<Entry>> := [];
      var entries: map<Str, Entry> := map[];
      for i := 0 to count
        invariant Valid() && entries == FromRows(rows)
        invariant DecItems([], s, count, EntryReader(c)) == DecItems(rows, Rest(), count - i, EntryReader(c))
      {
        var row :- ReadEntry();
        FromRowsMore(rows, row);
        entries := entries[row.key := row.value];
        rows := rows + [row];
      }
      return Ok(entries);
    }

    /** readObject. */
    method ReadObject() returns (r: Result<Object>)
      requires Valid()
      modifies this`pos
      ensures Took(r, DecObject(old(Rest()), Known()))
    {
      hide DecByte, DecList, DecElems, EntryReader, FromRows;
      var code :- ByteVal();
      if code == 0 {
        var entries :- ReadEntries();
        return Ok(MapObject(entries));
      }
      if code == 1 || code == 2 {
        var elems :- ReadElems();
        return Ok(SeqObject(code == 2, elems));
      }
      return Err;
    }

    method ReadObjectRow() returns (r: Result<Row<Object>>)
      requires Valid()
      modifies this`pos
      ensures Took(r, DecObjectRow(old(Rest()), Known()))
    {
      hide DecObjectID, DecObject;
      var id :- ObjectName();
      var o :- ReadObject();
      return Ok(Row(id, o));
    }

    method ReadObjects() returns (r: Result<map<ObjID, Object>>)
      requires Valid()
      modifies this`pos
      ensures Valid()
      ensures match DecList(old(Rest()), Known(), ObjectReader(Known()))
              case Got(rows, rest) => r == Ok(FromRows(rows)) && Rest() == rest
              case Bad => r == Err
    {
      hide DecUint, DecObjectRow;
      ghost var c := Known();
      var count :- Uint();
      if count > |buf| {
        return Err;
      }
      ghost var s := Rest();
      ghost var rows: seq<Row<Object>> := [];
      var objs: map<ObjID, Object> := map[];
      for i := 0 to count
        invariant Valid() && objs == FromRows(rows)
        invariant DecItems([], s, count, ObjectReader(c)) == DecItems(rows, Rest(), count - i, ObjectReader(c))
      {
        var row :- ReadObjectRow();
        FromRowsMore(rows, row);
        objs := objs[row.key := row.value];
        rows := rows + [row];
      }
      return Ok(objs);
    }

    // ---- the document ----

    method ReadHeads() returns (r: Result<seq<RawHash>>)
      requires Valid()
      modifies this`pos
      ensures Took(r, DecList(old(Rest()), Known(), HashReader()))
    {
      hide DecUint;
      var count :- Uint();
      if count > |buf| {
        return Err;
      }
      ghost var s := Rest();
      var heads: seq<RawHash> := [];
      for i := 0 to count
        invariant Valid()
        invariant DecItems([], s, count, HashReader()) == DecItems(heads, Rest(), count - i, HashReader())
      {
        var hash :- Raw(HASH_BYTES);
        heads := heads + [hash];
      }
      return Ok(heads);
    }

    method ReadTable() returns (r: Result<seq<Str>>)
      requires Valid()
      modifies this`pos
      ensures Took(r, DecTable(old(Rest()), |buf|))
    {
      hide DecUint, DecStr;
      var count :- Uint();
      if count > |buf| {
        return Err;
      }
      ghost var s := Rest();
      var list: seq<Str> := [];
      for i := 0 to count
        invariant Valid()
        invariant DecItems([], s, count, NameReader()) == DecItems(list, Rest(), count - i, NameReader())
      {
        var name :- String();
        list := list + [name];
      }
      return Ok(list);
    }

    method ReadBody(hashOf: HashFn) returns (r: Result<Doc>)
      requires Valid()
      modifies this`pos
      ensures Took(r, DecBody(old(Rest()), Known(), hashOf))
    {
      hide DecActor, DecUint, DecList, HashReader, ObjectReader, ChangeReader, FromRows, IndexChanges, ParseActor, WithRoot;
      var name :- Actor();
      var actor := ParseActor(name);
      if actor.None? {
        return Err;
      }
      var seqNo :- Uint();
      var maxOp :- Uint();
      var heads :- ReadHeads();
      var objs :- ReadObjects();
      var changes :- ReadChanges(hashOf);
      return Ok(Doc.Doc(actor.value, WithRoot(objs), changes, IndexChanges(changes), heads, seqNo, maxOp, [], []));
    }
  }

  lemma NoSpread(elems: seq<Elem>)
    ensures Spread([]) == [] && Mark(elems, []) == elems
  {
  }

  lemma FromRowsMore<T>(rows: seq<Row<T>>, row: Row<T>)
    ensures FromRows(rows + [row]) == FromRows(rows)[row.key := row.value]
  {
    assert (rows + [row])[..|rows|] == rows;
  }

  /** decodeSnapshotV2. */
  method DecodeSnapshot(body: Str, hashOf: HashFn) returns (r: Result<Doc>)
    ensures match Decode(body, hashOf)
            case Got(d, _) => r == Ok(d)
            case Bad => r == Err
  {
    hide DecTable, DecBody;
    if body == [] || body[0] != VERSION {
      return Err;
    }
    var reader := new SnapReader(body, 1);
    var actors :- reader.ReadTable();
    var objects :- reader.ReadTable();
    var strings :- reader.ReadTable();
    reader.actors, reader.objects, reader.strings := actors, objects, strings;
    r := reader.ReadBody(hashOf);
  }
}
