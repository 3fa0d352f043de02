/** snapWriter of crdt/snapshot.go: a growing buffer and growing tables. Every
    method appends exactly what the pure encoder says. */
module SnapWriter {
  import opened OpIds
  import opened Values
  import opened Ops
  import opened Objects
  import opened Documents
  import opened Varints
  import opened Interning
  import opened ValueCodec
  import opened ElemCodec
  import opened OpCodec
  import opened ChangeCodec
  import opened Snapshot
  import opened Sorting
  import opened DocumentCodec

  /** A map from names to their places in a list. */
  ghost predicate Indexes(m: map<Str, nat>, list: seq<Str>) {
    && (forall s :: s in m <==> s in list)
    && (forall s :: s in m ==> m[s] == Place(list, s))
  }

  lemma {:induction false} PlaceKept(list: seq<Str>, s: Str, more: Str)
    requires s in list
    ensures Place(list + [more], s) == Place(list, s)
  {
    if list[0] != s {
      assert (list + [more])[1..] == list[1..] + [more];
      PlaceKept(list[1..], s, more);
    }
  }

  lemma {:induction false} PlaceNew(list: seq<Str>, s: Str)
    requires s !in list
    ensures Place(list + [s], s) == |list|
  {
    if list != [] {
      assert (list + [s])[1..] == list[1..] + [s];
      PlaceNew(list[1..], s);
    }
  }

  lemma IndexesMore(m: map<Str, nat>, list: seq<Str>, s: Str)
    requires Indexes(m, list) && s !in list
    ensures Indexes(m[s := |list|], list + [s])
  {
    hide Place;
    PlaceNew(list, s);
    forall x | x in list ensures Place(list + [s], x) == Place(list, x) { PlaceKept(list, x, s); }
  }

  lemma Join3(b: Str, x: Str, y: Str, z: Str)
    ensures b + x + y + z == b + (x + (y + z))
  {
    Assoc(b, x, y);
    Assoc(b, x + y, z);
    Assoc(x, y, z);
  }

  lemma Join4(b: Str, x: Str, y: Str, z: Str, w: Str)
    ensures b + x + y + z + w == b + (x + (y + (z + w)))
  {
    Join3(b, x, y, z);
    Assoc(b, x + (y + z), w);
    Join3(x, y, z, w);
    Assoc(x, y + z, w);
    Assoc(y, z, w);
  }

  lemma Join5(b: Str, x: Str, y: Str, z: Str, w: Str, v: Str)
    ensures b + x + y + z + w + v == b + (x + (y + (z + (w + v))))
  {
    Join4(b + x, y, z, w, v);
    Assoc(b, x, y + (z + (w + v)));
  }

  lemma Join6(b: Str, x: Str, y: Str, z: Str, w: Str, v: Str, u: Str)
    ensures b + x + y + z + w + v + u == b + (x + (y + (z + (w + (v + u)))))
  {
    Join5(b + x, y, z, w, v, u);
    Assoc(b, x, y + (z + (w + (v + u))));
  }

  class SnapWriter {
    var buf: Str
    var actors: map<Str, nat>
    var actorList: seq<Str>
    var objects: map<Str, nat>
    var objectList: seq<Str>
    var strings: map<Str, nat>
    var stringList: seq<Str>

    ghost predicate Valid()
      reads this
    {
      Indexes(actors, actorList) && Indexes(objects, objectList) && Indexes(strings, stringList)
    }

    function State(): Tables
      reads this
    {
      Tables(actorList, objectList, stringList)
    }

    /** The buffer is what it was and the bytes of r; the tables are those of r. */
    ghost predicate Wrote(before: Str, r: (Str, Tables))
      reads this
    {
      Valid() && buf == before + r.0 && State() == r.1
    }

    /** newSnapWriter. */
    constructor ()
      ensures Valid() && buf == [] && State() == NO_TABLES
    {
      buf, actors, actorList, objects, objectList, strings, stringList := [], map[], [], map[], [], map[], [];
    }

    method Uint(v: nat)
      requires Valid()
      modifies this`buf
      ensures Wrote(old(buf), (EncUint(v), old(State())))
    {
      buf := AppendUleb(buf, v);
    }

    method Int(v: int)
      requires Valid()
      modifies this`buf
      ensures Wrote(old(buf), (EncInt(v), old(State())))
    {
      Uint(Zigzag(v));
    }

    method ByteVal(b: Byte)
      requires Valid()
      modifies this`buf
      ensures Wrote(old(buf), ([b], old(State())))
    {
      buf := buf + [b];
    }

    method Raw(s: Str)
      requires Valid()
      modifies this`buf
      ensures Wrote(old(buf), (s, old(State())))
    {
      buf := buf + s;
    }

    /** bytes and str. */
    method String(s: Str)
      requires Valid()
      modifies this`buf
      ensures Wrote(old(buf), (EncStr(s), old(State())))
    {
      Assoc(buf, EncUint(|s|), s);
      Uint(|s|);
      Raw(s);
    }

    /** actorRef, written. */
    method ActorRef(s: Str)
      requires Valid()
      modifies this
      ensures Wrote(old(buf), EncActor(s, old(State())))
    {
      var index := |actorList|;
      if s in actors {
        index := actors[s];
      } else {
        IndexesMore(actors, actorList, s);
        actors, actorList := actors[s := index], actorList + [s];
      }
      Uint(index);
    }

    /** objectRef, written. */
    method ObjectRef(s: Str)
      requires Valid()
      modifies this
      ensures Wrote(old(buf), EncObjectID(s, old(State())))
    {
      var index := |objectList|;
      if s in objects {
        index := objects[s];
      } else {
        IndexesMore(objects, objectList, s);
        objects, objectList := objects[s := index], objectList + [s];
      }
      Uint(index);
    }

    /** stringRef, written. */
    method StringRef(s: Str)
      requires Valid()
      modifies this
      ensures Wrote(old(buf), EncString(s, old(State())))
    {
      var index := |stringList|;
      if s in strings {
        index := strings[s];
      } else {
        IndexesMore(strings, stringList, s);
        strings, stringList := strings[s := index], stringList + [s];
      }
      Uint(index);
    }

    method WriteTime(time: Option<Time>)
      requires Valid()
      modifies this`buf
      ensures Wrote(old(buf), (EncTime(time), old(State())))
    {
      match time
      case None => ByteVal(0);
      case Some(at) =>
        hide Valid, EncInt, EncUint;
        Join3(buf, [1], EncInt(at.seconds), EncUint(at.nanos));
        ByteVal(1);
        Int(at.seconds);
        Uint(at.nanos);
    }

    method WriteVector(v: Value)
      requires Valid() && v.Vector?
      modifies this`buf
      ensures Wrote(old(buf), EncValue(v, old(State())))
    {
      hide Valid, EncInt, EncUint, EncStr, LittleEndian;
      Join5(buf, [12], EncStr(v.packed), LittleEndian(v.norm, 4), EncInt(v.dim), EncInt(v.width));
      ByteVal(12);
      String(v.packed);
      Raw(LittleEndian(v.norm, 4));
      Int(v.dim);
      Int(v.width);
    }

    method WriteCustom(v: Value)
      requires Valid() && v.Custom?
      modifies this`buf
      ensures Wrote(old(buf), EncValue(v, old(State())))
    {
      hide Valid, EncStr;
      Join3(buf, [255], EncStr(v.name), EncStr(v.text));
      ByteVal(255);
      String(v.name);
      String(v.text);
    }

    method WriteObjectValue(v: Value)
      requires Valid() && v.ObjectValue?
      modifies this
      ensures Wrote(old(buf), EncValue(v, old(State())))
    {
      hide Valid, EncObjectID;
      Assoc(buf, [KindCode(v.kind)], EncObjectID(v.obj, State()).0);
      ByteVal(KindCode(v.kind));
      ObjectRef(v.obj);
    }

    /** A code byte and one field. */
    method WriteCoded(code: Byte, v: Value)
      requires Valid()
      requires match v
               case Bool(_) => code == 1
               case Int(_) => code == 2
               case Uint(_) => code == 3
               case Float(_) => code == 4
               case Text(_) => code == 5
               case Bytes(_) => code == 6
               case Counter(_) => code == 7
               case Timestamp(_) => code == 8
               case _ => false
      modifies this`buf
      ensures Wrote(old(buf), EncValue(v, old(State())))
    {
      hide Valid, EncInt, EncUint, EncStr, EncTime, LittleEndian;
      Assoc(buf, [code], EncValue(v, State()).0[1..]);
      ByteVal(code);
      match v
      case Bool(b) => ByteVal(if b then 1 else 0);
      case Int(i) => Int(i);
      case Uint(u) => Uint(u);
      case Float(bits) => Raw(LittleEndian(bits, 8));
      case Text(str) => String(str);
      case Bytes(bytes) => String(bytes);
      case Counter(count) => Int(count);
      case Timestamp(time) => WriteTime(time);
    }

    /** writeValue. */
    method WriteValue(v: Value)
      requires Valid()
      modifies this
      ensures Wrote(old(buf), EncValue(v, old(State())))
    {
      match v
      case NoValue => ByteVal(0);
      case Null => ByteVal(0);
      case Bool(_) => WriteCoded(1, v);
      case Int(_) => WriteCoded(2, v);
      case Uint(_) => WriteCoded(3, v);
      case Float(_) => WriteCoded(4, v);
      case Text(_) => WriteCoded(5, v);
      case Bytes(_) => WriteCoded(6, v);
      case Counter(_) => WriteCoded(7, v);
      case Timestamp(_) => WriteCoded(8, v);
      case ObjectValue(_, _) => WriteObjectValue(v);
      case Vector(_, _, _, _) => WriteVector(v);
      case Custom(_, _) => WriteCustom(v);
    }

    // ---- elements ----

    /** An actor index and a counter difference. */
    method WriteIDRef(id: OpID, base: nat)
      requires Valid()
      modifies this
      ensures Wrote(old(buf), EncIDRef(id, base, old(State())))
    {
      hide Valid, EncActor, EncInt;
      Assoc(buf, EncActor(id.actor, State()).0, EncInt(Delta(id.counter, base)));
      ActorRef(id.actor);
      Int(Delta(id.counter, base));
    }

    /** The optional fields of an element. */
    method WriteElemFields(elem: Elem, ghost prev: seq<Elem>, sameActor: bool, afterPrev: bool)
      requires Valid() && sameActor == SameActor(prev, elem) && afterPrev == AfterPrevious(prev, elem)
      modifies this
      ensures var (a, t1) := EncOwnActor(prev, elem, old(State())); var (b, t2) := EncAfter(prev, elem, t1);
              var (v, t3) := EncVisId(elem, t2); var (x, t4) := EncElemValue(elem.value, t3);
              Wrote(old(buf), (a + (b + (v + x)), t4))
    {
      hide Valid, EncActor, EncIDRef, EncStr, EncValue, ParseRef, SameActor, AfterPrevious;
      ghost var b0 := buf;
      ghost var (a, t1) := EncOwnActor(prev, elem, State());
      ghost var (b, t2) := EncAfter(prev, elem, t1);
      ghost var (v, t3) := EncVisId(elem, t2);
      ghost var (x, t4) := EncElemValue(elem.value, t3);
      Join4(b0, a, b, v, x);
      if sameActor { NoBytes(buf); } else { ActorRef(elem.id.actor); }
      assert Wrote(b0, (a, t1));
      if !ParseRef(elem.after).Ref? || afterPrev { NoBytes(buf); } else { WriteIDRef(ParseRef(elem.after).id, elem.id.counter); }
      assert Wrote(b0 + a, (b, t2));
      if DecidedByInsert(elem) { NoBytes(buf); } else { WriteIDRef(elem.visId, elem.id.counter); }
      assert Wrote(b0 + a + b, (v, t3));
      if elem.value.Text? { String(elem.value.str); } else { WriteValue(elem.value); }
    }

    /** The loop body of writeElems; previous is the element before. */
    method WriteElem(elem: Elem, previous: Option<OpID>, ghost prev: seq<Elem>)
      requires Valid()
      requires previous == if prev == [] then None else Some(prev[|prev| - 1].id)
      modifies this
      ensures Wrote(old(buf), EncElem(prev, elem, old(State())))
    {
      hide Valid, EncOwnActor, EncAfter, EncVisId, EncElemValue, EncInt, ParseRef, FlagByte;
      var afterPrev := previous.Some? && ParseRef(elem.after) == Ref(previous.value);
      var sameActor := previous.Some? && elem.id.actor == previous.value.actor;
      var previousCounter := if previous.Some? then previous.value.counter else 0;
      var flags := [!ParseRef(elem.after).Ref?, afterPrev, DecidedByInsert(elem), sameActor, elem.value.Text?];
      assert flags == ElemFlags(prev, elem);
      ghost var n := EncInt(Delta(elem.id.counter, previousCounter));
      ghost var (a, t1) := EncOwnActor(prev, elem, State());
      ghost var (b, t2) := EncAfter(prev, elem, t1);
      ghost var (v, t3) := EncVisId(elem, t2);
      Join3(buf, [FlagByte(flags)], n, a + (b + (v + EncElemValue(elem.value, t3).0)));
      ByteVal(FlagByte(flags));
      Int(Delta(elem.id.counter, previousCounter));
      WriteElemFields(elem, prev, sameActor, afterPrev);
    }

    /** The second half of writeElems. */
    method WriteTombstones(elems: seq<Elem>)
      requires Valid()
      modifies this
      ensures Wrote(old(buf), (EncList(TombRuns(elems), old(State()), RunWriter()).0, old(State())))
    {
      var runs := TombstoneRuns(elems);
      ghost var t := State();
      ghost var b0 := buf;
      Uint(|runs|);
      NoItems(runs, t, RunWriter());
      NoBytes(buf);
      RunItemsKeepTables(runs, t);
      hide Valid, TombRuns, EncUint;
      for i := 0 to |runs|
        invariant Wrote(b0 + EncUint(|runs|), EncItems(runs[..i], t, RunWriter()))
      {
        hide EncItems;
        ItemsStep(runs, i, t, RunWriter());
        Assoc(b0 + EncUint(|runs|), EncItems(runs[..i], t, RunWriter()).0, EncUint(runs[i]));
        Uint(runs[i]);
      }
      assert runs[..|runs|] == runs;
      Assoc(b0, EncUint(|runs|), EncItems(runs, t, RunWriter()).0);
    }

    /** writeElems. */
    method WriteElems(elems: seq<Elem>)
      requires Valid()
      modifies this
      ensures Wrote(old(buf), EncElems(elems, old(State())))
    {
      ghost var t := State();
      ghost var b0 := buf;
      Uint(|elems|);
      NoItems(elems, t, ElemWriter());
      NoBytes(buf);
      hide Valid, TombRuns, EncUint, EncElem;
      var previous: Option<OpID> := None;
      for i := 0 to |elems|
        invariant previous == if i == 0 then None else Some(elems[i - 1].id)
        invariant Wrote(b0 + EncUint(|elems|), EncItems(elems[..i], t, ElemWriter()))
      {
        hide EncItems;
        ItemsStep(elems, i, t, ElemWriter());
        ghost var (a, u) := EncItems(elems[..i], t, ElemWriter());
        Assoc(b0 + EncUint(|elems|), a, EncElem(elems[..i], elems[i], u).0);
        WriteElem(elems[i], previous, elems[..i]);
        previous := Some(elems[i].id);
      }
      assert elems[..|elems|] == elems;
      ghost var items := EncItems(elems, t, ElemWriter()).0;
      ghost var u := EncItems(elems, t, ElemWriter()).1;
      Assoc(b0, EncUint(|elems|), items);
      Assoc(b0, EncUint(|elems|) + items, EncList(TombRuns(elems), u, RunWriter()).0);
      WriteTombstones(elems);
    }

    // ---- operations ----

    /** Prop and After: nothing, a compact reference, or an interned string. */
    method WriteText(text: Str, base: nat)
      requires Valid()
      modifies this
      ensures Wrote(old(buf), EncText(text, base, old(State())))
    {
      hide Valid, EncIDRef, EncString, ParseRef, Print;
      NoBytes(buf);
      if text != [] {
        if IsRef(text) {
          WriteIDRef(ParseRef(text).id, base);
        } else {
          StringRef(text);
        }
      }
    }

    method WriteDeleteRun(run: Run)
      requires Valid()
      modifies this
      ensures Wrote(old(buf), EncDeleteRun(run, old(State())))
    {
      hide Valid, EncActor, EncUint;
      Join3(buf, EncActor(run.actor, State()).0, EncUint(run.start), EncUint(run.count));
      ActorRef(run.actor);
      Uint(run.start);
      Uint(run.count);
    }

    method WriteDeletes(runs: seq<Run>)
      requires Valid()
      modifies this
      ensures Wrote(old(buf), EncDeletes(runs, old(State())))
    {
      ghost var t := State();
      ghost var b0 := buf;
      NoBytes(buf);
      if |runs| == 0 {
        return;
      }
      Uint(|runs|);
      NoItems(runs, t, DeleteRunWriter());
      NoBytes(buf);
      hide Valid, EncUint, EncDeleteRun;
      for i := 0 to |runs|
        invariant Wrote(b0 + EncUint(|runs|), EncItems(runs[..i], t, DeleteRunWriter()))
      {
        hide EncItems;
        ItemsStep(runs, i, t, DeleteRunWriter());
        ghost var (a, u) := EncItems(runs[..i], t, DeleteRunWriter());
        Assoc(b0 + EncUint(|runs|), a, EncDeleteRun(runs[i], u).0);
        WriteDeleteRun(runs[i]);
      }
      assert runs[..|runs|] == runs;
      Assoc(b0, EncUint(|runs|), EncItems(runs, t, DeleteRunWriter()).0);
    }

    method WriteOpHead(op: Op)
      requires Valid()
      modifies this
      ensures Wrote(old(buf), EncOpHead(op, old(State())))
    {
      hide Valid, EncActor, EncUint, EncString, EncObjectID, ActionName;
      ghost var (a, t1) := EncActor(op.id.actor, State());
      ghost var (b, t2) := EncString(ActionName(op.action), t1);
      Join4(buf, a, EncUint(op.id.counter), b, EncObjectID(op.obj, t2).0);
      ActorRef(op.id.actor);
      Uint(op.id.counter);
      StringRef(ActionName(op.action));
      ObjectRef(op.obj);
    }

    method WriteOpTail(op: Op)
      requires Valid()
      modifies this
      ensures Wrote(old(buf), EncOpTail(op, old(State())))
    {
      hide Valid, EncText, EncStr, EncValue, EncDeletes;
      ghost var b0 := buf;
      ghost var (p, t1) := EncText(op.prop, op.id.counter, State());
      ghost var (v, t2) := EncOpValue(op.value, t1);
      ghost var (a, t3) := EncText(op.after, op.id.counter, t2);
      ghost var (d, t4) := EncDeletes(op.deleteRuns, t3);
      Join5(b0, p, v, a, EncOpRun(op.run), d);
      WriteText(op.prop, op.id.counter);
      if op.value != NoValue { WriteValue(op.value); } else { NoBytes(buf); }
      assert Wrote(b0 + p, (v, t2));
      WriteText(op.after, op.id.counter);
      if op.run != [] { String(op.run); } else { NoBytes(buf); }
      assert Wrote(b0 + p + v + a, (EncOpRun(op.run), t3));
      WriteDeletes(op.deleteRuns);
    }

    /** writeOp. */
    method WriteOp(op: Op)
      requires Valid()
      modifies this
      ensures Wrote(old(buf), EncOp(op, old(State())))
    {
      hide Valid, EncOpHead, EncOpTail, OpFlags, FlagByte;
      ghost var (h, t1) := EncOpHead(op, State());
      Join3(buf, [FlagByte(OpFlags(op))], h, EncOpTail(op, t1).0);
      ByteVal(FlagByte(OpFlags(op)));
      WriteOpHead(op);
      WriteOpTail(op);
    }

    method WriteOps(ops: seq<Op>)
      requires Valid()
      modifies this
      ensures Wrote(old(buf), EncList(ops, old(State()), OpWriter()))
    {
      ghost var t := State();
      ghost var b0 := buf;
      Uint(|ops|);
      NoItems(ops, t, OpWriter());
      NoBytes(buf);
      hide Valid, EncUint, EncOp;
      for i := 0 to |ops|
        invariant Wrote(b0 + EncUint(|ops|), EncItems(ops[..i], t, OpWriter()))
      {
        hide EncItems;
        ItemsStep(ops, i, t, OpWriter());
        ghost var (a, u) := EncItems(ops[..i], t, OpWriter());
        Assoc(b0 + EncUint(|ops|), a, EncOp(ops[i], u).0);
        WriteOp(ops[i]);
      }
      assert ops[..|ops|] == ops;
      Assoc(b0, EncUint(|ops|), EncItems(ops, t, OpWriter()).0);
    }

    // ---- changes ----

    method WriteDep(dep: Hash, position: nat, index: map<Hash, nat>)
      requires Valid()
      modifies this`buf
      ensures Wrote(old(buf), (EncDep(dep, position, index), old(State())))
    {
      hide Valid, EncUint;
      if dep in index && index[dep] < position {
        Uint(index[dep] + 1);
      } else {
        Assoc(buf, EncUint(0), dep);
        Uint(0);
        Raw(dep);
      }
    }

    method WriteDeps(deps: seq<Hash>, position: nat, index: map<Hash, nat>)
      requires Valid()
      modifies this`buf
      ensures Wrote(old(buf), EncList(deps, old(State()), DepWriter(position, index)))
    {
      ghost var t := State();
      ghost var b0 := buf;
      ghost var enc := DepWriter(position, index);
      Uint(|deps|);
      NoItems(deps, t, enc);
      NoBytes(buf);
      hide Valid, EncUint, EncDep;
      for i := 0 to |deps|
        invariant Wrote(b0 + EncUint(|deps|), EncItems(deps[..i], t, enc)) && State() == t
      {
        hide EncItems;
        ItemsStep(deps, i, t, enc);
        Assoc(b0 + EncUint(|deps|), EncItems(deps[..i], t, enc).0, EncDep(deps[i], position, index));
        WriteDep(deps[i], position, index);
      }
      assert deps[..|deps|] == deps;
      Assoc(b0, EncUint(|deps|), EncItems(deps, t, enc).0);
    }

    method WriteStamp(ch: Change, previousTime: int, ghost prev: seq<Change>)
      requires Valid() && previousTime == PreviousSeconds(prev)
      modifies this`buf
      ensures Wrote(old(buf), (EncStamp(prev, ch), old(State())))
    {
      hide Valid, EncInt, EncUint, Wrap;
      var delta := Wrap(ch.time.seconds - previousTime);
      Join4(buf, EncUint(ch.seqNo), EncUint(ch.startOp), EncInt(delta), EncUint(ch.time.nanos));
      Uint(ch.seqNo);
      Uint(ch.startOp);
      Int(delta);
      Uint(ch.time.nanos);
    }

    method WriteLabels(ch: Change, isDefault: bool)
      requires Valid() && isDefault == (ch.group == DefaultGroup(ch.actor, ch.seqNo))
      modifies this
      ensures Wrote(old(buf), EncLabels(ch, old(State())))
    {
      hide Valid, EncString, DefaultGroup;
      ghost var b0 := buf;
      ghost var (m, t1) := if ch.message != [] then EncString(ch.message, State()) else ([], State());
      ghost var (g, t2) := if ch.group == DefaultGroup(ch.actor, ch.seqNo) then ([], t1) else EncString(ch.group, t1);
      Assoc(b0, m, g);
      if ch.message != [] { StringRef(ch.message); } else { NoBytes(buf); }
      assert Wrote(b0, (m, t1));
      if !isDefault { StringRef(ch.group); } else { NoBytes(buf); }
    }

    /** writeChange; the time of the change is the base of the next. */
    method WriteChange(ch: Change, position: nat, index: map<Hash, nat>, previousTime: int, ghost prev: seq<Change>)
      returns (seconds: int)
      requires Valid() && position == |prev| && previousTime == PreviousSeconds(prev)
      modifies this
      ensures Wrote(old(buf), EncChange(prev, ch, index, old(State()))) && seconds == ch.time.seconds
    {
      hide Valid, EncActor, EncStamp, EncLabels, EncList, FlagByte, DefaultGroup;
      var isDefault := ch.group == DefaultGroup(ch.actor, ch.seqNo);
      var flags := [isDefault, ch.message != []];
      ghost var (a, t1) := EncActor(ch.actor, State());
      ghost var (l, t2) := EncLabels(ch, t1);
      ghost var (d, t3) := EncList(ch.deps, t2, DepWriter(position, index));
      ghost var (o, t4) := EncList(ch.ops, t3, OpWriter());
      Join6(buf, [FlagByte(flags)], a, EncStamp(prev, ch), l, d, o);
      ByteVal(FlagByte(flags));
      ActorRef(ch.actor);
      WriteStamp(ch, previousTime, prev);
      WriteLabels(ch, isDefault);
      DepsKeepTables(ch.deps, t2, position, index);
      WriteDeps(ch.deps, position, index);
      WriteOps(ch.ops);
      seconds := ch.time.seconds;
    }

    method WriteChanges(changes: seq<Change>)
      requires Valid()
      modifies this
      ensures Wrote(old(buf), EncList(changes, old(State()), ChangeWriter(HashPlaces(changes))))
    {
      var index := IndexPlaces(changes);
      ghost var t := State();
      ghost var b0 := buf;
      ghost var enc := ChangeWriter(index);
      Uint(|changes|);
      NoItems(changes, t, enc);
      NoBytes(buf);
      hide Valid, EncUint, EncChange, HashPlaces;
      var previousTime := 0;
      for i := 0 to |changes|
        invariant previousTime == PreviousSeconds(changes[..i])
        invariant Wrote(b0 + EncUint(|changes|), EncItems(changes[..i], t, enc))
      {
        hide EncItems;
        ItemsStep(changes, i, t, enc);
        ghost var (a, u) := EncItems(changes[..i], t, enc);
        Assoc(b0 + EncUint(|changes|), a, EncChange(changes[..i], changes[i], index, u).0);
        previousTime := WriteChange(changes[i], i, index, previousTime, changes[..i]);
        assert changes[..i + 1][i] == changes[i];
      }
      assert changes[..|changes|] == changes;
      Assoc(b0, EncUint(|changes|), EncItems(changes, t, enc).0);
    }

    // ---- objects ----

    method WriteEntry(key: Str, entry: Entry)
      requires Valid()
      modifies this
      ensures Wrote(old(buf), EncEntry(Row(key, entry), old(State())))
    {
      hide Valid, EncActor, EncValue, EncStr, EncUint;
      ghost var (a, t1) := EncActor(entry.id.actor, State());
      var deleted := if entry.deleted then 1 else 0;
      Join5(buf, EncStr(key), a, EncUint(entry.id.counter), [deleted], EncValue(entry.value, t1).0);
      String(key);
      ActorRef(entry.id.actor);
      Uint(entry.id.counter);
      ByteVal(deleted);
      WriteValue(entry.value);
    }

    method WriteEntries(entries: map<Str, Entry>)
      requires Valid()
      modifies this
      ensures Wrote(old(buf), EncList(Rows(entries), old(State()), EntryWriter()))
    {
      var keys := SortedKeys(entries.Keys);
      ghost var rows := Rows(entries);
      ghost var t := State();
      ghost var b0 := buf;
      Uint(|keys|);
      NoItems(rows, t, EntryWriter());
      NoBytes(buf);
      hide Valid, EncUint, EncEntry, SortedKeys, Rows;
      for i := 0 to |keys|
        invariant Wrote(b0 + EncUint(|keys|), EncItems(rows[..i], t, EntryWriter()))
      {
        hide EncItems;
        assert keys[i] in keys;
        ItemsStep(rows, i, t, EntryWriter());
        ghost var (a, u) := EncItems(rows[..i], t, EntryWriter());
        Assoc(b0 + EncUint(|keys|), a, EncEntry(rows[i], u).0);
        WriteEntry(keys[i], entries[keys[i]]);
      }
      assert rows[..|rows|] == rows;
      Assoc(b0, EncUint(|keys|), EncItems(rows, t, EntryWriter()).0);
    }

    /** writeObject. */
    method WriteObject(o: Object)
      requires Valid()
      modifies this
      ensures Wrote(old(buf), EncObject(o, old(State())))
    {
      hide Valid, EncList, EncElems;
      match o
      case MapObject(entries) =>
        Assoc(buf, [0], EncList(Rows(entries), State(), EntryWriter()).0);
        ByteVal(0);
        WriteEntries(entries);
      case SeqObject(isText, elems) =>
        Assoc(buf, [if isText then 2 else 1], EncElems(elems, State()).0);
        ByteVal(if isText then 2 else 1);
        WriteElems(elems);
    }

    method WriteObjectRow(id: ObjID, o: Object)
      requires Valid()
      modifies this
      ensures Wrote(old(buf), EncObjectRow(Row(id, o), old(State())))
    {
      hide Valid, EncObjectID, EncObject;
      ghost var (a, t1) := EncObjectID(id, State());
      Assoc(buf, a, EncObject(o, t1).0);
      ObjectRef(id);
      WriteObject(o);
    }

    method WriteObjects(objs: Objects)
      requires Valid()
      modifies this
      ensures Wrote(old(buf), EncList(Rows(objs), old(State()), ObjectWriter()))
    {
      var ids := SortedKeys(objs.Keys);
      ghost var rows := Rows(objs);
      ghost var t := State();
      ghost var b0 := buf;
      Uint(|ids|);
      NoItems(rows, t, ObjectWriter());
      NoBytes(buf);
      hide Valid, EncUint, EncObjectRow, SortedKeys, Rows;
      for i := 0 to |ids|
        invariant Wrote(b0 + EncUint(|ids|), EncItems(rows[..i], t, ObjectWriter()))
      {
        hide EncItems;
        assert ids[i] in ids;
        ItemsStep(rows, i, t, ObjectWriter());
        ghost var (a, u) := EncItems(rows[..i], t, ObjectWriter());
        Assoc(b0 + EncUint(|ids|), a, EncObjectRow(rows[i], u).0);
        WriteObjectRow(ids[i], objs[ids[i]]);
      }
      assert rows[..|rows|] == rows;
      Assoc(b0, EncUint(|ids|), EncItems(rows, t, ObjectWriter()).0);
    }

    // ---- the document ----

    method WriteHeads(heads: seq<RawHash>)
      requires Valid()
      modifies this
      ensures Wrote(old(buf), EncList(heads, old(State()), HashWriter()))
    {
      ghost var t := State();
      ghost var b0 := buf;
      Uint(|heads|);
      NoItems(heads, t, HashWriter());
      NoBytes(buf);
      hide Valid, EncUint;
      for i := 0 to |heads|
        invariant Wrote(b0 + EncUint(|heads|), EncItems(heads[..i], t, HashWriter())) && State() == t
      {
        hide EncItems;
        ItemsStep(heads, i, t, HashWriter());
        Assoc(b0 + EncUint(|heads|), EncItems(heads[..i], t, HashWriter()).0, heads[i]);
        Raw(heads[i]);
      }
      assert heads[..|heads|] == heads;
      Assoc(b0, EncUint(|heads|), EncItems(heads, t, HashWriter()).0);
    }

    method WriteBody(d: Doc)
      requires Valid() && HeadsFit(d)
      modifies this
      ensures Wrote(old(buf), EncBody(d, old(State())))
    {
      hide Valid, EncActor, EncUint, EncList, HashPlaces;
      var heads := RawHeads(d);
      ghost var (a, t1) := EncActor(d.actor, State());
      ghost var (h, t2) := EncList(heads, t1, HashWriter());
      ghost var (o, t3) := EncList(Rows(d.objects), t2, ObjectWriter());
      Join6(buf, a, EncUint(d.seqNo), EncUint(d.maxOp), h, o, EncList(d.changes, t3, ChangeWriter(HashPlaces(d.changes))).0);
      ActorRef(d.actor);
      Uint(d.seqNo);
      Uint(d.maxOp);
      WriteHeads(heads);
      WriteObjects(d.objects);
      WriteChanges(d.changes);
    }

    method WriteTable(list: seq<Str>)
      requires Valid()
      modifies this`buf
      ensures Wrote(old(buf), (EncTable(list), old(State())))
    {
      ghost var b0 := buf;
      Uint(|list|);
      NoItems(list, NO_TABLES, NameWriter());
      NoBytes(buf);
      hide Valid, EncUint, EncStr;
      for i := 0 to |list|
        invariant Wrote(b0 + EncUint(|list|), (EncItems(list[..i], NO_TABLES, NameWriter()).0, old(State())))
      {
        hide EncItems;
        ItemsStep(list, i, NO_TABLES, NameWriter());
        Assoc(b0 + EncUint(|list|), EncItems(list[..i], NO_TABLES, NameWriter()).0, EncStr(list[i]));
        String(list[i]);
      }
      assert list[..|list|] == list;
      Assoc(b0, EncUint(|list|), EncItems(list, NO_TABLES, NameWriter()).0);
    }

    /** The version, the tables, and a finished body. */
    method WriteHeader(actors: seq<Str>, objects: seq<Str>, strings: seq<Str>, body: Str)
      requires Valid()
      modifies this`buf
      ensures Wrote(old(buf), ([VERSION] + (EncTable(actors) + (EncTable(objects) + (EncTable(strings) + body))), old(State())))
    {
      hide Valid, EncTable;
      Join5(buf, [VERSION], EncTable(actors), EncTable(objects), EncTable(strings), body);
      ByteVal(VERSION);
      WriteTable(actors);
      WriteTable(objects);
      WriteTable(strings);
      Raw(body);
    }
  }

  lemma NoBytes(b: Str)
    ensures b + [] == b
  {
  }

  lemma NoItems<T>(items: seq<T>, t: Tables, enc: Encoder<T>)
    ensures EncItems(items[..0], t, enc) == ([], t)
  {
  }

  /** The run lengths, as the loop of writeElems counts them. */
  method TombstoneRuns(elems: seq<Elem>) returns (runs: seq<nat>)
    ensures runs == TombRuns(elems)
  {
    runs := [];
    var current := false;
    var count: nat := 0;
    for i := 0 to |elems|
      invariant ScanElems(elems[..i]) == Scan(runs, current, count)
    {
      assert elems[..i + 1][..i] == elems[..i];
      if elems[i].deleted == current {
        count := count + 1;
        continue;
      }
      runs := runs + [count];
      current := !current;
      count := 1;
    }
    assert elems[..|elems|] == elems;
    if count > 0 {
      runs := runs + [count];
    }
  }

  lemma {:induction false} DepItemsKeepTables(deps: seq<Hash>, t: Tables, position: nat, index: map<Hash, nat>)
    ensures EncItems(deps, t, DepWriter(position, index)).1 == t
  {
    if deps != [] { DepItemsKeepTables(deps[..|deps| - 1], t, position, index); }
  }

  lemma DepsKeepTables(deps: seq<Hash>, t: Tables, position: nat, index: map<Hash, nat>)
    ensures EncList(deps, t, DepWriter(position, index)).1 == t
  {
    DepItemsKeepTables(deps, t, position, index);
  }

  /** The index that encodeSnapshotV2 builds: a hash and its last place. */
  method IndexPlaces(changes: seq<Change>) returns (index: map<Hash, nat>)
    ensures index == HashPlaces(changes)
  {
    index := map[];
    for i := 0 to |changes|
      invariant index == HashPlaces(changes[..i])
    {
      index := index[changes[i].hash := i];
      assert changes[..i + 1][..i] == changes[..i];
    }
    assert changes[..|changes|] == changes;
  }

  /** encodeSnapshotV2: the body first, then the version, the tables, the body. */
  method EncodeSnapshot(d: Doc) returns (out: Str)
    requires HeadsFit(d)
    ensures out == Encode(d)
  {
    var body := new SnapWriter();
    body.WriteBody(d);
    var w := new SnapWriter();
    w.WriteHeader(body.actorList, body.objectList, body.stringList, body.buf);
    out := w.buf;
  }
}
