/** The bytes of a compact snapshot as a document of the format would give them
    (crdt/snapshot.go): every reference is the place of a name in the finished
    tables, every code and flag is a literal. The encoders write exactly this. */
module Format {
  import opened OpIds
  import opened Values
  import opened Ops
  import opened Objects
  import opened Documents
  import opened Varints
  import opened Interning
  import opened ValueCodec
  import opened ElemCodec
  import opened OpCodec
  import opened ChangeCodec
  import opened Snapshot
  import opened DocumentCodec

  // ---- numbers ----

  /** Groups of seven bits, the lowest first. */
  function Base128(b: Str): nat {
    if b == [] then 0 else b[0] % 128 + 128 * Base128(b[1..])
  }

  /** The shortest form of n: every byte but the last has its high bit set. */
  ghost predicate IsUleb(b: Str, n: nat) {
    && b != [] && Base128(b) == n && b[|b| - 1] < 128 && (|b| > 1 ==> b[|b| - 1] != 0)
    && forall i :: 0 <= i < |b| - 1 ==> b[i] >= 128
  }

  lemma {:induction false} UlebIs(n: nat)
    ensures IsUleb(EncUint(n), n)
  {
    if n >= 128 {
      UlebIs(n / 128);
      var b, rest := EncUint(n), EncUint(n / 128);
      assert b[1..] == rest && b[0] % 128 == n % 128;
      UlebPositive(rest, n / 128);
    } else {
      assert EncUint(n)[1..] == [];
    }
  }

  lemma UlebPositive(b: Str, n: nat)
    requires IsUleb(b, n) && n > 0
    ensures b[|b| - 1] != 0
  {
    if |b| == 1 {
      assert b[1..] == [];
      assert Base128(b) == b[0] % 128;
    }
  }

  /** A number has one such form. */
  lemma {:induction false} UlebIsUnique(a: Str, b: Str, n: nat)
    requires IsUleb(a, n) && IsUleb(b, n)
    ensures a == b
    decreases |a|
  {
    UlebSize(a, n);
    UlebSize(b, n);
    assert a == [a[0]] + a[1..] && b == [b[0]] + b[1..];
    if |a| > 1 {
      UlebTail(a, n);
      UlebTail(b, n);
      UlebIsUnique(a[1..], b[1..], n / 128);
    }
  }

  lemma UlebSize(a: Str, n: nat)
    requires IsUleb(a, n)
    ensures |a| == 1 <==> n < 128
    ensures |a| == 1 ==> a == [n]
  {
    if |a| > 1 { UlebTail(a, n); LongIsLarge(a[1..], n / 128); } else { assert a[1..] == []; }
  }

  lemma UlebTail(a: Str, n: nat)
    requires IsUleb(a, n) && |a| > 1
    ensures IsUleb(a[1..], n / 128) && a[0] == n % 128 + 128
  {
  }

  lemma {:induction false} LongIsLarge(b: Str, n: nat)
    requires b != [] && Base128(b) == n && b[|b| - 1] != 0 && b[|b| - 1] < 128
    ensures n > 0
    decreases |b|
  {
    if |b| > 1 { LongIsLarge(b[1..], Base128(b[1..])); } else { assert b[1..] == []; }
  }

  /** A signed number is twice its size, less one when it is negative. */
  lemma IntIs(v: int)
    ensures IsUleb(EncInt(v), if v >= 0 then 2 * v else -2 * v - 1)
  {
    UlebIs(Zigzag(v));
  }

  lemma OneTurn(x: int, y: int)
    requires x == y || x == y + UINT64_LIMIT || x == y - UINT64_LIMIT
    ensures x % UINT64_LIMIT == y % UINT64_LIMIT
  {
  }

  lemma Turns(y: int, r: int)
    requires r == y % UINT64_LIMIT || r == y % UINT64_LIMIT - UINT64_LIMIT
    ensures (r - y) % UINT64_LIMIT == 0
  {
    var q := y / UINT64_LIMIT;
    assert y == q * UINT64_LIMIT + y % UINT64_LIMIT;
    if r == y % UINT64_LIMIT { Multiple(-q); } else { Multiple(-q - 1); }
  }

  lemma Multiple(q: int)
    ensures q * UINT64_LIMIT % UINT64_LIMIT == 0
  {
  }

  /** A counter is written as its distance, modulo 2^64 and signed. */
  lemma DeltaIs(a: nat, b: nat)
    ensures Delta(a, b) == Wrap(a - b)
    ensures -0x8000_0000_0000_0000 <= Wrap(a - b) < 0x8000_0000_0000_0000
    ensures (Wrap(a - b) - (a - b)) % 0x1_0000_0000_0000_0000 == 0
  {
    Turns(a - b, Wrap(a - b));
    if Signed(a) - Signed(b) == a - b { OneTurn(a - b, a - b); } else { OneTurn(Signed(a) - Signed(b), a - b); }
  }

  /** A word of k bytes, the lowest first. */
  lemma {:induction false} WordIs(n: nat, k: nat)
    ensures |LittleEndian(n, k)| == k
    ensures k > 0 ==> LittleEndian(n, k) == [n % 256] + LittleEndian(n / 256, k - 1)
  {
  }

  // ---- names ----

  function Ascii(text: string): Str
    requires forall i :: 0 <= i < |text| ==> text[i] < 128 as char
  {
    seq(|text|, i requires 0 <= i < |text| => text[i] as int)
  }

  /** A reference: the place of the name in the finished table. */
  function NameAt(table: seq<Str>, name: Str): Str {
    EncUint(Place(table, name))
  }

  lemma {:induction false} PlaceStays(list: seq<Str>, all: seq<Str>, name: Str)
    requires list <= all && name in list
    ensures Place(all, name) == Place(list, name)
  {
    if list[0] != name {
      assert list == [list[0]] + list[1..];
      PlaceStays(list[1..], all[1..], name);
    }
  }

  lemma {:induction false} PlaceAtEnd(list: seq<Str>, name: Str)
    requires name !in list
    ensures Place(list + [name], name) == |list|
  {
    if list != [] {
      assert (list + [name])[1..] == list[1..] + [name];
      PlaceAtEnd(list[1..], name);
    }
  }

  lemma InternIs(list: seq<Str>, all: seq<Str>, name: Str)
    requires Intern(list, name).1 <= all
    ensures EncUint(Intern(list, name).0) == NameAt(all, name)
  {
    if name !in list { PlaceAtEnd(list, name); }
    PlaceStays(Intern(list, name).1, all, name);
  }

  lemma ExtendsOn(c: Tables, b: Tables, a: Tables)
    requires Extends(c, b) && Extends(b, a)
    ensures Extends(c, a)
  {
  }

  lemma ActorIs(name: Str, t: Tables, c: Tables)
    requires Extends(c, EncActor(name, t).1)
    ensures EncActor(name, t).0 == NameAt(c.actors, name)
  {
    InternIs(t.actors, c.actors, name);
  }

  lemma ObjectIDIs(name: Str, t: Tables, c: Tables)
    requires Extends(c, EncObjectID(name, t).1)
    ensures EncObjectID(name, t).0 == NameAt(c.objects, name)
  {
    InternIs(t.objects, c.objects, name);
  }

  lemma StringIs(name: Str, t: Tables, c: Tables)
    requires Extends(c, EncString(name, t).1)
    ensures EncString(name, t).0 == NameAt(c.strings, name)
  {
    InternIs(t.strings, c.strings, name);
  }

  function TextBytes(text: Str): Str {
    EncUint(|text|) + text
  }

  // ---- values ----

  function TimeBytes(time: Option<Time>): Str {
    match time
    case None => [0]
    case Some(at) => [1] + EncInt(at.seconds) + EncUint(at.nanos)
  }

  function ValueBytes(v: Value, c: Tables): Str {
    match v
    case NoValue => [0]
    case Null => [0]
    case Bool(b) => [1, if b then 1 else 0]
    case Int(i) => [2] + EncInt(i)
    case Uint(u) => [3] + EncUint(u)
    case Float(bits) => [4] + LittleEndian(bits, 8)
    case Text(str) => [5] + TextBytes(str)
    case Bytes(bytes) => [6] + TextBytes(bytes)
    case Counter(count) => [7] + EncInt(count)
    case Timestamp(time) => [8] + TimeBytes(time)
    case ObjectValue(MapKind, obj) => [9] + NameAt(c.objects, obj)
    case ObjectValue(ListKind, obj) => [10] + NameAt(c.objects, obj)
    case ObjectValue(TextKind, obj) => [11] + NameAt(c.objects, obj)
    case Vector(packed, norm, dim, width) => [12] + TextBytes(packed) + LittleEndian(norm, 4) + EncInt(dim) + EncInt(width)
    case Custom(name, text) => [255] + TextBytes(name) + TextBytes(text)
  }

  lemma ValueIs(v: Value, t: Tables, c: Tables)
    requires Extends(c, EncValue(v, t).1)
    ensures EncValue(v, t).0 == ValueBytes(v, c)
  {
    hide EncUint, EncInt, LittleEndian, NameAt, EncObjectID;
    match v
    case ObjectValue(kind, obj) => ObjectIDIs(obj, t, c);
    case Timestamp(Some(at)) => FourParts([8], [1], EncInt(at.seconds), EncUint(at.nanos), []);
    case Vector(packed, norm, dim, width) =>
      FourParts([12], TextBytes(packed), LittleEndian(norm, 4), EncInt(dim), EncInt(width));
    case Custom(name, text) => FourParts([255], TextBytes(name), TextBytes(text), [], []);
    case _ =>
  }

  lemma FourParts(a: Str, b: Str, c: Str, d: Str, e: Str)
    ensures a + (b + (c + (d + e))) == a + b + c + d + e
    ensures a + (b + (c + d)) == a + (b + c + d) && a + (b + c) == a + b + c
  {
  }

  // ---- elements ----

  function DistanceBytes(id: OpID, base: nat, c: Tables): Str {
    NameAt(c.actors, id.actor) + EncInt(Wrap(id.counter - base))
  }

  lemma DistanceIs(id: OpID, base: nat, t: Tables, c: Tables)
    requires Extends(c, EncIDRef(id, base, t).1)
    ensures EncIDRef(id, base, t).0 == DistanceBytes(id, base, c)
  {
    hide EncInt, Wrap, EncActor, NameAt, Delta;
    ActorIs(id.actor, t, c);
    DeltaIs(id.counter, base);
  }

  /** An element behind those before it. */
  function ElemBytes(prev: seq<Elem>, e: Elem, c: Tables): Str {
    var first := prev == [];
    var last := if first then Elem(OpID(0, []), [], Null, false, OpID(0, [])) else prev[|prev| - 1];
    var ref := ParseRef(e.after);
    var noAfter := !ref.Ref?;
    var follows := !noAfter && !first && ref.id == last.id;
    var plain := e.visId.actor == [] || e.visId == e.id;
    var sameActor := !first && e.id.actor == last.id.actor;
    var text := e.value.Text?;
    [(if noAfter then 1 else 0) + (if follows then 2 else 0) + (if plain then 4 else 0)
     + (if sameActor then 8 else 0) + (if text then 16 else 0)]
    + EncInt(Wrap(e.id.counter - last.id.counter))
    + (if sameActor then [] else NameAt(c.actors, e.id.actor))
    + (if noAfter || follows then [] else DistanceBytes(ref.id, e.id.counter, c))
    + (if plain then [] else DistanceBytes(e.visId, e.id.counter, c))
    + (if text then TextBytes(e.value.str) else ValueBytes(e.value, c))
  }

  lemma ElemFlagsAre(prev: seq<Elem>, e: Elem)
    ensures FlagByte(ElemFlags(prev, e))
         == (if !ParseRef(e.after).Ref? then 1 else 0) + (if AfterPrevious(prev, e) then 2 else 0)
            + (if DecidedByInsert(e) then 4 else 0) + (if SameActor(prev, e) then 8 else 0) + (if e.value.Text? then 16 else 0)
  {
    FiveFlags(!ParseRef(e.after).Ref?, AfterPrevious(prev, e), DecidedByInsert(e), SameActor(prev, e), e.value.Text?);
  }

  lemma FlagsStep(bit: bool, rest: seq<bool>)
    ensures FlagSum([bit] + rest) == (if bit then 1 else 0) + 2 * FlagSum(rest)
  {
    assert ([bit] + rest)[1..] == rest;
  }

  lemma FiveFlags(a: bool, b: bool, c: bool, d: bool, e: bool)
    ensures FlagByte([a, b, c, d, e])
         == (if a then 1 else 0) + (if b then 2 else 0) + (if c then 4 else 0) + (if d then 8 else 0) + (if e then 16 else 0)
  {
    FlagsStep(e, []);
    FlagsStep(d, [e]);
    FlagsStep(c, [d, e]);
    FlagsStep(b, [c, d, e]);
    FlagsStep(a, [b, c, d, e]);
    hide FlagSum;
    assert [e] + [] == [e] && [d] + [e] == [d, e] && [c] + [d, e] == [c, d, e];
    assert [b] + [c, d, e] == [b, c, d, e] && [a] + [b, c, d, e] == [a, b, c, d, e];
    assert FlagSum([]) == 0 by { NoFlags(); }
  }

  lemma NoFlags()
    ensures FlagSum([]) == 0
  {
  }

  lemma ElemIs(prev: seq<Elem>, e: Elem, t: Tables, c: Tables)
    requires Extends(c, EncElem(prev, e, t).1)
    ensures EncElem(prev, e, t).0 == ElemBytes(prev, e, c)
  {
    hide EncUint, EncInt, LittleEndian, NameAt, EncActor, EncIDRef, EncValue, ValueBytes, DistanceBytes, Wrap, Delta, ParseRef,
         FlagByte, ElemFlags;
    var (a, t1) := EncOwnActor(prev, e, t);
    var (b, t2) := EncAfter(prev, e, t1);
    var (v, t3) := EncVisId(e, t2);
    ElemFlagsAre(prev, e);
    DeltaIs(e.id.counter, PreviousCounter(prev));
    if !SameActor(prev, e) { ActorIs(e.id.actor, t, c); }
    if ParseRef(e.after).Ref? && !AfterPrevious(prev, e) { DistanceIs(ParseRef(e.after).id, e.id.counter, t1, c); }
    if !DecidedByInsert(e) { DistanceIs(e.visId, e.id.counter, t2, c); }
    if !e.value.Text? { ValueIs(e.value, t3, c); }
  }

  // ---- lists ----

  /** The bytes of an item may depend on the items before it. */
  type Layout<!T> = (seq<T>, T) -> Str

  function Joined<T>(items: seq<T>, layout: Layout<T>): Str {
    if items == [] then []
    else
      var before := items[..|items| - 1];
      Joined(before, layout) + layout(before, items[|items| - 1])
  }

  /** A count and the items. */
  function ListBytes<T>(items: seq<T>, layout: Layout<T>): Str {
    EncUint(|items|) + Joined(items, layout)
  }

  /** Item i is written as the layout says, whatever the tables become. */
  ghost predicate ItemIs<T(!new)>(items: seq<T>, i: nat, t: Tables, enc: Encoder<T>, layout: Layout<T>, c: Tables)
    requires i < |items|
  {
    Extends(c, ItemBytes(items, i, t, enc).1) ==> ItemBytes(items, i, t, enc).0 == layout(items[..i], items[i])
  }

  lemma {:induction false} ItemsAre<T(!new)>(items: seq<T>, i: nat, t: Tables, enc: Encoder<T>, layout: Layout<T>, c: Tables)
    requires i <= |items| && Sane(enc) && Extends(c, EncItems(items[..i], t, enc).1)
    requires forall k :: 0 <= k < |items| ==> ItemIs(items, k, t, enc, layout, c)
    ensures EncItems(items[..i], t, enc).0 == Joined(items[..i], layout)
    decreases i
  {
    if i > 0 {
      var k := i - 1;
      ItemsStep(items, k, t, enc);
      assert Extends(ItemBytes(items, k, t, enc).1, EncItems(items[..k], t, enc).1);
      ItemsAre(items, k, t, enc, layout, c);
      assert items[..i][..k] == items[..k];
      assert ItemIs(items, k, t, enc, layout, c);
    }
  }

  lemma ListIs<T(!new)>(items: seq<T>, t: Tables, enc: Encoder<T>, layout: Layout<T>, c: Tables)
    requires Sane(enc) && Extends(c, EncList(items, t, enc).1)
    requires forall k :: 0 <= k < |items| ==> ItemIs(items, k, t, enc, layout, c)
    ensures EncList(items, t, enc).0 == ListBytes(items, layout)
  {
    assert items[..|items|] == items;
    ItemsAre(items, |items|, t, enc, layout, c);
  }

  // ---- the element column ----

  function RunBytes(): Layout<nat> {
    (prev, run) => EncUint(run)
  }

  function ElemLayout(c: Tables): Layout<Elem> {
    (prev, e) => ElemBytes(prev, e, c)
  }

  /** The elements, and behind them the lengths of visible and deleted runs in turn. */
  function ElemsBytes(elems: seq<Elem>, runs: seq<nat>, c: Tables): Str {
    ListBytes(elems, ElemLayout(c)) + ListBytes(runs, RunBytes())
  }

  /** The runs are those that spread out to the tombstones, none of them empty but
      perhaps the first. */
  ghost predicate IsRuns(runs: seq<nat>, elems: seq<Elem>) {
    Spread(runs) == Tombs(elems) && forall i :: 0 < i < |runs| ==> runs[i] > 0
  }

  lemma {:induction false} ScanPositive(elems: seq<Elem>)
    ensures var st := ScanElems(elems);
            && (forall i :: 0 < i < |st.runs| ==> st.runs[i] > 0) && (st.runs != [] ==> st.count > 0)
  {
    if elems != [] {
      ScanPositive(elems[..|elems| - 1]);
    }
  }

  lemma RunsAre(elems: seq<Elem>)
    ensures IsRuns(TombRuns(elems), elems)
  {
    RunsMeanTombstones(elems);
    ScanPositive(elems);
    hide Spread, ScanElems;
  }

  lemma ElemsAre(elems: seq<Elem>, t: Tables, c: Tables)
    requires Extends(c, EncElems(elems, t).1)
    ensures EncElems(elems, t).0 == ElemsBytes(elems, TombRuns(elems), c)
  {
    hide EncElem, ElemBytes, EncItems, TombRuns;
    SaneWriters();
    forall k | 0 <= k < |elems| ensures ItemIs(elems, k, t, ElemWriter(), ElemLayout(c), c) {
      var u := EncItems(elems[..k], t, ElemWriter()).1;
      if Extends(c, EncElem(elems[..k], elems[k], u).1) { ElemIs(elems[..k], elems[k], u, c); }
    }
    hide Sane, ItemIs;
    ListIs(elems, t, ElemWriter(), ElemLayout(c), c);
    var u := EncList(elems, t, ElemWriter()).1;
    RunListIs(TombRuns(elems), u);
  }

  lemma RunListIs(runs: seq<nat>, t: Tables)
    ensures EncList(runs, t, RunWriter()).0 == ListBytes(runs, RunBytes())
  {
    hide EncUint, EncItems;
    SaneWriters();
    var c := EncList(runs, t, RunWriter()).1;
    forall k | 0 <= k < |runs| ensures ItemIs(runs, k, t, RunWriter(), RunBytes(), c) {
    }
    hide Sane, ItemIs;
    ListIs(runs, t, RunWriter(), RunBytes(), c);
  }

  // ---- operations ----

  function ActionText(a: Action): Str {
    match a
    case Put => Ascii("put")
    case Delete => Ascii("delete")
    case Revive => Ascii("revive")
    case Increment => Ascii("increment")
    case Insert => Ascii("insert")
    case Splice => Ascii("splice")
    case Unknown(name) => name
  }

  lemma ActionIs(a: Action)
    ensures ActionName(a) == ActionText(a)
  {
  }

  /** A Prop or After text: a printed identity as a distance, anything else as a name. */
  function FieldBytes(text: Str, base: nat, c: Tables): Str {
    if text == [] then []
    else
      match ParseRef(text)
      case Ref(id) => if Print(id) == text then DistanceBytes(id, base, c) else NameAt(c.strings, text)
      case _ => NameAt(c.strings, text)
  }

  lemma FieldIs(text: Str, base: nat, t: Tables, c: Tables)
    requires Extends(c, EncText(text, base, t).1)
    ensures EncText(text, base, t).0 == FieldBytes(text, base, c)
  {
    hide ParseRef, Print, EncIDRef, DistanceBytes, EncString, NameAt;
    if text != [] {
      if IsRef(text) { DistanceIs(ParseRef(text).id, base, t, c); } else { StringIs(text, t, c); }
    }
  }

  function DeleteRunLayout(c: Tables): Layout<Run> {
    (prev: seq<Run>, run: Run) => NameAt(c.actors, run.actor) + EncUint(run.start) + EncUint(run.count)
  }

  lemma DeletesAre(runs: seq<Run>, t: Tables, c: Tables)
    requires Extends(c, EncDeletes(runs, t).1)
    ensures EncDeletes(runs, t).0 == if runs == [] then [] else ListBytes(runs, DeleteRunLayout(c))
  {
    hide EncUint, EncItems, EncActor, NameAt;
    SaneDeletes();
    forall k | 0 <= k < |runs| ensures ItemIs(runs, k, t, DeleteRunWriter(), DeleteRunLayout(c), c) {
      var u := EncItems(runs[..k], t, DeleteRunWriter()).1;
      if Extends(c, EncDeleteRun(runs[k], u).1) { ActorIs(runs[k].actor, u, c); }
    }
    hide Sane, ItemIs;
    if runs != [] { ListIs(runs, t, DeleteRunWriter(), DeleteRunLayout(c), c); }
  }

  /** An operation: flags, identity, action, object, and the fields the flags announce. */
  function OpBytes(op: Op, c: Tables): Str {
    var hasProp, hasAfter, hasRun := op.prop != [], op.after != [], op.run != [];
    var hasDeletes, hasValue := op.deleteRuns != [], op.value != NoValue;
    var propIsRef := hasProp && IsRef(op.prop);
    var afterIsRef := hasAfter && IsRef(op.after);
    [(if hasProp then 1 else 0) + (if hasAfter then 2 else 0) + (if hasRun then 4 else 0) + (if hasDeletes then 8 else 0)
     + (if hasValue then 16 else 0) + (if propIsRef then 32 else 0) + (if afterIsRef then 64 else 0)]
    + NameAt(c.actors, op.id.actor) + EncUint(op.id.counter)
    + NameAt(c.strings, ActionText(op.action)) + NameAt(c.objects, op.obj)
    + FieldBytes(op.prop, op.id.counter, c)
    + (if hasValue then ValueBytes(op.value, c) else [])
    + FieldBytes(op.after, op.id.counter, c)
    + (if hasRun then TextBytes(op.run) else [])
    + (if hasDeletes then ListBytes(op.deleteRuns, DeleteRunLayout(c)) else [])
  }

  lemma SevenFlags(a: bool, b: bool, c: bool, d: bool, e: bool, f: bool, g: bool)
    ensures FlagByte([a, b, c, d, e, f, g])
         == (if a then 1 else 0) + (if b then 2 else 0) + (if c then 4 else 0) + (if d then 8 else 0) + (if e then 16 else 0)
            + (if f then 32 else 0) + (if g then 64 else 0)
  {
    FiveFlags(c, d, e, f, g);
    FlagsStep(b, [c, d, e, f, g]);
    FlagsStep(a, [b, c, d, e, f, g]);
    hide FlagSum;
    assert [b] + [c, d, e, f, g] == [b, c, d, e, f, g] && [a] + [b, c, d, e, f, g] == [a, b, c, d, e, f, g];
  }

  lemma OpHeadIs(op: Op, t: Tables, c: Tables)
    requires Extends(c, EncOpHead(op, t).1)
    ensures EncOpHead(op, t).0 == NameAt(c.actors, op.id.actor) + EncUint(op.id.counter)
                                  + NameAt(c.strings, ActionText(op.action)) + NameAt(c.objects, op.obj)
  {
    ActionIs(op.action);
    hide EncUint, EncActor, EncString, EncObjectID, NameAt, ActionName, ActionText;
    var t1 := EncActor(op.id.actor, t).1;
    var t2 := EncString(ActionName(op.action), t1).1;
    ActorIs(op.id.actor, t, c);
    StringIs(ActionName(op.action), t1, c);
    ObjectIDIs(op.obj, t2, c);
  }

  lemma OpTailIs(op: Op, t: Tables, c: Tables)
    requires Extends(c, EncOpTail(op, t).1)
    ensures EncOpTail(op, t).0
         == FieldBytes(op.prop, op.id.counter, c) + (if op.value != NoValue then ValueBytes(op.value, c) else [])
            + FieldBytes(op.after, op.id.counter, c) + (if op.run != [] then TextBytes(op.run) else [])
            + (if op.deleteRuns != [] then ListBytes(op.deleteRuns, DeleteRunLayout(c)) else [])
  {
    hide EncUint, EncText, FieldBytes, EncValue, ValueBytes, EncDeletes, ListBytes;
    DeletesGrow(op.deleteRuns, EncText(op.after, op.id.counter, EncOpValue(op.value, EncText(op.prop, op.id.counter, t).1).1).1);
    var t1 := EncText(op.prop, op.id.counter, t).1;
    var t2 := EncOpValue(op.value, t1).1;
    var t3 := EncText(op.after, op.id.counter, t2).1;
    FieldIs(op.prop, op.id.counter, t, c);
    if op.value != NoValue { ValueIs(op.value, t1, c); }
    FieldIs(op.after, op.id.counter, t2, c);
    DeletesAre(op.deleteRuns, t3, c);
    FiveParts(EncText(op.prop, op.id.counter, t).0, EncOpValue(op.value, t1).0, EncText(op.after, op.id.counter, t2).0,
              EncOpRun(op.run), EncDeletes(op.deleteRuns, t3).0);
  }

  lemma FiveParts(a: Str, b: Str, c: Str, d: Str, e: Str)
    ensures a + (b + (c + (d + e))) == a + b + c + d + e
  {
  }

  lemma OpFlagsAre(op: Op)
    ensures FlagByte(OpFlags(op))
         == (if op.prop != [] then 1 else 0) + (if op.after != [] then 2 else 0) + (if op.run != [] then 4 else 0)
            + (if op.deleteRuns != [] then 8 else 0) + (if op.value != NoValue then 16 else 0)
            + (if op.prop != [] && IsRef(op.prop) then 32 else 0) + (if op.after != [] && IsRef(op.after) then 64 else 0)
  {
    SevenFlags(op.prop != [], op.after != [], op.run != [], op.deleteRuns != [], op.value != NoValue,
               op.prop != [] && IsRef(op.prop), op.after != [] && IsRef(op.after));
    hide FlagByte, IsRef;
  }

  lemma EncOpParts(op: Op, t: Tables)
    ensures EncOp(op, t).0 == [FlagByte(OpFlags(op))] + (EncOpHead(op, t).0 + EncOpTail(op, EncOpHead(op, t).1).0)
    ensures EncOp(op, t).1 == EncOpTail(op, EncOpHead(op, t).1).1
  {
    hide EncOpHead, EncOpTail, FlagByte, OpFlags;
  }

  /** Flags, the four parts of the head, the five parts of the tail. */
  lemma TenParts(f: Str, a: Str, b: Str, c: Str, d: Str, e: Str, g: Str, h: Str, i: Str, j: Str)
    ensures f + (a + b + c + d + (e + g + h + i + j)) == f + a + b + c + d + e + g + h + i + j
  {
  }

  lemma OpSpelled(op: Op, c: Tables, f: Byte)
    requires f == (if op.prop != [] then 1 else 0) + (if op.after != [] then 2 else 0) + (if op.run != [] then 4 else 0)
                  + (if op.deleteRuns != [] then 8 else 0) + (if op.value != NoValue then 16 else 0)
                  + (if op.prop != [] && IsRef(op.prop) then 32 else 0) + (if op.after != [] && IsRef(op.after) then 64 else 0)
    ensures OpBytes(op, c)
         == [f] + NameAt(c.actors, op.id.actor) + EncUint(op.id.counter)
            + NameAt(c.strings, ActionText(op.action)) + NameAt(c.objects, op.obj)
            + FieldBytes(op.prop, op.id.counter, c) + (if op.value != NoValue then ValueBytes(op.value, c) else [])
            + FieldBytes(op.after, op.id.counter, c) + (if op.run != [] then TextBytes(op.run) else [])
            + (if op.deleteRuns != [] then ListBytes(op.deleteRuns, DeleteRunLayout(c)) else [])
  {
    hide EncUint, NameAt, FieldBytes, ValueBytes, ListBytes, TextBytes, IsRef, ActionText, DeleteRunLayout;
  }

  lemma OpIs(op: Op, t: Tables, c: Tables)
    requires Extends(c, EncOp(op, t).1)
    ensures EncOp(op, t).0 == OpBytes(op, c)
  {
    hide *;
    var t1 := EncOpHead(op, t).1;
    EncOpParts(op, t);
    ExtendsOn(c, EncOpTail(op, t1).1, t1);
    OpHeadIs(op, t, c);
    OpTailIs(op, t1, c);
    OpFlagsAre(op);
    OpSpelled(op, c, FlagByte(OpFlags(op)));
    TenParts([FlagByte(OpFlags(op))], NameAt(c.actors, op.id.actor), EncUint(op.id.counter),
             NameAt(c.strings, ActionText(op.action)), NameAt(c.objects, op.obj), FieldBytes(op.prop, op.id.counter, c),
             if op.value != NoValue then ValueBytes(op.value, c) else [], FieldBytes(op.after, op.id.counter, c),
             if op.run != [] then TextBytes(op.run) else [],
             if op.deleteRuns != [] then ListBytes(op.deleteRuns, DeleteRunLayout(c)) else []);
  }

  function OpLayout(c: Tables): Layout<Op> {
    (prev, op) => OpBytes(op, c)
  }

  lemma OpsAre(ops: seq<Op>, t: Tables, c: Tables)
    requires Extends(c, EncList(ops, t, OpWriter()).1)
    ensures EncList(ops, t, OpWriter()).0 == ListBytes(ops, OpLayout(c))
  {
    hide EncOp, OpBytes, EncItems;
    SaneOps();
    forall k | 0 <= k < |ops| ensures ItemIs(ops, k, t, OpWriter(), OpLayout(c), c) {
      var u := EncItems(ops[..k], t, OpWriter()).1;
      if Extends(c, EncOp(ops[k], u).1) { OpIs(ops[k], u, c); }
    }
    hide Sane, ItemIs;
    ListIs(ops, t, OpWriter(), OpLayout(c), c);
  }

  // ---- changes ----

  /** A dependency: one more than its last place among the changes when that is
      earlier, else a zero and the hash. */
  function DepBytes(dep: Hash, k: nat, changes: seq<Change>): Str {
    var places := HashPlaces(changes);
    if dep in places && places[dep] < k then EncUint(places[dep] + 1) else [0] + dep
  }

  /** The place of a hash is the last one. */
  lemma {:induction false} PlacesAreLast(changes: seq<Change>, k: nat)
    requires k < |changes|
    ensures changes[k].hash in HashPlaces(changes) && HashPlaces(changes)[changes[k].hash] >= k
    decreases |changes|
  {
    if k < |changes| - 1 { PlacesAreLast(changes[..|changes| - 1], k); }
  }

  function DepLayout(k: nat, changes: seq<Change>): Layout<Hash> {
    (prev: seq<Hash>, dep: Hash) => DepBytes(dep, k, changes)
  }

  lemma DepsAre(deps: seq<Hash>, k: nat, changes: seq<Change>, t: Tables, c: Tables)
    requires Extends(c, EncList(deps, t, DepWriter(k, HashPlaces(changes))).1)
    ensures EncList(deps, t, DepWriter(k, HashPlaces(changes))).0 == ListBytes(deps, DepLayout(k, changes))
  {
    var places := HashPlaces(changes);
    ZeroByte();
    hide EncUint, EncItems, HashPlaces;
    SaneDeps(k, places);
    forall i | 0 <= i < |deps| ensures ItemIs(deps, i, t, DepWriter(k, places), DepLayout(k, changes), c) {
    }
    hide Sane, ItemIs;
    ListIs(deps, t, DepWriter(k, places), DepLayout(k, changes), c);
  }

  lemma ZeroByte()
    ensures EncUint(0) == [0]
  {
  }

  function MessageBytes(ch: Change, c: Tables): Str {
    if ch.message != [] then NameAt(c.strings, ch.message) else []
  }

  function GroupBytes(ch: Change, c: Tables): Str {
    if ch.group == ch.actor + [58] + Decimal(ch.seqNo) then [] else NameAt(c.strings, ch.group)
  }

  /** Change k: flags, actor, numbers, the time as distance from the change before,
      message and group as the flags announce them, dependencies, operations. */
  function ChangeBytes(changes: seq<Change>, k: nat, c: Tables): Str
    requires k < |changes|
  {
    var ch := changes[k];
    var before := if k == 0 then 0 else changes[k - 1].time.seconds;
    var ownGroup := ch.group == ch.actor + [58] + Decimal(ch.seqNo);
    [(if ownGroup then 1 else 0) + (if ch.message != [] then 2 else 0)]
    + NameAt(c.actors, ch.actor) + EncUint(ch.seqNo) + EncUint(ch.startOp)
    + EncInt(Wrap(ch.time.seconds - before)) + EncUint(ch.time.nanos)
    + MessageBytes(ch, c) + GroupBytes(ch, c)
    + ListBytes(ch.deps, DepLayout(k, changes))
    + ListBytes(ch.ops, OpLayout(c))
  }

  lemma TwoFlags(a: bool, b: bool)
    ensures FlagByte([a, b]) == (if a then 1 else 0) + (if b then 2 else 0)
  {
    FlagsStep(b, []);
    FlagsStep(a, [b]);
    NoFlags();
    hide FlagSum;
    assert [b] + [] == [b] && [a] + [b] == [a, b];
  }

  lemma LabelsAre(ch: Change, t: Tables, c: Tables)
    requires Extends(c, EncLabels(ch, t).1)
    ensures EncLabels(ch, t).0 == MessageBytes(ch, c) + GroupBytes(ch, c)
  {
    hide EncString, NameAt, Decimal;
    var t1 := if ch.message != [] then EncString(ch.message, t).1 else t;
    if ch.message != [] { StringIs(ch.message, t, c); }
    if ch.group != DefaultGroup(ch.actor, ch.seqNo) { StringIs(ch.group, t1, c); }
  }

  lemma WorkIs(prev: seq<Change>, ch: Change, changes: seq<Change>, t: Tables, c: Tables)
    requires Extends(c, EncWork(prev, ch, HashPlaces(changes), t).1)
    ensures EncWork(prev, ch, HashPlaces(changes), t).0
         == ListBytes(ch.deps, DepLayout(|prev|, changes)) + ListBytes(ch.ops, OpLayout(c))
  {
    var places := HashPlaces(changes);
    var (d, t1) := EncList(ch.deps, t, DepWriter(|prev|, places));
    var (o, t2) := EncList(ch.ops, t1, OpWriter());
    assert EncWork(prev, ch, places, t) == (d + o, t2);
    SaneDeps(|prev|, places);
    SaneOps();
    hide *;
    ListLength(ch.ops, t1, OpWriter());
    ExtendsOn(c, t2, t1);
    DepsAre(ch.deps, |prev|, changes, t, c);
    OpsAre(ch.ops, t1, c);
  }

  /** The bytes of a change from its parts. */
  function ChangeParts(f: Byte, a: Str, n: Str, o: Str, s: Str, x: Str, m: Str, g: Str, d: Str, w: Str): Str {
    [f] + a + n + o + s + x + m + g + d + w
  }

  lemma ChangePartsAre(e: Str, st: Str, l: Str, v: Str, f: Byte, a: Str, n: Str, o: Str, s: Str, x: Str, m: Str, g: Str,
                       d: Str, w: Str)
    requires e == [f] + (a + (st + (l + v))) && st == n + (o + (s + x)) && l == m + g && v == d + w
    ensures e == ChangeParts(f, a, n, o, s, x, m, g, d, w)
  {
  }

  lemma PreviousIs(changes: seq<Change>, k: nat)
    requires k < |changes|
    ensures PreviousSeconds(changes[..k]) == if k == 0 then 0 else changes[k - 1].time.seconds
  {
  }

  lemma ChangeFlagsAre(ch: Change)
    ensures FlagByte(ChangeFlags(ch))
         == (if ch.group == DefaultGroup(ch.actor, ch.seqNo) then 1 else 0) + (if ch.message != [] then 2 else 0)
  {
    TwoFlags(ch.group == DefaultGroup(ch.actor, ch.seqNo), ch.message != []);
    hide FlagByte, DefaultGroup;
  }

  lemma EncChangeParts(prev: seq<Change>, ch: Change, places: map<Hash, nat>, t: Tables)
    ensures var t1 := EncActor(ch.actor, t).1; var t2 := EncLabels(ch, t1).1;
            && EncChange(prev, ch, places, t).0
                 == [FlagByte(ChangeFlags(ch))]
                    + (EncActor(ch.actor, t).0 + (EncStamp(prev, ch) + (EncLabels(ch, t1).0 + EncWork(prev, ch, places, t2).0)))
            && EncChange(prev, ch, places, t).1 == EncWork(prev, ch, places, t2).1
  {
    hide EncUint, EncInt, EncActor, EncLabels, EncWork, EncStamp, FlagByte, ChangeFlags;
  }

  lemma ChangePieces(changes: seq<Change>, k: nat, t: Tables, c: Tables)
    requires k < |changes| && Extends(c, EncChange(changes[..k], changes[k], HashPlaces(changes), t).1)
    ensures var ch, prev := changes[k], changes[..k];
            var t1 := EncActor(ch.actor, t).1; var t2 := EncLabels(ch, t1).1;
            && EncActor(ch.actor, t).0 == NameAt(c.actors, ch.actor)
            && EncLabels(ch, t1).0 == MessageBytes(ch, c) + GroupBytes(ch, c)
            && EncWork(prev, ch, HashPlaces(changes), t2).0
                 == ListBytes(ch.deps, DepLayout(k, changes)) + ListBytes(ch.ops, OpLayout(c))
  {
    hide *;
    var ch, prev, places := changes[k], changes[..k], HashPlaces(changes);
    var t1 := EncActor(ch.actor, t).1;
    var t2 := EncLabels(ch, t1).1;
    EncChangeParts(prev, ch, places, t);
    ExtendsOn(c, EncWork(prev, ch, places, t2).1, t2);
    ExtendsOn(c, t2, t1);
    ActorIs(ch.actor, t, c);
    LabelsAre(ch, t1, c);
    WorkIs(prev, ch, changes, t2, c);
  }

  lemma ChangeIs(changes: seq<Change>, k: nat, t: Tables, c: Tables)
    requires k < |changes| && Extends(c, EncChange(changes[..k], changes[k], HashPlaces(changes), t).1)
    ensures EncChange(changes[..k], changes[k], HashPlaces(changes), t).0 == ChangeBytes(changes, k, c)
  {
    hide *;
    ChangePieces(changes, k, t, c);
    ChangeGlue(changes, k, t, c, HashPlaces(changes));
  }

  lemma ChangeGlue(changes: seq<Change>, k: nat, t: Tables, c: Tables, places: map<Hash, nat>)
    requires k < |changes|
    requires var ch, prev := changes[k], changes[..k];
             var t1 := EncActor(ch.actor, t).1; var t2 := EncLabels(ch, t1).1;
             && EncActor(ch.actor, t).0 == NameAt(c.actors, ch.actor)
             && EncLabels(ch, t1).0 == MessageBytes(ch, c) + GroupBytes(ch, c)
             && EncWork(prev, ch, places, t2).0 == ListBytes(ch.deps, DepLayout(k, changes)) + ListBytes(ch.ops, OpLayout(c))
    ensures EncChange(changes[..k], changes[k], places, t).0 == ChangeBytes(changes, k, c)
  {
    hide *;
    var ch, prev := changes[k], changes[..k];
    var t1 := EncActor(ch.actor, t).1;
    EncChangeParts(prev, ch, places, t);
    StampIs(changes, k);
    ChangeFlagsAre(ch);
    var s := EncInt(Wrap(ch.time.seconds - if k == 0 then 0 else changes[k - 1].time.seconds));
    var d, p := ListBytes(ch.deps, DepLayout(k, changes)), ListBytes(ch.ops, OpLayout(c));
    ChangeSpelled(changes, k, c, FlagByte(ChangeFlags(ch)), s, d, p);
    ChangePartsAre(EncChange(prev, ch, places, t).0, EncStamp(prev, ch), EncLabels(ch, t1).0,
                   EncWork(prev, ch, places, EncLabels(ch, t1).1).0, FlagByte(ChangeFlags(ch)), EncActor(ch.actor, t).0,
                   EncUint(ch.seqNo), EncUint(ch.startOp), s, EncUint(ch.time.nanos), MessageBytes(ch, c), GroupBytes(ch, c), d, p);
  }

  lemma StampIs(changes: seq<Change>, k: nat)
    requires k < |changes|
    ensures var ch := changes[k];
            EncStamp(changes[..k], ch)
              == EncUint(ch.seqNo) + (EncUint(ch.startOp)
                 + (EncInt(Wrap(ch.time.seconds - if k == 0 then 0 else changes[k - 1].time.seconds)) + EncUint(ch.time.nanos)))
  {
    PreviousIs(changes, k);
    hide EncUint, EncInt, Wrap, PreviousSeconds;
  }

  lemma ChangeSpelled(changes: seq<Change>, k: nat, c: Tables, f: Byte, s: Str, d: Str, p: Str)
    requires k < |changes|
    requires var ch := changes[k];
             && f == (if ch.group == DefaultGroup(ch.actor, ch.seqNo) then 1 else 0) + (if ch.message != [] then 2 else 0)
             && s == EncInt(Wrap(ch.time.seconds - if k == 0 then 0 else changes[k - 1].time.seconds))
             && d == ListBytes(ch.deps, DepLayout(k, changes)) && p == ListBytes(ch.ops, OpLayout(c))
    ensures var ch := changes[k];
            ChangeBytes(changes, k, c)
              == ChangeParts(f, NameAt(c.actors, ch.actor), EncUint(ch.seqNo), EncUint(ch.startOp), s, EncUint(ch.time.nanos),
                             MessageBytes(ch, c), GroupBytes(ch, c), d, p)
  {
    hide EncUint, EncInt, NameAt, ListBytes, Wrap, DepLayout, OpLayout, Decimal, MessageBytes, GroupBytes;
  }

  function ChangeLayout(changes: seq<Change>, c: Tables): Layout<Change> {
    (prev: seq<Change>, ch: Change) => if |prev| < |changes| then ChangeBytes(changes, |prev|, c) else []
  }

  lemma ChangesAre(changes: seq<Change>, t: Tables, c: Tables)
    requires Extends(c, EncList(changes, t, ChangeWriter(HashPlaces(changes))).1)
    ensures EncList(changes, t, ChangeWriter(HashPlaces(changes))).0 == ListBytes(changes, ChangeLayout(changes, c))
  {
    hide EncChange, ChangeBytes, EncItems, HashPlaces;
    var places := HashPlaces(changes);
    SaneChanges(places);
    forall k | 0 <= k < |changes| ensures ItemIs(changes, k, t, ChangeWriter(places), ChangeLayout(changes, c), c) {
      var u := EncItems(changes[..k], t, ChangeWriter(places)).1;
      if Extends(c, EncChange(changes[..k], changes[k], places, u).1) { ChangeIs(changes, k, u, c); }
    }
    hide Sane, ItemIs;
    ListIs(changes, t, ChangeWriter(places), ChangeLayout(changes, c), c);
  }

  // ---- objects ----

  /** A map entry: key, identity, tombstone, value. */
  function EntryLayout(c: Tables): Layout<Row<Entry>> {
    (prev: seq<Row<Entry>>, row: Row<Entry>) =>
      TextBytes(row.key) + NameAt(c.actors, row.value.id.actor) + EncUint(row.value.id.counter)
      + [if row.value.deleted then 1 else 0] + ValueBytes(row.value.value, c)
  }

  lemma EntryIs(row: Row<Entry>, t: Tables, c: Tables)
    requires Extends(c, EncEntry(row, t).1)
    ensures EncEntry(row, t).0
         == TextBytes(row.key) + NameAt(c.actors, row.value.id.actor) + EncUint(row.value.id.counter)
            + [if row.value.deleted then 1 else 0] + ValueBytes(row.value.value, c)
  {
    hide EncUint, EncActor, EncValue, NameAt, ValueBytes;
    var t1 := EncActor(row.value.id.actor, t).1;
    ActorIs(row.value.id.actor, t, c);
    ValueIs(row.value.value, t1, c);
  }

  function ObjectBytes(o: Object, c: Tables): Str {
    match o
    case MapObject(entries) => [0] + ListBytes(Rows(entries), EntryLayout(c))
    case SeqObject(false, elems) => [1] + ElemsBytes(elems, TombRuns(elems), c)
    case SeqObject(true, elems) => [2] + ElemsBytes(elems, TombRuns(elems), c)
  }

  lemma EntriesAre(rows: seq<Row<Entry>>, t: Tables, c: Tables)
    requires Extends(c, EncList(rows, t, EntryWriter()).1)
    ensures EncList(rows, t, EntryWriter()).0 == ListBytes(rows, EntryLayout(c))
  {
    hide EncEntry, EncItems, EncUint, NameAt, ValueBytes, TextBytes;
    SaneEntries();
    forall k | 0 <= k < |rows| ensures ItemIs(rows, k, t, EntryWriter(), EntryLayout(c), c) {
      var u := EncItems(rows[..k], t, EntryWriter()).1;
      if Extends(c, EncEntry(rows[k], u).1) { EntryIs(rows[k], u, c); }
    }
    hide Sane, ItemIs;
    ListIs(rows, t, EntryWriter(), EntryLayout(c), c);
  }

  lemma ObjectIs(o: Object, t: Tables, c: Tables)
    requires Extends(c, EncObject(o, t).1)
    ensures EncObject(o, t).0 == ObjectBytes(o, c)
  {
    hide EncList, EncElems, ListBytes, ElemsBytes, EntryLayout, EntryWriter, TombRuns;
    match o
    case MapObject(entries) => EntriesAre(Rows(entries), t, c);
    case SeqObject(_, elems) => ElemsAre(elems, t, c);
  }

  function ObjectLayout(c: Tables): Layout<Row<Object>> {
    (prev: seq<Row<Object>>, row: Row<Object>) => NameAt(c.objects, row.key) + ObjectBytes(row.value, c)
  }

  lemma ObjectsAre(rows: seq<Row<Object>>, t: Tables, c: Tables)
    requires Extends(c, EncList(rows, t, ObjectWriter()).1)
    ensures EncList(rows, t, ObjectWriter()).0 == ListBytes(rows, ObjectLayout(c))
  {
    hide EncObject, EncItems, EncObjectID, NameAt, ObjectBytes;
    SaneObjects();
    forall k | 0 <= k < |rows| ensures ItemIs(rows, k, t, ObjectWriter(), ObjectLayout(c), c) {
      var u := EncItems(rows[..k], t, ObjectWriter()).1;
      if Extends(c, EncObjectRow(rows[k], u).1) {
        ObjectGrows(rows[k].value, EncObjectID(rows[k].key, u).1);
        ObjectIDIs(rows[k].key, u, c);
        ObjectIs(rows[k].value, EncObjectID(rows[k].key, u).1, c);
      }
    }
    hide Sane, ItemIs;
    ListIs(rows, t, ObjectWriter(), ObjectLayout(c), c);
  }

  // ---- the document ----

  function NameLayout(): Layout<Str> {
    (prev: seq<Str>, name: Str) => TextBytes(name)
  }

  function HashLayout(): Layout<RawHash> {
    (prev: seq<RawHash>, h: RawHash) => h
  }

  lemma TableIs(list: seq<Str>)
    ensures EncTable(list) == ListBytes(list, NameLayout())
  {
    hide EncUint, EncItems;
    assert Sane(NameWriter());
    var c := EncList(list, NO_TABLES, NameWriter()).1;
    forall k | 0 <= k < |list| ensures ItemIs(list, k, NO_TABLES, NameWriter(), NameLayout(), c) {
    }
    hide Sane, ItemIs;
    ListIs(list, NO_TABLES, NameWriter(), NameLayout(), c);
  }

  lemma HeadsAre(heads: seq<RawHash>, t: Tables, c: Tables)
    requires Extends(c, EncList(heads, t, HashWriter()).1)
    ensures EncList(heads, t, HashWriter()).0 == ListBytes(heads, HashLayout())
  {
    hide EncUint, EncItems;
    assert Sane(HashWriter());
    forall k | 0 <= k < |heads| ensures ItemIs(heads, k, t, HashWriter(), HashLayout(), c) {
    }
    hide Sane, ItemIs;
    ListIs(heads, t, HashWriter(), HashLayout(), c);
  }

  /** A body: the own actor, two numbers, the heads as raw hashes, the objects in the
      order of their names, the changes. */
  function BodyBytes(d: Doc, c: Tables): Str
    requires HeadsFit(d)
  {
    NameAt(c.actors, d.actor) + EncUint(d.seqNo) + EncUint(d.maxOp)
    + ListBytes(RawHeads(d), HashLayout())
    + ListBytes(Rows(d.objects), ObjectLayout(c))
    + ListBytes(d.changes, ChangeLayout(d.changes, c))
  }

  lemma ContentIs(d: Doc, t: Tables, c: Tables)
    requires Extends(c, EncContent(d, t).1)
    ensures EncContent(d, t).0 == ListBytes(Rows(d.objects), ObjectLayout(c)) + ListBytes(d.changes, ChangeLayout(d.changes, c))
  {
    var places := HashPlaces(d.changes);
    var (o, t1) := EncList(Rows(d.objects), t, ObjectWriter());
    var (h, t2) := EncList(d.changes, t1, ChangeWriter(places));
    assert EncContent(d, t) == (o + h, t2);
    SaneObjects();
    SaneChanges(places);
    hide *;
    ListLength(d.changes, t1, ChangeWriter(places));
    ExtendsOn(c, t2, t1);
    ObjectsAre(Rows(d.objects), t, c);
    ChangesAre(d.changes, t1, c);
  }

  lemma BodyIs(d: Doc, t: Tables, c: Tables)
    requires HeadsFit(d) && Extends(c, EncBody(d, t).1)
    ensures EncBody(d, t).0 == BodyBytes(d, c)
  {
    hide EncActor, EncUint, EncList, EncContent, ListBytes, NameAt, HashLayout, ObjectLayout, ChangeLayout, HashWriter, Sane, Rows,
         Extends;
    var (a, t1) := EncActor(d.actor, t);
    var (h, t2) := EncList(RawHeads(d), t1, HashWriter());
    var (b, t3) := EncContent(d, t2);
    HashesKeep(RawHeads(d), t1);
    ExtendsOn(c, t3, t2);
    ExtendsOn(c, t2, t1);
    ActorIs(d.actor, t, c);
    HeadsAre(RawHeads(d), t1, c);
    ContentIs(d, t2, c);
    SixParts(a, EncUint(d.seqNo), EncUint(d.maxOp), h, ListBytes(Rows(d.objects), ObjectLayout(c)),
             ListBytes(d.changes, ChangeLayout(d.changes, c)));
  }

  lemma SixParts(a: Str, b: Str, c: Str, d: Str, e: Str, f: Str)
    ensures a + (b + (c + (d + (e + f)))) == a + b + c + d + e + f
  {
  }

  /** A snapshot: the version, the tables of actors, objects and other texts, the body. */
  function SnapshotBytes(d: Doc, c: Tables): Str
    requires HeadsFit(d)
  {
    [2] + ListBytes(c.actors, NameLayout()) + ListBytes(c.objects, NameLayout()) + ListBytes(c.strings, NameLayout())
    + BodyBytes(d, c)
  }

  /** Every document is written in this format, with some finished tables. */
  lemma SnapshotIs(d: Doc) returns (c: Tables)
    requires HeadsFit(d)
    ensures Encode(d) == SnapshotBytes(d, c)
  {
    hide EncBody, EncTable, ListBytes, BodyBytes, NameLayout;
    c := EncBody(d, NO_TABLES).1;
    assert Extends(c, c);
    BodyIs(d, NO_TABLES, c);
    TableIs(c.actors);
    TableIs(c.objects);
    TableIs(c.strings);
    FiveParts([VERSION], ListBytes(c.actors, NameLayout()), ListBytes(c.objects, NameLayout()),
              ListBytes(c.strings, NameLayout()), BodyBytes(d, c));
  }
}
