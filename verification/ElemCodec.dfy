/** The element column of crdt/snapshot.go: counters as wrapping differences,
    common cases as flag bits, tombstones as run lengths. */
module ElemCodec {
  import opened OpIds
  import opened Values
  import opened Varints
  import opened Interning
  import opened ValueCodec

  // ---- references ----

  /** An actor index and the distance of the counter from base. */
  function EncIDRef(id: OpID, base: nat, t: Tables): (r: (Str, Tables))
    ensures Extends(r.1, t)
  {
    var (s, u) := EncActor(id.actor, t);
    (s + EncInt(Delta(id.counter, base)), u)
  }

  /** readOpIDRef. */
  function DecIDRef(s: Str, base: nat, c: Ctx): Read<OpID> {
    var (actor, s1) :- DecActor(s, c);
    var (delta, s2) :- DecInt(s1);
    Got(OpID(AddDelta(base, delta), actor), s2)
  }

  lemma IDRefRoundTrip(id: OpID, base: nat, t: Tables, c: Ctx, rest: Str)
    requires id.counter < UINT64_LIMIT && base < UINT64_LIMIT
    requires c.OK() && Extends(c.tables, EncIDRef(id, base, t).1)
    ensures DecIDRef(EncIDRef(id, base, t).0 + rest, base, c) == Got(id, rest)
  {
    hide EncActor, DecActor, EncInt, DecInt, Delta, AddDelta;
    var d := EncInt(Delta(id.counter, base));
    Assoc(EncActor(id.actor, t).0, d, rest);
    ActorRoundTrip(id.actor, t, c, d + rest);
    DeltaRoundTrip(id.counter, base);
    IntRoundTrip(Delta(id.counter, base), rest);
  }

  // ---- one element ----

  predicate SameActor(prev: seq<Elem>, e: Elem) {
    prev != [] && e.id.actor == prev[|prev| - 1].id.actor
  }

  predicate AfterPrevious(prev: seq<Elem>, e: Elem) {
    prev != [] && ParseRef(e.after) == Ref(prev[|prev| - 1].id)
  }

  predicate DecidedByInsert(e: Elem) {
    e.visId.actor == [] || e.visId == e.id
  }

  function ElemFlags(prev: seq<Elem>, e: Elem): (bits: seq<bool>)
    ensures |bits| == 5
  {
    [!ParseRef(e.after).Ref?, AfterPrevious(prev, e), DecidedByInsert(e), SameActor(prev, e), e.value.Text?]
  }

  function PreviousCounter(prev: seq<Elem>): nat {
    if prev == [] then 0 else prev[|prev| - 1].id.counter
  }

  function EncOwnActor(prev: seq<Elem>, e: Elem, t: Tables): (r: (Str, Tables))
    ensures Extends(r.1, t)
  {
    if SameActor(prev, e) then ([], t) else EncActor(e.id.actor, t)
  }

  function EncAfter(prev: seq<Elem>, e: Elem, t: Tables): (r: (Str, Tables))
    ensures Extends(r.1, t)
  {
    if !ParseRef(e.after).Ref? || AfterPrevious(prev, e) then ([], t)
    else EncIDRef(ParseRef(e.after).id, e.id.counter, t)
  }

  function EncVisId(e: Elem, t: Tables): (r: (Str, Tables))
    ensures Extends(r.1, t)
  {
    if DecidedByInsert(e) then ([], t) else EncIDRef(e.visId, e.id.counter, t)
  }

  function EncElemValue(v: Value, t: Tables): (r: (Str, Tables))
    ensures Extends(r.1, t)
  {
    if v.Text? then (EncStr(v.str), t) else EncValue(v, t)
  }

  /** The loop body of writeElems. */
  function EncElem(prev: seq<Elem>, e: Elem, t: Tables): (r: (Str, Tables))
    ensures Extends(r.1, t) && r.0 != []
  {
    var (a, t1) := EncOwnActor(prev, e, t);
    var (b, t2) := EncAfter(prev, e, t1);
    var (v, t3) := EncVisId(e, t2);
    var (x, t4) := EncElemValue(e.value, t3);
    ([FlagByte(ElemFlags(prev, e))] + (EncInt(Delta(e.id.counter, PreviousCounter(prev))) + (a + (b + (v + x)))), t4)
  }

  function DecOwnActor(flags: Byte, prev: seq<Elem>, s: Str, c: Ctx): Read<Str> {
    if !Bit(flags, 3) then DecActor(s, c)
    else if prev == [] then Bad
    else Got(prev[|prev| - 1].id.actor, s)
  }

  function DecAfter(flags: Byte, prev: seq<Elem>, counter: nat, s: Str, c: Ctx): Read<Str> {
    if Bit(flags, 0) then Got([], s)
    else if Bit(flags, 1) then
      if prev == [] then Bad else Got(Print(prev[|prev| - 1].id), s)
    else
      var (id, r) :- DecIDRef(s, counter, c);
      Got(Print(id), r)
  }

  function DecVisId(flags: Byte, id: OpID, s: Str, c: Ctx): Read<OpID> {
    if Bit(flags, 2) then Got(id, s) else DecIDRef(s, id.counter, c)
  }

  function DecElemValue(flags: Byte, s: Str, c: Ctx): Read<Value> {
    if Bit(flags, 4) then
      var (text, r) :- DecStr(s);
      Got(Text(text), r)
    else DecValue(s, c)
  }

  /** The loop body of readElems; tombstones follow later. */
  function DecElem(prev: seq<Elem>, s: Str, c: Ctx): Read<Elem> {
    var (flags, s1) :- DecByte(s);
    var (delta, s2) :- DecInt(s1);
    var counter := AddDelta(PreviousCounter(prev), delta);
    var (actor, s3) :- DecOwnActor(flags, prev, s2, c);
    var id := OpID(counter, actor);
    var (after, s4) :- DecAfter(flags, prev, counter, s3, c);
    var (visId, s5) :- DecVisId(flags, id, s4, c);
    var (value, s6) :- DecElemValue(flags, s5, c);
    Got(Elem(id, after, value, false, visId), s6)
  }

  predicate ElemFits(e: Elem) {
    e.id.counter < UINT64_LIMIT && e.visId.counter < UINT64_LIMIT && ValueFits(e.value)
  }

  /** What a snapshot keeps of an element: its reference in the form of an
      identity, the identity that decided its visibility, a null for no value. */
  function StoredElem(e: Elem): Elem {
    Elem(e.id, if ParseRef(e.after).Ref? then Print(ParseRef(e.after).id) else [], Stored(e.value), e.deleted,
         if e.visId.actor == [] then e.id else e.visId)
  }

  function StoredElems(elems: seq<Elem>): (r: seq<Elem>)
    ensures |r| == |elems| && forall i :: 0 <= i < |r| ==> r[i] == StoredElem(elems[i])
  {
    seq(|elems|, i requires 0 <= i < |elems| => StoredElem(elems[i]))
  }

  /** The same before the tombstones are read. */
  function Untombed(elems: seq<Elem>): (r: seq<Elem>)
    ensures |r| == |elems| && forall i :: 0 <= i < |r| ==> r[i] == StoredElem(elems[i]).(deleted := false)
  {
    seq(|elems|, i requires 0 <= i < |elems| => StoredElem(elems[i]).(deleted := false))
  }

  lemma OwnActorRoundTrip(prev: seq<Elem>, out: seq<Elem>, e: Elem, t: Tables, c: Ctx, rest: Str)
    requires c.OK() && Extends(c.tables, EncOwnActor(prev, e, t).1) && out == Untombed(prev)
    ensures DecOwnActor(FlagByte(ElemFlags(prev, e)), out, EncOwnActor(prev, e, t).0 + rest, c) == Got(e.id.actor, rest)
  {
    hide FlagByte, Bit, EncActor, DecActor, ParseRef;
    BitOfFlags(ElemFlags(prev, e), 3);
    if SameActor(prev, e) { NothingWritten(rest); } else { ActorRoundTrip(e.id.actor, t, c, rest); }
  }

  lemma NothingWritten(rest: Str)
    ensures [] + rest == rest
  {
  }

  lemma AfterRoundTrip(prev: seq<Elem>, out: seq<Elem>, e: Elem, t: Tables, c: Ctx, rest: Str)
    requires c.OK() && Extends(c.tables, EncAfter(prev, e, t).1) && out == Untombed(prev)
    requires e.id.counter < UINT64_LIMIT
    ensures DecAfter(FlagByte(ElemFlags(prev, e)), out, e.id.counter, EncAfter(prev, e, t).0 + rest, c)
         == Got(StoredElem(e).after, rest)
  {
    hide FlagByte, Bit, EncIDRef, DecIDRef, ParseRef, Print;
    BitOfFlags(ElemFlags(prev, e), 0);
    BitOfFlags(ElemFlags(prev, e), 1);
    NothingWritten(rest);
    if ParseRef(e.after).Ref? && !AfterPrevious(prev, e) {
      ParseRange(e.after);
      IDRefRoundTrip(ParseRef(e.after).id, e.id.counter, t, c, rest);
    }
  }

  lemma VisIdRoundTrip(prev: seq<Elem>, e: Elem, t: Tables, c: Ctx, rest: Str)
    requires c.OK() && Extends(c.tables, EncVisId(e, t).1) && ElemFits(e)
    ensures DecVisId(FlagByte(ElemFlags(prev, e)), e.id, EncVisId(e, t).0 + rest, c) == Got(StoredElem(e).visId, rest)
  {
    hide FlagByte, Bit, EncIDRef, DecIDRef, ParseRef, Print;
    BitOfFlags(ElemFlags(prev, e), 2);
    NothingWritten(rest);
    if !DecidedByInsert(e) { IDRefRoundTrip(e.visId, e.id.counter, t, c, rest); }
  }

  lemma ElemValueRoundTrip(prev: seq<Elem>, e: Elem, t: Tables, c: Ctx, rest: Str)
    requires c.OK() && Extends(c.tables, EncElemValue(e.value, t).1) && ElemFits(e)
    requires |EncElemValue(e.value, t).0 + rest| <= c.limit
    ensures DecElemValue(FlagByte(ElemFlags(prev, e)), EncElemValue(e.value, t).0 + rest, c) == Got(Stored(e.value), rest)
  {
    hide FlagByte, Bit, EncStr, DecStr, EncValue, DecValue, ParseRef;
    BitOfFlags(ElemFlags(prev, e), 4);
    if e.value.Text? { StrRoundTrip(e.value.str, rest); } else { ValueRoundTrip(e.value, t, c, rest); }
  }

  lemma SameCounter(prev: seq<Elem>)
    ensures PreviousCounter(Untombed(prev)) == PreviousCounter(prev)
  {
  }

  /** One element reads back behind the elements before it. */
  lemma ElemRoundTrip(prev: seq<Elem>, e: Elem, t: Tables, c: Ctx, rest: Str)
    requires c.OK() && Extends(c.tables, EncElem(prev, e, t).1) && ElemFits(e)
    requires forall k :: 0 <= k < |prev| ==> ElemFits(prev[k])
    requires |EncElem(prev, e, t).0 + rest| <= c.limit
    ensures DecElem(Untombed(prev), EncElem(prev, e, t).0 + rest, c) == Got(StoredElem(e).(deleted := false), rest)
  {
    hide FlagByte, ElemFlags, EncInt, DecInt, Delta, AddDelta, EncOwnActor, EncAfter, EncVisId, EncElemValue, DecByte,
         DecOwnActor, DecAfter, DecVisId, DecElemValue, DecElem, PreviousCounter, Untombed, Ctx.OK, ParseRef, Print, Stored;
    var (a, t1) := EncOwnActor(prev, e, t);
    var (b, t2) := EncAfter(prev, e, t1);
    var (v, t3) := EncVisId(e, t2);
    var (x, t4) := EncElemValue(e.value, t3);
    var n := EncInt(Delta(e.id.counter, PreviousCounter(prev)));
    var d := Delta(e.id.counter, PreviousCounter(prev));
    var out, f := Untombed(prev), FlagByte(ElemFlags(prev, e));
    var s1, s2 := n + (a + (b + (v + (x + rest)))), a + (b + (v + (x + rest)));
    CounterInRange(prev);
    DeltaRoundTrip(e.id.counter, PreviousCounter(prev));
    SameCounter(prev);
    ElemLayout(f, n, a, b, v, x, rest);
    IntRoundTrip(d, s2);
    OwnActorRoundTrip(prev, out, e, t, c, b + (v + (x + rest)));
    assert e.id.counter < UINT64_LIMIT;
    AfterRoundTrip(prev, out, e, t1, c, v + (x + rest));
    VisIdRoundTrip(prev, e, t2, c, x + rest);
    assert StoredElem(e) == Elem(e.id, StoredElem(e).after, Stored(e.value), e.deleted, StoredElem(e).visId);
    assert EncElem(prev, e, t).0 == [f] + (n + (a + (b + (v + x))));
    hide *;
    ElemValueRoundTrip(prev, e, t3, c, rest);
    DecElemSteps(out, EncElem(prev, e, t).0 + rest, c, f, s1, d, s2, e.id, b + (v + (x + rest)), StoredElem(e).after,
                 v + (x + rest), StoredElem(e).visId, x + rest, Stored(e.value), rest);
  }

  lemma CounterInRange(prev: seq<Elem>)
    requires forall k :: 0 <= k < |prev| ==> ElemFits(prev[k])
    ensures PreviousCounter(prev) < UINT64_LIMIT
  {
  }

  lemma ElemLayout(f: Byte, n: Str, a: Str, b: Str, v: Str, x: Str, rest: Str)
    ensures DecByte([f] + (n + (a + (b + (v + x)))) + rest) == Got(f, n + (a + (b + (v + (x + rest)))))
    ensures |x + rest| <= |[f] + (n + (a + (b + (v + x)))) + rest|
  {
    CodeStep(f, n + (a + (b + (v + x))), rest);
    Assoc(n, a + (b + (v + x)), rest);
    Assoc(a, b + (v + x), rest);
    Assoc(b, v + x, rest);
    Assoc(v, x, rest);
  }

  /** A decoded element is what its steps decode. */
  lemma DecElemSteps(prev: seq<Elem>, s: Str, c: Ctx, flags: Byte, s1: Str, delta: int, s2: Str, id: OpID, s3: Str,
                     after: Str, s4: Str, visId: OpID, s5: Str, value: Value, s6: Str)
    requires DecByte(s) == Got(flags, s1) && DecInt(s1) == Got(delta, s2)
    requires AddDelta(PreviousCounter(prev), delta) == id.counter
    requires DecOwnActor(flags, prev, s2, c) == Got(id.actor, s3)
    requires DecAfter(flags, prev, id.counter, s3, c) == Got(after, s4)
    requires DecVisId(flags, id, s4, c) == Got(visId, s5)
    requires DecElemValue(flags, s5, c) == Got(value, s6)
    ensures DecElem(prev, s, c) == Got(Elem(id, after, value, false, visId), s6)
  {
    hide DecByte, DecInt, AddDelta, PreviousCounter, DecOwnActor, DecAfter, DecVisId, DecElemValue;
  }

  // ---- tombstones ----

  /** The runs that are complete, and the run that is not. */
  datatype Scan = Scan(runs: seq<nat>, current: bool, count: nat)

  function ScanStep(st: Scan, deleted: bool): Scan {
    if deleted == st.current then st.(count := st.count + 1) else Scan(st.runs + [st.count], !st.current, 1)
  }

  function ScanElems(elems: seq<Elem>): Scan {
    if elems == [] then Scan([], false, 0)
    else ScanStep(ScanElems(elems[..|elems| - 1]), elems[|elems| - 1].deleted)
  }

  function CloseScan(st: Scan): seq<nat> {
    if st.count > 0 then st.runs + [st.count] else st.runs
  }

  function TombRuns(elems: seq<Elem>): seq<nat> {
    CloseScan(ScanElems(elems))
  }

  function Repeat(b: bool, n: nat): (r: seq<bool>)
    ensures |r| == n && forall i :: 0 <= i < n ==> r[i] == b
  {
    seq(n, i => b)
  }

  /** What run lengths mean: visible and deleted runs in turn. */
  function Spread(runs: seq<nat>): seq<bool> {
    if runs == [] then []
    else Spread(runs[..|runs| - 1]) + Repeat(|runs| % 2 == 0, runs[|runs| - 1])
  }

  function Tombs(elems: seq<Elem>): (r: seq<bool>)
    ensures |r| == |elems| && forall i :: 0 <= i < |r| ==> r[i] == elems[i].deleted
  {
    seq(|elems|, i requires 0 <= i < |elems| => elems[i].deleted)
  }

  lemma SpreadMore(runs: seq<nat>, run: nat)
    ensures Spread(runs + [run]) == Spread(runs) + Repeat(|runs| % 2 == 1, run)
  {
    var all := runs + [run];
    SpreadLast(all);
    hide *;
    Parity(|runs|);
    assert all[..|all| - 1] == runs && |all| == |runs| + 1;
  }

  lemma Parity(n: nat)
    ensures ((n + 1) % 2 == 0) == (n % 2 == 1)
  {
  }

  lemma SpreadLast(runs: seq<nat>)
    requires runs != []
    ensures Spread(runs) == Spread(runs[..|runs| - 1]) + Repeat(|runs| % 2 == 0, runs[|runs| - 1])
  {
  }

  /** The scan so far stands for the tombstones so far. */
  ghost predicate Scanned(st: Scan, tombs: seq<bool>) {
    st.current == (|st.runs| % 2 == 1) && Spread(st.runs) + Repeat(st.current, st.count) == tombs
  }

  lemma ScanStepMeaning(st: Scan, tombs: seq<bool>, deleted: bool)
    requires Scanned(st, tombs)
    ensures Scanned(ScanStep(st, deleted), tombs + [deleted])
  {
    hide Spread;
    if deleted == st.current {
      assert Repeat(st.current, st.count + 1) == Repeat(st.current, st.count) + [deleted];
    } else {
      SpreadMore(st.runs, st.count);
      assert Repeat(deleted, 1) == [deleted];
    }
  }

  lemma {:induction false} ScanMeaning(elems: seq<Elem>)
    ensures Scanned(ScanElems(elems), Tombs(elems))
  {
    if elems == [] {
      assert Spread([]) + Repeat(false, 0) == Tombs(elems);
    } else {
      var before := elems[..|elems| - 1];
      ScanMeaning(before);
      ScanStepMeaning(ScanElems(before), Tombs(before), elems[|elems| - 1].deleted);
      hide Scanned;
      assert Tombs(elems) == Tombs(before) + [elems[|elems| - 1].deleted];
    }
  }

  /** The run lengths of a column say exactly which elements are deleted. */
  lemma RunsMeanTombstones(elems: seq<Elem>)
    ensures Spread(TombRuns(elems)) == Tombs(elems)
  {
    hide Spread, ScanElems;
    var st := ScanElems(elems);
    ScanMeaning(elems);
    SpreadMore(st.runs, st.count);
    assert st.count == 0 ==> Spread(st.runs) + Repeat(st.current, st.count) == Spread(st.runs);
  }

  function EncRun(prev: seq<nat>, run: nat, t: Tables): (Str, Tables) {
    (EncUint(run), t)
  }

  /** A run past the last element is refused. */
  function DecRun(prev: seq<nat>, s: Str, n: nat): Read<nat> {
    var (run, r) :- DecUint(s);
    if run > n - |Spread(prev)| then Bad else Got(run, r)
  }

  function Mark(elems: seq<Elem>, tombs: seq<bool>): (r: seq<Elem>)
    ensures |r| == |elems|
    ensures forall i :: 0 <= i < |r| ==>
              r[i] == if i < |tombs| && tombs[i] then elems[i].(deleted := true) else elems[i]
  {
    seq(|elems|, i requires 0 <= i < |elems| => if i < |tombs| && tombs[i] then elems[i].(deleted := true) else elems[i])
  }

  // ---- the column ----

  function ElemWriter(): Encoder<Elem> {
    (prev, e, t) => EncElem(prev, e, t)
  }

  function ElemReader(c: Ctx): Decoder<Elem> {
    (prev, s) => DecElem(prev, s, c)
  }

  function RunWriter(): Encoder<nat> {
    (prev, run, t) => EncRun(prev, run, t)
  }

  function RunReader(n: nat): Decoder<nat> {
    (prev, s) => DecRun(prev, s, n)
  }

  /** writeElems. */
  function EncElems(elems: seq<Elem>, t: Tables): (Str, Tables) {
    var (a, u) := EncList(elems, t, ElemWriter());
    (a + EncList(TombRuns(elems), u, RunWriter()).0, u)
  }

  /** readElems. */
  function DecElems(s: Str, c: Ctx): Read<seq<Elem>> {
    var (elems, s1) :- DecList(s, c, ElemReader(c));
    var (runs, s2) :- DecList(s1, c, RunReader(|elems|));
    Got(Mark(elems, Spread(runs)), s2)
  }

  lemma {:induction false} SpreadPrefix(runs: seq<nat>, i: nat)
    requires i < |runs|
    ensures |Spread(runs[..i])| + runs[i] <= |Spread(runs)|
    decreases |runs|
  {
    var before := runs[..|runs| - 1];
    if i < |before| {
      assert before[..i] == runs[..i] && before[i] == runs[i];
      SpreadPrefix(before, i);
    } else {
      assert runs[..i] == before;
    }
  }

  lemma RunItems(runs: seq<nat>, n: nat, i: nat, t: Tables, c: Ctx)
    requires i < |runs| && n == |Spread(runs)| < UINT64_LIMIT
    ensures ItemReads(runs, runs, i, t, RunWriter(), RunReader(n), c)
  {
    hide EncUint, DecUint, Spread;
    forall rest: Str ensures DecRun(runs[..i], EncUint(runs[i]) + rest, n) == Got(runs[i], rest) {
      SpreadPrefix(runs, i);
      UintRoundTrip(runs[i], rest);
    }
  }

  lemma ElemItems(elems: seq<Elem>, i: nat, t: Tables, c: Ctx)
    requires i < |elems| && c.OK() && forall k :: 0 <= k < |elems| ==> ElemFits(elems[k])
    ensures ItemReads(elems, Untombed(elems), i, t, ElemWriter(), ElemReader(c), c)
  {
    hide EncElem, DecElem, Untombed, ElemFits, StoredElem, EncItems;
    assert Untombed(elems)[..i] == Untombed(elems[..i]);
    var u := EncItems(elems[..i], t, ElemWriter()).1;
    if Extends(c.tables, EncElem(elems[..i], elems[i], u).1) {
      forall rest: Str | |EncElem(elems[..i], elems[i], u).0 + rest| <= c.limit
        ensures DecElem(Untombed(elems[..i]), EncElem(elems[..i], elems[i], u).0 + rest, c) == Got(Untombed(elems)[i], rest)
      {
        ElemRoundTrip(elems[..i], elems[i], u, c, rest);
      }
    }
  }

  lemma SaneWriters()
    ensures Sane(ElemWriter()) && Sane(RunWriter())
  {
    hide EncElem, EncUint;
  }

  /** Reading a written column gives every element back, for all 64-bit counters
      and every pattern of tombstones. */
  lemma ElemsRoundTrip(elems: seq<Elem>, t: Tables, c: Ctx, rest: Str)
    requires c.OK() && Extends(c.tables, EncElems(elems, t).1)
    requires forall k :: 0 <= k < |elems| ==> ElemFits(elems[k])
    requires |EncElems(elems, t).0 + rest| <= c.limit
    ensures DecElems(EncElems(elems, t).0 + rest, c) == Got(StoredElems(elems), rest)
  {
    hide EncList, DecList, EncElem, DecElem, TombRuns, Spread, ElemFits, ItemReads, Sane, ElemWriter, ElemReader, RunWriter,
         RunReader, StoredElem;
    var (a, u) := EncList(elems, t, ElemWriter());
    var runs := TombRuns(elems);
    var b := EncList(runs, u, RunWriter()).0;
    SaneWriters();
    RunsMeanTombstones(elems);
    ListLength(elems, t, ElemWriter());
    Assoc(a, b, rest);
    forall i | 0 <= i < |elems| ensures ItemReads(elems, Untombed(elems), i, t, ElemWriter(), ElemReader(c), c) {
      ElemItems(elems, i, t, c);
    }
    ListRoundTrip(elems, Untombed(elems), t, ElemWriter(), ElemReader(c), c, b + rest);
    forall i | 0 <= i < |runs| ensures ItemReads(runs, runs, i, u, RunWriter(), RunReader(|elems|), c) {
      RunItems(runs, |elems|, i, u, c);
    }
    RunsKeepTables(runs, u);
    ListRoundTrip(runs, runs, u, RunWriter(), RunReader(|elems|), c, rest);
    MarkStored(elems, Spread(runs));
  }

  lemma MarkStored(elems: seq<Elem>, tombs: seq<bool>)
    requires |tombs| == |elems| && forall i :: 0 <= i < |elems| ==> tombs[i] == elems[i].deleted
    ensures Mark(Untombed(elems), tombs) == StoredElems(elems)
  {
    hide ParseRef, Print;
  }

  lemma {:induction false} RunItemsKeepTables(runs: seq<nat>, t: Tables)
    ensures EncItems(runs, t, RunWriter()).1 == t
  {
    if runs != [] { RunItemsKeepTables(runs[..|runs| - 1], t); }
  }

  lemma RunsKeepTables(runs: seq<nat>, t: Tables)
    ensures EncList(runs, t, RunWriter()).1 == t
  {
    RunItemsKeepTables(runs, t);
  }
}
