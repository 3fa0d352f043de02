/** The operation codec of crdt/snapshot.go. */
module OpCodec {
  import opened OpIds
  import opened Values
  import opened Ops
  import opened Varints
  import opened Interning
  import opened ValueCodec
  import opened ElemCodec

  // ---- action names ----

  const PUT: Str := [112, 117, 116]
  const DELETE: Str := [100, 101, 108, 101, 116, 101]
  const REVIVE: Str := [114, 101, 118, 105, 118, 101]
  const INCREMENT: Str := [105, 110, 99, 114, 101, 109, 101, 110, 116]
  const INSERT: Str := [105, 110, 115, 101, 114, 116]
  const SPLICE: Str := [115, 112, 108, 105, 99, 101]

  function ActionName(a: Action): Str {
    match a
    case Put => PUT
    case Delete => DELETE
    case Revive => REVIVE
    case Increment => INCREMENT
    case Insert => INSERT
    case Splice => SPLICE
    case Unknown(name) => name
  }

  function ActionOf(name: Str): Action {
    if name == PUT then Action.Put
    else if name == DELETE then Action.Delete
    else if name == REVIVE then Action.Revive
    else if name == INCREMENT then Action.Increment
    else if name == INSERT then Action.Insert
    else if name == SPLICE then Action.Splice
    else Action.Unknown(name)
  }

  /** Unknown stands for a name that is none of the six. */
  predicate ActionFits(a: Action) {
    a.Unknown? ==> a.name !in [PUT, DELETE, REVIVE, INCREMENT, INSERT, SPLICE]
  }

  lemma ActionRoundTrip(a: Action)
    requires ActionFits(a)
    ensures ActionOf(ActionName(a)) == a
  {
    assert DELETE[0] != REVIVE[0] && DELETE[0] != INSERT[0] && DELETE[0] != SPLICE[0];
    assert REVIVE[0] != INSERT[0] && REVIVE[0] != SPLICE[0] && INSERT[0] != SPLICE[0];
  }

  // ---- Prop and After ----

  /** The compact form is used only where printing undoes parsing. */
  predicate IsRef(text: Str) {
    ParseRef(text).Ref? && Print(ParseRef(text).id) == text
  }

  function EncText(text: Str, base: nat, t: Tables): (r: (Str, Tables))
    ensures Extends(r.1, t)
  {
    if text == [] then ([], t)
    else if IsRef(text) then EncIDRef(ParseRef(text).id, base, t)
    else EncString(text, t)
  }

  function DecText(has: bool, isRef: bool, base: nat, s: Str, c: Ctx): Read<Str> {
    if !has then Got([], s)
    else if isRef then
      var (id, r) :- DecIDRef(s, base, c);
      Got(Print(id), r)
    else DecString(s, c)
  }

  /** Every string reads back, also a map key that looks like a reference. */
  lemma TextRoundTrip(text: Str, base: nat, t: Tables, c: Ctx, rest: Str)
    requires c.OK() && Extends(c.tables, EncText(text, base, t).1) && base < UINT64_LIMIT
    ensures DecText(text != [], text != [] && IsRef(text), base, EncText(text, base, t).0 + rest, c) == Got(text, rest)
  {
    hide ParseRef, Print, EncIDRef, DecIDRef, EncString, DecString;
    if text == [] {
      NothingWritten(rest);
    } else if IsRef(text) {
      ParseRange(text);
      IDRefRoundTrip(ParseRef(text).id, base, t, c, rest);
    } else {
      StringRoundTrip(text, t, c, rest);
    }
  }

  // ---- delete runs ----

  function EncDeleteRun(run: Run, t: Tables): (r: (Str, Tables))
    ensures Extends(r.1, t) && r.0 != []
  {
    var (a, u) := EncActor(run.actor, t);
    (a + (EncUint(run.start) + EncUint(run.count)), u)
  }

  function DecDeleteRun(s: Str, c: Ctx): Read<Run> {
    var (actor, s1) :- DecActor(s, c);
    var (start, s2) :- DecUint(s1);
    var (count, s3) :- DecUint(s2);
    Got(Run.Run(actor, start, count), s3)
  }

  function DeleteRunWriter(): Encoder<Run> {
    (prev, run, t) => EncDeleteRun(run, t)
  }

  function DeleteRunReader(c: Ctx): Decoder<Run> {
    (prev, s) => DecDeleteRun(s, c)
  }

  predicate RunFits(run: Run) {
    run.start < UINT64_LIMIT && run.count < UINT64_LIMIT
  }

  lemma DeleteRunRoundTrip(run: Run, t: Tables, c: Ctx, rest: Str)
    requires RunFits(run) && c.OK() && Extends(c.tables, EncDeleteRun(run, t).1)
    ensures DecDeleteRun(EncDeleteRun(run, t).0 + rest, c) == Got(run, rest)
  {
    hide EncActor, DecActor, EncUint, DecUint;
    var a, b, d := EncActor(run.actor, t).0, EncUint(run.start), EncUint(run.count);
    Assoc(a, b + d, rest);
    Assoc(b, d, rest);
    ActorRoundTrip(run.actor, t, c, b + (d + rest));
    UintRoundTrip(run.start, d + rest);
    UintRoundTrip(run.count, rest);
  }

  function EncDeletes(runs: seq<Run>, t: Tables): (Str, Tables) {
    if runs == [] then ([], t) else EncList(runs, t, DeleteRunWriter())
  }

  function DecDeletes(has: bool, s: Str, c: Ctx): Read<seq<Run>> {
    if has then DecList(s, c, DeleteRunReader(c)) else Got([], s)
  }

  lemma DeleteRunItem(runs: seq<Run>, i: nat, t: Tables, c: Ctx)
    requires i < |runs| && RunFits(runs[i]) && c.OK()
    ensures ItemReads(runs, runs, i, t, DeleteRunWriter(), DeleteRunReader(c), c)
  {
    hide EncDeleteRun, DecDeleteRun, EncItems;
    var u := EncItems(runs[..i], t, DeleteRunWriter()).1;
    if Extends(c.tables, EncDeleteRun(runs[i], u).1) {
      forall rest: Str ensures DecDeleteRun(EncDeleteRun(runs[i], u).0 + rest, c) == Got(runs[i], rest) {
        DeleteRunRoundTrip(runs[i], u, c, rest);
      }
    }
  }

  lemma SaneDeletes()
    ensures Sane(DeleteRunWriter())
  {
    hide EncDeleteRun;
  }

  lemma DeletesGrow(runs: seq<Run>, t: Tables)
    ensures Extends(EncDeletes(runs, t).1, t)
  {
    SaneDeletes();
    ListLength(runs, t, DeleteRunWriter());
  }

  lemma DeletesRoundTrip(runs: seq<Run>, t: Tables, c: Ctx, rest: Str)
    requires c.OK() && Extends(c.tables, EncDeletes(runs, t).1)
    requires forall k :: 0 <= k < |runs| ==> RunFits(runs[k])
    requires |EncDeletes(runs, t).0 + rest| <= c.limit
    ensures DecDeletes(runs != [], EncDeletes(runs, t).0 + rest, c) == Got(runs, rest)
  {
    hide EncList, DecList, ItemReads, Sane, DeleteRunWriter, DeleteRunReader, RunFits;
    if runs == [] {
      NothingWritten(rest);
    } else {
      SaneDeletes();
      forall i | 0 <= i < |runs| ensures ItemReads(runs, runs, i, t, DeleteRunWriter(), DeleteRunReader(c), c) {
        DeleteRunItem(runs, i, t, c);
      }
      ListRoundTrip(runs, runs, t, DeleteRunWriter(), DeleteRunReader(c), c, rest);
    }
  }

  // ---- operations ----

  function OpFlags(op: Op): (bits: seq<bool>)
    ensures |bits| == 7
  {
    [op.prop != [], op.after != [], op.run != [], op.deleteRuns != [], op.value != NoValue,
     op.prop != [] && IsRef(op.prop), op.after != [] && IsRef(op.after)]
  }

  /** Identity, action and object. */
  function EncOpHead(op: Op, t: Tables): (r: (Str, Tables))
    ensures Extends(r.1, t)
  {
    var (a, t1) := EncActor(op.id.actor, t);
    var (b, t2) := EncString(ActionName(op.action), t1);
    var (o, t3) := EncObjectID(op.obj, t2);
    (a + (EncUint(op.id.counter) + (b + o)), t3)
  }

  function EncOpValue(v: Value, t: Tables): (r: (Str, Tables))
    ensures Extends(r.1, t)
  {
    if v == NoValue then ([], t) else EncValue(v, t)
  }

  function EncOpRun(run: Str): Str {
    if run == [] then [] else EncStr(run)
  }

  /** The fields that the flags announce. */
  function EncOpTail(op: Op, t: Tables): (r: (Str, Tables))
    ensures Extends(r.1, t)
  {
    var (p, t1) := EncText(op.prop, op.id.counter, t);
    var (v, t2) := EncOpValue(op.value, t1);
    var (a, t3) := EncText(op.after, op.id.counter, t2);
    var (d, t4) := EncDeletes(op.deleteRuns, t3);
    DeletesGrow(op.deleteRuns, t3);
    (p + (v + (a + (EncOpRun(op.run) + d))), t4)
  }

  /** writeOp. */
  function EncOp(op: Op, t: Tables): (r: (Str, Tables))
    ensures Extends(r.1, t) && r.0 != []
  {
    var (h, t1) := EncOpHead(op, t);
    var (b, t2) := EncOpTail(op, t1);
    ([FlagByte(OpFlags(op))] + (h + b), t2)
  }

  datatype OpHead = OpHead(id: OpID, action: Action, obj: ObjID)

  function DecOpHead(s: Str, c: Ctx): Read<OpHead> {
    var (actor, s1) :- DecActor(s, c);
    var (counter, s2) :- DecUint(s1);
    var (action, s3) :- DecString(s2, c);
    var (obj, s4) :- DecObjectID(s3, c);
    Got(OpHead(OpID(counter, actor), ActionOf(action), obj), s4)
  }

  function DecOpValue(has: bool, s: Str, c: Ctx): Read<Value> {
    if has then DecValue(s, c) else Got(NoValue, s)
  }

  function DecOpRun(has: bool, s: Str): Read<Str> {
    if has then DecStr(s) else Got([], s)
  }

  datatype OpFields = OpFields(prop: Str, value: Value, after: Str)

  function DecOpFields(flags: Byte, base: nat, s: Str, c: Ctx): Read<OpFields> {
    var (prop, s1) :- DecText(Bit(flags, 0), Bit(flags, 5), base, s, c);
    var (value, s2) :- DecOpValue(Bit(flags, 4), s1, c);
    var (after, s3) :- DecText(Bit(flags, 1), Bit(flags, 6), base, s2, c);
    Got(OpFields(prop, value, after), s3)
  }

  function DecOpTail(flags: Byte, head: OpHead, s: Str, c: Ctx): Read<Op> {
    var (f, s1) :- DecOpFields(flags, head.id.counter, s, c);
    var (run, s2) :- DecOpRun(Bit(flags, 2), s1);
    var (deletes, s3) :- DecDeletes(Bit(flags, 3), s2, c);
    Got(Op.Op(head.id, head.action, head.obj, f.prop, f.value, f.after, run, deletes), s3)
  }

  /** readOp. */
  function DecOp(s: Str, c: Ctx): Read<Op> {
    var (flags, s1) :- DecByte(s);
    var (head, s2) :- DecOpHead(s1, c);
    DecOpTail(flags, head, s2, c)
  }

  predicate OpFits(op: Op) {
    && op.id.counter < UINT64_LIMIT && ActionFits(op.action) && ValueFits(op.value)
    && forall k :: 0 <= k < |op.deleteRuns| ==> RunFits(op.deleteRuns[k])
  }

  lemma OpHeadRoundTrip(op: Op, t: Tables, c: Ctx, rest: Str)
    requires OpFits(op) && c.OK() && Extends(c.tables, EncOpHead(op, t).1)
    ensures DecOpHead(EncOpHead(op, t).0 + rest, c) == Got(OpHead(op.id, op.action, op.obj), rest)
  {
    hide EncActor, DecActor, EncUint, DecUint, EncString, DecString, EncObjectID, DecObjectID, ActionName, ActionOf,
         ActionFits, ValueFits;
    var (a, t1) := EncActor(op.id.actor, t);
    var (b, t2) := EncString(ActionName(op.action), t1);
    var (o, t3) := EncObjectID(op.obj, t2);
    var n := EncUint(op.id.counter);
    Assoc(a, n + (b + o), rest);
    Assoc(n, b + o, rest);
    Assoc(b, o, rest);
    ActorRoundTrip(op.id.actor, t, c, n + (b + (o + rest)));
    UintRoundTrip(op.id.counter, b + (o + rest));
    StringRoundTrip(ActionName(op.action), t1, c, o + rest);
    ObjectIDRoundTrip(op.obj, t2, c, rest);
    ActionRoundTrip(op.action);
  }

  lemma OpValueRoundTrip(v: Value, t: Tables, c: Ctx, rest: Str)
    requires ValueFits(v) && c.OK() && Extends(c.tables, EncOpValue(v, t).1)
    requires |EncOpValue(v, t).0 + rest| <= c.limit
    ensures DecOpValue(v != NoValue, EncOpValue(v, t).0 + rest, c) == Got(v, rest)
  {
    hide EncValue, DecValue;
    if v == NoValue { NothingWritten(rest); } else { ValueRoundTrip(v, t, c, rest); }
  }

  lemma OpRunRoundTrip(run: Str, rest: Str)
    requires |run| < UINT64_LIMIT
    ensures DecOpRun(run != [], EncOpRun(run) + rest) == Got(run, rest)
  {
    hide EncStr, DecStr;
    if run == [] { NothingWritten(rest); } else { StrRoundTrip(run, rest); }
  }

  lemma OpBits(op: Op)
    ensures var f := FlagByte(OpFlags(op));
            && Bit(f, 0) == (op.prop != []) && Bit(f, 1) == (op.after != []) && Bit(f, 2) == (op.run != [])
            && Bit(f, 3) == (op.deleteRuns != []) && Bit(f, 4) == (op.value != NoValue)
            && Bit(f, 5) == (op.prop != [] && IsRef(op.prop)) && Bit(f, 6) == (op.after != [] && IsRef(op.after))
  {
    hide IsRef, Bit, FlagByte;
    forall k: nat | k < 7 ensures Bit(FlagByte(OpFlags(op)), k) == OpFlags(op)[k] { BitOfFlags(OpFlags(op), k); }
  }

  lemma OpTailRoundTrip(op: Op, t: Tables, c: Ctx, rest: Str)
    requires OpFits(op) && c.OK() && Extends(c.tables, EncOpTail(op, t).1)
    requires |EncOpTail(op, t).0 + rest| <= c.limit
    ensures DecOpTail(FlagByte(OpFlags(op)), OpHead(op.id, op.action, op.obj), EncOpTail(op, t).0 + rest, c) == Got(op, rest)
  {
    hide FlagByte, OpFlags, Bit, EncText, DecText, EncOpValue, DecOpValue, EncOpRun, DecOpRun, EncDeletes, DecDeletes, IsRef,
         DecOpTail, RunFits, ValueFits, ActionFits;
    var (p, t1) := EncText(op.prop, op.id.counter, t);
    var (v, t2) := EncOpValue(op.value, t1);
    var (a, t3) := EncText(op.after, op.id.counter, t2);
    var (d, t4) := EncDeletes(op.deleteRuns, t3);
    var r := EncOpRun(op.run);
    DeletesGrow(op.deleteRuns, t3);
    OpBits(op);
    TailLayout(p, v, a, r, d, rest);
    assert |op.run| <= |r| by { RunLength(op.run); }
    TextRoundTrip(op.prop, op.id.counter, t, c, v + (a + (r + (d + rest))));
    OpValueRoundTrip(op.value, t1, c, a + (r + (d + rest)));
    TextRoundTrip(op.after, op.id.counter, t2, c, r + (d + rest));
    OpRunRoundTrip(op.run, d + rest);
    DeletesRoundTrip(op.deleteRuns, t3, c, rest);
    DecTailSteps(op, FlagByte(OpFlags(op)), EncOpTail(op, t).0 + rest, v + (a + (r + (d + rest))), a + (r + (d + rest)),
                 r + (d + rest), d + rest, rest, c);
  }

  lemma RunLength(run: Str)
    ensures |run| <= |EncOpRun(run)|
  {
  }

  lemma TailLayout(p: Str, v: Str, a: Str, r: Str, d: Str, rest: Str)
    ensures p + (v + (a + (r + d))) + rest == p + (v + (a + (r + (d + rest))))
    ensures |d + rest| <= |v + (a + (r + (d + rest)))| <= |p + (v + (a + (r + d))) + rest|
    ensures |r| <= |p + (v + (a + (r + d))) + rest|
  {
    Assoc(p, v + (a + (r + d)), rest);
    Assoc(v, a + (r + d), rest);
    Assoc(a, r + d, rest);
    Assoc(r, d, rest);
  }

  lemma DecTailSteps(op: Op, f: Byte, s: Str, s1: Str, s2: Str, s3: Str, s4: Str, s5: Str, c: Ctx)
    requires DecText(Bit(f, 0), Bit(f, 5), op.id.counter, s, c) == Got(op.prop, s1)
    requires DecOpValue(Bit(f, 4), s1, c) == Got(op.value, s2)
    requires DecText(Bit(f, 1), Bit(f, 6), op.id.counter, s2, c) == Got(op.after, s3)
    requires DecOpRun(Bit(f, 2), s3) == Got(op.run, s4)
    requires DecDeletes(Bit(f, 3), s4, c) == Got(op.deleteRuns, s5)
    ensures DecOpTail(f, OpHead(op.id, op.action, op.obj), s, c) == Got(op, s5)
  {
    hide Bit, DecText, DecOpValue, DecOpRun, DecDeletes;
  }

  /** Every operation reads back exactly, whatever its Prop and After hold. */
  lemma OpRoundTrip(op: Op, t: Tables, c: Ctx, rest: Str)
    requires OpFits(op) && c.OK() && Extends(c.tables, EncOp(op, t).1)
    requires |EncOp(op, t).0 + rest| <= c.limit
    ensures DecOp(EncOp(op, t).0 + rest, c) == Got(op, rest)
  {
    hide FlagByte, OpFlags, EncOpHead, DecOpHead, EncOpTail, DecOpTail, OpFits, Ctx.OK, DecByte;
    var (h, t1) := EncOpHead(op, t);
    var (b, t2) := EncOpTail(op, t1);
    CodeStep(FlagByte(OpFlags(op)), h + b, rest);
    Assoc(h, b, rest);
    OpHeadRoundTrip(op, t, c, b + rest);
    OpTailRoundTrip(op, t1, c, rest);
  }

  function OpWriter(): Encoder<Op> {
    (prev, op, t) => EncOp(op, t)
  }

  function OpReader(c: Ctx): Decoder<Op> {
    (prev, s) => DecOp(s, c)
  }

  lemma OpItem(ops: seq<Op>, i: nat, t: Tables, c: Ctx)
    requires i < |ops| && OpFits(ops[i]) && c.OK()
    ensures ItemReads(ops, ops, i, t, OpWriter(), OpReader(c), c)
  {
    hide EncOp, DecOp, EncItems, OpFits;
    var u := EncItems(ops[..i], t, OpWriter()).1;
    if Extends(c.tables, EncOp(ops[i], u).1) {
      forall rest: Str | |EncOp(ops[i], u).0 + rest| <= c.limit
        ensures DecOp(EncOp(ops[i], u).0 + rest, c) == Got(ops[i], rest)
      {
        OpRoundTrip(ops[i], u, c, rest);
      }
    }
  }

  lemma SaneOps()
    ensures Sane(OpWriter())
  {
    hide EncOp;
  }
}
