/** The value codec of crdt/snapshot.go. */
module ValueCodec {
  import opened OpIds
  import opened Values
  import opened Varints
  import opened Interning

  function KindCode(kind: Kind): Byte {
    match kind
    case MapKind => 9
    case ListKind => 10
    case TextKind => 11
  }

  function EncTime(time: Option<Time>): Str {
    match time
    case None => [0]
    case Some(at) => [1] + (EncInt(at.seconds) + EncUint(at.nanos))
  }

  /** writeValue. An unset value is written like null. */
  function EncValue(v: Value, t: Tables): (r: (Str, Tables))
    ensures Extends(r.1, t) && r.0 != []
  {
    match v
    case NoValue => ([0], t)
    case Null => ([0], t)
    case Bool(b) => ([1] + [if b then 1 else 0], t)
    case Int(i) => ([2] + EncInt(i), t)
    case Uint(u) => ([3] + EncUint(u), t)
    case Float(bits) => ([4] + LittleEndian(bits, 8), t)
    case Text(str) => ([5] + EncStr(str), t)
    case Bytes(bytes) => ([6] + EncStr(bytes), t)
    case Counter(count) => ([7] + EncInt(count), t)
    case Timestamp(time) => ([8] + EncTime(time), t)
    case ObjectValue(kind, obj) =>
      var (s, u) := EncObjectID(obj, t);
      ([KindCode(kind)] + s, u)
    case Vector(packed, norm, dim, width) =>
      ([12] + (EncStr(packed) + (LittleEndian(norm, 4) + (EncInt(dim) + EncInt(width)))), t)
    case Custom(name, text) => ([255] + (EncStr(name) + EncStr(text)), t)
  }

  /** time.Unix of two 64-bit fields: whole seconds of the nanoseconds count as seconds. */
  function UnixTime(seconds: int, nanos: int): Time {
    Time(Wrap(seconds + Wrap(nanos) / 1_000_000_000), Wrap(nanos) % 1_000_000_000)
  }

  lemma UnixTimeKeeps(t: Time)
    requires TimeFits(t)
    ensures UnixTime(t.seconds, t.nanos) == t
  {
  }

  function DecTime(s: Str): Read<Option<Time>> {
    var (present, s1) :- DecByte(s);
    if present == 0 then Got(None, s1)
    else
      var (seconds, s2) :- DecInt(s1);
      var (nanos, s3) :- DecUint(s2);
      Got(Some(UnixTime(seconds, nanos)), s3)
  }

  function DecVector(s: Str): Read<Value> {
    var (packed, s1) :- DecStr(s);
    var (norm, s2) :- DecWord(s1, 4);
    var (dim, s3) :- DecInt(s2);
    var (width, s4) :- DecInt(s3);
    Got(Vector(packed, norm, dim, width), s4)
  }

  function DecCustom(s: Str): Read<Value> {
    var (name, s1) :- DecStr(s);
    var (text, s2) :- DecStr(s1);
    Got(Custom(name, text), s2)
  }

  function DecObjectValue(kind: Kind, s: Str, c: Ctx): Read<Value> {
    var (obj, r) :- DecObjectID(s, c);
    Got(ObjectValue(kind, obj), r)
  }

  /** readValue. */
  function DecValue(s: Str, c: Ctx): Read<Value> {
    var (code, r) :- DecByte(s);
    if code == 0 then Got(Null, r)
    else if code == 1 then var (b, r1) :- DecByte(r); Got(Bool(b != 0), r1)
    else if code == 2 then var (i, r1) :- DecInt(r); Got(Int(i), r1)
    else if code == 3 then var (u, r1) :- DecUint(r); Got(Uint(u), r1)
    else if code == 4 then var (bits, r1) :- DecWord(r, 8); Got(Float(bits), r1)
    else if code == 5 then var (str, r1) :- DecStr(r); Got(Text(str), r1)
    else if code == 6 then var (bytes, r1) :- DecStr(r); Got(Bytes(bytes), r1)
    else if code == 7 then var (count, r1) :- DecInt(r); Got(Counter(count), r1)
    else if code == 8 then var (time, r1) :- DecTime(r); Got(Timestamp(time), r1)
    else if code == 9 then DecObjectValue(MapKind, r, c)
    else if code == 10 then DecObjectValue(ListKind, r, c)
    else if code == 11 then DecObjectValue(TextKind, r, c)
    else if code == 12 then DecVector(r)
    else if code == 255 then DecCustom(r)
    else Bad
  }

  /** The widths of the fields of a Go value. */
  predicate TimeFits(t: Time) {
    IsInt64(t.seconds) && t.nanos < 1_000_000_000
  }

  predicate ValueFits(v: Value) {
    match v
    case Int(i) => IsInt64(i)
    case Uint(u) => u < UINT64_LIMIT
    case Float(bits) => FitsBytes(bits, 8)
    case Counter(count) => IsInt64(count)
    case Timestamp(Some(at)) => TimeFits(at)
    case Vector(_, norm, dim, width) => FitsBytes(norm, 4) && IsInt64(dim) && IsInt64(width)
    case _ => true
  }

  /** An unset value comes back as null. */
  function Stored(v: Value): Value {
    if v.NoValue? then Null else v
  }

  lemma ByteRoundTrip(b: Byte, rest: Str)
    ensures DecByte([b] + rest) == Got(b, rest)
  {
    assert ([b] + rest)[1..] == rest;
  }

  lemma FixedRoundTrip(n: nat, k: nat, rest: Str)
    requires FitsBytes(n, k)
    ensures DecWord(LittleEndian(n, k) + rest, k) == Got(n, rest)
  {
    RawRoundTrip(LittleEndian(n, k), rest);
    WordRoundTrip(n, k);
  }

  lemma TimeRoundTrip(time: Option<Time>, rest: Str)
    requires time.Some? ==> TimeFits(time.value)
    ensures DecTime(EncTime(time) + rest) == Got(time, rest)
  {
    match time
    case None => ByteRoundTrip(0, rest);
    case Some(at) =>
      UnixTimeKeeps(at);
      hide EncInt, EncUint, DecInt, DecUint, UnixTime;
      var a, b := EncInt(at.seconds), EncUint(at.nanos);
      Assoc([1], a + b, rest);
      Assoc(a, b, rest);
      ByteRoundTrip(1, a + (b + rest));
      IntRoundTrip(at.seconds, b + rest);
      UintRoundTrip(at.nanos, rest);
  }

  lemma VectorRoundTrip(v: Value, rest: Str)
    requires v.Vector? && ValueFits(v) && |v.packed| < UINT64_LIMIT
    ensures DecVector(EncStr(v.packed) + (LittleEndian(v.norm, 4) + (EncInt(v.dim) + EncInt(v.width))) + rest) == Got(v, rest)
  {
    hide EncInt, EncStr, DecInt, DecStr, DecWord, LittleEndian;
    var a, b, c, d := EncStr(v.packed), LittleEndian(v.norm, 4), EncInt(v.dim), EncInt(v.width);
    Assoc(a, b + (c + d), rest);
    Assoc(b, c + d, rest);
    Assoc(c, d, rest);
    StrRoundTrip(v.packed, b + (c + (d + rest)));
    FixedRoundTrip(v.norm, 4, c + (d + rest));
    IntRoundTrip(v.dim, d + rest);
    IntRoundTrip(v.width, rest);
  }

  lemma CustomRoundTrip(v: Value, rest: Str)
    requires v.Custom? && |v.name| < UINT64_LIMIT && |v.text| < UINT64_LIMIT
    ensures DecCustom(EncStr(v.name) + EncStr(v.text) + rest) == Got(v, rest)
  {
    hide EncStr, DecStr;
    Assoc(EncStr(v.name), EncStr(v.text), rest);
    StrRoundTrip(v.name, EncStr(v.text) + rest);
    StrRoundTrip(v.text, rest);
  }

  /** The code byte and what follows it. */
  lemma CodeStep(code: Byte, body: Str, rest: Str)
    ensures DecByte([code] + body + rest) == Got(code, body + rest)
  {
    Assoc([code], body, rest);
    ByteRoundTrip(code, body + rest);
  }

  /** Every value reads back, an unset one as null, and exactly its bytes are used. */
  lemma ValueRoundTrip(v: Value, t: Tables, c: Ctx, rest: Str)
    requires ValueFits(v) && c.OK() && Extends(c.tables, EncValue(v, t).1)
    requires |EncValue(v, t).0 + rest| <= c.limit
    ensures DecValue(EncValue(v, t).0 + rest, c) == Got(Stored(v), rest)
  {
    hide EncInt, EncUint, EncStr, DecInt, DecUint, DecStr, DecByte, DecWord, DecTime, DecVector, DecCustom, DecObjectValue,
         EncTime, EncObjectID, LittleEndian, FitsBytes;
    var body := EncValue(v, t).0[1..];
    assert EncValue(v, t).0 == [EncValue(v, t).0[0]] + body;
    CodeStep(EncValue(v, t).0[0], body, rest);
    match v
    case NoValue =>
    case Null =>
    case Bool(b) => ByteRoundTrip(if b then 1 else 0, rest);
    case Int(i) => IntRoundTrip(i, rest);
    case Uint(u) => UintRoundTrip(u, rest);
    case Float(bits) => FixedRoundTrip(bits, 8, rest);
    case Text(str) => StrRoundTrip(str, rest);
    case Bytes(bytes) => StrRoundTrip(bytes, rest);
    case Counter(count) => IntRoundTrip(count, rest);
    case Timestamp(time) => TimeRoundTrip(time, rest);
    case ObjectValue(kind, obj) => ObjectValueRoundTrip(kind, obj, t, c, rest);
    case Vector(packed, norm, dim, width) => VectorRoundTrip(v, rest);
    case Custom(name, text) => CustomRoundTrip(v, rest);
  }

  lemma ObjectValueRoundTrip(kind: Kind, obj: ObjID, t: Tables, c: Ctx, rest: Str)
    requires c.OK() && Extends(c.tables, EncObjectID(obj, t).1)
    ensures DecObjectValue(kind, EncObjectID(obj, t).0 + rest, c) == Got(ObjectValue(kind, obj), rest)
  {
    ObjectIDRoundTrip(obj, t, c, rest);
  }
}
