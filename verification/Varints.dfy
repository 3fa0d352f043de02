/** The numbers and strings of a snapshot: unsigned LEB128 (section 7.6 of DWARF
    version 5, crdt/encoding/leb128.go), zigzag, 64-bit differences, fixed-width
    words, length-prefixed strings and flag bytes (crdt/snapshot.go). */
module Varints {
  import opened OpIds

  /** What one step of a reader gives: a value and the bytes behind it. */
  datatype Read<+T> = Got(value: T, rest: Str) | Bad {
    predicate IsFailure() {
      Bad?
    }

    function PropagateFailure<U>(): Read<U>
      requires Bad?
    {
      Bad
    }

    function Extract(): (T, Str)
      requires Got?
    {
      (value, rest)
    }
  }

  // ---- unsigned LEB128 ----

  function EncUint(n: nat): (s: Str)
    ensures s != []
  {
    if n < 128 then [n] else [n % 128 + 128] + EncUint(n / 128)
  }

  /** value |= uint64(b & 0x7f) << shift, for a value below scale. */
  function AddBits(value: nat, b: Byte, scale: nat): nat {
    (value + b % 128 * scale) % UINT64_LIMIT
  }

  /** value holds the bits read so far and scale is the weight of the next seven. */
  function DecUintFrom(s: Str, value: nat, scale: nat): Read<nat> {
    if s == [] then Bad
    else
      var v := AddBits(value, s[0], scale);
      if s[0] < 128 then Got(v, s[1..])
      else if scale * 128 >= UINT64_LIMIT then Bad
      else DecUintFrom(s[1..], v, scale * 128)
  }

  function DecUint(s: Str): Read<nat> {
    DecUintFrom(s, 0, 1)
  }

  /** One byte of a longer number: its seven bits, and what is left of it. */
  lemma ScaleStep(n: nat, value: nat, scale: nat)
    requires n >= 128 && scale > 0 && value + n * scale < UINT64_LIMIT
    ensures value + n % 128 * scale + n / 128 * (scale * 128) == value + n * scale
    ensures scale * 128 < UINT64_LIMIT && value + n % 128 * scale < UINT64_LIMIT
  {
    assert n * scale == (n % 128 + n / 128 * 128) * scale == n % 128 * scale + n / 128 * 128 * scale;
    assert 128 * scale <= n * scale;
    assert 0 <= n / 128 * (scale * 128);
  }

  lemma BitsAdded(value: nat, low: nat, b: Byte, scale: nat)
    requires low < 128 && (b == low || b == low + 128) && value + low * scale < UINT64_LIMIT
    ensures AddBits(value, b, scale) == value + low * scale
  {
    assert b % 128 == low;
  }

  lemma {:induction false} UintFrom(n: nat, value: nat, scale: nat, rest: Str)
    requires scale > 0 && value + n * scale < UINT64_LIMIT
    ensures DecUintFrom(EncUint(n) + rest, value, scale) == Got(value + n * scale, rest)
    decreases n
  {
    hide AddBits;
    var s := EncUint(n) + rest;
    if n < 128 {
      assert s[0] == n && s[1..] == rest;
      BitsAdded(value, n, s[0], scale);
    } else {
      ScaleStep(n, value, scale);
      assert s[0] == n % 128 + 128 && s[1..] == EncUint(n / 128) + rest;
      BitsAdded(value, n % 128, s[0], scale);
      UintFrom(n / 128, value + n % 128 * scale, scale * 128, rest);
    }
  }

  /** Every 64-bit number reads back, whatever follows it. */
  lemma UintRoundTrip(n: nat, rest: Str)
    requires n < UINT64_LIMIT
    ensures DecUint(EncUint(n) + rest) == Got(n, rest)
  {
    UintFrom(n, 0, 1, rest);
  }

  /** AppendULEB128. */
  method AppendUleb(dst: Str, value: nat) returns (out: Str)
    ensures out == dst + EncUint(value)
  {
    out := dst;
    var left := value;
    while true
      invariant out + EncUint(left) == dst + EncUint(value)
      decreases left
    {
      var b: Byte := left % 128;
      ghost var before := left;
      left := left / 128;
      if left != 0 {
        assert out + EncUint(before) == out + [b + 128] + EncUint(left);
        out := out + [b + 128];
        continue;
      }
      out := out + [b];
      return;
    }
  }

  /** ReadULEB128: the value and how many bytes it took. */
  method ReadUleb(src: Str) returns (value: nat, n: nat, ok: bool)
    ensures n <= |src| && DecUint(src) == if ok then Got(value, src[n..]) else Bad
  {
    value := 0;
    var scale: nat := 1;
    for i := 0 to |src|
      invariant scale > 0 && DecUint(src) == DecUintFrom(src[i..], value, scale)
    {
      value := AddBits(value, src[i], scale);
      assert src[i..][1..] == src[i + 1..];
      if src[i] < 128 {
        return value, i + 1, true;
      }
      scale := scale * 128;
      if scale >= UINT64_LIMIT {
        return 0, 0, false;
      }
    }
    return 0, 0, false;
  }

  // ---- signed numbers ----

  const INT64_LIMIT: int := 0x8000_0000_0000_0000

  predicate IsInt64(v: int) {
    -INT64_LIMIT <= v < INT64_LIMIT
  }

  /** zigzagEncode: the sign moves to the low bit. */
  function Zigzag(v: int): (n: nat)
    ensures IsInt64(v) ==> n < UINT64_LIMIT
  {
    if v >= 0 then 2 * v else -2 * v - 1
  }

  /** zigzagDecode. */
  function Unzigzag(n: nat): int {
    if n % 2 == 0 then n / 2 else -(n / 2) - 1
  }

  function EncInt(v: int): (s: Str)
    ensures s != []
  {
    EncUint(Zigzag(v))
  }

  function DecInt(s: Str): Read<int> {
    var (n, r) :- DecUint(s);
    Got(Unzigzag(n), r)
  }

  lemma IntRoundTrip(v: int, rest: Str)
    requires IsInt64(v)
    ensures DecInt(EncInt(v) + rest) == Got(v, rest)
  {
    UintRoundTrip(Zigzag(v), rest);
  }

  /** int64(n) for a 64-bit n. */
  function Signed(n: nat): int {
    if n < INT64_LIMIT then n else n - UINT64_LIMIT
  }

  /** Two's complement: the 64-bit number an exact result wraps to. */
  function Wrap(x: int): (v: int)
    ensures IsInt64(v)
  {
    Signed(x % UINT64_LIMIT)
  }

  /** int64(a) - int64(b). */
  function Delta(a: nat, b: nat): int {
    Wrap(Signed(a) - Signed(b))
  }

  /** uint64(int64(b) + delta). */
  function AddDelta(b: nat, delta: int): (n: nat)
    ensures n < UINT64_LIMIT
  {
    (Signed(b) + delta) % UINT64_LIMIT
  }

  /** A difference of 64-bit counters is undone exactly, also when it wraps. */
  lemma DeltaRoundTrip(a: nat, b: nat)
    requires a < UINT64_LIMIT && b < UINT64_LIMIT
    ensures AddDelta(b, Delta(a, b)) == a && IsInt64(Delta(a, b))
  {
    var x := Signed(a) - Signed(b);
    var q := x / UINT64_LIMIT;
    assert x == q * UINT64_LIMIT + x % UINT64_LIMIT;
  }

  lemma WrapRoundTrip(a: int, b: int)
    requires IsInt64(a) && IsInt64(b)
    ensures Wrap(b + Wrap(a - b)) == a
  {
  }

  // ---- words, strings, flags ----

  /** The low k bytes, least significant first. */
  function LittleEndian(n: nat, k: nat): (s: Str)
    ensures |s| == k
    decreases k
  {
    if k == 0 then [] else [n % 256] + LittleEndian(n / 256, k - 1)
  }

  function FromLittleEndian(s: Str): nat {
    if s == [] then 0 else s[0] + 256 * FromLittleEndian(s[1..])
  }

  /** n fits in k bytes. */
  predicate FitsBytes(n: nat, k: nat)
    decreases k
  {
    if k == 0 then n == 0 else FitsBytes(n / 256, k - 1)
  }

  lemma {:induction false} WordRoundTrip(n: nat, k: nat)
    requires FitsBytes(n, k)
    ensures FromLittleEndian(LittleEndian(n, k)) == n
    decreases k
  {
    if k > 0 {
      WordRoundTrip(n / 256, k - 1);
      assert LittleEndian(n, k)[1..] == LittleEndian(n / 256, k - 1);
    }
  }

  function DecByte(s: Str): Read<Byte> {
    if s == [] then Bad else Got(s[0], s[1..])
  }

  /** raw: the next n bytes. */
  function DecRaw(s: Str, n: nat): Read<Str> {
    if n > |s| then Bad else Got(s[..n], s[n..])
  }

  function DecWord(s: Str, k: nat): Read<nat> {
    var (raw, r) :- DecRaw(s, k);
    Got(FromLittleEndian(raw), r)
  }

  function EncStr(text: Str): (s: Str)
    ensures |s| > |text|
  {
    EncUint(|text|) + text
  }

  function DecStr(s: Str): Read<Str> {
    var (n, r) :- DecUint(s);
    DecRaw(r, n)
  }

  lemma RawRoundTrip(raw: Str, rest: Str)
    ensures DecRaw(raw + rest, |raw|) == Got(raw, rest)
  {
    assert (raw + rest)[..|raw|] == raw && (raw + rest)[|raw|..] == rest;
  }

  lemma StrRoundTrip(text: Str, rest: Str)
    requires |text| < UINT64_LIMIT
    ensures DecStr(EncStr(text) + rest) == Got(text, rest)
  {
    assert EncStr(text) + rest == EncUint(|text|) + (text + rest);
    UintRoundTrip(|text|, text + rest);
    RawRoundTrip(text, rest);
  }

  /** The byte whose bit k says bits[k]. */
  function FlagByte(bits: seq<bool>): (b: nat)
    ensures |bits| <= 8 ==> b < 256
  {
    FlagsBelow(bits);
    FlagSum(bits)
  }

  function FlagSum(bits: seq<bool>): nat {
    if bits == [] then 0 else (if bits[0] then 1 else 0) + 2 * FlagSum(bits[1..])
  }

  predicate Bit(flags: nat, k: nat)
    decreases k
  {
    if k == 0 then flags % 2 == 1 else Bit(flags / 2, k - 1)
  }

  function PowerTwo(k: nat): nat {
    if k == 0 then 1 else 2 * PowerTwo(k - 1)
  }

  lemma {:induction false} FlagsBelow(bits: seq<bool>)
    ensures FlagSum(bits) < PowerTwo(|bits|)
    ensures |bits| <= 8 ==> FlagSum(bits) < 256
  {
    if bits != [] { FlagsBelow(bits[1..]); }
    PowerTwoRises(|bits|);
  }

  lemma {:induction false} PowerTwoRises(k: nat)
    ensures k <= 8 ==> PowerTwo(k) <= 256
  {
    if k <= 8 {
      assert PowerTwo(4) == 16;
      assert PowerTwo(8) == 256;
    }
  }

  lemma {:induction false} BitOfFlags(bits: seq<bool>, k: nat)
    requires k < |bits|
    ensures Bit(FlagByte(bits), k) == bits[k]
  {
    if k > 0 {
      BitOfFlags(bits[1..], k - 1);
      assert FlagSum(bits) / 2 == FlagSum(bits[1..]);
    }
  }

  lemma Assoc(a: Str, b: Str, c: Str)
    ensures a + b + c == a + (b + c)
  {
  }
}
