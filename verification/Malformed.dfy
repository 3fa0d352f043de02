/** What the snapshot reader makes of bytes that no writer wrote, and what it
    refuses (crdt/snapshot.go, crdt/encoding/leb128.go). */
module Malformed {
  import opened OpIds
  import opened Values
  import opened Ops
  import opened Objects
  import opened Documents
  import opened Varints
  import opened Interning
  import opened ValueCodec
  import opened ElemCodec
  import opened OpCodec
  import opened ChangeCodec
  import opened Snapshot
  import opened DocumentCodec
  import opened Format

  // ---- numbers ----

  function Power128(k: nat): nat {
    if k == 0 then 1 else 128 * Power128(k - 1)
  }

  /** k is the place of the first byte below 128. */
  ghost predicate EndsAt(s: Str, k: nat) {
    k < |s| && s[k] < 128 && forall i :: 0 <= i < k ==> s[i] >= 128
  }

  lemma ModSum(x: nat, y: nat)
    ensures (x % UINT64_LIMIT + y) % UINT64_LIMIT == (x + y) % UINT64_LIMIT
  {
    var q := x / UINT64_LIMIT;
    assert x == q * UINT64_LIMIT + x % UINT64_LIMIT;
    ModMultiple(x % UINT64_LIMIT + y, q);
  }

  lemma ModMultiple(x: nat, q: nat)
    ensures (x + q * UINT64_LIMIT) % UINT64_LIMIT == x % UINT64_LIMIT
  {
  }

  lemma GroupStep(low: nat, high: nat, scale: nat)
    ensures low * scale + high * (scale * 128) == (low + 128 * high) * scale
  {
    assert high * (scale * 128) == 128 * high * scale;
  }

  lemma PowerStep(scale: nat, k: nat)
    requires k > 0
    ensures scale * 128 * Power128(k - 1) == scale * Power128(k)
    ensures scale * 128 <= scale * Power128(k)
  {
    PowerPositive(k - 1);
    assert scale * 128 * Power128(k - 1) == scale * (128 * Power128(k - 1));
    AtLeast(scale * 128, Power128(k - 1));
  }

  lemma AtLeast(x: nat, y: nat)
    requires y > 0
    ensures x <= x * y
  {
  }

  lemma {:induction false} PowerPositive(k: nat)
    ensures Power128(k) > 0
  {
    if k > 0 { PowerPositive(k - 1); }
  }

  lemma {:induction false} UintFromExact(s: Str, value: nat, scale: nat, k: nat)
    requires EndsAt(s, k) && scale > 0
    ensures DecUintFrom(s, value, scale)
         == if k == 0 || scale * Power128(k) < UINT64_LIMIT
            then Got((value + Base128(s[..k + 1]) * scale) % UINT64_LIMIT, s[k + 1..]) else Bad
    decreases k
  {
    hide Power128;
    var head := s[..k + 1];
    assert head[0] == s[0];
    if k == 0 {
      assert head[1..] == [];
      assert Base128(head) == s[0] % 128;
    } else {
      var rest := s[1..];
      assert rest[..k] == head[1..] && rest[k..] == s[k + 1..];
      assert Base128(head) == s[0] % 128 + 128 * Base128(rest[..k]);
      PowerStep(scale, k);
      if scale * 128 < UINT64_LIMIT {
        var v := AddBits(value, s[0], scale);
        UintFromExact(rest, v, scale * 128, k - 1);
        ModSum(value + s[0] % 128 * scale, Base128(rest[..k]) * (scale * 128));
        GroupStep(s[0] % 128, Base128(rest[..k]), scale);
        if k == 1 { PowerOne(); }
      }
    }
  }

  lemma PowerOne()
    ensures Power128(0) == 1 && Power128(1) == 128
  {
  }

  lemma PowersOf128()
    ensures Power128(9) == 0x8000_0000_0000_0000
  {
    assert Power128(4) == 0x1000_0000;
    assert Power128(8) == 128 * (128 * (128 * (128 * Power128(4))));
  }

  lemma {:induction false} PowerRises(j: nat, k: nat)
    requires j <= k
    ensures Power128(j) <= Power128(k)
    decreases k
  {
    if j < k { PowerRises(j, k - 1); }
  }

  lemma TenGroups(k: nat)
    ensures Power128(k) < UINT64_LIMIT <==> k < 10
  {
    PowersOf128();
    if k < 10 { PowerRises(k, 9); } else {
      assert Power128(10) == 128 * Power128(9);
      PowerRises(10, k);
    }
  }

  /** A number is read up to its first byte below 128, which must be among the first
      ten; more than 64 bits are cut off. Redundant zero groups are accepted. */
  lemma UintExact(s: Str, k: nat)
    requires EndsAt(s, k)
    ensures DecUint(s) == if k < 10 then Got(Base128(s[..k + 1]) % UINT64_LIMIT, s[k + 1..]) else Bad
  {
    UintFromExact(s, 0, 1, k);
    TenGroups(k);
    if k == 0 { PowerOne(); }
  }

  lemma {:induction false} UintFromUnending(s: Str, value: nat, scale: nat)
    requires forall i :: 0 <= i < |s| ==> s[i] >= 128
    ensures DecUintFrom(s, value, scale) == Bad
    decreases |s|
  {
    if s != [] && scale * 128 < UINT64_LIMIT { UintFromUnending(s[1..], AddBits(value, s[0], scale), scale * 128); }
  }

  /** A number that does not end is refused. */
  lemma UintUnending(s: Str)
    requires forall i :: 0 <= i < |s| ==> s[i] >= 128
    ensures DecUint(s) == Bad
  {
    UintFromUnending(s, 0, 1);
  }

  // ---- refusals ----

  /** Names outside their table, and raw bytes or texts past the end, are refused. */
  lemma OutOfRange(s: Str, list: seq<Str>, n: nat)
    ensures DecUint(s).Got? && DecUint(s).value >= |list| ==> DecEntry(s, list) == Bad
    ensures DecUint(s) == Bad ==> DecEntry(s, list) == Bad && DecStr(s) == Bad && DecInt(s) == Bad
    ensures n > |s| ==> DecRaw(s, n) == Bad
    ensures DecUint(s).Got? && DecUint(s).value > |DecUint(s).rest| ==> DecStr(s) == Bad
    ensures DecByte([]) == Bad
  {
    hide DecUintFrom;
  }

  /** A count that exceeds the body is not believed. */
  lemma CountTooLarge<T>(s: Str, c: Ctx, dec: Decoder<T>)
    requires DecUint(s).Got? && DecUint(s).value > c.limit
    ensures DecList(s, c, dec) == Bad
  {
  }

  /** A value starts with one of fourteen codes, an object with one of three, and a
      snapshot with its version. */
  lemma UnknownCodes(s: Str, c: Ctx, hashOf: HashFn)
    requires s != []
    ensures 12 < s[0] < 255 ==> DecValue(s, c) == Bad
    ensures 2 < s[0] ==> DecObject(s, c) == Bad
    ensures s[0] != 2 ==> Decode(s, hashOf) == Bad
  {
  }

  /** The first element of a column cannot refer to the one before it. */
  lemma NoElementBefore(flags: Byte, counter: nat, s: Str, c: Ctx)
    ensures Bit(flags, 3) ==> DecOwnActor(flags, [], s, c) == Bad
    ensures !Bit(flags, 0) && Bit(flags, 1) ==> DecAfter(flags, [], counter, s, c) == Bad
  {
  }

  /** Tombstones past the last element, and dependencies on changes that are not yet
      there, are refused. */
  lemma NothingThere(prev: seq<nat>, existing: seq<Change>, s: Str, n: nat)
    requires DecUint(s).Got?
    ensures |Spread(prev)| + DecUint(s).value > n ==> DecRun(prev, s, n) == Bad
    ensures DecUint(s).value > |existing| ==> DecDep(s, existing) == Bad
  {
  }

  predicate IsHexDigit(b: Byte) {
    48 <= b <= 57 || 65 <= b <= 70 || 97 <= b <= 102
  }

  /** An actor is 32 hexadecimal digits of either case, and becomes lower case. */
  lemma ActorExact(s: Str)
    ensures ParseActor(s).Some? <==> |s| == 32 && forall i :: 0 <= i < |s| ==> IsHexDigit(s[i])
    ensures ParseActor(s).Some? ==>
              var a := ParseActor(s).value;
              |a| == 32 && forall i :: 0 <= i < 32 ==> a[i] == if 65 <= s[i] <= 70 then s[i] + 32 else s[i]
  {
    forall b: Byte ensures IsLowerHex(Lower(b)) <==> IsHexDigit(b) { HexDigit(b); }
  }

  lemma HexDigit(b: Byte)
    ensures IsLowerHex(Lower(b)) <==> IsHexDigit(b)
  {
  }
}
