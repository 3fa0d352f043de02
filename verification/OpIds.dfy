/** Byte strings, operation identities and their textual form
    (crdt/change.go, and the reference helpers of crdt/doc.go). */
module OpIds {
  type Byte = x: int | 0 <= x < 256
  /** A Go string is a sequence of bytes. */
  type Str = seq<Byte>

  const UINT64_LIMIT: nat := 0x1_0000_0000_0000_0000

  /** Go compares strings byte by byte; a proper prefix is smaller. */
  predicate StrLess(a: Str, b: Str) {
    if b == [] then false
    else if a == [] then true
    else if a[0] != b[0] then a[0] < b[0]
    else StrLess(a[1..], b[1..])
  }

  lemma {:induction false} StrLessIsStrictOrder(a: Str, b: Str, c: Str)
    ensures !StrLess(a, a)
    ensures StrLess(a, b) && StrLess(b, c) ==> StrLess(a, c)
    decreases |a| + |b| + |c|
  {
    if a != [] {
      StrLessIsStrictOrder(a[1..], if b == [] then [] else b[1..], if c == [] then [] else c[1..]);
    }
  }

  lemma {:induction false} StrLessIsTotal(a: Str, b: Str)
    ensures a == b || StrLess(a, b) || StrLess(b, a)
    ensures !(StrLess(a, b) && StrLess(b, a))
  {
    if a != [] && b != [] {
      StrLessIsTotal(a[1..], b[1..]);
      if a[0] == b[0] && a[1..] == b[1..] {
        assert a == [a[0]] + a[1..] == [b[0]] + b[1..] == b;
      }
    }
  }

  /** a and b part at position k: there a ends or holds the smaller byte. */
  ghost predicate PartsAt(a: Str, b: Str, k: nat) {
    k <= |a| && k < |b| && a[..k] == b[..k] && (k == |a| || a[k] < b[k])
  }

  lemma {:induction false} PartsThere(a: Str, b: Str) returns (k: nat)
    requires StrLess(a, b)
    ensures PartsAt(a, b, k)
  {
    if a == [] || a[0] != b[0] {
      k := 0;
    } else {
      var m := PartsThere(a[1..], b[1..]);
      k := m + 1;
      assert a[..k] == [a[0]] + a[1..][..m] && b[..k] == [b[0]] + b[1..][..m];
    }
  }

  lemma {:induction false} PartsLess(a: Str, b: Str, k: nat)
    requires PartsAt(a, b, k)
    ensures StrLess(a, b)
    decreases k
  {
    if k > 0 {
      assert a[0] == a[..k][0] == b[..k][0] == b[0];
      assert a[1..][..k - 1] == a[..k][1..] == b[..k][1..] == b[1..][..k - 1];
      PartsLess(a[1..], b[1..], k - 1);
    }
  }

  /** The order of strings is that of dictionaries, over bytes. */
  lemma StrLessMeans(a: Str, b: Str)
    ensures StrLess(a, b) <==> exists k :: PartsAt(a, b, k)
  {
    if StrLess(a, b) {
      var k := PartsThere(a, b);
    }
    forall k | PartsAt(a, b, k) ensures StrLess(a, b) { PartsLess(a, b, k); }
  }

  datatype OpID = OpID(counter: nat, actor: Str) {
    predicate Less(other: OpID) {
      if counter != other.counter then counter < other.counter
      else StrLess(actor, other.actor)
    }

    predicate Greater(other: OpID) {
      other.Less(this)
    }
  }

  /** Less is a strict total order on identities. */
  lemma LessIsStrictOrder(a: OpID, b: OpID, c: OpID)
    ensures !a.Less(a)
    ensures a.Less(b) && b.Less(c) ==> a.Less(c)
  {
    StrLessIsStrictOrder(a.actor, b.actor, c.actor);
  }

  lemma LessIsTotal(a: OpID, b: OpID)
    ensures a == b || a.Less(b) || b.Less(a)
    ensures !(a.Less(b) && b.Less(a))
    ensures !a.Less(a)
  {
    StrLessIsTotal(a.actor, b.actor);
    StrLessIsStrictOrder(a.actor, a.actor, a.actor);
  }

  /** The older of two identities has the smaller counter, and between equal counters
      the actor that comes first in the dictionary. */
  lemma LessMeans(a: OpID, b: OpID)
    ensures a.Less(b) <==> a.counter < b.counter || (a.counter == b.counter && exists k :: PartsAt(a.actor, b.actor, k))
    ensures a.Greater(b) <==> b.Less(a)
  {
    StrLessMeans(a.actor, b.actor);
  }

  // ---- decimal text ----

  const AT: Byte := 64
  const DIGIT0: Byte := 48

  predicate IsDigit(c: Byte) {
    DIGIT0 <= c <= DIGIT0 + 9
  }

  /** Decimal text of a number, without leading zeros. */
  function Decimal(n: nat): (s: Str)
    ensures s != []
    ensures forall i :: 0 <= i < |s| ==> IsDigit(s[i])
  {
    if n < 10 then [DIGIT0 + n] else Decimal(n / 10) + [DIGIT0 + n % 10]
  }

  /** The number a digit string denotes. */
  function DigitsValue(s: Str): nat
    requires forall i :: 0 <= i < |s| ==> IsDigit(s[i])
  {
    if s == [] then 0
    else
      assert IsDigit(s[|s| - 1]);
      10 * DigitsValue(s[..|s| - 1]) + (s[|s| - 1] - DIGIT0)
  }

  lemma {:induction false} DecimalValue(n: nat)
    ensures DigitsValue(Decimal(n)) == n
  {
    if n >= 10 {
      DecimalValue(n / 10);
      assert Decimal(n)[..|Decimal(n)| - 1] == Decimal(n / 10);
    } else {
      assert Decimal(n)[..0] == [];
    }
  }

  function PowerOfTen(n: nat): nat {
    if n == 0 then 1 else 10 * PowerOfTen(n - 1)
  }

  /** Every digit counts with its power of ten. */
  lemma {:induction false} DigitsMean(s: Str)
    requires s != [] && forall i :: 0 <= i < |s| ==> IsDigit(s[i])
    ensures DigitsValue([]) == 0
    ensures DigitsValue(s) == (s[0] - 48) * PowerOfTen(|s| - 1) + DigitsValue(s[1..])
  {
    var n := |s|;
    if n > 1 {
      var t := s[..n - 1];
      DigitsMean(t);
      assert t[1..] == s[1..][..n - 2];
      assert DigitsValue(s) == 10 * DigitsValue(t) + (s[n - 1] - DIGIT0);
      assert DigitsValue(s[1..]) == 10 * DigitsValue(t[1..]) + (s[n - 1] - DIGIT0);
      Tenfold(s[0] - 48, PowerOfTen(n - 2));
    } else {
      assert s[..0] == [] && s[1..] == [];
    }
  }

  lemma Tenfold(x: int, y: int)
    ensures 10 * (x * y) == x * (10 * y)
  {
  }

  /** A decimal text has no leading zero, so it is the only one of its number. */
  lemma {:induction false} DecimalIsShort(n: nat)
    ensures n > 0 ==> Decimal(n)[0] != 48
    ensures n == 0 ==> Decimal(n) == [48]
  {
    if n >= 10 { DecimalIsShort(n / 10); }
  }

  datatype Option<+T> = None | Some(value: T)

  datatype Parse = Head | Ref(id: OpID) | Malformed

  /** strconv.ParseUint(s, 10, 64). */
  function ParseUint(s: Str): (r: Option<nat>)
    ensures r.Some? ==> r.value < UINT64_LIMIT
  {
    if s == [] || exists i :: 0 <= i < |s| && !IsDigit(s[i]) then None
    else
      var v := DigitsValue(s);
      if v < UINT64_LIMIT then Some(v) else None
  }

  /** strings.IndexByte: the first position of c, or -1. */
  function IndexByte(s: Str, c: Byte): (r: int)
    ensures -1 <= r < |s|
    ensures r >= 0 ==> s[r] == c
    ensures forall i :: 0 <= i < (if r < 0 then |s| else r) ==> s[i] != c
  {
    if s == [] then -1
    else if s[0] == c then 0
    else var r := IndexByte(s[1..], c); if r < 0 then -1 else r + 1
  }

  /** OpID.String: counter, '@', actor. */
  function Print(id: OpID): Str {
    Decimal(id.counter) + [AT] + id.actor
  }

  /** parseOpIDRef: the empty reference is the head of the sequence. */
  function ParseRef(ref: Str): Parse {
    if ref == [] then Head
    else
      var at := IndexByte(ref, AT);
      if at <= 0 || at == |ref| - 1 then Malformed
      else
        match ParseUint(ref[..at])
        case None => Malformed
        case Some(counter) => Ref(OpID(counter, ref[at + 1..]))
  }

  /** formatOpIDRef. */
  function FormatRef(ref: Option<OpID>): Str {
    match ref
    case None => []
    case Some(id) => Print(id)
  }

  lemma PrintSplit(id: OpID)
    ensures IndexByte(Print(id), AT) == |Decimal(id.counter)|
    ensures Print(id)[..|Decimal(id.counter)|] == Decimal(id.counter)
    ensures Print(id)[|Decimal(id.counter)| + 1..] == id.actor
    ensures Print(id) != []
  {
    var d := Decimal(id.counter);
    var p := Print(id);
    var at := IndexByte(p, AT);
    assert p[|d|] == AT;
    assert forall i :: 0 <= i < |d| ==> p[i] == d[i];
  }

  /** The textual form determines the identity, '@' in the actor included. */
  lemma PrintInjective(a: OpID, b: OpID)
    requires Print(a) == Print(b)
    ensures a == b
  {
    PrintSplit(a);
    PrintSplit(b);
    DecimalValue(a.counter);
    DecimalValue(b.counter);
  }

  /** Parsing the printed form of an identity gives the identity back. */
  lemma ParsePrint(id: OpID)
    requires id.counter < UINT64_LIMIT && id.actor != []
    ensures ParseRef(Print(id)) == Ref(id)
  {
    PrintSplit(id);
    DecimalValue(id.counter);
  }

  /** What parsing accepts is always a 64-bit counter and a non-empty actor. */
  lemma ParseRange(ref: Str)
    requires ParseRef(ref).Ref?
    ensures ParseRef(ref).id.counter < UINT64_LIMIT && ParseRef(ref).id.actor != []
  {
  }

  /** A text that a reference may be: digits of a 64-bit number, an at-sign, an actor. */
  ghost predicate Spells(ref: Str, digits: Str, id: OpID) {
    && digits != [] && (forall i :: 0 <= i < |digits| ==> IsDigit(digits[i])) && DigitsValue(digits) == id.counter
    && id.counter < 0x1_0000_0000_0000_0000 && id.actor != [] && ref == digits + [64] + id.actor
  }

  lemma SpelledParses(ref: Str, digits: Str, id: OpID)
    requires Spells(ref, digits, id)
    ensures ParseRef(ref) == Ref(id)
  {
    assert ref[|digits|] == AT;
    assert forall i :: 0 <= i < |digits| ==> ref[i] == digits[i];
    assert IndexByte(ref, AT) == |digits|;
    assert ref[..|digits|] == digits && ref[|digits| + 1..] == id.actor;
  }

  /** Exactly these texts parse, leading zeros included; the empty text is the head of
      the sequence and every other text is malformed. */
  lemma ParseExact(ref: Str, id: OpID)
    ensures ParseRef(ref) == Ref(id) <==> exists digits :: Spells(ref, digits, id)
    ensures ParseRef(ref) == Head <==> ref == []
  {
    if ParseRef(ref) == Ref(id) {
      var at := IndexByte(ref, AT);
      assert ref == ref[..at] + [64] + ref[at + 1..];
      assert Spells(ref, ref[..at], id);
    }
    forall digits | Spells(ref, digits, id) ensures ParseRef(ref) == Ref(id) { SpelledParses(ref, digits, id); }
  }
}
