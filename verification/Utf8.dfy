/** UTF-8 by arithmetic on code points (RFC 3629, section 3), and what the rune
    conversion of a Go string does with it (crdt/doc.go). */
module Utf8 {
  import opened OpIds
  import opened Runes

  /** A Unicode scalar value: a code point that is not a surrogate. */
  predicate Scalar(c: int) {
    0 <= c < 0xD800 || 0xE000 <= c < 0x110000
  }

  function Tail(x: nat): Byte {
    0x80 + x % 64
  }

  /** The encoding of a scalar value in one to four bytes. */
  function Encoding(c: nat): Str
    requires Scalar(c)
  {
    if c < 0x80 then [c]
    else if c < 0x800 then [0xC0 + c / 64, Tail(c)]
    else if c < 0x10000 then [0xE0 + c / 4096, Tail(c / 64), Tail(c)]
    else [0xF0 + c / 262144, Tail(c / 4096), Tail(c / 64), Tail(c)]
  }

  predicate Scalars(cs: seq<nat>) {
    forall i :: 0 <= i < |cs| ==> Scalar(cs[i])
  }

  /** The encodings of code points one after the other. */
  function Text(cs: seq<nat>): Str
    requires Scalars(cs)
  {
    if cs == [] then [] else Encoding(cs[0]) + Text(cs[1..])
  }

  lemma Regroup(c: nat)
    ensures c == 64 * (c / 64) + c % 64
    ensures c / 64 == 64 * (c / 4096) + c / 64 % 64
    ensures c / 4096 == 64 * (c / 262144) + c / 4096 % 64
  {
  }

  /** Lead and second byte of a long encoding fit together. */
  lemma LeadFits(c: nat)
    requires Scalar(c)
    ensures 0x80 <= c < 0x800 ==> 2 <= c / 64 < 32
    ensures 0x800 <= c < 0x10000 ==> ThirdByteOk(0xE0 + c / 4096, Tail(c / 64))
    ensures 0x10000 <= c ==> FourthByteOk(0xF0 + c / 262144, Tail(c / 4096))
  {
    Regroup(c);
  }

  lemma EncodedWidth(c: nat, s: Str)
    requires Scalar(c)
    ensures WellFormedWidth(Encoding(c) + s) == |Encoding(c)|
  {
    LeadFits(c);
    hide ThirdByteOk, FourthByteOk;
    var e := Encoding(c);
    var t := e + s;
    assert forall i :: 0 <= i < |e| ==> t[i] == e[i];
    LeadsDiffer(t, |e|);
  }

  /** The lead byte tells the length. */
  lemma LeadsDiffer(t: Str, n: nat)
    requires 1 <= n <= 4 && n <= |t| && forall i :: 1 <= i < n ==> Continues(t[i], 0x80, 0xBF)
    requires n == 1 ==> t[0] < 0x80
    requires n == 2 ==> 0xC2 <= t[0] <= 0xDF
    requires n == 3 ==> ThirdByteOk(t[0], t[1])
    requires n == 4 ==> FourthByteOk(t[0], t[1])
    ensures WellFormedWidth(t) == n
  {
  }

  /** One encoded code point becomes one rune, whatever follows. */
  lemma SplitEncoded(c: nat, s: Str)
    requires Scalar(c)
    ensures Split(Encoding(c) + s) == [Encoding(c)] + Split(s)
  {
    var t := Encoding(c) + s;
    EncodedWidth(c, s);
    hide WellFormedWidth, Encoding;
    assert t != [];
    assert t[..|Encoding(c)|] == Encoding(c) && t[|Encoding(c)|..] == s;
  }

  lemma Digits(x: int, y: int)
    requires 0 <= y < 64
    ensures (64 * x + y) / 64 == x && (64 * x + y) % 64 == y
  {
  }

  lemma TwoBytes(a: int, b: int)
    requires 0xC2 <= a <= 0xDF && 0x80 <= b <= 0xBF
    ensures var c := 64 * (a - 0xC0) + (b - 0x80); Scalar(c) && Encoding(c) == [a, b]
  {
    Digits(a - 0xC0, b - 0x80);
  }

  lemma ThreeBytes(a: Byte, b: Byte, d: int)
    requires ThirdByteOk(a, b) && 0x80 <= d <= 0xBF
    ensures var c := 64 * (64 * (a - 0xE0) + (b - 0x80)) + (d - 0x80); Scalar(c) && Encoding(c) == [a, b, d]
  {
    var x: int := 64 * (a - 0xE0) + (b - 0x80);
    Digits(a - 0xE0, b - 0x80);
    Digits(x, d - 0x80);
  }

  lemma FourBytes(a: Byte, b: Byte, d: int, e: int)
    requires FourthByteOk(a, b) && 0x80 <= d <= 0xBF && 0x80 <= e <= 0xBF
    ensures var c := 64 * (64 * (64 * (a - 0xF0) + (b - 0x80)) + (d - 0x80)) + (e - 0x80);
            Scalar(c) && Encoding(c) == [a, b, d, e]
  {
    var x: int := 64 * (a - 0xF0) + (b - 0x80);
    var y: int := 64 * x + (d - 0x80);
    Digits(a - 0xF0, b - 0x80);
    Digits(x, d - 0x80);
    Digits(y, e - 0x80);
  }

  /** A text begins with an encoding exactly when its start is well formed. */
  lemma Begins(s: Str) returns (c: nat)
    requires WellFormedWidth(s) > 0
    ensures Scalar(c) && Encoding(c) == s[..WellFormedWidth(s)]
  {
    var w := WellFormedWidth(s);
    var a: int := s[0];
    if w == 1 {
      c := s[0];
    } else if w == 2 {
      TwoBytes(a, s[1]);
      c := 64 * (a - 0xC0) + (s[1] as int - 0x80);
    } else if w == 3 {
      var b: int, d: int := s[1], s[2];
      ThreeBytes(a, b, d);
      c := 64 * (64 * (a - 0xE0) + (b - 0x80)) + (d - 0x80);
    } else {
      var b: int, d: int, e: int := s[1], s[2], s[3];
      FourBytes(a, b, d, e);
      c := 64 * (64 * (64 * (a - 0xF0) + (b - 0x80)) + (d - 0x80)) + (e - 0x80);
    }
    hide Encoding;
    assert s[..w] == Encoding(c);
  }

  /** A text that starts with no encoding loses one byte to the replacement rune. */
  lemma SplitBad(s: Str)
    requires s != [] && forall c: nat :: Scalar(c) ==> !(Encoding(c) <= s)
    ensures Split(s) == [REPLACEMENT] + Split(s[1..])
  {
    if WellFormedWidth(s) > 0 {
      var c := Begins(s);
      assert false;
    }
  }

  /** The replacement rune is U+FFFD. */
  lemma ReplacementIsFFFD()
    ensures REPLACEMENT == Encoding(0xFFFD)
  {
  }

  /** Splitting the text of some code points gives one rune for each. */
  lemma {:induction false} SplitText(cs: seq<nat>)
    requires Scalars(cs)
    ensures |Split(Text(cs))| == |cs| && forall i :: 0 <= i < |cs| ==> Split(Text(cs))[i] == Encoding(cs[i])
  {
    if cs != [] {
      hide Encoding, Split, WellFormedWidth;
      SplitText(cs[1..]);
      SplitEncoded(cs[0], Text(cs[1..]));
    }
  }

  lemma ValidMore(c: nat, s: Str)
    requires Scalar(c)
    ensures ValidUtf8(Encoding(c) + s) <==> ValidUtf8(s)
  {
    EncodedWidth(c, s);
    hide Encoding, WellFormedWidth;
    assert (Encoding(c) + s)[|Encoding(c)|..] == s;
  }

  lemma {:induction false} TextIsValid(cs: seq<nat>)
    requires Scalars(cs)
    ensures ValidUtf8(Text(cs))
  {
    if cs != [] {
      hide Encoding, ValidUtf8;
      TextIsValid(cs[1..]);
      ValidMore(cs[0], Text(cs[1..]));
    }
  }

  lemma {:induction false} ValidIsText(s: Str) returns (cs: seq<nat>)
    requires ValidUtf8(s)
    ensures Scalars(cs) && Text(cs) == s
  {
    if s == [] {
      cs := [];
    } else {
      hide Encoding, WellFormedWidth;
      var w := WellFormedWidth(s);
      var c := Begins(s);
      var rest := ValidIsText(s[w..]);
      cs := [c] + rest;
      assert cs[1..] == rest;
      assert s == s[..w] + s[w..];
    }
  }

  /** The valid texts are exactly those of code points. */
  lemma ValidIffText(s: Str)
    ensures ValidUtf8(s) <==> exists cs: seq<nat> :: Scalars(cs) && Text(cs) == s
  {
    if ValidUtf8(s) {
      var cs := ValidIsText(s);
    }
    forall cs: seq<nat> | Scalars(cs) && Text(cs) == s ensures ValidUtf8(s) { TextIsValid(cs); }
  }

  /** No encoding is the start of another, so a text spells one list of code points. */
  lemma {:induction false} TextIsUnique(cs: seq<nat>, ds: seq<nat>)
    requires Scalars(cs) && Scalars(ds) && Text(cs) == Text(ds)
    ensures cs == ds
  {
    SplitText(cs);
    SplitText(ds);
    hide Split, Text;
    forall i | 0 <= i < |cs| ensures cs[i] == ds[i] {
      assert Encoding(cs[i]) == Encoding(ds[i]);
      EncodingIsUnique(cs[i], ds[i]);
    }
  }

  lemma EncodingIsUnique(c: nat, d: nat)
    requires Scalar(c) && Scalar(d) && Encoding(c) == Encoding(d)
    ensures c == d
  {
    Regroup(c);
    Regroup(d);
    SameTails(c, d);
  }

  lemma SameTails(c: nat, d: nat)
    requires Scalar(c) && Scalar(d) && Encoding(c) == Encoding(d)
    ensures c < 0x80 || (c % 64 == d % 64 && (c / 64 == d / 64 || c / 64 % 64 == d / 64 % 64))
    ensures if c < 0x80 then c == d else if c < 0x800 then c / 64 == d / 64 && d < 0x800
            else if c < 0x10000 then c / 4096 == d / 4096 && 0x800 <= d < 0x10000
            else c / 262144 == d / 262144 && c / 4096 % 64 == d / 4096 % 64 && d >= 0x10000
  {
    var e, f := Encoding(c), Encoding(d);
    assert |e| == |f|;
    assert forall i :: 0 <= i < |e| ==> e[i] == f[i];
  }
}
