/** The conversion of a Go string to runes and of each rune back to a string, as
    applySpliceLocked uses it (crdt/doc.go). */
module Runes {
  import opened OpIds

  /** Width of a well-formed UTF-8 sequence at the start of s, or 0. */
  function WellFormedWidth(s: Str): (w: nat)
    ensures w <= |s| && w <= 4
  {
    if s == [] then 0
    else if s[0] < 0x80 then 1
    else if 0xC2 <= s[0] <= 0xDF && |s| >= 2 && Continues(s[1], 0x80, 0xBF) then 2
    else if |s| >= 3 && ThirdByteOk(s[0], s[1]) && Continues(s[2], 0x80, 0xBF) then 3
    else if |s| >= 4 && FourthByteOk(s[0], s[1]) && Continues(s[2], 0x80, 0xBF) && Continues(s[3], 0x80, 0xBF) then 4
    else 0
  }

  predicate Continues(b: Byte, low: Byte, high: Byte) {
    low <= b <= high
  }

  predicate ThirdByteOk(lead: Byte, second: Byte) {
    || (lead == 0xE0 && Continues(second, 0xA0, 0xBF))
    || ((0xE1 <= lead <= 0xEC || 0xEE <= lead <= 0xEF) && Continues(second, 0x80, 0xBF))
    || (lead == 0xED && Continues(second, 0x80, 0x9F))
  }

  predicate FourthByteOk(lead: Byte, second: Byte) {
    || (lead == 0xF0 && Continues(second, 0x90, 0xBF))
    || (0xF1 <= lead <= 0xF3 && Continues(second, 0x80, 0xBF))
    || (lead == 0xF4 && Continues(second, 0x80, 0x8F))
  }

  /** The text of the replacement character, which stands for a bad byte. */
  const REPLACEMENT: Str := [0xEF, 0xBF, 0xBD]

  /** The runes of a string, each as its own string. */
  function Split(s: Str): (r: seq<Str>)
    ensures r == [] <==> s == []
    ensures |r| <= |s|
  {
    if s == [] then []
    else
      var w := WellFormedWidth(s);
      if w == 0 then [REPLACEMENT] + Split(s[1..]) else [s[..w]] + Split(s[w..])
  }

  function Concat(rs: seq<Str>): Str {
    if rs == [] then [] else rs[0] + Concat(rs[1..])
  }

  lemma {:induction false} ConcatAppend(a: seq<Str>, b: seq<Str>)
    ensures Concat(a + b) == Concat(a) + Concat(b)
  {
    if a == [] {
      assert a + b == b;
    } else {
      assert (a + b)[1..] == a[1..] + b && (a + b)[0] == a[0];
      ConcatAppend(a[1..], b);
    }
  }

  predicate ValidUtf8(s: Str) {
    s == [] || (WellFormedWidth(s) > 0 && ValidUtf8(s[WellFormedWidth(s)..]))
  }

  /** Splitting and joining gives valid text back, and only valid text. */
  lemma {:induction false} SplitConcat(s: Str)
    ensures Concat(Split(s)) == s <==> ValidUtf8(s)
  {
    if s != [] {
      if WellFormedWidth(s) > 0 {
        SplitConcat(s[WellFormedWidth(s)..]);
        GoodStart(s);
      } else {
        BadStart(s);
      }
    }
  }

  lemma GoodStart(s: Str)
    requires s != [] && WellFormedWidth(s) > 0
    ensures var w := WellFormedWidth(s); Concat(Split(s)) == s <==> Concat(Split(s[w..])) == s[w..]
  {
    var w := WellFormedWidth(s);
    assert s == s[..w] + s[w..];
    assert Split(s)[1..] == Split(s[w..]);
    assert Concat(Split(s)) == s[..w] + Concat(Split(s[w..]));
    hide *;
    if Concat(Split(s)) == s {
      assert Concat(Split(s[w..])) == Concat(Split(s))[w..];
    }
  }

  /** An ill-formed start becomes the replacement rune, which is well formed. */
  lemma BadStart(s: Str)
    requires s != [] && WellFormedWidth(s) == 0
    ensures Concat(Split(s)) != s
  {
    var t := Split(s);
    assert t[0] == REPLACEMENT;
    assert Concat(t) == REPLACEMENT + Concat(t[1..]);
    assert Concat(t)[..3] == REPLACEMENT;
    assert WellFormedWidth(Concat(t)) == 3;
  }

  /** Every element a splice stores holds exactly one rune. */
  lemma {:induction false} SplitSingle(s: Str, i: nat)
    requires i < |Split(s)|
    ensures Split(Split(s)[i]) == [Split(s)[i]]
    decreases |s|
  {
    hide *;
    if i == 0 {
      FirstSingle(s);
    } else {
      var rest := SplitNext(s);
      SplitSingle(rest, i - 1);
    }
  }

  lemma SplitNext(s: Str) returns (rest: Str)
    requires s != []
    ensures |rest| < |s| && Split(s) == [Split(s)[0]] + Split(rest)
  {
    rest := if WellFormedWidth(s) == 0 then s[1..] else s[WellFormedWidth(s)..];
  }

  lemma FirstSingle(s: Str)
    requires s != []
    ensures Split(Split(s)[0]) == [Split(s)[0]]
  {
    var w := WellFormedWidth(s);
    if w == 0 {
      assert WellFormedWidth(REPLACEMENT) == 3;
      assert REPLACEMENT[..3] == REPLACEMENT;
    } else {
      assert WellFormedWidth(s[..w]) == w;
      assert s[..w][..w] == s[..w];
    }
  }
}
