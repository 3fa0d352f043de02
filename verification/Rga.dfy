/** The document order of a sequence, as a flat list of elements.

    insertAfter (crdt/seq.go) places an element behind its reference and steps
    over larger identities. orderListElems (crdt/doc.go) walks the reference
    tree in preorder with siblings newest first. Both are tied here to one
    local condition: every element's reference is the nearest preceding element
    with a smaller identity. */
module Rga {
  import opened OpIds
  import opened Values

  ghost predicate UniqueIds(s: seq<Elem>) {
    forall i, j :: 0 <= i < j < |s| ==> s[i].id != s[j].id
  }

  /** Position of an identity, or -1. */
  function IndexOf(s: seq<Elem>, id: OpID): (r: int)
    ensures -1 <= r < |s|
    ensures r >= 0 ==> s[r].id == id
    ensures forall i :: 0 <= i < (if r < 0 then |s| else r) ==> s[i].id != id
  {
    if s == [] then -1
    else if s[0].id == id then 0
    else var r := IndexOf(s[1..], id); if r < 0 then -1 else r + 1
  }

  predicate Contains(s: seq<Elem>, id: OpID) {
    IndexOf(s, id) >= 0
  }

  lemma IndexOfUnique(s: seq<Elem>, k: nat)
    requires UniqueIds(s) && k < |s|
    ensures IndexOf(s, s[k].id) == k
  {
  }

  /** First position from p on whose identity is not larger than x. */
  function SkipGreater(s: seq<Elem>, p: nat, x: OpID): (q: nat)
    requires p <= |s|
    ensures p <= q <= |s|
    ensures forall i :: p <= i < q ==> s[i].id.Greater(x)
    ensures q < |s| ==> !s[q].id.Greater(x)
    decreases |s| - p
  {
    if p < |s| && s[p].id.Greater(x) then SkipGreater(s, p + 1, x) else p
  }

  /** Where insertAfter puts an element. An unknown reference appends. */
  function InsertPosition(s: seq<Elem>, after: Option<OpID>, x: OpID): (q: nat)
    ensures q <= |s|
  {
    var start := if after.None? then 0
                 else if Contains(s, after.value) then IndexOf(s, after.value) + 1
                 else |s|;
    SkipGreater(s, start, x)
  }

  function InsertAfter(s: seq<Elem>, after: Option<OpID>, e: Elem): (t: seq<Elem>)
    ensures Inserted(s, t, InsertPosition(s, after, e.id), e)
  {
    var p := InsertPosition(s, after, e.id);
    s[..p] + [e] + s[p..]
  }

  /** An element whose reference is not there goes to the end; one without a
      reference starts at the head, and both step over nothing that is smaller. */
  lemma UnknownAppends(s: seq<Elem>, after: Option<OpID>, e: Elem)
    ensures after.Some? && !Contains(s, after.value) ==> InsertAfter(s, after, e) == s + [e]
    ensures after.None? && s != [] && !s[0].id.Greater(e.id) ==> InsertAfter(s, after, e) == [e] + s
  {
    hide OpID.Less;
  }

  /** t is s with e added at position p. */
  ghost predicate Inserted(s: seq<Elem>, t: seq<Elem>, p: nat, e: Elem) {
    && p <= |s| && |t| == |s| + 1 && t[p] == e
    && (forall i :: 0 <= i < p ==> t[i] == s[i])
    && (forall i {:trigger t[i]} :: p < i < |t| ==> t[i] == s[i - 1])
  }

  // ---- the order condition ----

  /** The last position before k whose identity is smaller than x, or -1. */
  function NearestSmaller(s: seq<Elem>, x: OpID, k: nat): (m: int)
    requires k <= |s|
    ensures -1 <= m < k
    ensures m >= 0 ==> s[m].id.Less(x)
    ensures forall i :: m < i < k ==> !s[i].id.Less(x)
  {
    if k == 0 then -1
    else if s[k - 1].id.Less(x) then k - 1
    else NearestSmaller(s, x, k - 1)
  }

  function RefAt(s: seq<Elem>, m: int): Str
    requires -1 <= m < |s|
  {
    if m < 0 then [] else Print(s[m].id)
  }

  /** Every reference names the nearest preceding smaller identity. */
  ghost predicate TreeOrdered(s: seq<Elem>) {
    forall j :: 0 <= j < |s| ==> s[j].after == RefAt(s, NearestSmaller(s, s[j].id, j))
  }

  /** The three conditions on NearestSmaller determine it. */
  lemma NearestIs(s: seq<Elem>, x: OpID, k: nat, m: int)
    requires -1 <= m < k <= |s|
    requires m >= 0 ==> s[m].id.Less(x)
    requires forall i :: m < i < k ==> !s[i].id.Less(x)
    ensures NearestSmaller(s, x, k) == m
  {
  }

  /** One inserted element does not change which element is nearest and smaller,
      unless the new element itself is in between and smaller. */
  lemma NearestAfterInsert(s: seq<Elem>, t: seq<Elem>, p: nat, e: Elem, x: OpID, j: nat)
    requires Inserted(s, t, p, e) && p <= j <= |s|
    requires NearestSmaller(s, x, j) < p ==> !e.id.Less(x)
    ensures var m := NearestSmaller(s, x, j);
            NearestSmaller(t, x, j + 1) == if m < p then m else m + 1
  {
    hide OpID.Less;
    var m := NearestSmaller(s, x, j);
    var n := if m < p then m else m + 1;
    NearestIs(t, x, j + 1, n);
  }

  lemma NearestPrefix(s: seq<Elem>, t: seq<Elem>, x: OpID, k: nat)
    requires k <= |s| && k <= |t|
    requires forall i :: 0 <= i < k ==> s[i].id == t[i].id
    ensures NearestSmaller(s, x, k) == NearestSmaller(t, x, k)
  {
  }

  /** Behind the insert position every nearer-smaller relation survives, because
      the element that stopped the step is smaller than the new one. */
  lemma InsertIsNotInTheWay(s: seq<Elem>, p: nat, x: OpID, j: nat)
    requires p <= j < |s| && s[p].id.Less(x)
    requires NearestSmaller(s, s[j].id, j) < p
    ensures !x.Less(s[j].id)
  {
    var y := s[j].id;
    LessIsTotal(s[p].id, y);
    LessIsTotal(x, y);
    LessIsStrictOrder(y, s[p].id, x);
  }

  /** An element behind the insert position keeps its reference. */
  lemma LaterKeepsReference(s: seq<Elem>, t: seq<Elem>, p: nat, e: Elem, j: nat)
    requires Inserted(s, t, p, e) && p < j < |t|
    requires s[p].id.Less(e.id)
    requires s[j - 1].after == RefAt(s, NearestSmaller(s, s[j - 1].id, j - 1))
    ensures t[j].after == RefAt(t, NearestSmaller(t, t[j].id, j))
  {
    hide OpID.Less, Print;
    if NearestSmaller(s, s[j - 1].id, j - 1) < p {
      InsertIsNotInTheWay(s, p, e.id, j - 1);
    }
    NearestAfterInsert(s, t, p, e, t[j].id, j - 1);
  }

  /** insertAfter keeps the order, whatever larger siblings it steps over. */
  lemma InsertKeepsTreeOrder(s: seq<Elem>, after: Option<OpID>, e: Elem)
    requires TreeOrdered(s) && UniqueIds(s) && !Contains(s, e.id)
    requires after.Some? ==> Contains(s, after.value) && after.value.Less(e.id)
    requires e.after == FormatRef(after)
    ensures TreeOrdered(InsertAfter(s, after, e)) && UniqueIds(InsertAfter(s, after, e))
  {
    hide OpID.Less, Print;
    var p := InsertPosition(s, after, e.id);
    var t := InsertAfter(s, after, e);
    forall j | 0 <= j < |t|
      ensures t[j].after == RefAt(t, NearestSmaller(t, t[j].id, j))
    {
      NearestPrefix(s, t, t[j].id, if j < p then j else p);
      if j == p {
        InsertedReference(s, after, e);
      } else if p < j {
        StoppedAtSmaller(s, after, e.id);
        LaterKeepsReference(s, t, p, e, j);
      }
    }
    InsertKeepsUnique(s, t, p, e);
  }

  lemma StoppedAtSmaller(s: seq<Elem>, after: Option<OpID>, x: OpID)
    requires !Contains(s, x)
    ensures var p := InsertPosition(s, after, x); p < |s| ==> s[p].id.Less(x)
  {
    var p := InsertPosition(s, after, x);
    if p < |s| { LessIsTotal(s[p].id, x); }
  }

  /** The step over larger identities leaves the reference the nearest smaller. */
  lemma InsertedReference(s: seq<Elem>, after: Option<OpID>, e: Elem)
    requires UniqueIds(s) && !Contains(s, e.id)
    requires after.Some? ==> Contains(s, after.value) && after.value.Less(e.id)
    ensures var p := InsertPosition(s, after, e.id);
            NearestSmaller(s, e.id, p) == if after.None? then -1 else IndexOf(s, after.value)
  {
    hide StrLess;
    var p := InsertPosition(s, after, e.id);
    var r := if after.None? then -1 else IndexOf(s, after.value);
    forall i | r < i < p ensures !s[i].id.Less(e.id) { LessIsTotal(s[i].id, e.id); }
    NearestIs(s, e.id, p, r);
  }

  lemma InsertKeepsUnique(s: seq<Elem>, t: seq<Elem>, p: nat, e: Elem)
    requires Inserted(s, t, p, e) && UniqueIds(s) && !Contains(s, e.id)
    ensures UniqueIds(t)
  {
  }
}
