/** orderListElems (crdt/doc.go): the preorder walk of the reference tree, with
    siblings from the newest identity to the oldest. It rebuilds a reachable
    document order from any permutation of its elements. */
module Reorder {
  import opened OpIds
  import opened Values
  import opened Rga
  import opened TreeOrder

  // ---- grouping and sorting ----

  /** children[key]: the elements with that reference, in list order. */
  function WithRef(s: seq<Elem>, key: Str): (r: seq<Elem>)
    ensures forall e :: e in r <==> e in s && e.after == key
  {
    if s == [] then []
    else
      var rest := WithRef(s[1..], key);
      assert s == [s[0]] + s[1..];
      if s[0].after == key then [s[0]] + rest else rest
  }

  lemma {:induction false} WithRefConcat(s: seq<Elem>, t: seq<Elem>, key: Str)
    ensures WithRef(s + t, key) == WithRef(s, key) + WithRef(t, key)
  {
    if s == [] {
      assert s + t == t;
    } else {
      assert (s + t)[0] == s[0] && (s + t)[1..] == s[1..] + t;
      WithRefConcat(s[1..], t, key);
    }
  }

  /** Insertion into a list sorted from the largest identity to the smallest. */
  function InsertDesc(e: Elem, s: seq<Elem>): (r: seq<Elem>)
    ensures multiset(r) == multiset{e} + multiset(s)
  {
    if s == [] then [e]
    else if e.id.Greater(s[0].id) then [e] + s
    else
      assert s == [s[0]] + s[1..];
      [s[0]] + InsertDesc(e, s[1..])
  }

  /** sort.Slice by descending identity. Identities are unique in every list the
      theorems are about, so an unstable sort has no freedom. */
  function SortDesc(s: seq<Elem>): (r: seq<Elem>)
    ensures multiset(r) == multiset(s)
  {
    if s == [] then []
    else
      assert s == [s[0]] + s[1..];
      InsertDesc(s[0], SortDesc(s[1..]))
  }

  ghost predicate Descending(s: seq<Elem>) {
    forall i, j :: 0 <= i < j < |s| ==> s[i].id.Greater(s[j].id)
  }

  ghost predicate NotAscending(s: seq<Elem>) {
    forall i, j :: 0 <= i < j < |s| ==> !s[j].id.Greater(s[i].id)
  }

  lemma {:induction false} InsertDescSorted(e: Elem, s: seq<Elem>)
    requires NotAscending(s)
    ensures NotAscending(InsertDesc(e, s))
  {
    hide OpID.Less;
    if s != [] {
      LessIsTotal(e.id, s[0].id);
      if e.id.Greater(s[0].id) {
        forall j | 0 <= j < |s| ensures !s[j].id.Greater(e.id) {
          LessIsStrictOrder(s[0].id, e.id, s[j].id);
        }
      } else {
        InsertDescSorted(e, s[1..]);
        var r := InsertDesc(e, s[1..]);
        forall j | 0 <= j < |r| ensures !r[j].id.Greater(s[0].id) {
          assert r[j] in multiset(r);
          assert r[j] == e || r[j] in s[1..];
        }
      }
    }
  }

  lemma {:induction false} SortDescSorted(s: seq<Elem>)
    ensures NotAscending(SortDesc(s))
  {
    if s != [] {
      SortDescSorted(s[1..]);
      InsertDescSorted(s[0], SortDesc(s[1..]));
    }
  }

  lemma SortedHead(r: seq<Elem>, t: seq<Elem>)
    requires NotAscending(r) && Descending(t) && multiset(r) == multiset(t) && r != []
    ensures t != [] && r[0] == t[0]
  {
    hide OpID.Less;
    assert r[0] in multiset(t);
    var k :| 0 <= k < |t| && t[k] == r[0];
    assert t[0] in multiset(r);
    var m :| 0 <= m < |r| && r[m] == t[0];
    LessIsTotal(t[0].id, t[0].id);
  }

  lemma {:induction false} SortedIsUnique(r: seq<Elem>, t: seq<Elem>)
    requires NotAscending(r) && Descending(t) && multiset(r) == multiset(t)
    ensures r == t
  {
    assert |multiset(r)| == |r| && |multiset(t)| == |t|;
    if r != [] {
      SortedHead(r, t);
      TailSorted(r, t);
      TailMultiset(r, t);
      SortedIsUnique(r[1..], t[1..]);
      hide *;
      assert r == [r[0]] + r[1..] && t == [t[0]] + t[1..];
    }
  }

  lemma TailMultiset(r: seq<Elem>, t: seq<Elem>)
    requires r != [] && t != [] && r[0] == t[0] && multiset(r) == multiset(t)
    ensures multiset(r[1..]) == multiset(t[1..])
  {
    assert r == [r[0]] + r[1..] && t == [t[0]] + t[1..];
    assert multiset(r[1..]) == multiset(r) - multiset{r[0]};
    assert multiset(t[1..]) == multiset(t) - multiset{t[0]};
  }

  lemma TailSorted(r: seq<Elem>, t: seq<Elem>)
    requires NotAscending(r) && Descending(t) && r != [] && t != []
    ensures NotAscending(r[1..]) && Descending(t[1..])
  {
  }

  lemma {:induction false} WithRefCount(s: seq<Elem>, key: Str, e: Elem)
    ensures multiset(WithRef(s, key))[e] == if e.after == key then multiset(s)[e] else 0
  {
    if s != [] {
      WithRefCount(s[1..], key, e);
      assert s == [s[0]] + s[1..];
      assert multiset(s) == multiset{s[0]} + multiset(s[1..]);
    }
  }

  /** Sorting a group of a permuted list gives the group of the ordered list. */
  lemma SortedGroup(elems: seq<Elem>, s: seq<Elem>, key: Str)
    requires multiset(elems) == multiset(s)
    requires Descending(WithRef(s, key))
    ensures SortDesc(WithRef(elems, key)) == WithRef(s, key)
  {
    forall e ensures multiset(WithRef(elems, key))[e] == multiset(WithRef(s, key))[e] {
      WithRefCount(elems, key, e);
      WithRefCount(s, key, e);
    }
    SortDescSorted(WithRef(elems, key));
    SortedIsUnique(SortDesc(WithRef(elems, key)), WithRef(s, key));
  }

  // ---- the walk ----

  function Keys(s: seq<Elem>): set<Str> {
    set e | e in s :: Print(e.id)
  }

  function Children(elems: seq<Elem>, key: Str): (r: seq<Elem>)
    ensures forall e :: e in r ==> e in elems
  {
    var r := SortDesc(WithRef(elems, key));
    assert forall e :: e in r ==> e in multiset(WithRef(elems, key));
    r
  }

  datatype Walked = Walked(ordered: seq<Elem>, visited: set<Str>)

  /** The loop body of walk, over the children cs of one element. */
  function Walk(elems: seq<Elem>, cs: seq<Elem>, visited: set<Str>): (r: Walked)
    requires forall e :: e in cs ==> e in elems
    ensures visited <= r.visited
    decreases Keys(elems) - visited, |cs|
  {
    if cs == [] then Walked([], visited)
    else
      assert cs == [cs[0]] + cs[1..];
      var key := Print(cs[0].id);
      if key in visited then Walk(elems, cs[1..], visited)
      else
        assert cs[0] in elems && key in Keys(elems);
        var sub := Walk(elems, Children(elems, key), visited + {key});
        var rest := Walk(elems, cs[1..], sub.visited);
        Walked([cs[0]] + sub.ordered + rest.ordered, rest.visited)
  }

  /** The order of the leftovers: by reference text, then by identity. */
  predicate LeftoverLess(a: Elem, b: Elem) {
    if a.after != b.after then StrLess(a.after, b.after) else a.id.Less(b.id)
  }

  function InsertLeftover(e: Elem, s: seq<Elem>): (r: seq<Elem>)
    ensures multiset(r) == multiset{e} + multiset(s)
  {
    if s == [] then [e]
    else if LeftoverLess(e, s[0]) then [e] + s
    else
      assert s == [s[0]] + s[1..];
      [s[0]] + InsertLeftover(e, s[1..])
  }

  function SortLeftovers(s: seq<Elem>): (r: seq<Elem>)
    ensures multiset(r) == multiset(s)
  {
    if s == [] then []
    else
      assert s == [s[0]] + s[1..];
      InsertLeftover(s[0], SortLeftovers(s[1..]))
  }

  function Unvisited(s: seq<Elem>, visited: set<Str>): (r: seq<Elem>)
    ensures forall e :: e in r <==> e in s && Print(e.id) !in visited
  {
    if s == [] then []
    else
      assert s == [s[0]] + s[1..];
      (if Print(s[0].id) in visited then [] else [s[0]]) + Unvisited(s[1..], visited)
  }

  /** orderListElems. Elements the walk from the head does not reach follow, each
      with its own subtree. */
  function OrderElems(elems: seq<Elem>): seq<Elem> {
    var top := Walk(elems, Children(elems, []), {});
    if |top.ordered| == |elems| then top.ordered
    else
      var leftovers := SortLeftovers(Unvisited(elems, top.visited));
      assert forall e :: e in leftovers ==> e in multiset(Unvisited(elems, top.visited));
      top.ordered + Walk(elems, leftovers, top.visited).ordered
  }

  // ---- on an ordered sequence the walk follows the sequence ----

  /** End of the run behind i of identities larger than that at m; m = -1 is the
      head of the sequence, whose run is everything. */
  function RunEnd(s: seq<Elem>, m: int, i: nat): (e: nat)
    requires -1 <= m < i <= |s|
    ensures i <= e <= |s|
  {
    if m < 0 then |s| else SkipGreater(s, i, s[m].id)
  }

  /** An element is a child of m exactly when m is its nearest smaller. */
  lemma ChildOf(s: seq<Elem>, m: int, j: nat)
    requires TreeOrdered(s) && UniqueIds(s) && -1 <= m < |s| && j < |s|
    ensures s[j].after == RefAt(s, m) <==> NearestSmaller(s, s[j].id, j) == m
  {
    hide OpID.Less, Decimal;
    var n := NearestSmaller(s, s[j].id, j);
    if n >= 0 { PrintSplit(s[n].id); }
    if m >= 0 { PrintSplit(s[m].id); }
    if s[j].after == RefAt(s, m) && m >= 0 && n >= 0 {
      PrintInjective(s[n].id, s[m].id);
    }
  }

  lemma SkipRange(s: seq<Elem>, i: nat, f: nat, key: Str)
    requires i <= f <= |s| && forall j :: i <= j < f ==> s[j].after != key
    ensures WithRef(s[i..], key) == WithRef(s[f..], key)
  {
    assert s[i..] == s[i..f] + s[f..];
    WithRefConcat(s[i..f], s[f..], key);
    NoneWithRef(s[i..f], key);
  }

  lemma {:induction false} NoneWithRef(s: seq<Elem>, key: Str)
    requires forall e :: e in s ==> e.after != key
    ensures WithRef(s, key) == []
  {
    if s != [] { NoneWithRef(s[1..], key); }
  }

  lemma {:induction false} GroupDescending(s: seq<Elem>, m: int, i: nat)
    requires TreeOrdered(s) && UniqueIds(s) && -1 <= m < |s| && m < i <= |s|
    ensures Descending(WithRef(s[i..], RefAt(s, m)))
    decreases |s| - i
  {
    hide OpID.Less, Print, TreeOrdered;
    if i < |s| {
      GroupDescending(s, m, i + 1);
      var rest := WithRef(s[i + 1..], RefAt(s, m));
      assert s[i..][1..] == s[i + 1..];
      forall k | 0 <= k < |rest| && s[i].after == RefAt(s, m)
        ensures s[i].id.Greater(rest[k].id)
      {
        assert rest[k] in rest;
        var j :| i + 1 <= j < |s| && s[j] == rest[k];
        ChildOf(s, m, j);
        LessIsTotal(s[i].id, s[j].id);
      }
    }
  }

  /** No element up to and including m refers to m. */
  lemma SortedChildren(elems: seq<Elem>, s: seq<Elem>, m: int)
    requires multiset(elems) == multiset(s) && TreeOrdered(s) && UniqueIds(s) && -1 <= m < |s|
    ensures Children(elems, RefAt(s, m)) == WithRef(s[m + 1..], RefAt(s, m))
  {
    hide OpID.Less, Print, TreeOrdered, UniqueIds, Descending;
    forall j | 0 <= j < m + 1 ensures s[j].after != RefAt(s, m) { ChildOf(s, m, j); }
    SkipRange(s, 0, m + 1, RefAt(s, m));
    assert s[0..] == s;
    GroupDescending(s, m, m + 1);
    SortedGroup(elems, s, RefAt(s, m));
  }

  // Facts about the run of a child i of m, whose own run ends at f.

  lemma ChildRunInside(s: seq<Elem>, m: int, i: nat)
    requires -1 <= m < i < |s| && i < RunEnd(s, m, i)
    requires NearestSmaller(s, s[i].id, i) == m
    ensures RunEnd(s, i, i + 1) <= RunEnd(s, m, i)
    ensures RunEnd(s, m, RunEnd(s, i, i + 1)) == RunEnd(s, m, i)
  {
    hide StrLess;
    var e, f := RunEnd(s, m, i), RunEnd(s, i, i + 1);
    if m >= 0 && e < f {
      LessIsStrictOrder(s[m].id, s[i].id, s[e].id);
    }
    if m >= 0 { SkipGreaterFrom(s, i, f, s[m].id); }
  }

  lemma SkipGreaterFrom(s: seq<Elem>, i: nat, f: nat, x: OpID)
    requires i <= |s| && i <= f <= SkipGreater(s, i, x)
    ensures SkipGreater(s, f, x) == SkipGreater(s, i, x)
    decreases f - i
  {
  }

  lemma NextSibling(s: seq<Elem>, m: int, i: nat)
    requires UniqueIds(s) && -1 <= m < i < |s| && i < RunEnd(s, m, i)
    requires NearestSmaller(s, s[i].id, i) == m
    ensures var f := RunEnd(s, i, i + 1);
            f < RunEnd(s, m, i) ==> NearestSmaller(s, s[f].id, f) == m
  {
    hide StrLess;
    var f := RunEnd(s, i, i + 1);
    if f < RunEnd(s, m, i) {
      LessIsTotal(s[f].id, s[i].id);
      forall j | m < j < f ensures !s[j].id.Less(s[f].id) {
        LessIsTotal(s[j].id, s[i].id);
        LessIsStrictOrder(s[f].id, s[i].id, s[j].id);
        LessIsTotal(s[j].id, s[f].id);
      }
      NearestIs(s, s[f].id, f, m);
    }
  }

  lemma FirstChild(s: seq<Elem>, i: nat)
    requires i + 1 < |s| && i + 1 < RunEnd(s, i, i + 1)
    ensures NearestSmaller(s, s[i + 1].id, i + 1) == i
  {
  }

  lemma NoSiblingInside(s: seq<Elem>, m: int, i: nat)
    requires TreeOrdered(s) && UniqueIds(s) && -1 <= m < i < |s|
    ensures forall j :: i < j < RunEnd(s, i, i + 1) ==> s[j].after != RefAt(s, m)
  {
    hide OpID.Less, Print, TreeOrdered;
    forall j | i < j < RunEnd(s, i, i + 1) ensures s[j].after != RefAt(s, m) {
      ChildOf(s, m, j);
    }
  }

  lemma PastTheRun(s: seq<Elem>, m: int, i: nat)
    requires TreeOrdered(s) && UniqueIds(s) && -1 <= m < i <= |s|
    requires i == RunEnd(s, m, i)
    ensures WithRef(s[i..], RefAt(s, m)) == []
  {
    hide StrLess, Print, TreeOrdered;
    forall j | i <= j < |s| ensures s[j].after != RefAt(s, m) {
      ChildOf(s, m, j);
      if NearestSmaller(s, s[j].id, j) == m {
        LessIsTotal(s[i].id, s[m].id);
        LessIsStrictOrder(s[i].id, s[m].id, s[j].id);
      }
    }
    SkipRange(s, i, |s|, RefAt(s, m));
  }

  function KeyRange(s: seq<Elem>, i: nat, e: nat): set<Str>
    requires i <= e <= |s|
  {
    set j | i <= j < e :: Print(s[j].id)
  }

  lemma KeysApart(s: seq<Elem>, i: nat, f: nat, e: nat)
    requires UniqueIds(s) && i < f <= e <= |s|
    ensures Print(s[i].id) !in KeyRange(s, i + 1, f)
    ensures Print(s[i].id) !in KeyRange(s, f, e)
    ensures KeyRange(s, i + 1, f) !! KeyRange(s, f, e)
    ensures KeyRange(s, i, e) == {Print(s[i].id)} + KeyRange(s, i + 1, f) + KeyRange(s, f, e)
  {
    hide Print;
    forall j, k | i <= j < k < e ensures Print(s[j].id) != Print(s[k].id) {
      if Print(s[j].id) == Print(s[k].id) { PrintInjective(s[j].id, s[k].id); }
    }
    assert Print(s[i].id) in KeyRange(s, i, e);
    assert KeyRange(s, i + 1, f) <= KeyRange(s, i, e);
    assert KeyRange(s, f, e) <= KeyRange(s, i, e);
  }

  /** The walk over the children of m from i on yields the rest of m's run. */
  ghost predicate WalksRun(elems: seq<Elem>, s: seq<Elem>, m: int, i: nat, visited: set<Str>)
    requires -1 <= m < i <= |s|
  {
    var e := RunEnd(s, m, i);
    var cs := WithRef(s[i..], RefAt(s, m));
    && From(elems, cs)
    && Walk(elems, cs, visited) == Walked(s[i..e], visited + KeyRange(s, i, e))
  }

  lemma {:induction false} WalkRun(elems: seq<Elem>, s: seq<Elem>, m: int, i: nat, visited: set<Str>)
    requires multiset(elems) == multiset(s) && TreeOrdered(s) && UniqueIds(s)
    requires -1 <= m < i <= |s|
    requires i < RunEnd(s, m, i) ==> NearestSmaller(s, s[i].id, i) == m
    requires visited !! KeyRange(s, i, RunEnd(s, m, i))
    ensures WalksRun(elems, s, m, i, visited)
    decreases |s| - i
  {
    hide OpID.Less, Print, TreeOrdered, UniqueIds, NearestSmaller, SkipGreater, RunEnd, KeyRange, WalksRun, Walk;
    var e := RunEnd(s, m, i);
    if i == e {
      EmptyRun(elems, s, m, i, visited);
    } else {
      var f := RunEnd(s, i, i + 1);
      var key := Print(s[i].id);
      ChildRunInside(s, m, i);
      KeysApart(s, i, f, e);
      if i + 1 < f { FirstChild(s, i); }
      WalkRun(elems, s, i, i + 1, visited + {key});
      NextSibling(s, m, i);
      WalkRun(elems, s, m, f, visited + {key} + KeyRange(s, i + 1, f));
      NonEmptyRun(elems, s, m, i, visited);
    }
  }

  lemma EmptyRun(elems: seq<Elem>, s: seq<Elem>, m: int, i: nat, visited: set<Str>)
    requires TreeOrdered(s) && UniqueIds(s) && -1 <= m < i <= |s|
    requires i == RunEnd(s, m, i)
    ensures WalksRun(elems, s, m, i, visited)
  {
    hide Print, TreeOrdered, UniqueIds, NearestSmaller, SkipGreater;
    PastTheRun(s, m, i);
  }

  lemma NonEmptyRun(elems: seq<Elem>, s: seq<Elem>, m: int, i: nat, visited: set<Str>)
    requires multiset(elems) == multiset(s) && TreeOrdered(s) && UniqueIds(s)
    requires -1 <= m < i < |s| && i < RunEnd(s, m, i) && NearestSmaller(s, s[i].id, i) == m
    requires visited !! KeyRange(s, i, RunEnd(s, m, i))
    requires WalksRun(elems, s, i, i + 1, visited + {Print(s[i].id)})
    requires var f := RunEnd(s, i, i + 1);
             && RunEnd(s, m, f) == RunEnd(s, m, i)
             && WalksRun(elems, s, m, f, visited + {Print(s[i].id)} + KeyRange(s, i + 1, f))
    ensures WalksRun(elems, s, m, i, visited)
  {
    hide OpID.Less, Print, TreeOrdered, UniqueIds, NearestSmaller, SkipGreater, RunEnd, KeyRange, Walk, Children, WithRef;
    var e, f := RunEnd(s, m, i), RunEnd(s, i, i + 1);
    var key := Print(s[i].id);
    KeysApart(s, i, f, e);
    SortedChildren(elems, s, i);
    GroupStep(s, m, i);
    FromGroup(elems, s, i, RefAt(s, m));
    WalkUnfold(elems, s[i], WithRef(s[f..], RefAt(s, m)), visited);
    assert s[i..e] == [s[i]] + s[i + 1..f] + s[f..e];
    assert visited + {key} + KeyRange(s, i + 1, f) + KeyRange(s, f, e) == visited + KeyRange(s, i, e);
  }

  lemma WalkUnfold(elems: seq<Elem>, c: Elem, tail: seq<Elem>, visited: set<Str>)
    requires From(elems, [c] + tail) && Print(c.id) !in visited
    ensures From(elems, tail)
    ensures var sub := Walk(elems, Children(elems, Print(c.id)), visited + {Print(c.id)});
            var rest := Walk(elems, tail, sub.visited);
            Walk(elems, [c] + tail, visited) == Walked([c] + sub.ordered + rest.ordered, rest.visited)
  {
    var cs := [c] + tail;
    assert cs[0] == c && cs[1..] == tail;
    forall e | e in tail ensures e in elems { assert e in cs; }
  }

  lemma GroupStep(s: seq<Elem>, m: int, i: nat)
    requires TreeOrdered(s) && UniqueIds(s) && -1 <= m < i < |s|
    requires NearestSmaller(s, s[i].id, i) == m
    ensures var f := RunEnd(s, i, i + 1);
            WithRef(s[i..], RefAt(s, m)) == [s[i]] + WithRef(s[f..], RefAt(s, m))
  {
    hide OpID.Less, Print, TreeOrdered, UniqueIds, NearestSmaller, SkipGreater;
    ChildOf(s, m, i);
    NoSiblingInside(s, m, i);
    SkipRange(s, i + 1, RunEnd(s, i, i + 1), RefAt(s, m));
    assert s[i..][1..] == s[i + 1..];
  }

  ghost predicate From(elems: seq<Elem>, cs: seq<Elem>) {
    forall e :: e in cs ==> e in elems
  }

  lemma FromGroup(elems: seq<Elem>, s: seq<Elem>, i: nat, key: Str)
    requires multiset(elems) == multiset(s) && i <= |s|
    ensures From(elems, WithRef(s[i..], key))
  {
    forall e | e in WithRef(s[i..], key) ensures e in elems {
      assert e in s;
      assert e in multiset(elems);
    }
  }

  /** orderListElems rebuilds an ordered sequence from any permutation of it; in
      particular it leaves an ordered sequence alone. */
  lemma OrderRebuilds(elems: seq<Elem>, s: seq<Elem>)
    requires multiset(elems) == multiset(s) && TreeOrdered(s) && UniqueIds(s)
    ensures OrderElems(elems) == s
  {
    hide OpID.Less, Print, TreeOrdered, UniqueIds, NearestSmaller, Walk, Children, WithRef;
    assert |multiset(elems)| == |elems| && |multiset(s)| == |s|;
    SortedChildren(elems, s, -1);
    if s != [] { NearestIs(s, s[0].id, 0, -1); }
    WalkRun(elems, s, -1, 0, {});
    assert s[0..|s|] == s;
  }

  // ---- every list with valid references ----

  /** Each reference is empty or names a smaller element of the list. */
  ghost predicate ValidRef(elems: seq<Elem>, e: Elem) {
    e.after == [] || exists k :: 0 <= k < |elems| && e.after == Print(elems[k].id) && elems[k].id.Less(e.id)
  }

  ghost predicate ValidRefs(elems: seq<Elem>) {
    UniqueIds(elems) && forall i :: 0 <= i < |elems| ==> ValidRef(elems, elems[i])
  }

  lemma RefsWithoutMax(elems: seq<Elem>, t: seq<Elem>, m: nat)
    requires ValidRefs(elems) && m < |elems| && Inserted(t, elems, m, elems[m])
    requires forall i :: 0 <= i < |elems| && i != m ==> elems[i].id.Less(elems[m].id)
    ensures ValidRefs(t)
    ensures elems[m].after == [] ||
            exists k :: 0 <= k < |t| && elems[m].after == Print(t[k].id) && t[k].id.Less(elems[m].id)
  {
    hide OpID.Less, Print;
    RemoveUnique(elems, t, m);
    LessIsTotal(elems[m].id, elems[m].id);
    forall i | 0 <= i < |t| ensures ValidRef(t, t[i]) {
      var i' := if i < m then i else i + 1;
      assert ValidRef(elems, elems[i']);
      LessIsTotal(t[i].id, elems[m].id);
      if t[i].after != [] {
        var k :| 0 <= k < |elems| && t[i].after == Print(elems[k].id) && elems[k].id.Less(t[i].id);
        assert k != m;
        assert t[if k < m then k else k - 1] == elems[k];
      }
    }
    assert ValidRef(elems, elems[m]);
    if elems[m].after != [] {
      var k :| 0 <= k < |elems| && elems[m].after == Print(elems[k].id) && elems[k].id.Less(elems[m].id);
      assert t[if k < m then k else k - 1] == elems[k];
    }
  }

  lemma InsertedMultiset(s: seq<Elem>, t: seq<Elem>, p: nat, e: Elem)
    requires Inserted(s, t, p, e)
    ensures multiset(t) == multiset(s) + multiset{e}
  {
    assert t == s[..p] + [e] + s[p..];
    assert s == s[..p] + s[p..];
  }

  /** Valid references always admit an ordered arrangement. */
  lemma {:induction false} OrderExists(elems: seq<Elem>) returns (s: seq<Elem>)
    requires ValidRefs(elems)
    ensures TreeOrdered(s) && UniqueIds(s) && multiset(s) == multiset(elems)
    decreases |elems|
  {
    if elems == [] {
      s := [];
    } else {
      hide OpID.Less, Print, TreeOrdered, UniqueIds, ValidRefs;
      var m := MaxIndex(elems);
      var e, rest := elems[m], RemoveAt(elems, m);
      assert UniqueIds(elems) by { ValidRefsUnique(elems); }
      MaxIsStrict(elems);
      RefsWithoutMax(elems, rest, m);
      InsertedMultiset(rest, elems, m, e);
      var s' := OrderExists(rest);
      RemoveUnique(elems, rest, m);
      SameContains(rest, s', e.id);
      var after: Option<OpID> := None;
      if e.after != [] {
        var k :| 0 <= k < |rest| && e.after == Print(rest[k].id) && rest[k].id.Less(e.id);
        after := Some(rest[k].id);
        assert rest[k] in rest;
        SameContains(rest, s', rest[k].id);
      }
      InsertKeepsTreeOrder(s', after, e);
      s := InsertAfter(s', after, e);
      InsertedMultiset(s', s, InsertPosition(s', after, e.id), e);
    }
  }

  lemma ValidRefsUnique(elems: seq<Elem>)
    requires ValidRefs(elems)
    ensures UniqueIds(elems)
  {
  }

  lemma SameContains(s: seq<Elem>, t: seq<Elem>, id: OpID)
    requires multiset(s) == multiset(t)
    ensures Contains(s, id) == Contains(t, id)
  {
    if Contains(s, id) {
      assert s[IndexOf(s, id)] in multiset(t);
    }
    if Contains(t, id) {
      assert t[IndexOf(t, id)] in multiset(s);
    }
  }

  /** orderListElems turns any list with valid references into the document
      order, losing and inventing nothing. */
  lemma OrderElemsOrders(elems: seq<Elem>)
    requires ValidRefs(elems)
    ensures TreeOrdered(OrderElems(elems)) && multiset(OrderElems(elems)) == multiset(elems)
  {
    var s := OrderExists(elems);
    OrderRebuilds(elems, s);
  }

  // ---- any list ----

  ghost predicate DistinctKeys(s: seq<Elem>) {
    forall i, j :: 0 <= i < j < |s| ==> Print(s[i].id) != Print(s[j].id)
  }

  ghost predicate NoneIn(s: seq<Elem>, visited: set<Str>) {
    forall e :: e in s ==> Print(e.id) !in visited
  }

  lemma JoinKeys(a: seq<Elem>, b: seq<Elem>, visited: set<Str>)
    requires DistinctKeys(a) && DistinctKeys(b) && NoneIn(a, visited) && NoneIn(b, visited + Keys(a))
    ensures DistinctKeys(a + b) && NoneIn(a + b, visited) && Keys(a + b) == Keys(a) + Keys(b)
  {
    hide Print;
    var s := a + b;
    forall i, j | 0 <= i < j < |s| ensures Print(s[i].id) != Print(s[j].id) {
      if i < |a| <= j {
        assert s[i] in a && s[j] in b;
        assert Print(s[i].id) in Keys(a);
      }
    }
    assert forall e :: e in s <==> e in a || e in b;
  }

  /** A walk lists elements of the list, none of them visited before and none twice,
      and leaves no child behind. */
  lemma {:induction false} WalkCovers(elems: seq<Elem>, cs: seq<Elem>, visited: set<Str>)
    requires From(elems, cs)
    ensures var r := Walk(elems, cs, visited);
            && From(elems, r.ordered) && DistinctKeys(r.ordered) && NoneIn(r.ordered, visited)
            && r.visited == visited + Keys(r.ordered)
            && forall c :: c in cs ==> Print(c.id) in r.visited
    decreases Keys(elems) - visited, |cs|
  {
    hide Print, DistinctKeys, NoneIn, Children;
    if cs == [] {
      NothingWalked(visited);
    } else {
      assert cs == [cs[0]] + cs[1..];
      var key := Print(cs[0].id);
      if key in visited {
        WalkCovers(elems, cs[1..], visited);
      } else {
        assert key in Keys(elems);
        var sub := Walk(elems, Children(elems, key), visited + {key});
        var rest := Walk(elems, cs[1..], sub.visited);
        WalkCovers(elems, Children(elems, key), visited + {key});
        WalkCovers(elems, cs[1..], sub.visited);
        OneKey(cs[0], visited);
        JoinKeys([cs[0]], sub.ordered, visited);
        assert visited + Keys([cs[0]] + sub.ordered) == sub.visited;
        JoinKeys([cs[0]] + sub.ordered, rest.ordered, visited);
        WalkUnfold(elems, cs[0], cs[1..], visited);
      }
    }
  }

  lemma NothingWalked(visited: set<Str>)
    ensures DistinctKeys([]) && NoneIn([], visited) && visited + Keys([]) == visited
  {
  }

  lemma OneKey(e: Elem, visited: set<Str>)
    requires Print(e.id) !in visited
    ensures DistinctKeys([e]) && NoneIn([e], visited) && Keys([e]) == {Print(e.id)}
  {
    hide Print;
  }

  lemma {:induction false} SingleCount(s: seq<Elem>, e: Elem)
    requires UniqueIds(s)
    ensures multiset(s)[e] == if e in s then 1 else 0
  {
    if s != [] {
      assert s == [s[0]] + s[1..];
      SingleCount(s[1..], e);
    }
  }

  lemma DistinctIsUnique(s: seq<Elem>)
    requires DistinctKeys(s)
    ensures UniqueIds(s)
  {
    hide Print;
  }

  /** A list of the same length, or one that reaches every key, is a permutation. */
  lemma SameElements(elems: seq<Elem>, out: seq<Elem>)
    requires UniqueIds(elems) && DistinctKeys(out) && From(elems, out)
    requires |out| == |elems| || forall e :: e in elems ==> Print(e.id) in Keys(out)
    ensures multiset(out) == multiset(elems)
  {
    DistinctIsUnique(out);
    forall e ensures multiset(out)[e] <= multiset(elems)[e] {
      SingleCount(out, e);
      SingleCount(elems, e);
    }
    assert |multiset(out)| == |out| && |multiset(elems)| == |elems|;
    if |out| == |elems| {
      var rest := multiset(elems) - multiset(out);
      assert multiset(elems) == multiset(out) + rest && |rest| == 0;
    } else {
      forall e | e in elems ensures e in out { KeyElement(elems, out, e); }
      forall e ensures multiset(out)[e] == multiset(elems)[e] {
        SingleCount(out, e);
        SingleCount(elems, e);
      }
    }
  }

  lemma KeyElement(elems: seq<Elem>, out: seq<Elem>, e: Elem)
    requires UniqueIds(elems) && From(elems, out) && e in elems && Print(e.id) in Keys(out)
    ensures e in out
  {
    hide Print;
    var f :| f in out && Print(f.id) == Print(e.id);
    PrintInjective(f.id, e.id);
    assert f in elems;
  }

  /** orderListElems never loses, doubles or invents an element, whatever the
      references are: dangling, circular or pointing to larger identities. */
  lemma OrderElemsKeeps(elems: seq<Elem>)
    requires UniqueIds(elems)
    ensures multiset(OrderElems(elems)) == multiset(elems)
  {
    hide Print, DistinctKeys, Walk, Children, Unvisited, NoneIn;
    var top := Walk(elems, Children(elems, []), {});
    WalkCovers(elems, Children(elems, []), {});
    if |top.ordered| == |elems| {
      SameElements(elems, top.ordered);
    } else {
      var left := Unvisited(elems, top.visited);
      var leftovers := SortLeftovers(left);
      forall e ensures e in leftovers <==> e in left { assert e in multiset(leftovers) <==> e in multiset(left); }
      var rest := Walk(elems, leftovers, top.visited);
      WalkCovers(elems, leftovers, top.visited);
      JoinKeys(top.ordered, rest.ordered, {});
      forall e | e in elems ensures Print(e.id) in Keys(top.ordered + rest.ordered) {
        assert Print(e.id) in top.visited || e in leftovers;
      }
      SameElements(elems, top.ordered + rest.ordered);
    }
  }

  // ---- the order of the list does not matter ----

  lemma LeftoverIsOrder(a: Elem, b: Elem, c: Elem)
    ensures LeftoverLess(a, b) && LeftoverLess(b, c) ==> LeftoverLess(a, c)
    ensures !(LeftoverLess(a, b) && LeftoverLess(b, a))
    ensures a.id != b.id ==> LeftoverLess(a, b) || LeftoverLess(b, a)
  {
    hide OpID.Less;
    StrLessIsStrictOrder(a.after, b.after, c.after);
    StrLessIsTotal(a.after, b.after);
    LessIsStrictOrder(a.id, b.id, c.id);
    LessIsTotal(a.id, b.id);
  }

  ghost predicate LeftoverSorted(s: seq<Elem>) {
    forall i, j :: 0 <= i < j < |s| ==> !LeftoverLess(s[j], s[i])
  }

  lemma {:induction false} InsertLeftoverSorted(e: Elem, s: seq<Elem>)
    requires LeftoverSorted(s) && forall f :: f in s ==> f.id != e.id
    ensures LeftoverSorted(InsertLeftover(e, s))
  {
    hide LeftoverLess;
    if s != [] {
      LeftoverIsOrder(e, s[0], e);
      if LeftoverLess(e, s[0]) {
        forall j | 0 <= j < |s| ensures !LeftoverLess(s[j], e) { LeftoverIsOrder(s[j], e, s[0]); }
      } else {
        InsertLeftoverSorted(e, s[1..]);
        var r := InsertLeftover(e, s[1..]);
        forall j | 0 <= j < |r| ensures !LeftoverLess(r[j], s[0]) {
          assert r[j] in multiset(r);
          assert r[j] == e || r[j] in s[1..];
        }
      }
    }
  }

  lemma {:induction false} SortLeftoversSorted(s: seq<Elem>)
    requires UniqueIds(s)
    ensures LeftoverSorted(SortLeftovers(s))
  {
    if s != [] {
      SortLeftoversSorted(s[1..]);
      var r := SortLeftovers(s[1..]);
      forall f | f in r ensures f.id != s[0].id { assert f in multiset(s[1..]); }
      InsertLeftoverSorted(s[0], r);
    }
  }

  lemma LeftoverHead(r: seq<Elem>, t: seq<Elem>)
    requires LeftoverSorted(r) && LeftoverSorted(t) && UniqueIds(t) && multiset(r) == multiset(t) && r != []
    ensures t != [] && r[0] == t[0]
  {
    hide LeftoverLess;
    assert r[0] in multiset(t);
    var k :| 0 <= k < |t| && t[k] == r[0];
    assert t[0] in multiset(r);
    var m :| 0 <= m < |r| && r[m] == t[0];
    LeftoverIsOrder(t[0], r[0], t[0]);
  }

  lemma {:induction false} LeftoversAreUnique(r: seq<Elem>, t: seq<Elem>)
    requires LeftoverSorted(r) && LeftoverSorted(t) && UniqueIds(t) && multiset(r) == multiset(t)
    ensures r == t
  {
    hide LeftoverLess;
    assert |multiset(r)| == |r| && |multiset(t)| == |t|;
    if r != [] {
      LeftoverHead(r, t);
      TailMultiset(r, t);
      LeftoversAreUnique(r[1..], t[1..]);
      assert r == [r[0]] + r[1..] && t == [t[0]] + t[1..];
    }
  }

  lemma SortsAlike(p: seq<Elem>, q: seq<Elem>)
    requires multiset(p) == multiset(q) && UniqueIds(q)
    ensures SortDesc(p) == SortDesc(q) && SortLeftovers(p) == SortLeftovers(q)
  {
    UniquePermuted(q, p);
    UniquePermuted(q, SortDesc(q));
    UniquePermuted(q, SortLeftovers(q));
    SortDescSorted(p);
    SortDescSorted(q);
    hide InsertDesc, InsertLeftover, LeftoverLess;
    var t := SortDesc(q);
    forall i, j | 0 <= i < j < |t| ensures t[i].id.Greater(t[j].id) { LessIsTotal(t[i].id, t[j].id); }
    SortedIsUnique(SortDesc(p), t);
    SortLeftoversSorted(p);
    SortLeftoversSorted(q);
    LeftoversAreUnique(SortLeftovers(p), SortLeftovers(q));
  }

  lemma UniquePermuted(s: seq<Elem>, t: seq<Elem>)
    requires UniqueIds(s) && multiset(s) == multiset(t)
    ensures UniqueIds(t)
  {
    forall i, j | 0 <= i < j < |t| ensures t[i].id != t[j].id {
      assert t[i] in multiset(s) && t[j] in multiset(s);
      if t[i] == t[j] { TwiceThere(t, i, j); SingleCount(s, t[i]); }
    }
  }

  lemma TwiceThere(t: seq<Elem>, i: nat, j: nat)
    requires i < j < |t| && t[i] == t[j]
    ensures multiset(t)[t[i]] >= 2
  {
    assert t == t[..j] + [t[j]] + t[j + 1..];
    assert t[..j][i] == t[i];
    assert t[i] in multiset(t[..j]);
  }

  lemma {:induction false} UnvisitedCount(s: seq<Elem>, visited: set<Str>, e: Elem)
    ensures multiset(Unvisited(s, visited))[e] == if Print(e.id) in visited then 0 else multiset(s)[e]
  {
    hide Print;
    if s != [] {
      assert s == [s[0]] + s[1..];
      UnvisitedCount(s[1..], visited, e);
      assert multiset(s) == multiset{s[0]} + multiset(s[1..]);
    }
  }

  lemma {:induction false} UnvisitedUnique(s: seq<Elem>, visited: set<Str>)
    requires UniqueIds(s)
    ensures UniqueIds(Unvisited(s, visited))
  {
    if s != [] {
      UnvisitedUnique(s[1..], visited);
    }
  }

  lemma {:induction false} WithRefUnique(s: seq<Elem>, key: Str)
    requires UniqueIds(s)
    ensures UniqueIds(WithRef(s, key))
  {
    if s != [] {
      WithRefUnique(s[1..], key);
    }
  }

  lemma ChildrenAlike(p: seq<Elem>, q: seq<Elem>, key: Str)
    requires multiset(p) == multiset(q) && UniqueIds(q)
    ensures Children(p, key) == Children(q, key)
  {
    forall e ensures multiset(WithRef(p, key))[e] == multiset(WithRef(q, key))[e] {
      WithRefCount(p, key, e);
      WithRefCount(q, key, e);
    }
    WithRefUnique(q, key);
    SortsAlike(WithRef(p, key), WithRef(q, key));
  }

  lemma {:induction false} WalksAlike(p: seq<Elem>, q: seq<Elem>, cs: seq<Elem>, visited: set<Str>)
    requires multiset(p) == multiset(q) && UniqueIds(q) && From(p, cs) && From(q, cs)
    ensures Walk(p, cs, visited) == Walk(q, cs, visited)
    decreases Keys(p) - visited, |cs|
  {
    hide Print, Children, UniqueIds;
    if cs != [] {
      assert cs == [cs[0]] + cs[1..];
      var key := Print(cs[0].id);
      if key in visited {
        WalksAlike(p, q, cs[1..], visited);
      } else {
        assert key in Keys(p);
        ChildrenAlike(p, q, key);
        WalksAlike(p, q, Children(p, key), visited + {key});
        WalksAlike(p, q, cs[1..], Walk(p, Children(p, key), visited + {key}).visited);
      }
    }
  }

  /** The order depends on the elements alone, whatever their references are and
      whatever order they come in. */
  lemma OrderElemsAlike(p: seq<Elem>, q: seq<Elem>)
    requires multiset(p) == multiset(q) && UniqueIds(q)
    ensures OrderElems(p) == OrderElems(q)
  {
    hide Print, Children, UniqueIds, Walk, Unvisited, SortLeftovers;
    assert |multiset(p)| == |p| && |multiset(q)| == |q|;
    ChildrenAlike(p, q, []);
    WalksAlike(p, q, Children(p, []), {});
    var visited := Walk(p, Children(p, []), {}).visited;
    forall e ensures multiset(Unvisited(p, visited))[e] == multiset(Unvisited(q, visited))[e] {
      UnvisitedCount(p, visited, e);
      UnvisitedCount(q, visited, e);
    }
    UnvisitedUnique(q, visited);
    SortsAlike(Unvisited(p, visited), Unvisited(q, visited));
    var leftovers := SortLeftovers(Unvisited(p, visited));
    forall e | e in leftovers ensures e in p && e in q {
      assert e in multiset(Unvisited(p, visited));
      assert e in multiset(Unvisited(q, visited));
    }
    WalksAlike(p, q, leftovers, visited);
  }

  // ---- normalizeSeqOrder ----

  predicate SameIds(s: seq<Elem>, t: seq<Elem>) {
    |s| == |t| && forall i :: 0 <= i < |s| ==> s[i].id == t[i].id
  }

  /** normalizeSeqOrder: keep the list when the walk agrees with it. */
  function NormalizeOrder(elems: seq<Elem>): seq<Elem> {
    if |elems| < 2 then elems
    else
      var ordered := OrderElems(elems);
      if |ordered| != |elems| || SameIds(ordered, elems) then elems else ordered
  }

  /** Loading never disturbs a reachable sequence, and repairs a shuffled one. */
  lemma NormalizeRepairs(elems: seq<Elem>, s: seq<Elem>)
    requires multiset(elems) == multiset(s) && TreeOrdered(s) && UniqueIds(s)
    ensures NormalizeOrder(elems) == s
  {
    hide TreeOrdered, OrderElems;
    OrderRebuilds(elems, s);
    assert |multiset(elems)| == |elems| && |multiset(s)| == |s|;
    if SameIds(s, elems) {
      forall i | 0 <= i < |s| ensures s[i] == elems[i] {
        assert elems[i] in multiset(s);
        var k :| 0 <= k < |s| && s[k] == elems[i];
        assert s[k].id == s[i].id;
      }
    } else if |elems| == 1 {
      assert elems[0] in multiset(s);
    }
  }
}
