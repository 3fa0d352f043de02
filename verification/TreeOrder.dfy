/** The order condition of Rga determines the sequence, and it is the order that
    orderListElems (crdt/doc.go) computes. */
module TreeOrder {
  import opened OpIds
  import opened Values
  import opened Rga

  // ---- a set of elements has one order ----

  /** Position of the largest identity. */
  function MaxIndex(s: seq<Elem>): (m: nat)
    requires s != []
    ensures m < |s|
  {
    if |s| == 1 then 0
    else
      var m := MaxIndex(s[..|s| - 1]);
      if s[m].id.Less(s[|s| - 1].id) then |s| - 1 else m
  }

  lemma {:induction false} MaxIndexIsMax(s: seq<Elem>, i: nat)
    requires s != [] && i < |s|
    ensures s[i].id == s[MaxIndex(s)].id || s[i].id.Less(s[MaxIndex(s)].id)
  {
    if |s| > 1 {
      var r := s[..|s| - 1];
      var m := MaxIndex(r);
      LessIsTotal(s[m].id, s[|s| - 1].id);
      if i < |s| - 1 {
        MaxIndexIsMax(r, i);
        LessIsStrictOrder(s[i].id, s[m].id, s[|s| - 1].id);
      }
    }
  }

  /** The largest identity is nobody's reference, so taking it out keeps every
      other reference. */
  lemma RemoveMaxAt(s: seq<Elem>, t: seq<Elem>, m: nat, j: nat, j': nat)
    requires m < |s| && Inserted(t, s, m, s[m]) && j < |t|
    requires j' == if j < m then j else j + 1
    requires s[j'].after == RefAt(s, NearestSmaller(s, s[j'].id, j'))
    requires t[j].id.Less(s[m].id)
    ensures t[j].after == RefAt(t, NearestSmaller(t, t[j].id, j))
  {
    hide OpID.Less, Print, NearestSmaller;
    if j < m {
      NearestPrefix(s, t, t[j].id, j);
    } else {
      LessIsTotal(s[m].id, t[j].id);
      NearestAfterInsert(t, s, m, s[m], t[j].id, j);
    }
  }

  lemma RemoveUnique(s: seq<Elem>, t: seq<Elem>, m: nat)
    requires m < |s| && Inserted(t, s, m, s[m]) && UniqueIds(s)
    ensures UniqueIds(t) && !Contains(t, s[m].id)
    ensures forall j :: 0 <= j < |t| ==> t[j] == s[if j < m then j else j + 1]
  {
    forall j | 0 <= j < |t| ensures t[j] == s[if j < m then j else j + 1] {
      assert j >= m ==> s[j + 1] == t[j];
    }
  }

  /** The largest identity sits directly behind its reference. */
  lemma RemoveMax(s: seq<Elem>, t: seq<Elem>, m: nat)
    requires m < |s| && Inserted(t, s, m, s[m])
    requires TreeOrdered(s) && UniqueIds(s)
    requires forall i :: 0 <= i < |s| && i != m ==> s[i].id.Less(s[m].id)
    ensures TreeOrdered(t)
    ensures s[m].after == RefAt(s, m - 1)
  {
    hide OpID.Less, Print, UniqueIds;
    NearestIs(s, s[m].id, m, m - 1);
    RemoveUnique(s, t, m);
    forall j | 0 <= j < |t|
      ensures t[j].after == RefAt(t, NearestSmaller(t, t[j].id, j))
    {
      RemoveMaxAt(s, t, m, j, if j < m then j else j + 1);
    }
  }

  function RemoveAt(s: seq<Elem>, m: nat): (t: seq<Elem>)
    requires m < |s|
    ensures Inserted(t, s, m, s[m])
  {
    s[..m] + s[m + 1..]
  }

  /** The same links, as identity and reference pairs. */
  ghost predicate SameLinks(s: seq<Elem>, t: seq<Elem>) {
    && (forall i :: 0 <= i < |s| ==> HasLink(t, s[i]))
    && (forall i :: 0 <= i < |t| ==> HasLink(s, t[i]))
  }

  ghost predicate HasLink(s: seq<Elem>, e: Elem) {
    exists i :: 0 <= i < |s| && s[i].id == e.id && s[i].after == e.after
  }

  lemma SameMax(s: seq<Elem>, t: seq<Elem>)
    requires UniqueIds(s) && UniqueIds(t) && SameLinks(s, t) && s != [] && t != []
    ensures s[MaxIndex(s)].id == t[MaxIndex(t)].id
    ensures s[MaxIndex(s)].after == t[MaxIndex(t)].after
  {
    hide OpID.Less;
    var m, n := MaxIndex(s), MaxIndex(t);
    assert HasLink(t, s[m]) && HasLink(s, t[n]);
    var i :| 0 <= i < |t| && t[i].id == s[m].id && t[i].after == s[m].after;
    var j :| 0 <= j < |s| && s[j].id == t[n].id && s[j].after == t[n].after;
    MaxIndexIsMax(t, i);
    MaxIndexIsMax(s, j);
    LessIsTotal(s[m].id, t[n].id);
  }

  lemma MaxIsStrict(s: seq<Elem>)
    requires UniqueIds(s) && s != []
    ensures forall i :: 0 <= i < |s| && i != MaxIndex(s) ==> s[i].id.Less(s[MaxIndex(s)].id)
  {
    hide OpID.Less;
    forall i | 0 <= i < |s| && i != MaxIndex(s) ensures s[i].id.Less(s[MaxIndex(s)].id) {
      MaxIndexIsMax(s, i);
    }
  }

  lemma LinkWithoutMax(s: seq<Elem>, t: seq<Elem>, s': seq<Elem>, t': seq<Elem>, m: nat, n: nat, k: nat)
    requires m < |s| && n < |t| && s[m].id == t[n].id && k < |s'|
    requires Inserted(s', s, m, s[m]) && Inserted(t', t, n, t[n])
    requires SameLinks(s, t) && UniqueIds(s)
    ensures HasLink(t', s'[k])
  {
    hide OpID.Less;
    var k' := if k < m then k else k + 1;
    assert s[k'] == s'[k];
    assert HasLink(t, s[k']);
    var i :| 0 <= i < |t| && t[i].id == s[k'].id && t[i].after == s[k'].after;
    hide UniqueIds, HasLink;
    LinkBehind(t, t', n, i, s'[k]);
  }

  lemma LinkBehind(t: seq<Elem>, t': seq<Elem>, n: nat, i: nat, e: Elem)
    requires n < |t| && i < |t| && i != n && Inserted(t', t, n, t[n])
    requires t[i].id == e.id && t[i].after == e.after
    ensures HasLink(t', e)
  {
    assert t'[if i < n then i else i - 1] == t[i];
  }

  lemma LinksWithoutMax(s: seq<Elem>, t: seq<Elem>, s': seq<Elem>, t': seq<Elem>, m: nat, n: nat)
    requires m < |s| && n < |t| && s[m].id == t[n].id
    requires Inserted(s', s, m, s[m]) && Inserted(t', t, n, t[n])
    requires SameLinks(s, t) && UniqueIds(s) && UniqueIds(t)
    ensures SameLinks(s', t')
  {
    hide HasLink, UniqueIds, Inserted;
    assert SameLinks(t, s);
    forall k | 0 <= k < |s'| ensures HasLink(t', s'[k]) { LinkWithoutMax(s, t, s', t', m, n, k); }
    forall k | 0 <= k < |t'| ensures HasLink(s', t'[k]) { LinkWithoutMax(t, s, t', s', n, m, k); }
  }

  /** Two ordered sequences over the same elements are the same sequence. */
  lemma {:induction false} OrderIsUnique(s: seq<Elem>, t: seq<Elem>)
    requires TreeOrdered(s) && UniqueIds(s) && TreeOrdered(t) && UniqueIds(t)
    requires SameLinks(s, t)
    ensures |s| == |t| && forall i :: 0 <= i < |s| ==> s[i].id == t[i].id
  {
    hide OpID.Less, Print, TreeOrdered, UniqueIds;
    if s == [] || t == [] {
      assert s != [] ==> HasLink(t, s[0]);
      assert t != [] ==> HasLink(s, t[0]);
    } else {
      hide HasLink;
      var m, n := MaxIndex(s), MaxIndex(t);
      var s', t' := RemoveAt(s, m), RemoveAt(t, n);
      SameMax(s, t);
      MaxIsStrict(s);
      MaxIsStrict(t);
      RemoveMax(s, s', m);
      RemoveMax(t, t', n);
      RemoveUnique(s, s', m);
      RemoveUnique(t, t', n);
      LinksWithoutMax(s, t, s', t', m, n);
      OrderIsUnique(s', t');
      SamePlace(s, t, s', t', m, n);
    }
  }

  lemma SamePlace(s: seq<Elem>, t: seq<Elem>, s': seq<Elem>, t': seq<Elem>, m: nat, n: nat)
    requires m < |s| && n < |t| && Inserted(s', s, m, s[m]) && Inserted(t', t, n, t[n])
    requires |s'| == |t'| && forall i :: 0 <= i < |s'| ==> s'[i].id == t'[i].id
    requires UniqueIds(s')
    requires s[m].id == t[n].id && s[m].after == t[n].after
    requires s[m].after == RefAt(s, m - 1) && t[n].after == RefAt(t, n - 1)
    ensures m == n && forall i :: 0 <= i < |s| ==> s[i].id == t[i].id
  {
    hide Decimal;
    if m > 0 { PrintSplit(s[m - 1].id); assert s[m - 1] == s'[m - 1]; }
    if n > 0 { PrintSplit(t[n - 1].id); assert t[n - 1] == t'[n - 1]; }
    if m > 0 && n > 0 { PrintInjective(s[m - 1].id, t[n - 1].id); }
    forall i | 0 <= i < |s| ensures s[i].id == t[i].id {
      if i < m { assert s[i] == s'[i]; } else if i > m { assert s[i] == s'[i - 1]; }
    }
  }
}
