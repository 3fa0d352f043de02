/** What edits by visible index mean on reachable documents, and what repeated
    increments add up to (crdt/doc.go). */
module ListEdits {
  import opened OpIds
  import opened Values
  import opened Rga
  import opened Ops
  import opened Objects
  import opened Histories
  import opened Representation
  import opened Documents
  import opened CausalGraph
  import opened DocInvariant
  import opened LocalCalls
  import opened TextSplice
  import opened Consequences
  import opened Limits

  /** The element that InsertAt creates. */
  function NewElem(d: Doc, obj: ObjID, index: nat, value: Value): Elem
    requires IsSeq(d, obj) && index <= |Visible(d.objects[obj].elems)|
  {
    var id := OpID(d.maxOp + 1, d.actor);
    Elem(id, AfterText(d.objects[obj].elems, index).value, value, false, id)
  }

  lemma InsertedElems(d: Doc, obj: ObjID, index: nat, value: Value, kinds: Kinds) returns (p: nat, after: Option<OpID>)
    requires StateOK(d, kinds) && IsSeq(d, obj) && index <= |Visible(d.objects[obj].elems)|
    ensures var s, e := d.objects[obj].elems, NewElem(d, obj, index, value);
            && !ParseRef(e.after).Malformed? && AfterOf(ParseRef(e.after)) == after && !Contains(s, e.id)
            && p <= |s| && InsertAfter(s, after, e) == s[..p] + [e] + s[p..]
            && Visible(s[..p]) == Visible(s)[..index] && Visible(s[p..]) == Visible(s)[index..]
            && AllSmaller(s, e.id)
  {
    hide StateOK, Visible, Print, ParseRef, AllSmaller, Behind, InsertAfter, Contains;
    var s, e := d.objects[obj].elems, NewElem(d, obj, index, value);
    p, after := SplicePoint(d, obj, index, kinds);
    SmallerIds(d, obj, s, e.id, kinds);
    InsertBehind(s, after, e, p);
    BehindInRange(s, after, p);
  }

  lemma VisibleInserted(s: seq<Elem>, p: nat, e: Elem)
    requires p <= |s| && !e.deleted
    ensures Visible(s[..p] + [e] + s[p..]) == Visible(s[..p]) + [e] + Visible(s[p..])
  {
    hide Visible;
    VisibleConcat(s[..p] + [e], s[p..]);
    VisibleLast(s[..p], e);
  }

  /** After InsertAt the visible elements are the old ones with the new one at the
      index, and the patch names that index. */
  lemma InsertAtInserts(d: Doc, obj: ObjID, index: nat, value: Value, kinds: Kinds, hashOf: HashFn)
    requires DocOK(d, kinds, hashOf) && IsSeq(d, obj) && index <= |Visible(d.objects[obj].elems)|
    ensures var (n, ok) := InsertAt(d, obj, index, value); var v := Visible(d.objects[obj].elems);
            && ok && IsSeq(n, obj) && n.patches != [] && n.patches[|n.patches| - 1].prop == Decimal(index)
            && Visible(n.objects[obj].elems) == v[..index] + [NewElem(d, obj, index, value)] + v[index..]
  {
    hide Graph, ChangesOK, PendingOK, StateOK, Visible, Print, ParseRef, AllSmaller, Contains, InsertAfter, VisibleIndexOf, Decimal;
    var s, e := d.objects[obj].elems, NewElem(d, obj, index, value);
    var p, after := InsertedElems(d, obj, index, value, kinds);
    VisibleInserted(s, p, e);
    SpliceIndex(s, p, [e], e.id);
    hide NewElem;
    InsertJournalled(d, obj, index, value, after);
  }

  /** What InsertAt stores and reports. */
  lemma InsertJournalled(d: Doc, obj: ObjID, index: nat, value: Value, after: Option<OpID>)
    requires IsSeq(d, obj) && index <= |Visible(d.objects[obj].elems)|
    requires var e := NewElem(d, obj, index, value);
             !ParseRef(e.after).Malformed? && AfterOf(ParseRef(e.after)) == after && !Contains(d.objects[obj].elems, e.id)
    ensures var (n, ok) := InsertAt(d, obj, index, value); var e := NewElem(d, obj, index, value);
            var t := InsertAfter(d.objects[obj].elems, after, e);
            && ok && IsSeq(n, obj) && n.objects[obj].elems == t
            && n.patches != [] && n.patches[|n.patches| - 1].prop == Decimal(VisibleIndexOf(t, e.id))
  {
    hide Visible, Print, ParseRef, Contains, InsertAfter, VisibleIndexOf, Decimal;
  }

  lemma VisibleWithout(s: seq<Elem>, k: nat, e: Elem)
    requires k < |s| && e.deleted
    ensures Visible(s[k := e]) == Visible(s[..k]) + Visible(s[k + 1..])
  {
    assert s[k := e] == s[..k] + [e] + s[k + 1..];
    VisibleConcat(s[..k] + [e], s[k + 1..]);
    VisibleConcat(s[..k], [e]);
    assert [e][..0] == [];
  }

  lemma SameDelete(d: Doc, obj: ObjID, index: nat)
    requires IsSeq(d, obj) && index < |Visible(d.objects[obj].elems)|
    requires Contains(d.objects[obj].elems, Visible(d.objects[obj].elems)[index].id)
    ensures DeleteAt(d, obj, index) == SetElement(d, obj, Visible(d.objects[obj].elems)[index].id, true)
  {
    hide Visible, Journal, Print, Contains;
  }

  /** After DeleteAt the visible elements are the old ones without that index. */
  lemma DeleteAtDeletes(d: Doc, obj: ObjID, index: nat, kinds: Kinds, hashOf: HashFn)
    requires DocOK(d, kinds, hashOf) && IsSeq(d, obj) && index < |Visible(d.objects[obj].elems)|
    requires d.maxOp + 1 < UINT64_LIMIT
    ensures var n := DeleteAt(d, obj, index).0; var v := Visible(d.objects[obj].elems);
            IsSeq(n, obj) && Visible(n.objects[obj].elems) == v[..index] + v[index + 1..]
  {
    assert StateOK(d, kinds);
    var s := d.objects[obj].elems;
    hide *;
    SequenceUnique(d, obj, kinds);
    var k := VisiblePlaceOf(s, index);
    var e := s[k].(deleted := true, visId := OpID(d.maxOp + 1, d.actor));
    SameDelete(d, obj, index);
    LocalDecisionWins(d, obj, k, true, kinds, hashOf);
    VisibleWithout(s, k, e);
  }

  /** Where the element with a visible index stands, and what is visible around it. */
  lemma VisiblePlaceOf(s: seq<Elem>, index: nat) returns (k: nat)
    requires UniqueIds(s) && index < |Visible(s)|
    ensures k < |s| && s[k] == Visible(s)[index] && Contains(s, s[k].id)
    ensures Visible(s[..k]) == Visible(s)[..index] && Visible(s[k + 1..]) == Visible(s)[index + 1..]
  {
    k := CutBehind(s, index);
    VisibleMembers(s);
    assert Visible(s)[index] in Visible(s);
    VisibleAround(s, k);
    PresentHere(s, k);
    hide *;
    SameStart(Visible(s[..k]), s[k], Visible(s), index);
  }

  lemma PresentHere(s: seq<Elem>, k: nat)
    requires k < |s|
    ensures Contains(s, s[k].id)
  {
  }

  lemma SameStart(a: seq<Elem>, e: Elem, v: seq<Elem>, index: nat)
    requires index < |v| && a + [e] == v[..index + 1]
    ensures a == v[..index]
  {
    assert a == (a + [e])[..|a|];
  }

  /** Visible index and identity are inverse to each other: from the index to the
      identity and back, */
  lemma IndexOfVisible(s: seq<Elem>, index: nat)
    requires UniqueIds(s) && index < |Visible(s)|
    ensures VisibleIndexOf(s, Visible(s)[index].id) == index
  {
    var k := VisiblePlaceOf(s, index);
    NotDeleted(s, index);
    IndexOfUnique(s, k);
    hide Visible, UniqueIds;
  }

  lemma NotDeleted(s: seq<Elem>, index: nat)
    requires index < |Visible(s)|
    ensures !Visible(s)[index].deleted
  {
    VisibleMembers(s);
    assert Visible(s)[index] in Visible(s);
  }

  /** and from the identity of a visible element to its index and back. */
  lemma VisibleOfIndex(s: seq<Elem>, k: nat)
    requires UniqueIds(s) && k < |s| && !s[k].deleted
    ensures VisibleIndexOf(s, s[k].id) < |Visible(s)| && Visible(s)[VisibleIndexOf(s, s[k].id)] == s[k]
  {
    IndexOfUnique(s, k);
    VisibleAround(s, k);
    hide Visible, UniqueIds;
  }

  /** An element that is deleted or not there has the index behind all others. */
  lemma IndexOfAbsent(s: seq<Elem>, id: OpID)
    requires forall k :: 0 <= k < |s| && s[k].id == id ==> s[k].deleted
    ensures VisibleIndexOf(s, id) == |Visible(s)|
  {
    hide Visible;
  }

  /** Increments of one entry add up, with the wrap-around of 64-bit integers. */
  lemma IncrementsAdd(current: Value, a: int, b: int)
    ensures Incremented(Incremented(current, Counter(a)), Counter(b))
         == if current.Counter? || current.Int? then Incremented(current, Counter(a + b)) else Counter(WrapInt64(a + b))
  {
    hide WrapInt64;
    match current
    case Counter(c) => WrapTwice(c + a, b);
    case Int(i) => WrapTwice(i + a, b);
    case _ =>
  }
}
