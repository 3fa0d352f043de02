/** SpliceText (crdt/doc.go) replaces a visible range of a text and nothing else,
    whatever tombstones lie in between. */
module TextSplice {
  import opened OpIds
  import opened Values
  import opened Rga
  import opened Ops
  import opened Objects
  import opened Histories
  import opened Representation
  import opened Documents
  import opened DocInvariant
  import opened LocalCalls
  import opened Application
  import opened CausalGraph
  import Runes

  // ---- visible parts ----

  lemma {:induction false} VisibleConcat(a: seq<Elem>, b: seq<Elem>)
    ensures Visible(a + b) == Visible(a) + Visible(b)
  {
    if b == [] {
      assert a + b == a;
    } else {
      VisibleConcat(a, b[..|b| - 1]);
      assert (a + b)[..|a + b| - 1] == a + b[..|b| - 1];
    }
  }

  lemma {:induction false} AllVisible(a: seq<Elem>)
    requires forall i :: 0 <= i < |a| ==> !a[i].deleted
    ensures Visible(a) == a
  {
    if a != [] { AllVisible(a[..|a| - 1]); }
  }

  lemma VisibleLast(a: seq<Elem>, e: Elem)
    requires !e.deleted
    ensures Visible(a + [e]) == Visible(a) + [e]
  {
    assert (a + [e])[..|a|] == a;
  }

  lemma VisibleAround(s: seq<Elem>, k: nat)
    requires k < |s| && !s[k].deleted
    ensures Visible(s) == Visible(s[..k]) + [s[k]] + Visible(s[k + 1..])
    ensures Visible(s[..k + 1]) == Visible(s[..k]) + [s[k]]
  {
    hide Visible;
    assert s == s[..k + 1] + s[k + 1..];
    VisibleConcat(s[..k + 1], s[k + 1..]);
    assert s[..k + 1] == s[..k] + [s[k]];
    VisibleLast(s[..k], s[k]);
  }

  lemma {:induction false} VisibleUnique(s: seq<Elem>)
    requires UniqueIds(s)
    ensures UniqueIds(Visible(s))
  {
    if s != [] {
      var n := |s| - 1;
      VisibleUnique(s[..n]);
      VisibleMembers(s[..n]);
      forall i | 0 <= i < |Visible(s[..n])| ensures Visible(s[..n])[i].id != s[n].id {
        assert Visible(s[..n])[i] in Visible(s[..n]);
      }
    }
  }

  /** The cut of a sequence right behind its i-th visible element. */
  lemma CutBehind(s: seq<Elem>, i: nat) returns (k: nat)
    requires UniqueIds(s) && i < |Visible(s)|
    ensures k < |s| && s[k] == Visible(s)[i] && IndexOf(s, s[k].id) == k
    ensures Visible(s[..k + 1]) == Visible(s)[..i + 1] && Visible(s[k + 1..]) == Visible(s)[i + 1..]
  {
    var v := Visible(s);
    VisibleMembers(s);
    assert v[i] in v;
    k :| 0 <= k < |s| && s[k] == v[i];
    VisibleAround(s, k);
    VisibleUnique(s);
    var n := |Visible(s[..k])|;
    assert v[n] == s[k];
    assert n == i;
    IndexOfUnique(s, k);
  }

  // ---- the deletes ----

  function Without(s: seq<Elem>, ids: seq<OpID>): seq<Elem> {
    if s == [] then []
    else Without(s[..|s| - 1], ids) + (if s[|s| - 1].id in ids then [] else [s[|s| - 1]])
  }

  lemma {:induction false} WithoutConcat(a: seq<Elem>, b: seq<Elem>, ids: seq<OpID>)
    ensures Without(a + b, ids) == Without(a, ids) + Without(b, ids)
  {
    if b == [] {
      assert a + b == a;
    } else {
      WithoutConcat(a, b[..|b| - 1], ids);
      assert (a + b)[..|a + b| - 1] == a + b[..|b| - 1];
    }
  }

  lemma {:induction false} WithoutNone(a: seq<Elem>, ids: seq<OpID>)
    requires forall i :: 0 <= i < |a| ==> a[i].id !in ids
    ensures Without(a, ids) == a
  {
    if a != [] { WithoutNone(a[..|a| - 1], ids); }
  }

  lemma {:induction false} WithoutAll(a: seq<Elem>, ids: seq<OpID>)
    requires forall i :: 0 <= i < |a| ==> a[i].id in ids
    ensures Without(a, ids) == []
  {
    if a != [] { WithoutAll(a[..|a| - 1], ids); }
  }

  lemma RangeIds(v: seq<Elem>, a: nat, b: nat)
    requires UniqueIds(v) && a <= b <= |v|
    ensures forall i :: 0 <= i < a ==> v[..a][i].id !in Ids(v[a..b])
    ensures forall i :: 0 <= i < b - a ==> v[a..b][i].id in Ids(v[a..b])
    ensures forall i :: 0 <= i < |v| - b ==> v[b..][i].id !in Ids(v[a..b])
  {
    var ids := Ids(v[a..b]);
    forall i | 0 <= i < |v| ensures v[i].id in ids <==> a <= i < b {
      if a <= i < b { assert ids[i - a] == v[i].id; }
    }
  }

  lemma WithoutRange(v: seq<Elem>, a: nat, b: nat)
    requires UniqueIds(v) && a <= b <= |v|
    ensures Without(v[..a], Ids(v[a..b])) == v[..a]
    ensures Without(v[a..], Ids(v[a..b])) == v[b..]
  {
    RangeIds(v, a, b);
    WithoutNone(v[..a], Ids(v[a..b]));
    WithoutMiddle(v, v[a..b], a, b);
  }

  lemma WithoutMiddle(v: seq<Elem>, u: seq<Elem>, a: nat, b: nat)
    requires a <= b <= |v| && u == v[a..b]
    requires forall i :: 0 <= i < |u| ==> u[i].id in Ids(u)
    requires forall i :: 0 <= i < |v| - b ==> v[b..][i].id !in Ids(u)
    ensures Without(v[a..], Ids(u)) == v[b..]
  {
    hide *;
    WithoutAll(u, Ids(u));
    WithoutNone(v[b..], Ids(u));
    WithoutConcat(u, v[b..], Ids(u));
    assert v[a..] == u + v[b..];
  }

  function Tombstone(e: Elem, ids: seq<OpID>, visId: OpID): Elem {
    if e.id in ids then e.(deleted := true, visId := visId) else e
  }

  /** Every delete of the list wins, each against its own element. */
  lemma {:induction false} DeleteAllWins(s: seq<Elem>, ids: seq<OpID>, visId: OpID)
    requires UniqueIds(s)
    requires forall i, j :: 0 <= i < j < |ids| ==> ids[i] != ids[j]
    requires forall id :: id in ids ==> Contains(s, id)
    requires forall i :: 0 <= i < |s| && s[i].id in ids ==> Decider(s[i]).Less(visId)
    ensures var (t, found) := DeleteAll(s, ids, visId);
            found && |t| == |s| && forall i :: 0 <= i < |s| ==> t[i] == Tombstone(s[i], ids, visId)
    decreases |ids|
  {
    hide OpID.Less, Decider;
    if ids != [] {
      var rest := ids[1..];
      assert ids == [ids[0]] + rest;
      assert Contains(s, ids[0]);
      var k := IndexOf(s, ids[0]);
      var t := SetVisibility(s, ids[0], true, visId);
      forall i | 0 <= i < |s| && i != k ensures s[i].id != ids[0] { OnlyAt(s, k, i); }
      forall id | id in rest ensures Contains(t, id) && id != ids[0] {
        SameIdsContain(s, t, id);
        assert Contains(s, id);
      }
      DeleteAllWins(t, rest, visId);
      forall i | 0 <= i < |s|
        ensures Tombstone(t[i], rest, visId) == Tombstone(s[i], ids, visId)
      {
      }
    }
  }

  lemma {:induction false} TombstonesVisible(s: seq<Elem>, t: seq<Elem>, ids: seq<OpID>, visId: OpID)
    requires |t| == |s| && forall i :: 0 <= i < |s| ==> t[i] == Tombstone(s[i], ids, visId)
    ensures Visible(t) == Without(Visible(s), ids)
  {
    if s != [] {
      var n := |s| - 1;
      TombstonesVisible(s[..n], t[..n], ids, visId);
      var last := if s[n].deleted then [] else [s[n]];
      WithoutConcat(Visible(s[..n]), last, ids);
      assert Without(last, ids) == if s[n].deleted || s[n].id in ids then [] else [s[n]] by {
        assert last[..0] == [];
      }
    }
  }

  // ---- the inserts ----

  ghost predicate AllSmaller(s: seq<Elem>, id: OpID) {
    forall i :: 0 <= i < |s| ==> s[i].id.Less(id)
  }

  /** Where an element behind the reference goes when nothing is larger. */
  ghost predicate Behind(s: seq<Elem>, after: Option<OpID>, p: nat) {
    p <= |s| && if after.None? then p == 0 else p > 0 && IndexOf(s, after.value) == p - 1
  }

  lemma InsertBehind(s: seq<Elem>, after: Option<OpID>, e: Elem, p: nat)
    requires AllSmaller(s, e.id) && Behind(s, after, p)
    ensures InsertAfter(s, after, e) == s[..p] + [e] + s[p..]
    ensures !Contains(s, e.id)
    ensures Behind(InsertAfter(s, after, e), Some(e.id), p + 1)
    ensures AllSmaller(InsertAfter(s, after, e), OpID(e.id.counter + 1, e.id.actor))
  {
    hide OpID.Less;
    if p < |s| { LessIsTotal(s[p].id, e.id); }
    LessIsTotal(e.id, e.id);
    var t := InsertAfter(s, after, e);
    assert InsertPosition(s, after, e.id) == p;
    var next := OpID(e.id.counter + 1, e.id.actor);
    SuccessorLess(e.id);
    forall i | 0 <= i < |t| ensures t[i].id.Less(next) {
      var k := if i < p then i else i - 1;
      if i != p {
        assert t[i] == s[k];
        LessIsStrictOrder(s[k].id, e.id, next);
      }
    }
  }

  /** A run goes in contiguously behind its reference. */
  lemma {:induction false} InsertRunBehind(s: seq<Elem>, after: Option<OpID>, runes: seq<Str>, id: OpID, p: nat)
    requires AllSmaller(s, id) && Behind(s, after, p)
    ensures InsertRun(s, after, runes, id) == s[..p] + RunElems(after, runes, id) + s[p..]
    decreases |runes|
  {
    hide OpID.Less, AllSmaller, Behind, InsertAfter;
    if runes == [] {
      assert p <= |s| by { BehindInRange(s, after, p); }
      assert s == s[..p] + s[p..];
    } else {
      var e := Elem(id, FormatRef(after), Text(runes[0]), false, id);
      InsertBehind(s, after, e, p);
      var t := InsertAfter(s, after, e);
      InsertRunBehind(t, Some(id), runes[1..], OpID(id.counter + 1, id.actor), p + 1);
      BehindInRange(s, after, p);
      SplitAlgebra(s, t, p, e, RunElems(Some(id), runes[1..], OpID(id.counter + 1, id.actor)));
    }
  }

  lemma SplitAlgebra(s: seq<Elem>, t: seq<Elem>, p: nat, e: Elem, rest: seq<Elem>)
    requires p <= |s| && t == s[..p] + [e] + s[p..]
    ensures t[..p + 1] + rest + t[p + 1..] == s[..p] + ([e] + rest) + s[p..]
  {
    assert t[..p + 1] == s[..p] + [e];
    assert t[p + 1..] == s[p..];
  }

  lemma BehindInRange(s: seq<Elem>, after: Option<OpID>, p: nat)
    requires Behind(s, after, p)
    ensures p <= |s|
  {
  }

  // ---- the splice ----

  /** Decisions lie within the counters of the document. */
  lemma DecisionKnown(d: Doc, obj: ObjID, e: Elem, kinds: Kinds)
    requires StateOK(d, kinds) && IsSeq(d, obj) && e in d.objects[obj].elems
    ensures e.visId.counter <= d.maxOp && Decider(e) == e.visId
  {
    ElementKnown(d, obj, e, kinds);
    ObjectMade(d, obj, kinds);
    hide WellFormed, TreeOrdered, Print, ParseRef, LastCounter, Apart, UniqueIds, SameCores, EventsOf, Known;
    var elems := d.objects[obj].elems;
    assert ObjectOf(d.objects[obj], OpsOf(d), obj);
    var k :| 0 <= k < |elems| && elems[k] == e;
    assert Decided(elems[k], Events(OpsOf(d), obj));
    if e != e.Core() {
      var v := Event(e.id, e.deleted, e.visId);
      hide ObjectOf, Represents;
      var o :| o in OpsOf(d) && o.obj == obj && v in EventsOf(o);
      assert WellFormed(o, kinds);
      EventsOfOp(o, kinds, v);
    }
  }

  lemma SequenceUnique(d: Doc, obj: ObjID, kinds: Kinds)
    requires StateOK(d, kinds) && IsSeq(d, obj)
    ensures UniqueIds(d.objects[obj].elems)
  {
    hide Sound, TreeOrdered, UniqueIds, SameCores, AllDecided;
    assert ObjectOf(d.objects[obj], OpsOf(d), obj);
  }

  /** The elements once the deletes of a splice are done. */
  lemma DeletedPart(d: Doc, obj: ObjID, index: nat, count: nat, visId: OpID, kinds: Kinds)
    requires StateOK(d, kinds) && IsSeq(d, obj) && index + count <= |Visible(d.objects[obj].elems)|
    requires visId.counter > d.maxOp
    ensures var s := d.objects[obj].elems;
            var ids := Ids(Visible(s)[index..index + count]);
            var (t, found) := DeleteAll(s, ids, visId);
            found && |t| == |s| && forall i :: 0 <= i < |s| ==> t[i] == Tombstone(s[i], ids, visId)
  {
    hide StateOK, OpID.Less, Decider, Visible, UniqueIds;
    var s := d.objects[obj].elems;
    var v := Visible(s);
    var ids := Ids(v[index..index + count]);
    SequenceUnique(d, obj, kinds);
    VisibleUnique(s);
    VisibleMembers(s);
    forall i, j | 0 <= i < j < |ids| ensures ids[i] != ids[j] { OnlyAt(v, index + j, index + i); }
    forall id | id in ids ensures Contains(s, id) {
      var i :| 0 <= i < |ids| && ids[i] == id;
      assert v[index + i] in v;
      ElementKnown(d, obj, v[index + i], kinds);
    }
    forall i | 0 <= i < |s| ensures Decider(s[i]).Less(visId) {
      DecisionKnown(d, obj, s[i], kinds);
      CounterLess(s[i].visId, visId);
    }
    DeleteAllWins(s, ids, visId);
  }

  lemma CounterLess(a: OpID, b: OpID)
    requires a.counter < b.counter
    ensures a.Less(b)
  {
  }

  /** The cut at which the new run goes in. */
  lemma SplicePoint(d: Doc, obj: ObjID, index: nat, kinds: Kinds) returns (p: nat, after: Option<OpID>)
    requires StateOK(d, kinds) && IsSeq(d, obj) && index <= |Visible(d.objects[obj].elems)|
    ensures var s := d.objects[obj].elems;
            && Behind(s, after, p)
            && Visible(s[..p]) == Visible(s)[..index] && Visible(s[p..]) == Visible(s)[index..]
            && var text := if index == 0 then [] else Print(Visible(s)[index - 1].id);
               !ParseRef(text).Malformed? && AfterOf(ParseRef(text)) == after
  {
    hide StateOK, Print, UniqueIds;
    var s := d.objects[obj].elems;
    if index == 0 {
      p, after := 0, None;
      assert s[0..] == s;
    } else {
      SequenceUnique(d, obj, kinds);
      var k := CutBehind(s, index - 1);
      ElementKnown(d, obj, s[k], kinds);
      p, after := k + 1, Some(s[k].id);
    }
  }

  /** The visible result of deletes and inserts, put together. */
  lemma SplicedVisible(s: seq<Elem>, t: seq<Elem>, p: nat, index: nat, count: nat, run: seq<Elem>, visId: OpID)
    requires UniqueIds(s) && |t| == |s| && p <= |s| && index + count <= |Visible(s)|
    requires Visible(s[..p]) == Visible(s)[..index] && Visible(s[p..]) == Visible(s)[index..]
    requires var ids := Ids(Visible(s)[index..index + count]);
             forall i :: 0 <= i < |s| ==> t[i] == Tombstone(s[i], ids, visId)
    requires forall i :: 0 <= i < |run| ==> !run[i].deleted
    ensures Visible(t[..p] + run + t[p..]) == Visible(s)[..index] + run + Visible(s)[index + count..]
    ensures Visible(t[..p]) == Visible(s)[..index]
  {
    hide Visible, Without, UniqueIds;
    var ids := Ids(Visible(s)[index..index + count]);
    VisibleUnique(s);
    WithoutRange(Visible(s), index, index + count);
    TombstonesVisible(s[..p], t[..p], ids, visId);
    TombstonesVisible(s[p..], t[p..], ids, visId);
    VisibleConcat(t[..p], run);
    VisibleConcat(t[..p] + run, t[p..]);
    AllVisible(run);
  }

  lemma SmallerIds(d: Doc, obj: ObjID, t: seq<Elem>, id: OpID, kinds: Kinds)
    requires StateOK(d, kinds) && IsSeq(d, obj) && id.counter > d.maxOp
    requires |t| == |d.objects[obj].elems| && forall i :: 0 <= i < |t| ==> t[i].id == d.objects[obj].elems[i].id
    ensures AllSmaller(t, id)
  {
    hide StateOK, OpID.Less;
    forall i | 0 <= i < |t| ensures t[i].id.Less(id) {
      ElementKnown(d, obj, d.objects[obj].elems[i], kinds);
      CounterLess(t[i].id, id);
    }
  }

  /** What a splice makes of the elements of a text. */
  lemma SpliceElems(d: Doc, obj: ObjID, index: nat, count: nat, insert: Str, kinds: Kinds)
      returns (p: nat, t: seq<Elem>, run: seq<Elem>)
    requires StateOK(d, kinds) && IsSeq(d, obj) && d.objects[obj].isText
    requires index + count <= |Visible(d.objects[obj].elems)|
    ensures var op := SpliceOp(d, obj, index, count, insert);
            var v := Visible(d.objects[obj].elems);
            && !ParseRef(op.after).Malformed?
            && run == RunElems(AfterOf(ParseRef(op.after)), Runes.Split(insert), op.id)
            && DeleteAll(d.objects[obj].elems, ExpandRuns(op.deleteRuns), op.id).1
            && p <= |t| && t == DeleteAll(d.objects[obj].elems, ExpandRuns(op.deleteRuns), op.id).0
            && InsertRun(t, AfterOf(ParseRef(op.after)), Runes.Split(insert), op.id) == t[..p] + run + t[p..]
            && Visible(t[..p] + run + t[p..]) == v[..index] + run + v[index + count..]
            && Visible(t[..p]) == v[..index]
            && AllSmaller(t, op.id)
  {
    hide StateOK, OpID.Less, Visible, UniqueIds, CompressRuns, ExpandRuns, DeleteAll, InsertRun, RunElems, Print, ParseRef, AllSmaller;
    var s := d.objects[obj].elems;
    var op := SpliceOp(d, obj, index, count, insert);
    var after;
    SpliceDeletes(d, obj, index, count, insert, kinds);
    p, after := SplicePoint(d, obj, index, kinds);
    t := DeleteAll(s, ExpandRuns(op.deleteRuns), op.id).0;
    DeletedPart(d, obj, index, count, op.id, kinds);
    run := RunElems(after, Runes.Split(insert), op.id);
    BehindInRange(s, after, p);
    SequenceUnique(d, obj, kinds);
    SplicedVisible(s, t, p, index, count, run, op.id);
    SmallerIds(d, obj, t, op.id, kinds);
    BehindSame(s, t, after, p);
    InsertRunBehind(t, after, Runes.Split(insert), op.id, p);
  }

  lemma BehindSame(s: seq<Elem>, t: seq<Elem>, after: Option<OpID>, p: nat)
    requires Behind(s, after, p) && |s| == |t| && forall i :: 0 <= i < |s| ==> s[i].id == t[i].id
    ensures Behind(t, after, p)
  {
    if after.Some? {
      var i, j := IndexOf(s, after.value), IndexOf(t, after.value);
    }
  }

  /** The first inserted element shows where the splice happened. */
  lemma SpliceIndex(t: seq<Elem>, p: nat, run: seq<Elem>, id: OpID)
    requires p <= |t| && AllSmaller(t, id) && run != [] && run[0].id == id && !run[0].deleted
    ensures VisibleIndexOf(t[..p] + run + t[p..], id) == |Visible(t[..p])|
  {
    hide OpID.Less, Visible;
    var u := t[..p] + run + t[p..];
    LessIsTotal(id, id);
    assert u[p] == run[0];
    forall i | 0 <= i < p ensures u[i].id != id { assert u[i] == t[i]; }
    assert IndexOf(u, id) == p;
    assert u[..p] == t[..p];
  }

  /** After SpliceText the visible elements are the old ones before the range,
      one element per rune of the insertion, and the old ones behind the range;
      the reported identities are exactly those; no other object changes. */
  lemma SpliceTextReplaces(d: Doc, obj: ObjID, index: nat, count: nat, insert: Str, kinds: Kinds, hashOf: HashFn)
    requires DocOK(d, kinds, hashOf) && d.maxOp + 1 + |Runes.Split(insert)| < UINT64_LIMIT
    requires IsSeq(d, obj) && d.objects[obj].isText && index + count <= |Visible(d.objects[obj].elems)|
    ensures var (n, r) := SpliceText(d, obj, index, count, insert);
            var v := Visible(d.objects[obj].elems);
            && r.Some? && IsSeq(n, obj) && n.objects == d.objects[obj := n.objects[obj]]
            && r.value.deleted == Ids(v[index..index + count])
            && |r.value.inserted| == |Runes.Split(insert)|
            && exists run: seq<Elem> ::
                 && Visible(n.objects[obj].elems) == v[..index] + run + v[index + count..]
                 && Ids(run) == r.value.inserted && Texts(run) == Runes.Split(insert)
    ensures var (n, _) := SpliceText(d, obj, index, count, insert);
            insert != [] ==> n.patches != [] && n.patches[|n.patches| - 1].prop == Decimal(index)
  {
    hide Graph, ChangesOK, PendingOK, StateOK, OpID.Less, Visible, CompressRuns, ExpandRuns, DeleteAll, InsertRun,
         RunElems, Print, ParseRef, AllSmaller, Decimal, VisibleIndexOf;
    var runes := Runes.Split(insert);
    var v := Visible(d.objects[obj].elems);
    if count == 0 && runes == [] {
      assert Visible(d.objects[obj].elems) == v[..index] + [] + v[index..];
      assert Ids([]) == [] && Texts([]) == [];
    } else {
      var op := SpliceOp(d, obj, index, count, insert);
      var p, t, run := SpliceElems(d, obj, index, count, insert, kinds);
      if runes != [] { SpliceIndex(t, p, run, op.id); }
      RunTexts(AfterOf(ParseRef(op.after)), runes, op.id);
      assert Ids(run) == CountUp(op.id, |runes|);
    }
  }

  lemma {:induction false} RunTexts(after: Option<OpID>, runes: seq<Str>, id: OpID)
    ensures Texts(RunElems(after, runes, id)) == runes
    decreases |runes|
  {
    if runes != [] {
      RunTexts(Some(id), runes[1..], OpID(id.counter + 1, id.actor));
      var r := RunElems(after, runes, id);
      var rest := RunElems(Some(id), runes[1..], OpID(id.counter + 1, id.actor));
      assert r == [r[0]] + rest;
      assert runes == [runes[0]] + runes[1..];
      forall i | 0 <= i < |r| ensures StrOf(r[i].value) == runes[i] {
        if i > 0 { assert r[i] == rest[i - 1]; assert Texts(rest)[i - 1] == runes[1..][i - 1]; }
      }
    }
  }
}
