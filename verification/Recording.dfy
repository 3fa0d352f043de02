/** Commit and the receipt of one remote change keep the document invariant. */
module Recording {
  import opened OpIds
  import opened Values
  import opened Ops
  import opened Objects
  import opened Histories
  import opened Representation
  import opened Application
  import opened Documents
  import opened CausalGraph
  import opened DocInvariant

  // ---- commit ----

  lemma OwnMore(changes: seq<Change>, c: Change, k: nat, kinds: Kinds)
    requires k < |changes| && OwnChange(changes, k, kinds)
    ensures OwnChange(changes + [c], k, kinds)
  {
    hide IsHead, ReadyInTurn, AllOps;
    assert (changes + [c])[..k] == changes[..k];
    assert (changes + [c])[k] == changes[k];
  }

  lemma NewChangeOK(d: Doc, hashOf: HashFn, time: Time, message: Str, group: Str, kinds: Kinds)
    requires Graph(d) && PendingOK(d, kinds) && d.pending != []
    ensures var c := NewChange(d, hashOf, time, message, group);
            && ChangeOK(c, hashOf) && c.deps == d.heads && c.actor == d.actor && c.ops == d.pending
            && OwnChange(d.changes + [c], |d.changes|, kinds)
  {
    hide IsHead, ReadyInTurn, AllOps, Recorded, Topological, NoRepeats, IndexExact, Increasing;
    var c := NewChange(d, hashOf, time, message, group);
    assert c.(hash := []) == Change([], d.actor, d.seqNo + 1, d.heads, d.pending[0].id.counter, time, message,
                    if group == [] then DefaultGroup(d.actor, d.seqNo + 1) else group, d.pending);
    assert (d.changes + [c])[..|d.changes|] == d.changes;
  }

  lemma CommitOps(d: Doc, hashOf: HashFn, time: Time, message: Str, group: Str)
    ensures OpsOf(Commit(d, hashOf, time, message, group)) == OpsOf(d)
  {
    hide AllOps;
    if d.pending != [] {
      AllOpsMore(d.changes, NewChange(d, hashOf, time, message, group));
    }
  }

  /** Commit keeps the invariant when its hash is new to the document. */
  lemma CommitOK(d: Doc, hashOf: HashFn, time: Time, message: Str, group: Str, kinds: Kinds)
    requires DocOK(d, kinds, hashOf)
    requires d.pending != [] ==> NewChange(d, hashOf, time, message, group).hash !in d.index
    ensures DocOK(Commit(d, hashOf, time, message, group), kinds, hashOf)
  {
    hide ChangeOK, OwnChange, Represents, Sound, Graph, ReadyInTurn, AllOps, OpsBelow, OpsOf;
    if d.pending != [] {
      var c := NewChange(d, hashOf, time, message, group);
      var n := Commit(d, hashOf, time, message, group);
      NewChangeOK(d, hashOf, time, message, group, kinds);
      CommitOps(d, hashOf, time, message, group);
      CommitGraph(d, c);
      SameGraph(d.(changes := d.changes + [c], index := d.index[c.hash := c], heads := [c.hash]), n);
      hide NewChange;
      forall k | 0 <= k < |n.changes| && n.changes[k].actor == n.actor ensures OwnChange(n.changes, k, kinds) {
        if k < |d.changes| { OwnMore(d.changes, c, k, kinds); }
      }
      assert ReadyInTurn([], AllOps(n.changes), kinds) by { NothingReady(AllOps(n.changes), kinds); }
    }
  }

  lemma NothingReady(base: set<Op>, kinds: Kinds)
    ensures ReadyInTurn([], base, kinds)
  {
  }

  // ---- remote changes ----

  ghost predicate InRange(ops: seq<Op>) {
    forall i :: 0 <= i < |ops| ==> LastCounter(ops[i]) < UINT64_LIMIT
  }

  lemma TailReady(ops: seq<Op>, base: set<Op>, kinds: Kinds)
    requires ops != [] && ReadyInTurn(ops, base, kinds)
    ensures Ready(ops[0], base, kinds)
    ensures ReadyInTurn(ops[1..], base + {ops[0]}, kinds)
  {
    hide Ready;
    assert base + SetOf(ops[..0]) == base;
    forall i | 0 <= i < |ops| - 1 ensures Ready(ops[1..][i], base + {ops[0]} + SetOf(ops[1..][..i]), kinds) {
      assert ops[..i + 1] == [ops[0]] + ops[1..][..i];
      assert base + SetOf(ops[..i + 1]) == base + {ops[0]} + SetOf(ops[1..][..i]);
      assert ops[i + 1] == ops[1..][i];
    }
  }

  lemma SoundLess(ops: set<Op>, more: set<Op>, kinds: Kinds)
    requires ops <= more && Sound(more, kinds)
    ensures Sound(ops, kinds)
  {
    hide WellFormed, Apart;
  }

  /** The operations of a change are accepted one by one. */
  lemma {:induction false} ApplyOpsOK(objs: Objects, maxOp: nat, ops: seq<Op>, base: set<Op>, kinds: Kinds)
    requires Represents(objs, base, kinds) && Sound(base + SetOf(ops), kinds)
    requires ReadyInTurn(ops, base, kinds) && InRange(ops) && maxOp < UINT64_LIMIT
    ensures var r := ApplyOps(objs, maxOp, ops);
            && r.2 && Represents(r.0, base + SetOf(ops), kinds)
            && maxOp <= r.1 < UINT64_LIMIT
            && forall o :: o in ops ==> LastCounter(o) <= r.1
    decreases |ops|
  {
    hide Represents, Sound, ReadyInTurn, Ready, ApplyOp, WellFormed, LastCounter;
    if ops == [] {
      assert base + SetOf(ops) == base;
    } else {
      var all := base + SetOf(ops);
      assert ops == [ops[0]] + ops[1..];
      assert all == base + {ops[0]} + SetOf(ops[1..]);
      TailReady(ops, base, kinds);
      SoundLess(base + {ops[0]}, all, kinds);
      assert WellFormed(ops[0], kinds) by { SoundMember(all, ops[0], kinds); }
      ApplyRepresents(objs, base, ops[0], kinds);
      ApplyOpsOK(ApplyOp(objs, ops[0]).objects, Max(maxOp, LastCounter(ops[0])), ops[1..], base + {ops[0]}, kinds);
    }
  }

  lemma SoundMember(ops: set<Op>, o: Op, kinds: Kinds)
    requires Sound(ops, kinds) && o in ops
    ensures WellFormed(o, kinds)
  {
  }

  lemma ReadyOnMore(ops: seq<Op>, base: set<Op>, more: set<Op>, kinds: Kinds)
    requires ReadyInTurn(ops, base, kinds) && base <= more
    ensures ReadyInTurn(ops, more, kinds)
  {
    hide Ready;
    forall i | 0 <= i < |ops| ensures Ready(ops[i], more + SetOf(ops[..i]), kinds) {
      ReadyMore(ops[i], base + SetOf(ops[..i]), more + SetOf(ops[..i]), kinds);
    }
  }

  /** A change of another replica may be recorded: nobody recorded it here, its
      dependencies are here, and it fits the operations that are here. */
  ghost predicate Deliverable(d: Doc, c: Change, kinds: Kinds, hashOf: HashFn) {
    && c.hash !in d.index && DepsKnown(d, c) && c.actor != d.actor
    && ChangeOK(c, hashOf) && InRange(c.ops)
    && Sound(OpsOf(d) + SetOf(c.ops), kinds)
    && ReadyInTurn(c.ops, AllOps(d.changes), kinds)
  }

  lemma OpsAfterRemote(d: Doc, c: Change, n: Doc)
    requires n.changes == d.changes + [c] && n.pending == d.pending
    ensures OpsOf(n) == OpsOf(d) + SetOf(c.ops)
  {
    hide AllOps;
    AllOpsMore(d.changes, c);
  }

  lemma PendingAfterRemote(d: Doc, c: Change, n: Doc, kinds: Kinds)
    requires PendingOK(d, kinds) && n.changes == d.changes + [c] && n.pending == d.pending && n.actor == d.actor
    ensures PendingOK(n, kinds)
  {
    hide AllOps, ReadyInTurn;
    AllOpsMore(d.changes, c);
    ReadyOnMore(d.pending, AllOps(d.changes), AllOps(n.changes), kinds);
  }

  lemma ChangesAfterRemote(d: Doc, c: Change, n: Doc, kinds: Kinds, hashOf: HashFn)
    requires ChangesOK(d, kinds, hashOf) && ChangeOK(c, hashOf) && c.actor != d.actor
    requires n.changes == d.changes + [c] && n.actor == d.actor
    ensures ChangesOK(n, kinds, hashOf)
  {
    hide ChangeOK, OwnChange;
    forall k | 0 <= k < |n.changes| && n.changes[k].actor == n.actor ensures OwnChange(n.changes, k, kinds) {
      OwnMore(d.changes, c, k, kinds);
    }
  }

  /** A deliverable change is accepted whole and keeps the invariant. */
  lemma RemoteOK(d: Doc, c: Change, kinds: Kinds, hashOf: HashFn)
    requires DocOK(d, kinds, hashOf) && Deliverable(d, c, kinds, hashOf)
    ensures ApplyRemote(d, c).1
    ensures DocOK(ApplyRemote(d, c).0, kinds, hashOf)
  {
    hide ChangeOK, ChangesOK, PendingOK, Represents, Sound, Graph, ReadyInTurn, AllOps, DepsKnown, LastCounter, ApplyOps;
    ReadyOnMore(c.ops, AllOps(d.changes), OpsOf(d), kinds);
    ApplyOpsOK(d.objects, d.maxOp, c.ops, OpsOf(d), kinds);
    var n := ApplyRemote(d, c).0;
    OpsAfterRemote(d, c, n);
    PendingAfterRemote(d, c, n, kinds);
    ChangesAfterRemote(d, c, n, kinds, hashOf);
    RemoteGraph(d, c);
    SameGraph(d.(changes := d.changes + [c], index := d.index[c.hash := c], heads := MergeHeads(d.heads, c)), n);
  }
}
