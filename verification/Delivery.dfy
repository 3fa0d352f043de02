/** What a replica has recorded after it received or merged changes
    (ReceiveSyncMessage and Merge in crdt/doc.go), and that delivery catches up. */
module Delivery {
  import opened OpIds
  import opened Values
  import opened Ops
  import opened Objects
  import opened Documents
  import opened CausalGraph
  import opened DocInvariant
  import opened Representation
  import opened Recording
  import opened Replicas
  import opened Runs
  import opened Lamport
  import opened Convergence

  /** n is d with some changes recorded behind its own; what only the owner of a
      document writes is untouched. */
  ghost predicate Took(d: Doc, n: Doc, more: seq<Change>) {
    && n.actor == d.actor && n.seqNo == d.seqNo && n.pending == d.pending && n.patches == d.patches
    && n.changes == d.changes + more
    && forall h :: h in n.index <==> h in d.index || Recorded(more, h)
  }

  lemma TookNothing(d: Doc)
    ensures Took(d, d, [])
  {
    assert d.changes + [] == d.changes;
  }

  lemma TookMore(d: Doc, m: Doc, n: Doc, a: seq<Change>, b: seq<Change>)
    requires Took(d, m, a) && Took(m, n, b)
    ensures Took(d, n, a + b)
  {
    forall h ensures Recorded(a + b, h) <==> Recorded(a, h) || Recorded(b, h) { RecordedBoth(a, b, h); }
    hide Recorded;
    assert d.changes + a + b == d.changes + (a + b);
  }

  lemma RecordedBoth(a: seq<Change>, b: seq<Change>, h: Hash)
    ensures Recorded(a + b, h) <==> Recorded(a, h) || Recorded(b, h)
  {
    var all := a + b;
    if Recorded(a, h) {
      var k :| 0 <= k < |a| && a[k].hash == h;
      assert all[k].hash == h;
    }
    if Recorded(b, h) {
      var k :| 0 <= k < |b| && b[k].hash == h;
      assert all[|a| + k].hash == h;
    }
  }

  /** An accepted change is recorded as it came. */
  lemma RemoteTakes(d: Doc, c: Change)
    requires ApplyRemote(d, c).1
    ensures Took(d, ApplyRemote(d, c).0, [c])
  {
    hide ApplyOps, MergeHeads;
    assert [c][0] == c;
  }

  // ---- receiving ----

  /** Whether Receive records a change: it is new and all it depends on is there. */
  predicate Wanted(d: Doc, c: Change) {
    c.hash !in d.index && forall h :: h in c.deps ==> h in d.index
  }

  /** Receiving one change more: it is recorded exactly when it is wanted. */
  lemma {:induction false} ReceiveMore(d: Doc, changes: seq<Change>, c: Change)
    requires Receive(d, changes).1
    ensures var m := Receive(d, changes).0;
            Receive(d, changes + [c]) == if Wanted(m, c) then ApplyRemote(m, c) else (m, true)
    decreases |changes|
  {
    hide ApplyRemote;
    var all := changes + [c];
    if changes == [] {
      assert all[0] == c && all[1..] == [];
    } else {
      assert all[0] == changes[0] && all[1..] == changes[1..] + [c];
      if Wanted(d, changes[0]) {
        ReceiveMore(ApplyRemote(d, changes[0]).0, changes[1..], c);
      } else {
        ReceiveMore(d, changes[1..], c);
      }
    }
  }

  lemma {:induction false} ReceivePrefix(d: Doc, changes: seq<Change>, k: nat)
    requires Receive(d, changes).1 && k <= |changes|
    ensures Receive(d, changes[..k]).1
    decreases |changes|
  {
    hide ApplyRemote;
    if k > 0 {
      var part := changes[..k];
      assert part[0] == changes[0] && part[1..] == changes[1..][..k - 1];
      if Wanted(d, changes[0]) {
        ReceivePrefix(ApplyRemote(d, changes[0]).0, changes[1..], k - 1);
      } else {
        ReceivePrefix(d, changes[1..], k - 1);
      }
    }
  }

  /** What the k-th change of a message does to what the changes before it left. */
  lemma ReceiveStep(d: Doc, changes: seq<Change>, k: nat)
    requires Receive(d, changes).1 && k < |changes|
    ensures var m, n := Receive(d, changes[..k]).0, Receive(d, changes[..k + 1]).0;
            Took(m, n, if Wanted(m, changes[k]) then [changes[k]] else [])
  {
    hide ApplyRemote, Receive, Wanted, Took;
    ReceivePrefix(d, changes, k);
    ReceivePrefix(d, changes, k + 1);
    assert changes[..k + 1] == changes[..k] + [changes[k]];
    ReceiveMore(d, changes[..k], changes[k]);
    var m := Receive(d, changes[..k]).0;
    if Wanted(m, changes[k]) { RemoteTakes(m, changes[k]); } else { TookNothing(m); }
  }

  /** From the changes before k to the whole message only changes of it are added. */
  lemma {:induction false} ReceiveFrom(d: Doc, changes: seq<Change>, k: nat) returns (more: seq<Change>)
    requires Receive(d, changes).1 && k <= |changes|
    ensures Took(Receive(d, changes[..k]).0, Receive(d, changes).0, more)
    ensures forall c :: c in more ==> c in changes[k..]
    decreases |changes| - k
  {
    hide Receive, Wanted, Took;
    if k == |changes| {
      assert changes[..k] == changes;
      more := [];
      TookNothing(Receive(d, changes).0);
    } else {
      var m, n := Receive(d, changes[..k]).0, Receive(d, changes[..k + 1]).0;
      ReceiveStep(d, changes, k);
      var rest := ReceiveFrom(d, changes, k + 1);
      var one := if Wanted(m, changes[k]) then [changes[k]] else [];
      more := one + rest;
      TookMore(m, n, Receive(d, changes).0, one, rest);
      assert changes[k..] == [changes[k]] + changes[k + 1..];
    }
  }

  lemma ReceiveNone(d: Doc, changes: seq<Change>)
    ensures Receive(d, changes[..0]) == (d, true)
  {
  }

  /** Receiving committed changes in any order and number: nothing is refused or
      lost, nothing comes from elsewhere, and each change of the message is recorded
      exactly when it is wanted by what the changes before it left. */
  lemma ReceiveDelivers(sys: System, i: nat, changes: seq<Change>, k: nat, kinds: Kinds, hashOf: HashFn)
    returns (more: seq<Change>)
    requires SystemOK(sys, kinds, hashOf) && i < |sys| && k < |changes|
    requires forall c :: c in changes ==> Genuine(sys, c)
    ensures Receive(sys[i], changes).1
    ensures Took(sys[i], Receive(sys[i], changes).0, more) && forall c :: c in more ==> c in changes
    ensures var m, n := Receive(sys[i], changes[..k]).0, Receive(sys[i], changes[..k + 1]).0;
            Took(m, n, if Wanted(m, changes[k]) then [changes[k]] else [])
  {
    hide SystemOK, Genuine, Receive, Took, Wanted;
    ReceiveOK(sys, i, changes, kinds, hashOf);
    more := ReceiveFrom(sys[i], changes, 0);
    ReceiveNone(sys[i], changes);
    ReceiveStep(sys[i], changes, k);
  }

  /** So a change is recorded after the message if all it depends on was recorded
      before the message, whatever else the message holds. */
  lemma ReadyIsRecorded(d: Doc, changes: seq<Change>, c: Change)
    requires Receive(d, changes).1 && c in changes && forall h :: h in c.deps ==> h in d.index
    ensures c.hash in Receive(d, changes).0.index
    ensures forall h :: h in d.index ==> h in Receive(d, changes).0.index
  {
    hide Receive;
    var k :| 0 <= k < |changes| && changes[k] == c;
    ReceiveNone(d, changes);
    ReceiveStep(d, changes, k);
    var before := ReceiveTo(d, changes, k);
    var behind := ReceiveFrom(d, changes, k + 1);
    var m := Receive(d, changes[..k]).0;
    assert Recorded([c], c.hash) by { assert [c][0] == c; }
    assert c.hash in m.index || Wanted(m, c);
  }

  lemma {:induction false} ReceiveTo(d: Doc, changes: seq<Change>, k: nat) returns (more: seq<Change>)
    requires Receive(d, changes).1 && k <= |changes|
    ensures Took(d, Receive(d, changes[..k]).0, more)
  {
    hide Receive, Took;
    ReceivePrefix(d, changes, k);
    more := ReceiveFrom(d, changes[..k], 0);
    ReceiveNone(d, changes[..k]);
  }

  // ---- catching up ----

  /** A message delivered several times. */
  function Rounds(d: Doc, changes: seq<Change>, n: nat): Doc {
    if n == 0 then d else Receive(Rounds(d, changes, n - 1), changes).0
  }

  lemma {:induction false} RoundsOK(sys: System, i: nat, changes: seq<Change>, n: nat, kinds: Kinds, hashOf: HashFn)
    requires SystemOK(sys, kinds, hashOf) && i < |sys| && forall c :: c in changes ==> Genuine(sys, c)
    ensures var now := sys[i := Rounds(sys[i], changes, n)];
            SystemOK(now, kinds, hashOf) && forall c :: c in changes ==> Genuine(now, c)
  {
    hide SystemOK, Receive, Took;
    if n == 0 {
      assert sys[i := sys[i]] == sys;
    } else {
      RoundsOK(sys, i, changes, n - 1, kinds, hashOf);
      var was := sys[i := Rounds(sys[i], changes, n - 1)];
      var now := was[i := Receive(was[i], changes).0];
      ReceiveOK(was, i, changes, kinds, hashOf);
      var more := ReceiveFrom(was[i], changes, 0);
      ReceiveNone(was[i], changes);
      forall c | c in changes ensures Genuine(now, c) { StaysGenuine(was, i, now[i], more, c); }
      assert now == sys[i := Rounds(sys[i], changes, n)];
    }
  }

  lemma StaysGenuine(sys: System, i: nat, n: Doc, more: seq<Change>, c: Change)
    requires i < |sys| && Took(sys[i], n, more) && Genuine(sys, c)
    ensures Genuine(sys[i := n], c)
  {
    var j :| 0 <= j < |sys| && c in sys[j].changes;
    assert c in sys[i := n][j].changes;
  }

  /** Whatever the order within a message: delivering all changes of a replica as
      often as there are changes records them all. */
  lemma {:induction false} RoundsRecord(sys: System, i: nat, j: nat, message: seq<Change>, n: nat, kinds: Kinds, hashOf: HashFn)
    requires SystemOK(sys, kinds, hashOf) && i < |sys| && j < |sys| && n <= |sys[j].changes|
    requires (forall c :: c in message ==> Genuine(sys, c)) && forall c :: c in sys[j].changes ==> c in message
    ensures forall k :: 0 <= k < n ==> sys[j].changes[k].hash in Rounds(sys[i], message, n).index
  {
    hide Receive, DocOK, Rounds, MadeByOwner, NoCollision, Genuine;
    if n > 0 {
      var was := Rounds(sys[i], message, n - 1);
      RoundsRecord(sys, i, j, message, n - 1, kinds, hashOf);
      RoundsOK(sys, i, message, n - 1, kinds, hashOf);
      ReceiveOK(sys[i := was], i, message, kinds, hashOf);
      NextRound(sys[i], message, n);
      DepsOfNext(sys, j, n - 1, was, kinds, hashOf);
      hide SystemOK;
      ReadyIsRecorded(was, message, sys[j].changes[n - 1]);
    }
  }

  lemma NextRound(d: Doc, message: seq<Change>, n: nat)
    requires n > 0
    ensures Rounds(d, message, n) == Receive(Rounds(d, message, n - 1), message).0
  {
    hide Receive;
  }

  lemma DepsOfNext(sys: System, j: nat, k: nat, d: Doc, kinds: Kinds, hashOf: HashFn)
    requires SystemOK(sys, kinds, hashOf) && j < |sys| && k < |sys[j].changes|
    requires forall m :: 0 <= m < k ==> sys[j].changes[m].hash in d.index
    ensures forall h :: h in sys[j].changes[k].deps ==> h in d.index
  {
    hide StateOK, ChangesOK, PendingOK, NoRepeats, HeadsExact, IndexExact, MadeByOwner, NoCollision;
    assert DocOK(sys[j], kinds, hashOf);
    forall h | h in sys[j].changes[k].deps ensures h in d.index {
      assert Recorded(sys[j].changes[..k], h);
      var m :| 0 <= m < k && sys[j].changes[..k][m].hash == h;
    }
  }

  // ---- merging ----

  /** An accepted merge records every change of the list, and only those. */
  lemma {:induction false} MergeTakes(d: Doc, changes: seq<Change>) returns (more: seq<Change>)
    requires MergeSorted(d, changes).1
    ensures Took(d, MergeSorted(d, changes).0, more) && forall c :: c in more ==> c in changes
    ensures forall c :: c in changes ==> c.hash in MergeSorted(d, changes).0.index
    decreases |changes|
  {
    hide ApplyRemote, Recorded;
    if changes == [] {
      more := [];
      TookNothing(d);
    } else if changes[0].hash in d.index {
      more := MergeTakes(d, changes[1..]);
      FirstAndRest(changes);
    } else {
      var m := ApplyRemote(d, changes[0]).0;
      RemoteTakes(d, changes[0]);
      var rest := MergeTakes(m, changes[1..]);
      more := [changes[0]] + rest;
      TookMore(d, m, MergeSorted(d, changes).0, [changes[0]], rest);
      FirstAndRest(changes);
      assert Recorded([changes[0]], changes[0].hash) by { RecordedHere([changes[0]], 0); }
    }
  }

  lemma FirstAndRest(changes: seq<Change>)
    requires changes != []
    ensures forall c :: c in changes <==> c == changes[0] || c in changes[1..]
  {
    assert changes == [changes[0]] + changes[1..];
  }

  /** After an allowed merge the replica has its own changes and all of the other. */
  lemma MergeDelivers(sys: System, i: nat, j: nat, kinds: Kinds, hashOf: HashFn)
    requires SystemOK(sys, kinds, hashOf) && Allowed(sys, MergeStep(i, j), kinds, hashOf)
    ensures Merge(sys[i], sys[j]).1
    ensures var n := Merge(sys[i], sys[j]).0; forall c :: c in n.changes <==> c in sys[i].changes || c in sys[j].changes
    ensures var n := Merge(sys[i], sys[j]).0; sys[i].changes <= n.changes && n.pending == sys[i].pending
  {
    hide CausalStarts, MergeSorted, DocOK, MadeByOwner;
    MergeSystem(sys, i, j, kinds, hashOf);
    var s, n := SortChanges(sys[j].changes), Merge(sys[i], sys[j]).0;
    var more := MergeTakes(sys[i], s);
    forall c ensures c in s <==> c in sys[j].changes { SortedMembers(sys[j].changes, c); }
    var now := sys[i := n];
    assert SystemOK(now, kinds, hashOf);
    assert NoCollision(now[j].changes, now[i].changes);
    hide NoCollision, SystemOK;
    forall c | c in sys[j].changes ensures c in n.changes {
      if i != j {
        IndexedMember(now, i, j, c, kinds, hashOf);
      } else {
        assert c in sys[i].changes;
      }
    }
  }

  lemma SortedMembers(changes: seq<Change>, c: Change)
    ensures c in SortChanges(changes) <==> c in changes
  {
    assert c in multiset(SortChanges(changes)) <==> c in multiset(changes);
  }

  /** A change of one replica whose hash another has indexed is recorded there. */
  lemma IndexedMember(sys: System, i: nat, j: nat, c: Change, kinds: Kinds, hashOf: HashFn)
    requires SystemOK(sys, kinds, hashOf) && i < |sys| && j < |sys|
    requires c in sys[j].changes && c.hash in sys[i].index
    ensures c in sys[i].changes
  {
    hide StateOK, ChangesOK, PendingOK, NoRepeats, Topological, HeadsExact, MadeByOwner;
    assert DocOK(sys[i], kinds, hashOf);
    assert NoCollision(sys[j].changes, sys[i].changes);
    RecordedMember(sys[j].changes, sys[i].changes, c);
  }

  // ---- two merges synchronise ----

  lemma MergeStarts(sys: System, i: nat, j: nat, kinds: Kinds, hashOf: HashFn) returns (n: System)
    requires StartsOK(sys, kinds, hashOf) && i < |sys| && j < |sys| && sys[i].pending == []
    ensures Allowed(sys, MergeStep(i, j), kinds, hashOf)
    ensures n == sys[i := Merge(sys[i], sys[j]).0] && StartsOK(n, kinds, hashOf)
  {
    hide StartsOK, Allowed, Merge;
    n := Next(sys, MergeStep(i, j), hashOf);
    DisciplinedOK(sys, MergeStep(i, j), kinds, hashOf);
  }

  /** In a system whose starts rise, a merge each way leaves two replicas with
      nothing pending the same. */
  lemma MergeBothWays(sys: System, i: nat, j: nat, kinds: Kinds, hashOf: HashFn)
    requires StartsOK(sys, kinds, hashOf) && i < |sys| && j < |sys| && i != j
    requires sys[i].pending == [] && sys[j].pending == []
    ensures var a := Merge(sys[i], sys[j]); var b := Merge(sys[j], a.0);
            && a.1 && b.1 && a.0.objects == b.0.objects && a.0.heads == b.0.heads
            && forall c :: c in a.0.changes <==> c in sys[i].changes || c in sys[j].changes
  {
    hide StartsOK, SystemOK, Allowed, Merge;
    StartsSystem(sys, kinds, hashOf);
    var m := MergeStarts(sys, i, j, kinds, hashOf);
    MergeDelivers(sys, i, j, kinds, hashOf);
    StartsSystem(m, kinds, hashOf);
    var n := MergeStarts(m, j, i, kinds, hashOf);
    MergeDelivers(m, j, i, kinds, hashOf);
    StartsSystem(n, kinds, hashOf);
    assert SameChanges(n[i], n[j]);
    SameChangesAgree(n, i, j, kinds, hashOf);
  }

  /** So at the end of every run in which remote changes arrive only while nothing
      is pending: once two replicas have committed, a merge each way makes them
      equal. */
  lemma MergesSynchronise(actors: seq<Str>, steps: seq<Step>, i: nat, j: nat, hashOf: HashFn)
    requires Startable(actors) && QuietRun(Start(actors), steps, hashOf)
    requires var sys := After(Start(actors), steps, hashOf);
             i < |sys| && j < |sys| && i != j && sys[i].pending == [] && sys[j].pending == []
    ensures var sys := After(Start(actors), steps, hashOf);
            var a := Merge(sys[i], sys[j]); var b := Merge(sys[j], a.0);
            && a.1 && b.1 && a.0.objects == b.0.objects && a.0.heads == b.0.heads
            && forall c :: c in a.0.changes <==> c in sys[i].changes || c in sys[j].changes
  {
    hide SystemOK, StartsAbove, QuietRun, PermittedRun, After, Merge, Startable, NamesOK;
    var maps: Kinds := (x: ObjID) => MapKind;
    StartOK(actors, maps, hashOf);
    StartNames(actors);
    forall i | 0 <= i < |actors| ensures StartsAbove(Start(actors)[i]) { EmptyStarts(actors[i]); }
    var last := QuietRunOK(Start(actors), steps, maps, hashOf);
    MergeBothWays(After(Start(actors), steps, hashOf), i, j, last, hashOf);
  }
}
