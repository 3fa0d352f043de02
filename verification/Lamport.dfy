/** Runs in which remote changes arrive only while nothing is pending. There the
    start of a change lies above every operation of its past, so the sort that
    Merge uses is causal and a merge never fails. */
module Lamport {
  import opened OpIds
  import opened Values
  import opened Ops
  import opened Objects
  import opened Histories
  import opened Representation
  import opened Documents
  import opened CausalGraph
  import opened DocInvariant
  import opened LocalCalls
  import opened Replicas
  import opened Runs

  ghost predicate AllBelow(ops: set<Op>, counter: nat) {
    forall o :: o in ops ==> LastCounter(o) < counter
  }

  /** A document's own changes, and its pending journal, start above everything
      that was recorded before them. */
  ghost predicate StartsAbove(d: Doc) {
    && (forall k :: 0 <= k < |d.changes| && d.changes[k].actor == d.actor ==>
          AllBelow(AllOps(d.changes[..k]), d.changes[k].startOp))
    && (d.pending != [] ==> AllBelow(AllOps(d.changes), d.pending[0].id.counter))
  }

  /** Remote changes arrive with an empty journal; merges need nothing else. */
  ghost predicate Disciplined(sys: System, step: Step, kinds: Kinds, hashOf: HashFn) {
    && step.i < |sys|
    && match step
       case ReceiveStep(i, changes) => sys[i].pending == [] && forall c :: c in changes ==> Genuine(sys, c)
       case MergeStep(i, j) => j < |sys| && sys[i].pending == []
       case _ => Allowed(sys, step, kinds, hashOf)
  }

  ghost predicate StartsOK(sys: System, kinds: Kinds, hashOf: HashFn) {
    SystemOK(sys, kinds, hashOf) && forall i :: 0 <= i < |sys| ==> StartsAbove(sys[i])
  }

  // ---- local edits journal above what is known ----

  lemma CallJournals(d: Doc, call: Call)
    ensures var n := DoCall(d, call);
            n.pending == d.pending ||
            exists op :: n.pending == d.pending + [op] && op.id.counter > d.maxOp
  {
    hide ApplyOp;
    var n := DoCall(d, call);
    if n.pending != d.pending {
      var op := n.pending[|d.pending|];
      assert n.pending == d.pending + [op];
    }
  }

  lemma EditStarts(d: Doc, call: Call, kinds: Kinds, hashOf: HashFn)
    requires DocOK(d, kinds, hashOf) && StartsAbove(d)
    requires DoCall(d, call).changes == d.changes && DoCall(d, call).actor == d.actor
    ensures StartsAbove(DoCall(d, call))
  {
    hide Represents, Sound, Graph, ChangesOK, PendingOK, DoCall, AllOps, LastCounter;
    CallJournals(d, call);
  }

  lemma CommitStarts(d: Doc, hashOf: HashFn, time: Time, message: Str, group: Str)
    requires StartsAbove(d)
    ensures StartsAbove(Commit(d, hashOf, time, message, group))
  {
    hide AllOps, AllBelow;
    if d.pending != [] {
      var n := Commit(d, hashOf, time, message, group);
      forall k | 0 <= k < |n.changes| && n.changes[k].actor == n.actor
        ensures AllBelow(AllOps(n.changes[..k]), n.changes[k].startOp)
      {
        if k < |d.changes| { assert n.changes[..k] == d.changes[..k]; } else { assert n.changes[..k] == d.changes; }
      }
    }
  }

  /** Deliveries add only other replicas' changes, so a document's own changes
      keep their places. */
  ghost predicate AddsForeign(d: Doc, n: Doc) {
    && n.actor == d.actor && n.pending == d.pending
    && |d.changes| <= |n.changes| && n.changes[..|d.changes|] == d.changes
    && forall k :: |d.changes| <= k < |n.changes| ==> n.changes[k].actor != d.actor
  }

  lemma {:induction false} ReceiveForeign(sys: System, i: nat, changes: seq<Change>, kinds: Kinds, hashOf: HashFn)
    requires SystemOK(sys, kinds, hashOf) && i < |sys|
    requires forall c :: c in changes ==> Genuine(sys, c)
    ensures AddsForeign(sys[i], Receive(sys[i], changes).0)
    decreases |changes|
  {
    hide SystemOK, DocOK, Genuine, ApplyOps, DepsKnown;
    if changes != [] {
      var c := changes[0];
      if c.hash !in sys[i].index && DepsKnown(sys[i], c) {
        var n := sys[i := ApplyRemote(sys[i], c).0];
        GenuineDeliverable(sys, i, c, kinds, hashOf);
        DeliverOK(sys, i, c, kinds, hashOf);
        forall e | e in changes ensures Genuine(n, e) { StillGenuine(sys, i, c, e); }
        ReceiveForeign(n, i, changes[1..], kinds, hashOf);
        AddsTwice(sys[i], n[i], Receive(n[i], changes[1..]).0);
      } else {
        ReceiveForeign(sys, i, changes[1..], kinds, hashOf);
      }
    } else {
      assert sys[i].changes[..|sys[i].changes|] == sys[i].changes;
    }
  }

  lemma AddsTwice(d: Doc, m: Doc, n: Doc)
    requires AddsForeign(m, n) && AddsForeign(d, m)
    ensures AddsForeign(d, n)
  {
    assert n.changes[..|d.changes|] == n.changes[..|m.changes|][..|d.changes|];
    forall k | |d.changes| <= k < |m.changes| ensures n.changes[k] == m.changes[k] {
      assert n.changes[..|m.changes|][k] == m.changes[k];
    }
  }

  lemma ForeignStarts(d: Doc, n: Doc)
    requires AddsForeign(d, n) && StartsAbove(d) && d.pending == []
    ensures StartsAbove(n)
  {
    hide AllOps, AllBelow;
    forall k | 0 <= k < |n.changes| && n.changes[k].actor == n.actor
      ensures AllBelow(AllOps(n.changes[..k]), n.changes[k].startOp)
    {
      assert n.changes[..k] == n.changes[..|d.changes|][..k] == d.changes[..k];
      assert n.changes[k] == n.changes[..|d.changes|][k] == d.changes[k];
    }
  }

  // ---- starts are causal ----

  lemma OwnDependency(d: Doc, k: nat, h: Hash, kinds: Kinds, hashOf: HashFn) returns (m: nat)
    requires DocOK(d, kinds, hashOf) && k < |d.changes| && d.changes[k].actor == d.actor
    requires h in d.changes[k].deps
    ensures m < k && d.changes[m].hash == h
  {
    hide StateOK, Graph, PendingOK, ReadyInTurn, ChangeOK;
    assert OwnChange(d.changes, k, kinds);
    assert IsHead(d.changes[..k], h);
    m :| 0 <= m < k && d.changes[..k][m].hash == h;
  }

  lemma BelowStart(d: Doc, k: nat, m: nat)
    requires StartsAbove(d) && m < k < |d.changes| && d.changes[k].actor == d.actor
    ensures forall o :: o in d.changes[m].ops ==> LastCounter(o) < d.changes[k].startOp
  {
    hide LastCounter;
    assert AllBelow(AllOps(d.changes[..k]), d.changes[k].startOp);
    assert d.changes[..k][m] in d.changes[..k];
    forall o | o in d.changes[m].ops ensures o in AllOps(d.changes[..k]) {
    }
  }

  lemma ChangeStart(d: Doc, e: Change, kinds: Kinds, hashOf: HashFn)
    requires DocOK(d, kinds, hashOf) && e in d.changes
    ensures e.ops != [] && e.startOp <= LastCounter(e.ops[0])
  {
    hide StateOK, Graph, PendingOK, OwnChange;
    var n :| 0 <= n < |d.changes| && d.changes[n] == e;
    assert ChangeOK(e, hashOf);
  }

  /** A dependency of a change was recorded by its maker before it, so all its
      operations lie below the start. */
  lemma DependencyBelow(sys: System, i: nat, c: Change, e: Change, kinds: Kinds, hashOf: HashFn)
    requires StartsOK(sys, kinds, hashOf) && i < |sys|
    requires c in sys[i].changes && e in sys[i].changes && e.hash in c.deps
    ensures forall o :: o in e.ops ==> LastCounter(o) < c.startOp
    ensures e.startOp < c.startOp
  {
    hide DocOK, LastCounter, StartsAbove;
    assert MadeByOwner(sys, c);
    var w, k := OwnerOf(sys, c);
    var m := OwnDependency(sys[w], k, e.hash, kinds, hashOf);
    assert NoCollision(sys[w].changes, sys[i].changes);
    assert sys[w].changes[m] in sys[w].changes;
    assert sys[w].changes[m] == e;
    BelowStart(sys[w], k, m);
    ChangeStart(sys[i], e, kinds, hashOf);
    assert e.ops[0] in e.ops;
  }

  lemma StartsAreCausal(sys: System, i: nat, kinds: Kinds, hashOf: HashFn)
    requires StartsOK(sys, kinds, hashOf) && i < |sys|
    ensures CausalStarts(sys[i].changes)
  {
    hide StartsOK;
    forall c, e | c in sys[i].changes && e in sys[i].changes && e.hash in c.deps ensures e.startOp < c.startOp {
      DependencyBelow(sys, i, c, e, kinds, hashOf);
    }
  }

  /** A chain of dependencies, from a change down to an ancestor. */
  ghost predicate Chain(changes: seq<Change>, path: seq<Change>) {
    && path != []
    && (forall k :: 0 <= k < |path| ==> path[k] in changes)
    && forall k :: 0 < k < |path| ==> path[k].hash in path[k - 1].deps
  }

  /** The start of a change is above every operation of every ancestor. */
  lemma {:induction false} AncestorsBelow(sys: System, i: nat, path: seq<Change>, kinds: Kinds, hashOf: HashFn)
    requires StartsOK(sys, kinds, hashOf) && i < |sys|
    requires Chain(sys[i].changes, path) && |path| > 1
    ensures forall o :: o in path[|path| - 1].ops ==> LastCounter(o) < path[0].startOp
    decreases |path|
  {
    hide StartsOK, LastCounter;
    DependencyBelow(sys, i, path[0], path[1], kinds, hashOf);
    if |path| > 2 {
      assert Chain(sys[i].changes, path[1..]);
      AncestorsBelow(sys, i, path[1..], kinds, hashOf);
    }
  }

  // ---- disciplined runs ----

  /** A disciplined step is allowed and keeps starts above the past. */
  lemma DisciplinedOK(sys: System, step: Step, kinds: Kinds, hashOf: HashFn)
    requires StartsOK(sys, kinds, hashOf) && Disciplined(sys, step, kinds, hashOf)
    ensures Allowed(sys, step, kinds, hashOf)
    ensures StartsOK(Next(sys, step, hashOf), kinds, hashOf)
  {
    hide SystemOK, StartsAbove, CausalStarts, CallAllowed, DoCall, Commit, Receive, DocOK, Recorded, Genuine;
    match step
    case EditStep(i, call) =>
      StepOK(sys, step, kinds, hashOf);
      DocOf(sys, i, kinds, hashOf);
      CallOK(sys[i], call, kinds, hashOf);
      EditStarts(sys[i], call, kinds, hashOf);
    case CommitStep(i, time, message, group) =>
      StepOK(sys, step, kinds, hashOf);
      CommitStarts(sys[i], hashOf, time, message, group);
    case ReceiveStep(i, changes) =>
      StepOK(sys, step, kinds, hashOf);
      ReceiveForeign(sys, i, changes, kinds, hashOf);
      ForeignStarts(sys[i], Receive(sys[i], changes).0);
    case MergeStep(i, j) =>
      StartsAreCausal(sys, j, kinds, hashOf);
      StepOK(sys, step, kinds, hashOf);
      MergeStarts(sys, i, j, kinds, hashOf);
  }

  lemma DocOf(sys: System, i: nat, kinds: Kinds, hashOf: HashFn)
    requires SystemOK(sys, kinds, hashOf) && i < |sys|
    ensures DocOK(sys[i], kinds, hashOf)
  {
  }

  lemma MergeStarts(sys: System, i: nat, j: nat, kinds: Kinds, hashOf: HashFn)
    requires SystemOK(sys, kinds, hashOf) && i < |sys| && j < |sys|
    requires CausalStarts(sys[j].changes) && sys[i].pending == [] && StartsAbove(sys[i])
    ensures StartsAbove(Merge(sys[i], sys[j]).0)
  {
    hide SystemOK, StartsAbove, CausalStarts, Receive, MergeSorted, DocOK;
    var s := SortChanges(sys[j].changes);
    assert Topological(sys[j].changes) by { DocOf(sys, j, kinds, hashOf); DocTopological(sys[j], kinds, hashOf); }
    SortIsCausal(sys[i], sys[j].changes);
    MergeIsReceive(sys[i], s);
    forall c | c in s ensures Genuine(sys, c) { assert c in multiset(s); }
    ReceiveForeign(sys, i, s, kinds, hashOf);
    ForeignStarts(sys[i], Receive(sys[i], s).0);
  }

  lemma DocTopological(d: Doc, kinds: Kinds, hashOf: HashFn)
    requires DocOK(d, kinds, hashOf)
    ensures Topological(d.changes)
  {
  }

  ghost predicate DisciplinedRun(sys: System, steps: seq<Step>, kinds: Kinds, hashOf: HashFn)
    decreases |steps|
  {
    steps != [] ==>
      && Disciplined(sys, steps[0], kinds, hashOf)
      && DisciplinedRun(Next(sys, steps[0], hashOf), steps[1..], kinds, hashOf)
  }

  lemma {:induction false} DisciplinedRunOK(sys: System, steps: seq<Step>, kinds: Kinds, hashOf: HashFn)
    requires StartsOK(sys, kinds, hashOf) && DisciplinedRun(sys, steps, kinds, hashOf)
    ensures AllowedRun(sys, steps, kinds, hashOf)
    ensures StartsOK(After(sys, steps, hashOf), kinds, hashOf)
    decreases |steps|
  {
    hide StartsOK, CallAllowed, Genuine, CausalStarts, Next, Recorded;
    if steps != [] {
      DisciplinedOK(sys, steps[0], kinds, hashOf);
      DisciplinedRunOK(Next(sys, steps[0], hashOf), steps[1..], kinds, hashOf);
    }
  }

  /** From empty replicas, every disciplined run is allowed, so no delivery and
      no merge in it is refused, and every replica's starts stay causal. */
  lemma MergeOrderIsCausal(actors: seq<Str>, steps: seq<Step>, kinds: Kinds, hashOf: HashFn)
    requires Startable(actors) && kinds(ROOT) == MapKind && DisciplinedRun(Start(actors), steps, kinds, hashOf)
    ensures AllowedRun(Start(actors), steps, kinds, hashOf)
    ensures var sys := After(Start(actors), steps, hashOf);
            forall i, j :: 0 <= i < |sys| && 0 <= j < |sys| ==>
              CausalStarts(sys[j].changes) && Merge(sys[i], sys[j]).1
  {
    hide SystemOK, StartsAbove, CausalStarts, DisciplinedRun, AllowedRun, After, Merge, Startable;
    StartOK(actors, kinds, hashOf);
    forall i | 0 <= i < |actors| ensures StartsAbove(Start(actors)[i]) { EmptyStarts(actors[i]); }
    DisciplinedRunOK(Start(actors), steps, kinds, hashOf);
    var sys := After(Start(actors), steps, hashOf);
    forall i, j | 0 <= i < |sys| && 0 <= j < |sys| ensures CausalStarts(sys[j].changes) && Merge(sys[i], sys[j]).1 {
      StartsAreCausal(sys, j, kinds, hashOf);
      MergeSystem(sys, i, j, kinds, hashOf);
    }
  }

  lemma EmptyStarts(actor: Str)
    ensures StartsAbove(NewDoc(actor))
  {
  }
}
