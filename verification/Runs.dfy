/** Every step keeps the system invariant, so every run does; and replicas that
    hold the same changes agree. */
module Runs {
  import opened OpIds
  import opened Values
  import opened Ops
  import opened Objects
  import opened Histories
  import opened Representation
  import opened Documents
  import opened CausalGraph
  import opened DocInvariant
  import opened LocalCalls
  import opened Recording
  import opened Replicas

  // ---- commit ----

  lemma CommitSystem(sys: System, i: nat, hashOf: HashFn, time: Time, message: Str, group: Str, kinds: Kinds)
    requires SystemOK(sys, kinds, hashOf) && Allowed(sys, CommitStep(i, time, message, group), kinds, hashOf)
    ensures SystemOK(sys[i := Commit(sys[i], hashOf, time, message, group)], kinds, hashOf)
  {
    hide DocOK, NewChange;
    var n := sys[i := Commit(sys[i], hashOf, time, message, group)];
    if sys[i].pending != [] {
      var c := NewChange(sys[i], hashOf, time, message, group);
      assert c.hash !in sys[i].index by { NotInIndex(sys[i], c.hash, kinds, hashOf); }
      CommitOK(sys[i], hashOf, time, message, group, kinds);
      assert c.actor == sys[i].actor by { NewChangeActor(sys[i], hashOf, time, message, group); }
      assert c in n[i].changes;
      forall a, e | 0 <= a < |n| && e in n[a].changes ensures MadeByOwner(n, e) {
        if e != c {
          assert e in sys[a].changes;
          var o, k := OwnerOf(sys, e);
          assert e in n[o].changes;
        }
      }
      forall a, b | 0 <= a < |n| && 0 <= b < |n| ensures NoCollision(n[a].changes, n[b].changes) {
        CommitNoCollision(sys, i, c, n, a, b, kinds, hashOf);
      }
    } else {
      assert n == sys;
    }
  }

  lemma NewChangeActor(d: Doc, hashOf: HashFn, time: Time, message: Str, group: Str)
    requires d.pending != []
    ensures NewChange(d, hashOf, time, message, group).actor == d.actor
  {
  }

  lemma NotInIndex(d: Doc, h: Hash, kinds: Kinds, hashOf: HashFn)
    requires DocOK(d, kinds, hashOf) && !Recorded(d.changes, h)
    ensures h !in d.index
  {
    hide StateOK, ChangesOK, PendingOK, NoRepeats, Topological, HeadsExact, Recorded;
  }

  lemma CommitNoCollision(sys: System, i: nat, c: Change, n: System, a: nat, b: nat, kinds: Kinds, hashOf: HashFn)
    requires SystemOK(sys, kinds, hashOf) && i < |sys| == |n| && a < |n| && b < |n|
    requires forall j :: 0 <= j < |sys| ==> n[j].changes == if j == i then sys[i].changes + [c] else sys[j].changes
    requires forall j :: 0 <= j < |sys| ==> !Recorded(sys[j].changes, c.hash)
    ensures NoCollision(n[a].changes, n[b].changes)
  {
    hide SystemOK, Recorded;
    forall x, y | x in n[a].changes && y in n[b].changes && x.hash == y.hash ensures x == y {
      OldOrNew(sys, i, c, n, a, x);
      OldOrNew(sys, i, c, n, b, y);
      if x != c && y != c {
        GenuineCollide(sys, x, y, kinds, hashOf);
      }
    }
  }

  /** A change of the new system is the committed one or carries another hash. */
  lemma OldOrNew(sys: System, i: nat, c: Change, n: System, a: nat, x: Change)
    requires i < |sys| == |n| && a < |n| && x in n[a].changes
    requires n[a].changes == if a == i then sys[i].changes + [c] else sys[a].changes
    requires !Recorded(sys[a].changes, c.hash)
    ensures x == c || (Genuine(sys, x) && x.hash != c.hash)
  {
    if x != c {
      assert x in sys[a].changes;
      var k :| 0 <= k < |sys[a].changes| && sys[a].changes[k] == x;
    }
  }

  // ---- merge ----

  lemma StartsBeforeOrder(a: Change, b: Change, c: Change)
    ensures StartsBefore(a, b) && StartsBefore(b, c) ==> StartsBefore(a, c)
    ensures !(StartsBefore(a, b) && StartsBefore(b, a))
  {
    StrLessIsStrictOrder(a.hash, b.hash, c.hash);
    StrLessIsTotal(a.hash, b.hash);
  }

  ghost predicate StartSorted(s: seq<Change>) {
    forall i, j :: 0 <= i < j < |s| ==> !StartsBefore(s[j], s[i])
  }

  lemma {:induction false} InsertChangeSorted(c: Change, s: seq<Change>)
    requires StartSorted(s)
    ensures StartSorted(InsertChange(c, s))
  {
    hide StartsBefore;
    if s != [] {
      if StartsBefore(c, s[0]) {
        forall j | 0 <= j < |s| ensures !StartsBefore(s[j], c) {
          StartsBeforeOrder(s[j], c, s[0]);
          StartsBeforeOrder(s[0], s[j], s[0]);
        }
      } else {
        InsertChangeSorted(c, s[1..]);
        var r := InsertChange(c, s[1..]);
        forall j | 0 <= j < |r| ensures !StartsBefore(r[j], s[0]) {
          assert r[j] in multiset(r);
          assert r[j] == c || r[j] in s[1..];
        }
      }
    }
  }

  lemma {:induction false} SortChangesSorted(s: seq<Change>)
    ensures StartSorted(SortChanges(s))
  {
    if s != [] {
      SortChangesSorted(s[1..]);
      InsertChangeSorted(s[0], SortChanges(s[1..]));
    }
  }

  /** Each dependency is known or comes earlier in the list. */
  ghost predicate DepsFirst(d: Doc, changes: seq<Change>) {
    forall p, h :: 0 <= p < |changes| && h in changes[p].deps ==> h in d.index || Recorded(changes[..p], h)
  }

  lemma DepsFirstTail(d: Doc, n: Doc, changes: seq<Change>)
    requires changes != [] && DepsFirst(d, changes)
    requires forall h :: h in d.index || h == changes[0].hash ==> h in n.index
    ensures DepsFirst(n, changes[1..])
  {
    forall p, h | 0 <= p < |changes| - 1 && h in changes[1..][p].deps
      ensures h in n.index || Recorded(changes[1..][..p], h)
    {
      assert changes[p + 1] == changes[1..][p];
      if h !in n.index {
        var q :| 0 <= q < p + 1 && changes[..p + 1][q].hash == h;
        assert changes[1..][..p][q - 1].hash == h;
      }
    }
  }

  /** When dependencies come first, merging without the dependency check does
      what receiving with it does. */
  lemma {:induction false} MergeIsReceive(d: Doc, changes: seq<Change>)
    requires DepsFirst(d, changes)
    ensures MergeSorted(d, changes) == Receive(d, changes)
    decreases |changes|
  {
    hide ApplyOps;
    if changes != [] {
      var c := changes[0];
      assert DepsKnown(d, c);
      if c.hash in d.index {
        DepsFirstTail(d, d, changes);
        MergeIsReceive(d, changes[1..]);
      } else {
        var (n, ok) := ApplyRemote(d, c);
        if ok {
          DepsFirstTail(d, n, changes);
          MergeIsReceive(n, changes[1..]);
        }
      }
    }
  }

  /** Sorting causally starting changes puts every dependency first. */
  lemma SortIsCausal(d: Doc, changes: seq<Change>)
    requires CausalStarts(changes) && Topological(changes)
    ensures DepsFirst(d, SortChanges(changes))
  {
    hide InsertChange, SortChanges, CausalStarts;
    var s := SortChanges(changes);
    SortChangesSorted(changes);
    forall p, h | 0 <= p < |s| && h in s[p].deps ensures Recorded(s[..p], h) {
      assert s[p] in multiset(s);
      var k :| 0 <= k < |changes| && changes[k] == s[p];
      assert Recorded(changes[..k], h);
      var m :| 0 <= m < k && changes[..k][m].hash == h;
      assert changes[m].startOp < s[p].startOp by { CausalPair(changes, k, m); }
      assert changes[m] in multiset(s);
      var q :| 0 <= q < |s| && s[q] == changes[m];
      assert StartsBefore(s[q], s[p]);
      assert q < p;
      assert s[..p][q].hash == h;
    }
  }

  lemma CausalPair(changes: seq<Change>, k: nat, m: nat)
    requires CausalStarts(changes) && k < |changes| && m < |changes| && changes[m].hash in changes[k].deps
    ensures changes[m].startOp < changes[k].startOp
  {
  }

  lemma MergeSystem(sys: System, i: nat, j: nat, kinds: Kinds, hashOf: HashFn)
    requires SystemOK(sys, kinds, hashOf) && Allowed(sys, MergeStep(i, j), kinds, hashOf)
    ensures Merge(sys[i], sys[j]).1
    ensures SystemOK(sys[i := Merge(sys[i], sys[j]).0], kinds, hashOf)
  {
    hide StateOK, ChangesOK, PendingOK, NoRepeats, HeadsExact, IndexExact, CausalStarts, DepsFirst, Topological, MadeByOwner, NoCollision, MergeSorted, Receive;
    assert DocOK(sys[j], kinds, hashOf);
    var s := SortChanges(sys[j].changes);
    SortIsCausal(sys[i], sys[j].changes);
    MergeIsReceive(sys[i], s);
    forall c | c in s ensures Genuine(sys, c) {
      assert c in multiset(s);
    }
    ReceiveOK(sys, i, s, kinds, hashOf);
  }

  // ---- every step, every run ----

  lemma EditSystem(sys: System, i: nat, call: Call, kinds: Kinds, hashOf: HashFn)
    requires SystemOK(sys, kinds, hashOf) && Allowed(sys, EditStep(i, call), kinds, hashOf)
    ensures SystemOK(sys[i := DoCall(sys[i], call)], kinds, hashOf)
  {
    hide DocOK, DoCall, CallAllowed, MadeByOwner, NoCollision;
    CallOK(sys[i], call, kinds, hashOf);
    ReplaceDoc(sys, i, DoCall(sys[i], call), kinds, hashOf);
  }

  /** One step of any kind keeps the invariant. */
  lemma StepOK(sys: System, step: Step, kinds: Kinds, hashOf: HashFn)
    requires SystemOK(sys, kinds, hashOf) && Allowed(sys, step, kinds, hashOf)
    ensures SystemOK(Next(sys, step, hashOf), kinds, hashOf)
  {
    hide SystemOK, DoCall, Commit, Receive, Merge;
    match step
    case EditStep(i, call) => EditSystem(sys, i, call, kinds, hashOf);
    case CommitStep(i, time, message, group) => CommitSystem(sys, i, hashOf, time, message, group, kinds);
    case ReceiveStep(i, changes) => ReceiveOK(sys, i, changes, kinds, hashOf);
    case MergeStep(i, j) => MergeSystem(sys, i, j, kinds, hashOf);
  }

  function Start(actors: seq<Str>): System {
    seq(|actors|, i requires 0 <= i < |actors| => NewDoc(actors[i]))
  }

  /** Replicas start with distinct, non-empty actors. */
  ghost predicate Startable(actors: seq<Str>) {
    && (forall i :: 0 <= i < |actors| ==> actors[i] != [])
    && (forall i, j :: 0 <= i < j < |actors| ==> actors[i] != actors[j])
  }

  ghost predicate AllowedRun(sys: System, steps: seq<Step>, kinds: Kinds, hashOf: HashFn)
    decreases |steps|
  {
    steps != [] ==> Allowed(sys, steps[0], kinds, hashOf) && AllowedRun(Next(sys, steps[0], hashOf), steps[1..], kinds, hashOf)
  }

  /** The system after a run. */
  ghost function After(sys: System, steps: seq<Step>, hashOf: HashFn): (n: System)
    ensures |n| == |sys|
    decreases |steps|
  {
    if steps == [] then sys else After(Next(sys, steps[0], hashOf), steps[1..], hashOf)
  }

  lemma StartOK(actors: seq<Str>, kinds: Kinds, hashOf: HashFn)
    requires Startable(actors) && kinds(ROOT) == MapKind
    ensures SystemOK(Start(actors), kinds, hashOf)
  {
    hide DocOK;
    forall i | 0 <= i < |actors| ensures DocOK(Start(actors)[i], kinds, hashOf) {
      NewDocOK(actors[i], kinds, hashOf);
    }
  }

  lemma {:induction false} RunOK(sys: System, steps: seq<Step>, kinds: Kinds, hashOf: HashFn)
    requires SystemOK(sys, kinds, hashOf) && AllowedRun(sys, steps, kinds, hashOf)
    ensures SystemOK(After(sys, steps, hashOf), kinds, hashOf)
    decreases |steps|
  {
    hide SystemOK, CallAllowed, Genuine, CausalStarts, Next;
    if steps != [] {
      assert Allowed(sys, steps[0], kinds, hashOf);
      StepOK(sys, steps[0], kinds, hashOf);
      RunOK(Next(sys, steps[0], hashOf), steps[1..], kinds, hashOf);
    }
  }

  // ---- agreement ----

  ghost predicate SameChanges(a: Doc, b: Doc) {
    forall c :: c in a.changes <==> c in b.changes
  }

  lemma SameHeads(a: Doc, b: Doc)
    requires Graph(a) && Graph(b) && SameChanges(a, b)
    ensures a.heads == b.heads
  {
    hide Increasing, NoRepeats, Topological, IndexExact;
    forall h ensures IsHead(a.changes, h) <==> IsHead(b.changes, h) {
      HeadMember(a.changes, b.changes, h);
      HeadMember(b.changes, a.changes, h);
    }
    IncreasingIsUnique(a.heads, b.heads);
  }

  lemma HeadMember(a: seq<Change>, b: seq<Change>, h: Hash)
    requires forall c :: c in a <==> c in b
    ensures IsHead(a, h) ==> IsHead(b, h)
  {
    if IsHead(a, h) {
      var k :| 0 <= k < |a| && a[k].hash == h;
      assert a[k] in b;
      var m :| 0 <= m < |b| && b[m] == a[k];
      forall n | 0 <= n < |b| ensures h !in b[n].deps {
        assert b[n] in a;
      }
    }
  }

  /** Two replicas with the same changes and nothing pending hold the same
      objects, down to element order, tombstones and identities, and the same
      heads. */
  lemma SameChangesAgree(sys: System, i: nat, j: nat, kinds: Kinds, hashOf: HashFn)
    requires SystemOK(sys, kinds, hashOf) && i < |sys| && j < |sys|
    requires SameChanges(sys[i], sys[j]) && sys[i].pending == [] && sys[j].pending == []
    ensures sys[i].objects == sys[j].objects && sys[i].heads == sys[j].heads
  {
    hide Graph, ChangesOK, PendingOK, Represents, Sound, MadeByOwner, NoCollision;
    assert DocOK(sys[i], kinds, hashOf) && DocOK(sys[j], kinds, hashOf);
    SameHeads(sys[i], sys[j]);
    assert OpsOf(sys[i]) == OpsOf(sys[j]);
    RepresentsIsUnique(sys[i].objects, sys[j].objects, OpsOf(sys[i]), kinds);
  }

  /** Strong eventual consistency, over every run from empty replicas in which all
      replicas give each object one kind. */
  lemma AgreedRunsConverge(actors: seq<Str>, steps: seq<Step>, i: nat, j: nat, kinds: Kinds, hashOf: HashFn)
    requires Startable(actors) && kinds(ROOT) == MapKind && AllowedRun(Start(actors), steps, kinds, hashOf)
    requires var sys := After(Start(actors), steps, hashOf);
             && i < |sys| && j < |sys| && SameChanges(sys[i], sys[j])
             && sys[i].pending == [] && sys[j].pending == []
    ensures var sys := After(Start(actors), steps, hashOf);
            sys[i].objects == sys[j].objects && sys[i].heads == sys[j].heads
  {
    hide SystemOK, AllowedRun, After, SameChanges, Startable;
    StartOK(actors, kinds, hashOf);
    RunOK(Start(actors), steps, kinds, hashOf);
    SameChangesAgree(After(Start(actors), steps, hashOf), i, j, kinds, hashOf);
  }
}
