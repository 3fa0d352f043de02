/** A system of replicas with distinct actors that edit, commit, exchange changes
    in any order and merge. Its invariant holds after every step of every run,
    and replicas that hold the same changes hold the same document. */
module Replicas {
  import opened OpIds
  import opened Values
  import opened Ops
  import opened Objects
  import opened Histories
  import opened Representation
  import opened Documents
  import opened CausalGraph
  import opened DocInvariant
  import opened LocalCalls
  import opened Recording

  type System = seq<Doc>

  datatype Step =
    | EditStep(i: nat, call: Call)
    | CommitStep(i: nat, time: Time, message: Str, group: Str)
    | ReceiveStep(i: nat, changes: seq<Change>)
    | MergeStep(i: nat, j: nat)

  /** The system after a step; a step of a replica that is not there does nothing. */
  function Next(sys: System, step: Step, hashOf: HashFn): (n: System)
    ensures |n| == |sys|
  {
    if step.i >= |sys| || (step.MergeStep? && step.j >= |sys|) then sys
    else
      var d := sys[step.i];
      sys[step.i := match step
                    case EditStep(_, call) => DoCall(d, call)
                    case CommitStep(_, time, message, group) => Commit(d, hashOf, time, message, group)
                    case ReceiveStep(_, changes) => Receive(d, changes).0
                    case MergeStep(_, j) => Merge(d, sys[j]).0]
  }

  /** A change that some replica has committed. */
  ghost predicate Genuine(sys: System, c: Change) {
    exists j :: 0 <= j < |sys| && c in sys[j].changes
  }

  /** Starts rise along dependencies, which is what sorting by start needs. */
  ghost predicate CausalStarts(changes: seq<Change>) {
    forall c, e :: c in changes && e in changes && e.hash in c.deps ==> e.startOp < c.startOp
  }

  /** The steps a run may take: allowed calls; commits whose hash nobody else's
      change has; deliveries of committed changes, in any order and number; and
      merges from a replica whose changes start in causal order. */
  ghost predicate Allowed(sys: System, step: Step, kinds: Kinds, hashOf: HashFn) {
    && step.i < |sys|
    && match step
       case EditStep(i, call) => CallAllowed(sys[i], call, kinds)
       case CommitStep(i, time, message, group) =>
         sys[i].pending != [] ==>
           forall j :: 0 <= j < |sys| ==> !Recorded(sys[j].changes, NewChange(sys[i], hashOf, time, message, group).hash)
       case ReceiveStep(i, changes) => forall c :: c in changes ==> Genuine(sys, c)
       case MergeStep(i, j) => j < |sys| && CausalStarts(sys[j].changes)
  }

  // ---- the system invariant ----

  ghost predicate DistinctActors(sys: System) {
    forall i, j :: 0 <= i < j < |sys| ==> sys[i].actor != sys[j].actor
  }

  /** Every recorded change is also recorded by the replica that made it. */
  ghost predicate MadeByOwner(sys: System, c: Change) {
    exists o :: 0 <= o < |sys| && sys[o].actor == c.actor && c in sys[o].changes
  }

  ghost predicate SystemOK(sys: System, kinds: Kinds, hashOf: HashFn) {
    && DistinctActors(sys)
    && (forall i :: 0 <= i < |sys| ==> DocOK(sys[i], kinds, hashOf))
    && (forall i, c :: 0 <= i < |sys| && c in sys[i].changes ==> MadeByOwner(sys, c))
    && (forall i, j :: 0 <= i < |sys| && 0 <= j < |sys| ==> NoCollision(sys[i].changes, sys[j].changes))
  }

  lemma OwnerOf(sys: System, c: Change) returns (o: nat, k: nat)
    requires MadeByOwner(sys, c)
    ensures o < |sys| && sys[o].actor == c.actor && k < |sys[o].changes| && sys[o].changes[k] == c
  {
    o :| 0 <= o < |sys| && sys[o].actor == c.actor && c in sys[o].changes;
    k :| 0 <= k < |sys[o].changes| && sys[o].changes[k] == c;
  }

  /** An operation known anywhere is known to the replica of its actor. */
  lemma OwnerKnows(sys: System, i: nat, o: nat, a: Op, kinds: Kinds, hashOf: HashFn)
    requires SystemOK(sys, kinds, hashOf) && i < |sys| && o < |sys|
    requires a in OpsOf(sys[i]) && a.id.actor == sys[o].actor
    ensures a in OpsOf(sys[o])
  {
    hide StateOK, Graph, ReadyInTurn, OwnChange, NoCollision;
    if a in sys[i].pending {
      var k :| 0 <= k < |sys[i].pending| && sys[i].pending[k] == a;
      assert PendingOK(sys[i], kinds);
      assert i == o;
    } else {
      var c :| c in sys[i].changes && a in c.ops;
      var m :| 0 <= m < |sys[i].changes| && sys[i].changes[m] == c;
      assert ChangesOK(sys[i], kinds, hashOf) && ChangeOK(c, hashOf);
      var k :| 0 <= k < |c.ops| && c.ops[k] == a;
      var o', m' := OwnerOf(sys, c);
      assert o' == o;
    }
  }

  // ---- one delivery ----

  lemma PastIsHere(sys: System, i: nat, o: nat, k: nat, kinds: Kinds, hashOf: HashFn)
    requires SystemOK(sys, kinds, hashOf) && i < |sys| && o < |sys| && k < |sys[o].changes|
    requires sys[o].changes[k].actor == sys[o].actor && DepsKnown(sys[i], sys[o].changes[k])
    ensures ReadyInTurn(sys[o].changes[k].ops, AllOps(sys[i].changes), kinds)
  {
    hide StateOK, PendingOK, Increasing, NoRepeats, Topological, HeadsExact, IndexExact, Recorded, IsHead, ChangeOK, ReadyInTurn;
    assert DocOK(sys[o], kinds, hashOf) && DocOK(sys[i], kinds, hashOf);
    var past, here := sys[o].changes[..k], sys[i].changes;
    var c := sys[o].changes[k];
    assert OwnChange(sys[o].changes, k, kinds);
    PrefixGraph(sys[o].changes, k);
    assert NoCollision(sys[o].changes, here);
    forall h | IsHead(past, h) ensures Recorded(here, h) {
      assert h in c.deps;
      IndexRecorded(here, sys[i].index, h);
    }
    HeadsNameThePast(past, here);
    ReadyOnMore(c.ops, AllOps(past), AllOps(here), kinds);
  }

  lemma IndexRecorded(changes: seq<Change>, index: map<Hash, Change>, h: Hash)
    requires IndexExact(changes, index) && h in index
    ensures Recorded(changes, h)
  {
  }

  lemma OpsOfChange(d: Doc, k: nat)
    requires k < |d.changes|
    ensures SetOf(d.changes[k].ops) <= OpsOf(d)
  {
    assert d.changes[k] in d.changes;
  }

  lemma FitsHere(sys: System, i: nat, o: nat, k: nat, kinds: Kinds, hashOf: HashFn)
    requires SystemOK(sys, kinds, hashOf) && i < |sys| && o < |sys| && k < |sys[o].changes|
    requires sys[o].changes[k].actor == sys[o].actor
    ensures Sound(OpsOf(sys[i]) + SetOf(sys[o].changes[k].ops), kinds)
    ensures InRange(sys[o].changes[k].ops)
  {
    hide Graph, ReadyInTurn, OwnChange, NoCollision, WellFormed, LastCounter, Represents;
    var c := sys[o].changes[k];
    assert DocOK(sys[o], kinds, hashOf) && DocOK(sys[i], kinds, hashOf);
    assert ChangeOK(c, hashOf);
    OpsOfChange(sys[o], k);
    hide OpsOf;
    var all := OpsOf(sys[i]) + SetOf(c.ops);
    forall a, b | a in all && b in all && a != b ensures Apart(a, b) {
      if a.id.actor == b.id.actor && (a in c.ops || b in c.ops) {
        assert a.id.actor == sys[o].actor;
        if a !in c.ops { OwnerKnows(sys, i, o, a, kinds, hashOf); }
        if b !in c.ops { OwnerKnows(sys, i, o, b, kinds, hashOf); }
      }
    }
  }

  /** Whatever has reached replica i so far, a committed change whose
      dependencies are there can be delivered. */
  lemma GenuineDeliverable(sys: System, i: nat, c: Change, kinds: Kinds, hashOf: HashFn)
    requires SystemOK(sys, kinds, hashOf) && i < |sys| && Genuine(sys, c)
    requires c.hash !in sys[i].index && DepsKnown(sys[i], c)
    ensures Deliverable(sys[i], c, kinds, hashOf)
  {
    hide StateOK, PendingOK, Sound, ReadyInTurn, OwnChange, NoCollision, ChangeOK, InRange, OpsOf, AllOps;
    var j :| 0 <= j < |sys| && c in sys[j].changes;
    var o, k := OwnerOf(sys, c);
    assert DocOK(sys[o], kinds, hashOf) && DocOK(sys[i], kinds, hashOf);
    assert c.hash in sys[o].index;
    assert i != o;
    PastIsHere(sys, i, o, k, kinds, hashOf);
    FitsHere(sys, i, o, k, kinds, hashOf);
  }

  /** The frame of a step at replica i that adds genuine changes only. */
  lemma ReplaceDoc(sys: System, i: nat, d: Doc, kinds: Kinds, hashOf: HashFn)
    requires SystemOK(sys, kinds, hashOf) && i < |sys|
    requires DocOK(d, kinds, hashOf) && d.actor == sys[i].actor
    requires forall c :: c in sys[i].changes ==> c in d.changes
    requires forall c :: c in d.changes ==> c in sys[i].changes || Genuine(sys, c)
    ensures SystemOK(sys[i := d], kinds, hashOf)
  {
    hide DocOK;
    var n := sys[i := d];
    forall c | Genuine(sys, c) ensures MadeByOwner(n, c) {
      var j :| 0 <= j < |sys| && c in sys[j].changes;
      var o, k := OwnerOf(sys, c);
      assert c in n[o].changes;
    }
    forall a, b | 0 <= a < |n| && 0 <= b < |n| ensures NoCollision(n[a].changes, n[b].changes) {
      forall c, e | c in n[a].changes && e in n[b].changes && c.hash == e.hash ensures c == e {
        GenuineCollide(sys, c, e, kinds, hashOf);
      }
    }
  }

  lemma GenuineCollide(sys: System, c: Change, e: Change, kinds: Kinds, hashOf: HashFn)
    requires SystemOK(sys, kinds, hashOf) && Genuine(sys, c) && Genuine(sys, e) && c.hash == e.hash
    ensures c == e
  {
    hide DocOK;
    var i :| 0 <= i < |sys| && c in sys[i].changes;
    var j :| 0 <= j < |sys| && e in sys[j].changes;
    assert NoCollision(sys[i].changes, sys[j].changes);
  }

  /** Receiving committed changes, in any order, never fails. */
  lemma {:induction false} ReceiveOK(sys: System, i: nat, changes: seq<Change>, kinds: Kinds, hashOf: HashFn)
    requires SystemOK(sys, kinds, hashOf) && i < |sys|
    requires forall c :: c in changes ==> Genuine(sys, c)
    ensures Receive(sys[i], changes).1
    ensures SystemOK(sys[i := Receive(sys[i], changes).0], kinds, hashOf)
    decreases |changes|
  {
    hide SystemOK, Genuine, DocOK, ApplyRemote, DepsKnown, Deliverable;
    if changes == [] {
      assert sys[i := sys[i]] == sys;
    } else {
      var c := changes[0];
      if c.hash !in sys[i].index && DepsKnown(sys[i], c) {
        var n := sys[i := ApplyRemote(sys[i], c).0];
        DeliverOK(sys, i, c, kinds, hashOf);
        forall e | e in changes ensures Genuine(n, e) {
          StillGenuine(sys, i, c, e);
        }
        ReceiveOK(n, i, changes[1..], kinds, hashOf);
        assert n[i := Receive(n[i], changes[1..]).0] == sys[i := Receive(n[i], changes[1..]).0];
      } else {
        ReceiveOK(sys, i, changes[1..], kinds, hashOf);
      }
    }
  }

  lemma StillGenuine(sys: System, i: nat, c: Change, e: Change)
    requires i < |sys| && Genuine(sys, e) && ApplyRemote(sys[i], c).1
    ensures Genuine(sys[i := ApplyRemote(sys[i], c).0], e)
  {
    var j :| 0 <= j < |sys| && e in sys[j].changes;
    assert e in sys[i := ApplyRemote(sys[i], c).0][j].changes;
  }

  lemma DeliverOK(sys: System, i: nat, c: Change, kinds: Kinds, hashOf: HashFn)
    requires SystemOK(sys, kinds, hashOf) && i < |sys| && Genuine(sys, c)
    requires c.hash !in sys[i].index && DepsKnown(sys[i], c)
    ensures ApplyRemote(sys[i], c).1
    ensures SystemOK(sys[i := ApplyRemote(sys[i], c).0], kinds, hashOf)
  {
    hide DocOK, Deliverable, ApplyOps, DepsKnown;
    GenuineDeliverable(sys, i, c, kinds, hashOf);
    RemoteOK(sys[i], c, kinds, hashOf);
    ReplaceDoc(sys, i, ApplyRemote(sys[i], c).0, kinds, hashOf);
  }
}
