/** What every reachable document satisfies, and that every local call and every
    causally delivered change keeps it. */
module DocInvariant {
  import opened OpIds
  import opened Values
  import opened Ops
  import opened Objects
  import opened Histories
  import opened Representation
  import opened Application
  import opened Documents
  import opened CausalGraph

  function AllOps(changes: seq<Change>): set<Op> {
    set c, o | c in changes && o in c.ops :: o
  }

  lemma AllOpsMore(changes: seq<Change>, c: Change)
    ensures AllOps(changes + [c]) == AllOps(changes) + SetOf(c.ops)
  {
    assert forall x :: x in changes + [c] <==> x in changes || x == c;
  }

  /** Every operation a document has applied. */
  function OpsOf(d: Doc): set<Op> {
    AllOps(d.changes) + SetOf(d.pending)
  }

  /** Each operation is ready given the base and the operations before it. */
  ghost predicate ReadyInTurn(ops: seq<Op>, base: set<Op>, kinds: Kinds) {
    forall i :: 0 <= i < |ops| ==> Ready(ops[i], base + SetOf(ops[..i]), kinds)
  }

  ghost predicate Ascending(ops: seq<Op>) {
    forall i, j :: 0 <= i < j < |ops| ==> ops[i].id.counter < ops[j].id.counter
  }

  ghost predicate OpsBelow(ops: set<Op>, maxOp: nat) {
    forall o :: o in ops ==> LastCounter(o) <= maxOp
  }

  ghost predicate OpsBy(ops: seq<Op>, actor: Str) {
    forall i :: 0 <= i < |ops| ==> ops[i].id.actor == actor
  }

  /** What commit guarantees of a change, whoever recorded it. */
  ghost predicate ChangeOK(c: Change, hashOf: HashFn) {
    && c.ops != [] && c.startOp == c.ops[0].id.counter
    && OpsBy(c.ops, c.actor) && Ascending(c.ops)
    && c.hash == hashOf(c.(hash := []))
  }

  /** A document's own change names the heads it was made on, and its operations
      were ready there. */
  ghost predicate OwnChange(changes: seq<Change>, k: nat, kinds: Kinds)
    requires k < |changes|
  {
    && (forall h :: h in changes[k].deps <==> IsHead(changes[..k], h))
    && ReadyInTurn(changes[k].ops, AllOps(changes[..k]), kinds)
  }

  ghost predicate ChangesOK(d: Doc, kinds: Kinds, hashOf: HashFn) {
    && (forall k :: 0 <= k < |d.changes| ==> ChangeOK(d.changes[k], hashOf))
    && (forall k :: 0 <= k < |d.changes| && d.changes[k].actor == d.actor ==> OwnChange(d.changes, k, kinds))
  }

  ghost predicate PendingOK(d: Doc, kinds: Kinds) {
    && OpsBy(d.pending, d.actor) && Ascending(d.pending)
    && ReadyInTurn(d.pending, AllOps(d.changes), kinds)
  }

  ghost predicate StateOK(d: Doc, kinds: Kinds) {
    && d.actor != [] && d.maxOp < UINT64_LIMIT
    && Represents(d.objects, OpsOf(d), kinds)
    && Sound(OpsOf(d), kinds)
    && OpsBelow(OpsOf(d), d.maxOp)
  }

  ghost predicate DocOK(d: Doc, kinds: Kinds, hashOf: HashFn) {
    && StateOK(d, kinds)
    && Graph(d)
    && ChangesOK(d, kinds, hashOf)
    && PendingOK(d, kinds)
  }

  lemma NewDocOK(actor: Str, kinds: Kinds, hashOf: HashFn)
    requires actor != [] && kinds(ROOT) == MapKind
    ensures DocOK(NewDoc(actor), kinds, hashOf)
  {
    var d := NewDoc(actor);
    assert OpsOf(d) == {};
    assert Writes({}, ROOT) == {};
    assert MapOf(map[], {});
  }

  // ---- local operations ----

  /** A new operation above every known counter is apart from all of them. */
  lemma SoundMore(ops: set<Op>, op: Op, maxOp: nat, kinds: Kinds)
    requires Sound(ops, kinds) && OpsBelow(ops, maxOp) && WellFormed(op, kinds)
    requires op.id.counter > maxOp
    ensures Sound(ops + {op}, kinds)
  {
    hide WellFormed, LastCounter;
  }

  lemma PendingMore(d: Doc, op: Op, kinds: Kinds)
    requires PendingOK(d, kinds) && OpsBelow(OpsOf(d), d.maxOp)
    requires op.id.actor == d.actor && op.id.counter > d.maxOp && Ready(op, OpsOf(d), kinds)
    ensures PendingOK(d.(pending := d.pending + [op]), kinds)
  {
    hide Ready;
    var all := d.pending + [op];
    forall i | 0 <= i < |all| ensures Ready(all[i], AllOps(d.changes) + SetOf(all[..i]), kinds) {
      if i < |d.pending| { assert all[..i] == d.pending[..i]; } else { assert all[..i] == d.pending; }
    }
    forall i | 0 <= i < |d.pending| ensures d.pending[i].id.counter < op.id.counter {
      assert d.pending[i] in OpsOf(d);
    }
  }

  lemma AppliedMore(d: Doc, op: Op)
    ensures OpsOf(d.(pending := d.pending + [op])) == OpsOf(d) + {op}
  {
    assert SetOf(d.pending + [op]) == SetOf(d.pending) + {op};
  }

  /** The counters an allocation may use: above every known one, in range. */
  ghost predicate Allocates(d: Doc, maxOp: nat, op: Op) {
    && op.id.actor == d.actor && d.maxOp < op.id.counter
    && LastCounter(op) <= maxOp < UINT64_LIMIT
  }

  /** Journaling a ready operation of one's own keeps the invariant. */
  lemma JournalOK(d: Doc, maxOp: nat, op: Op, kinds: Kinds, hashOf: HashFn)
    requires DocOK(d, kinds, hashOf) && Allocates(d, maxOp, op)
    requires WellFormed(op, kinds) && Ready(op, OpsOf(d), kinds)
    ensures var r := Journal(d.(maxOp := maxOp), op);
            r.1 && DocOK(r.0, kinds, hashOf)
  {
    hide Represents, Sound, WellFormed, Ready, ApplyOp, Graph, PendingOK, LastCounter, ReadyInTurn, OwnChange, ChangeOK;
    var r := Journal(d.(maxOp := maxOp), op);
    SoundMore(OpsOf(d), op, d.maxOp, kinds);
    ApplyRepresents(d.objects, OpsOf(d), op, kinds);
    AppliedMore(d, op);
    PendingMore(d, op, kinds);
    assert OpsOf(r.0) == OpsOf(d) + {op};
    SamePending(d.(pending := d.pending + [op]), r.0, kinds);
    SameGraph(d, r.0);
  }

  lemma SamePending(d: Doc, e: Doc, kinds: Kinds)
    requires PendingOK(d, kinds) && d.pending == e.pending && d.actor == e.actor && d.changes == e.changes
    ensures PendingOK(e, kinds)
  {
  }

  lemma SameGraph(d: Doc, e: Doc)
    requires Graph(d) && d.changes == e.changes && d.heads == e.heads && d.index == e.index
    ensures Graph(e)
  {
  }

  /** A refused call only uses up counters. */
  lemma AdvanceOK(d: Doc, n: nat, kinds: Kinds, hashOf: HashFn)
    requires DocOK(d, kinds, hashOf) && d.maxOp + n < UINT64_LIMIT
    ensures DocOK(Advance(d, n), kinds, hashOf)
  {
    hide Represents, Sound, ReadyInTurn, OwnChange, ChangeOK, LastCounter;
    SameGraph(d, Advance(d, n));
    assert OpsOf(Advance(d, n)) == OpsOf(d);
  }
}
