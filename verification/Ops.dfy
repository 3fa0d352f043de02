/** Operations, runs and changes (crdt/change.go). */
module Ops {
  import opened OpIds
  import opened Values
  import Runes

  datatype Action = Put | Delete | Revive | Increment | Insert | Splice | Unknown(name: Str)

  /** OpIDRun: consecutive identities of one actor. */
  datatype Run = Run(actor: Str, start: nat, count: nat)

  datatype Op = Op(id: OpID, action: Action, obj: ObjID, prop: Str, value: Value,
                   after: Str, run: Str, deleteRuns: seq<Run>)

  /** The last counter an operation occupies; a splice takes one per rune. */
  function LastCounter(op: Op): (n: nat)
    ensures n >= op.id.counter
  {
    var width := if op.action.Splice? then |Runes.Split(op.run)| else 1;
    if width > 1 then op.id.counter + width - 1 else op.id.counter
  }

  type Hash = Str

  datatype Change = Change(hash: Hash, actor: Str, seqNo: nat, deps: seq<Hash>, startOp: nat,
                           time: Time, message: Str, group: Str, ops: seq<Op>)

  // ---- runs of identities ----

  /** The loop body of compressOpIDRuns. */
  function AddToRuns(runs: seq<Run>, id: OpID): seq<Run> {
    if runs != [] && runs[|runs| - 1].actor == id.actor
       && runs[|runs| - 1].start + runs[|runs| - 1].count == id.counter then
      runs[|runs| - 1 := runs[|runs| - 1].(count := runs[|runs| - 1].count + 1)]
    else
      runs + [Run(id.actor, id.counter, 1)]
  }

  function CompressRuns(ids: seq<OpID>): seq<Run> {
    if ids == [] then [] else AddToRuns(CompressRuns(ids[..|ids| - 1]), ids[|ids| - 1])
  }

  function ExpandRun(run: Run): (ids: seq<OpID>)
    ensures |ids| == run.count
    ensures forall i :: 0 <= i < |ids| ==> ids[i] == OpID(run.start + i, run.actor)
    decreases run.count
  {
    if run.count == 0 then []
    else ExpandRun(run.(count := run.count - 1)) + [OpID(run.start + run.count - 1, run.actor)]
  }

  function ExpandRuns(runs: seq<Run>): seq<OpID> {
    if runs == [] then [] else ExpandRuns(runs[..|runs| - 1]) + ExpandRun(runs[|runs| - 1])
  }

  lemma AddToRunsExpands(runs: seq<Run>, id: OpID)
    ensures ExpandRuns(AddToRuns(runs, id)) == ExpandRuns(runs) + [id]
  {
    var out := AddToRuns(runs, id);
    if |out| == |runs| {
      assert out[..|out| - 1] == runs[..|runs| - 1];
    } else {
      assert out[..|out| - 1] == runs;
      assert ExpandRun(Run(id.actor, id.counter, 1)) == [id];
    }
  }

  lemma CompressStep(ids: seq<OpID>, i: nat)
    requires i < |ids|
    ensures CompressRuns(ids[..i + 1]) == AddToRuns(CompressRuns(ids[..i]), ids[i])
  {
    assert ids[..i + 1][..i] == ids[..i];
  }

  lemma {:induction false} CompressExpandPrefix(ids: seq<OpID>, i: nat)
    requires i <= |ids|
    ensures ExpandRuns(CompressRuns(ids[..i])) == ids[..i]
    decreases i
  {
    hide ExpandRuns, AddToRuns, CompressRuns;
    if i == 0 {
      CompressNone(ids[..0]);
    } else {
      CompressExpandPrefix(ids, i - 1);
      CompressStep(ids, i - 1);
      AddToRunsExpands(CompressRuns(ids[..i - 1]), ids[i - 1]);
      assert ids[..i] == ids[..i - 1] + [ids[i - 1]];
    }
  }

  /** Expanding the compressed form gives the list back. */
  lemma CompressExpand(ids: seq<OpID>)
    ensures ExpandRuns(CompressRuns(ids)) == ids
  {
    CompressExpandPrefix(ids, |ids|);
    assert ids[..|ids|] == ids;
  }

  /** No two neighbouring runs could be joined. */
  ghost predicate Maximal(runs: seq<Run>) {
    && (forall i :: 0 <= i < |runs| ==> runs[i].count > 0)
    && forall i :: 0 < i < |runs| ==>
         runs[i - 1].actor != runs[i].actor || runs[i - 1].start + runs[i - 1].count != runs[i].start
  }

  lemma AddToRunsMaximal(runs: seq<Run>, id: OpID)
    requires Maximal(runs)
    ensures Maximal(AddToRuns(runs, id))
  {
  }

  /** compressOpIDRuns. */
  method CompressOpIDRuns(ids: seq<OpID>) returns (runs: seq<Run>)
    ensures runs == CompressRuns(ids)
    ensures ExpandRuns(runs) == ids && Maximal(runs)
  {
    hide CompressRuns, ExpandRuns;
    runs := [];
    assert CompressRuns(ids[..0]) == [] by { CompressNone(ids[..0]); }
    for i := 0 to |ids|
      invariant runs == CompressRuns(ids[..i])
      invariant Maximal(runs)
    {
      hide Maximal;
      CompressStep(ids, i);
      AddToRunsMaximal(runs, ids[i]);
      var id := ids[i];
      if |runs| > 0 {
        var last := runs[|runs| - 1];
        if last.actor == id.actor && last.start + last.count == id.counter {
          runs := runs[|runs| - 1 := last.(count := last.count + 1)];
          continue;
        }
      }
      runs := runs + [Run(id.actor, id.counter, 1)];
    }
    assert ids[..|ids|] == ids;
    CompressExpand(ids);
  }

  lemma CompressNone(ids: seq<OpID>)
    requires ids == []
    ensures CompressRuns(ids) == [] && ExpandRuns([]) == []
  {
  }

  /** expandOpIDRuns. */
  method ExpandOpIDRuns(runs: seq<Run>) returns (ids: seq<OpID>)
    ensures ids == ExpandRuns(runs)
  {
    ids := [];
    for k := 0 to |runs|
      invariant ids == ExpandRuns(runs[..k])
    {
      var run := runs[k];
      for i := 0 to run.count
        invariant ids == ExpandRuns(runs[..k]) + ExpandRun(run.(count := i))
      {
        ids := ids + [OpID(run.start + i, run.actor)];
      }
      assert runs[..k + 1][..k] == runs[..k];
    }
    assert runs[..|runs|] == runs;
  }
}
