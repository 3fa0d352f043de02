/** A run in which Merge is refused (crdt/doc.go): a remote change arrives while an
    operation is pending, the commit that depends on it starts before it, and the
    sort of Merge puts the commit first. */
module Refusal {
  import opened OpIds
  import opened Values
  import opened Ops
  import opened Objects
  import opened Documents
  import opened LocalCalls
  import opened Replicas
  import opened Runs
  import opened Convergence

  const ANN: Str := [97]
  const BOB: Str := [98]
  const EVE: Str := [99]
  const KEY: Str := [107]
  const MOMENT: Time := Time(0, 0)

  /** The map that Bob makes. */
  const CHILD: ObjID := ChildName(BOB, 1)

  const EARLY: Op := Op(OpID(1, ANN), Action.Put, ROOT, KEY, Int(1), [], [], [])
  const MAKE: Op := Op(OpID(2, BOB), Action.Put, ROOT, KEY, ObjectValue(MapKind, CHILD), [], [], [])
  const LATE: Op := Op(OpID(3, ANN), Action.Put, CHILD, KEY, Int(1), [], [], [])

  function Signed(c: Change, hashOf: HashFn): Change {
    c.(hash := hashOf(c))
  }

  /** Bob's change. */
  function Made(hashOf: HashFn): Change {
    Signed(Change([], BOB, 1, [], 2, MOMENT, [], DefaultGroup(BOB, 1), [MAKE]), hashOf)
  }

  /** Ann's change: its first operation is older than Bob's, its second writes into
      the map that Bob made. */
  function Mixed(hashOf: HashFn): Change {
    Signed(Change([], ANN, 1, [Made(hashOf).hash], 1, MOMENT, [], DefaultGroup(ANN, 1), [EARLY, LATE]), hashOf)
  }

  function Steps(hashOf: HashFn): seq<Step> {
    [EditStep(0, CallPut(ROOT, KEY, Int(1))), EditStep(1, CallMake(ROOT, KEY, MapKind)),
     CommitStep(1, MOMENT, [], []), ReceiveStep(0, [Made(hashOf)]),
     EditStep(0, CallPut(CHILD, KEY, Int(1))), CommitStep(0, MOMENT, [], [])]
  }

  // ---- Ann and Bob, step by step ----

  /** Ann after her first put. */
  function Ann1(): Doc { DoCall(NewDoc(ANN), CallPut(ROOT, KEY, Int(1))) }

  /** Ann after Bob's change. */
  function Ann2(hashOf: HashFn): Doc { Receive(Ann1(), [Made(hashOf)]).0 }

  /** Ann after her put into Bob's map. */
  function Ann3(hashOf: HashFn): Doc { DoCall(Ann2(hashOf), CallPut(CHILD, KEY, Int(1))) }

  /** Bob after MakeMap. */
  function Bob1(): Doc { DoCall(NewDoc(BOB), CallMake(ROOT, KEY, MapKind)) }

  lemma AnnPuts()
    ensures var d := Ann1();
            && d.actor == ANN && d.changes == [] && d.index == map[] && d.heads == [] && d.seqNo == 0 && d.maxOp == 1
            && d.pending == [EARLY] && d.objects == map[ROOT := MapObject(map[KEY := Entry(Int(1), OpID(1, ANN), false)])]
  {
  }

  lemma BobMakes(hashOf: HashFn)
    ensures var d := Bob1();
            && d.actor == BOB && d.pending == [MAKE] && d.changes == [] && d.maxOp == 2
            && NewChange(d, hashOf, MOMENT, [], []) == Made(hashOf)
  {
    hide ChildName, DefaultGroup;
  }

  lemma AnnReceives(hashOf: HashFn)
    ensures var d := Ann2(hashOf);
            && d.actor == ANN && d.changes == [Made(hashOf)] && d.heads == [Made(hashOf).hash] && d.seqNo == 0
            && d.maxOp == 2 && d.pending == [EARLY] && CHILD in d.objects && d.objects[CHILD] == MapObject(map[])
  {
    ChildNamesDiffer(BOB, 1, BOB, 1);
    AnnPuts();
    hide ChildName, DefaultGroup, Ann1;
    var objs, put := Ann1().objects, MAKE;
    assert put.id.Greater(OpID(1, ANN));
    var a := ApplyOp(objs, put);
    assert a.patch.Some? && CHILD in a.objects && a.objects[CHILD] == MapObject(map[]);
    assert LastCounter(put) == 2;
    hide ApplyOp;
    assert ApplyOps(objs, 1, [put]) == ApplyOps(a.objects, 2, []);
    assert MergeHeads([], Made(hashOf)) == [Made(hashOf).hash];
    var d := ApplyRemote(Ann1(), Made(hashOf)).0;
    assert Receive(Ann1(), [Made(hashOf)]) == Receive(d, []);
  }

  lemma AnnWrites(hashOf: HashFn)
    ensures var d := Ann3(hashOf);
            && d.pending == [EARLY, LATE] && d.changes == [Made(hashOf)]
            && NewChange(d, hashOf, MOMENT, [], []) == Mixed(hashOf)
  {
    AnnReceives(hashOf);
    hide ChildName, DefaultGroup, Ann2, Made;
    assert ApplyOp(Ann2(hashOf).objects, LATE).patch.Some?;
  }

  // ---- the run ----

  lemma RunStep(sys: System, step: Step, rest: seq<Step>, hashOf: HashFn)
    requires Permitted(sys, step, hashOf) && PermittedRun(Next(sys, step, hashOf), rest, hashOf)
    ensures PermittedRun(sys, [step] + rest, hashOf)
    ensures After(sys, [step] + rest, hashOf) == After(Next(sys, step, hashOf), rest, hashOf)
  {
    hide Permitted, Next;
    assert ([step] + rest)[1..] == rest;
  }

  function Three(ann: Doc, bob: Doc): System { [ann, bob, NewDoc(EVE)] }

  /** The last three steps: Ann has pending operations throughout. */
  lemma AnnRuns(bob: Doc, hashOf: HashFn)
    requires bob.changes == [Made(hashOf)] && Mixed(hashOf).hash != Made(hashOf).hash
    ensures PermittedRun(Three(Ann1(), bob), Steps(hashOf)[3..], hashOf)
    ensures After(Three(Ann1(), bob), Steps(hashOf)[3..], hashOf)
            == Three(Commit(Ann3(hashOf), hashOf, MOMENT, [], []), bob)
  {
    AnnPuts();
    AnnReceives(hashOf);
    AnnWrites(hashOf);
    hide ChildName, Ann1, Made, Mixed, Commit, NewChange;
    var s3, s4, s5 := Three(Ann1(), bob), Three(Ann2(hashOf), bob), Three(Ann3(hashOf), bob);
    var receive, write, commit := Steps(hashOf)[3], Steps(hashOf)[4], Steps(hashOf)[5];
    assert Genuine(s3, Made(hashOf)) by { assert Made(hashOf) in s3[1].changes; }
    assert Permitted(s3, receive, hashOf);
    assert Next(s3, receive, hashOf) == s4;
    assert Permitted(s4, write, hashOf);
    hide Ann2;
    assert Next(s4, write, hashOf) == s5;
    assert Permitted(s5, commit, hashOf);
    hide Ann3;
    assert Next(s5, commit, hashOf) == Three(Commit(Ann3(hashOf), hashOf, MOMENT, [], []), bob);
    hide Permitted, Next;
    RunStep(s5, commit, [], hashOf);
    RunStep(s4, write, [commit], hashOf);
    RunStep(s3, receive, [write] + [commit], hashOf);
    assert Steps(hashOf)[3..] == [receive] + ([write] + ([commit] + []));
  }

  lemma FirstStep(hashOf: HashFn)
    ensures var s0 := Start([ANN, BOB, EVE]);
            && Permitted(s0, Steps(hashOf)[0], hashOf) && Next(s0, Steps(hashOf)[0], hashOf) == Three(Ann1(), NewDoc(BOB))
  {
    AnnPuts();
    hide ChildName, Made, PutKey;
    assert Start([ANN, BOB, EVE]) == Three(NewDoc(ANN), NewDoc(BOB));
    assert Next(Three(NewDoc(ANN), NewDoc(BOB)), Steps(hashOf)[0], hashOf) == Three(Ann1(), NewDoc(BOB));
  }

  lemma SecondStep(hashOf: HashFn)
    ensures var s1 := Three(Ann1(), NewDoc(BOB));
            && Permitted(s1, Steps(hashOf)[1], hashOf) && Next(s1, Steps(hashOf)[1], hashOf) == Three(Ann1(), Bob1())
  {
    hide ChildName, Made, MakeChild, Ann1;
    assert Next(Three(Ann1(), NewDoc(BOB)), Steps(hashOf)[1], hashOf) == Three(Ann1(), Bob1());
  }

  lemma ThirdStep(hashOf: HashFn)
    ensures var s2, bob := Three(Ann1(), Bob1()), Commit(Bob1(), hashOf, MOMENT, [], []);
            && Permitted(s2, Steps(hashOf)[2], hashOf) && Next(s2, Steps(hashOf)[2], hashOf) == Three(Ann1(), bob)
            && bob.changes == [Made(hashOf)]
  {
    AnnPuts();
    BobMakes(hashOf);
    hide ChildName, Made, NewChange, Ann1, Bob1;
    var bob := Commit(Bob1(), hashOf, MOMENT, [], []);
    assert Next(Three(Ann1(), Bob1()), Steps(hashOf)[2], hashOf) == Three(Ann1(), bob);
  }

  /** The whole run. */
  lemma AllRun(hashOf: HashFn)
    requires Mixed(hashOf).hash != Made(hashOf).hash
    ensures PermittedRun(Start([ANN, BOB, EVE]), Steps(hashOf), hashOf)
    ensures var sys := After(Start([ANN, BOB, EVE]), Steps(hashOf), hashOf);
            |sys| == 3 && sys[0].changes == [Made(hashOf), Mixed(hashOf)] && sys[0].pending == [] && sys[2] == NewDoc(EVE)
  {
    FirstStep(hashOf);
    SecondStep(hashOf);
    ThirdStep(hashOf);
    AnnWrites(hashOf);
    hide ChildName, Ann1, Ann3, Bob1, Made, Mixed, NewChange, Permitted, Next, Start;
    var bob := Commit(Bob1(), hashOf, MOMENT, [], []);
    AnnRuns(bob, hashOf);
    assert Commit(Ann3(hashOf), hashOf, MOMENT, [], []).changes == [Made(hashOf), Mixed(hashOf)];
    hide Commit;
    var rest := Steps(hashOf)[3..];
    var put, make, commit := Steps(hashOf)[0], Steps(hashOf)[1], Steps(hashOf)[2];
    RunStep(Three(Ann1(), Bob1()), commit, rest, hashOf);
    RunStep(Three(Ann1(), NewDoc(BOB)), make, [commit] + rest, hashOf);
    RunStep(Start([ANN, BOB, EVE]), put, [make] + ([commit] + rest), hashOf);
    assert Steps(hashOf) == [put] + ([make] + ([commit] + rest));
  }

  lemma SortTwo(a: Change, b: Change)
    requires StartsBefore(b, a) && !StartsBefore(a, b)
    ensures SortChanges([a, b]) == [b, a]
  {
    hide StartsBefore;
    assert [a, b][1..] == [b] && SortChanges([]) == [];
    assert SortChanges([b]) == InsertChange(b, []);
    assert SortChanges([a, b]) == InsertChange(a, [b]);
    assert InsertChange(a, [b][1..]) == [a];
  }

  /** What Eve's merge from Ann makes of it. */
  lemma MergeStops(hashOf: HashFn, ann: Doc)
    requires ann.changes == [Made(hashOf), Mixed(hashOf)]
    ensures var (n, ok) := Merge(NewDoc(EVE), ann);
            !ok && n.changes == [] && n.objects == map[ROOT := MapObject(map[KEY := Entry(Int(1), OpID(1, ANN), false)])]
  {
    ChildNamesDiffer(BOB, 1, BOB, 1);
    var made, mixed, d := Made(hashOf), Mixed(hashOf), NewDoc(EVE);
    hide ChildName, DefaultGroup;
    SortTwo(made, mixed);
    hide SortChanges;
    var one := ApplyOp(d.objects, EARLY);
    assert one.patch.Some? && one.objects == map[ROOT := MapObject(map[KEY := Entry(Int(1), OpID(1, ANN), false)])];
    assert ApplyOp(one.objects, LATE) == Applied(one.objects, None);
    hide ApplyOp;
    assert ApplyOps(one.objects, 1, [LATE]).0 == one.objects && !ApplyOps(one.objects, 1, [LATE]).2;
    assert LastCounter(EARLY) == 1;
    assert [EARLY, LATE][1..] == [LATE];
    assert ApplyOps(d.objects, 0, [EARLY, LATE]) == ApplyOps(one.objects, 1, [LATE]);
  }

  /** The same two changes received in dependency order are all accepted. */
  lemma ReceiveAccepts(hashOf: HashFn)
    requires Mixed(hashOf).hash != Made(hashOf).hash
    ensures var (n, ok) := Receive(NewDoc(EVE), [Made(hashOf), Mixed(hashOf)]);
            ok && n.changes == [Made(hashOf), Mixed(hashOf)]
  {
    ChildNamesDiffer(BOB, 1, BOB, 1);
    var made, mixed, d := Made(hashOf), Mixed(hashOf), NewDoc(EVE);
    hide ChildName, DefaultGroup, MergeHeads;
    var one := ApplyOp(d.objects, MAKE).objects;
    assert ApplyOp(d.objects, MAKE).patch.Some? && one[CHILD] == MapObject(map[]);
    var two := ApplyOp(one, EARLY).objects;
    assert ApplyOp(one, EARLY).patch.Some? && two[CHILD] == MapObject(map[]);
    assert ApplyOp(two, LATE).patch.Some?;
    assert LastCounter(MAKE) == 2 && LastCounter(EARLY) == 1 && LastCounter(LATE) == 3;
    hide ApplyOp;
    assert ApplyOps(d.objects, 0, [MAKE]) == ApplyOps(one, 2, []) == (one, 2, true);
    assert ApplyOps(two, 2, [LATE]).2;
    assert [EARLY, LATE][1..] == [LATE];
    assert ApplyOps(one, 2, [EARLY, LATE]) == ApplyOps(two, 2, [LATE]);
    var n := ApplyRemote(d, made).0;
    assert n.objects == one && n.maxOp == 2 && n.changes == [made] && made.hash in n.index && n.index.Keys == {made.hash};
    hide ApplyOps;
    assert ApplyRemote(n, mixed).1;
    assert [made, mixed][1..] == [mixed];
    assert Receive(n, [mixed]) == Receive(ApplyRemote(n, mixed).0, []);
  }

  /** A run of permitted steps after which a merge is refused and leaves a write
      behind that no recorded change explains, although the same changes are
      accepted when they are received in dependency order. */
  lemma MergeRefused(hashOf: HashFn)
    requires Mixed(hashOf).hash != Made(hashOf).hash
    ensures PermittedRun(Start([ANN, BOB, EVE]), Steps(hashOf), hashOf)
    ensures var sys := After(Start([ANN, BOB, EVE]), Steps(hashOf), hashOf);
            var merged, received := Merge(sys[2], sys[0]), Receive(sys[2], sys[0].changes);
            && !CausalStarts(sys[0].changes)
            && !merged.1 && merged.0.changes == [] && merged.0.objects != sys[2].objects
            && received.1 && received.0.changes == sys[0].changes
  {
    AllRun(hashOf);
    var sys := After(Start([ANN, BOB, EVE]), Steps(hashOf), hashOf);
    MergeStops(hashOf, sys[0]);
    ReceiveAccepts(hashOf);
    var made, mixed := Made(hashOf), Mixed(hashOf);
    assert made in sys[0].changes && mixed in sys[0].changes && made.hash in mixed.deps;
    assert ROOT in NewDoc(EVE).objects && KEY !in NewDoc(EVE).objects[ROOT].entries;
    hide PermittedRun, After, Merge, Receive, Steps;
  }
}
