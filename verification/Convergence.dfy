/** Strong eventual consistency over runs whose steps are judged one by one: new
    objects come from MakeMap, MakeList and MakeText (crdt/doc.go), whose fresh
    names never clash, so the replicas always agree on the kind of every object. */
module Convergence {
  import opened OpIds
  import opened Values
  import opened Ops
  import opened Objects
  import opened Histories
  import opened Representation
  import opened Application
  import opened Documents
  import opened CausalGraph
  import opened DocInvariant
  import opened LocalCalls
  import opened Recording
  import opened Replicas
  import opened Runs
  import opened Lamport

  // ---- names of new objects ----

  /** The root, or a name that some replica's counter has already passed. */
  ghost predicate Named(sys: System, obj: ObjID) {
    obj == ROOT || exists j, n :: 0 <= j < |sys| && 0 <= n <= sys[j].maxOp && obj == ChildName(sys[j].actor, n)
  }

  /** Every object value anywhere names such an object. */
  ghost predicate NamesOK(sys: System) {
    forall i, o :: 0 <= i < |sys| && o in OpsOf(sys[i]) && o.value.ObjectValue? ==> Named(sys, o.value.obj)
  }

  // ---- steps judged on the spot ----

  /** An object value names an object that is there, with its kind. */
  ghost predicate NamesPresent(d: Doc, value: Value) {
    value.ObjectValue? ==> value.obj in d.objects && d.objects[value.obj].Kind() == value.kind
  }

  ghost predicate CallPermitted(d: Doc, call: Call) {
    && d.maxOp + Width(call) < UINT64_LIMIT
    && match call
       case CallPut(_, _, value) => NamesPresent(d, value)
       case CallDelete(obj, prop) => TargetThere(d, obj, prop)
       case CallMake(obj, prop, kind) => NoOrphan(d, obj, ObjectValue(kind, ChildID(Advance(d, 1))))
       case CallInsert(_, _, value) => NamesPresent(d, value)
       case _ => true
  }

  /** A step as in Allowed, without any agreement on kinds. */
  ghost predicate Permitted(sys: System, step: Step, hashOf: HashFn) {
    && step.i < |sys|
    && match step
       case EditStep(i, call) => CallPermitted(sys[i], call)
       case CommitStep(i, time, message, group) =>
         sys[i].pending != [] ==>
           forall j :: 0 <= j < |sys| ==> !Recorded(sys[j].changes, NewChange(sys[i], hashOf, time, message, group).hash)
       case ReceiveStep(i, changes) => forall c :: c in changes ==> Genuine(sys, c)
       case MergeStep(i, j) => j < |sys| && CausalStarts(sys[j].changes)
  }

  ghost predicate PermittedRun(sys: System, steps: seq<Step>, hashOf: HashFn)
    decreases |steps|
  {
    steps != [] ==> Permitted(sys, steps[0], hashOf) && PermittedRun(Next(sys, steps[0], hashOf), steps[1..], hashOf)
  }

  /** The kind that a call gives to an object, if it names one. */
  ghost predicate CallAgrees(d: Doc, call: Call, kinds: Kinds) {
    match call
    case CallPut(_, _, value) => ValueAgrees(value, kinds)
    case CallMake(_, _, kind) => kinds(ChildID(Advance(d, 1))) == kind
    case CallInsert(_, _, value) => ValueAgrees(value, kinds)
    case _ => true
  }

  ghost predicate StepAgrees(sys: System, step: Step, kinds: Kinds) {
    step.EditStep? && step.i < |sys| ==> CallAgrees(sys[step.i], step.call, kinds)
  }

  lemma PermittedIsAllowed(sys: System, step: Step, kinds: Kinds, hashOf: HashFn)
    requires Permitted(sys, step, hashOf) && StepAgrees(sys, step, kinds)
    ensures Allowed(sys, step, kinds, hashOf)
  {
    hide Width, Recorded, Genuine, CausalStarts, TargetThere;
  }

  // ---- counters only rise ----

  lemma {:induction false} ApplyOpsRaises(objs: Objects, maxOp: nat, ops: seq<Op>)
    ensures ApplyOps(objs, maxOp, ops).1 >= maxOp
    decreases |ops|
  {
    hide ApplyOp;
    if ops != [] {
      var a := ApplyOp(objs, ops[0]);
      if a.patch.Some? { ApplyOpsRaises(a.objects, Max(maxOp, LastCounter(ops[0])), ops[1..]); }
    }
  }

  /** n is d with some of these changes applied. */
  ghost predicate Gained(d: Doc, n: Doc, changes: seq<Change>) {
    && n.actor == d.actor && n.maxOp >= d.maxOp && n.pending == d.pending
    && forall c :: c in n.changes ==> c in d.changes || c in changes
  }

  lemma RemoteGains(d: Doc, c: Change)
    ensures Gained(d, ApplyRemote(d, c).0, [c])
  {
    hide ApplyOps, MergeHeads;
    ApplyOpsRaises(d.objects, d.maxOp, c.ops);
  }

  lemma GainedOn(d: Doc, m: Doc, n: Doc, changes: seq<Change>)
    requires changes != [] && Gained(d, m, [changes[0]]) && Gained(m, n, changes[1..])
    ensures Gained(d, n, changes)
  {
  }

  lemma GainedRest(d: Doc, n: Doc, changes: seq<Change>)
    requires changes != [] && Gained(d, n, changes[1..])
    ensures Gained(d, n, changes)
  {
  }

  lemma {:induction false} ReceiveGains(d: Doc, changes: seq<Change>)
    ensures Gained(d, Receive(d, changes).0, changes)
    decreases |changes|
  {
    hide ApplyRemote, DepsKnown, Gained;
    if changes == [] {
      NothingGained(d, changes);
    } else if changes[0].hash in d.index || !DepsKnown(d, changes[0]) {
      ReceiveGains(d, changes[1..]);
      GainedRest(d, Receive(d, changes).0, changes);
    } else {
      var m := ApplyRemote(d, changes[0]).0;
      RemoteGains(d, changes[0]);
      ReceiveGains(m, changes[1..]);
      NothingGained(m, changes[1..]);
      GainedOn(d, m, Receive(d, changes).0, changes);
    }
  }

  lemma NothingGained(d: Doc, changes: seq<Change>)
    ensures Gained(d, d, changes)
  {
  }

  lemma {:induction false} MergeGains(d: Doc, changes: seq<Change>)
    ensures Gained(d, MergeSorted(d, changes).0, changes)
    decreases |changes|
  {
    hide ApplyRemote, Gained;
    if changes == [] {
      NothingGained(d, changes);
    } else if changes[0].hash in d.index {
      MergeGains(d, changes[1..]);
      GainedRest(d, MergeSorted(d, changes).0, changes);
    } else {
      var m := ApplyRemote(d, changes[0]).0;
      RemoteGains(d, changes[0]);
      MergeGains(m, changes[1..]);
      NothingGained(m, changes[1..]);
      GainedOn(d, m, MergeSorted(d, changes).0, changes);
    }
  }

  // ---- what a call journals ----

  /** The object values that a call may journal. */
  ghost predicate CallNames(d: Doc, call: Call, value: Value) {
    match call
    case CallPut(_, _, v) => value == v
    case CallMake(_, _, kind) => value == ObjectValue(kind, ChildID(Advance(d, 1)))
    case CallInsert(_, _, v) => value == v
    case _ => false
  }

  lemma CallGains(d: Doc, call: Call)
    ensures var n := DoCall(d, call);
            && n.actor == d.actor && n.maxOp >= d.maxOp && n.changes == d.changes
            && (call.CallMake? ==> n.maxOp > d.maxOp)
            && (forall o :: o in n.pending && o !in d.pending && o.value.ObjectValue? ==> CallNames(d, call, o.value))
  {
    hide ApplyOp, ChildName, Runes.Split, CompressRuns, Visible, Print, AfterText;
  }

  // ---- names stay those of past counters ----

  /** A step at replica i that only raises its counter and keeps the rest. */
  ghost predicate Raises(sys: System, n: System) {
    |n| == |sys| && forall j :: 0 <= j < |sys| ==> n[j].actor == sys[j].actor && n[j].maxOp >= sys[j].maxOp
  }

  lemma NamedOn(sys: System, n: System, obj: ObjID)
    requires Raises(sys, n) && Named(sys, obj)
    ensures Named(n, obj)
  {
    if obj != ROOT {
      var j, k :| 0 <= j < |sys| && 0 <= k <= sys[j].maxOp && obj == ChildName(sys[j].actor, k);
      assert obj == ChildName(n[j].actor, k);
    }
  }

  lemma NextRaises(sys: System, step: Step, hashOf: HashFn)
    ensures Raises(sys, Next(sys, step, hashOf))
  {
    hide DoCall, Receive, MergeSorted, SortChanges;
    if step.i < |sys| {
      match step
      case EditStep(i, call) => CallGains(sys[i], call);
      case CommitStep(i, _, _, _) =>
      case ReceiveStep(i, changes) => ReceiveGains(sys[i], changes);
      case MergeStep(i, j) =>
        if j < |sys| { MergeGains(sys[i], SortChanges(sys[j].changes)); }
    }
  }

  lemma RootNamed(sys: System)
    ensures Named(sys, ROOT)
  {
  }

  /** The objects of a document are named, and so is what a permitted call names. */
  lemma ObjectNamed(sys: System, i: nat, obj: ObjID, kinds: Kinds, hashOf: HashFn)
    requires SystemOK(sys, kinds, hashOf) && NamesOK(sys) && i < |sys| && obj in sys[i].objects
    ensures Named(sys, obj)
  {
    assert DocOK(sys[i], kinds, hashOf);
    hide Named, SystemOK, StateOK, Graph, ChangesOK, PendingOK, OpsOf;
    ObjectMade(sys[i], obj, kinds);
    if obj != ROOT {
      var o :| o in OpsOf(sys[i]) && o.value.ObjectValue? && o.value.obj == obj;
      assert Named(sys, o.value.obj);
    } else {
      RootNamed(sys);
    }
  }

  lemma GenuineNamed(sys: System, c: Change, o: Op)
    requires NamesOK(sys) && Genuine(sys, c) && o in c.ops && o.value.ObjectValue?
    ensures Named(sys, o.value.obj)
  {
    hide Named;
    var j :| 0 <= j < |sys| && c in sys[j].changes;
    assert o in AllOps(sys[j].changes);
    assert o in OpsOf(sys[j]);
  }

  lemma GainedNamed(sys: System, i: nat, n: Doc, changes: seq<Change>, o: Op)
    requires NamesOK(sys) && i < |sys| && Gained(sys[i], n, changes) && forall c :: c in changes ==> Genuine(sys, c)
    requires o in OpsOf(n) && o.value.ObjectValue?
    ensures Named(sys, o.value.obj)
  {
    hide Named, Genuine;
    if o in n.pending {
      assert o in OpsOf(sys[i]);
    } else {
      var c :| c in n.changes && o in c.ops;
      assert c in sys[i].changes ==> Genuine(sys, c) by { OwnIsGenuine(sys, i, c); }
      GenuineNamed(sys, c, o);
    }
  }

  lemma OwnIsGenuine(sys: System, i: nat, c: Change)
    requires i < |sys|
    ensures c in sys[i].changes ==> Genuine(sys, c)
  {
  }

  lemma SortedGenuine(sys: System, j: nat, c: Change)
    requires j < |sys| && c in SortChanges(sys[j].changes)
    ensures Genuine(sys, c)
  {
    assert c in multiset(SortChanges(sys[j].changes));
  }

  /** What the stepping replica holds afterwards is named before, or by the call. */
  lemma OpsNamed(sys: System, step: Step, hashOf: HashFn, o: Op)
    requires NamesOK(sys) && Permitted(sys, step, hashOf)
    requires o in OpsOf(Next(sys, step, hashOf)[step.i]) && o.value.ObjectValue?
    ensures Named(sys, o.value.obj) || (step.EditStep? && CallNames(sys[step.i], step.call, o.value))
  {
    hide Named, DoCall, Receive, MergeSorted, SortChanges, Commit, CallNames, Genuine, CausalStarts, Recorded, CallPermitted;
    match step
    case EditStep(i, call) =>
      CallGains(sys[i], call);
      if o in OpsOf(sys[i]) {} else { NewInJournal(sys[i], DoCall(sys[i], call), o); }
    case CommitStep(i, time, message, group) => CommitOps(sys[i], hashOf, time, message, group);
    case ReceiveStep(i, changes) =>
      ReceiveGains(sys[i], changes);
      GainedNamed(sys, i, Receive(sys[i], changes).0, changes, o);
    case MergeStep(i, j) =>
      var s := SortChanges(sys[j].changes);
      MergeGains(sys[i], s);
      forall c | c in s ensures Genuine(sys, c) { SortedGenuine(sys, j, c); }
      GainedNamed(sys, i, MergeSorted(sys[i], s).0, s, o);
  }

  lemma NewInJournal(d: Doc, n: Doc, o: Op)
    requires n.changes == d.changes && o in OpsOf(n) && o !in OpsOf(d)
    ensures o in n.pending && o !in d.pending
  {
  }

  lemma OtherDoc(sys: System, step: Step, hashOf: HashFn, i: nat)
    requires i < |sys| && step.i < |sys| && i != step.i
    ensures Next(sys, step, hashOf)[i] == sys[i]
  {
  }

  /** Every permitted step keeps the names in order. */
  lemma NamesKept(sys: System, step: Step, kinds: Kinds, hashOf: HashFn)
    requires SystemOK(sys, kinds, hashOf) && NamesOK(sys) && Permitted(sys, step, hashOf)
    ensures NamesOK(Next(sys, step, hashOf))
  {
    var n := Next(sys, step, hashOf);
    NextRaises(sys, step, hashOf);
    hide SystemOK, Named, Next, Permitted, Raises;
    forall i, o | 0 <= i < |n| && o in OpsOf(n[i]) && o.value.ObjectValue? ensures Named(n, o.value.obj) {
      if i != step.i {
        StepInRange(sys, step, hashOf);
        OtherDoc(sys, step, hashOf, i);
        NamedOn(sys, n, o.value.obj);
      } else {
        OpsNamed(sys, step, hashOf, o);
        if Named(sys, o.value.obj) {
          NamedOn(sys, n, o.value.obj);
        } else {
          CallNamed(sys, step, kinds, hashOf, o.value);
        }
      }
    }
  }

  lemma StepInRange(sys: System, step: Step, hashOf: HashFn)
    requires Permitted(sys, step, hashOf)
    ensures step.i < |sys|
  {
  }

  /** Whatever a permitted call names is named once the call is done. */
  lemma CallNamed(sys: System, step: Step, kinds: Kinds, hashOf: HashFn, value: Value)
    requires SystemOK(sys, kinds, hashOf) && NamesOK(sys) && Permitted(sys, step, hashOf)
    requires step.EditStep? && value.ObjectValue? && CallNames(sys[step.i], step.call, value)
    ensures Named(Next(sys, step, hashOf), value.obj)
  {
    hide SystemOK, NamesOK, DoCall, Width, ChildName;
    var i, call, n := step.i, step.call, Next(sys, step, hashOf);
    CallGains(sys[i], call);
    if call.CallMake? {
      assert n[i].actor == sys[i].actor && sys[i].maxOp + 1 <= n[i].maxOp;
      assert value.obj == ChildName(n[i].actor, sys[i].maxOp + 1);
    } else {
      NextRaises(sys, step, hashOf);
      ObjectNamed(sys, i, value.obj, kinds, hashOf);
      hide Named, Raises;
      NamedOn(sys, n, value.obj);
    }
  }

  // ---- kinds ----

  ghost predicate SameKinds(sys: System, k: Kinds, l: Kinds) {
    forall obj :: Named(sys, obj) ==> k(obj) == l(obj)
  }

  /** The invariant of a document asks for the kinds of the objects it names only. */
  lemma DocSameKinds(d: Doc, k: Kinds, l: Kinds, hashOf: HashFn)
    requires DocOK(d, k, hashOf) && k(ROOT) == l(ROOT)
    requires forall o :: o in OpsOf(d) && o.value.ObjectValue? ==> k(o.value.obj) == l(o.value.obj)
    ensures DocOK(d, l, hashOf)
  {
    forall obj | obj in d.objects ensures k(obj) == l(obj) { ObjectSameKind(d, obj, k, l); }
    forall o | o in OpsOf(d) ensures k(o.obj) == l(o.obj) { TargetPresent(d, o, k); }
    StateSameKinds(d, k, l);
    JournalSameKinds(d, k, l, hashOf);
  }

  lemma TargetPresent(d: Doc, o: Op, k: Kinds)
    requires StateOK(d, k) && o in OpsOf(d)
    ensures o.obj in d.objects
  {
    hide Sound, ObjectOf, OpsBelow, OpsOf;
  }

  lemma ObjectSameKind(d: Doc, obj: ObjID, k: Kinds, l: Kinds)
    requires StateOK(d, k) && obj in d.objects && k(ROOT) == l(ROOT)
    requires forall o :: o in OpsOf(d) && o.value.ObjectValue? ==> k(o.value.obj) == l(o.value.obj)
    ensures k(obj) == l(obj)
  {
    ObjectMade(d, obj, k);
    if obj != ROOT {
      var o :| o in OpsOf(d) && o.value.ObjectValue? && o.value.obj == obj;
    }
  }

  lemma StateSameKinds(d: Doc, k: Kinds, l: Kinds)
    requires StateOK(d, k)
    requires forall obj :: obj in d.objects ==> k(obj) == l(obj)
    requires forall o :: o in OpsOf(d) ==> k(o.obj) == l(o.obj) && (o.value.ObjectValue? ==> k(o.value.obj) == l(o.value.obj))
    ensures StateOK(d, l)
  {
    hide ObjectOf, OpsBelow, OpsOf, Apart, RefBelow;
    assert Represents(d.objects, OpsOf(d), l);
    forall o | o in OpsOf(d) ensures WellFormed(o, l) { assert WellFormed(o, k); }
  }

  lemma ReadySameKinds(ops: seq<Op>, base: set<Op>, k: Kinds, l: Kinds)
    requires ReadyInTurn(ops, base, k) && forall i :: 0 <= i < |ops| ==> k(ops[i].obj) == l(ops[i].obj)
    ensures ReadyInTurn(ops, base, l)
  {
    hide Made, Known, EventsOf, ParseRef;
    forall i | 0 <= i < |ops| ensures Ready(ops[i], base + SetOf(ops[..i]), l) {
      assert Ready(ops[i], base + SetOf(ops[..i]), k);
    }
  }

  lemma JournalSameKinds(d: Doc, k: Kinds, l: Kinds, hashOf: HashFn)
    requires DocOK(d, k, hashOf) && forall o :: o in OpsOf(d) ==> k(o.obj) == l(o.obj)
    ensures ChangesOK(d, l, hashOf) && PendingOK(d, l)
  {
    hide StateOK, Graph, ReadyInTurn, ChangeOK, Ascending, OpsBy, IsHead;
    forall m | 0 <= m < |d.changes| && d.changes[m].actor == d.actor ensures OwnChange(d.changes, m, l) {
      assert OwnChange(d.changes, m, k);
      forall i | 0 <= i < |d.changes[m].ops| ensures k(d.changes[m].ops[i].obj) == l(d.changes[m].ops[i].obj) {
        OpsOfChange(d, m);
        assert d.changes[m].ops[i] in SetOf(d.changes[m].ops);
      }
      ReadySameKinds(d.changes[m].ops, AllOps(d.changes[..m]), k, l);
    }
    forall i | 0 <= i < |d.pending| ensures k(d.pending[i].obj) == l(d.pending[i].obj) {
      assert d.pending[i] in OpsOf(d);
    }
    ReadySameKinds(d.pending, AllOps(d.changes), k, l);
  }

  lemma SystemSameKinds(sys: System, k: Kinds, l: Kinds, hashOf: HashFn)
    requires SystemOK(sys, k, hashOf) && NamesOK(sys) && SameKinds(sys, k, l)
    ensures SystemOK(sys, l, hashOf)
  {
    RootNamed(sys);
    hide DocOK, MadeByOwner, NoCollision, Named;
    forall i | 0 <= i < |sys| ensures DocOK(sys[i], l, hashOf) { DocSameKinds(sys[i], k, l, hashOf); }
  }

  /** A new child has a name that nothing has had before. */
  lemma ChildIsNew(sys: System, i: nat, kinds: Kinds, hashOf: HashFn)
    requires SystemOK(sys, kinds, hashOf) && i < |sys|
    ensures !Named(sys, ChildID(Advance(sys[i], 1)))
  {
    hide DocOK, MadeByOwner, NoCollision, ChildName;
    var child := ChildID(Advance(sys[i], 1));
    ChildNamesDiffer(sys[i].actor, sys[i].maxOp + 1, [], 0);
    forall j, n | 0 <= j < |sys| && 0 <= n <= sys[j].maxOp ensures child != ChildName(sys[j].actor, n) {
      ChildNamesDiffer(sys[i].actor, sys[i].maxOp + 1, sys[j].actor, n);
      assert sys[j].actor == sys[i].actor ==> j == i;
    }
  }

  /** The kinds before a step, with the kind of the child that the step makes. */
  lemma StepKinds(sys: System, step: Step, kinds: Kinds, hashOf: HashFn) returns (more: Kinds)
    requires SystemOK(sys, kinds, hashOf) && NamesOK(sys) && Permitted(sys, step, hashOf)
    ensures SameKinds(sys, kinds, more) && StepAgrees(sys, step, more)
    ensures SystemOK(sys, more, hashOf) && Allowed(sys, step, more, hashOf)
  {
    hide SystemOK, NamesOK, Named, Permitted, Allowed, ChildName;
    more := kinds;
    StepInRange(sys, step, hashOf);
    if step.EditStep? && step.call.CallMake? {
      var child, kind := ChildID(Advance(sys[step.i], 1)), step.call.kind;
      more := (x: ObjID) => if x == child then kind else kinds(x);
      ChildIsNew(sys, step.i, kinds, hashOf);
      SystemSameKinds(sys, kinds, more, hashOf);
    } else if step.EditStep? {
      PresentAgrees(sys, step, kinds, hashOf);
    }
    PermittedIsAllowed(sys, step, more, hashOf);
  }

  lemma PresentAgrees(sys: System, step: Step, kinds: Kinds, hashOf: HashFn)
    requires SystemOK(sys, kinds, hashOf) && Permitted(sys, step, hashOf) && step.EditStep? && !step.call.CallMake?
    ensures StepAgrees(sys, step, kinds)
  {
    hide MadeByOwner, NoCollision, Graph, ChangesOK, PendingOK, Sound, OpsBelow, ObjectOf, Width, TargetThere;
    assert DocOK(sys[step.i], kinds, hashOf);
  }

  /** Agreement on the kinds after a step is agreement on those before, and on
      those of the step. */
  lemma AgreementBack(sys: System, step: Step, k: Kinds, l: Kinds, hashOf: HashFn)
    requires SystemOK(sys, k, hashOf) && NamesOK(sys) && Permitted(sys, step, hashOf)
    requires StepAgrees(sys, step, k) && SameKinds(Next(sys, step, hashOf), k, l)
    ensures SameKinds(sys, k, l) && StepAgrees(sys, step, l)
  {
    var n := Next(sys, step, hashOf);
    NextRaises(sys, step, hashOf);
    hide SystemOK, NamesOK, Named, Next, Permitted, Raises, ChildName;
    forall obj | Named(sys, obj) ensures k(obj) == l(obj) { NamedOn(sys, n, obj); }
    if step.EditStep? && step.i < |sys| {
      match step.call
      case CallPut(_, _, value) =>
        if value.ObjectValue? { CallNamed(sys, step, k, hashOf, value); }
      case CallInsert(_, _, value) =>
        if value.ObjectValue? { CallNamed(sys, step, k, hashOf, value); }
      case CallMake(_, _, kind) =>
        CallNamed(sys, step, k, hashOf, ObjectValue(kind, ChildID(Advance(sys[step.i], 1))));
      case _ =>
    }
  }

  /** Every permitted run is an allowed run for some assignment of kinds. */
  lemma {:induction false} RunKinds(sys: System, steps: seq<Step>, kinds: Kinds, hashOf: HashFn) returns (more: Kinds)
    requires SystemOK(sys, kinds, hashOf) && NamesOK(sys) && PermittedRun(sys, steps, hashOf)
    ensures SameKinds(sys, kinds, more) && AllowedRun(sys, steps, more, hashOf)
    decreases |steps|
  {
    hide SystemOK, NamesOK, SameKinds, Permitted, Allowed, StepAgrees, Next;
    if steps == [] {
      more := kinds;
      SameKindsSelf(sys, kinds);
    } else {
      var n := Next(sys, steps[0], hashOf);
      var k := StepKinds(sys, steps[0], kinds, hashOf);
      StepOK(sys, steps[0], k, hashOf);
      NamesKept(sys, steps[0], k, hashOf);
      more := RunKinds(n, steps[1..], k, hashOf);
      AgreementBack(sys, steps[0], k, more, hashOf);
      PermittedIsAllowed(sys, steps[0], more, hashOf);
      SameKindsOn(sys, kinds, k, more);
    }
  }

  lemma SameKindsSelf(sys: System, k: Kinds)
    ensures SameKinds(sys, k, k)
  {
  }

  lemma SameKindsOn(sys: System, k: Kinds, l: Kinds, m: Kinds)
    requires SameKinds(sys, k, l) && SameKinds(sys, l, m)
    ensures SameKinds(sys, k, m)
  {
  }

  lemma StartNames(actors: seq<Str>)
    ensures NamesOK(Start(actors))
  {
    forall i | 0 <= i < |actors| ensures OpsOf(Start(actors)[i]) == {} {}
  }

  // ---- the theorems ----

  /** From empty replicas, every permitted run admits an assignment of kinds on
      which all its steps agree. */
  lemma KindsExist(actors: seq<Str>, steps: seq<Step>, hashOf: HashFn)
    requires Startable(actors) && PermittedRun(Start(actors), steps, hashOf)
    ensures exists kinds: Kinds :: kinds(ROOT) == MapKind && AllowedRun(Start(actors), steps, kinds, hashOf)
  {
    hide AllowedRun, PermittedRun, Startable, Start;
    var maps: Kinds := (x: ObjID) => MapKind;
    StartOK(actors, maps, hashOf);
    StartNames(actors);
    var more := RunKinds(Start(actors), steps, maps, hashOf);
    RootNamed(Start(actors));
  }

  /** Strong eventual consistency. In every run from empty replicas with distinct
      actors, whatever the order in which changes arrived: replicas that hold the
      same changes and have nothing pending hold the same objects, down to element
      order, tombstones and identities, and the same heads. */
  lemma StrongConvergence(actors: seq<Str>, steps: seq<Step>, i: nat, j: nat, hashOf: HashFn)
    requires Startable(actors) && PermittedRun(Start(actors), steps, hashOf)
    requires var sys := After(Start(actors), steps, hashOf);
             && i < |sys| && j < |sys| && SameChanges(sys[i], sys[j])
             && sys[i].pending == [] && sys[j].pending == []
    ensures var sys := After(Start(actors), steps, hashOf);
            sys[i].objects == sys[j].objects && sys[i].heads == sys[j].heads
  {
    hide AllowedRun, PermittedRun, Startable, Start, After, SameChanges;
    KindsExist(actors, steps, hashOf);
    var kinds: Kinds :| kinds(ROOT) == MapKind && AllowedRun(Start(actors), steps, kinds, hashOf);
    AgreedRunsConverge(actors, steps, i, j, kinds, hashOf);
  }

  // ---- runs whose merges are never refused ----

  /** A step of a replica that takes remote changes only while nothing is pending;
      of a merge nothing else is asked. */
  ghost predicate Quiet(sys: System, step: Step, hashOf: HashFn) {
    && step.i < |sys|
    && match step
       case ReceiveStep(i, changes) => sys[i].pending == [] && forall c :: c in changes ==> Genuine(sys, c)
       case MergeStep(i, j) => j < |sys| && sys[i].pending == []
       case _ => Permitted(sys, step, hashOf)
  }

  ghost predicate QuietRun(sys: System, steps: seq<Step>, hashOf: HashFn)
    decreases |steps|
  {
    steps != [] ==> Quiet(sys, steps[0], hashOf) && QuietRun(Next(sys, steps[0], hashOf), steps[1..], hashOf)
  }

  lemma QuietIsPermitted(sys: System, step: Step, kinds: Kinds, hashOf: HashFn)
    requires StartsOK(sys, kinds, hashOf) && Quiet(sys, step, hashOf)
    ensures Permitted(sys, step, hashOf)
  {
    hide StartsOK, CausalStarts, CallPermitted, Recorded, Genuine;
    if step.MergeStep? { StartsAreCausal(sys, step.j, kinds, hashOf); }
  }

  lemma QuietIsDisciplined(sys: System, step: Step, kinds: Kinds, hashOf: HashFn)
    requires Quiet(sys, step, hashOf) && Allowed(sys, step, kinds, hashOf)
    ensures Disciplined(sys, step, kinds, hashOf)
  {
    hide CausalStarts, CallPermitted, Recorded, Genuine, CallAllowed;
  }

  lemma StartsSystem(sys: System, kinds: Kinds, hashOf: HashFn)
    requires StartsOK(sys, kinds, hashOf)
    ensures SystemOK(sys, kinds, hashOf)
  {
  }

  lemma StartsSameKinds(sys: System, k: Kinds, l: Kinds, hashOf: HashFn)
    requires StartsOK(sys, k, hashOf) && SystemOK(sys, l, hashOf)
    ensures StartsOK(sys, l, hashOf)
  {
    hide SystemOK, StartsAbove;
  }

  lemma {:induction false} QuietRunOK(sys: System, steps: seq<Step>, kinds: Kinds, hashOf: HashFn) returns (last: Kinds)
    requires StartsOK(sys, kinds, hashOf) && NamesOK(sys) && QuietRun(sys, steps, hashOf)
    ensures PermittedRun(sys, steps, hashOf) && StartsOK(After(sys, steps, hashOf), last, hashOf)
    decreases |steps|
  {
    hide StartsOK, SystemOK, NamesOK, SameKinds, Permitted, Allowed, StepAgrees, Next, Quiet, Disciplined;
    last := kinds;
    if steps != [] {
      var step, n := steps[0], Next(sys, steps[0], hashOf);
      QuietIsPermitted(sys, step, kinds, hashOf);
      StartsSystem(sys, kinds, hashOf);
      var k := StepKinds(sys, step, kinds, hashOf);
      StartsSameKinds(sys, kinds, k, hashOf);
      QuietIsDisciplined(sys, step, k, hashOf);
      DisciplinedOK(sys, step, k, hashOf);
      NamesKept(sys, step, k, hashOf);
      last := QuietRunOK(n, steps[1..], k, hashOf);
    }
  }

  /** From empty replicas, if remote changes always arrive with nothing pending:
      every step is a permitted one, the starts of all changes rise along their
      dependencies, and any merge after the run is accepted. */
  lemma MergesAreCausal(actors: seq<Str>, steps: seq<Step>, hashOf: HashFn)
    requires Startable(actors) && QuietRun(Start(actors), steps, hashOf)
    ensures PermittedRun(Start(actors), steps, hashOf)
    ensures var sys := After(Start(actors), steps, hashOf);
            forall i, j :: 0 <= i < |sys| && 0 <= j < |sys| ==> CausalStarts(sys[j].changes) && Merge(sys[i], sys[j]).1
  {
    hide SystemOK, StartsAbove, CausalStarts, QuietRun, PermittedRun, After, Merge, Startable, NamesOK;
    var maps: Kinds := (x: ObjID) => MapKind;
    StartOK(actors, maps, hashOf);
    StartNames(actors);
    forall i | 0 <= i < |actors| ensures StartsAbove(Start(actors)[i]) { EmptyStarts(actors[i]); }
    var last := QuietRunOK(Start(actors), steps, maps, hashOf);
    var sys := After(Start(actors), steps, hashOf);
    forall i, j | 0 <= i < |sys| && 0 <= j < |sys| ensures CausalStarts(sys[j].changes) && Merge(sys[i], sys[j]).1 {
      StartsAreCausal(sys, j, last, hashOf);
      MergeSystem(sys, i, j, last, hashOf);
    }
  }
}
