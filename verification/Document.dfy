/** The document of crdt/doc.go as an object: every method updates the fields in
    place and does to the document what the pure functions of Documents say. */
module Document {
  import opened OpIds
  import opened Values
  import opened Rga
  import opened Ops
  import O = Objects
  import D = Documents
  import CausalGraph
  import opened Sorting
  import Runes

  type Object = O.Object
  type Entry = O.Entry
  type Patch = O.Patch

  class Document {
    const actor: Str
    var objects: map<ObjID, Object>
    var changes: seq<Change>
    var changeIndex: map<Hash, Change>
    var deps: seq<Hash>
    var seqNo: nat
    var maxOp: nat
    var pending: seq<Op>
    var pendingPatches: seq<Patch>

    constructor (actor: Str)
      ensures State() == D.NewDoc(actor)
    {
      this.actor := actor;
      objects, changes, changeIndex, deps := map[O.ROOT := O.MapObject(map[])], [], map[], [];
      seqNo, maxOp, pending, pendingPatches := 0, 0, [], [];
    }

    ghost function State(): D.Doc
      reads this
    {
      D.Doc(actor, objects, changes, changeIndex, deps, seqNo, maxOp, pending, pendingPatches)
    }

    // ---- applying one operation ----

    /** ensureObjectForValueLocked. */
    method EnsureObject(value: Value)
      modifies this`objects
      ensures objects == O.EnsureObject(old(objects), value)
    {
      if !value.ObjectValue? || value.obj in objects {
        return;
      }
      match value.kind
      case MapKind => objects := objects[value.obj := O.MapObject(map[])];
      case ListKind => objects := objects[value.obj := O.SeqObject(false, [])];
      case TextKind => objects := objects[value.obj := O.SeqObject(true, [])];
    }

    /** A write to a map entry; the newer identity wins. */
    method StoreEntry(obj: ObjID, key: Str, entry: Entry)
      requires obj in objects && objects[obj].MapObject?
      modifies this`objects
      ensures objects == old(objects)[obj := O.MapObject(O.WriteEntry(old(objects[obj].entries), key, entry))]
    {
      var entries := objects[obj].entries;
      if key !in entries || entries[key].id.actor == [] || entry.id.Greater(entries[key].id) {
        objects := objects[obj := O.MapObject(entries[key := entry])];
      } else {
        assert objects == objects[obj := O.MapObject(entries)];
      }
    }

    method ApplyPut(op: Op) returns (patch: Option<Patch>)
      requires op.obj in objects
      modifies this`objects
      ensures O.Applied(objects, patch) == O.ApplyPut(old(objects), op)
    {
      if objects[op.obj].SeqObject? {
        return None;
      }
      StoreEntry(op.obj, op.prop, O.Entry(op.value, op.id, false));
      patch := Some(O.Patch(op.obj, op.prop, Action.Put, op.value));
    }

    method ApplyDelete(op: Op) returns (patch: Option<Patch>)
      requires op.obj in objects
      modifies this`objects
      ensures O.Applied(objects, patch) == O.ApplyDelete(old(objects), op)
    {
      hide ParseRef, O.SetVisibility;
      patch := Some(O.Patch(op.obj, op.prop, Action.Delete, NoValue));
      match objects[op.obj]
      case MapObject(_) => StoreEntry(op.obj, op.prop, O.Entry(NoValue, op.id, true));
      case SeqObject(isText, elems) =>
        var target := ParseRef(op.prop);
        if target.Ref? {
          objects := objects[op.obj := O.SeqObject(isText, O.SetVisibility(elems, target.id, true, op.id))];
        }
    }

    method ApplyRevive(op: Op) returns (patch: Option<Patch>)
      requires op.obj in objects
      modifies this`objects
      ensures O.Applied(objects, patch) == O.ApplyRevive(old(objects), op)
    {
      hide ParseRef, O.SetVisibility;
      if objects[op.obj].MapObject? {
        return None;
      }
      var target := ParseRef(op.prop);
      if !target.Ref? {
        return None;
      }
      var elems := objects[op.obj].elems;
      if !Contains(elems, target.id) {
        return None;
      }
      var next := O.SetVisibility(elems, target.id, false, op.id);
      objects := objects[op.obj := O.SeqObject(objects[op.obj].isText, next)];
      patch := Some(O.Patch(op.obj, op.prop, Action.Revive, next[IndexOf(elems, target.id)].value));
    }

    method ApplyIncrement(op: Op) returns (patch: Option<Patch>)
      requires op.obj in objects
      modifies this`objects
      ensures O.Applied(objects, patch) == O.ApplyIncrement(old(objects), op)
    {
      if objects[op.obj].SeqObject? {
        return None;
      }
      var entries := objects[op.obj].entries;
      var current := if op.prop in entries then entries[op.prop].value else NoValue;
      var next := O.Incremented(current, op.value);
      objects := objects[op.obj := O.MapObject(entries[op.prop := O.Entry(next, op.id, false)])];
      patch := Some(O.Patch(op.obj, op.prop, Action.Increment, next));
    }

    method ApplyInsert(op: Op) returns (patch: Option<Patch>)
      requires op.obj in objects
      modifies this`objects
      ensures O.Applied(objects, patch) == O.ApplyInsert(old(objects), op)
    {
      hide ParseRef, InsertAfter, O.VisibleIndexOf, Decimal, Contains;
      if objects[op.obj].MapObject? {
        return None;
      }
      var ref := ParseRef(op.after);
      if ref.Malformed? {
        return None;
      }
      var elems := objects[op.obj].elems;
      if !Contains(elems, op.id) {
        elems := InsertAfter(elems, O.AfterOf(ref), Elem(op.id, op.after, op.value, false, op.id));
      }
      objects := objects[op.obj := O.SeqObject(objects[op.obj].isText, elems)];
      patch := Some(O.Patch(op.obj, Decimal(O.VisibleIndexOf(elems, op.id)), Action.Insert, op.value));
    }

    /** The first loop of applySpliceLocked. */
    method DeleteIDs(obj: ObjID, ids: seq<OpID>, visId: OpID) returns (ok: bool)
      requires obj in objects && objects[obj].Kind() == TextKind
      modifies this`objects
      ensures var (elems, found) := O.DeleteAll(old(objects[obj].elems), ids, visId);
              objects == old(objects)[obj := O.SeqObject(true, elems)] && ok == found
    {
      hide O.SetVisibility, Contains;
      ghost var before := objects[obj].elems;
      for k := 0 to |ids|
        invariant obj in objects && objects[obj].Kind() == TextKind
        invariant objects == old(objects)[obj := objects[obj]]
        invariant O.DeleteAll(before, ids, visId) == O.DeleteAll(objects[obj].elems, ids[k..], visId)
      {
        assert ids[k..][1..] == ids[k + 1..];
        if !Contains(objects[obj].elems, ids[k]) {
          return false;
        }
        objects := objects[obj := O.SeqObject(true, O.SetVisibility(objects[obj].elems, ids[k], true, visId))];
      }
      ok := true;
    }

    /** The second loop of applySpliceLocked: every rune behind the one before. */
    method InsertRunes(obj: ObjID, after: Option<OpID>, runes: seq<Str>, id: OpID)
      requires obj in objects && objects[obj].Kind() == TextKind
      modifies this`objects
      ensures objects == old(objects)[obj := O.SeqObject(true, O.InsertRun(old(objects[obj].elems), after, runes, id))]
    {
      hide InsertAfter, Contains, FormatRef;
      ghost var before := objects[obj].elems;
      var last := after;
      for i := 0 to |runes|
        invariant obj in objects && objects[obj].Kind() == TextKind
        invariant objects == old(objects)[obj := objects[obj]]
        invariant O.InsertRun(before, after, runes, id)
               == O.InsertRun(objects[obj].elems, last, runes[i..], OpID(id.counter + i, id.actor))
      {
        assert runes[i..][1..] == runes[i + 1..];
        var rune := OpID(id.counter + i, id.actor);
        if Contains(objects[obj].elems, rune) {
          last := Some(rune);
          continue;
        }
        var elem := Elem(rune, FormatRef(last), Text(runes[i]), false, rune);
        objects := objects[obj := O.SeqObject(true, InsertAfter(objects[obj].elems, last, elem))];
        last := Some(rune);
      }
    }

    /** applySpliceLocked. */
    method ApplySplice(op: Op) returns (patch: Option<Patch>)
      requires op.obj in objects
      modifies this`objects
      ensures O.Applied(objects, patch) == O.ApplySplice(old(objects), op)
    {
      hide ParseRef, O.DeleteAll, O.InsertRun, ExpandRuns, Runes.Split, O.VisibleIndexOf, Decimal;
      if objects[op.obj].Kind() != TextKind {
        return None;
      }
      var ids := ExpandOpIDRuns(op.deleteRuns);
      var found := DeleteIDs(op.obj, ids, op.id);
      if !found {
        return None;
      }
      var ref := ParseRef(op.after);
      if ref.Malformed? {
        return None;
      }
      InsertRunes(op.obj, O.AfterOf(ref), Runes.Split(op.run), op.id);
      var index := 0;
      if op.run != [] {
        index := O.VisibleIndexOf(objects[op.obj].elems, op.id);
      }
      patch := Some(O.Patch(op.obj, Decimal(index), Action.Splice, Text(op.run)));
    }

    /** applyOpLocked. */
    method ApplyOp(op: Op) returns (patch: Option<Patch>)
      modifies this`objects
      ensures O.Applied(objects, patch) == O.ApplyOp(old(objects), op)
    {
      hide O.ApplyPut, O.ApplyDelete, O.ApplyRevive, O.ApplyIncrement, O.ApplyInsert, O.ApplySplice;
      if op.obj !in objects {
        return None;
      }
      EnsureObject(op.value);
      match op.action
      case Put => patch := ApplyPut(op);
      case Delete => patch := ApplyDelete(op);
      case Revive => patch := ApplyRevive(op);
      case Increment => patch := ApplyIncrement(op);
      case Insert => patch := ApplyInsert(op);
      case Splice => patch := ApplySplice(op);
      case Unknown(_) => return None;
    }

    // ---- local edits ----

    /** newLocalOpLocked. */
    method NewLocalOp(action: Action, obj: ObjID, prop: Str, value: Value, after: Str) returns (op: Op)
      modifies this`maxOp
      ensures State() == D.Advance(old(State()), 1) && op == D.LocalOp(State(), action, obj, prop, value, after)
    {
      maxOp := maxOp + 1;
      op := Op.Op(OpID(maxOp, actor), action, obj, prop, value, after, [], []);
    }

    /** Apply, and if accepted journal. */
    method Record(op: Op) returns (ok: bool)
      modifies this`objects, this`pending, this`pendingPatches
      ensures (State(), ok) == D.Journal(old(State()), op)
    {
      hide O.ApplyOp;
      var patch := ApplyOp(op);
      if patch.None? {
        return false;
      }
      pending := pending + [op];
      pendingPatches := pendingPatches + [patch.value];
      ok := true;
    }

    method Put(obj: ObjID, prop: Str, value: Value) returns (ok: bool)
      modifies this
      ensures (State(), ok) == D.PutKey(old(State()), obj, prop, value)
    {
      hide D.Journal;
      var op := NewLocalOp(Action.Put, obj, prop, value, []);
      ok := Record(op);
    }

    method Delete(obj: ObjID, prop: Str) returns (ok: bool)
      modifies this
      ensures (State(), ok) == D.DeleteKey(old(State()), obj, prop)
    {
      hide D.Journal;
      var op := NewLocalOp(Action.Delete, obj, prop, Null, []);
      ok := Record(op);
    }

    method Increment(obj: ObjID, prop: Str, n: int) returns (ok: bool)
      modifies this
      ensures (State(), ok) == D.IncrementKey(old(State()), obj, prop, n)
    {
      hide D.Journal;
      var op := NewLocalOp(Action.Increment, obj, prop, Counter(n), []);
      ok := Record(op);
    }

    /** MakeMap, MakeList and MakeText. */
    method MakeChild(obj: ObjID, prop: Str, kind: Kind) returns (child: ObjID, ok: bool)
      modifies this
      ensures (State(), ok) == D.MakeChild(old(State()), obj, prop, kind)
      ensures child == D.ChildID(D.Advance(old(State()), 1))
    {
      hide D.Journal, Decimal;
      maxOp := maxOp + 1;
      child := actor + [D.DASH] + Decimal(maxOp);
      ok := Put(obj, prop, ObjectValue(kind, child));
    }

    method InsertAt(list: ObjID, index: nat, value: Value) returns (ok: bool)
      modifies this
      ensures (State(), ok) == D.InsertAt(old(State()), list, index, value)
    {
      hide D.Journal, D.AfterText, Decimal;
      if list !in objects || objects[list].MapObject? {
        return false;
      }
      var after := D.AfterText(objects[list].elems, index);
      if after.None? {
        return false;
      }
      var op := NewLocalOp(Action.Insert, list, Decimal(index), value, after.value);
      ok := Record(op);
    }

    method DeleteAt(list: ObjID, index: nat) returns (ok: bool)
      modifies this
      ensures (State(), ok) == D.DeleteAt(old(State()), list, index)
    {
      hide D.DeleteKey, O.Visible, Print;
      if list !in objects || objects[list].MapObject? {
        return false;
      }
      var visible := O.Visible(objects[list].elems);
      if index >= |visible| {
        return false;
      }
      ok := Delete(list, Print(visible[index].id));
    }

    /** DeleteByElemID and ReviveElem. */
    method SetElementVisibility(list: ObjID, id: OpID, deleted: bool) returns (ok: bool)
      modifies this
      ensures (State(), ok) == D.SetElement(old(State()), list, id, deleted)
    {
      hide D.Journal, Print, Contains;
      if list !in objects || objects[list].MapObject? || !Contains(objects[list].elems, id) {
        return false;
      }
      var op := NewLocalOp(if deleted then Action.Delete else Action.Revive, list, Print(id), Null, []);
      ok := Record(op);
    }

    /** SpliceText. */
    method SpliceText(text: ObjID, index: nat, deleteCount: nat, insert: Str) returns (r: Option<D.Spliced>)
      modifies this
      ensures (State(), r) == D.SpliceText(old(State()), text, index, deleteCount, insert)
    {
      hide D.Journal, O.Visible, Print, CompressRuns, Runes.Split;
      if text !in objects || objects[text].Kind() != TextKind {
        return None;
      }
      var visible := O.Visible(objects[text].elems);
      if index > |visible| || deleteCount > |visible| - index {
        return None;
      }
      var after: Str := [];
      if index > 0 {
        after := Print(visible[index - 1].id);
      }
      var deleted := D.Ids(visible[index..index + deleteCount]);
      var runes := Runes.Split(insert);
      if |deleted| == 0 && |runes| == 0 {
        assert deleted == [];
        return Some(D.Spliced([], []));
      }
      var deleteRuns := CompressOpIDRuns(deleted);
      var op := Op.Op(OpID(maxOp + 1, actor), Action.Splice, text, [], NoValue, after, insert, deleteRuns);
      assert op == D.SpliceOp(State(), text, index, deleteCount, insert);
      var width := if |runes| < 1 then 1 else |runes|;
      maxOp := maxOp + width;
      var ok := Record(op);
      if !ok {
        return None;
      }
      r := Some(D.Spliced(D.CountUp(op.id, |runes|), deleted));
    }

    // ---- commit ----

    /** commitPending. */
    method Commit(hashOf: D.HashFn, time: Time, message: Str, group: Str)
      modifies this
      ensures State() == D.Commit(old(State()), hashOf, time, message, group)
    {
      hide D.DefaultGroup, Decimal;
      if |pending| == 0 {
        return;
      }
      var id := if group == [] then D.DefaultGroup(actor, seqNo + 1) else group;
      var change := Change.Change([], actor, seqNo + 1, deps, pending[0].id.counter, time, message, id, pending);
      change := change.(hash := hashOf(change));
      seqNo := change.seqNo;
      changes := changes + [change];
      changeIndex := changeIndex[change.hash := change];
      deps := [change.hash];
      pending, pendingPatches := [], [];
    }

    // ---- remote changes ----

    /** The loop of applyRemoteChangeLocked. */
    method ApplyOps(ops: seq<Op>) returns (ok: bool)
      modifies this`objects, this`maxOp
      ensures (objects, maxOp, ok) == D.ApplyOps(old(objects), old(maxOp), ops)
    {
      hide O.ApplyOp;
      for i := 0 to |ops|
        invariant D.ApplyOps(old(objects), old(maxOp), ops) == D.ApplyOps(objects, maxOp, ops[i..])
      {
        var op := ops[i];
        assert ops[i..][0] == op && ops[i..][1..] == ops[i + 1..];
        var patch := ApplyOp(op);
        if patch.None? {
          return false;
        }
        var maxCounter := op.id.counter;
        if op.action.Splice? {
          var runLength := |Runes.Split(op.run)|;
          if runLength > 1 {
            maxCounter := maxCounter + runLength - 1;
          }
        }
        if maxCounter > maxOp {
          maxOp := maxCounter;
        }
      }
      ok := true;
    }

    /** mergeHeadsLocked: a map keyed by hash, then a sort. */
    method MergedHeads(change: Change) returns (out: seq<Hash>)
      ensures out == D.MergeHeads(deps, change)
    {
      var heads := (set h | h in deps) - (set h | h in change.deps) + {change.hash};
      out := SortedKeys(heads);
      MergedHeadsExact(deps, change);
      CausalGraph.IncreasingIsUnique(out, D.MergeHeads(deps, change));
    }

    /** applyRemoteChangeLocked. */
    method ApplyRemote(change: Change) returns (ok: bool)
      modifies this
      ensures (State(), ok) == D.ApplyRemote(old(State()), change)
    {
      hide D.ApplyOps, D.MergeHeads;
      ok := ApplyOps(change.ops);
      if !ok {
        return;
      }
      changes := changes + [change];
      changeIndex := changeIndex[change.hash := change];
      deps := MergedHeads(change);
    }

    /** ReceiveSyncMessage on decoded changes. */
    method Receive(decoded: seq<Change>) returns (ok: bool)
      modifies this
      ensures (State(), ok) == D.Receive(old(State()), decoded)
    {
      hide D.ApplyRemote, D.DepsKnown;
      for i := 0 to |decoded|
        invariant D.Receive(old(State()), decoded) == D.Receive(State(), decoded[i..])
      {
        var change := decoded[i];
        assert decoded[i..][0] == change && decoded[i..][1..] == decoded[i + 1..];
        if change.hash in changeIndex {
          continue;
        }
        var missing := MissingDeps(change);
        if |missing| > 0 {
          continue;
        }
        var applied := ApplyRemote(change);
        if !applied {
          return false;
        }
      }
      ok := true;
    }

    /** missingDepsLocked. */
    method MissingDeps(change: Change) returns (missing: seq<Hash>)
      ensures missing == [] <==> D.DepsKnown(State(), change)
      ensures forall h :: h in missing <==> h in change.deps && h !in changeIndex
    {
      missing := [];
      for i := 0 to |change.deps|
        invariant forall h :: h in missing <==> h in change.deps[..i] && h !in changeIndex
      {
        if change.deps[i] !in changeIndex {
          missing := missing + [change.deps[i]];
        }
      }
      assert change.deps[..|change.deps|] == change.deps;
      if missing != [] { assert missing[0] in missing; }
    }

    /** Merge, given the change list of the other document; sort.Slice is the sort
        by first operation and hash. */
    method Merge(other: seq<Change>) returns (ok: bool)
      modifies this
      ensures (State(), ok) == D.MergeSorted(old(State()), D.SortChanges(other))
    {
      hide D.ApplyRemote, D.SortChanges;
      var sorted := D.SortChanges(other);
      for i := 0 to |sorted|
        invariant D.MergeSorted(old(State()), sorted) == D.MergeSorted(State(), sorted[i..])
      {
        var change := sorted[i];
        assert sorted[i..][0] == change && sorted[i..][1..] == sorted[i + 1..];
        if change.hash in changeIndex {
          continue;
        }
        var applied := ApplyRemote(change);
        if !applied {
          return false;
        }
      }
      ok := true;
    }
  }

  // ---- heads as a sorted set ----

  lemma MergedHeadsExact(heads: seq<Hash>, change: Change)
    ensures CausalGraph.Increasing(D.MergeHeads(heads, change))
    ensures forall x :: x in D.MergeHeads(heads, change) <==> x == change.hash || (x in heads && x !in change.deps)
  {
    CausalGraph.HeadsWithoutExact(heads, change.deps);
    CausalGraph.InsertHashIncreasing(change.hash, D.HeadsWithout(heads, change.deps));
  }
}
