/** When Merge applies changes in causal order (crdt/doc.go): it sorts by first
    operation and hash and checks no dependencies. */
module Merging {
  import opened OpIds
  import opened Values
  import opened Ops
  import opened Objects
  import opened Documents
  import opened CausalGraph
  import opened LocalCalls
  import opened Replicas
  import opened Runs

  /** Every dependency that the receiver lacks sorts before the change that names it. */
  ghost predicate StartsInOrder(d: Doc, changes: seq<Change>) {
    forall c, e :: c in changes && e in changes && e.hash in c.deps && e.hash !in d.index ==> StartsBefore(e, c)
  }

  lemma SameMembers(changes: seq<Change>, c: Change)
    ensures c in SortChanges(changes) <==> c in changes
  {
    assert c in multiset(SortChanges(changes)) <==> c in multiset(changes);
  }

  lemma UniqueHash(changes: seq<Change>, a: Change, b: Change)
    requires NoRepeats(changes) && a in changes && b in changes && a.hash == b.hash
    ensures a == b
  {
  }

  /** In the sorted list, a comes before b exactly when it sorts before it. */
  lemma SortedPlace(s: seq<Change>, p: nat, q: nat)
    requires StartSorted(s) && p < |s| && q < |s| && s[p].hash != s[q].hash
    ensures q < p <==> StartsBefore(s[q], s[p])
  {
    StrLessIsTotal(s[p].hash, s[q].hash);
  }

  /** The order in which Merge applies changes gives the receiver every dependency
      in time exactly when every dependency it lacks starts before its dependents. */
  lemma MergeOrderExact(d: Doc, changes: seq<Change>)
    requires Topological(changes) && NoRepeats(changes)
    ensures DepsFirst(d, SortChanges(changes)) <==> StartsInOrder(d, changes)
  {
    var s := SortChanges(changes);
    SortChangesSorted(changes);
    forall c ensures c in s <==> c in changes { SameMembers(changes, c); }
    if StartsInOrder(d, changes) {
      forall p, h | 0 <= p < |s| && h in s[p].deps ensures h in d.index || Recorded(s[..p], h) {
        if h !in d.index { DependencyPlaced(d, changes, s, p, h); }
      }
    }
    if DepsFirst(d, s) {
      forall c, e | c in changes && e in changes && e.hash in c.deps && e.hash !in d.index ensures StartsBefore(e, c) {
        DependencyStarts(d, changes, s, c, e);
      }
    }
  }

  lemma DependencyPlaced(d: Doc, changes: seq<Change>, s: seq<Change>, p: nat, h: Hash)
    requires Topological(changes) && NoRepeats(changes) && StartSorted(s) && (forall c :: c in s <==> c in changes)
    requires StartsInOrder(d, changes) && p < |s| && h in s[p].deps && h !in d.index
    ensures Recorded(s[..p], h)
  {
    hide StartsBefore, StartSorted;
    assert s[p] in changes;
    var k :| 0 <= k < |changes| && changes[k] == s[p];
    assert Recorded(changes[..k], h);
    var m :| 0 <= m < k && changes[..k][m].hash == h;
    assert changes[m] in s && changes[m].hash != changes[k].hash;
    var q :| 0 <= q < |s| && s[q] == changes[m];
    SortedPlace(s, p, q);
    assert s[..p][q].hash == h;
  }

  lemma DependencyStarts(d: Doc, changes: seq<Change>, s: seq<Change>, c: Change, e: Change)
    requires NoRepeats(changes) && Topological(changes) && StartSorted(s) && (forall x :: x in s <==> x in changes)
    requires DepsFirst(d, s) && e.hash !in d.index && c in changes && e in changes && e.hash in c.deps
    ensures StartsBefore(e, c)
  {
    hide StartsBefore, StartSorted;
    var p :| 0 <= p < |s| && s[p] == c;
    assert Recorded(s[..p], e.hash);
    var q :| 0 <= q < p && s[..p][q].hash == e.hash;
    assert s[q] in s;
    UniqueHash(changes, s[q], e);
    NotOwnDependency(changes, c, e);
    SortedPlace(s, p, q);
  }

  lemma NotOwnDependency(changes: seq<Change>, c: Change, e: Change)
    requires NoRepeats(changes) && Topological(changes) && c in changes && e in changes && e.hash in c.deps
    ensures c.hash != e.hash
  {
    var k :| 0 <= k < |changes| && changes[k] == c;
    assert Recorded(changes[..k], e.hash);
  }

  // ---- remote changes that arrive while operations are pending ----

  /** Nothing depends on the change that was recorded last. */
  lemma LastIsHead(changes: seq<Change>, own: Change, c: Change)
    requires Topological(changes + [own]) && NoRepeats(changes + [own]) && c in changes + [own]
    ensures own.hash !in c.deps
  {
    var all, n := changes + [own], |changes|;
    var k :| 0 <= k < |all| && all[k] == c;
    forall m | 0 <= m < k ensures all[..k][m].hash != own.hash { assert all[m].hash != all[n].hash; }
    assert !Recorded(all[..k], own.hash);
  }

  /** One change more keeps the starts in order exactly when what it names does. */
  lemma OneMoreInOrder(r: Doc, changes: seq<Change>, own: Change)
    requires Topological(changes + [own]) && NoRepeats(changes + [own]) && StartsInOrder(r, changes)
    ensures StartsInOrder(r, changes + [own]) <==>
            forall e :: e in changes && e.hash in own.deps && e.hash !in r.index ==> StartsBefore(e, own)
  {
    hide StartsBefore, Topological, NoRepeats;
    var all := changes + [own];
    forall c | c in all ensures own.hash !in c.deps { LastIsHead(changes, own, c); }
    assert own in all;
    assert forall c :: c in all <==> c in changes || c == own;
  }

  /** A remote change c that arrives while operations are pending becomes a
      dependency of the next commit, which starts at the first pending operation.
      A receiver r that merges in order before the commit still does so after it
      exactly when every head that r lacks, c among them, starts before the commit. */
  lemma PendingMisorders(d: Doc, c: Change, r: Doc, hashOf: HashFn, time: Time, message: Str, group: Str)
    requires Graph(d) && d.pending != [] && c.hash !in d.index && DepsKnown(d, c) && ApplyRemote(d, c).1
    requires var m := ApplyRemote(d, c).0;
             && NewChange(m, hashOf, time, message, group).hash !in m.index
             && DepsFirst(r, SortChanges(m.changes))
    ensures var m := ApplyRemote(d, c).0; var own := NewChange(m, hashOf, time, message, group);
            var n := Commit(m, hashOf, time, message, group);
            && m.changes == d.changes + [c] && n.changes == m.changes + [own]
            && own.startOp == d.pending[0].id.counter && own.deps == m.heads && c.hash in m.heads
            && (DepsFirst(r, SortChanges(n.changes)) <==>
                forall e :: e in m.changes && e.hash in m.heads && e.hash !in r.index ==> StartsBefore(e, own))
  {
    hide ApplyOps, DefaultGroup, StartsBefore, SortChanges, DepsFirst, StartsInOrder;
    var m := ApplyRemote(d, c).0;
    var own := NewChange(m, hashOf, time, message, group);
    HeadsWithoutExact(d.heads, c.deps);
    InsertHashIncreasing(c.hash, HeadsWithout(d.heads, c.deps));
    RemoteGraph(d, c);
    CommitGraph(m, own);
    hide InsertHash, HeadsWithout, HeadsExact, IndexExact, Topological, NoRepeats, DepsKnown;
    MergeOrderExact(r, m.changes);
    MergeOrderExact(r, m.changes + [own]);
    OneMoreInOrder(r, m.changes, own);
  }
}
