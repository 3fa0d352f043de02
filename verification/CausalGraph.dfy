/** The recorded changes of one document as a graph of dependencies
    (commitPending, applyRemoteChangeLocked and mergeHeadsLocked in crdt/doc.go). */
module CausalGraph {
  import opened OpIds
  import opened Ops
  import opened Documents

  ghost predicate Recorded(changes: seq<Change>, h: Hash) {
    exists k :: 0 <= k < |changes| && changes[k].hash == h
  }

  ghost predicate NoRepeats(changes: seq<Change>) {
    forall i, j :: 0 <= i < j < |changes| ==> changes[i].hash != changes[j].hash
  }

  /** Every dependency is recorded before the change that names it. */
  ghost predicate Topological(changes: seq<Change>) {
    forall k, h :: 0 <= k < |changes| && h in changes[k].deps ==> Recorded(changes[..k], h)
  }

  /** A head is a recorded change that no recorded change depends on. */
  ghost predicate IsHead(changes: seq<Change>, h: Hash) {
    Recorded(changes, h) && forall k :: 0 <= k < |changes| ==> h !in changes[k].deps
  }

  ghost predicate Increasing(s: seq<Hash>) {
    forall i, j :: 0 <= i < j < |s| ==> StrLess(s[i], s[j])
  }

  ghost predicate HeadsExact(changes: seq<Change>, heads: seq<Hash>) {
    Increasing(heads) && forall h :: h in heads <==> IsHead(changes, h)
  }

  ghost predicate IndexExact(changes: seq<Change>, index: map<Hash, Change>) {
    && (forall k :: 0 <= k < |changes| ==> changes[k].hash in index && index[changes[k].hash] == changes[k])
    && (forall h :: h in index ==> Recorded(changes, h))
  }

  ghost predicate Graph(d: Doc) {
    && NoRepeats(d.changes)
    && Topological(d.changes)
    && HeadsExact(d.changes, d.heads)
    && IndexExact(d.changes, d.index)
  }

  // ---- recording one more change ----

  lemma RecordedMore(changes: seq<Change>, c: Change, h: Hash)
    ensures Recorded(changes + [c], h) <==> Recorded(changes, h) || h == c.hash
  {
    var all := changes + [c];
    if Recorded(changes, h) {
      var k :| 0 <= k < |changes| && changes[k].hash == h;
      assert all[k].hash == h;
    }
    if h == c.hash { assert all[|changes|].hash == h; }
  }

  lemma RecordedPrefix(changes: seq<Change>, k: nat, h: Hash)
    requires k <= |changes| && Recorded(changes[..k], h)
    ensures Recorded(changes, h)
  {
    var m :| 0 <= m < k && changes[..k][m].hash == h;
    assert changes[m].hash == h;
  }

  lemma GraphExtends(changes: seq<Change>, c: Change, index: map<Hash, Change>)
    requires NoRepeats(changes) && Topological(changes) && IndexExact(changes, index)
    requires c.hash !in index && forall h :: h in c.deps ==> h in index
    ensures NoRepeats(changes + [c]) && Topological(changes + [c])
    ensures IndexExact(changes + [c], index[c.hash := c])
  {
    hide Recorded;
    var all := changes + [c];
    forall k, h | 0 <= k < |all| && h in all[k].deps ensures Recorded(all[..k], h) {
      if k < |changes| { assert all[..k] == changes[..k]; } else { assert all[..k] == changes; }
    }
    forall h | h in index[c.hash := c] ensures Recorded(all, h) { RecordedMore(changes, c, h); }
  }

  /** A change nobody could know yet: no recorded dependency names it. */
  lemma HeadsAfter(changes: seq<Change>, c: Change, index: map<Hash, Change>, h: Hash)
    requires Topological(changes) && IndexExact(changes, index)
    requires c.hash !in index && forall x :: x in c.deps ==> x in index
    ensures IsHead(changes + [c], h) <==> h == c.hash || (IsHead(changes, h) && h !in c.deps)
  {
    hide Recorded;
    var all := changes + [c];
    RecordedMore(changes, c, h);
    if Recorded(changes, c.hash) { RecordedInIndex(changes, index, c.hash); }
    forall k | 0 <= k < |changes| && c.hash in changes[k].deps ensures false {
      assert Recorded(changes[..k], c.hash);
      RecordedPrefix(changes, k, c.hash);
    }
    assert forall k :: 0 <= k < |changes| ==> all[k] == changes[k];
    assert all[|changes|] == c;
  }

  lemma RecordedInIndex(changes: seq<Change>, index: map<Hash, Change>, h: Hash)
    requires IndexExact(changes, index) && Recorded(changes, h)
    ensures h in index
  {
  }

  lemma {:induction false} InsertHashIncreasing(h: Hash, s: seq<Hash>)
    requires Increasing(s)
    ensures Increasing(InsertHash(h, s))
    ensures forall x :: x in InsertHash(h, s) <==> x == h || x in s
  {
    if s != [] {
      assert s == [s[0]] + s[1..];
      InsertHashIncreasing(h, s[1..]);
      StrLessIsTotal(h, s[0]);
      if h != s[0] {
        if StrLess(h, s[0]) {
          forall j | 0 <= j < |s| ensures StrLess(h, s[j]) { StrLessIsStrictOrder(h, s[0], s[j]); }
        } else {
          var r := InsertHash(h, s[1..]);
          forall j | 0 <= j < |r| ensures StrLess(s[0], r[j]) { assert r[j] in r; }
        }
      }
    }
  }

  /** A strictly increasing list is determined by its members. */
  lemma {:induction false} IncreasingIsUnique(a: seq<Hash>, b: seq<Hash>)
    requires Increasing(a) && Increasing(b) && forall h :: h in a <==> h in b
    ensures a == b
  {
    if a == [] {
      FirstMember(b);
    } else {
      assert a[0] in b && b != [];
      assert b[0] in a;
      FirstIsLeast(a, b[0]);
      FirstIsLeast(b, a[0]);
      StrLessIsTotal(a[0], b[0]);
      TailMembers(a);
      TailMembers(b);
      IncreasingIsUnique(a[1..], b[1..]);
      assert a == [a[0]] + a[1..] && b == [b[0]] + b[1..];
    }
  }

  lemma FirstMember(s: seq<Hash>)
    ensures s != [] ==> s[0] in s
  {
  }

  lemma FirstIsLeast(s: seq<Hash>, h: Hash)
    requires Increasing(s) && h in s
    ensures s[0] == h || StrLess(s[0], h)
  {
  }

  lemma TailMembers(s: seq<Hash>)
    requires Increasing(s) && s != []
    ensures Increasing(s[1..]) && forall h :: h in s[1..] <==> h in s && h != s[0]
  {
    forall h | h in s[1..] ensures h != s[0] && h in s {
      var k :| 0 <= k < |s| - 1 && s[1..][k] == h;
      StrLessIsTotal(s[0], s[k + 1]);
      StrLessIsStrictOrder(s[0], s[0], s[0]);
    }
  }

  lemma {:induction false} HeadsWithoutExact(heads: seq<Hash>, deps: seq<Hash>)
    ensures Increasing(HeadsWithout(heads, deps))
    ensures forall h :: h in HeadsWithout(heads, deps) <==> h in heads && h !in deps
  {
    if heads != [] {
      HeadsWithoutExact(heads[1..], deps);
      assert heads == [heads[0]] + heads[1..];
      InsertHashIncreasing(heads[0], HeadsWithout(heads[1..], deps));
    }
  }

  /** Recording a remote change whose dependencies are recorded. */
  lemma RemoteGraph(d: Doc, c: Change)
    requires Graph(d) && c.hash !in d.index && DepsKnown(d, c)
    ensures Graph(d.(changes := d.changes + [c], index := d.index[c.hash := c], heads := MergeHeads(d.heads, c)))
  {
    hide IsHead, Increasing, Topological, NoRepeats, IndexExact;
    GraphExtends(d.changes, c, d.index);
    HeadsWithoutExact(d.heads, c.deps);
    InsertHashIncreasing(c.hash, HeadsWithout(d.heads, c.deps));
    forall h ensures h in MergeHeads(d.heads, c) <==> IsHead(d.changes + [c], h) {
      HeadsAfter(d.changes, c, d.index, h);
    }
  }

  /** Committing a change that depends on the heads. */
  lemma CommitGraph(d: Doc, c: Change)
    requires Graph(d) && c.hash !in d.index && c.deps == d.heads
    ensures Graph(d.(changes := d.changes + [c], index := d.index[c.hash := c], heads := [c.hash]))
  {
    hide Topological, NoRepeats;
    forall h | h in c.deps ensures h in d.index { assert IsHead(d.changes, h); }
    hide IsHead, IndexExact;
    GraphExtends(d.changes, c, d.index);
    forall h ensures h in [c.hash] <==> IsHead(d.changes + [c], h) {
      HeadsAfter(d.changes, c, d.index, h);
    }
  }

  // ---- ancestors ----

  ghost predicate NoCollision(a: seq<Change>, b: seq<Change>) {
    forall c, e :: c in a && e in b && c.hash == e.hash ==> c == e
  }

  lemma RecordedMember(past: seq<Change>, changes: seq<Change>, c: Change)
    requires c in past && NoCollision(past, changes) && Recorded(changes, c.hash)
    ensures c in changes
  {
  }

  lemma RecordedAt(past: seq<Change>, n: nat, m: nat)
    requires n < |past| && m <= |past| && NoRepeats(past)
    requires Recorded(past[..m], past[n].hash)
    ensures n < m
  {
    var k :| 0 <= k < m && past[..m][k].hash == past[n].hash;
    assert past[k].hash == past[n].hash;
  }

  lemma {:induction false} AncestorsFrom(past: seq<Change>, changes: seq<Change>, n: nat)
    requires NoRepeats(past) && Topological(past) && Topological(changes) && NoCollision(past, changes)
    requires forall h :: IsHead(past, h) ==> Recorded(changes, h)
    requires n <= |past|
    ensures forall i :: n <= i < |past| ==> past[i] in changes
    decreases |past| - n
  {
    hide Recorded, Topological, NoRepeats, NoCollision;
    if n < |past| {
      AncestorsFrom(past, changes, n + 1);
      var h := past[n].hash;
      assert Recorded(past, h) by { RecordedHere(past, n); }
      if !IsHead(past, h) {
        var k :| 0 <= k < |past| && h in past[k].deps;
        DependencyRecorded(past, k, h);
        RecordedAt(past, n, k);
        var m :| 0 <= m < |changes| && changes[m] == past[k];
        DependencyRecorded(changes, m, h);
        RecordedPrefix(changes, m, h);
      }
      RecordedMember(past, changes, past[n]);
    }
  }

  lemma RecordedHere(changes: seq<Change>, n: nat)
    requires n < |changes|
    ensures Recorded(changes, changes[n].hash)
  {
  }

  lemma DependencyRecorded(changes: seq<Change>, k: nat, h: Hash)
    requires Topological(changes) && k < |changes| && h in changes[k].deps
    ensures Recorded(changes[..k], h)
  {
  }

  /** A dependency closed record that holds the heads of a past holds all of it:
      naming the heads names every ancestor. */
  lemma HeadsNameThePast(past: seq<Change>, changes: seq<Change>)
    requires NoRepeats(past) && Topological(past) && Topological(changes) && NoCollision(past, changes)
    requires forall h :: IsHead(past, h) ==> Recorded(changes, h)
    ensures forall c :: c in past ==> c in changes
  {
    AncestorsFrom(past, changes, 0);
  }

  lemma PrefixGraph(changes: seq<Change>, k: nat)
    requires NoRepeats(changes) && Topological(changes) && k <= |changes|
    ensures NoRepeats(changes[..k]) && Topological(changes[..k])
  {
    hide Recorded;
    forall m, h | 0 <= m < k && h in changes[..k][m].deps ensures Recorded(changes[..k][..m], h) {
      assert changes[..k][..m] == changes[..m];
    }
  }
}
