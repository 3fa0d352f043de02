/** ValidatePerfAssetUses of buildmanifest/perf.go: records of one identity are
    merged, dependencies are resolved, and a three-colour depth-first search
    rejects cycles. */
module PerfGraph {
  import opened OpIds
  import opened Sorting

  datatype Asset = Asset(id: Str, sha: Str, owner: Str, kind: Str, condition: Str, dependencies: seq<Str>)

  const WEBGL: Str := [119, 101, 98, 103, 108]
  const WEBGPU: Str := [119, 101, 98, 103, 112, 117]

  /** The fixed code of an error is the same for all; the location tells them apart. */
  datatype Verdict =
    | Accepted
    | IdentityClash(record: nat)
    | BadDependency(record: nat, dependency: nat)
    | CycleThrough(record: nat)

  // ---- what the verdicts mean ----

  predicate SameIdentity(a: Asset, b: Asset) {
    a.owner == b.owner && a.sha == b.sha && a.kind == b.kind
  }

  lemma SameMeans(a: Asset, b: Asset)
    ensures SameIdentity(a, b) <==> a.owner == b.owner && a.sha == b.sha && a.kind == b.kind
  {
  }

  /** Record i contradicts an earlier record of its identity. */
  ghost predicate Clashes(assets: seq<Asset>, i: nat)
    requires i < |assets|
  {
    exists j :: 0 <= j < i && assets[j].id == assets[i].id && !SameIdentity(assets[j], assets[i])
  }

  ghost predicate NoClash(assets: seq<Asset>) {
    forall i :: 0 <= i < |assets| ==> !Clashes(assets, i)
  }

  predicate Declared(assets: seq<Asset>, id: Str) {
    exists i :: 0 <= i < |assets| && assets[i].id == id
  }

  /** The conditions under which an identity is declared. */
  function ConditionsOf(assets: seq<Asset>, id: Str): set<Str> {
    set i | 0 <= i < |assets| && assets[i].id == id :: assets[i].condition
  }

  /** A dependency is unusable when it is unknown or exists only for the other renderer. */
  predicate Usable(assets: seq<Asset>, condition: Str, dep: Str) {
    && Declared(assets, dep)
    && !(condition == WEBGPU && ConditionsOf(assets, dep) == {WEBGL})
    && !(condition == WEBGL && ConditionsOf(assets, dep) == {WEBGPU})
  }

  predicate Resolves(assets: seq<Asset>, i: nat)
    requires i < |assets|
  {
    forall j :: 0 <= j < |assets[i].dependencies| ==> Usable(assets, assets[i].condition, assets[i].dependencies[j])
  }

  predicate AllResolve(assets: seq<Asset>) {
    forall i :: 0 <= i < |assets| ==> Resolves(assets, i)
  }

  type Edges = map<Str, seq<Str>>

  /** The dependencies of all records of an identity, in order. */
  function Merged(assets: seq<Asset>): Edges {
    if assets == [] then map[]
    else
      var before := Merged(assets[..|assets| - 1]);
      var a := assets[|assets| - 1];
      before[a.id := (if a.id in before then before[a.id] else []) + a.dependencies]
  }

  predicate Edge(edges: Edges, a: Str, b: Str) {
    a in edges && b in edges[a]
  }

  lemma {:induction false} MergedMeans(assets: seq<Asset>, a: Str, b: Str)
    ensures a in Merged(assets) <==> Declared(assets, a)
    ensures Edge(Merged(assets), a, b) <==> exists i :: 0 <= i < |assets| && assets[i].id == a && b in assets[i].dependencies
  {
    if assets != [] {
      var n := |assets| - 1;
      var before := assets[..n];
      MergedMeans(before, a, b);
      if Declared(before, a) {
        var i :| 0 <= i < n && before[i].id == a;
        assert assets[i].id == a;
      }
      if assets[n].id == a { assert assets[n].id == a; }
      if Edge(Merged(before), a, b) {
        var i :| 0 <= i < n && before[i].id == a && b in before[i].dependencies;
        assert assets[i].id == a && b in assets[i].dependencies;
      }
      if exists i :: 0 <= i < |assets| && assets[i].id == a && b in assets[i].dependencies {
        var i :| 0 <= i < |assets| && assets[i].id == a && b in assets[i].dependencies;
        if i < n { assert before[i].id == a && b in before[i].dependencies; }
      }
    }
  }

  /** Each node has an edge to the next. */
  ghost predicate IsPath(edges: Edges, p: seq<Str>) {
    forall i :: 0 <= i < |p| - 1 ==> Edge(edges, p[i], p[i + 1])
  }

  ghost predicate OnCycle(edges: Edges, id: Str) {
    exists p: seq<Str> :: |p| >= 2 && p[0] == id && p[|p| - 1] == id && IsPath(edges, p)
  }

  ghost predicate Acyclic(edges: Edges) {
    forall id :: !OnCycle(edges, id)
  }

  // ---- the search ----

  /** Everything a finished node leads to was finished before it. */
  ghost predicate Finished(edges: Edges, order: seq<Str>) {
    forall k, b :: 0 <= k < |order| && Edge(edges, order[k], b) ==> b in order[..k]
  }

  lemma {:induction false} PathDescends(edges: Edges, order: seq<Str>, p: seq<Str>, k: nat) returns (m: nat)
    requires Finished(edges, order) && IsPath(edges, p) && |p| >= 2
    requires k < |order| && order[k] == p[0]
    ensures m < k && order[m] == p[|p| - 1]
    decreases |p|
  {
    assert Edge(edges, order[k], p[1]);
    m :| 0 <= m < k && order[..k][m] == p[1];
    if |p| > 2 {
      var q := p[1..];
      forall i | 0 <= i < |q| - 1 ensures Edge(edges, q[i], q[i + 1]) { assert Edge(edges, p[i + 1], p[i + 2]); }
      m := PathDescends(edges, order, q, m);
    }
  }

  lemma {:induction false} FirstPlace(order: seq<Str>, id: Str) returns (k: nat)
    requires id in order
    ensures k < |order| && order[k] == id && forall i :: 0 <= i < k ==> order[i] != id
    decreases |order|
  {
    var n :| 0 <= n < |order| && order[n] == id;
    k := n;
    if id in order[..n] {
      k := FirstPlace(order[..n], id);
      assert forall i :: 0 <= i < k ==> order[i] == order[..n][i];
    } else {
      assert forall i :: 0 <= i < n ==> order[i] in order[..n];
    }
  }

  /** A finishing order of all nodes leaves no cycle. */
  lemma FinishedIsAcyclic(edges: Edges, order: seq<Str>)
    requires Finished(edges, order) && forall id :: id in edges ==> id in order
    ensures Acyclic(edges)
  {
    forall id ensures !OnCycle(edges, id) {
      if OnCycle(edges, id) {
        var p: seq<Str> :| |p| >= 2 && p[0] == id && p[|p| - 1] == id && IsPath(edges, p);
        assert Edge(edges, p[0], p[1]);
        var k := FirstPlace(order, id);
        var _ := PathDescends(edges, order, p, k);
      }
    }
  }

  /** A node met again on the path that leads to it lies on a cycle. */
  lemma BackEdge(edges: Edges, stack: seq<Str>, id: Str)
    requires IsPath(edges, stack) && id in stack && Edge(edges, stack[|stack| - 1], id)
    ensures OnCycle(edges, id)
  {
    var k :| 0 <= k < |stack| && stack[k] == id;
    var p := stack[k..] + [id];
    forall i | 0 <= i < |p| - 1 ensures Edge(edges, p[i], p[i + 1]) {
      if i < |p| - 2 { assert Edge(edges, stack[k + i], stack[k + i + 1]); }
    }
    assert |p| >= 2 && p[0] == id && p[|p| - 1] == id && IsPath(edges, p);
  }

  lemma FinishMore(edges: Edges, order: seq<Str>, id: Str)
    requires Finished(edges, order) && forall b :: Edge(edges, id, b) ==> b in order
    ensures Finished(edges, order + [id])
  {
    var all := order + [id];
    forall k, b | 0 <= k < |all| && Edge(edges, all[k], b) ensures b in all[..k] {
      if k < |order| {
        assert Edge(edges, order[k], b);
        assert all[..k] == order[..k];
      } else {
        assert all[..k] == order;
      }
    }
  }

  const GREY: nat := 1
  const BLACK: nat := 2

  /** The grey nodes are those on the path that is being explored, the black ones
      those in the finishing order. */
  ghost predicate Coloured(edges: Edges, state: map<Str, nat>, order: seq<Str>, stack: seq<Str>) {
    && IsPath(edges, stack) && Finished(edges, order)
    && (forall id :: id in state ==> id in edges && (state[id] == GREY || state[id] == BLACK))
    && (forall id :: id in stack <==> id in state && state[id] == GREY)
    && (forall id :: id in order <==> id in state && state[id] == BLACK)
  }

  lemma EnterNode(edges: Edges, state: map<Str, nat>, order: seq<Str>, stack: seq<Str>, id: Str)
    requires Coloured(edges, state, order, stack) && id in edges && id !in state
    requires stack != [] ==> Edge(edges, stack[|stack| - 1], id)
    ensures Coloured(edges, state[id := GREY], order, stack + [id])
  {
    hide Finished;
  }

  lemma LeaveNode(edges: Edges, state: map<Str, nat>, order: seq<Str>, stack: seq<Str>, id: Str)
    requires Coloured(edges, state, order, stack + [id]) && id !in stack && id !in order
    requires forall b :: Edge(edges, id, b) ==> b in order
    ensures Coloured(edges, state[id := BLACK], order + [id], stack)
  {
    FinishMore(edges, order, id);
    var path := stack + [id];
    assert path[..|stack|] == stack;
    forall i | 0 <= i < |stack| - 1 ensures Edge(edges, stack[i], stack[i + 1]) { assert Edge(edges, path[i], path[i + 1]); }
    hide Finished, IsPath;
    assert id in path;
    assert forall x :: x in path <==> x in stack || x == id;
  }

  lemma GreyOnPath(edges: Edges, state: map<Str, nat>, order: seq<Str>, stack: seq<Str>, id: Str)
    requires Coloured(edges, state, order, stack)
    ensures id in state && state[id] == GREY ==> id in stack && IsPath(edges, stack)
    ensures id in state && state[id] == BLACK ==> id in order
    ensures id in state ==> state[id] == GREY || state[id] == BLACK
    ensures id !in state ==> id !in stack && id !in order
    ensures id in order ==> id in state && id in edges && id !in stack
  {
    hide Finished, IsPath;
  }

  class Search {
    const edges: Edges
    var state: map<Str, nat>
    ghost var order: seq<Str>

    constructor (edges: Edges)
      ensures this.edges == edges && state == map[] && order == []
    {
      this.edges, state, order := edges, map[], [];
    }

    ghost predicate Exploring(stack: seq<Str>)
      reads this
    {
      Coloured(edges, state, order, stack)
    }

    /** The closure of ValidatePerfAssetUses: the node at fault, if any. */
    method Visit(id: Str, ghost stack: seq<Str>) returns (fault: Option<Str>)
      requires Exploring(stack) && id in edges
      requires forall a, b :: Edge(edges, a, b) ==> b in edges
      requires stack != [] ==> Edge(edges, stack[|stack| - 1], id)
      modifies this
      ensures fault.None? ==> Exploring(stack) && id in order && old(order) <= order
      ensures fault.None? ==> state.Keys >= old(state.Keys)
      ensures fault.Some? ==> fault.value in edges && OnCycle(edges, fault.value)
      decreases edges.Keys - state.Keys
    {
      hide Coloured, OnCycle, IsPath;
      GreyOnPath(edges, state, order, stack, id);
      if id in state && state[id] == GREY {
        BackEdge(edges, stack, id);
        return Some(id);
      }
      if id in state && state[id] == BLACK {
        return None;
      }
      EnterNode(edges, state, order, stack, id);
      state := state[id := GREY];
      ghost var path := stack + [id];
      for k := 0 to |edges[id]|
        invariant Exploring(path) && old(order) <= order && state.Keys >= old(state.Keys) + {id}
        invariant forall j :: 0 <= j < k ==> edges[id][j] in order
      {
        assert Edge(edges, id, edges[id][k]);
        fault := Visit(edges[id][k], path);
        if fault.Some? {
          return;
        }
      }
      GreyOnPath(edges, state, order, path, id);
      assert id in path;
      LeaveNode(edges, state, order, stack, id);
      state := state[id := BLACK];
      order := order + [id];
      return None;
    }
  }

  // ---- validation ----

  /** The first record of each identity, where it is, and all its conditions. */
  datatype Index = Index(identities: map<Str, Asset>, indexes: map<Str, nat>, edges: Edges, conditions: map<Str, set<Str>>)

  ghost predicate FirstRecords(assets: seq<Asset>, identities: map<Str, Asset>, indexes: map<Str, nat>) {
    && (forall id :: id in identities <==> Declared(assets, id))
    && (forall i :: 0 <= i < |assets| ==> assets[i].id in identities && SameIdentity(identities[assets[i].id], assets[i]))
    && (forall id :: id in indexes <==> Declared(assets, id))
    && (forall id :: id in indexes ==> indexes[id] < |assets| && assets[indexes[id]].id == id)
  }

  ghost predicate AllConditions(assets: seq<Asset>, conditions: map<Str, set<Str>>) {
    && (forall id :: id in conditions <==> Declared(assets, id))
    && (forall id :: id in conditions ==> conditions[id] == ConditionsOf(assets, id))
  }

  ghost predicate Indexed(assets: seq<Asset>, x: Index) {
    && FirstRecords(assets, x.identities, x.indexes)
    && AllConditions(assets, x.conditions)
    && x.edges == Merged(assets)
  }

  lemma DeclaredMore(assets: seq<Asset>, i: nat, id: Str)
    requires i < |assets|
    ensures Declared(assets[..i + 1], id) <==> Declared(assets[..i], id) || assets[i].id == id
    ensures ConditionsOf(assets[..i + 1], id)
         == ConditionsOf(assets[..i], id) + if assets[i].id == id then {assets[i].condition} else {}
  {
    var a, b := assets[..i], assets[..i + 1];
    assert b == a + [assets[i]];
    if Declared(a, id) {
      var j :| 0 <= j < i && a[j].id == id;
      assert b[j].id == id;
    }
    if assets[i].id == id { assert b[i].id == id; }
    forall c ensures c in ConditionsOf(b, id)
                     <==> c in ConditionsOf(a, id) + if assets[i].id == id then {assets[i].condition} else {} {
      if c in ConditionsOf(a, id) {
        var j :| 0 <= j < i && a[j].id == id && a[j].condition == c;
        assert b[j].id == id;
      }
      if assets[i].id == id && c == assets[i].condition { assert b[i].id == id; }
    }
  }

  lemma ClashPrefix(assets: seq<Asset>, i: nat, x: Index)
    requires i < |assets| && Indexed(assets[..i], x)
    ensures Clashes(assets, i) <==> assets[i].id in x.identities && !SameIdentity(x.identities[assets[i].id], assets[i])
  {
    hide AllConditions, Merged;
    var before, id := assets[..i], assets[i].id;
    if id in x.identities {
      var j :| 0 <= j < i && before[j].id == id;
      assert SameIdentity(x.identities[before[j].id], before[j]);
      if !SameIdentity(x.identities[id], assets[i]) { assert assets[j].id == id; }
    }
    if Clashes(assets, i) {
      var j :| 0 <= j < i && assets[j].id == id && !SameIdentity(assets[j], assets[i]);
      assert before[j].id == id && SameIdentity(x.identities[before[j].id], before[j]);
    }
  }

  function Extend(x: Index, a: Asset, i: nat): Index {
    Index(if a.id in x.identities then x.identities else x.identities[a.id := a],
          if a.id in x.identities then x.indexes else x.indexes[a.id := i],
          x.edges[a.id := (if a.id in x.edges then x.edges[a.id] else []) + a.dependencies],
          x.conditions[a.id := (if a.id in x.conditions then x.conditions[a.id] else {}) + {a.condition}])
  }

  lemma IndexMore(assets: seq<Asset>, i: nat, x: Index)
    requires i < |assets| && Indexed(assets[..i], x) && !Clashes(assets, i)
    ensures Indexed(assets[..i + 1], Extend(x, assets[i], i))
  {
    ClashPrefix(assets, i, x);
    hide Clashes, FirstRecords, AllConditions, Merged;
    FirstMore(assets, i, x);
    ConditionsMore(assets, i, x);
    MergedMore(assets, i);
  }

  lemma FirstMore(assets: seq<Asset>, i: nat, x: Index)
    requires i < |assets| && FirstRecords(assets[..i], x.identities, x.indexes)
    requires assets[i].id in x.identities ==> SameIdentity(x.identities[assets[i].id], assets[i])
    ensures var y := Extend(x, assets[i], i); FirstRecords(assets[..i + 1], y.identities, y.indexes)
  {
    hide Declared, ConditionsOf;
    var before, after, y := assets[..i], assets[..i + 1], Extend(x, assets[i], i);
    forall id ensures Declared(after, id) <==> Declared(before, id) || assets[i].id == id { DeclaredMore(assets, i, id); }
    forall k | 0 <= k < i + 1 ensures after[k].id in y.identities && SameIdentity(y.identities[after[k].id], after[k]) {
      if k < i { assert before[k] == after[k]; }
    }
    forall id | id in y.indexes ensures y.indexes[id] < |after| && after[y.indexes[id]].id == id {
      if id in x.indexes { assert before[x.indexes[id]] == after[x.indexes[id]]; }
    }
  }

  lemma ConditionsMore(assets: seq<Asset>, i: nat, x: Index)
    requires i < |assets| && AllConditions(assets[..i], x.conditions)
    ensures AllConditions(assets[..i + 1], Extend(x, assets[i], i).conditions)
  {
    hide Declared, ConditionsOf;
    var before, after := assets[..i], assets[..i + 1];
    forall id
      ensures Declared(after, id) <==> Declared(before, id) || assets[i].id == id
      ensures ConditionsOf(after, id) == ConditionsOf(before, id) + if assets[i].id == id then {assets[i].condition} else {}
    {
      DeclaredMore(assets, i, id);
    }
    NoConditions(before, assets[i].id);
  }

  lemma NoConditions(assets: seq<Asset>, id: Str)
    ensures !Declared(assets, id) ==> ConditionsOf(assets, id) == {}
  {
  }

  lemma MergedMore(assets: seq<Asset>, i: nat)
    requires i < |assets|
    ensures var m, a := Merged(assets[..i]), assets[i];
            Merged(assets[..i + 1]) == m[a.id := (if a.id in m then m[a.id] else []) + a.dependencies]
  {
    assert assets[..i + 1][..i] == assets[..i];
  }

  lemma NothingIndexed(assets: seq<Asset>)
    ensures Indexed(assets[..0], Index(map[], map[], map[], map[]))
  {
  }

  /** The first loop: the first record that contradicts an earlier one, if any. */
  method MergeRecords(assets: seq<Asset>) returns (clash: Option<nat>, x: Index)
    ensures clash.Some? ==> clash.value < |assets| && Clashes(assets, clash.value)
    ensures clash.Some? ==> forall k :: 0 <= k < clash.value ==> !Clashes(assets, k)
    ensures clash.None? ==> NoClash(assets) && Indexed(assets, x)
  {
    x := Index(map[], map[], map[], map[]);
    NothingIndexed(assets);
    hide Clashes, Indexed, SameIdentity;
    for i := 0 to |assets|
      invariant Indexed(assets[..i], x)
      invariant forall k :: 0 <= k < i ==> !Clashes(assets, k)
    {
      var a := assets[i];
      ClashPrefix(assets, i, x);
      if a.id in x.identities {
        var previous := x.identities[a.id];
        SameMeans(previous, a);
        if previous.owner != a.owner || previous.sha != a.sha || previous.kind != a.kind {
          return Some(i), x;
        }
      }
      IndexMore(assets, i, x);
      x := Extend(x, a, i);
    }
    assert assets[..|assets|] == assets;
    clash := None;
  }

  lemma UsableByIndex(assets: seq<Asset>, x: Index, condition: Str, dep: Str)
    requires Indexed(assets, x)
    ensures Usable(assets, condition, dep)
       <==> && dep in x.identities
            && !(condition == WEBGPU && x.conditions[dep] == {WEBGL})
            && !(condition == WEBGL && x.conditions[dep] == {WEBGPU})
  {
    hide ConditionsOf, Declared, Merged;
  }

  lemma OnlyOther(conditions: set<Str>, other: Str)
    ensures |conditions| == 1 && other in conditions <==> conditions == {other}
  {
    if |conditions| == 1 && other in conditions {
      assert |conditions - {other}| == 0;
      assert conditions == {other};
    }
  }

  /** The second loop: the first dependency that cannot be used, if any. */
  method ResolveDependencies(assets: seq<Asset>, x: Index) returns (bad: Option<(nat, nat)>)
    requires Indexed(assets, x)
    ensures bad.None? ==> AllResolve(assets)
    ensures bad.Some? ==>
              var (i, j) := bad.value;
              && i < |assets| && j < |assets[i].dependencies|
              && !Usable(assets, assets[i].condition, assets[i].dependencies[j])
              && (forall k :: 0 <= k < i ==> Resolves(assets, k))
              && (forall k :: 0 <= k < j ==> Usable(assets, assets[i].condition, assets[i].dependencies[k]))
  {
    hide Indexed, Usable;
    for i := 0 to |assets|
      invariant forall k :: 0 <= k < i ==> Resolves(assets, k)
    {
      var a := assets[i];
      for j := 0 to |a.dependencies|
        invariant forall k :: 0 <= k < j ==> Usable(assets, a.condition, a.dependencies[k])
      {
        var dep := a.dependencies[j];
        UsableByIndex(assets, x, a.condition, dep);
        var seen := if dep in x.conditions then x.conditions[dep] else {};
        OnlyOther(seen, WEBGL);
        OnlyOther(seen, WEBGPU);
        var onlyOther := |seen| == 1 && ((a.condition == WEBGPU && WEBGL in seen) || (a.condition == WEBGL && WEBGPU in seen));
        SameKeys(assets, x, dep);
        if dep !in x.identities || onlyOther {
          return Some((i, j));
        }
      }
    }
    bad := None;
  }

  lemma SameKeys(assets: seq<Asset>, x: Index, id: Str)
    requires Indexed(assets, x)
    ensures id in x.identities <==> id in x.conditions
    ensures id in x.identities <==> id in x.edges
    ensures id in x.identities <==> id in x.indexes
    ensures id in x.indexes ==> x.indexes[id] < |assets| && assets[x.indexes[id]].id == id
    ensures x.edges == Merged(assets)
  {
    hide ConditionsOf, Declared, Merged;
    MergedMeans(assets, id, id);
  }

  lemma EdgesInside(assets: seq<Asset>, a: Str, b: Str)
    requires AllResolve(assets) && Edge(Merged(assets), a, b)
    ensures b in Merged(assets)
  {
    hide ConditionsOf, Merged;
    MergedMeans(assets, a, b);
    MergedMeans(assets, b, b);
    var i :| 0 <= i < |assets| && assets[i].id == a && b in assets[i].dependencies;
    assert Resolves(assets, i);
    var j :| 0 <= j < |assets[i].dependencies| && assets[i].dependencies[j] == b;
    assert Usable(assets, assets[i].condition, assets[i].dependencies[j]);
  }

  lemma Unresolved(assets: seq<Asset>, i: nat, j: nat)
    requires i < |assets| && j < |assets[i].dependencies|
    requires !Usable(assets, assets[i].condition, assets[i].dependencies[j])
    ensures !AllResolve(assets)
  {
    hide Usable;
    assert !Resolves(assets, i);
  }

  /** The records are accepted exactly when no identity is contradicted, every
      dependency can be used, and the merged graph has no cycle. A rejection names
      the first contradiction, else the first unusable dependency, else a record
      whose identity lies on a cycle. */
  method Validate(assets: seq<Asset>) returns (v: Verdict)
    ensures v == Accepted <==> NoClash(assets) && AllResolve(assets) && Acyclic(Merged(assets))
    ensures v.IdentityClash? ==> v.record < |assets| && Clashes(assets, v.record)
    ensures v.IdentityClash? ==> forall k :: 0 <= k < v.record ==> !Clashes(assets, k)
    ensures v.BadDependency? ==>
              && NoClash(assets) && v.record < |assets| && v.dependency < |assets[v.record].dependencies|
              && !Usable(assets, assets[v.record].condition, assets[v.record].dependencies[v.dependency])
              && forall k :: 0 <= k < v.record ==> Resolves(assets, k)
    ensures v.CycleThrough? ==>
              && NoClash(assets) && AllResolve(assets)
              && v.record < |assets| && OnCycle(Merged(assets), assets[v.record].id)
  {
    hide Clashes, Usable, Merged, Indexed, OnCycle;
    var clash, x := MergeRecords(assets);
    if clash.Some? {
      return IdentityClash(clash.value);
    }
    var bad := ResolveDependencies(assets, x);
    if bad.Some? {
      Unresolved(assets, bad.value.0, bad.value.1);
      return BadDependency(bad.value.0, bad.value.1);
    }
    forall id ensures id in x.identities <==> id in x.edges { SameKeys(assets, x, id); }
    assert x.edges == Merged(assets) by { SameKeys(assets, x, []); }
    var keys := SortedKeys(x.identities.Keys);
    var fault := SearchAll(x.edges, keys, assets);
    match fault
    case None => v := Accepted;
    case Some(id) =>
      SameKeys(assets, x, id);
      v := CycleThrough(x.indexes[id]);
  }

  /** The last loop: a visit from every identity in key order. */
  method SearchAll(edges: Edges, keys: seq<Str>, ghost assets: seq<Asset>) returns (fault: Option<Str>)
    requires edges == Merged(assets) && AllResolve(assets)
    requires forall id :: id in keys <==> id in edges
    ensures fault.None? <==> Acyclic(edges)
    ensures fault.Some? ==> fault.value in edges && OnCycle(edges, fault.value)
  {
    hide AllResolve, Merged, OnCycle;
    forall a, b | Edge(edges, a, b) ensures b in edges { EdgesInside(assets, a, b); }
    var search := new Search(edges);
    for k := 0 to |keys|
      invariant search.Exploring([]) && forall j :: 0 <= j < k ==> keys[j] in search.order
    {
      assert keys[k] in keys;
      fault := search.Visit(keys[k], []);
      if fault.Some? {
        return;
      }
    }
    FinishedIsAcyclic(edges, search.order);
    fault := None;
  }
}
