/** The acyclicity check of an execution plan (src/dirty_data_to_olap/domain/contracts/jobs.py,
    `ExecutionPlan.validate_graph`): stages are resolved layer by layer. */
module PlanGraph {

  /** The dependencies of every stage, restricted to stages of the plan. */
  type Graph = map<string, set<string>>

  ghost predicate Closed(deps: Graph) { forall s {:trigger Inside(deps, s)} | s in deps :: Inside(deps, s) }

  ghost predicate Inside(deps: Graph, s: string)
    requires s in deps
  {
    deps[s] <= deps.Keys
  }

  ghost predicate Edge(deps: Graph, walk: seq<string>, i: nat)
    requires i < |walk| - 1
  {
    walk[i] in deps && walk[i + 1] in deps[walk[i]]
  }

  ghost predicate Walk(deps: Graph, walk: seq<string>) { forall i | 0 <= i < |walk| - 1 :: Edge(deps, walk, i) }

  ghost predicate Cycle(deps: Graph, walk: seq<string>) {
    Walk(deps, walk) && |walk| >= 2 && walk[0] == walk[|walk| - 1]
  }

  ghost predicate Acyclic(deps: Graph) { forall walk :: !Cycle(deps, walk) }

  // ---------------------------------------------------------------- accepted plans have no cycle

  /** Every ranked stage has all its dependencies ranked strictly below it. */
  ghost predicate Layered(deps: Graph, rank: map<string, nat>) {
    forall s {:trigger AboveDeps(deps, rank, s)} | s in rank :: AboveDeps(deps, rank, s)
  }

  ghost predicate AboveDeps(deps: Graph, rank: map<string, nat>, s: string)
    requires s in rank
  {
    s in deps ==> forall d | d in deps[s] :: d in rank && rank[d] < rank[s]
  }

  lemma {:induction false} RankFalls(deps: Graph, rank: map<string, nat>, walk: seq<string>, i: nat)
    requires Layered(deps, rank) && Walk(deps, walk) && i < |walk| && walk[0] in rank
    ensures walk[i] in rank && rank[walk[i]] + i <= rank[walk[0]]
  {
    if i > 0 {
      RankFalls(deps, rank, walk, i - 1);
      assert Edge(deps, walk, i - 1);
      assert AboveDeps(deps, rank, walk[i - 1]);
    }
  }

  lemma LayeredIsAcyclic(deps: Graph, rank: map<string, nat>)
    requires Layered(deps, rank) && rank.Keys == deps.Keys
    ensures Acyclic(deps)
  {
    forall walk | Cycle(deps, walk) ensures false {
      assert Edge(deps, walk, 0);
      RankFalls(deps, rank, walk, |walk| - 1);
    }
  }

  // ---------------------------------------------------------------- a stuck resolution has a cycle

  /** No stage of the nonempty set can be resolved without another one of the set. */
  ghost predicate Stuck(deps: Graph, left: set<string>) {
    && left != {} && left <= deps.Keys
    && forall s {:trigger NeedsMore(deps, left, s)} | s in left :: NeedsMore(deps, left, s)
  }

  ghost predicate NeedsMore(deps: Graph, left: set<string>, s: string) {
    s in deps && exists d | d in left :: d in deps[s]
  }

  lemma {:induction false} LongWalk(deps: Graph, left: set<string>, n: nat) returns (walk: seq<string>)
    requires Stuck(deps, left)
    ensures |walk| == n + 1 && Walk(deps, walk) && forall i | 0 <= i < |walk| :: walk[i] in left
  {
    if n == 0 {
      var s :| s in left;
      walk := [s];
    } else {
      var shorter := LongWalk(deps, left, n - 1);
      assert NeedsMore(deps, left, shorter[n - 1]);
      var d :| d in left && d in deps[shorter[n - 1]];
      walk := shorter + [d];
      forall i | 0 <= i < |walk| - 1 ensures Edge(deps, walk, i) {
        if i < n - 1 { assert Edge(deps, shorter, i); }
      }
    }
  }

  lemma {:induction false} Pigeonhole(walk: seq<string>, left: set<string>) returns (i: nat, j: nat)
    requires |walk| > |left| && forall k | 0 <= k < |walk| :: walk[k] in left
    ensures i < j < |walk| && walk[i] == walk[j]
  {
    var n := |walk| - 1;
    if k :| 0 <= k < n && walk[k] == walk[n] {
      return k, n;
    }
    i, j := Pigeonhole(walk[..n], left - {walk[n]});
  }

  lemma StuckHasCycle(deps: Graph, left: set<string>)
    requires Stuck(deps, left)
    ensures !Acyclic(deps)
  {
    var walk := LongWalk(deps, left, |left|);
    var i, j := Pigeonhole(walk, left);
    var loop := walk[i..j + 1];
    forall k | 0 <= k < |loop| - 1 ensures Edge(deps, loop, k) { assert Edge(deps, walk, i + k); }
    assert Cycle(deps, loop);
  }

  // ---------------------------------------------------------------- the loop

  /** The stages whose dependencies are all resolved. */
  function Ready(pending: Graph, resolved: set<string>): set<string> {
    set s | s in pending && pending[s] <= resolved
  }

  /** The resolved stages are ranked below the current layer, each above its dependencies. */
  ghost predicate Ranked(deps: Graph, resolved: set<string>, rank: map<string, nat>, layer: nat) {
    resolved <= deps.Keys && rank.Keys == resolved && Layered(deps, rank) && forall s | s in rank :: rank[s] < layer
  }

  lemma NextLayer(deps: Graph, resolved: set<string>, rank: map<string, nat>, layer: nat)
    returns (next: map<string, nat>)
    requires Ranked(deps, resolved, rank, layer)
    ensures Ranked(deps, resolved + Ready(deps - resolved, resolved), next, layer + 1)
  {
    var ready := Ready(deps - resolved, resolved);
    next := map s | s in resolved + ready :: if s in resolved then rank[s] else layer;
    forall s | s in next ensures AboveDeps(deps, next, s) {
      if s in resolved { assert AboveDeps(deps, rank, s); }
    }
  }

  lemma StillStuck(deps: Graph, resolved: set<string>)
    requires Closed(deps) && deps - resolved != map[] && Ready(deps - resolved, resolved) == {}
    ensures !Acyclic(deps)
  {
    var pending := deps - resolved;
    var left := pending.Keys;
    forall s | s in left ensures NeedsMore(deps, left, s) {
      assert s !in Ready(pending, resolved) && Inside(deps, s);
      var d :| d in pending[s] && d !in resolved;
      assert d in deps.Keys && d in left;
    }
    StuckHasCycle(deps, left);
  }

  lemma Shrinks(pending: Graph, ready: set<string>)
    requires ready != {} && ready <= pending.Keys
    ensures |pending - ready| < |pending|
  {
    assert pending.Keys == (pending - ready).Keys + ready;
    assert |pending| == |pending.Keys| && |pending - ready| == |(pending - ready).Keys|;
  }

  lemma NothingLeft(deps: Graph, resolved: set<string>, rank: map<string, nat>, layer: nat)
    requires Ranked(deps, resolved, rank, layer) && deps - resolved == map[]
    ensures Acyclic(deps)
  {
    assert deps.Keys == (deps - resolved).Keys + resolved;
    LayeredIsAcyclic(deps, rank);
  }

  lemma DropBoth(deps: Graph, a: set<string>, b: set<string>)
    ensures deps - a - b == deps - (a + b)
  {}

  lemma FirstLayer(deps: Graph)
    ensures deps == deps - {} && Ranked(deps, {}, map[], 0)
  {}

  /** The declared dependencies that are stages of the plan. */
  function Known(declared: Graph): (deps: Graph)
    ensures Closed(deps) && deps.Keys == declared.Keys
  {
    var deps := map s | s in declared :: declared[s] * declared.Keys;
    assert forall s | s in deps :: Inside(deps, s);
    deps
  }

  ghost predicate DeclaredCycle(declared: Graph, walk: seq<string>) {
    Cycle(declared, walk) && forall i | 0 <= i < |walk| :: walk[i] in declared
  }

  /** Dropping the dependencies on unknown stages hides no cycle and makes none. */
  lemma KnownCycles(declared: Graph, walk: seq<string>)
    ensures Cycle(Known(declared), walk) <==> DeclaredCycle(declared, walk)
  {
    var deps := Known(declared);
    if Cycle(deps, walk) {
      forall i | 0 <= i < |walk| - 1 ensures Edge(declared, walk, i) && walk[i] in declared {
        assert Edge(deps, walk, i);
      }
    }
    if DeclaredCycle(declared, walk) {
      forall i | 0 <= i < |walk| - 1 ensures Edge(deps, walk, i) { assert Edge(declared, walk, i); }
    }
  }

  /** The graph check of a plan: it passes exactly when no stage depends on itself, directly or
      through other stages of the plan. */
  method ValidateGraph(declared: Graph) returns (valid: bool)
    ensures valid <==> forall walk :: !DeclaredCycle(declared, walk)
  {
    valid := ResolveLayers(Known(declared));
    forall walk ensures Cycle(Known(declared), walk) <==> DeclaredCycle(declared, walk) { KnownCycles(declared, walk); }
  }

  /** The layers resolve exactly when the dependency graph has no cycle. */
  method ResolveLayers(deps: Graph) returns (acyclic: bool)
    requires Closed(deps)
    ensures acyclic <==> Acyclic(deps)
  {
    var pending, resolved := deps, {};
    ghost var rank, layer := map[], 0;
    FirstLayer(deps);
    while pending != map[]
      invariant pending == deps - resolved && Ranked(deps, resolved, rank, layer)
      decreases |pending|
    {
      var ready := Ready(pending, resolved);
      if ready == {} {
        StillStuck(deps, resolved);
        return false;
      }
      Shrinks(pending, ready);
      rank := NextLayer(deps, resolved, rank, layer);
      layer := layer + 1;
      DropBoth(deps, resolved, ready);
      resolved := resolved + ready;
      pending := pending - ready;
    }
    NothingLeft(deps, resolved, rank, layer);
    return true;
  }
}
