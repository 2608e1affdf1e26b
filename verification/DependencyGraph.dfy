/**
 Dependency graphs: the depth-first cycle check of workflows, the layer-by-layer check of execution
 plans, and the layers themselves, which the planner and the runner follow as well.
 */
module DependencyGraph {
  import opened Basics

  type Id = nat

  // Every node with its dependencies.
  type Graph = map<Id, seq<Id>>

  ghost predicate Closed(g: Graph) {
    forall n, d | n in g && d in g[n] :: d in g
  }

  ghost predicate IsRank(g: Graph, rank: map<Id, nat>) {
    rank.Keys == g.Keys && forall n, d | n in g && d in g[n] :: d in rank && rank[d] < rank[n]
  }

  // A topological rank exists: each node can be given a number above those of its dependencies.
  ghost predicate Rankable(g: Graph) {
    exists rank :: IsRank(g, rank)
  }

  // ----- the depth-first check -----

  // A walk from dependent to dependency that comes back to where it began.
  ghost predicate IsCycle(g: Graph, walk: seq<Id>) {
    && |walk| >= 2
    && walk[0] == walk[|walk| - 1]
    && IsWalk(g, walk)
  }

  ghost predicate IsWalk(g: Graph, walk: seq<Id>) {
    forall i | 0 <= i < |walk| - 1 :: walk[i] in g && walk[i + 1] in g[walk[i]]
  }

  // Every node of the list comes after all its dependencies.
  ghost predicate Settled(g: Graph, order: seq<Id>) {
    && Distinct(order)
    && (forall i | 0 <= i < |order| :: order[i] in g)
    && (forall i, d | 0 <= i < |order| && d in g[order[i]] :: d in order[..i])
  }

  // The list can go on with `n`.
  predicate Continues(g: Graph, path: seq<Id>, n: Id) {
    path == [] || (path[|path| - 1] in g && n in g[path[|path| - 1]])
  }

  // `order`: the visited nodes as they were finished; `path`: the nodes being visited, from the root.
  ghost predicate Consistent(g: Graph, visited: set<Id>, visiting: set<Id>, order: seq<Id>, path: seq<Id>) {
    && (forall n :: n in visited <==> n in order)
    && (forall n :: n in visiting <==> n in path)
    && visiting <= g.Keys
    && Settled(g, order)
    && IsWalk(g, path)
  }

  class CycleCheck {
    const graph: Graph
    var visited: set<Id>
    var visiting: set<Id>
    ghost var order: seq<Id>
    ghost var path: seq<Id>

    constructor (graph: Graph)
      ensures this.graph == graph && Valid() && path == []
    {
      this.graph := graph;
      visited, visiting := {}, {};
      order, path := [], [];
    }

    ghost predicate Valid()
      reads this
    {
      Consistent(graph, visited, visiting, order, path)
    }

    method Visit(n: Id) returns (ok: bool, ghost cycle: seq<Id>)
      requires Valid() && Closed(graph) && n in graph && Continues(graph, path, n)
      modifies this
      ensures ok ==> Valid() && path == old(path) && visiting == old(visiting)
      ensures ok ==> n in visited && old(visited) <= visited
      ensures !ok ==> IsCycle(graph, cycle)
      decreases |graph.Keys - visiting|
    {
      hide Consistent, IsWalk, IsCycle, Continues;
      cycle := [];
      if n in visiting {
        cycle := ClosedWalk(graph, visited, visiting, order, path, n);
        return false, cycle;
      }
      if n in visited {
        return true, cycle;
      }
      Enter(graph, visited, visiting, order, path, n);
      visiting := visiting + {n};
      path := path + [n];
      ghost var inside := path;
      var parents := graph[n];
      for i := 0 to |parents|
        invariant Valid() && path == inside && visiting == old(visiting) + {n}
        invariant old(visited) <= visited && forall j | 0 <= j < i :: parents[j] in visited
      {
        NextStep(graph, old(path), n, i);
        ok, cycle := Visit(parents[i]);
        if !ok {
          return;
        }
      }
      Leave(graph, visited, visiting, order, old(path), n);
      order := if n in visited then order else order + [n];
      path := old(path);
      visiting := visiting - {n};
      visited := visited + {n};
      ok := true;
    }
  }

  lemma ClosedWalk(g: Graph, visited: set<Id>, visiting: set<Id>, order: seq<Id>, path: seq<Id>, n: Id)
    returns (cycle: seq<Id>)
    requires Consistent(g, visited, visiting, order, path) && n in visiting
    requires Continues(g, path, n)
    ensures IsCycle(g, cycle)
  {
    var k :| 0 <= k < |path| && path[k] == n;
    cycle := path[k..] + [n];
  }

  lemma Enter(g: Graph, visited: set<Id>, visiting: set<Id>, order: seq<Id>, path: seq<Id>, n: Id)
    requires Consistent(g, visited, visiting, order, path) && n in g && n !in visiting
    requires Continues(g, path, n)
    ensures Consistent(g, visited, visiting + {n}, order, path + [n])
    ensures |g.Keys - (visiting + {n})| < |g.Keys - visiting|
    ensures n !in path
  {
    hide Settled, IsWalk, Continues;
    Smaller(g.Keys - (visiting + {n}), g.Keys - visiting);
    LongerWalk(g, path, n);
  }

  lemma LongerWalk(g: Graph, path: seq<Id>, n: Id)
    requires IsWalk(g, path) && Continues(g, path, n)
    ensures IsWalk(g, path + [n])
  {
  }

  lemma NextStep(g: Graph, path: seq<Id>, n: Id, i: nat)
    requires n in g && i < |g[n]| && Closed(g)
    ensures g[n][i] in g && Continues(g, path + [n], g[n][i])
  {
    assert g[n][i] in g[n];
  }

  lemma Leave(g: Graph, visited: set<Id>, visiting: set<Id>, order: seq<Id>, path: seq<Id>, n: Id)
    requires Consistent(g, visited, visiting, order, path + [n])
    requires n !in path && n in g
    requires forall j | 0 <= j < |g[n]| :: g[n][j] in visited
    ensures
      var order' := if n in visited then order else order + [n];
      Consistent(g, visited + {n}, visiting - {n}, order', path)
  {
    assert (path + [n])[..|path|] == path;
    forall i | 0 <= i < |path| - 1
      ensures path[i] in g && path[i + 1] in g[path[i]]
    {
      assert (path + [n])[i] in g && (path + [n])[i + 1] in g[(path + [n])[i]];
    }
    if n !in visited {
      Finished(g, order, n);
    }
  }

  lemma Smaller(a: set<Id>, b: set<Id>)
    requires a < b
    ensures |a| < |b|
  {
    var x :| x in b && x !in a;
    assert a + {x} <= b;
    SubsetSize(a + {x}, b);
  }

  lemma SubsetSize(a: set<Id>, b: set<Id>)
    requires a <= b
    ensures |a| <= |b|
  {
    assert b == a + (b - a);
  }

  lemma Finished(g: Graph, order: seq<Id>, n: Id)
    requires Settled(g, order) && n in g && n !in order && forall d | d in g[n] :: d in order
    ensures Settled(g, order + [n])
  {
    var all := order + [n];
    DistinctSnoc(order, n);
    forall i, d | 0 <= i < |all| && d in g[all[i]]
      ensures d in all[..i]
    {
      assert all[..i] == order[..i];
      assert order[..|order|] == order;
    }
  }

  method DepthFirstAccepts(g: Graph) returns (ok: bool)
    requires Closed(g)
    ensures ok <==> Rankable(g)
  {
    var check := new CycleCheck(g);
    var left := g.Keys;
    while left != {}
      invariant check.graph == g && check.Valid() && check.path == [] && left <= g.Keys
      invariant forall n | n in g && n !in left :: n in check.visited
      invariant fresh(check)
      decreases left
    {
      var n :| n in left;
      ghost var cycle;
      ok, cycle := check.Visit(n);
      if !ok {
        CycleHasNoRank(g, cycle);
        return;
      }
      left := left - {n};
    }
    SettledRank(g, check.order);
    ok := true;
  }

  lemma {:induction false} WalkDescends(g: Graph, rank: map<Id, nat>, walk: seq<Id>)
    requires IsRank(g, rank) && IsWalk(g, walk) && |walk| >= 2
    ensures walk[0] in rank && walk[|walk| - 1] in rank && rank[walk[|walk| - 1]] < rank[walk[0]]
    decreases |walk|
  {
    assert walk[1] in g[walk[0]];
    if |walk| > 2 {
      WalkDescends(g, rank, walk[1..]);
    }
  }

  lemma CycleHasNoRank(g: Graph, walk: seq<Id>)
    requires IsCycle(g, walk)
    ensures !Rankable(g)
  {
    if rank :| IsRank(g, rank) {
      WalkDescends(g, rank, walk);
    }
  }

  function Position(order: seq<Id>, n: Id): (k: nat)
    ensures k <= |order| && (n in order ==> k < |order| && order[k] == n)
  {
    if order == [] then 0 else if order[0] == n then 0 else 1 + Position(order[1..], n)
  }

  lemma {:induction false} PositionBelow(order: seq<Id>, n: Id, k: nat)
    requires k <= |order| && n in order[..k]
    ensures Position(order, n) < k
    decreases |order|
  {
    if order[0] != n {
      assert order[..k] == [order[0]] + order[1..][..k - 1];
      PositionBelow(order[1..], n, k - 1);
    }
  }

  lemma SettledRank(g: Graph, order: seq<Id>)
    requires Settled(g, order) && forall n | n in g :: n in order
    ensures Rankable(g)
  {
    var rank := map n | n in g :: Position(order, n);
    forall n, d | n in g && d in g[n]
      ensures d in rank && rank[d] < rank[n]
    {
      var k := Position(order, n);
      assert order[k] == n && d in order[..k];
      PositionBelow(order, d, k);
    }
    assert IsRank(g, rank);
  }

  // ----- layers -----

  // The nodes that can go next: not done, with every dependency done.
  function Ready(g: Graph, done: set<Id>): set<Id> {
    set n | n in g && n !in done && forall d | d in g[n] :: d in done
  }

  // All nodes, layer by layer, as far as one gets.
  function Layers(g: Graph, done: set<Id>): seq<set<Id>>
    decreases |g.Keys - done|
  {
    var ready := Ready(g, done);
    if ready == {} then []
    else
      Smaller(g.Keys - (done + ready), g.Keys - done);
      [ready] + Layers(g, done + ready)
  }

  lemma LayersStep(g: Graph, done: set<Id>)
    ensures
      var ready := Ready(g, done);
      Layers(g, done) == if ready == {} then [] else [ready] + Layers(g, done + ready)
  {
  }

  lemma LowestRank(s: set<Id>, rank: map<Id, nat>) returns (m: Id)
    requires s != {} && s <= rank.Keys
    ensures m in s && forall n | n in s :: rank[m] <= rank[n]
    decreases s
  {
    m :| m in s;
    if s != {m} {
      var other := LowestRank(s - {m}, rank);
      if rank[other] < rank[m] {
        m := other;
      }
    }
  }

  /** In a graph with a rank and all dependencies declared, some node can always go next. */
  lemma NeverStuck(g: Graph, done: set<Id>)
    requires Closed(g) && Rankable(g) && !(g.Keys <= done)
    ensures Ready(g, done) != {}
  {
    var rank :| IsRank(g, rank);
    assert g.Keys - done != {} by {
      var x :| x in g.Keys && x !in done;
      assert x in g.Keys - done;
    }
    var m := LowestRank(g.Keys - done, rank);
    forall d | d in g[m]
      ensures d in done
    {
      assert rank[d] < rank[m];
      assert d !in g.Keys - done;
    }
    assert m in Ready(g, done);
  }

  ghost predicate Apart(layers: seq<set<Id>>) {
    forall i, j, n | 0 <= i < j < |layers| && n in layers[i] :: n !in layers[j]
  }

  ghost predicate NotDone(layers: seq<set<Id>>, done: set<Id>) {
    forall i, n | 0 <= i < |layers| && n in layers[i] :: n !in done
  }

  ghost predicate InEarlier(layers: seq<set<Id>>, k: nat, d: Id) {
    exists j :: 0 <= j < k && j < |layers| && d in layers[j]
  }

  ghost predicate DependenciesFirst(g: Graph, layers: seq<set<Id>>, done: set<Id>) {
    forall k, n, d | 0 <= k < |layers| && n in layers[k] && n in g && d in g[n] :: d in done || InEarlier(layers, k, d)
  }

  /** The layers never share a node, and a node's dependencies are all in earlier layers, or done. */
  lemma {:induction false} LayersAreApart(g: Graph, done: set<Id>)
    ensures
      var layers := Layers(g, done);
      Apart(layers) && NotDone(layers, done) && DependenciesFirst(g, layers, done)
    decreases |g.Keys - done|
  {
    var ready := Ready(g, done);
    LayersStep(g, done);
    if ready != {} {
      Smaller(g.Keys - (done + ready), g.Keys - done);
      LayersAreApart(g, done + ready);
      OneMoreLayer(g, ready, Layers(g, done + ready), done);
    }
  }

  lemma OneMoreLayer(g: Graph, ready: set<Id>, rest: seq<set<Id>>, done: set<Id>)
    requires ready == Ready(g, done)
    requires Apart(rest) && NotDone(rest, done + ready) && DependenciesFirst(g, rest, done + ready)
    ensures
      var layers := [ready] + rest;
      Apart(layers) && NotDone(layers, done) && DependenciesFirst(g, layers, done)
  {
    var layers := [ready] + rest;
    assert layers[0] == ready && forall k | 0 < k < |layers| :: layers[k] == rest[k - 1];
    forall k, n, d | 0 <= k < |layers| && n in layers[k] && n in g && d in g[n]
      ensures d in done || InEarlier(layers, k, d)
    {
      if k > 0 && d !in done {
        assert n in rest[k - 1];
        if d in ready {
          assert d in layers[0];
        } else {
          assert InEarlier(rest, k - 1, d);
          var j :| 0 <= j < k - 1 && d in rest[j];
          assert d in layers[j + 1];
        }
      }
    }
  }

  ghost predicate RanksDone(g: Graph, done: set<Id>, rank: map<Id, nat>, layer: nat) {
    && rank.Keys == done
    && (forall n, d | n in done && n in g && d in g[n] :: d in rank && rank[d] < rank[n])
    && (forall n | n in done :: rank[n] < layer)
  }

  lemma RankLayer(g: Graph, done: set<Id>, rank: map<Id, nat>, layer: nat)
    requires RanksDone(g, done, rank, layer)
    ensures
      var ready := Ready(g, done);
      RanksDone(g, done + ready, rank + (map n | n in ready :: layer), layer + 1)
  {
  }

  /** The source's loop over layers accepts exactly the graphs whose dependencies are all declared and
      which have a topological rank. For declared dependencies that is what the depth-first check
      accepts. */
  method LayersAccept(g: Graph) returns (ok: bool)
    ensures ok <==> Closed(g) && Rankable(g)
  {
    var done: set<Id> := {};
    ghost var rank: map<Id, nat> := map[];
    ghost var layer := 0;
    while done != g.Keys
      invariant done <= g.Keys && RanksDone(g, done, rank, layer)
      decreases g.Keys - done
    {
      var ready := Ready(g, done);
      if ready == {} {
        if Closed(g) && Rankable(g) {
          NeverStuck(g, done);
        }
        return false;
      }
      RankLayer(g, done, rank, layer);
      rank := rank + (map n | n in ready :: layer);
      layer := layer + 1;
      done := done + ready;
    }
    assert IsRank(g, rank);
    ok := true;
  }
}
