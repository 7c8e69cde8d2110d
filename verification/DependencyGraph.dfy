/** The circular-dependency check that guards task creation and retry. */
module DependencyGraph {
  import opened Prelude

  /** Task id to the ids it depends on; edges that leave the task set are dropped on construction. */
  type Graph = map<Id, set<Id>>

  ghost predicate ClosedGraph(graph: Graph) {
    forall n, d :: n in graph && d in graph[n] ==> d in graph
  }

  /** A walk along dependency edges. */
  ghost predicate IsWalk(graph: Graph, walk: seq<Id>) {
    && (forall n :: n in walk ==> n in graph)
    && (forall i :: 0 <= i < |walk| - 1 ==> walk[i + 1] in graph[walk[i]])
  }

  ghost predicate HasCycle(graph: Graph) {
    exists walk :: |walk| >= 2 && IsWalk(graph, walk) && walk[0] == walk[|walk| - 1]
  }

  ghost predicate Distinct<T>(items: seq<T>) {
    forall i, j :: 0 <= i < j < |items| ==> items[i] != items[j]
  }

  /** Every listed node comes after all of its dependencies that lie in scope. */
  ghost predicate DependenciesFirst(graph: Graph, scope: set<Id>, order: seq<Id>) {
    forall i, d :: 0 <= i < |order| && order[i] in graph && d in graph[order[i]] && d in scope
      ==> d in order[..i]
  }

  /** An order in which the nodes of scope can be executed. */
  ghost predicate IsDependencyOrder(graph: Graph, scope: set<Id>, order: seq<Id>) {
    && Distinct(order)
    && (forall n :: n in order <==> n in scope)
    && DependenciesFirst(graph, scope, order)
  }

  lemma AppendKeepsOrder(graph: Graph, scope: set<Id>, order: seq<Id>, node: Id)
    requires IsDependencyOrder(graph, scope, order)
    requires forall n :: n in scope ==> n in graph && graph[n] <= scope
    requires node in graph && node !in scope && graph[node] <= scope
    ensures IsDependencyOrder(graph, scope + {node}, order + [node])
  {
  }

  lemma WalkComesBack(graph: Graph, walk: seq<Id>, node: Id)
    requires IsWalk(graph, walk) && node in walk && node in graph && walk[|walk| - 1] in graph && node in graph[walk[|walk| - 1]]
    ensures HasCycle(graph)
  {
    var k :| 0 <= k < |walk| && walk[k] == node;
    var cycle := walk[k..] + [node];
    assert IsWalk(graph, cycle);
  }

  ghost predicate SameNodes(path: seq<Id>, stack: set<Id>) {
    forall n :: n in path <==> n in stack
  }

  lemma WalkGrows(graph: Graph, walk: seq<Id>, stack: set<Id>, node: Id)
    requires IsWalk(graph, walk) && SameNodes(walk, stack) && node in graph
    requires walk != [] ==> node in graph[walk[|walk| - 1]]
    ensures IsWalk(graph, walk + [node]) && SameNodes(walk + [node], stack + {node})
  {
  }

  /** Depth-first search; visited and stack are the sets the closure in the source captures. */
  class CycleSearch {
    const graph: Graph
    var visited: set<Id>
    var stack: set<Id>
    ghost var finished: seq<Id>
    ghost var path: seq<Id>

    constructor (graph: Graph)
      ensures this.graph == graph && visited == {} && stack == {} && finished == [] && path == []
    {
      this.graph := graph;
      visited, stack, finished, path := {}, {}, [], [];
    }

    ghost predicate Valid()
      reads this
    {
      && ClosedGraph(graph)
      && visited <= graph.Keys
      && IsDependencyOrder(graph, visited, finished)
      && (forall n :: n in visited ==> graph[n] <= visited)
      && IsWalk(graph, path)
      && SameNodes(path, stack)
      && visited !! stack
    }

    /** False stands for the ValueError raised on a node met again while still on the stack. */
    method Visit(node: Id) returns (ok: bool)
      requires Valid() && node in graph
      requires path != [] ==> node in graph[path[|path| - 1]]
      modifies this
      ensures ok ==> Valid() && path == old(path) && stack == old(stack)
      ensures ok ==> old(visited) <= visited && node in visited
      ensures !ok ==> HasCycle(graph)
      decreases graph.Keys - stack, 0
    {
      if node in stack {
        WalkComesBack(graph, path, node);
        return false;
      }
      if node in visited {
        return true;
      }
      WalkGrows(graph, path, stack, node);
      stack := stack + {node};
      path := path + [node];
      ok := VisitAll(node);
      if !ok {
        return;
      }
      Leave(node);
      assert path == old(path) && stack == old(stack);
    }

    /** The node leaves the stack for good, all of its dependencies being visited. */
    method Leave(node: Id)
      requires Valid() && node in graph && node in stack && path != [] && graph[node] <= visited
      modifies this
      ensures visited == old(visited) + {node} && stack == old(stack) - {node} && path == old(path[..|path| - 1])
      ensures visited <= graph.Keys && IsDependencyOrder(graph, visited, finished) && forall n :: n in visited ==> graph[n] <= visited
    {
      path := path[..|path| - 1];
      stack := stack - {node};
      AppendKeepsOrder(graph, visited, finished, node);
      finished := finished + [node];
      visited := visited + {node};
    }

    method VisitAll(node: Id) returns (ok: bool)
      requires Valid() && node in graph && node in stack
      requires path != [] && path[|path| - 1] == node
      modifies this
      ensures ok ==> Valid() && path == old(path) && stack == old(stack)
      ensures ok ==> old(visited) <= visited && graph[node] <= visited
      ensures !ok ==> HasCycle(graph)
      decreases graph.Keys - stack, 1
    {
      var rest := graph[node];
      while rest != {}
        invariant Valid() && path == old(path) && stack == old(stack)
        invariant rest <= graph[node] && old(visited) <= visited
        invariant graph[node] - rest <= visited
        decreases rest
      {
        var dependency :| dependency in rest;
        rest := rest - {dependency};
        ok := Visit(dependency);
        if !ok {
          return;
        }
      }
      return true;
    }
  }

  /** Accepts exactly the graphs without a cycle, which are the graphs that have a dependency order. */
  method DetectCircularDependencies(graph: Graph) returns (acyclic: bool, ghost order: seq<Id>)
    requires ClosedGraph(graph)
    ensures acyclic <==> !HasCycle(graph)
    ensures acyclic ==> IsDependencyOrder(graph, graph.Keys, order)
  {
    var search := new CycleSearch(graph);
    order := [];
    var rest := graph.Keys;
    while rest != {}
      invariant search.graph == graph && search.Valid() && search.path == [] && rest <= graph.Keys
      invariant graph.Keys - rest <= search.visited
      invariant fresh(search)
      decreases rest
    {
      var identifier :| identifier in rest;
      rest := rest - {identifier};
      if identifier !in search.visited {
        var ok := search.Visit(identifier);
        if !ok {
          return false, [];
        }
      }
    }
    order := search.finished;
    OrderExcludesCycles(graph, order);
    return true, order;
  }

  /** A dependency order of the whole graph rules out every cycle. */
  lemma OrderExcludesCycles(graph: Graph, order: seq<Id>)
    requires IsDependencyOrder(graph, graph.Keys, order)
    requires ClosedGraph(graph)
    ensures !HasCycle(graph)
  {
    forall walk | |walk| >= 2 && IsWalk(graph, walk) ensures walk[0] != walk[|walk| - 1] {
      assert walk[0] in walk && walk[0] in order;
      var k :| 0 <= k < |order| && order[k] == walk[0];
      WalkGoesDown(graph, order, walk, |walk| - 1, k);
    }
  }

  /** Along a walk the position in the order strictly decreases. */
  lemma {:induction false} WalkGoesDown(graph: Graph, order: seq<Id>, walk: seq<Id>, n: nat, k: nat)
    requires IsDependencyOrder(graph, graph.Keys, order) && ClosedGraph(graph)
    requires IsWalk(graph, walk) && 1 <= n < |walk|
    requires k < |order| && order[k] == walk[0]
    ensures walk[n] in order[..k]
  {
    assert walk[n - 1] in walk && walk[n - 1 + 1] in graph[walk[n - 1]];
    assert walk[n] in graph.Keys;
    if n > 1 {
      WalkGoesDown(graph, order, walk, n - 1, k);
      var j :| 0 <= j < k && order[..k][j] == walk[n - 1];
      assert order[j] in graph && walk[n] in graph[order[j]];
      assert walk[n] in order[..j];
      assert order[..j] <= order[..k];
    } else {
      assert order[k] in graph && walk[n] in graph[order[k]];
    }
  }

  /** Keeping only the nodes of a smaller scope keeps a dependency order. */
  ghost function Restrict(order: seq<Id>, scope: set<Id>): (kept: seq<Id>)
    ensures forall n :: n in kept <==> n in order && n in scope
  {
    if order == [] then []
    else
      var init := Restrict(order[..|order| - 1], scope);
      var last := order[|order| - 1];
      assert order == order[..|order| - 1] + [last];
      if last in scope then init + [last] else init
  }

  lemma {:induction false} RestrictKeepsOrder(graph: Graph, order: seq<Id>, scope: set<Id>)
    requires Distinct(order)
    requires DependenciesFirst(graph, graph.Keys, order)
    requires forall n, d :: n in graph && d in graph[n] ==> d in graph
    ensures Distinct(Restrict(order, scope))
    ensures DependenciesFirst(graph, scope, Restrict(order, scope))
  {
    if order != [] {
      var init := order[..|order| - 1];
      var last := order[|order| - 1];
      assert order == init + [last];
      assert forall i :: 0 <= i < |init| ==> init[..i] == order[..i];
      RestrictKeepsOrder(graph, init, scope);
      var kept := Restrict(init, scope);
      if last in scope {
        var all := kept + [last];
        forall i, d | 0 <= i < |all| && all[i] in graph && d in graph[all[i]] && d in scope
          ensures d in all[..i]
        {
          if i < |kept| {
            assert all[..i] == kept[..i];
          } else {
            assert all[..i] == kept;
            assert order[|init|] == last && d in graph[order[|init|]] && d in graph.Keys;
            assert d in order[..|init|];
          }
        }
      }
    }
  }
}
