/** Dependency graphs: the depth-first cycle search of a pack and the ancestor worklist of a workflow. */
module DependencyGraph {
  import opened Wrappers

  type Node = string
  type Graph = map<Node, seq<Node>>

  /** The dependencies of a node; a node without an entry has none. */
  function Deps(g: Graph, n: Node): seq<Node> { if n in g then g[n] else [] }

  /** Consecutive nodes of `p` are joined by dependency edges. */
  predicate IsPath(g: Graph, p: seq<Node>) { forall i :: 0 <= i < |p| - 1 ==> p[i + 1] in Deps(g, p[i]) }

  predicate IsCycle(g: Graph, c: seq<Node>) { |c| >= 2 && c[0] == c[|c| - 1] && IsPath(g, c) }

  ghost predicate Acyclic(g: Graph) { forall c :: !IsCycle(g, c) }

  // ---------------------------------------------------------------- topological ranks

  /** Every node's dependencies come before it. */
  ghost predicate TopologicalOrder(g: Graph, order: seq<Node>) {
    && (forall n :: n in g ==> n in order)
    && (forall i, j :: 0 <= i < j < |order| ==> order[i] != order[j])
    && (forall i :: 0 <= i < |order| ==> forall d :: d in Deps(g, order[i]) ==> d in order[..i])
  }

  ghost function RankIn(order: seq<Node>, n: Node): (i: nat)
    requires n in order
    ensures i < |order| && order[i] == n
  {
    var i :| 0 <= i < |order| && order[i] == n; i
  }

  lemma EdgeLowersRank(g: Graph, order: seq<Node>, a: Node, b: Node)
    requires TopologicalOrder(g, order) && a in order && b in Deps(g, a)
    ensures b in order && RankIn(order, b) < RankIn(order, a)
  {
    var i := RankIn(order, a);
    assert b in order[..i];
    var j :| 0 <= j < i && order[..i][j] == b;
    assert order[j] == b;
    var k := RankIn(order, b);
    assert k < j || k == j || j < k;
  }

  lemma {:induction false} PathLowersRank(g: Graph, order: seq<Node>, p: seq<Node>, i: nat)
    requires TopologicalOrder(g, order) && IsPath(g, p) && 0 < i < |p|
    ensures p[0] in order && p[i] in order && RankIn(order, p[i]) < RankIn(order, p[0])
  {
    assert p[1] in Deps(g, p[0]);
    if i > 1 { PathLowersRank(g, order, p, i - 1); }
    assert p[i] in Deps(g, p[i - 1]);
    EdgeLowersRank(g, order, p[i - 1], p[i]);
  }

  /** A topological order rules out every closed path. */
  lemma RankedIsAcyclic(g: Graph, order: seq<Node>)
    requires TopologicalOrder(g, order)
    ensures Acyclic(g)
  {
    forall c | IsCycle(g, c) ensures false { PathLowersRank(g, order, c, |c| - 1); }
  }

  // ---------------------------------------------------------------- depth-first search

  /** The stack is a simple path whose nodes are the ones being visited. */
  ghost predicate StackOk(g: Graph, stack: seq<Node>, visiting: set<Node>) {
    && IsPath(g, stack)
    && (forall n :: n in visiting <==> n in stack)
    && (forall i, j :: 0 <= i < j < |stack| ==> stack[i] != stack[j])
  }

  /** The finished nodes, each after all its dependencies. */
  ghost predicate FinishedOk(g: Graph, finished: seq<Node>, visited: set<Node>) {
    && (forall n :: n in visited <==> n in finished)
    && (forall i, j :: 0 <= i < j < |finished| ==> finished[i] != finished[j])
    && (forall i :: 0 <= i < |finished| ==> forall d :: d in Deps(g, finished[i]) ==> d in finished[..i])
  }

  lemma PushKeepsStack(g: Graph, stack: seq<Node>, visiting: set<Node>, n: Node)
    requires StackOk(g, stack, visiting) && n !in visiting && (stack != [] ==> n in Deps(g, stack[|stack| - 1]))
    ensures StackOk(g, stack + [n], visiting + {n})
  {
    var t := stack + [n];
    forall i | 0 <= i < |t| - 1 ensures t[i + 1] in Deps(g, t[i]) {
      if i < |stack| - 1 { assert stack[i + 1] in Deps(g, stack[i]); }
    }
  }

  lemma PopKeepsStack(g: Graph, stack: seq<Node>, visiting: set<Node>)
    requires StackOk(g, stack, visiting) && stack != []
    ensures StackOk(g, stack[..|stack| - 1], visiting - {stack[|stack| - 1]})
  {
    var n := |stack| - 1;
    var t := stack[..n];
    assert stack == t + [stack[n]];
    forall i | 0 <= i < |t| - 1 ensures t[i + 1] in Deps(g, t[i]) { assert stack[i + 1] in Deps(g, stack[i]); }
  }

  lemma FinishKeepsOrder(g: Graph, finished: seq<Node>, visited: set<Node>, n: Node)
    requires FinishedOk(g, finished, visited) && n !in visited && forall d :: d in Deps(g, n) ==> d in visited
    ensures FinishedOk(g, finished + [n], visited + {n})
  {
    var t := finished + [n];
    forall i | 0 <= i < |t| ensures forall d :: d in Deps(g, t[i]) ==> d in t[..i] {
      assert t[..i] == finished[..i];
      if i == |finished| { assert finished[..i] == finished; }
    }
  }

  lemma StackClosesCycle(g: Graph, stack: seq<Node>, start: nat)
    requires IsPath(g, stack) && start < |stack| && stack[start] in Deps(g, stack[|stack| - 1])
    ensures IsCycle(g, stack[start..] + [stack[start]])
  {
    var c := stack[start..] + [stack[start]];
    forall i | 0 <= i < |c| - 1 ensures c[i + 1] in Deps(g, c[i]) {
      if i + 1 < |stack| - start { assert stack[start + i + 1] in Deps(g, stack[start + i]); }
    }
  }

  class CycleSearch {
    const graph: Graph
    ghost const universe: set<Node>
    var visiting: set<Node>
    var visited: set<Node>
    var stack: seq<Node>
    ghost var finished: seq<Node>

    ghost predicate Valid()
      reads this
    {
      && (forall n :: n in graph ==> n in universe && forall d :: d in graph[n] ==> d in universe)
      && visiting !! visited && visiting <= universe
      && StackOk(graph, stack, visiting) && FinishedOk(graph, finished, visited)
    }

    constructor (g: Graph)
      ensures graph == g && Valid() && stack == [] && finished == []
    {
      graph := g;
      universe := g.Keys + (set n, d | n in g && d in g[n] :: d);
      visiting, visited, stack, finished := {}, {}, [], [];
    }

    method Push(node: Node)
      requires Valid() && node in universe && (stack != [] ==> node in Deps(graph, stack[|stack| - 1]))
      requires node !in visiting && node !in visited
      modifies this`visiting, this`stack
      ensures Valid() && stack == old(stack) + [node] && visiting == old(visiting) + {node}
    {
      PushKeepsStack(graph, stack, visiting, node);
      visiting := visiting + {node};
      stack := stack + [node];
    }

    method Pop(node: Node)
      requires Valid() && stack != [] && stack[|stack| - 1] == node && forall d :: d in Deps(graph, node) ==> d in visited
      modifies this`visiting, this`visited, this`stack, this`finished
      ensures Valid() && stack == old(stack)[..|old(stack)| - 1] && visiting == old(visiting) - {node}
      ensures visited == old(visited) + {node}
    {
      FinishKeepsOrder(graph, finished, visited, node);
      PopKeepsStack(graph, stack, visiting);
      stack := stack[..|stack| - 1];
      visiting := visiting - {node};
      visited := visited + {node};
      finished := finished + [node];
    }

    /** Visits one node below the current stack; returns a closed path, or finishes the node. */
    method Visit(node: Node) returns (cycle: Option<seq<Node>>)
      requires Valid() && node in universe && (stack != [] ==> node in Deps(graph, stack[|stack| - 1]))
      modifies this`visiting, this`visited, this`stack, this`finished
      ensures cycle.Some? ==> IsCycle(graph, cycle.value)
      ensures cycle.None? ==> Valid() && stack == old(stack) && visiting == old(visiting)
      ensures cycle.None? ==> node in visited && old(visited) <= visited
      decreases universe - visiting - visited, 1
    {
      if node in visiting {
        var start := IndexOf(stack, node);
        StackClosesCycle(graph, stack, start);
        return Some(stack[start..] + [node]);
      }
      if node in visited { return None; }
      Push(node);
      assert node in universe - old(visiting) - visited && node !in universe - visiting - visited;
      cycle := VisitAll(node);
      if cycle.Some? { return; }
      Pop(node);
      assert stack == old(stack) && visiting == old(visiting);
    }

    /** The loop over the dependencies of the node on top of the stack. */
    method VisitAll(node: Node) returns (cycle: Option<seq<Node>>)
      requires Valid() && stack != [] && stack[|stack| - 1] == node
      modifies this`visiting, this`visited, this`stack, this`finished
      ensures cycle.Some? ==> IsCycle(graph, cycle.value)
      ensures cycle.None? ==> Valid() && stack == old(stack) && visiting == old(visiting)
      ensures cycle.None? ==> old(visited) <= visited && forall d :: d in Deps(graph, node) ==> d in visited
      decreases universe - visiting - visited, 2
    {
      var deps := Deps(graph, node);
      for i := 0 to |deps|
        invariant Valid() && stack == old(stack) && visiting == old(visiting) && old(visited) <= visited
        invariant forall k :: 0 <= k < i ==> deps[k] in visited
      {
        assert deps[i] in deps;
        cycle := Visit(deps[i]);
        if cycle.Some? { return; }
      }
      cycle := None;
    }
  }

  method IndexOf(s: seq<Node>, n: Node) returns (i: nat)
    requires n in s
    ensures i < |s| && s[i] == n && n !in s[..i]
  {
    i := 0;
    while s[i] != n
      invariant i < |s| && n !in s[..i]
      decreases |s| - i
    {
      assert s == s[..i] + [s[i]] + s[i + 1..];
      i := i + 1;
      assert s[..i] == s[..i - 1] + [s[i - 1]];
    }
  }

  /**
   `_find_dependency_cycle`; `nodes` is the iteration order of the graph's keys. A returned list is a
   real closed path; `None` is returned exactly on acyclic graphs, with a topological order to show it.
   */
  method FindDependencyCycle(g: Graph, nodes: seq<Node>) returns (cycle: Option<seq<Node>>, ghost order: seq<Node>)
    requires forall n :: n in nodes <==> n in g
    ensures cycle.Some? ==> IsCycle(g, cycle.value)
    ensures cycle.None? ==> TopologicalOrder(g, order)
    ensures cycle.None? <==> Acyclic(g)
  {
    var search := new CycleSearch(g);
    order := [];
    for i := 0 to |nodes|
      invariant search.Valid() && search.graph == g && search.stack == [] && fresh(search)
      invariant forall k :: 0 <= k < i ==> nodes[k] in search.visited
    {
      cycle := search.Visit(nodes[i]);
      if cycle.Some? { return; }
    }
    cycle := None;
    order := search.finished;
    RankedIsAcyclic(g, order);
  }

  // ---------------------------------------------------------------- ancestors

  ghost predicate Reaches(g: Graph, a: Node, b: Node) {
    exists p :: PathFrom(g, p, a, b)
  }

  /** A path of one or more edges from `a` to `b`. */
  ghost predicate PathFrom(g: Graph, p: seq<Node>, a: Node, b: Node) {
    |p| >= 2 && p[0] == a && p[|p| - 1] == b && IsPath(g, p)
  }

  predicate Closed(g: Graph) { forall n, d :: n in g && d in g[n] ==> d in g }

  lemma ReachesStep(g: Graph, a: Node, b: Node, c: Node)
    requires c in Deps(g, b) && (a == b || Reaches(g, a, b))
    ensures Reaches(g, a, c)
  {
    if a == b {
      assert PathFrom(g, [a, c], a, c);
    } else {
      var p :| PathFrom(g, p, a, b);
      var q := p + [c];
      assert IsPath(g, q) by {
        forall i | 0 <= i < |q| - 1 ensures q[i + 1] in Deps(g, q[i]) {
          if i < |p| - 1 { assert p[i + 1] in Deps(g, p[i]); }
        }
      }
      assert PathFrom(g, q, a, c);
    }
  }

  lemma {:induction false} ClosedSetHoldsReachable(g: Graph, a: Node, s: set<Node>, p: seq<Node>, i: nat)
    requires (forall d :: d in Deps(g, a) ==> d in s) && (forall n, d :: n in s && d in Deps(g, n) ==> d in s)
    requires IsPath(g, p) && p != [] && p[0] == a && 0 < i < |p|
    ensures p[i] in s
  {
    if i > 1 { ClosedSetHoldsReachable(g, a, s, p, i - 1); }
    assert p[i] in Deps(g, p[i - 1]);
  }

  /** `_ancestor_nodes`: exactly the nodes reachable by one or more dependency edges. */
  method AncestorNodes(g: Graph, node: Node) returns (result: set<Node>)
    requires Closed(g) && node in g
    ensures forall x :: x in result <==> Reaches(g, node, x)
  {
    result := {};
    var pending := g[node];
    forall x | x in pending ensures Reaches(g, node, x) { ReachesStep(g, node, node, x); }
    while pending != []
      invariant result <= g.Keys && forall x :: x in pending ==> x in g
      invariant forall x :: x in result || x in pending ==> Reaches(g, node, x)
      invariant forall d :: d in Deps(g, node) ==> d in result || d in pending
      invariant forall n, d :: n in result && d in Deps(g, n) ==> d in result || d in pending
      decreases g.Keys - result, |pending|
    {
      var current := pending[|pending| - 1];
      ghost var was := pending;
      pending := pending[..|pending| - 1];
      assert was == pending + [current];
      if current !in result {
        forall d | d in g[current] ensures Reaches(g, node, d) { ReachesStep(g, node, current, d); }
        result := result + {current};
        pending := pending + g[current];
      }
    }
    forall x | Reaches(g, node, x) ensures x in result {
      var p :| PathFrom(g, p, node, x);
      ClosedSetHoldsReachable(g, node, result, p, |p| - 1);
    }
  }

  /** A node is its own ancestor exactly when it lies on a closed path. */
  lemma OwnAncestorMeansCycle(g: Graph, n: Node)
    ensures Reaches(g, n, n) <==> exists c :: IsCycle(g, c) && c[0] == n
    ensures Acyclic(g) ==> !Reaches(g, n, n)
  {
    if Reaches(g, n, n) {
      var p :| PathFrom(g, p, n, n);
      assert IsCycle(g, p);
    }
    if c :| IsCycle(g, c) && c[0] == n { assert PathFrom(g, c, n, n); }
  }
}
