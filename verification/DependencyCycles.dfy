/** The depth-first search that looks for dependency cycles between documents.
    A node without an entry in the graph has no targets. */
module DependencyCycles {
  type Node = string
  type Graph = map<Node, seq<Node>>

  function Targets(g: Graph, n: Node): seq<Node> {
    if n in g then g[n] else []
  }

  function Nodes(g: Graph): set<Node> {
    g.Keys + set k, i | k in g && 0 <= i < |g[k]| :: g[k][i]
  }

  ghost predicate Path(g: Graph, p: seq<Node>) {
    forall i | 0 <= i < |p| - 1 :: p[i + 1] in Targets(g, p[i])
  }

  ghost predicate ClosedPath(g: Graph, p: seq<Node>) {
    2 <= |p| && p[0] == p[|p| - 1] && Path(g, p)
  }

  ghost predicate Distinct(p: seq<Node>) {
    forall i, j | 0 <= i < j < |p| :: p[i] != p[j]
  }

  /** A closed path whose nodes differ but for its ends. */
  ghost predicate SimpleCycle(g: Graph, p: seq<Node>) {
    ClosedPath(g, p) && Distinct(p[..|p| - 1])
  }

  ghost predicate Acyclic(g: Graph) {
    forall p :: !ClosedPath(g, p)
  }

  /** The edge from `u` to `t` closes one of the reported cycles. */
  ghost predicate Closes(cycles: seq<seq<Node>>, u: Node, t: Node) {
    exists c | c in cycles :: 2 <= |c| && c[|c| - 2] == u && c[|c| - 1] == t
  }

  /** Each edge of a finished node leads to a node finished earlier, unless it
      closes a reported cycle. */
  ghost predicate Ordered(g: Graph, cycles: seq<seq<Node>>, finished: seq<Node>) {
    forall i, t | 0 <= i < |finished| && t in Targets(g, finished[i]) ::
      t in finished[..i] || Closes(cycles, finished[i], t)
  }

  lemma MoreCyclesCloseMore(g: Graph, cycles: seq<seq<Node>>, more: seq<seq<Node>>, finished: seq<Node>)
    requires Ordered(g, cycles, finished) && cycles <= more
    ensures Ordered(g, more, finished)
    ensures forall u, t :: Closes(cycles, u, t) ==> Closes(more, u, t)
  {
    assert forall c | c in cycles :: c in more;
  }

  /** A path between finished nodes that closes no cycle goes back in the
      finishing order, so it cannot return to its start. */
  lemma {:induction false} UnclosedPathGoesBack(
    g: Graph, cycles: seq<seq<Node>>, finished: seq<Node>, p: seq<Node>, k: nat) returns (rank: nat)
    requires Ordered(g, cycles, finished) && Path(g, p) && p != []
    requires forall i | 0 <= i < |p| - 1 :: !Closes(cycles, p[i], p[i + 1])
    requires k < |finished| && finished[k] == p[0]
    ensures rank < |finished| && finished[rank] == p[|p| - 1]
    ensures rank <= k - (|p| - 1)
    decreases |p|
  {
    rank := k;
    if |p| > 1 {
      assert p[1] in Targets(g, finished[k]) && !Closes(cycles, p[0], p[1]);
      var j: nat :| j < k && finished[j] == p[1];
      var q := p[1..];
      forall i | 0 <= i < |q| - 1 ensures q[i + 1] in Targets(g, q[i]) && !Closes(cycles, q[i], q[i + 1]) {
        assert q[i] == p[i + 1] && p[(i + 1) + 1] in Targets(g, p[i + 1]);
      }
      rank := UnclosedPathGoesBack(g, cycles, finished, q, j);
    }
  }

  /** Taking the closing edges of the reported cycles out of the graph leaves no
      cycle: every closed path uses one of them. */
  lemma EveryClosedPathIsBroken(g: Graph, cycles: seq<seq<Node>>, finished: seq<Node>, p: seq<Node>)
    requires Ordered(g, cycles, finished) && Distinct(finished)
    requires g.Keys <= set n | n in finished
    requires ClosedPath(g, p)
    ensures exists i | 0 <= i < |p| - 1 :: Closes(cycles, p[i], p[i + 1])
  {
    if forall i | 0 <= i < |p| - 1 :: !Closes(cycles, p[i], p[i + 1]) {
      assert p[1] in Targets(g, p[0]);
      assert p[0] in finished;
      var k: nat :| k < |finished| && finished[k] == p[0];
      var rank := UnclosedPathGoesBack(g, cycles, finished, p, k);
      assert false;
    }
  }

  /** The path from a node on it, and an edge from its end back to that node. */
  lemma BackEdgeCloses(g: Graph, path: seq<Node>, start: nat, node: Node)
    requires Path(g, path) && Distinct(path) && start < |path| && path[start] == node
    requires node in Targets(g, path[|path| - 1])
    ensures SimpleCycle(g, path[start..] + [node])
  {
    var cycle := path[start..] + [node];
    assert cycle[..|cycle| - 1] == path[start..];
    forall i | 0 <= i < |cycle| - 1 ensures cycle[i + 1] in Targets(g, cycle[i]) {
      if i < |cycle| - 2 {
        assert path[start + i + 1] in Targets(g, path[start + i]);
      }
    }
  }

  /** These targets of a node are finished or their edges close a reported cycle. */
  ghost predicate DealtWith(visited: set<Node>, cycles: seq<seq<Node>>, node: Node, targets: seq<Node>) {
    forall t | t in targets :: t in visited || Closes(cycles, node, t)
  }

  lemma DealtStays(
    met: set<Node>, before: seq<seq<Node>>, visited: set<Node>, cycles: seq<seq<Node>>, node: Node,
    targets: seq<Node>, i: nat)
    requires met <= visited && before <= cycles && i < |targets| && DealtWith(met, before, node, targets[..i])
    requires targets[i] in visited || Closes(cycles, node, targets[i])
    ensures DealtWith(visited, cycles, node, targets[..i + 1])
  {
    assert targets[..i + 1] == targets[..i] + [targets[i]];
    assert forall c | c in before :: c in cycles;
  }

  class CycleFinder {
    const graph: Graph
    var visiting: seq<Node>
    var visited: set<Node>
    var cycles: seq<seq<Node>>
    ghost var finished: seq<Node>

    ghost predicate Valid()
      reads this
    {
      && Path(graph, visiting) && Distinct(visiting)
      && (forall n | n in visiting :: n !in visited)
      && (forall n | n in visiting || n in visited :: n in Nodes(graph))
      && visited == (set n | n in finished) && Distinct(finished)
      && (forall c | c in cycles :: SimpleCycle(graph, c))
      && Ordered(graph, cycles, finished)
    }

    /** The nodes the search has not met; every nested visit leaves fewer. */
    ghost function Unseen(): set<Node>
      reads this
    {
      Nodes(graph) - visited - (set n | n in visiting)
    }

    constructor (graph: Graph)
      ensures Valid() && this.graph == graph
      ensures visiting == [] && visited == {} && cycles == []
    {
      this.graph := graph;
      visiting, visited, cycles, finished := [], {}, [], [];
    }

    method PositionOf(node: Node) returns (start: nat)
      requires node in visiting
      ensures start < |visiting| && visiting[start] == node
    {
      start := 0;
      while visiting[start] != node
        invariant start < |visiting| && node in visiting[start..]
        decreases |visiting| - start
      {
        start := start + 1;
      }
    }

    /** Report the cycle that an edge back to a node on the current path closes. */
    method Report(node: Node)
      requires Valid() && node in visiting && node in Targets(graph, visiting[|visiting| - 1])
      modifies this`cycles
      ensures Valid() && old(cycles) <= cycles
      ensures Closes(cycles, visiting[|visiting| - 1], node)
    {
      var start := PositionOf(node);
      var cycle := visiting[start..] + [node];
      BackEdgeCloses(graph, visiting, start, node);
      MoreCyclesCloseMore(graph, cycles, cycles + [cycle], finished);
      cycles := cycles + [cycle];
      assert cycle in cycles;
    }

    method Enter(node: Node)
      requires Valid() && node in Nodes(graph) && node !in visiting && node !in visited
      requires visiting != [] ==> node in Targets(graph, visiting[|visiting| - 1])
      modifies this`visiting
      ensures Valid() && visiting == old(visiting) + [node]
    {
      visiting := visiting + [node];
    }

    /** Leave a node whose targets are all finished or closed a cycle. */
    method Leave(node: Node)
      requires Valid() && visiting != [] && visiting[|visiting| - 1] == node
      requires forall t | t in Targets(graph, node) :: t in visited || Closes(cycles, node, t)
      modifies this`visiting, this`visited, this`finished
      ensures Valid() && visiting == old(visiting[..|visiting| - 1]) && visited == old(visited) + {node}
    {
      assert node in visiting && node !in visited;
      ghost var grown := finished + [node];
      assert Ordered(graph, cycles, grown) by {
        forall i, t | 0 <= i < |grown| && t in Targets(graph, grown[i])
          ensures t in grown[..i] || Closes(cycles, grown[i], t)
        {
          if i < |finished| {
            assert grown[..i] == finished[..i];
          } else {
            assert grown[..i] == finished;
          }
        }
      }
      visiting := visiting[..|visiting| - 1];
      finished := grown;
      visited := visited + {node};
    }

    method Visit(node: Node)
      requires Valid() && node in Nodes(graph)
      requires visiting != [] ==> node in Targets(graph, visiting[|visiting| - 1])
      modifies this
      ensures Valid() && visiting == old(visiting)
      ensures old(visited) <= visited && old(cycles) <= cycles
      ensures node in visited || (visiting != [] && Closes(cycles, visiting[|visiting| - 1], node))
      decreases Unseen(), 0
    {
      if node in visiting {
        Report(node);
        return;
      }
      if node in visited {
        return;
      }
      assert node in Unseen();
      Enter(node);
      assert Unseen() <= old(Unseen()) - {node} by {
        assert node in visiting && forall n | n in old(visiting) :: n in visiting;
      }
      VisitTargets(node);
      Leave(node);
    }

    method VisitTargets(node: Node)
      requires Valid() && visiting != [] && visiting[|visiting| - 1] == node
      modifies this
      ensures Valid() && visiting == old(visiting)
      ensures old(visited) <= visited && old(cycles) <= cycles
      ensures forall t | t in Targets(graph, node) :: t in visited || Closes(cycles, node, t)
      decreases Unseen(), 1
    {
      var targets := Targets(graph, node);
      TargetsAreNodes(graph, node);
      for i := 0 to |targets|
        invariant Valid() && visiting == old(visiting)
        invariant old(visited) <= visited && old(cycles) <= cycles
        invariant DealtWith(visited, cycles, node, targets[..i])
      {
        ghost var met, before := visited, cycles;
        assert Unseen() <= old(Unseen());
        Visit(targets[i]);
        DealtStays(met, before, visited, cycles, node, targets, i);
      }
    }
  }

  lemma TargetsAreNodes(g: Graph, n: Node)
    ensures forall t | t in Targets(g, n) :: t in Nodes(g)
  {
  }

  /** Every list returned is a real cycle without interior repeats; every closed
      path of the graph uses the closing edge of a returned cycle; and so the
      result is empty exactly when the graph has no cycle. `keys` is the order in
      which the graph's keys are iterated. */
  method FindCycles(keys: seq<Node>, graph: Graph) returns (cycles: seq<seq<Node>>)
    requires (set n | n in keys) == graph.Keys
    ensures forall c | c in cycles :: SimpleCycle(graph, c)
    ensures forall p | ClosedPath(graph, p) :: exists i | 0 <= i < |p| - 1 :: Closes(cycles, p[i], p[i + 1])
    ensures cycles == [] <==> Acyclic(graph)
  {
    var finder := new CycleFinder(graph);
    for i := 0 to |keys|
      invariant finder.Valid() && finder.graph == graph && finder.visiting == []
      invariant fresh(finder)
      invariant forall k | 0 <= k < i :: keys[k] in finder.visited
    {
      assert keys[i] in graph.Keys;
      finder.Visit(keys[i]);
    }
    cycles := finder.cycles;
    forall p | ClosedPath(graph, p)
      ensures exists i | 0 <= i < |p| - 1 :: Closes(cycles, p[i], p[i + 1])
    {
      EveryClosedPathIsBroken(graph, cycles, finder.finished, p);
    }
    if cycles != [] {
      assert cycles[0] in cycles;
      assert ClosedPath(graph, cycles[0]);
    }
  }
}
