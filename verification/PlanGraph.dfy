/** Dependency graphs of query plans, and the depth-first search that rejects cyclic ones
    (agent/ask_plan_validator.py). An edge leads from a unit to a unit it depends on. */
module PlanGraph {
  import opened Ordering

  type Id = string
  type Graph = map<Id, set<Id>>

  ghost predicate Edge(g: Graph, a: Id, b: Id) {
    a in g && b in g[a]
  }

  ghost predicate IsPath(g: Graph, p: seq<Id>) {
    p != [] && forall k :: 0 <= k < |p| - 1 ==> Edge(g, p[k], p[k + 1])
  }

  /** `p` starts at `a`, ends at `b` and follows at least one edge. */
  ghost predicate Leads(g: Graph, p: seq<Id>, a: Id, b: Id) {
    |p| >= 2 && IsPath(g, p) && p[0] == a && p[|p| - 1] == b
  }

  ghost predicate OnCycle(g: Graph, a: Id) {
    exists p :: Leads(g, p, a, a)
  }

  /** Every node of a cycle has outgoing edges, so a cycle only visits known ids. */
  ghost predicate Cyclic(g: Graph) {
    exists a :: OnCycle(g, a)
  }

  lemma PathStep(g: Graph, p: seq<Id>, a: Id, b: Id, c: Id)
    requires (p == [a] && a == b) || Leads(g, p, a, b)
    requires Edge(g, b, c)
    ensures Leads(g, p + [c], a, c)
  {
  }

  /** `order` lists nodes so that every edge leads to an earlier entry or outside the graph. */
  ghost predicate TopoOrder(g: Graph, order: seq<Id>) {
    && Distinct(order)
    && (forall k :: 0 <= k < |order| ==> order[k] in g)
    && (forall k, b :: 0 <= k < |order| && Edge(g, order[k], b) && b in g ==> b in order[..k])
  }

  /** Along a path inside the graph, positions in a topological order strictly fall. */
  lemma {:induction false} PathDescends(g: Graph, order: seq<Id>, p: seq<Id>, i: nat)
    requires TopoOrder(g, order) && IsPath(g, p) && p[|p| - 1] in g
    requires i < |order| && p[0] == order[i]
    ensures |p| >= 2 ==> p[|p| - 1] in order[..i]
    ensures p[|p| - 1] in order[..i + 1]
    decreases |p|
  {
    if |p| >= 2 {
      assert Edge(g, p[0], p[1]);
      var rest := p[1..];
      assert p[1] in g by {
        if |p| > 2 { assert Edge(g, p[1], p[2]); }
      }
      var k :| 0 <= k < i && order[k] == p[1];
      assert IsPath(g, rest) by {
        forall j | 0 <= j < |rest| - 1 ensures Edge(g, rest[j], rest[j + 1]) {
          assert Edge(g, p[j + 1], p[j + 2]);
        }
      }
      PathDescends(g, order, rest, k);
    }
  }

  /** No listed node lies on a cycle. */
  lemma TopoOrderExcludesCycles(g: Graph, order: seq<Id>, a: Id)
    requires TopoOrder(g, order) && a in order
    ensures !OnCycle(g, a)
  {
    var i :| 0 <= i < |order| && order[i] == a;
    forall p ensures !Leads(g, p, a, a) {
      if Leads(g, p, a, a) {
        PathDescends(g, order, p, i);
        assert false;
      }
    }
  }

  /** What holds between visits: `finished` is a topological order of the nodes left for good. */
  ghost predicate Clean(g: Graph, visited: set<Id>, active: set<Id>, finished: seq<Id>) {
    && active <= visited <= g.Keys
    && TopoOrder(g, finished)
    && (forall x :: x in finished <==> x in visited && x !in active)
  }

  /** Every node on the search stack leads to `node`. */
  ghost predicate StackLeadsTo(g: Graph, active: set<Id>, node: Id) {
    forall a :: a in active ==> exists p :: Leads(g, p, a, node)
  }

  lemma StackGrows(g: Graph, active: set<Id>, node: Id, parent: Id)
    requires StackLeadsTo(g, active, node) && Edge(g, node, parent)
    ensures StackLeadsTo(g, active + {node}, parent)
  {
    forall a | a in active + {node} ensures exists p :: Leads(g, p, a, parent) {
      if a == node {
        PathStep(g, [node], node, node, parent);
      } else {
        var p :| Leads(g, p, a, node);
        PathStep(g, p, a, node, parent);
      }
    }
  }

  /** A node all of whose known dependencies are finished may be finished next. */
  lemma Finish(g: Graph, visited: set<Id>, stack: set<Id>, finished: seq<Id>, node: Id)
    requires Clean(g, visited, stack + {node}, finished) && node !in stack
    requires node in g
    requires forall b :: b in g[node] && b in g ==> b in finished
    ensures Clean(g, visited, stack, finished + [node])
  {
    var after := finished + [node];
    assert node !in finished;
    forall k, b | 0 <= k < |after| && Edge(g, after[k], b) && b in g ensures b in after[..k] {
      if k < |finished| {
        assert after[..k] == finished[..k];
      } else {
        assert after[..k] == finished;
      }
    }
  }

  /** The closure variables of the search: both sets are shared by every root. */
  class CycleSearch {
    const graph: Graph
    var visited: set<Id>
    var active: set<Id>
    /** Nodes whose visit returned False, in the order of returning. */
    ghost var finished: seq<Id>

    constructor (graph: Graph)
      ensures this.graph == graph && visited == {} && active == {} && finished == []
    {
      this.graph := graph;
      visited, active, finished := {}, {}, [];
    }

    /** Whether a cycle is reachable through `node` from the current search stack. */
    method Visit(node: Id) returns (found: bool)
      requires Clean(graph, visited, active, finished) && node in graph
      requires StackLeadsTo(graph, active, node)
      modifies this
      ensures active == old(active)
      ensures found ==> Cyclic(graph)
      ensures !found ==> Clean(graph, visited, active, finished)
      ensures !found ==> old(visited) <= visited && old(finished) <= finished && node in finished
      decreases |graph.Keys - visited|, 0
    {
      if node in active {
        assert OnCycle(graph, node);
        return true;
      }
      if node in visited {
        return false;
      }
      visited := visited + {node};
      active := active + {node};
      Smaller(graph.Keys - visited, graph.Keys - old(visited), node);
      found := VisitParents(node, old(active));
      active := active - {node};
      assert active == old(active);
      if !found {
        Finish(graph, visited, active, finished, node);
        finished := finished + [node];
      }
    }

    /** any(visit(parent) for parent in graph[node] if parent in graph), with `node` on the stack. */
    method VisitParents(node: Id, ghost below: set<Id>) returns (found: bool)
      requires Clean(graph, visited, active, finished) && node in graph
      requires active == below + {node} && StackLeadsTo(graph, below, node)
      modifies this
      ensures active == old(active)
      ensures found ==> Cyclic(graph)
      ensures !found ==> Clean(graph, visited, active, finished)
      ensures !found ==> old(visited) <= visited && old(finished) <= finished
      ensures !found ==> forall b :: b in graph[node] && b in graph ==> b in finished
      decreases |graph.Keys - visited|, 1
    {
      var parents := graph[node];
      found := false;
      while parents != {} && !found
        invariant parents <= graph[node]
        invariant active == old(active)
        invariant found ==> Cyclic(graph)
        invariant !found ==> Clean(graph, visited, active, finished)
        invariant !found ==> old(visited) <= visited && old(finished) <= finished
        invariant !found ==> forall b :: b in graph[node] && b in graph ==> b in parents || b in finished
        decreases |parents|
      {
        var parent :| parent in parents;
        parents := parents - {parent};
        if parent in graph {
          StackGrows(graph, below, node, parent);
          SubsetSize(graph.Keys - visited, graph.Keys - old(visited));
          found := Visit(parent);
        }
      }
    }

    /** The root loop: any(visit(node) for node in graph). */
    method Run() returns (found: bool)
      requires visited == {} && active == {} && finished == []
      modifies this
      ensures found <==> Cyclic(graph)
    {
      var roots := graph.Keys;
      found := false;
      while roots != {} && !found
        invariant roots <= graph.Keys
        invariant active == {}
        invariant found ==> Cyclic(graph)
        invariant !found ==> Clean(graph, visited, active, finished) && forall x :: x in graph ==> x in roots || x in finished
        decreases |roots|
      {
        var node :| node in roots;
        roots := roots - {node};
        found := Visit(node);
      }
      if !found {
        forall a ensures !OnCycle(graph, a) {
          if a in graph {
            TopoOrderExcludesCycles(graph, finished, a);
          } else {
            assert forall p :: IsPath(graph, p) && |p| >= 2 ==> Edge(graph, p[0], p[1]);
          }
        }
      }
    }
  }

  lemma Smaller<T>(a: set<T>, b: set<T>, x: T)
    requires a <= b - {x} && x in b
    ensures |a| < |b|
  {
    SubsetSize(a, b - {x});
  }
}
