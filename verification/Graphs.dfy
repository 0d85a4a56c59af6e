/** The graph checks of the proof verifier: reachability and acyclicity
    (backend/src/verilogic_ns_api/reasoning/verifier.py, from line 337). */
module Graphs {
  import opened Logic

  type Graph = map<string, seq<string>>

  datatype GraphFault = Dangling(node: string) | Cycle(node: string)

  ghost predicate Edge(graph: Graph, a: string, b: string) {
    a in graph && b in graph[a]
  }

  ghost predicate IsPath(graph: Graph, p: seq<string>) {
    p != [] && forall i :: 0 <= i < |p| - 1 ==> Edge(graph, p[i], p[i + 1])
  }

  ghost predicate PathBetween(graph: Graph, p: seq<string>, a: string, b: string) {
    IsPath(graph, p) && p[0] == a && p[|p| - 1] == b
  }

  ghost predicate ReachableFrom(graph: Graph, roots: seq<string>, n: string) {
    exists r, p :: r in roots && PathBetween(graph, p, r, n)
  }

  ghost predicate OnCycle(graph: Graph, n: string) {
    exists p :: PathBetween(graph, p, n, n) && |p| >= 2
  }

  ghost predicate NoDangling(graph: Graph) {
    forall a, b :: Edge(graph, a, b) ==> b in graph
  }

  ghost predicate Acyclic(graph: Graph) {
    forall n :: !OnCycle(graph, n)
  }

  lemma RootReachable(graph: Graph, roots: seq<string>, r: string)
    requires r in roots
    ensures ReachableFrom(graph, roots, r)
  {
    assert PathBetween(graph, [r], r, r);
  }

  lemma StepReachable(graph: Graph, roots: seq<string>, a: string, b: string)
    requires ReachableFrom(graph, roots, a) && Edge(graph, a, b)
    ensures ReachableFrom(graph, roots, b)
  {
    var r, p :| r in roots && PathBetween(graph, p, r, a);
    assert PathBetween(graph, p + [b], r, b);
  }

  ghost predicate ClosedUnder(graph: Graph, s: set<string>) {
    forall a, b :: a in s && Edge(graph, a, b) ==> b in s
  }

  /** A path that starts in a closed set stays in it. */
  lemma {:induction false} PathStaysInside(graph: Graph, s: set<string>, p: seq<string>, i: nat)
    requires ClosedUnder(graph, s) && IsPath(graph, p) && p[0] in s && i < |p|
    ensures p[i] in s
  {
    if i > 0 {
      PathStaysInside(graph, s, p, i - 1);
      assert Edge(graph, p[i - 1], p[i]);
    }
  }

  lemma ReachableInside(graph: Graph, roots: seq<string>, s: set<string>, n: string)
    requires ClosedUnder(graph, s) && (forall r :: r in roots ==> r in s) && ReachableFrom(graph, roots, n)
    ensures n in s
  {
    var r, p :| r in roots && PathBetween(graph, p, r, n);
    PathStaysInside(graph, s, p, |p| - 1);
  }

  /** The search has seen `reachable` and has `stack` left to see. */
  ghost predicate Exploring(graph: Graph, roots: seq<string>, reachable: set<string>, stack: seq<string>) {
    && (forall n :: n in stack ==> ReachableFrom(graph, roots, n))
    && (forall n :: n in reachable ==> n in graph && ReachableFrom(graph, roots, n))
    && (forall n :: n in roots ==> n in reachable || n in stack)
    && (forall a, b :: a in reachable && Edge(graph, a, b) ==> b in reachable || b in stack)
  }

  lemma ExploringStart(graph: Graph, roots: seq<string>)
    ensures Exploring(graph, roots, {}, roots)
  {
    hide ReachableFrom;
    forall n | n in roots ensures ReachableFrom(graph, roots, n) {
      RootReachable(graph, roots, n);
    }
  }

  lemma ExploringSkip(graph: Graph, roots: seq<string>, reachable: set<string>, rest: seq<string>, n: string)
    requires Exploring(graph, roots, reachable, rest + [n])
    ensures ReachableFrom(graph, roots, n)
    ensures n in reachable ==> Exploring(graph, roots, reachable, rest)
  {
    hide ReachableFrom, Edge;
    assert n in rest + [n];
    assert forall m :: m in rest + [n] <==> m in rest || m == n;
  }

  lemma ExploringVisit(graph: Graph, roots: seq<string>, reachable: set<string>, rest: seq<string>, n: string)
    requires Exploring(graph, roots, reachable, rest + [n]) && n in graph
    ensures Exploring(graph, roots, reachable + {n}, rest + graph[n])
  {
    hide ReachableFrom;
    assert n in rest + [n];
    assert forall m :: m in rest + [n] <==> m in rest || m == n;
    forall b | b in graph[n] ensures ReachableFrom(graph, roots, b) {
      StepReachable(graph, roots, n, b);
    }
  }

  lemma ExploringDone(graph: Graph, roots: seq<string>, reachable: set<string>)
    requires Exploring(graph, roots, reachable, [])
    ensures forall n :: n in reachable <==> ReachableFrom(graph, roots, n)
    ensures forall n :: ReachableFrom(graph, roots, n) ==> n in graph
  {
    hide ReachableFrom, Edge;
    forall n | ReachableFrom(graph, roots, n) ensures n in reachable {
      ReachableInside(graph, roots, reachable, n);
    }
  }

  /** `_reachable_nodes`: the nodes reachable from the roots, or a reachable id that is no node. */
  method ReachableNodes(graph: Graph, roots: seq<string>) returns (r: Result<set<string>, GraphFault>)
    ensures r.Ok? ==> forall n :: n in r.value <==> ReachableFrom(graph, roots, n)
    ensures r.Ok? <==> forall n :: ReachableFrom(graph, roots, n) ==> n in graph
    ensures r.Err? ==> r.error.Dangling? && ReachableFrom(graph, roots, r.error.node) && r.error.node !in graph
  {
    hide Exploring, ReachableFrom;
    var reachable: set<string> := {};
    var stack := roots;
    ExploringStart(graph, roots);
    while stack != []
      invariant Exploring(graph, roots, reachable, stack)
      decreases graph.Keys - reachable, |stack|
    {
      var nodeId := stack[|stack| - 1];
      var rest := stack[..|stack| - 1];
      assert stack == rest + [nodeId];
      ExploringSkip(graph, roots, reachable, rest, nodeId);
      stack := rest;
      if nodeId in reachable {
        continue;
      }
      if nodeId !in graph {
        return Err(Dangling(nodeId));
      }
      ExploringVisit(graph, roots, reachable, rest, nodeId);
      reachable := reachable + {nodeId};
      stack := stack + graph[nodeId];
    }
    ExploringDone(graph, roots, reachable);
    return Ok(reachable);
  }

  /** The depth-first search of `_assert_acyclic`, with the two sets its nested function shares. */
  class CycleCheck {
    const graph: Graph
    var visiting: set<string>
    var visited: set<string>

    constructor (graph: Graph)
      ensures this.graph == graph && visiting == {} && visited == {} && Valid()
    {
      this.graph := graph;
      visiting, visited := {}, {};
    }

    /** Finished nodes are closed under edges and lie on no cycle. */
    ghost predicate Valid()
      reads this
    {
      && visiting <= graph.Keys
      && visited <= graph.Keys
      && visiting !! visited
      && ClosedUnder(graph, visited)
      && forall n :: n in visited ==> !OnCycle(graph, n)
    }

    ghost predicate IsFault(fault: GraphFault)
    {
      match fault
      case Cycle(n) => OnCycle(graph, n)
      case Dangling(n) => n !in graph && exists a :: Edge(graph, a, n)
    }

    /** `visit`; `path` is the chain of calls that led here, the nodes of `visiting` in order. */
    method Visit(nodeId: string, ghost path: seq<string>) returns (r: Result<(), GraphFault>)
      requires Valid() && nodeId in graph
      requires IsPath(graph, path + [nodeId]) && forall n :: n in visiting <==> n in path
      modifies this
      ensures r.Ok? ==> Valid() && visiting == old(visiting) && old(visited) <= visited && nodeId in visited
      ensures r.Err? ==> IsFault(r.error)
      decreases graph.Keys - visiting
    {
      if nodeId in visiting {
        ghost var i :| 0 <= i < |path| && path[i] == nodeId;
        ghost var loop := (path + [nodeId])[i..];
        assert PathBetween(graph, loop, nodeId, nodeId) by {
          forall j | 0 <= j < |loop| - 1 ensures Edge(graph, loop[j], loop[j + 1]) {
            assert Edge(graph, (path + [nodeId])[i + j], (path + [nodeId])[i + j + 1]);
          }
        }
        return Err(Cycle(nodeId));
      }
      if nodeId in visited {
        return Ok(());
      }
      visiting := visiting + {nodeId};
      var children := graph[nodeId];
      for i := 0 to |children|
        invariant Valid() && visiting == old(visiting) + {nodeId} && old(visited) <= visited
        invariant forall j :: 0 <= j < i ==> children[j] in visited
      {
        var child := children[i];
        assert Edge(graph, nodeId, child);
        if child !in graph {
          return Err(Dangling(child));
        }
        ghost var longer := path + [nodeId];
        assert IsPath(graph, longer + [child]);
        var inner := Visit(child, longer);
        if inner.Err? {
          return inner;
        }
      }
      if OnCycle(graph, nodeId) {
        ghost var p :| PathBetween(graph, p, nodeId, nodeId) && |p| >= 2;
        assert Edge(graph, p[0], p[1]);
        ghost var tail := p[1..];
        assert IsPath(graph, tail) by {
          forall j | 0 <= j < |tail| - 1 ensures Edge(graph, tail[j], tail[j + 1]) {
            assert Edge(graph, p[j + 1], p[j + 2]);
          }
        }
        PathStaysInside(graph, visited, tail, |tail| - 1);
        assert false;
      }
      visiting := visiting - {nodeId};
      visited := visited + {nodeId};
      return Ok(());
    }
  }

  /** `_assert_acyclic`: succeeds exactly on graphs with no cycle and no dangling reference. */
  method AssertAcyclic(graph: Graph) returns (r: Result<(), GraphFault>)
    ensures r.Ok? <==> Acyclic(graph) && NoDangling(graph)
    ensures r.Err? ==> match r.error
                         case Cycle(n) => OnCycle(graph, n)
                         case Dangling(n) => n !in graph && exists a :: Edge(graph, a, n)
  {
    var check := new CycleCheck(graph);
    var rest := graph.Keys;
    while rest != {}
      invariant check.graph == graph && check.Valid() && check.visiting == {} && fresh(check)
      invariant rest <= graph.Keys && forall n :: n in graph && n !in rest ==> n in check.visited
    {
      var nodeId :| nodeId in rest;
      rest := rest - {nodeId};
      assert IsPath(graph, [] + [nodeId]);
      var visit := check.Visit(nodeId, []);
      if visit.Err? {
        return visit;
      }
    }
    forall n ensures !OnCycle(graph, n) {
      if p :| PathBetween(graph, p, n, n) && |p| >= 2 {
        assert Edge(graph, p[0], p[1]);
      }
    }
    return Ok(());
  }

  /** Edges that always lower a rank leave no room for a cycle. */
  lemma {:induction false} RankFalls(graph: Graph, rank: string -> int, p: seq<string>, i: nat)
    requires forall a, b :: Edge(graph, a, b) ==> rank(b) < rank(a)
    requires IsPath(graph, p) && 0 < i < |p|
    ensures rank(p[i]) < rank(p[0])
  {
    assert Edge(graph, p[i - 1], p[i]);
    if i > 1 {
      RankFalls(graph, rank, p, i - 1);
    }
  }

  lemma RankedIsAcyclic(graph: Graph, rank: string -> int)
    requires forall a, b :: Edge(graph, a, b) ==> rank(b) < rank(a)
    ensures Acyclic(graph)
  {
    forall n ensures !OnCycle(graph, n) {
      if p :| PathBetween(graph, p, n, n) && |p| >= 2 {
        RankFalls(graph, rank, p, |p| - 1);
      }
    }
  }
}
