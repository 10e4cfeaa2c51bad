/** The cycle check of DependencyResolver::beginResolve: a depth-first search that returns from inside the first
    iteration of its loop over predecessors, and shares its visited set between all starting nodes. */
module CycleChecks {
  import opened Options
  import opened Graphs
  import opened DirectedGraphs
  import opened FirstPredecessors

  /** The nodes one traversal went through so far; none of them was visited by an earlier traversal. */
  ghost predicate IsChain<E>(g: Graph<E>, before: set<nat>, chain: seq<nat>) {
    && FirstClosed(g, before)
    && Distinct(chain)
    && (forall i | 0 <= i < |chain| :: chain[i] !in before)
    && (forall i {:trigger First(g, chain[i])} | 0 <= i < |chain| - 1 :: First(g, chain[i]) == Some(chain[i + 1]))
  }

  /** `node` is where the traversal goes on. */
  ghost predicate LeadsTo<E>(g: Graph<E>, chain: seq<nat>, node: nat) {
    chain == [] || First(g, chain[|chain| - 1]) == Some(node)
  }

  ghost function Elements(s: seq<nat>): set<nat> {
    set n | n in s
  }

  lemma {:induction false} ChainIterates<E>(g: Graph<E>, before: set<nat>, chain: seq<nat>, i: nat, k: nat)
    requires IsChain(g, before, chain) && i <= k < |chain|
    ensures Iterate(g, chain[i], k - i) == Some(chain[k])
    decreases k - i
  {
    if i < k {
      assert First(g, chain[i]) == Some(chain[i + 1]);
      ChainIterates(g, before, chain, i + 1, k);
    }
  }

  /** The chain from m on is closed if its end leads into it, into what was visited before, or nowhere. */
  lemma TailClosed<E>(g: Graph<E>, before: set<nat>, chain: seq<nat>, m: nat)
    requires IsChain(g, before, chain) && m <= |chain|
    requires m < |chain| && First(g, chain[|chain| - 1]).Some? ==>
               First(g, chain[|chain| - 1]).value in before + Elements(chain[m..])
    ensures FirstClosed(g, before + Elements(chain[m..]))
  {
    forall n | n in before + Elements(chain[m..]) && First(g, n).Some?
      ensures First(g, n).value in before + Elements(chain[m..])
    {
      if n !in before {
        var k :| 0 <= k < |chain[m..]| && chain[m..][k] == n;
        if m + k < |chain| - 1 {
          assert First(g, chain[m + k]) == Some(chain[m + k + 1]);
          assert chain[m..][k + 1] == chain[m + k + 1];
        }
      }
    }
  }

  /** A chain element from which the traversal never comes back is on no cycle. */
  lemma PassedForGood<E>(g: Graph<E>, before: set<nat>, chain: seq<nat>, m: nat)
    requires IsChain(g, before, chain) && m < |chain|
    requires First(g, chain[|chain| - 1]).Some? ==>
               First(g, chain[|chain| - 1]).value in before + Elements(chain[m + 1..])
    ensures !OnFirstCycle(g, chain[m])
  {
    if OnFirstCycle(g, chain[m]) {
      var k: nat :| k > 0 && Iterate(g, chain[m], k) == Some(chain[m]);
      TailClosed(g, before, chain, m + 1);
      if m < |chain| - 1 { assert chain[m + 1..][0] == chain[m + 1]; }
      IterateStays(g, before + Elements(chain[m + 1..]), First(g, chain[m]).value, k - 1);
    }
  }

  /** The traversal ends at a node of an earlier one, or at a root: it met no cycle. */
  lemma EndOutside<E>(g: Graph<E>, before: set<nat>, chain: seq<nat>)
    requires IsChain(g, before, chain)
    requires chain != [] && First(g, chain[|chain| - 1]).Some? ==> First(g, chain[|chain| - 1]).value in before
    ensures FirstClosed(g, before + Elements(chain))
    ensures forall n | n in Elements(chain) :: !OnFirstCycle(g, n)
    ensures Verdict(g, before, before + Elements(chain), None, 0, 0)
  {
    TailClosed(g, before, chain, 0);
    assert chain[0..] == chain;
    forall m | 0 <= m < |chain| ensures !OnFirstCycle(g, chain[m]) {
      PassedForGood(g, before, chain, m);
    }
  }

  /** The traversal comes back to one of its own nodes: the chain from there on is a cycle, the part before is on none. */
  lemma EndInside<E>(g: Graph<E>, before: set<nat>, chain: seq<nat>, i: nat)
    requires IsChain(g, before, chain) && i < |chain| && LeadsTo(g, chain, chain[i])
    ensures FirstClosed(g, before + Elements(chain))
    ensures OnFirstCycle(g, chain[|chain| - 1])
    ensures forall n | n in Elements(chain) && OnFirstCycle(g, n) :: Meets(g, n, chain[|chain| - 1])
  {
    var last := |chain| - 1;
    TailClosed(g, before, chain, 0);
    assert chain[0..] == chain;
    ChainIterates(g, before, chain, i, last);
    assert Iterate(g, chain[last], 1 + (last - i)) == Some(chain[last]);
    forall m | 0 <= m < |chain| && OnFirstCycle(g, chain[m]) ensures Meets(g, chain[m], chain[last]) {
      if m < i {
        assert chain[m + 1..][i - m - 1] == chain[i];
        PassedForGood(g, before, chain, m);
      }
      ChainIterates(g, before, chain, m, last);
    }
  }

  /** What one traversal found out about the nodes it visited first. */
  ghost predicate Verdict<E>(g: Graph<E>, before: set<nat>, after: set<nat>, item: Option<E>, a: nat, b: nat) {
    && FirstClosed(g, after) && before <= after
    && match item
       case None => forall n | n in after - before :: !OnFirstCycle(g, n)
       case Some(info) =>
         && b in after - before && Reports(g, info, a, b)
         && forall n | n in after - before && OnFirstCycle(g, n) :: Meets(g, n, b)
  }

  /** `info` is the item that `edge(a, b)` returns, and the edge from a to b is on a cycle of first predecessors. */
  ghost predicate Reports<E>(g: Graph<E>, info: E, a: nat, b: nat) {
    && First(g, b) == Some(a) && OnFirstCycle(g, b)
    && Infos(g.edges, a, b) != [] && info == Infos(g.edges, a, b)[0]
  }

  lemma InsideVerdict<E>(g: Graph<E>, before: set<nat>, chain: seq<nat>, node: nat)
    requires IsChain(g, before, chain) && LeadsTo(g, chain, node) && node in chain
    ensures HasEdge(g, node, chain[|chain| - 1]) && Infos(g.edges, node, chain[|chain| - 1]) != []
    ensures Verdict(g, before, before + Elements(chain), Some(Infos(g.edges, node, chain[|chain| - 1])[0]),
                    node, chain[|chain| - 1])
  {
    var i :| 0 <= i < |chain| && chain[i] == node;
    EndInside(g, before, chain, i);
    PredsAreEdges(g, node, chain[|chain| - 1]);
  }

  lemma ChainGrows<E>(g: Graph<E>, before: set<nat>, chain: seq<nat>, node: nat)
    requires IsChain(g, before, chain) && LeadsTo(g, chain, node) && node !in chain && node !in before
    ensures IsChain(g, before, chain + [node])
    ensures Elements(chain + [node]) == Elements(chain) + {node}
  {
  }

  class CycleCheck<E> {
    const graph: DirectedGraph<E>
    var visitedNodes: set<nat>
    var markedNodes: set<nat>

    constructor (graph: DirectedGraph<E>)
      ensures this.graph == graph && visitedNodes == {}
    {
      this.graph := graph;
      visitedNodes, markedNodes := {}, {};
    }

    method CyclicDependency(successor: Option<nat>, node: nat, ghost chain: seq<nat>, ghost before: set<nat>)
        returns (item: Option<E>, ghost a: nat, ghost b: nat)
      requires graph.Valid() && Closed(graph.value) && node in graph.value.nodes
      requires IsChain(graph.value, before, chain) && LeadsTo(graph.value, chain, node)
      requires markedNodes == Elements(chain) && visitedNodes == before + Elements(chain)
      requires successor == if chain == [] then None else Some(chain[|chain| - 1])
      modifies this
      ensures Verdict(graph.value, before, visitedNodes, item, a, b)
      ensures old(visitedNodes) + {node} <= visitedNodes
      decreases Elements(graph.value.nodes) - visitedNodes
    {
      ghost var g := graph.value;
      a, b := 0, 0;
      if node in markedNodes {
        InsideVerdict(g, before, chain, node);
        a, b := node, successor.value;
        return Some(graph.TheEdge(node, successor.value)), a, b;
      }
      markedNodes := markedNodes + {node};
      if node in visitedNodes {
        EndOutside(g, before, chain);
        return None, a, b;
      }
      visitedNodes := visitedNodes + {node};
      ghost var longer := chain + [node];
      ChainGrows(g, before, chain, node);
      assert visitedNodes == before + Elements(longer);
      var preds := graph.Predecessors(node);
      if preds != [] {
        PredsAreEdges(g, preds[0], node);
        EndpointsIn(g, preds[0], node);
        item, a, b := CyclicDependency(Some(node), preds[0], longer, before);
        return;
      }
      EndOutside(g, before, longer);
      return None, a, b;
    }

    /** The loop over all starting nodes: every cycle of the first-predecessor relation is reported, once,
        and nothing else is. `at` says which edge each report is about. */
    method Check() returns (reports: seq<E>, ghost at: seq<(nat, nat)>)
      requires graph.Valid() && Closed(graph.value) && visitedNodes == {}
      modifies this
      ensures AllReported(graph.value, reports, at)
      ensures AllCyclesReported(graph.value, at)
    {
      ghost var g := graph.value;
      reports, at := [], [];
      var nodes := graph.nodes;
      for i := 0 to |nodes|
        invariant g == graph.value && graph.Valid() && nodes == g.nodes
        invariant forall k | 0 <= k < i :: nodes[k] in visitedNodes
        invariant Progress(g, visitedNodes, reports, at)
      {
        markedNodes := {};
        ghost var before := visitedNodes;
        var dependsItem, a, b := CyclicDependency(None, nodes[i], [], before);
        TraversalKeeps(g, before, visitedNodes, reports, at, dependsItem, a, b);
        if dependsItem.Some? {
          reports, at := reports + [dependsItem.value], at + [(a, b)];
        }
      }
    }
  }

  /** Every report is about an edge on a cycle, and no two are about the same cycle. */
  ghost predicate AllReported<E>(g: Graph<E>, reports: seq<E>, at: seq<(nat, nat)>) {
    && |reports| == |at|
    && (forall i | 0 <= i < |at| :: Reports(g, reports[i], at[i].0, at[i].1))
    && forall i, j | 0 <= i < j < |at| :: !Meets(g, at[i].1, at[j].1)
  }

  /** Some report is about the cycle that n is on. */
  ghost predicate ReportedFor<E>(g: Graph<E>, at: seq<(nat, nat)>, n: nat) {
    exists i :: 0 <= i < |at| && Meets(g, n, at[i].1)
  }

  ghost predicate AllCyclesReported<E>(g: Graph<E>, at: seq<(nat, nat)>) {
    forall n {:trigger ReportedFor(g, at, n)} | n in g.nodes && OnFirstCycle(g, n) :: ReportedFor(g, at, n)
  }

  /** Every cycle that was visited is reported. */
  ghost predicate Progress<E>(g: Graph<E>, visited: set<nat>, reports: seq<E>, at: seq<(nat, nat)>) {
    && FirstClosed(g, visited) && AllReported(g, reports, at)
    && (forall k | 0 <= k < |at| :: at[k].1 in visited)
    && forall n {:trigger ReportedFor(g, at, n)} | n in visited && OnFirstCycle(g, n) :: ReportedFor(g, at, n)
  }

  lemma TraversalKeeps<E>(g: Graph<E>, before: set<nat>, after: set<nat>, reports: seq<E>, at: seq<(nat, nat)>,
                          item: Option<E>, a: nat, b: nat)
    requires Progress(g, before, reports, at) && Verdict(g, before, after, item, a, b)
    ensures item.None? ==> Progress(g, after, reports, at)
    ensures item.Some? ==> Progress(g, after, reports + [item.value], at + [(a, b)])
  {
    if item.Some? {
      var longer := at + [(a, b)];
      forall i | 0 <= i < |at| ensures !Meets(g, at[i].1, b) {
        if Meets(g, at[i].1, b) {
          var k: nat :| Iterate(g, at[i].1, k) == Some(b);
          IterateStays(g, before, at[i].1, k);
        }
      }
      forall n | n in after && OnFirstCycle(g, n) ensures ReportedFor(g, longer, n) {
        if n in before {
          assert ReportedFor(g, at, n);
          var i :| 0 <= i < |at| && Meets(g, n, at[i].1);
          assert longer[i] == at[i];
        } else {
          assert longer[|at|].1 == b;
        }
      }
    }
  }

  // ------------------------------------------------- what the check decides

  /** For every graph: silence means that following first-listed predecessors ends in a root from every node.
      A report always means a cycle. */
  lemma CheckDecidesFirstCycles<E>(g: Graph<E>, reports: seq<E>, at: seq<(nat, nat)>)
    requires Closed(g) && AllReported(g, reports, at)
    requires AllCyclesReported(g, at)
    ensures reports == [] <==> forall n :: !OnFirstCycle(g, n)
    ensures Acyclic(g) ==> reports == []
    ensures SinglePredecessors(g) ==> (Acyclic(g) <==> reports == [])
  {
    if reports != [] {
      assert Reports(g, reports[0], at[0].0, at[0].1);
      FirstCycleIsCycle(g, at[0].1);
    } else {
      forall n ensures !OnFirstCycle(g, n) {
        assert !ReportedFor(g, at, n);
        if OnFirstCycle(g, n) {
          PredsAreEdges(g, First(g, n).value, n);
          EndpointsIn(g, First(g, n).value, n);
        }
      }
    }
    if SinglePredecessors(g) { SingleCyclesAreFirstCycles(g); }
  }

  /** A cycle that the check does not see: testcases 0 and 1 depend on each other, and 0 depends on 2 as well,
      by the Depends item that comes last. */
  lemma MissedCycle(info: nat) returns (g: Graph<nat>)
    ensures Closed(g) && !Acyclic(g) && forall n :: !OnFirstCycle(g, n)
  {
    g := Graph([0, 1, 2], [Edge(0, 1, info), Edge(1, 0, info), Edge(2, 0, info)]);
    assert Inside(g, 0) && Inside(g, 1) && Inside(g, 2);
    assert Joins(g.edges[0], 0, 1) && Joins(g.edges[1], 1, 0);
    assert HasEdge(g, 0, 1) && HasEdge(g, 1, 0);
    var w := [0, 1, 0];
    assert IsClosedWalk(g, w);
    forall n: nat ensures !OnFirstCycle(g, n) {
      MissedFirsts(g, n);
      var s := if n == 0 then {2} else if n == 1 then {0, 2} else {};
      if OnFirstCycle(g, n) {
        var k: nat :| k > 0 && Iterate(g, n, k) == Some(n);
        MissedFirsts(g, 0);
        MissedFirsts(g, 2);
        IterateStays(g, s, First(g, n).value, k - 1);
      }
    }
  }

  lemma MissedFirsts(g: Graph<nat>, n: nat)
    requires |g.edges| == 3 && g.edges[0].succ == 1 && g.edges[1].succ == g.edges[2].succ == 0
    requires g.edges[0].pred == 0 && g.edges[1].pred == 1 && g.edges[2].pred == 2
    ensures First(g, n) == if n == 0 then Some(2) else if n == 1 then Some(0) else None
  {
    var two := g.edges[..2];
    var one := two[..1];
    assert one[..0] == [];
    assert Preds(one, n) == if n == 1 then [0] else [];
    assert Preds(two, n) == (if n == 0 then [1] else []) + Preds(one, n);
  }
}
