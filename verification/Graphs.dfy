/** Finite directed multigraphs as values: what DirectedGraph stores, and the walks it admits.
    Nodes are the ids that `qHash` gives them, taken to be injective. */
module Graphs {

  /** One insertEdge call. */
  datatype Edge<E> = Edge(pred: nat, succ: nat, info: E)

  /** The inserted nodes in ascending id order, and the edges in the order of their insertion. */
  datatype Graph<E> = Graph(nodes: seq<nat>, edges: seq<Edge<E>>)

  ghost predicate Ascending(s: seq<nat>) {
    forall i, j | 0 <= i < j < |s| :: s[i] < s[j]
  }

  ghost predicate Distinct<T(!new)>(s: seq<T>) {
    forall i, j | 0 <= i < j < |s| :: s[i] != s[j]
  }

  predicate Joins<E>(e: Edge<E>, a: nat, b: nat) {
    e.pred == a && e.succ == b
  }

  ghost predicate HasEdge<E>(g: Graph<E>, a: nat, b: nat) {
    exists i :: 0 <= i < |g.edges| && Joins(g.edges[i], a, b)
  }

  /** Every edge joins two inserted nodes. */
  ghost predicate Closed<E>(g: Graph<E>) {
    && Ascending(g.nodes)
    && forall i {:trigger Inside(g, i)} | 0 <= i < |g.edges| :: Inside(g, i)
  }

  ghost predicate Inside<E>(g: Graph<E>, i: nat)
    requires i < |g.edges|
  {
    g.edges[i].pred in g.nodes && g.edges[i].succ in g.nodes
  }

  lemma EndpointsIn<E>(g: Graph<E>, a: nat, b: nat)
    requires Closed(g) && HasEdge(g, a, b)
    ensures a in g.nodes && b in g.nodes
  {
    var i :| 0 <= i < |g.edges| && Joins(g.edges[i], a, b);
    assert Inside(g, i);
  }

  /** The predecessors of a node with multiplicity, most recently inserted first. */
  function Preds<E>(edges: seq<Edge<E>>, n: nat): seq<nat> {
    if edges == [] then []
    else
      var e := edges[|edges| - 1];
      (if e.succ == n then [e.pred] else []) + Preds(edges[..|edges| - 1], n)
  }

  /** The successors of a node with multiplicity, most recently inserted first. */
  function Succs<E>(edges: seq<Edge<E>>, n: nat): seq<nat> {
    if edges == [] then []
    else
      var e := edges[|edges| - 1];
      (if e.pred == n then [e.succ] else []) + Succs(edges[..|edges| - 1], n)
  }

  /** The labels of the edges from a to b, most recently inserted first. */
  function Infos<E>(edges: seq<Edge<E>>, a: nat, b: nat): seq<E> {
    if edges == [] then []
    else
      var e := edges[|edges| - 1];
      (if e.pred == a && e.succ == b then [e.info] else []) + Infos(edges[..|edges| - 1], a, b)
  }

  lemma HasEdgeLast<E>(g: Graph<E>, a: nat, b: nat)
    requires g.edges != []
    ensures HasEdge(g, a, b) <==>
            Joins(g.edges[|g.edges| - 1], a, b) || HasEdge(g.(edges := g.edges[..|g.edges| - 1]), a, b)
  {
    var k := |g.edges| - 1;
    if Joins(g.edges[k], a, b) {
      assert HasEdge(g, a, b);
    } else if HasEdge(g.(edges := g.edges[..k]), a, b) {
      var i :| 0 <= i < k && Joins(g.edges[..k][i], a, b);
      assert Joins(g.edges[i], a, b);
    }
  }

  lemma {:induction false} PredsAreEdges<E>(g: Graph<E>, a: nat, b: nat)
    ensures a in Preds(g.edges, b) <==> HasEdge(g, a, b)
    ensures b in Succs(g.edges, a) <==> HasEdge(g, a, b)
    ensures Infos(g.edges, a, b) != [] <==> HasEdge(g, a, b)
    decreases |g.edges|
  {
    if g.edges != [] {
      HasEdgeLast(g, a, b);
      PredsAreEdges(g.(edges := g.edges[..|g.edges| - 1]), a, b);
    }
  }

  // ---------------------------------------------------------------- walks

  /** A non-empty sequence of nodes, each joined to the next by an edge. */
  ghost predicate IsWalk<E>(g: Graph<E>, w: seq<nat>) {
    |w| > 0 && forall i | 0 <= i < |w| - 1 :: HasEdge(g, w[i], w[i + 1])
  }

  ghost predicate IsClosedWalk<E>(g: Graph<E>, w: seq<nat>) {
    IsWalk(g, w) && |w| > 1 && w[0] == w[|w| - 1]
  }

  ghost predicate Acyclic<E>(g: Graph<E>) {
    forall w :: !IsClosedWalk(g, w)
  }

  /** n lies on a cycle or below one: some walk into n visits a node twice. */
  ghost predicate CyclicAncestry<E>(g: Graph<E>, n: nat) {
    exists w, i, k :: IsWalkInto(g, w, n) && 0 <= i < k < |w| && w[i] == w[k]
  }

  ghost predicate IsWalkInto<E>(g: Graph<E>, w: seq<nat>, n: nat) {
    IsWalk(g, w) && w[|w| - 1] == n
  }

  lemma SubWalk<E>(g: Graph<E>, w: seq<nat>, i: nat, k: nat)
    requires IsWalk(g, w) && i < k < |w| && w[i] == w[k]
    ensures IsClosedWalk(g, w[i..k + 1])
  {
    var v := w[i..k + 1];
    forall m | 0 <= m < |v| - 1
      ensures HasEdge(g, v[m], v[m + 1])
    {
      assert HasEdge(g, w[i + m], w[i + m + 1]);
    }
  }

  lemma AcyclicHasNoCyclicAncestry<E>(g: Graph<E>)
    ensures Acyclic(g) <==> forall n :: !CyclicAncestry(g, n)
  {
    if Acyclic(g) {
      forall n ensures !CyclicAncestry(g, n) {
        if CyclicAncestry(g, n) {
          var w, i, k :| IsWalkInto(g, w, n) && 0 <= i < k < |w| && w[i] == w[k];
          SubWalk(g, w, i, k);
        }
      }
    } else {
      var w :| IsClosedWalk(g, w);
      assert IsWalkInto(g, w, w[|w| - 1]);
      assert CyclicAncestry(g, w[|w| - 1]);
    }
  }

  /** Pigeonhole: a walk longer than the set it stays in visits a node twice. */
  lemma {:induction false} Pigeonhole(w: seq<nat>, s: set<nat>) returns (i: nat, k: nat)
    requires forall m | 0 <= m < |w| :: w[m] in s
    requires |w| > |s|
    ensures i < k < |w| && w[i] == w[k]
    decreases |s|
  {
    var last := |w| - 1;
    if m :| 0 <= m < last && w[m] == w[last] {
      return m, last;
    }
    i, k := Pigeonhole(w[..last], s - {w[last]});
  }

  lemma ExtendWalk<E>(g: Graph<E>, w: seq<nat>, n: nat)
    requires IsWalk(g, w) && HasEdge(g, w[|w| - 1], n)
    ensures IsWalkInto(g, w + [n], n)
  {
    var v := w + [n];
    forall i | 0 <= i < |v| - 1
      ensures HasEdge(g, v[i], v[i + 1])
    {
      if i < |w| - 1 { assert HasEdge(g, w[i], w[i + 1]); }
    }
  }

  ghost predicate HasPredIn<E>(g: Graph<E>, s: set<nat>, n: nat) {
    exists a :: a in s && HasEdge(g, a, n)
  }

  ghost predicate NoMinimum<E>(g: Graph<E>, s: set<nat>) {
    forall b {:trigger HasPredIn(g, s, b)} | b in s :: HasPredIn(g, s, b)
  }

  /** If every member of s has a predecessor in s, walks of every length lead into every member. */
  lemma {:induction false} BackwardWalk<E>(g: Graph<E>, s: set<nat>, n: nat, steps: nat) returns (w: seq<nat>)
    requires n in s
    requires NoMinimum(g, s)
    ensures |w| == steps + 1 && IsWalkInto(g, w, n)
    ensures forall m | 0 <= m < |w| :: w[m] in s
    decreases steps
  {
    if steps == 0 { return [n]; }
    assert HasPredIn(g, s, n);
    var a :| a in s && HasEdge(g, a, n);
    var v := BackwardWalk(g, s, a, steps - 1);
    w := v + [n];
    ExtendWalk(g, v, n);
  }

  /** A set without a minimal member has only members with a cyclic ancestry. */
  lemma NoMinimalMember<E>(g: Graph<E>, s: set<nat>, n: nat)
    requires n in s
    requires NoMinimum(g, s)
    ensures CyclicAncestry(g, n)
  {
    var w := BackwardWalk(g, s, n, |s|);
    var i, k := Pigeonhole(w, s);
  }

  ghost predicate HasRoot<E>(g: Graph<E>) {
    exists n | n in g.nodes :: Preds(g.edges, n) == []
  }

  /** An acyclic graph with a node has a root. */
  lemma AcyclicHasRoot<E>(g: Graph<E>)
    requires Acyclic(g) && Closed(g) && g.nodes != []
    ensures HasRoot(g)
  {
    if !HasRoot(g) {
      var s := set n | n in g.nodes;
      forall b | b in s
        ensures HasPredIn(g, s, b)
      {
        var a := Preds(g.edges, b)[0];
        PredsAreEdges(g, a, b);
        EndpointsIn(g, a, b);
        assert a in s;
      }
      NoMinimalMember(g, s, g.nodes[0]);
      AcyclicHasNoCyclicAncestry(g);
    }
  }
}
