/** For which dependency graphs the cycle check can stay silent although there is a cycle: the outcome depends on
    the order in which the Depends items are listed. */
module CycleBlindness {
  import opened Options
  import opened Graphs
  import opened FirstPredecessors

  /** The same Depends items, listed in any order. */
  ghost predicate Relisted<E>(g: Graph<E>, h: Graph<E>) {
    g.nodes == h.nodes && multiset(g.edges) == multiset(h.edges)
  }

  ghost predicate RootWalk<E>(g: Graph<E>, w: seq<nat>, n: nat) {
    IsWalkInto(g, w, n) && Preds(g.edges, w[0]) == []
  }

  ghost predicate RootWalkOf<E>(g: Graph<E>, n: nat, k: nat) {
    exists w :: RootWalk(g, w, n) && |w| == k + 1
  }

  /** A chain of dependencies leads from n to a testcase without dependencies. */
  ghost predicate FromRoot<E>(g: Graph<E>, n: nat) {
    exists k: nat :: RootWalkOf(g, n, k)
  }

  ghost predicate Shortest<E>(g: Graph<E>, n: nat, m: nat) {
    RootWalkOf(g, n, m) && forall j: nat | RootWalkOf(g, n, j) :: m <= j
  }

  lemma {:induction false} ShortestExists<E>(g: Graph<E>, n: nat, k: nat)
    requires RootWalkOf(g, n, k)
    ensures exists m: nat :: Shortest(g, n, m)
    decreases k
  {
    if j: nat :| j < k && RootWalkOf(g, n, j) {
      ShortestExists(g, n, j);
    } else {
      assert Shortest(g, n, k);
    }
  }

  /** The length of a shortest such chain. */
  ghost function Depth<E>(g: Graph<E>, n: nat): (m: nat)
    requires FromRoot(g, n)
    ensures Shortest(g, n, m)
  {
    var k: nat :| RootWalkOf(g, n, k);
    ShortestExists(g, n, k);
    var m: nat :| Shortest(g, n, m);
    m
  }

  /** The edge leads one step away from the roots. */
  ghost predicate Outward<E>(g: Graph<E>, a: nat, b: nat) {
    FromRoot(g, a) && FromRoot(g, b) && Depth(g, a) < Depth(g, b)
  }

  lemma OutwardEdgeInto<E>(g: Graph<E>, n: nat) returns (p: nat)
    requires FromRoot(g, n) && Preds(g.edges, n) != []
    ensures HasEdge(g, p, n) && Outward(g, p, n)
  {
    var w :| RootWalk(g, w, n) && |w| == Depth(g, n) + 1;
    assert |w| > 1;
    var v := w[..|w| - 1];
    p := w[|w| - 2];
    assert HasEdge(g, w[|w| - 2], w[|w| - 1]);
    forall i | 0 <= i < |v| - 1 ensures HasEdge(g, v[i], v[i + 1]) {
      assert HasEdge(g, w[i], w[i + 1]);
    }
    assert RootWalk(g, v, p);
    assert RootWalkOf(g, p, |v| - 1);
  }

  /** The edges that do, or do not, lead outward, in their order. */
  ghost function Pick<E>(g: Graph<E>, edges: seq<Edge<E>>, outward: bool): seq<Edge<E>> {
    if edges == [] then []
    else
      var e := edges[|edges| - 1];
      Pick(g, edges[..|edges| - 1], outward) + (if Outward(g, e.pred, e.succ) == outward then [e] else [])
  }

  lemma {:induction false} PickPermutes<E>(g: Graph<E>, edges: seq<Edge<E>>)
    ensures multiset(Pick(g, edges, false) + Pick(g, edges, true)) == multiset(edges)
  {
    if edges != [] {
      var k := |edges| - 1;
      PickPermutes(g, edges[..k]);
      assert edges == edges[..k] + [edges[k]];
    }
  }

  lemma {:induction false} PredsConcat<E>(s: seq<Edge<E>>, t: seq<Edge<E>>, n: nat)
    ensures Preds(s + t, n) == Preds(t, n) + Preds(s, n)
  {
    if t == [] {
      assert s + t == s;
    } else {
      var k := |t| - 1;
      var last := if t[k].succ == n then [t[k].pred] else [];
      PredsConcat(s, t[..k], n);
      assert (s + t)[..|s + t| - 1] == s + t[..k] && (s + t)[|s + t| - 1] == t[k];
      assert Preds(s + t, n) == last + Preds(s + t[..k], n);
      assert Preds(t, n) == last + Preds(t[..k], n);
      assert last + (Preds(t[..k], n) + Preds(s, n)) == (last + Preds(t[..k], n)) + Preds(s, n);
    }
  }

  /** Exactly the outward edges into n are picked. */
  lemma {:induction false} PickedPreds<E>(g: Graph<E>, edges: seq<Edge<E>>, n: nat, p: nat)
    ensures p in Preds(Pick(g, edges, true), n) <==> p in Preds(edges, n) && Outward(g, p, n)
  {
    if edges != [] {
      var k := |edges| - 1;
      PickedPreds(g, edges[..k], n, p);
      PredsConcat(Pick(g, edges[..k], true), if Outward(g, edges[k].pred, edges[k].succ) then [edges[k]] else [], n);
    }
  }

  /** Listing the outward edges last makes every first-listed predecessor lie nearer to the roots. */
  lemma OutwardLast<E>(g: Graph<E>) returns (h: Graph<E>)
    requires forall m | m in g.nodes :: FromRoot(g, m)
    requires Closed(g)
    ensures Relisted(g, h)
    ensures forall m: nat :: First(h, m).Some? ==> Outward(g, First(h, m).value, m)
  {
    var inward, outward := Pick(g, g.edges, false), Pick(g, g.edges, true);
    h := g.(edges := inward + outward);
    PickPermutes(g, g.edges);
    forall m: nat | First(h, m).Some? ensures Outward(g, First(h, m).value, m) {
      PredsConcat(inward, outward, m);
      SamePreds(g, h, m);
      var q := Preds(h.edges, m)[0];
      assert q in Preds(h.edges, m);
      PredsAreEdges(g, q, m);
      EndpointsIn(g, q, m);
      var p := OutwardEdgeInto(g, m);
      PredsAreEdges(g, p, m);
      PickedPreds(g, g.edges, m, p);
      PickedPreds(g, g.edges, m, First(h, m).value);
    }
  }

  lemma SamePreds<E>(g: Graph<E>, h: Graph<E>, n: nat)
    requires Relisted(g, h)
    ensures forall p :: p in Preds(g.edges, n) <==> p in Preds(h.edges, n)
  {
    forall p: nat ensures p in Preds(g.edges, n) <==> p in Preds(h.edges, n) {
      PredsAreEdges(g, p, n);
      PredsAreEdges(h, p, n);
      if HasEdge(g, p, n) { SameEdges(g, h, p, n); }
      if HasEdge(h, p, n) { SameEdges(h, g, p, n); }
    }
  }

  lemma SameEdges<E>(g: Graph<E>, h: Graph<E>, a: nat, b: nat)
    requires Relisted(g, h) && HasEdge(g, a, b)
    ensures HasEdge(h, a, b)
  {
    var i :| 0 <= i < |g.edges| && Joins(g.edges[i], a, b);
    assert g.edges[i] in multiset(g.edges);
    assert g.edges[i] in h.edges;
  }

  lemma {:induction false} DepthFalls<E>(g: Graph<E>, h: Graph<E>, n: nat, k: nat)
    requires forall m: nat {:trigger First(h, m)} :: First(h, m).Some? ==> Outward(g, First(h, m).value, m)
    requires FromRoot(g, n) && k > 0 && Iterate(h, n, k).Some?
    ensures FromRoot(g, Iterate(h, n, k).value) && Depth(g, Iterate(h, n, k).value) < Depth(g, n)
    decreases k
  {
    if k > 1 {
      DepthFalls(g, h, First(h, n).value, k - 1);
    }
  }

  /** If no first-listed predecessors form a cycle, following them from n ends in a root. */
  lemma {:induction false} EndsInRoot<E>(h: Graph<E>, n: nat, seen: seq<nat>)
    requires Closed(h) && n in h.nodes && (forall m :: !OnFirstCycle(h, m))
    requires forall i | 0 <= i < |seen| :: seen[i] in h.nodes
    requires forall i | 0 <= i < |seen| :: Iterate(h, seen[i], |seen| - i) == Some(n)
    requires Distinct(seen)
    ensures FromRoot(h, n)
    decreases |h.nodes| - |seen|
  {
    if First(h, n).None? {
      assert RootWalk(h, [n], n);
      assert RootWalkOf(h, n, 0);
    } else {
      var p := First(h, n).value;
      PredsAreEdges(h, p, n);
      EndpointsIn(h, p, n);
      var longer := seen + [n];
      forall i | 0 <= i < |seen| ensures seen[i] != n && Iterate(h, seen[i], |longer| - i) == Some(p) {
        assert !OnFirstCycle(h, n);
        IterateAdds(h, seen[i], |seen| - i, 1);
      }
      DistinctFits(longer, h.nodes);
      EndsInRoot(h, p, longer);
      var k: nat :| RootWalkOf(h, p, k);
      var w :| RootWalk(h, w, p) && |w| == k + 1;
      ExtendWalk(h, w, n);
      assert RootWalk(h, w + [n], n);
      assert RootWalkOf(h, n, k + 1);
    }
  }

  lemma DistinctFits(s: seq<nat>, nodes: seq<nat>)
    requires Distinct(s) && forall i | 0 <= i < |s| :: s[i] in nodes
    ensures |s| <= |nodes|
  {
    if |s| > |nodes| {
      SetFits(nodes);
      var i, k := Pigeonhole(s, Members(nodes));
    }
  }

  ghost function Members(nodes: seq<nat>): set<nat> {
    set n | n in nodes
  }

  lemma {:induction false} SetFits(nodes: seq<nat>)
    ensures |Members(nodes)| <= |nodes|
  {
    if nodes != [] {
      var k := |nodes| - 1;
      SetFits(nodes[..k]);
      assert Members(nodes) == Members(nodes[..k]) + {nodes[k]};
    }
  }

  lemma FromRootRelisted<E>(h: Graph<E>, g: Graph<E>, n: nat)
    requires Relisted(h, g) && FromRoot(h, n)
    ensures FromRoot(g, n)
  {
    var k: nat :| RootWalkOf(h, n, k);
    var w :| RootWalk(h, w, n) && |w| == k + 1;
    forall i | 0 <= i < |w| - 1 ensures HasEdge(g, w[i], w[i + 1]) {
      SameEdges(h, g, w[i], w[i + 1]);
    }
    var preds := Preds(g.edges, w[0]);
    assert preds == [] || preds[0] in preds;
    SamePreds(h, g, w[0]);
    assert RootWalk(g, w, n);
    assert RootWalkOf(g, n, k);
  }

  /** Some listing order keeps the check silent exactly if every testcase descends from one without dependencies;
      so a cyclic graph can get past the check exactly if that holds. */
  lemma SilenceIsPossible<E>(g: Graph<E>)
    requires Closed(g)
    ensures (exists h :: Relisted(g, h) && forall n :: !OnFirstCycle(h, n))
            <==> forall n | n in g.nodes :: FromRoot(g, n)
  {
    if forall n | n in g.nodes :: FromRoot(g, n) {
      var h := OutwardLast(g);
      forall n: nat ensures !OnFirstCycle(h, n) {
        if OnFirstCycle(h, n) {
          var k: nat :| k > 0 && Iterate(h, n, k) == Some(n);
          assert Outward(g, First(h, n).value, n);
          DepthFalls(g, h, n, k);
        }
      }
    }
    if exists h :: Relisted(g, h) && forall n :: !OnFirstCycle(h, n) {
      var h :| Relisted(g, h) && forall n :: !OnFirstCycle(h, n);
      RelistedClosed(g, h);
      forall n | n in g.nodes ensures FromRoot(g, n) {
        EndsInRoot(h, n, []);
        FromRootRelisted(h, g, n);
      }
    }
  }

  lemma RelistedClosed<E>(g: Graph<E>, h: Graph<E>)
    requires Relisted(g, h) && Closed(g)
    ensures Closed(h)
  {
    forall i | 0 <= i < |h.edges| ensures Inside(h, i) {
      assert h.edges[i] in multiset(g.edges);
      var k :| 0 <= k < |g.edges| && g.edges[k] == h.edges[i];
      assert Inside(g, k);
    }
  }
}
