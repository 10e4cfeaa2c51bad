/** The relation that the cycle check follows: from a node to its first-listed predecessor. */
module FirstPredecessors {
  import opened Options
  import opened Graphs

  /** The first-listed, that is most recently inserted, predecessor. */
  function First<E>(g: Graph<E>, n: nat): Option<nat> {
    var preds := Preds(g.edges, n);
    if preds == [] then None else Some(preds[0])
  }

  /** k steps along First. */
  function Iterate<E>(g: Graph<E>, n: nat, k: nat): Option<nat>
    decreases k
  {
    if k == 0 then Some(n)
    else match First(g, n)
      case None => None
      case Some(p) => Iterate(g, p, k - 1)
  }

  /** n comes back to itself by following first-listed predecessors. */
  ghost predicate OnFirstCycle<E>(g: Graph<E>, n: nat) {
    exists k: nat :: k > 0 && Iterate(g, n, k) == Some(n)
  }

  /** b is met when following first-listed predecessors from a. */
  ghost predicate Meets<E>(g: Graph<E>, a: nat, b: nat) {
    exists k: nat :: Iterate(g, a, k) == Some(b)
  }

  ghost predicate FirstClosed<E>(g: Graph<E>, s: set<nat>) {
    forall n {:trigger First(g, n)} | n in s && First(g, n).Some? :: First(g, n).value in s
  }

  lemma {:induction false} IterateStays<E>(g: Graph<E>, s: set<nat>, n: nat, k: nat)
    requires FirstClosed(g, s) && n in s
    ensures Iterate(g, n, k).Some? ==> Iterate(g, n, k).value in s
    decreases k
  {
    if k > 0 && First(g, n).Some? { IterateStays(g, s, First(g, n).value, k - 1); }
  }

  lemma {:induction false} IterateAdds<E>(g: Graph<E>, n: nat, j: nat, k: nat)
    requires Iterate(g, n, j).Some?
    ensures Iterate(g, n, j + k) == Iterate(g, Iterate(g, n, j).value, k)
    decreases j
  {
    if j > 0 { IterateAdds(g, First(g, n).value, j - 1, k); }
  }

  /** Following first-listed predecessors is walking backwards. */
  lemma {:induction false} IterateIsWalk<E>(g: Graph<E>, n: nat, k: nat) returns (w: seq<nat>)
    requires Iterate(g, n, k).Some?
    ensures |w| == k + 1 && IsWalkInto(g, w, n) && w[0] == Iterate(g, n, k).value
    decreases k
  {
    if k == 0 { return [n]; }
    var p := First(g, n).value;
    PredsAreEdges(g, p, n);
    var v := IterateIsWalk(g, p, k - 1);
    ExtendWalk(g, v, n);
    w := v + [n];
  }

  lemma FirstCycleIsCycle<E>(g: Graph<E>, n: nat)
    requires OnFirstCycle(g, n)
    ensures !Acyclic(g)
  {
    var k: nat :| k > 0 && Iterate(g, n, k) == Some(n);
    var w := IterateIsWalk(g, n, k);
    assert IsClosedWalk(g, w);
  }

  /** Every node has at most one distinct predecessor. */
  ghost predicate SinglePredecessors<E>(g: Graph<E>) {
    forall a, b, n | HasEdge(g, a, n) && HasEdge(g, b, n) :: a == b
  }

  lemma {:induction false} WalkIsIterate<E>(g: Graph<E>, w: seq<nat>)
    requires SinglePredecessors(g) && IsWalk(g, w)
    ensures Iterate(g, w[|w| - 1], |w| - 1) == Some(w[0])
  {
    if |w| > 1 {
      var k := |w| - 1;
      WalkIsIterate(g, w[..k]);
      PredsAreEdges(g, w[k - 1], w[k]);
      assert HasEdge(g, w[k - 1], w[k]);
      PredsAreEdges(g, First(g, w[k]).value, w[k]);
      assert First(g, w[k]) == Some(w[k - 1]);
    }
  }

  /** With at most one distinct predecessor per node, following the first-listed one misses nothing. */
  lemma SingleCyclesAreFirstCycles<E>(g: Graph<E>)
    requires SinglePredecessors(g)
    ensures Acyclic(g) <==> forall n :: !OnFirstCycle(g, n)
  {
    if !Acyclic(g) {
      var w :| IsClosedWalk(g, w);
      WalkIsIterate(g, w);
      assert OnFirstCycle(g, w[0]);
    } else {
      forall n ensures !OnFirstCycle(g, n) {
        if OnFirstCycle(g, n) { FirstCycleIsCycle(g, n); }
      }
    }
  }
}
