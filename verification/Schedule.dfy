/** The bookkeeping of SerialJobScheduler as values: in-degree counters over a multigraph of jobs. */
module Schedules {
  import opened Graphs

  /** The number of edges into n from jobs that are not done. */
  function OpenIn(edges: seq<Edge<nat>>, done: seq<nat>, n: nat): nat {
    if edges == [] then 0
    else
      var e := edges[|edges| - 1];
      (if e.succ == n && e.pred !in done then 1 else 0) + OpenIn(edges[..|edges| - 1], done, n)
  }

  lemma {:induction false} NothingDone(edges: seq<Edge<nat>>, n: nat)
    ensures OpenIn(edges, [], n) == |Preds(edges, n)|
  {
    if edges != [] { NothingDone(edges[..|edges| - 1], n); }
  }

  /** Finishing f closes exactly the edges from f, with their multiplicity. */
  lemma {:induction false} FinishingCloses(edges: seq<Edge<nat>>, done: seq<nat>, f: nat, n: nat)
    requires f !in done
    ensures OpenIn(edges, done, n) == OpenIn(edges, done + [f], n) + multiset(Succs(edges, f))[n]
  {
    if edges != [] { FinishingCloses(edges[..|edges| - 1], done, f, n); }
  }

  lemma {:induction false} OpenInZero(g: Graph<nat>, done: seq<nat>, n: nat)
    ensures OpenIn(g.edges, done, n) == 0 <==> forall p | HasEdge(g, p, n) :: p in done
    decreases |g.edges|
  {
    if g.edges != [] {
      var k := |g.edges| - 1;
      var h := g.(edges := g.edges[..k]);
      OpenInZero(h, done, n);
      forall p ensures HasEdge(g, p, n) <==> Joins(g.edges[k], p, n) || HasEdge(h, p, n) {
        HasEdgeLast(g, p, n);
      }
      if g.edges[k].succ == n && g.edges[k].pred !in done {
        assert HasEdge(g, g.edges[k].pred, n);
      }
    }
  }

  // ------------------------------------------------------- the invariant

  datatype State = State(done: seq<nat>, running: seq<nat>, ready: seq<nat>, todo: seq<nat>, counts: map<nat, nat>)

  /** Every node is in exactly one of the four lists, once. */
  ghost predicate Partitions(g: Graph<nat>, s: State) {
    && |s.running| <= 1
    && multiset(s.done) + multiset(s.running) + multiset(s.ready) + multiset(s.todo) == multiset(g.nodes)
  }

  /** What node n still waits for while the successors in `pending` of the last finished job are unprocessed. */
  ghost function Need(g: Graph<nat>, s: State, pending: seq<nat>, n: nat): nat {
    OpenIn(g.edges, s.done, n) + multiset(pending)[n]
  }

  ghost predicate Counts(g: Graph<nat>, s: State, pending: seq<nat>) {
    forall n {:trigger CountRight(g, s, pending, n)} :: CountRight(g, s, pending, n)
  }

  ghost predicate CountRight(g: Graph<nat>, s: State, pending: seq<nat>, n: nat) {
    && (n in pending ==> n in g.nodes)
    && (n in g.nodes && n in s.todo ==>
          n in s.counts && s.counts[n] == Need(g, s, pending, n) && s.counts[n] > 0)
    && (n in g.nodes && n !in s.todo ==> Need(g, s, pending, n) == 0)
  }

  /** No job before one of its predecessors. */
  ghost predicate Topological(g: Graph<nat>, order: seq<nat>) {
    forall i {:trigger Follows(g, order, i)} | 0 <= i < |order| :: Follows(g, order, i)
  }

  ghost predicate Follows(g: Graph<nat>, order: seq<nat>, i: nat)
    requires i < |order|
  {
    forall p | HasEdge(g, p, order[i]) :: p in order[..i]
  }

  /** The scheduler invariant; `pending` is empty except inside the loop over successors. */
  ghost predicate Consistent(g: Graph<nat>, s: State, pending: seq<nat>) {
    Closed(g) && Partitions(g, s) && Counts(g, s, pending) && Topological(g, s.done)
  }

  lemma OnceInNodes(g: Graph<nat>, n: nat)
    requires Ascending(g.nodes)
    ensures multiset(g.nodes)[n] == if n in g.nodes then 1 else 0
  {
    DistinctOnce(g.nodes, n);
  }

  lemma {:induction false} DistinctOnce(s: seq<nat>, n: nat)
    requires Distinct(s)
    ensures multiset(s)[n] == if n in s then 1 else 0
  {
    if s != [] {
      var k := |s| - 1;
      DistinctOnce(s[..k], n);
      assert s == s[..k] + [s[k]];
    }
  }

  /** Exactly one of the lists holds a node. */
  lemma WhereIs(g: Graph<nat>, s: State, n: nat)
    requires Closed(g) && Partitions(g, s)
    ensures n in g.nodes <==> n in s.done || n in s.running || n in s.ready || n in s.todo
    ensures multiset(s.done)[n] + multiset(s.running)[n] + multiset(s.ready)[n] + multiset(s.todo)[n] <= 1
  {
    OnceInNodes(g, n);
    assert (multiset(s.done) + multiset(s.running) + multiset(s.ready) + multiset(s.todo))[n] == multiset(g.nodes)[n];
  }

  // ---------------------------------------------------------- operations

  /** QList::indexOf; a list without x has no index, and takeAt would fail. */
  function IndexOf(s: seq<nat>, x: nat): (i: nat)
    requires x in s
    ensures i < |s| && s[i] == x && x !in s[..i]
  {
    if s[0] == x then 0 else 1 + IndexOf(s[1..], x)
  }

  /** takeAt(indexOf(x)): what remains. */
  function Without(s: seq<nat>, x: nat): (r: seq<nat>)
    requires x in s
    ensures multiset(s) == multiset(r) + multiset([x])
  {
    var i := IndexOf(s, x);
    assert s == s[..i] + [x] + s[i + 1..];
    s[..i] + s[i + 1..]
  }

  /** One iteration of the loop over the successors of the finished job. */
  function CountDown(s: State, d: nat): State
    requires d in s.counts && s.counts[d] > 0 && d in s.todo
  {
    if s.counts[d] == 1
    then s.(counts := s.counts - {d}, ready := s.ready + [d], todo := Without(s.todo, d))
    else s.(counts := s.counts[d := s.counts[d] - 1])
  }

  /** The loop over the successors of the finished job. */
  function Release(s: State, dependents: seq<nat>): State
    decreases |dependents|
  {
    if dependents == [] then s
    else
      var d := dependents[0];
      Release(if d in s.counts && s.counts[d] > 0 && d in s.todo then CountDown(s, d) else s, dependents[1..])
  }

  /** onJobFinished. */
  function AfterJob(g: Graph<nat>, s: State, f: nat): State {
    var r := Release(s.(done := s.done + [f], running := []), Succs(g.edges, f));
    if r.ready == [] then r else r.(running := [r.ready[0]], ready := r.ready[1..])
  }

  lemma SuccessorWaits(g: Graph<nat>, s: State, d: nat, rest: seq<nat>)
    requires Consistent(g, s, [d] + rest)
    ensures d in s.todo && d in s.counts && s.counts[d] > 0
  {
    assert CountRight(g, s, [d] + rest, d);
    assert multiset([d] + rest)[d] > 0;
  }

  lemma CountDownKeeps(g: Graph<nat>, s: State, d: nat, rest: seq<nat>)
    requires Consistent(g, s, [d] + rest)
    requires d in s.todo && d in s.counts && s.counts[d] > 0
    ensures Consistent(g, CountDown(s, d), rest)
  {
    var t := CountDown(s, d);
    assert multiset([d] + rest) == multiset{d} + multiset(rest);
    assert Partitions(g, t);
    forall n ensures CountRight(g, t, rest, n) {
      assert CountRight(g, s, [d] + rest, n);
      assert Need(g, s, [d] + rest, n) == Need(g, t, rest, n) + multiset{d}[n];
      WhereIs(g, s, n);
      WhereIs(g, t, n);
      assert n != d ==> (n in t.todo <==> n in s.todo) by {
        if s.counts[d] == 1 { assert multiset(s.todo) == multiset(t.todo) + multiset([d]); }
      }
    }
  }

  /** onJobFinished moves the running job to done and then walks its successors. */
  lemma FinishKeeps(g: Graph<nat>, s: State, f: nat)
    requires Consistent(g, s, []) && s.running == [f]
    ensures Consistent(g, s.(done := s.done + [f], running := []), Succs(g.edges, f))
  {
    var t := s.(done := s.done + [f], running := []);
    WhereIs(g, s, f);
    assert multiset(s.done + [f]) == multiset(s.done) + multiset(s.running);
    forall n ensures CountRight(g, t, Succs(g.edges, f), n) {
      assert CountRight(g, s, [], n);
      FinishingCloses(g.edges, s.done, f, n);
      PredsAreEdges(g, f, n);
      if HasEdge(g, f, n) { EndpointsIn(g, f, n); }
    }
    forall i | 0 <= i < |t.done| ensures Follows(g, t.done, i) {
      if i == |s.done| {
        OpenInZero(g, s.done, f);
        assert CountRight(g, s, [], f);
        assert t.done[..i] == s.done;
      } else {
        assert Follows(g, s.done, i);
        assert t.done[..i] == s.done[..i];
      }
    }
  }

  lemma DispatchKeeps(g: Graph<nat>, s: State)
    requires Consistent(g, s, []) && s.running == [] && s.ready != []
    ensures Consistent(g, s.(running := [s.ready[0]], ready := s.ready[1..]), [])
    ensures forall p | HasEdge(g, p, s.ready[0]) :: p in s.done
  {
    var t := s.(running := [s.ready[0]], ready := s.ready[1..]);
    assert s.ready == [s.ready[0]] + s.ready[1..];
    assert multiset(s.ready) == multiset([s.ready[0]]) + multiset(s.ready[1..]);
    forall n ensures CountRight(g, t, [], n) {
      assert CountRight(g, s, [], n);
    }
    WhereIs(g, s, s.ready[0]);
    assert CountRight(g, s, [], s.ready[0]);
    OpenInZero(g, s.done, s.ready[0]);
  }

  ghost predicate RootsAre(g: Graph<nat>, roots: seq<nat>) {
    forall n :: n in roots <==> n in g.nodes && Preds(g.edges, n) == []
  }

  ghost predicate RootsInOrder(g: Graph<nat>, roots: seq<nat>) {
    Ascending(roots) && RootsAre(g, roots)
  }

  ghost predicate InDegrees(g: Graph<nat>, counts: map<nat, nat>) {
    forall n | n in g.nodes :: n in counts && counts[n] == |Preds(g.edges, n)|
  }

  lemma RootIsReady(g: Graph<nat>, ready: seq<nat>)
    requires HasRoot(g) && RootsAre(g, ready)
    ensures ready != [] && ready[0] in g.nodes && Preds(g.edges, ready[0]) == []
  {
    var n :| n in g.nodes && Preds(g.edges, n) == [];
    assert n in ready && ready[0] in ready;
  }

  lemma StartEstablishes(g: Graph<nat>, s: State)
    requires Closed(g) && s.done == s.running == []
    requires multiset(s.ready) + multiset(s.todo) == multiset(g.nodes)
    requires RootsAre(g, s.ready) && InDegrees(g, s.counts)
    ensures Consistent(g, s, [])
  {
    forall n ensures CountRight(g, s, [], n) {
      NothingDone(g.edges, n);
      WhereIs(g, s, n);
    }
  }

  // ------------------------------------------------------- full-run facts

  lemma {:induction false} WalkStaysBefore(g: Graph<nat>, order: seq<nat>, w: seq<nat>, i: nat, m: nat)
    requires Topological(g, order) && i < |order| && IsWalkInto(g, w, order[i]) && m < |w| - 1
    ensures w[m] in order[..i]
    decreases |w|
  {
    var p := w[|w| - 2];
    assert HasEdge(g, p, order[i]) && Follows(g, order, i);
    if m < |w| - 2 {
      var j :| 0 <= j < i && order[..i][j] == p;
      assert IsWalkInto(g, w[..|w| - 1], order[j]);
      WalkStaysBefore(g, order, w[..|w| - 1], j, m);
      assert order[..j] <= order[..i];
    }
  }

  lemma DoneHasNoCycleAbove(g: Graph<nat>, order: seq<nat>, i: nat)
    requires Topological(g, order) && Distinct(order) && i < |order|
    ensures !CyclicAncestry(g, order[i])
  {
    if CyclicAncestry(g, order[i]) {
      var w, a, b :| IsWalkInto(g, w, order[i]) && 0 <= a < b < |w| && w[a] == w[b];
      if b < |w| - 1 { WalkStaysBefore(g, order, w, i, b); }
      var p :| 0 <= p < |order| && order[p] == w[b];
      var v := w[..b + 1];
      forall m | 0 <= m < |v| - 1 ensures HasEdge(g, v[m], v[m + 1]) {
        assert HasEdge(g, w[m], w[m + 1]);
      }
      WalkStaysBefore(g, order, v, p, a);
      assert false;
    }
  }

  lemma DoneDistinct(g: Graph<nat>, s: State)
    requires Closed(g) && Partitions(g, s)
    ensures Distinct(s.done)
  {
    forall i, j | 0 <= i < j < |s.done| ensures s.done[i] != s.done[j] {
      WhereIs(g, s, s.done[j]);
      if s.done[i] == s.done[j] {
        TwiceCounted(s.done, i, j);
      }
    }
  }

  lemma TwiceCounted(s: seq<nat>, i: nat, j: nat)
    requires i < j < |s| && s[i] == s[j]
    ensures multiset(s)[s[i]] >= 2
  {
    assert s == s[..j] + s[j..];
    assert s[i] in s[..j] && s[j] in s[j..];
  }

  /** Whatever is dispatched or done waits for nothing, and the running job is not done yet. */
  lemma DispatchedWaitsForNothing(g: Graph<nat>, s: State, n: nat, p: nat)
    requires Consistent(g, s, []) && (n in s.done || n in s.running) && HasEdge(g, p, n)
    ensures p in s.done && p !in s.running
  {
    WhereIs(g, s, n);
    assert CountRight(g, s, [], n);
    OpenInZero(g, s.done, n);
    WhereIs(g, s, p);
  }

  /** When nothing runs and nothing is ready, the finished jobs are exactly those without a cycle at or above them. */
  lemma StoppedIsComplete(g: Graph<nat>, s: State, n: nat)
    requires Consistent(g, s, []) && s.running == s.ready == [] && n in g.nodes
    ensures n in s.done <==> !CyclicAncestry(g, n)
  {
    WhereIs(g, s, n);
    if n in s.done {
      DoneDistinct(g, s);
      DoneHasNoCycleAbove(g, s.done, IndexOf(s.done, n));
    } else {
      var waiting := set m | m in s.todo;
      forall b | b in waiting ensures HasPredIn(g, waiting, b) {
        WhereIs(g, s, b);
        assert CountRight(g, s, [], b);
        OpenInZero(g, s.done, b);
        var p :| HasEdge(g, p, b) && p !in s.done;
        EndpointsIn(g, p, b);
        WhereIs(g, s, p);
        assert p in waiting;
      }
      NoMinimalMember(g, waiting, n);
    }
  }
}
