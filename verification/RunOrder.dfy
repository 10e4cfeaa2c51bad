/** The order of a run: jobs stand in line, and what comes when is told by the graph alone. */
module RunOrders {
  import opened Graphs
  import opened Schedules

  /** The jobs in the order in which they were put in line. */
  function Line(s: State): seq<nat> {
    s.done + s.running + s.ready
  }

  predicate IsRoot(g: Graph<nat>, n: nat) {
    Preds(g.edges, n) == []
  }

  /** The job at this place is the last predecessor of n. */
  ghost predicate FreedBy(g: Graph<nat>, line: seq<nat>, n: nat, at: nat) {
    at < |line| && HasEdge(g, line[at], n) && forall p | HasEdge(g, p, n) :: p in line[..at + 1]
  }

  /** Some edge from q to n was inserted before any edge from q to m. */
  ghost predicate LaterEdge(g: Graph<nat>, q: nat, m: nat, n: nat) {
    exists y :: 0 <= y < |g.edges| && Joins(g.edges[y], q, n) &&
                forall x | 0 <= x < |g.edges| && Joins(g.edges[x], q, m) :: y < x
  }

  /** Why line[i] stands before line[j]: roots come first, by their ids; all others in the order in which their last
      predecessors ran; and if that was the same job, the one with the later edge from it comes first. */
  ghost predicate Ahead(g: Graph<nat>, line: seq<nat>, i: nat, j: nat)
    requires i < |line| && j < |line|
  {
    && (IsRoot(g, line[j]) ==> IsRoot(g, line[i]) && line[i] < line[j])
    && forall a: nat, b: nat | FreedBy(g, line, line[i], a) && FreedBy(g, line, line[j], b) ::
         a < b || (a == b && LaterEdge(g, line[a], line[i], line[j]))
  }

  ghost predicate InTurn(g: Graph<nat>, line: seq<nat>) {
    forall i, j {:trigger Ahead(g, line, i, j)} | 0 <= i < j < |line| :: Ahead(g, line, i, j)
  }

  /** The jobs in line wait for nothing: their predecessors are done. */
  ghost predicate Free(g: Graph<nat>, done: seq<nat>, n: nat) {
    forall p | HasEdge(g, p, n) :: p in done
  }

  ghost predicate AllFree(g: Graph<nat>, done: seq<nat>, line: seq<nat>) {
    forall n {:trigger Free(g, done, n)} | n in line :: Free(g, done, n)
  }

  /** The line, while the jobs in `done` are done. */
  ghost predicate Lined(g: Graph<nat>, done: seq<nat>, line: seq<nat>) {
    done <= line && Distinct(line) && AllFree(g, done, line) && InTurn(g, line)
  }

  // --------------------------------------------------------- one job in line

  /** The last predecessor of a job in line is among those done. */
  lemma FreedByDone(g: Graph<nat>, done: seq<nat>, line: seq<nat>, n: nat, at: nat)
    requires done <= line && Distinct(line) && Free(g, done, n) && FreedBy(g, line, n, at)
    ensures at < |done|
  {
    var i :| 0 <= i < |done| && done[i] == line[at];
    assert line[i] == line[at];
  }

  lemma FreedByLast(g: Graph<nat>, done: seq<nat>, line: seq<nat>, n: nat, at: nat)
    requires done != [] && done <= line && Distinct(line) && Free(g, done, n) && HasEdge(g, done[|done| - 1], n)
    requires FreedBy(g, line, n, at)
    ensures at == |done| - 1
  {
    FreedByDone(g, done, line, n, at);
    var f := done[|done| - 1];
    assert f in line[..at + 1];
    var i :| 0 <= i <= at && line[i] == f;
    assert line[|done| - 1] == f;
  }

  lemma FreedInLonger(g: Graph<nat>, line: seq<nat>, d: nat, n: nat, at: nat)
    requires at < |line|
    ensures FreedBy(g, line + [d], n, at) <==> FreedBy(g, line, n, at)
  {
    assert (line + [d])[..at + 1] == line[..at + 1];
  }

  lemma RootOrEdge(g: Graph<nat>, n: nat, p: nat)
    requires HasEdge(g, p, n)
    ensures !IsRoot(g, n)
  {
    PredsAreEdges(g, p, n);
  }

  /** Inside the loop over the successors of f: the jobs that stood in line before f was done, and those that joined
      since then, with which f is through; `rest` are the successors still to come. */
  ghost predicate Joining(g: Graph<nat>, done: seq<nat>, f: nat, stood: seq<nat>, joined: seq<nat>, rest: seq<nat>) {
    && Lined(g, done, stood) && |done| < |stood| && stood[|done|] == f
    && Lined(g, done + [f], stood + joined)
    && forall n | n in joined :: HasEdge(g, f, n) && n !in rest
  }

  /** Edge y leads from f to d, and it and all older ones from f lead to `rest`. */
  ghost predicate UpTo(edges: seq<Edge<nat>>, f: nat, d: nat, rest: seq<nat>, y: nat) {
    && y < |edges| && Joins(edges[y], f, d)
    && forall x | 0 <= x <= y && edges[x].pred == f :: edges[x].succ in rest
  }

  lemma OldStaysAhead(g: Graph<nat>, done: seq<nat>, f: nat, line: seq<nat>, i: nat, j: nat)
    requires Distinct(line) && done + [f] <= line && i < |line| && j < |line|
    requires Free(g, done, line[i]) && Free(g, done + [f], line[j]) && HasEdge(g, f, line[j])
    ensures Ahead(g, line, i, j)
  {
    RootOrEdge(g, line[j], f);
    forall a: nat, b: nat | FreedBy(g, line, line[i], a) && FreedBy(g, line, line[j], b) ensures a < b {
      assert done <= done + [f] <= line;
      FreedByDone(g, done, line, line[i], a);
      FreedByLast(g, done + [f], line, line[j], b);
    }
  }

  lemma FreedByF(g: Graph<nat>, done: seq<nat>, f: nat, line: seq<nat>, n: nat, at: nat)
    requires Distinct(line) && done + [f] <= line && Free(g, done + [f], n) && HasEdge(g, f, n)
    requires FreedBy(g, line, n, at)
    ensures at == |done| && line[at] == f
  {
    assert (done + [f])[|done|] == f;
    FreedByLast(g, done + [f], line, n, at);
  }

  lemma NewFreedBy(g: Graph<nat>, done: seq<nat>, f: nat, line: seq<nat>, m: nat, n: nat)
    requires Distinct(line) && done + [f] <= line && HasEdge(g, f, m) && HasEdge(g, f, n)
    requires Free(g, done + [f], m) && Free(g, done + [f], n)
    ensures forall a: nat, b: nat | FreedBy(g, line, m, a) && FreedBy(g, line, n, b) :: a == b && line[a] == f
  {
    forall a: nat, b: nat | FreedBy(g, line, m, a) && FreedBy(g, line, n, b) ensures a == b && line[a] == f {
      FreedByF(g, done, f, line, m, a);
      FreedByF(g, done, f, line, n, b);
    }
  }

  lemma LaterThanUpTo(g: Graph<nat>, f: nat, m: nat, n: nat, rest: seq<nat>, y: nat)
    requires m !in rest && UpTo(g.edges, f, n, rest, y)
    ensures LaterEdge(g, f, m, n)
  {
    assert forall x | 0 <= x <= y && g.edges[x].pred == f :: g.edges[x].succ != m;
  }

  lemma NewStaysAhead(g: Graph<nat>, done: seq<nat>, f: nat, line: seq<nat>, i: nat, j: nat, rest: seq<nat>, y: nat)
    requires Distinct(line) && done + [f] <= line && i < |line| && j < |line|
    requires Free(g, done + [f], line[i]) && HasEdge(g, f, line[i]) && line[i] !in rest
    requires Free(g, done + [f], line[j]) && HasEdge(g, f, line[j]) && UpTo(g.edges, f, line[j], rest, y)
    ensures Ahead(g, line, i, j)
  {
    RootOrEdge(g, line[j], f);
    NewFreedBy(g, done, f, line, line[i], line[j]);
    LaterThanUpTo(g, f, line[i], line[j], rest, y);
  }

  /** Those in line keep their order when another one joins. */
  lemma StaysAhead(g: Graph<nat>, done: seq<nat>, line: seq<nat>, d: nat, i: nat, j: nat)
    requires done <= line && Distinct(line + [d]) && i < j < |line| && Ahead(g, line, i, j)
    requires Free(g, done, line[i]) && Free(g, done, line[j])
    ensures Ahead(g, line + [d], i, j)
  {
    var longer := line + [d];
    forall a: nat, b: nat | FreedBy(g, longer, longer[i], a) && FreedBy(g, longer, longer[j], b)
      ensures a < b || (a == b && LaterEdge(g, longer[a], longer[i], longer[j]))
    {
      FreedByDone(g, done, longer, line[i], a);
      FreedByDone(g, done, longer, line[j], b);
      FreedInLonger(g, line, d, line[i], a);
      FreedInLonger(g, line, d, line[j], b);
    }
  }

  lemma OneJoins(g: Graph<nat>, done: seq<nat>, f: nat, stood: seq<nat>, joined: seq<nat>, d: nat, rest: seq<nat>, y: nat)
    requires Joining(g, done, f, stood, joined, [d] + rest) && d !in stood + joined && d !in rest
    requires Free(g, done + [f], d) && HasEdge(g, f, d) && UpTo(g.edges, f, d, [d] + rest, y)
    ensures Joining(g, done, f, stood, joined + [d], rest)
  {
    var line := stood + joined;
    var longer := line + [d];
    assert stood + (joined + [d]) == longer;
    forall i, j | 0 <= i < j < |longer| ensures Ahead(g, longer, i, j) {
      assert done + [f] <= line;
      assert Free(g, done + [f], longer[i]) by { assert longer[i] in line; }
      if j < |line| {
        assert line[j] in line && Ahead(g, line, i, j);
        StaysAhead(g, done + [f], line, d, i, j);
      } else if i < |stood| {
        assert stood[i] in stood && Free(g, done, stood[i]);
        OldStaysAhead(g, done, f, longer, i, j);
      } else {
        assert longer[i] == joined[i - |stood|];
        NewStaysAhead(g, done, f, longer, i, j, [d] + rest, y);
      }
    }
    forall n | n in longer ensures Free(g, done + [f], n) {
      if n != d { assert n in line; }
    }
  }

  lemma UpToInPrefix(edges: seq<Edge<nat>>, k: nat, f: nat, d: nat, rest: seq<nat>, y: nat)
    requires k <= |edges| && UpTo(edges[..k], f, d, rest, y)
    ensures UpTo(edges, f, d, rest, y)
  {
    forall x | 0 <= x <= y && edges[x].pred == f ensures edges[x].succ in rest {
      assert edges[..k][x] == edges[x];
    }
  }

  lemma UpToLast(edges: seq<Edge<nat>>, f: nat)
    requires edges != [] && edges[|edges| - 1].pred == f
    ensures UpTo(edges, f, edges[|edges| - 1].succ, Succs(edges, f), |edges| - 1)
  {
    forall x | 0 <= x < |edges| && edges[x].pred == f ensures edges[x].succ in Succs(edges, f) {
      SuccessorListed(edges, x);
    }
  }

  /** An older edge stands further back among the successors. */
  lemma {:induction false} SuccessorEdge(edges: seq<Edge<nat>>, f: nat, i: nat) returns (y: nat)
    requires i < |Succs(edges, f)|
    ensures UpTo(edges, f, Succs(edges, f)[i], Succs(edges, f)[i..], y)
    decreases |edges|
  {
    var k := |edges| - 1;
    var all, before := Succs(edges, f), Succs(edges[..k], f);
    if edges[k].pred != f {
      assert all == [] + before == before;
      y := SuccessorEdge(edges[..k], f, i);
      UpToInPrefix(edges, k, f, all[i], all[i..], y);
    } else if i == 0 {
      y := k;
      UpToLast(edges, f);
      assert all[0..] == all;
    } else {
      y := SuccessorEdge(edges[..k], f, i - 1);
      assert all == [edges[k].succ] + before;
      assert all[i..] == before[i - 1..];
      UpToInPrefix(edges, k, f, all[i], all[i..], y);
    }
  }

  lemma {:induction false} SuccessorListed(edges: seq<Edge<nat>>, x: nat)
    requires x < |edges|
    ensures edges[x].succ in Succs(edges, edges[x].pred)
  {
    if x < |edges| - 1 { SuccessorListed(edges[..|edges| - 1], x); }
  }

  // ---------------------------------------------------------- the scheduler

  /** The last of the edges into d is counted: d joins the line. */
  lemma CountDownJoins(g: Graph<nat>, s: State, done: seq<nat>, f: nat, stood: seq<nat>, joined: seq<nat>, d: nat,
                       rest: seq<nat>, y: nat) returns (more: seq<nat>)
    requires Consistent(g, s, [d] + rest) && d in s.todo && d in s.counts && s.counts[d] > 0
    requires s.done == done + [f] && s.running == [] && Line(s) == stood + joined
    requires Joining(g, done, f, stood, joined, [d] + rest) && UpTo(g.edges, f, d, [d] + rest, y)
    ensures var t := CountDown(s, d);
            t.done == s.done && t.running == [] && Line(t) == stood + more && Joining(g, done, f, stood, more, rest)
  {
    var t := CountDown(s, d);
    if s.counts[d] == 1 {
      more := joined + [d];
      assert Line(t) == Line(s) + [d] == stood + more;
      LastCounted(g, s, d, rest);
      assert HasEdge(g, f, d);
      OneJoins(g, done, f, stood, joined, d, rest, y);
    } else {
      more := joined;
    }
  }

  lemma LastCounted(g: Graph<nat>, s: State, d: nat, rest: seq<nat>)
    requires Consistent(g, s, [d] + rest) && d in s.todo && d in s.counts && s.counts[d] == 1 && s.running == []
    ensures d !in rest && d !in Line(s) && Free(g, s.done, d)
  {
    assert CountRight(g, s, [d] + rest, d);
    assert multiset([d] + rest)[d] == 1 + multiset(rest)[d];
    WhereIs(g, s, d);
    OpenInZero(g, s.done, d);
  }

  lemma {:induction false} ReleaseJoins(g: Graph<nat>, s: State, done: seq<nat>, f: nat, stood: seq<nat>,
                                        joined: seq<nat>, i: nat)
    requires i <= |Succs(g.edges, f)| && Consistent(g, s, Succs(g.edges, f)[i..])
    requires s.done == done + [f] && s.running == [] && Line(s) == stood + joined
    requires Joining(g, done, f, stood, joined, Succs(g.edges, f)[i..])
    ensures var t := Release(s, Succs(g.edges, f)[i..]);
            t.done == s.done && t.running == [] && Lined(g, t.done, Line(t))
    decreases |Succs(g.edges, f)| - i
  {
    var all := Succs(g.edges, f);
    if i < |all| {
      var d, rest := all[i], all[i + 1..];
      assert all[i..] == [d] + rest && all[i..][1..] == rest;
      SuccessorWaits(g, s, d, rest);
      CountDownKeeps(g, s, d, rest);
      var y := SuccessorEdge(g.edges, f, i);
      var more := CountDownJoins(g, s, done, f, stood, joined, d, rest, y);
      ReleaseJoins(g, CountDown(s, d), done, f, stood, more, i + 1);
    }
  }

  /** Finishing a job keeps the line in turn. */
  lemma AfterJobLined(g: Graph<nat>, s: State, f: nat)
    requires Consistent(g, s, []) && s.running == [f] && Lined(g, s.done, Line(s))
    ensures var t := AfterJob(g, s, f); Lined(g, t.done, Line(t))
  {
    var u := s.(done := s.done + [f], running := []);
    var all := Succs(g.edges, f);
    FinishKeeps(g, s, f);
    assert Line(u) == Line(s) == Line(s) + [];
    assert all[0..] == all;
    forall n | n in Line(s) ensures Free(g, u.done, n) {
      assert Free(g, s.done, n);
    }
    ReleaseJoins(g, u, s.done, f, Line(s), [], 0);
    var r := Release(u, all);
    if r.ready != [] {
      assert Line(r.(running := [r.ready[0]], ready := r.ready[1..])) == Line(r);
    }
  }

  /** At the start, the roots stand in line by their ids. */
  lemma RootsLined(g: Graph<nat>, s: State)
    requires s.done == [] && RootsInOrder(g, Line(s))
    ensures Lined(g, s.done, Line(s))
  {
    var line := Line(s);
    forall n | n in line ensures Free(g, [], n) {
      forall p ensures !HasEdge(g, p, n) {
        PredsAreEdges(g, p, n);
      }
    }
    forall i, j | 0 <= i < j < |line| ensures Ahead(g, line, i, j) {
      assert line[i] in line && line[j] in line;
      assert Free(g, [], line[i]);
    }
  }
}
