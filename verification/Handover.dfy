/** Which exports a job receives, and under which key. */
module Handovers {
  import opened Graphs
  import opened Jobs

  /** The shared data behind the Dependency handles; an edge of the job graph carries an index into a list of these. */
  datatype Dependency = Dependency(name: string, alias: string, count: nat)

  function Key(d: Dependency): string {
    if d.alias == "" then d.name else d.alias
  }

  ghost predicate Labelled(g: Graph<nat>, deps: seq<Dependency>) {
    forall i | 0 <= i < |g.edges| :: g.edges[i].info < |deps|
  }

  lemma {:induction false} InfoInRange(edges: seq<Edge<nat>>, deps: seq<Dependency>, a: nat, b: nat)
    requires forall i | 0 <= i < |edges| :: edges[i].info < |deps|
    ensures forall k | 0 <= k < |Infos(edges, a, b)| :: Infos(edges, a, b)[k] < |deps|
  {
    if edges != [] { InfoInRange(edges[..|edges| - 1], deps, a, b); }
  }

  /** The key of the edge that `edge(p, j)` returns: the last inserted one. */
  function LatestKey(g: Graph<nat>, deps: seq<Dependency>, p: nat, j: nat): string {
    var infos := Infos(g.edges, p, j);
    if infos != [] && infos[0] < |deps| then Key(deps[infos[0]]) else ""
  }

  /** The predecessors, in `preds` order, whose exports job j finds under key k. */
  function Senders(g: Graph<nat>, deps: seq<Dependency>, jobs: seq<JobData>, j: nat, preds: seq<nat>, k: string): seq<nat> {
    if preds == [] then []
    else
      var p := preds[|preds| - 1];
      Senders(g, deps, jobs, j, preds[..|preds| - 1], k) +
      (if p < |jobs| && jobs[p].exports != map[] && LatestKey(g, deps, p, j) == k then [p] else [])
  }

  function ExportsOf(jobs: seq<JobData>, ids: seq<nat>): (r: seq<ExportMap>)
    ensures |r| == |ids|
  {
    seq(|ids|, i requires 0 <= i < |ids| => if ids[i] < |jobs| then jobs[ids[i]].exports else map[])
  }

  function At(data: map<string, seq<ExportMap>>, k: string): seq<ExportMap> {
    if k in data then data[k] else []
  }

  /** `data` lists, under every key, the exports of that key's senders, and has no key without a sender. */
  ghost predicate IsHandover(g: Graph<nat>, deps: seq<Dependency>, jobs: seq<JobData>, j: nat, preds: seq<nat>,
                             data: map<string, seq<ExportMap>>) {
    && (forall k :: At(data, k) == ExportsOf(jobs, Senders(g, deps, jobs, j, preds, k)))
    && (forall k | k in data :: data[k] != [])
  }

  // ------------------------------------- what the edges themselves ask for

  /** Every edge into j asks for its own predecessor under its own key. */
  function EdgeSenders(deps: seq<Dependency>, jobs: seq<JobData>, j: nat, edges: seq<Edge<nat>>, k: string): seq<nat> {
    if edges == [] then []
    else
      var e := edges[0];
      EdgeSenders(deps, jobs, j, edges[1..], k) +
      (if Wants(deps, jobs, j, e) && Key(deps[e.info]) == k then [e.pred] else [])
  }

  predicate Wants(deps: seq<Dependency>, jobs: seq<JobData>, j: nat, e: Edge<nat>) {
    e.succ == j && e.info < |deps| && e.pred < |jobs| && jobs[e.pred].exports != map[]
  }

  /** Parallel edges with exports to hand over agree on their key. */
  ghost predicate KeysAgree(g: Graph<nat>, deps: seq<Dependency>, jobs: seq<JobData>, j: nat) {
    forall i | 0 <= i < |g.edges| && Wants(deps, jobs, j, g.edges[i]) ::
      Key(deps[g.edges[i].info]) == LatestKey(g, deps, g.edges[i].pred, j)
  }

  lemma {:induction false} PredsFront(edges: seq<Edge<nat>>, j: nat)
    requires edges != []
    ensures Preds(edges, j) == Preds(edges[1..], j) + (if edges[0].succ == j then [edges[0].pred] else [])
  {
    if |edges| > 1 {
      var k := |edges| - 1;
      var init, tail := edges[..k], edges[1..];
      PredsFront(init, j);
      assert init[1..] == tail[..k - 1] && init[0] == edges[0] && tail[k - 1] == edges[k];
      var last := if edges[k].succ == j then [edges[k].pred] else [];
      var first := if edges[0].succ == j then [edges[0].pred] else [];
      assert Preds(tail, j) == last + Preds(init[1..], j);
      assert last + (Preds(init[1..], j) + first) == (last + Preds(init[1..], j)) + first;
    }
  }

  lemma {:induction false} AgreeingKeys(g: Graph<nat>, deps: seq<Dependency>, jobs: seq<JobData>, j: nat,
                                        edges: seq<Edge<nat>>, k: string)
    requires forall i | 0 <= i < |edges| :: edges[i].info < |deps|
    requires forall i | 0 <= i < |edges| && Wants(deps, jobs, j, edges[i]) ::
               Key(deps[edges[i].info]) == LatestKey(g, deps, edges[i].pred, j)
    ensures Senders(g, deps, jobs, j, Preds(edges, j), k) == EdgeSenders(deps, jobs, j, edges, k)
    decreases |edges|
  {
    if edges != [] {
      PredsFront(edges, j);
      AgreeingKeys(g, deps, jobs, j, edges[1..], k);
      var preds, front := Preds(edges, j), Preds(edges[1..], j);
      if edges[0].succ == j {
        assert preds[..|preds| - 1] == front && preds[|preds| - 1] == edges[0].pred;
      } else {
        assert preds == front;
      }
    }
  }

  lemma {:induction false} SendersUseLatest(g: Graph<nat>, deps: seq<Dependency>, jobs: seq<JobData>, j: nat,
                                            preds: seq<nat>, k: string)
    ensures forall p | p in Senders(g, deps, jobs, j, preds, k) ::
              p in preds && p < |jobs| && jobs[p].exports != map[] && LatestKey(g, deps, p, j) == k
  {
    if preds != [] { SendersUseLatest(g, deps, jobs, j, preds[..|preds| - 1], k); }
  }

  lemma {:induction false} EdgeSends(deps: seq<Dependency>, jobs: seq<JobData>, j: nat, edges: seq<Edge<nat>>, i: nat)
    requires i < |edges| && Wants(deps, jobs, j, edges[i])
    ensures edges[i].pred in EdgeSenders(deps, jobs, j, edges, Key(deps[edges[i].info]))
  {
    if i > 0 {
      EdgeSends(deps, jobs, j, edges[1..], i - 1);
    }
  }

  /** The hand-over serves every edge under its own key exactly if parallel edges agree on their key:
      `edge()` sees only the last inserted of them. */
  lemma HandoverServesEdges(g: Graph<nat>, deps: seq<Dependency>, jobs: seq<JobData>, j: nat)
    requires Labelled(g, deps)
    ensures (forall k :: Senders(g, deps, jobs, j, Preds(g.edges, j), k) == EdgeSenders(deps, jobs, j, g.edges, k))
            <==> KeysAgree(g, deps, jobs, j)
  {
    if KeysAgree(g, deps, jobs, j) {
      forall k ensures Senders(g, deps, jobs, j, Preds(g.edges, j), k) == EdgeSenders(deps, jobs, j, g.edges, k) {
        AgreeingKeys(g, deps, jobs, j, g.edges, k);
      }
    } else {
      var i :| 0 <= i < |g.edges| && Wants(deps, jobs, j, g.edges[i]) &&
               Key(deps[g.edges[i].info]) != LatestKey(g, deps, g.edges[i].pred, j);
      var k := Key(deps[g.edges[i].info]);
      EdgeSends(deps, jobs, j, g.edges, i);
      SendersUseLatest(g, deps, jobs, j, Preds(g.edges, j), k);
      assert Senders(g, deps, jobs, j, Preds(g.edges, j), k) != EdgeSenders(deps, jobs, j, g.edges, k);
    }
  }

  /** At most one edge into j from every predecessor. */
  ghost predicate SingleEdges(g: Graph<nat>, j: nat) {
    forall i, m | 0 <= i < m < |g.edges| && g.edges[i].succ == g.edges[m].succ == j :: g.edges[i].pred != g.edges[m].pred
  }

  lemma {:induction false} LatestOfSingle(edges: seq<Edge<nat>>, i: nat)
    requires i < |edges|
    requires forall m | 0 <= m < |edges| && m != i :: !Joins(edges[m], edges[i].pred, edges[i].succ)
    ensures Infos(edges, edges[i].pred, edges[i].succ) == [edges[i].info]
  {
    var k := |edges| - 1;
    if i < k {
      LatestOfSingle(edges[..k], i);
    } else {
      NoInfos(edges[..k], edges[i].pred, edges[i].succ);
    }
  }

  lemma {:induction false} NoInfos(edges: seq<Edge<nat>>, a: nat, b: nat)
    requires forall m | 0 <= m < |edges| :: !Joins(edges[m], a, b)
    ensures Infos(edges, a, b) == []
  {
    if edges != [] { NoInfos(edges[..|edges| - 1], a, b); }
  }

  lemma SingleEdgesAgree(g: Graph<nat>, deps: seq<Dependency>, jobs: seq<JobData>, j: nat)
    requires Labelled(g, deps) && SingleEdges(g, j)
    ensures KeysAgree(g, deps, jobs, j)
  {
    forall i | 0 <= i < |g.edges| && Wants(deps, jobs, j, g.edges[i])
      ensures Key(deps[g.edges[i].info]) == LatestKey(g, deps, g.edges[i].pred, j)
    {
      LatestOfSingle(g.edges, i);
    }
  }

  // ------------------------------------------------------------- framing

  /** The hand-over to j depends on the exports of j's predecessors only. */
  lemma {:induction false} SendersFrame(g: Graph<nat>, deps: seq<Dependency>, a: seq<JobData>, b: seq<JobData>, j: nat,
                                        preds: seq<nat>, k: string)
    requires |a| == |b| && forall p | p in preds && p < |a| :: a[p].exports == b[p].exports
    ensures Senders(g, deps, a, j, preds, k) == Senders(g, deps, b, j, preds, k)
  {
    if preds != [] { SendersFrame(g, deps, a, b, j, preds[..|preds| - 1], k); }
  }

  lemma HandoverFrame(g: Graph<nat>, deps: seq<Dependency>, a: seq<JobData>, b: seq<JobData>, j: nat,
                      preds: seq<nat>, data: map<string, seq<ExportMap>>)
    requires |a| == |b| && forall p | p in preds && p < |a| :: a[p].exports == b[p].exports
    requires IsHandover(g, deps, a, j, preds, data)
    ensures IsHandover(g, deps, b, j, preds, data)
  {
    forall k ensures At(data, k) == ExportsOf(b, Senders(g, deps, b, j, preds, k)) {
      SendersFrame(g, deps, a, b, j, preds, k);
      SendersUseLatest(g, deps, a, j, preds, k);
      var ids := Senders(g, deps, a, j, preds, k);
      assert At(data, k) == ExportsOf(a, ids);
      forall i | 0 <= i < |ids| ensures ExportsOf(a, ids)[i] == ExportsOf(b, ids)[i] {
        assert ids[i] in ids;
      }
    }
  }
}
