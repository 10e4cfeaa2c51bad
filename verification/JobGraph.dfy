/** What the job graph inherits from the testcase graph. */
module JobGraphs {
  import opened Options
  import opened Graphs
  import opened Jobs
  import opened Handovers
  import opened Matchings
  import opened DependencyResolvers

  lemma {:induction false} NamedIn(table: seq<JobEntry>, name: nat, p: nat) returns (i: nat)
    requires p in JobsNamed(table, name)
    ensures i < |table| && table[i] == JobEntry(name, p)
  {
    if table[0] == JobEntry(name, p) {
      i := 0;
    } else {
      i := NamedIn(table[1..], name, p);
      i := i + 1;
    }
  }

  /** Every edge of the job graph joins two jobs of the table and projects to an edge of the testcase graph;
      the evaluation it belongs to is the one its label names. */
  lemma EdgeProjects(tests: Graph<DependsItem>, jobs: seq<JobData>, table: seq<JobEntry>,
                     rowsOf: TagRows, evals: seq<Evaluation>, g: Graph<nat>, i: nat)
    requires Resolved(tests, jobs, table, rowsOf, evals, g) && TableFits(jobs, table) && i < |g.edges|
    ensures var e := g.edges[i];
            e.pred in g.nodes && e.succ in g.nodes && e.info < |evals|
            && HasEdge(tests, NameOf(jobs, e.pred), NameOf(jobs, e.succ))
            && NameOf(jobs, e.pred) == evals[e.info].name
  {
    EdgeComesFrom(evals, i);
    var e := g.edges[i];
    var v := evals[e.info];
    assert MatchOf(jobs, table, rowsOf, v.job, v.name, v.item) == Some(v.matched);
    var ours := TagsOf(jobs, v.job);
    MatchesArePreceding(ours, v.item, TagRowsFor(v.item, rowsOf, v.job).value, JobsNamed(table, v.name), jobs);
    var k := NamedIn(table, v.name, e.pred);
    assert e.pred in JobsIn(table);
    EvaluationHasEdge(tests, jobs, table, rowsOf, evals, g, e.info);
  }

  lemma EvaluationHasEdge(tests: Graph<DependsItem>, jobs: seq<JobData>, table: seq<JobEntry>,
                          rowsOf: TagRows, evals: seq<Evaluation>, g: Graph<nat>, k: nat)
    requires Resolved(tests, jobs, table, rowsOf, evals, g) && k < |evals|
    ensures evals[k].job in JobsIn(table) && HasEdge(tests, evals[k].name, NameOf(jobs, evals[k].job))
    ensures evals[k].item in Infos(tests.edges, evals[k].name, NameOf(jobs, evals[k].job))
  {
    var v := evals[k];
    ItemListed(evals, k);
    assert table[..|table|] == table;
    assert NoneEvaluated(evals, v.job) ==> ItemsFor(evals, v.job, v.name) == [];
    var i :| 0 <= i < |table| && table[i].job == v.job;
    assert AllEvaluated(tests, jobs, evals, table[i].job);
    assert Evaluated(tests, jobs, evals, v.job, v.name);
    PredsAreEdges(tests, v.name, NameOf(jobs, v.job));
  }

  lemma {:induction false} ItemListed(evals: seq<Evaluation>, k: nat)
    requires k < |evals|
    ensures evals[k].item in ItemsFor(evals, evals[k].job, evals[k].name)
  {
    var last := |evals| - 1;
    if k < last { ItemListed(evals[..last], k); }
  }

  lemma JobGraphClosed(tests: Graph<DependsItem>, jobs: seq<JobData>, table: seq<JobEntry>,
                       rowsOf: TagRows, evals: seq<Evaluation>, g: Graph<nat>)
    requires Resolved(tests, jobs, table, rowsOf, evals, g) && TableFits(jobs, table)
    ensures Closed(g) && forall i | 0 <= i < |g.edges| :: g.edges[i].info < |evals|
  {
    forall i | 0 <= i < |g.edges| ensures Inside(g, i) && g.edges[i].info < |evals| {
      EdgeProjects(tests, jobs, table, rowsOf, evals, g, i);
    }
  }

  /** For any table and any tags: a walk through the job graph projects to a walk through the testcase graph. */
  lemma JobGraphAcyclic(tests: Graph<DependsItem>, jobs: seq<JobData>, table: seq<JobEntry>,
                        rowsOf: TagRows, evals: seq<Evaluation>, g: Graph<nat>)
    requires Resolved(tests, jobs, table, rowsOf, evals, g) && TableFits(jobs, table) && Acyclic(tests)
    ensures Acyclic(g)
  {
    forall w ensures !IsClosedWalk(g, w) {
      if IsClosedWalk(g, w) {
        var v := seq(|w|, i requires 0 <= i < |w| => NameOf(jobs, w[i]));
        forall i | 0 <= i < |v| - 1 ensures HasEdge(tests, v[i], v[i + 1]) {
          assert HasEdge(g, w[i], w[i + 1]);
          var k :| 0 <= k < |g.edges| && Joins(g.edges[k], w[i], w[i + 1]);
          EdgeProjects(tests, jobs, table, rowsOf, evals, g, k);
        }
        assert IsClosedWalk(tests, v);
      }
    }
  }

  /** Resolution succeeds exactly if no job has an item without a value, or one that asks for a one-to-one relation
      which the table does not have. */
  lemma ResolvedMeansNoMismatch(tests: Graph<DependsItem>, jobs: seq<JobData>, table: seq<JobEntry>,
                                rowsOf: TagRows, evals: seq<Evaluation>, g: Graph<nat>,
                                job: nat, name: nat, item: DependsItem)
    requires Resolved(tests, jobs, table, rowsOf, evals, g) && job in JobsIn(table)
    ensures !Mismatch(jobs, tests, table, rowsOf, job, name, item)
  {
    if item in Infos(tests.edges, name, NameOf(jobs, job)) {
      var i :| 0 <= i < |table| && table[i].job == job;
      assert AllEvaluated(tests, jobs, evals, table[i].job);
      assert Evaluated(tests, jobs, evals, job, name);
      var k := ItemEvaluated(evals, job, name, item);
      assert MatchOf(jobs, table, rowsOf, evals[k].job, evals[k].name, evals[k].item) == Some(evals[k].matched);
    }
  }

  /** The shared count of a Dependency is the number of edges that carry its handle. */
  lemma CountIsShared(names: nat -> string, evals: seq<Evaluation>, deps: seq<Dependency>, k: nat)
    requires Counted(names, evals, deps) && k < |deps|
    ensures deps[k].count == Sharing(AllEdges(evals), k)
    ensures deps[k].name == names(evals[k].name) && deps[k].alias == evals[k].item.alias
  {
    EvaluationShares(evals, k);
  }

  // -------------------------------------------------- two items for one pair

  /** Testcase 1 depends on testcase 0 by two items with different aliases. */
  function TwoAliases(): Graph<DependsItem> {
    Graph([0, 1], [Edge(0, 1, FIRST), Edge(0, 1, SECOND)])
  }

  const FIRST: DependsItem := DependsItem(0, "first", false)
  const SECOND: DependsItem := DependsItem(1, "second", false)

  /** One untagged job each; testcase 0 exports something. */
  function TwoJobs(): seq<JobData> {
    [JobData(0, {}, map["version" := "1"], Unfinished, map[]), JobData(1, {}, map[], Unfinished, map[])]
  }

  const TWO_ENTRIES: seq<JobEntry> := [JobEntry(0, 0), JobEntry(1, 1)]

  function TwoEvaluations(): seq<Evaluation> {
    [Evaluation(1, 0, SECOND, [0]), Evaluation(1, 0, FIRST, [0])]
  }

  lemma ParallelEdges<E>(x: E, y: E, a: nat, b: nat)
    ensures Infos([Edge(0, 1, x), Edge(0, 1, y)], a, b) == if a == 0 && b == 1 then [y, x] else []
    ensures Preds([Edge(0, 1, x), Edge(0, 1, y)], 1) == [0, 0]
  {
    var edges := [Edge(0, 1, x), Edge(0, 1, y)];
    var first := [Edge(0, 1, x)];
    assert edges[..1] == first && first[..0] == [];
    assert Infos(first, a, b) == (if a == 0 && b == 1 then [x] else []) + Infos(first[..0], a, b);
    assert Preds(first, 1) == [0] + Preds(first[..0], 1);
  }

  lemma PairOfEvaluations(e: Evaluation, d: Evaluation, job: nat, name: nat)
    ensures ItemsFor([e, d], job, name) ==
            (if e.job == job && e.name == name then [e.item] else []) +
            (if d.job == job && d.name == name then [d.item] else [])
    ensures AllEdges([e, d]) == EdgesTo(e.job, e.matched, 0) + EdgesTo(d.job, d.matched, 1)
  {
    assert [] + [e] == [e] && [e] + [d] == [e, d];
    ItemsForGrows([], e, job, name);
    ItemsForGrows([e], d, job, name);
    assert ItemsFor([], job, name) == [] && AllEdges([]) == [];
  }

  lemma TwoItems(job: nat, name: nat)
    ensures ItemsFor(TwoEvaluations(), job, name) == if job == 1 && name == 0 then [SECOND, FIRST] else []
    ensures Infos(TwoAliases().edges, name, job) == if job == 1 && name == 0 then [SECOND, FIRST] else []
  {
    ParallelEdges(FIRST, SECOND, name, job);
    PairOfEvaluations(Evaluation(1, 0, SECOND, [0]), Evaluation(1, 0, FIRST, [0]), job, name);
  }

  lemma TwoEdges()
    ensures AllEdges(TwoEvaluations()) == [Edge(0, 1, 0), Edge(0, 1, 1)]
  {
    PairOfEvaluations(Evaluation(1, 0, SECOND, [0]), Evaluation(1, 0, FIRST, [0]), 0, 0);
    assert EdgesTo(1, [0], 0) == [Edge(0, 1, 0)] && EdgesTo(1, [0], 1) == [Edge(0, 1, 1)];
  }

  const TWO_EDGES: Graph<nat> := Graph([0, 1], [Edge(0, 1, 0), Edge(0, 1, 1)])

  function TwoDependencies(names: nat -> string): seq<Dependency> {
    [Dependency(names(0), "second", 1), Dependency(names(0), "first", 1)]
  }

  /** A resolved job graph whose parallel edges disagree on their key: the exports of the first job arrive twice under
      one alias, and not at all under the other. */
  lemma AliasesCollide(rowsOf: TagRows, names: nat -> string)
    ensures Closed(TwoAliases()) && TableFits(TwoJobs(), TWO_ENTRIES)
    ensures Resolved(TwoAliases(), TwoJobs(), TWO_ENTRIES, rowsOf, TwoEvaluations(), TWO_EDGES)
    ensures Counted(names, TwoEvaluations(), TwoDependencies(names))
    ensures !KeysAgree(TWO_EDGES, TwoDependencies(names), TwoJobs(), 1)
    ensures Senders(TWO_EDGES, TwoDependencies(names), TwoJobs(), 1, Preds(TWO_EDGES.edges, 1), "first") == [0, 0]
    ensures Senders(TWO_EDGES, TwoDependencies(names), TwoJobs(), 1, Preds(TWO_EDGES.edges, 1), "second") == []
  {
    TwoClosed();
    TwoResolved(rowsOf, TWO_EDGES);
    TwoCounted(names);
    TwoKeys(TWO_EDGES, TwoDependencies(names));
  }

  lemma TwoClosed()
    ensures Closed(TwoAliases()) && TableFits(TwoJobs(), TWO_ENTRIES)
  {
    var tests := TwoAliases();
    forall i | 0 <= i < |tests.edges| ensures Inside(tests, i) {}
  }

  lemma TwoCounted(names: nat -> string)
    ensures Counted(names, TwoEvaluations(), TwoDependencies(names))
    ensures var deps := TwoDependencies(names); |deps| == 2 && Key(deps[0]) == "second" && Key(deps[1]) == "first"
  {
  }

  lemma TwoKeys(g: Graph<nat>, deps: seq<Dependency>)
    requires g.edges == [Edge(0, 1, 0), Edge(0, 1, 1)]
    requires |deps| == 2 && Key(deps[0]) == "second" && Key(deps[1]) == "first"
    ensures !KeysAgree(g, deps, TwoJobs(), 1)
    ensures Senders(g, deps, TwoJobs(), 1, Preds(g.edges, 1), "first") == [0, 0]
    ensures Senders(g, deps, TwoJobs(), 1, Preds(g.edges, 1), "second") == []
  {
    var jobs := TwoJobs();
    ParallelEdges<nat>(0, 1, 0, 1);
    assert "version" in jobs[0].exports;
    assert LatestKey(g, deps, 0, 1) == "first";
    assert Wants(deps, jobs, 1, g.edges[0]);
    OneSender(g, deps, jobs, "first");
    OneSender(g, deps, jobs, "second");
  }

  lemma OneSender(g: Graph<nat>, deps: seq<Dependency>, jobs: seq<JobData>, k: string)
    requires jobs == TwoJobs() && jobs[0].exports != map[] && LatestKey(g, deps, 0, 1) == "first"
    ensures Senders(g, deps, jobs, 1, [0, 0], k) == if k == "first" then [0, 0] else []
  {
    var both: seq<nat> := [0, 0];
    var one: seq<nat> := [0];
    assert both[..1] == one && one[..0] == [];
    assert Senders(g, deps, jobs, 1, one, k) ==
           Senders(g, deps, jobs, 1, one[..0], k) + if k == "first" then [0] else [];
  }

  lemma TwoFaithful(rowsOf: TagRows)
    ensures Faithful(TwoJobs(), TWO_ENTRIES, rowsOf, TwoEvaluations())
  {
    var table := TWO_ENTRIES;
    assert table[1..] == [JobEntry(1, 1)] && table[1..][1..] == [];
    assert JobsNamed(table[1..], 0) == [];
    assert JobsNamed(table, 0) == [0];
  }

  lemma TwoResolved(rowsOf: TagRows, g: Graph<nat>)
    requires g == Graph([0, 1], [Edge(0, 1, 0), Edge(0, 1, 1)])
    ensures Resolved(TwoAliases(), TwoJobs(), TWO_ENTRIES, rowsOf, TwoEvaluations(), g)
  {
    var tests, jobs, evals, table := TwoAliases(), TwoJobs(), TwoEvaluations(), TWO_ENTRIES;
    TwoEdges();
    TwoFaithful(rowsOf);
    assert table[0] == JobEntry(0, 0) && table[1] == JobEntry(1, 1);
    assert JobsIn(table) == {0, 1} by { assert table[0].job == 0 && table[1].job == 1; }
    assert table[..|table|] == table;
    forall job: nat, name: nat
      ensures ItemsFor(evals, job, name) == if job == 1 && name == 0 then [SECOND, FIRST] else []
      ensures Infos(tests.edges, name, job) == if job == 1 && name == 0 then [SECOND, FIRST] else []
    {
      TwoItems(job, name);
    }
    forall k | 0 <= k < |table| ensures AllEvaluated(tests, jobs, evals, table[k].job) {
      assert NameOf(jobs, table[k].job) == table[k].job;
    }
  }
}
