/** The run command from the testcases to the last finished job. */
module Pipelines {
  import opened Options
  import opened Graphs
  import opened DirectedGraphs
  import opened Tags
  import opened Jobs
  import opened Handovers
  import opened Schedules
  import opened SerialJobSchedulers
  import opened RunLoops
  import opened JobTables
  import opened JobGraphs
  import X = Expansions
  import J = JobMultipliers
  import M = Matchings
  import R = DependencyResolvers
  import F = FirstPredecessors
  import B = CycleBlindness
  import C = CycleChecks

  /** A silent cycle check leaves a testcase without dependencies, whatever cycles it did not see. */
  lemma SilentHasRoot(tests: Graph<M.DependsItem>)
    requires Closed(tests) && tests.nodes != [] && forall n :: !F.OnFirstCycle(tests, n)
    ensures HasRoot(tests)
  {
    var n := tests.nodes[0];
    B.EndsInRoot(tests, n, []);
    var k: nat :| B.RootWalkOf(tests, n, k);
    var w :| B.RootWalk(tests, w, n) && |w| == k + 1;
    if |w| > 1 {
      assert HasEdge(tests, w[0], w[1]);
      EndpointsIn(tests, w[0], w[1]);
    }
    assert w[0] in tests.nodes && Preds(tests.edges, w[0]) == [];
  }

  /** The jobs of such a testcase are roots of the job graph. */
  lemma RootJobs(tests: Graph<M.DependsItem>, jobs: seq<JobData>, table: Table,
                 rowsOf: M.TagRows, evals: seq<M.Evaluation>, g: Graph<nat>)
    requires R.Resolved(tests, jobs, table, rowsOf, evals, g) && R.TableFits(jobs, table)
    requires HasRoot(tests) && forall n | n in tests.nodes :: M.JobsNamed(table, n) != []
    ensures HasRoot(g)
  {
    var root :| root in tests.nodes && Preds(tests.edges, root) == [];
    var job := M.JobsNamed(table, root)[0];
    var at := NamedIn(table, root, job);
    assert job in R.JobsIn(table);
    if Preds(g.edges, job) != [] {
      var p := Preds(g.edges, job)[0];
      PredsAreEdges(g, p, job);
      var i :| 0 <= i < |g.edges| && Joins(g.edges[i], p, job);
      EdgeProjects(tests, jobs, table, rowsOf, evals, g, i);
      PredsAreEdges(tests, M.NameOf(jobs, p), root);
    }
    assert job in g.nodes && Preds(g.edges, job) == [];
  }

  /** Resolution and scheduling of a job table, for any tags and any outcome of the jobs: exactly the jobs without a
      cycle at or above them run, each once, after the jobs it depends on. With an acyclic testcase graph these are
      all jobs. */
  method ResolveAndRun(arena: JobArena, table: Table, tests: DirectedGraph<M.DependsItem>, names: nat -> string,
                       rowsOf: M.TagRows, outcome: nat -> Outcome)
      returns (error: Option<nat>, s: SerialJobScheduler?, ghost evals: seq<M.Evaluation>)
    requires tests.Valid() && R.TableFits(arena.jobs, table)
    requires table != [] ==> HasRoot(tests.value)
    requires forall n | n in tests.value.nodes :: M.JobsNamed(table, n) != []
    requires forall i | 0 <= i < |table| :: arena.jobs[table[i].job].dependenciesData == map[]
    modifies arena
    ensures error.Some? ==>
              error.value in R.JobsIn(table) && R.HasMismatch(old(arena.jobs), tests.value, table, rowsOf, error.value)
    ensures error.None? ==>
              && s != null && fresh(s) && fresh(s.dependencies) && s.arena == arena && Completed(s, old(arena.jobs), outcome)
              && R.Resolved(tests.value, old(arena.jobs), table, rowsOf, evals, s.G())
              && R.Counted(names, evals, s.infos)
              && Labelled(s.G(), s.infos)
              && (Acyclic(tests.value) ==> forall n :: n in s.done <==> n in R.JobsIn(table))
  {
    s := null;
    ghost var jobs := arena.jobs;
    var jobGraph, infos;
    error, jobGraph, infos, evals := Resolve(arena, table, tests, names, rowsOf);
    if error.Some? {
      return;
    }
    ghost var g, graph := jobGraph.value, tests.value;
    CanStart(graph, jobs, table, rowsOf, evals, g);
    s := Schedule(arena, jobGraph, infos, outcome);
    assert tests.value == graph && s.G() == g;
    AllDone(graph, jobs, table, rowsOf, evals, g, s.done);
  }

  method Resolve(arena: JobArena, table: Table, tests: DirectedGraph<M.DependsItem>, names: nat -> string,
                 rowsOf: M.TagRows)
      returns (error: Option<nat>, jobGraph: DirectedGraph<nat>, infos: seq<Dependency>, ghost evals: seq<M.Evaluation>)
    requires tests.Valid() && R.TableFits(arena.jobs, table)
    ensures fresh(jobGraph)
    ensures error.Some? ==>
              error.value in R.JobsIn(table) && R.HasMismatch(arena.jobs, tests.value, table, rowsOf, error.value)
    ensures error.None? ==>
              && jobGraph.Valid() && R.Resolved(tests.value, arena.jobs, table, rowsOf, evals, jobGraph.value)
              && R.Counted(names, evals, infos) && |infos| == |evals|
  {
    var resolver := new R.DependencyResolver(tests, names, rowsOf, arena);
    error := resolver.CompleteResolve(table);
    jobGraph, infos, evals := resolver.jobGraph, resolver.dependencies, resolver.evals;
  }

  lemma CanStart(tests: Graph<M.DependsItem>, jobs: seq<JobData>, table: Table,
                 rowsOf: M.TagRows, evals: seq<M.Evaluation>, g: Graph<nat>)
    requires R.Resolved(tests, jobs, table, rowsOf, evals, g) && R.TableFits(jobs, table)
    requires table != [] ==> HasRoot(tests)
    requires forall n | n in tests.nodes :: M.JobsNamed(table, n) != []
    ensures Closed(g) && (forall i | 0 <= i < |g.edges| :: g.edges[i].info < |evals|)
    ensures forall n | n in g.nodes :: n in R.JobsIn(table)
    ensures g.nodes != [] ==> HasRoot(g)
  {
    JobGraphClosed(tests, jobs, table, rowsOf, evals, g);
    assert g.nodes == [] || g.nodes[0] in R.JobsIn(table);
    if table != [] {
      RootJobs(tests, jobs, table, rowsOf, evals, g);
    }
  }

  lemma AllDone(tests: Graph<M.DependsItem>, jobs: seq<JobData>, table: Table,
                rowsOf: M.TagRows, evals: seq<M.Evaluation>, g: Graph<nat>, done: seq<nat>)
    requires R.Resolved(tests, jobs, table, rowsOf, evals, g) && R.TableFits(jobs, table)
    requires forall n :: n in done <==> n in g.nodes && !CyclicAncestry(g, n)
    ensures Acyclic(tests) ==> forall n :: n in done <==> n in R.JobsIn(table)
  {
    if Acyclic(tests) {
      JobGraphAcyclic(tests, jobs, table, rowsOf, evals, g);
      AcyclicHasNoCyclicAncestry(g);
    }
  }

  method Schedule(arena: JobArena, jobGraph: DirectedGraph<nat>, infos: seq<Dependency>, outcome: nat -> Outcome)
      returns (s: SerialJobScheduler)
    requires jobGraph.Valid() && Closed(jobGraph.value) && Labelled(jobGraph.value, infos)
    requires jobGraph.value.nodes != [] ==> HasRoot(jobGraph.value)
    requires forall n | n in jobGraph.value.nodes :: n < |arena.jobs| && arena.jobs[n].dependenciesData == map[]
    modifies arena
    ensures fresh(s) && s.dependencies == jobGraph && s.infos == infos && s.arena == arena
    ensures jobGraph.value == old(jobGraph.value) && Completed(s, old(arena.jobs), outcome)
  {
    s := new SerialJobScheduler(jobGraph, infos, arena);
    RunToCompletion(s, outcome);
  }

  /** How a run ends; a job is unresolved if one of its items matches nothing or has no value. */
  datatype Ending = CyclicDependency | BadMatrix | Unresolved(job: nat) | Ran

  /** What the stages made: the interned strings, the tag sets of every matrix, the jobs with the table that files
      them and their tag sets by testcase, and the evaluations of the Depends items. */
  datatype Stages = Stages(
    strings: seq<string>, ids: map<string, nat>, expanded: seq<seq<TagSet>>, jobs: seq<JobData>, table: Table,
    tags: map<nat, seq<TagSet>>, evals: seq<M.Evaluation>)

  /** Cycle check, multiplication, resolution, execution, for any testcases and any dependencies among them. The run
      is refused for a cycle exactly if the check sees one; otherwise the scheduler always has a job to begin with,
      and runs what has no cycle at or above it: everything, if there is no cycle. */
  method Run(tests: DirectedGraph<M.DependsItem>, testcases: seq<nat>, matrices: seq<J.Matrix>, names: nat -> string,
             exportsOf: nat -> ExportMap, settable: (nat, string) -> bool,
             rowsOf: M.TagRows, outcome: nat -> Outcome)
      returns (ending: Ending, s: SerialJobScheduler?, ghost made: Stages)
    requires tests.Valid() && Closed(tests.value) && Distinct(testcases)
    requires forall n :: n in tests.value.nodes <==> n in testcases
    requires forall m | 0 <= m < |matrices| :: X.NonEmpty(matrices[m].dims)
    ensures ending.CyclicDependency? <==> exists n :: F.OnFirstCycle(tests.value, n)
    ensures !ending.CyclicDependency? ==>
              (ending.BadMatrix? <==>
                 exists m :: 0 <= m < |matrices| && Unusable(matrices[m], testcases, names, settable))
    ensures ending.Unresolved? ==>
              && MultipliedAs(made, testcases, matrices, names, exportsOf)
              && ending.job in R.JobsIn(made.table)
              && R.HasMismatch(made.jobs, tests.value, made.table, rowsOf, ending.job)
    ensures ending.Ran? ==>
              && s != null && fresh(s)
              && RanAll(tests.value, made, testcases, matrices, names, exportsOf, rowsOf, s, outcome)
  {
    s, made := null, Stages([], map[], [], [], [], map[], []);
    ghost var g := tests.value;
    var check := new C.CycleCheck<M.DependsItem>(tests);
    var reports, at := check.Check();
    C.CheckDecidesFirstCycles(g, reports, at);
    if |reports| > 0 {
      return CyclicDependency, s, made;
    }
    var arena := new JobArena();
    var tagTable := new TagTable();
    var multiplier := new JobMultiplier(arena, tagTable, names, exportsOf, settable);
    var ok, expanded := multiplier.Multiply(testcases, matrices);
    if !ok {
      return BadMatrix, s, made;
    }
    made := Stages(tagTable.stringsById, tagTable.idByStrings, expanded, arena.jobs, multiplier.jobs, multiplier.tags, []);
    EveryTestcaseHasJobs(made.jobs, made.table, made.tags, testcases, matrices, expanded, names);
    if testcases != [] {
      assert testcases[0] in g.nodes;
      SilentHasRoot(g);
    }
    var error, scheduler, evaluations := ResolveAndRun(arena, multiplier.jobs, tests, names, rowsOf, outcome);
    s, made := scheduler, made.(evals := evaluations);
    if error.Some? {
      return Unresolved(error.value), s, made;
    }
    ending := Ran;
  }

  /** Every testcase has one job per tag set of each matrix that covers it, or one untagged job, and nothing else is in
      the table; the tag sets are the interned combinations of the matrices' rows, the exports those of the testcase;
      of one testcase, the table lists the job made last first. */
  ghost predicate MultipliedAs(made: Stages, testcases: seq<nat>, matrices: seq<J.Matrix>, names: nat -> string,
                               exportsOf: nat -> ExportMap) {
    && Interned(made.strings, made.ids) && AllExpanded(made.strings, matrices, made.expanded)
    && Multiplied(made.tags, testcases, matrices, made.expanded, names)
    && Lists(made.jobs, made.table, made.tags) && NewJobs(made.jobs, made.table, exportsOf)
    && Filed(made.jobs, made.table, 0)
    && (forall n | n in testcases :: M.JobsNamed(made.table, n) != [])
  }

  /** The jobs are those of the matrices, their dependencies those of the Depends items with name, alias and count;
      exactly the jobs without a cycle at or above them ran, once, after all jobs they depend on and with their
      exports; and if no testcase depends on itself, all jobs did. */
  ghost predicate RanAll(tests: Graph<M.DependsItem>, made: Stages, testcases: seq<nat>, matrices: seq<J.Matrix>,
                         names: nat -> string, exportsOf: nat -> ExportMap, rowsOf: M.TagRows,
                         s: SerialJobScheduler, outcome: nat -> Outcome)
    reads s, s.dependencies, s.arena
  {
    && MultipliedAs(made, testcases, matrices, names, exportsOf)
    && R.Resolved(tests, made.jobs, made.table, rowsOf, made.evals, s.G())
    && R.Counted(names, made.evals, s.infos) && Labelled(s.G(), s.infos)
    && Completed(s, made.jobs, outcome)
    && (Acyclic(tests) ==> forall n :: n in s.done <==> n in R.JobsIn(made.table))
  }

  /** What a job exports in the end: what executing it yields, and what its testcase exports if that is nothing new. */
  function FinalExports(jobs: seq<JobData>, exportsOf: nat -> ExportMap, outcome: nat -> Outcome): nat -> ExportMap {
    (p: nat) => if outcome(p).exports.Some? then outcome(p).exports.value else exportsOf(M.NameOf(jobs, p))
  }

  /** The jobs that hand something over to job j under key k, in the order in which it receives: one per edge. */
  function Suppliers(infos: seq<Dependency>, edges: seq<Edge<nat>>, exports: nat -> ExportMap, j: nat, k: string): seq<nat> {
    if edges == [] then []
    else
      var e := edges[0];
      Suppliers(infos, edges[1..], exports, j, k) +
      (if e.succ == j && exports(e.pred) != map[] && e.info < |infos| && Key(infos[e.info]) == k then [e.pred] else [])
  }

  /** The hand-over of a whole run, told by what went into it: where parallel edges agree on their key, as they do if no
      two items link the same jobs, every job that ran holds, under every key, the non-empty final exports of exactly
      those jobs from which an edge with that alias or name leads to it, and these all ran before. */
  lemma RunHandsOver(tests: Graph<M.DependsItem>, made: Stages, testcases: seq<nat>, matrices: seq<J.Matrix>,
                     names: nat -> string, exportsOf: nat -> ExportMap, rowsOf: M.TagRows,
                     s: SerialJobScheduler, outcome: nat -> Outcome, i: nat, k: string)
    requires RanAll(tests, made, testcases, matrices, names, exportsOf, rowsOf, s, outcome)
    requires i < |s.done| && KeysAgree(s.G(), s.infos, s.arena.jobs, s.done[i])
    ensures HandedOver(s.G(), s.infos, s.arena.jobs, s.done, i, k, FinalExports(made.jobs, exportsOf, outcome))
  {
    PredsRan(tests, made, testcases, matrices, names, exportsOf, rowsOf, s, outcome, i);
    HandsOver(s.G(), s.infos, s.arena.jobs, s.done, i, k, FinalExports(made.jobs, exportsOf, outcome));
  }

  /** The predecessors of a job that ran, ran before it, and hold their final exports. */
  lemma PredsRan(tests: Graph<M.DependsItem>, made: Stages, testcases: seq<nat>, matrices: seq<J.Matrix>,
                 names: nat -> string, exportsOf: nat -> ExportMap, rowsOf: M.TagRows,
                 s: SerialJobScheduler, outcome: nat -> Outcome, i: nat)
    requires RanAll(tests, made, testcases, matrices, names, exportsOf, rowsOf, s, outcome) && i < |s.done|
    ensures ExportsFinal(s.G(), s.arena.jobs, s.done, i, FinalExports(made.jobs, exportsOf, outcome))
  {
    var exports := FinalExports(made.jobs, exportsOf, outcome);
    forall p | p in Preds(s.G().edges, s.done[i])
      ensures p in s.done[..i] && p < |s.arena.jobs| && s.arena.jobs[p].exports == exports(p)
    {
      PredsAreEdges(s.G(), p, s.done[i]);
      assert Follows(s.G(), s.done, i);
      assert p in s.G().nodes;
      FinalExportsOf(made, s.arena.jobs, s.G().nodes, s.done, exportsOf, outcome, p);
    }
  }

  ghost predicate ExportsFinal(g: Graph<nat>, jobs: seq<JobData>, done: seq<nat>, i: nat, exports: nat -> ExportMap)
    requires i < |done|
  {
    forall p | p in Preds(g.edges, done[i]) :: p in done[..i] && p < |jobs| && jobs[p].exports == exports(p)
  }

  lemma FinalExportsOf(made: Stages, jobs: seq<JobData>, nodes: seq<nat>, done: seq<nat>, exportsOf: nat -> ExportMap,
                       outcome: nat -> Outcome, p: nat)
    requires NewJobs(made.jobs, made.table, exportsOf) && R.NodesAre(nodes, made.table) && p in nodes
    requires Executed(made.jobs, jobs, done, [], outcome) && p in done
    ensures p < |jobs| && jobs[p].exports == FinalExports(made.jobs, exportsOf, outcome)(p)
  {
    var i :| 0 <= i < |made.table| && made.table[i].job == p;
    assert NewJob(made.jobs, made.table[i], exportsOf);
    assert ExecutedAt(made.jobs[p], jobs[p], p, done, [], outcome);
  }

  ghost predicate HandedOver(g: Graph<nat>, infos: seq<Dependency>, jobs: seq<JobData>, done: seq<nat>, i: nat, k: string,
                             exports: nat -> ExportMap)
    requires i < |done|
  {
    var suppliers := Suppliers(infos, g.edges, exports, done[i], k);
    && done[i] < |jobs| && |At(jobs[done[i]].dependenciesData, k)| == |suppliers|
    && (forall m | 0 <= m < |suppliers| :: At(jobs[done[i]].dependenciesData, k)[m] == exports(suppliers[m]))
    && forall p | p in suppliers :: p in done[..i]
  }

  lemma HandsOver(g: Graph<nat>, infos: seq<Dependency>, jobs: seq<JobData>, done: seq<nat>, i: nat, k: string,
                  exports: nat -> ExportMap)
    requires Labelled(g, infos) && Received(g, infos, jobs, done)
    requires i < |done| && KeysAgree(g, infos, jobs, done[i])
    requires ExportsFinal(g, jobs, done, i, exports)
    ensures HandedOver(g, infos, jobs, done, i, k, exports)
  {
    var n := done[i];
    assert ReceivedBy(g, infos, jobs, n);
    HandoverServesEdges(g, infos, jobs, n);
    var senders := EdgeSenders(infos, jobs, n, g.edges, k);
    assert senders == Senders(g, infos, jobs, n, Preds(g.edges, n), k);
    SendersUseLatest(g, infos, jobs, n, Preds(g.edges, n), k);
    SendersSupply(infos, jobs, n, g.edges, k, exports);
    forall m | 0 <= m < |senders| ensures ExportsOf(jobs, senders)[m] == exports(senders[m]) {
      assert senders[m] in senders;
    }
  }

  lemma {:induction false} SendersSupply(infos: seq<Dependency>, jobs: seq<JobData>, j: nat, edges: seq<Edge<nat>>,
                                         k: string, exports: nat -> ExportMap)
    requires forall p | p in Preds(edges, j) :: p < |jobs| && jobs[p].exports == exports(p)
    ensures EdgeSenders(infos, jobs, j, edges, k) == Suppliers(infos, edges, exports, j, k)
  {
    if edges != [] {
      PredsFront(edges, j);
      assert forall p | p in Preds(edges[1..], j) :: p in Preds(edges, j);
      SendersSupply(infos, jobs, j, edges[1..], k, exports);
      assert edges[0].succ == j ==> edges[0].pred in Preds(edges, j);
    }
  }

  lemma EveryTestcaseHasJobs(jobs: seq<JobData>, table: Table, tags: map<nat, seq<TagSet>>, testcases: seq<nat>,
                             matrices: seq<J.Matrix>, expanded: seq<seq<TagSet>>, names: nat -> string)
    requires Lists(jobs, table, tags) && Multiplied(tags, testcases, matrices, expanded, names)
    ensures forall n | n in testcases :: M.JobsNamed(table, n) != []
    ensures table != [] ==> testcases != []
  {
    forall n: nat ensures M.JobsNamed(table, n) != [] <==> n in testcases {
      var w := Wanted(testcases, matrices, expanded, names, n, |matrices|);
      assert Holds(tags, n, Final(testcases, matrices, expanded, names, n));
      assert TagList(jobs, M.JobsNamed(table, n)) == if n in tags then tags[n] else [];
    }
    if table != [] {
      NamedOrNot(table, table[0].name);
      assert table[0] in table;
    }
  }
}
