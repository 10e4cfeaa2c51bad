/** The event loop of the run command: a job that is ready is dispatched, a job that finished is reported back. */
module RunLoops {
  import opened Options
  import opened Graphs
  import opened Jobs
  import opened Schedules
  import opened RunOrders
  import opened Handovers
  import opened SerialJobSchedulers

  /** What executing a job yields; a testcase without an Exports item exports nothing new. */
  datatype Outcome = Outcome(result: TestResult, exports: Option<ExportMap>)

  /** JobDispatcher::dispatch, as far as the job arena sees it. */
  method Dispatch(arena: JobArena, job: nat, outcome: Outcome)
    requires job < |arena.jobs|
    modifies arena
    ensures arena.jobs == old(arena.jobs)[job := Ran(old(arena.jobs)[job], outcome)]
  {
    arena.SetResult(job, outcome.result);
    if outcome.exports.Some? {
      arena.SetExports(job, outcome.exports.value);
    }
  }

  function Ran(job: JobData, outcome: Outcome): JobData {
    job.(result := outcome.result, exports := if outcome.exports.Some? then outcome.exports.value else job.exports)
  }

  /** The arena of a run, hand-overs aside: a job that is done is what executing it made of the job before the run, all
      others are as they were; and a job that was not dispatched received nothing. */
  ghost predicate Executed(before: seq<JobData>, jobs: seq<JobData>, done: seq<nat>, running: seq<nat>,
                           outcome: nat -> Outcome) {
    && |jobs| == |before|
    && forall n {:trigger ExecutedAt(before[n], jobs[n], n, done, running, outcome)} | 0 <= n < |jobs| ::
         ExecutedAt(before[n], jobs[n], n, done, running, outcome)
  }

  ghost predicate ExecutedAt(before: JobData, now: JobData, n: nat, done: seq<nat>, running: seq<nat>,
                             outcome: nat -> Outcome) {
    if n in done then now.(dependenciesData := before.dependenciesData) == Ran(before, outcome(n))
    else if n in running then now.(dependenciesData := before.dependenciesData) == before
    else now == before
  }

  /** Executing the running job, and dispatching the next one. */
  lemma ExecutedMore(before: seq<JobData>, jobs: seq<JobData>, done: seq<nat>, job: nat, outcome: nat -> Outcome)
    requires Executed(before, jobs, done, [job], outcome) && job < |jobs| && job !in done
    ensures Executed(before, jobs[job := Ran(jobs[job], outcome(job))], done + [job], [], outcome)
  {
    var after := jobs[job := Ran(jobs[job], outcome(job))];
    forall n: nat | n < |after| ensures ExecutedAt(before[n], after[n], n, done + [job], [], outcome) {
      assert ExecutedAt(before[n], jobs[n], n, done, [job], outcome);
    }
  }

  lemma DispatchedMore(before: seq<JobData>, jobs: seq<JobData>, done: seq<nat>, job: nat,
                       data: map<string, seq<ExportMap>>, outcome: nat -> Outcome)
    requires Executed(before, jobs, done, [], outcome) && job < |jobs| && job !in done
    ensures Executed(before, jobs[job := jobs[job].(dependenciesData := data)], done, [job], outcome)
  {
    var after := jobs[job := jobs[job].(dependenciesData := data)];
    forall n: nat | n < |after| ensures ExecutedAt(before[n], after[n], n, done, [job], outcome) {
      assert ExecutedAt(before[n], jobs[n], n, done, [], outcome);
    }
  }

  /** Every listed job holds what its predecessors hand over, judged by the exports in `jobs`. */
  ghost predicate Received(g: Graph<nat>, infos: seq<Dependency>, jobs: seq<JobData>, ids: seq<nat>) {
    forall n {:trigger ReceivedBy(g, infos, jobs, n)} | n in ids :: ReceivedBy(g, infos, jobs, n)
  }

  ghost predicate ReceivedBy(g: Graph<nat>, infos: seq<Dependency>, jobs: seq<JobData>, n: nat) {
    n < |jobs| && IsHandover(g, infos, jobs, n, Preds(g.edges, n), jobs[n].dependenciesData)
  }

  /** Running a job changes no hand-over that was made: its successors are dispatched later. */
  lemma RunKeepsReceived(g: Graph<nat>, infos: seq<Dependency>, jobs: seq<JobData>, s: State, job: nat, outcome: Outcome)
    requires Consistent(g, s, []) && s.running == [job] && job < |jobs|
    requires Received(g, infos, jobs, s.done + s.running)
    ensures Received(g, infos, jobs[job := Ran(jobs[job], outcome)], s.done + s.running)
  {
    var after := jobs[job := Ran(jobs[job], outcome)];
    forall n | n in s.done + s.running ensures ReceivedBy(g, infos, after, n) {
      assert ReceivedBy(g, infos, jobs, n);
      forall p | p in Preds(g.edges, n) ensures p != job {
        PredsAreEdges(g, p, n);
        DispatchedWaitsForNothing(g, s, n, p);
      }
      HandoverFrame(g, infos, jobs, after, n, Preds(g.edges, n), jobs[n].dependenciesData);
    }
  }

  lemma DispatchKeepsReceived(g: Graph<nat>, infos: seq<Dependency>, jobs: seq<JobData>, done: seq<nat>, job: nat,
                              data: map<string, seq<ExportMap>>)
    requires Received(g, infos, jobs, done) && job !in done && job < |jobs|
    requires IsHandover(g, infos, jobs, job, Preds(g.edges, job), data)
    ensures Received(g, infos, jobs[job := jobs[job].(dependenciesData := data)], done + [job])
  {
    var after := jobs[job := jobs[job].(dependenciesData := data)];
    forall n | n in done + [job] ensures ReceivedBy(g, infos, after, n) {
      if n != job { assert ReceivedBy(g, infos, jobs, n); }
      HandoverFrame(g, infos, jobs, after, n, Preds(g.edges, n), after[n].dependenciesData);
    }
  }

  lemma RootReceivesNothing(g: Graph<nat>, infos: seq<Dependency>, jobs: seq<JobData>, root: nat)
    requires root < |jobs| && Preds(g.edges, root) == [] && jobs[root].dependenciesData == map[]
    ensures Received(g, infos, jobs, [root])
  {
    assert forall k :: Senders(g, infos, jobs, root, [], k) == [];
    assert ReceivedBy(g, infos, jobs, root);
  }

  function ResultsOf(jobs: seq<nat>, outcome: nat -> Outcome): (r: seq<TestResult>)
    ensures |r| == |jobs|
  {
    seq(|jobs|, i requires 0 <= i < |jobs| => outcome(jobs[i]).result)
  }

  /** The state between two events of a run that began with the arena `before`. */
  ghost predicate Running(s: SerialJobScheduler, before: seq<JobData>, outcome: nat -> Outcome)
    reads s, s.dependencies, s.arena
  {
    && s.Valid()
    && (s.running == [] ==> s.readyList == [])
    && s.emitted == ReadySignals(s.done + s.running) + (if s.running == [] then [Finished] else [])
    && s.results == ResultsOf(s.done, outcome)
    && Received(s.G(), s.infos, s.arena.jobs, s.done + s.running)
    && Executed(before, s.arena.jobs, s.done, s.running, outcome)
    && Lined(s.G(), s.done, Line(s.Lists()))
  }

  /** One round trip: dispatch the running job, then onJobFinished. */
  method RunOne(s: SerialJobScheduler, job: nat, ghost before: seq<JobData>, outcome: nat -> Outcome)
    requires Running(s, before, outcome) && s.running == [job]
    modifies s, s.arena
    ensures Running(s, before, outcome) && s.done == old(s.done) + [job]
  {
    RunJob(s, job, before, outcome);
    ghost var jobs, done := s.arena.jobs, s.done;
    AfterJobLined(s.G(), s.Lists(), job);
    s.OnJobFinished(job);
    if s.running != [] {
      NextRuns(s, jobs, done, job, before, outcome);
    } else {
      NothingRuns(s, done, job, before, outcome);
    }
  }

  /** The job is done. */
  ghost predicate Reported(s: SerialJobScheduler, jobs: seq<JobData>, done: seq<nat>, job: nat, before: seq<JobData>,
                           outcome: nat -> Outcome)
    reads s, s.dependencies, s.arena
  {
    && s.Valid() && s.done == done + [job] && s.results == ResultsOf(done, outcome) + [outcome(job).result]
    && Received(s.G(), s.infos, jobs, s.done)
    && Executed(before, jobs, s.done, [], outcome)
    && Lined(s.G(), s.done, Line(s.Lists()))
  }

  lemma NextRuns(s: SerialJobScheduler, jobs: seq<JobData>, done: seq<nat>, job: nat, before: seq<JobData>,
                 outcome: nat -> Outcome)
    requires Reported(s, jobs, done, job, before, outcome) && |s.running| == 1
    requires s.emitted == ReadySignals(done + [job]) + [JobReady(s.running[0])]
    requires s.running[0] < |s.arena.jobs| && s.Dispatched(jobs, s.arena.jobs, s.running[0])
    ensures Running(s, before, outcome)
  {
    ResultsGrow(done, job, outcome);
    NextReceives(s, jobs, s.running[0], before, outcome);
    SignalsGrow(s.done, s.running[0]);
    assert s.running == [s.running[0]];
  }

  lemma NothingRuns(s: SerialJobScheduler, done: seq<nat>, job: nat, before: seq<JobData>, outcome: nat -> Outcome)
    requires Reported(s, s.arena.jobs, done, job, before, outcome) && s.running == [] && s.readyList == []
    requires s.emitted == ReadySignals(done + [job]) + [Finished]
    ensures Running(s, before, outcome)
  {
    ResultsGrow(done, job, outcome);
    assert s.done + s.running == s.done;
  }

  /** The running job is executed: result and exports are in the arena. */
  method RunJob(s: SerialJobScheduler, job: nat, ghost before: seq<JobData>, outcome: nat -> Outcome)
    requires Running(s, before, outcome) && s.running == [job]
    modifies s.arena
    ensures s.Valid() && s.emitted == ReadySignals(s.done + [job]) && s.results == ResultsOf(s.done, outcome)
    ensures Received(s.G(), s.infos, s.arena.jobs, s.done + [job])
    ensures job < |s.arena.jobs| && s.arena.jobs[job].result == outcome(job).result
    ensures Executed(before, s.arena.jobs, s.done + [job], [], outcome)
    ensures Lined(s.G(), s.done, Line(s.Lists()))
  {
    RunningJob(s, job);
    RunKeepsReceived(s.G(), s.infos, s.arena.jobs, s.Lists(), job, outcome(job));
    ExecutedMore(before, s.arena.jobs, s.done, job, outcome);
    Dispatch(s.arena, job, outcome(job));
  }

  lemma ResultsGrow(jobs: seq<nat>, job: nat, outcome: nat -> Outcome)
    ensures ResultsOf(jobs + [job], outcome) == ResultsOf(jobs, outcome) + [outcome(job).result]
  {
  }

  lemma SignalsGrow(jobs: seq<nat>, job: nat)
    ensures ReadySignals(jobs + [job]) == ReadySignals(jobs) + [JobReady(job)]
    ensures jobs + [] == jobs
  {
  }

  lemma RunningJob(s: SerialJobScheduler, job: nat)
    requires s.Valid() && s.running == [job]
    ensures job in s.G().nodes && job < |s.arena.jobs| && job !in s.done
  {
    WhereIs(s.G(), s.Lists(), job);
  }

  lemma NextReceives(s: SerialJobScheduler, jobs: seq<JobData>, job: nat, before: seq<JobData>, outcome: nat -> Outcome)
    requires s.Valid() && s.running == [job] && s.Dispatched(jobs, s.arena.jobs, job)
    requires Received(s.G(), s.infos, jobs, s.done) && Executed(before, jobs, s.done, [], outcome)
    ensures Received(s.G(), s.infos, s.arena.jobs, s.done + s.running)
    ensures Executed(before, s.arena.jobs, s.done, s.running, outcome)
  {
    RunningJob(s, job);
    DispatchKeepsReceived(s.G(), s.infos, jobs, s.done, job, s.arena.jobs[job].dependenciesData);
    DispatchedMore(before, jobs, s.done, job, s.arena.jobs[job].dependenciesData, outcome);
  }

  /** Every job without a cycle at or above it ran once, in turn, after its predecessors and with their exports: the arena holds
      what executing these jobs made of the jobs before the run, and what the jobs were handed. */
  ghost predicate Completed(s: SerialJobScheduler, before: seq<JobData>, outcome: nat -> Outcome)
    reads s, s.dependencies, s.arena
  {
    && s.emitted == ReadySignals(s.done) + [Finished]
    && Distinct(s.done) && Topological(s.G(), s.done) && InTurn(s.G(), s.done)
    && (forall n :: n in s.done <==> n in s.G().nodes && !CyclicAncestry(s.G(), n))
    && s.results == ResultsOf(s.done, outcome)
    && Received(s.G(), s.infos, s.arena.jobs, s.done)
    && Executed(before, s.arena.jobs, s.done, [], outcome)
  }

  /** Runs every job that can run, for any behaviour of the jobs. */
  method RunToCompletion(s: SerialJobScheduler, outcome: nat -> Outcome)
    requires s.Fresh() && (s.G().nodes != [] ==> HasRoot(s.G()))
    requires forall n | n in s.G().nodes :: s.arena.jobs[n].dependenciesData == map[]
    modifies s, s.arena
    ensures Completed(s, old(s.arena.jobs), outcome)
  {
    ghost var g := s.G();
    ghost var jobs := s.arena.jobs;
    s.Start();
    if s.emitted[0] != Finished {
      Begun(s, outcome);
      RunRest(s, jobs, outcome);
    } else {
      NothingToRun(s, outcome);
    }
  }

  lemma NothingToRun(s: SerialJobScheduler, outcome: nat -> Outcome)
    requires s.G().nodes == [] && s.emitted == [Finished] && s.done == [] && s.results == []
    ensures Completed(s, s.arena.jobs, outcome)
  {
  }

  lemma Begun(s: SerialJobScheduler, outcome: nat -> Outcome)
    requires s.Valid() && s.done == [] && s.results == [] && |s.running| == 1
    requires s.emitted == [JobReady(s.running[0])]
    requires Preds(s.G().edges, s.running[0]) == []
    requires s.running[0] in s.G().nodes && s.arena.jobs[s.running[0]].dependenciesData == map[]
    requires RootsInOrder(s.G(), s.running + s.readyList)
    ensures Running(s, s.arena.jobs, outcome)
  {
    RootReceivesNothing(s.G(), s.infos, s.arena.jobs, s.running[0]);
    assert s.done + s.running == s.running;
    assert Line(s.Lists()) == s.running + s.readyList;
    RootsLined(s.G(), s.Lists());
  }

  method RunRest(s: SerialJobScheduler, ghost before: seq<JobData>, outcome: nat -> Outcome)
    requires Running(s, before, outcome)
    modifies s, s.arena
    ensures Completed(s, before, outcome)
  {
    ghost var g := s.G();
    while s.emitted[|s.emitted| - 1] != Finished
      invariant g == s.G() && Running(s, before, outcome)
      decreases |g.nodes| - |s.done|
    {
      RunOne(s, s.emitted[|s.emitted| - 1].job, before, outcome);
      DoneFits(g, s.Lists());
    }
    assert s.done + s.running == s.done && Line(s.Lists()) == s.done;
    forall n ensures n in s.done <==> n in g.nodes && !CyclicAncestry(g, n) {
      WhereIs(g, s.Lists(), n);
      if n in g.nodes { StoppedIsComplete(g, s.Lists(), n); }
    }
    DoneDistinct(g, s.Lists());
  }

  lemma DoneFits(g: Graph<nat>, s: State)
    requires Partitions(g, s)
    ensures |s.done| + |s.running| <= |g.nodes|
  {
    assert |multiset(s.done) + multiset(s.running) + multiset(s.ready) + multiset(s.todo)| == |multiset(g.nodes)|;
  }
}
