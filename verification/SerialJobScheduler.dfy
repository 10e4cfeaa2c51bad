/** SerialJobScheduler and the event loop that connects it with the dispatcher. */
module SerialJobSchedulers {
  import opened Graphs
  import opened DirectedGraphs
  import opened Jobs
  import opened Schedules
  import opened Handovers

  datatype Signal = JobReady(job: nat) | Finished

  function ReadySignals(jobs: seq<nat>): (r: seq<Signal>)
    ensures |r| == |jobs|
  {
    seq(|jobs|, i requires 0 <= i < |jobs| => JobReady(jobs[i]))
  }

  class SerialJobScheduler {
    const dependencies: DirectedGraph<nat>
    const infos: seq<Dependency>
    const arena: JobArena
    var todo: seq<nat>
    var done: seq<nat>
    var dependencyCounts: map<nat, nat>
    var readyList: seq<nat>
    var results: seq<TestResult>
    var emitted: seq<Signal>
    ghost var running: seq<nat>

    ghost function Lists(): State
      reads this
    {
      State(done, running, readyList, todo, dependencyCounts)
    }

    ghost function G(): Graph<nat>
      reads dependencies
    {
      dependencies.value
    }

    /** Before start. */
    ghost predicate Fresh()
      reads this, dependencies, arena
    {
      && dependencies.Valid() && Closed(G()) && Labelled(G(), infos)
      && (forall n | n in G().nodes :: n < |arena.jobs|)
      && done == readyList == running == [] && results == [] && emitted == []
    }

    /** Between two events, and while a job runs. */
    ghost predicate Valid()
      reads this, dependencies, arena
    {
      && dependencies.Valid() && Labelled(G(), infos)
      && (forall n | n in G().nodes :: n < |arena.jobs|)
      && Consistent(G(), Lists(), [])
      && |results| == |done|
    }

    constructor (jobs: DirectedGraph<nat>, infos: seq<Dependency>, arena: JobArena)
      requires jobs.Valid() && Closed(jobs.value) && Labelled(jobs.value, infos)
      requires forall n | n in jobs.value.nodes :: n < |arena.jobs|
      ensures Fresh() && dependencies == jobs && this.infos == infos && this.arena == arena
    {
      dependencies, this.infos, this.arena := jobs, infos, arena;
      todo, done, dependencyCounts, readyList, results := [], [], map[], [], [];
      emitted, running := [], [];
    }

    method Start()
      requires Fresh()
      requires G().nodes != [] ==> HasRoot(G())
      modifies this
      ensures dependencies.value.nodes == [] ==> emitted == [Finished] && done == [] && results == []
      ensures dependencies.value.nodes != [] ==>
                && Valid() && done == [] && results == [] && |running| == 1 && emitted == [JobReady(running[0])]
                && running[0] in G().nodes && Preds(G().edges, running[0]) == []
                && RootsInOrder(G(), running + readyList)
    {
      if dependencies.IsEmpty() {
        emitted := emitted + [Finished];
        return;
      }
      FillLists();
      DispatchFirst();
    }

    /** Roots to the ready list, all other jobs to the todo list, in-degrees to the counters. */
    method FillLists()
      requires Fresh() && HasRoot(G())
      modifies this`done, this`todo, this`readyList, this`dependencyCounts
      ensures Valid() && done == running == [] && results == [] && emitted == []
      ensures readyList != [] && readyList[0] in G().nodes && Preds(G().edges, readyList[0]) == []
      ensures RootsInOrder(G(), readyList)
    {
      done := [];
      TakeRoots();
      CountDependencies();
      RootIsReady(G(), readyList);
      StartEstablishes(G(), Lists());
    }

    /** The end of start. */
    method DispatchFirst()
      requires Valid() && running == [] && readyList != []
      modifies this`readyList, this`running, this`emitted
      ensures Valid() && done == old(done) && results == old(results)
      ensures running == [old(readyList)[0]] && emitted == old(emitted) + [JobReady(running[0])]
      ensures running + readyList == old(readyList)
    {
      DispatchKeeps(G(), Lists());
      running := [readyList[0]];
      emitted := emitted + [JobReady(readyList[0])];
      readyList := readyList[1..];
      assert Lists() == old(Lists()).(running := running, ready := readyList);
    }

    /** The first loop of start: the roots move from the todo list to the ready list. */
    method TakeRoots()
      requires dependencies.Valid() && readyList == []
      modifies this`todo, this`readyList
      ensures multiset(readyList) + multiset(todo) == multiset(G().nodes)
      ensures RootsInOrder(G(), readyList)
    {
      todo := dependencies.nodes;
      var roots := dependencies.Roots();
      MoveToReady(roots);
      assert RootsInOrder(G(), roots);
    }

    method MoveToReady(roots: seq<nat>)
      requires Ascending(roots) && readyList == [] && forall k | 0 <= k < |roots| :: roots[k] in todo
      modifies this`todo, this`readyList
      ensures readyList == roots && multiset(readyList) + multiset(todo) == multiset(old(todo))
    {
      for i := 0 to |roots|
        invariant readyList == roots[..i]
        invariant multiset(readyList) + multiset(todo) == multiset(old(todo))
        invariant forall k | i <= k < |roots| :: roots[k] in todo
      {
        RootLeft(todo, roots, i);
        assert roots[..i + 1] == roots[..i] + [roots[i]];
        todo := Without(todo, roots[i]);
        readyList := readyList + [roots[i]];
      }
      assert roots[..|roots|] == roots;
    }

    /** The second loop of start: every job counts its incoming edges. */
    method CountDependencies()
      requires dependencies.Valid()
      modifies this`dependencyCounts
      ensures InDegrees(G(), dependencyCounts)
    {
      var all := dependencies.nodes;
      for i := 0 to |all|
        invariant forall n | n in all[..i] ::
                    n in dependencyCounts && dependencyCounts[n] == |Preds(G().edges, n)|
      {
        dependencyCounts := dependencyCounts[all[i] := |dependencies.Predecessors(all[i])|];
      }
      assert all[..|all|] == all;
    }

    method OnJobFinished(finishedJob: nat)
      requires Valid() && running == [finishedJob]
      modifies this, arena
      ensures Valid() && done == old(done) + [finishedJob]
      ensures finishedJob < |old(arena.jobs)|
      ensures results == old(results) + [old(arena.jobs)[finishedJob].result]
      ensures Lists() == AfterJob(G(), old(Lists()), finishedJob)
      ensures running == [] ==> readyList == [] && emitted == old(emitted) + [Finished] && arena.jobs == old(arena.jobs)
      ensures running != [] ==>
                && |running| == 1 && emitted == old(emitted) + [JobReady(running[0])]
                && running[0] < |arena.jobs|
                && Dispatched(old(arena.jobs), arena.jobs, running[0])
    {
      TakeResult(finishedJob);
      if readyList != [] {
        DispatchNext();
      } else {
        emitted := emitted + [Finished];
      }
    }

    /** The first half of onJobFinished: the job is done, and some of its successors become ready. */
    method TakeResult(finishedJob: nat)
      requires Valid() && running == [finishedJob]
      modifies this`done, this`results, this`running, this`todo, this`readyList, this`dependencyCounts
      ensures Valid() && done == old(done) + [finishedJob] && running == []
      ensures finishedJob < |arena.jobs| && results == old(results) + [arena.jobs[finishedJob].result]
      ensures Lists() == Release(old(Lists()).(done := done, running := []), Succs(G().edges, finishedJob))
    {
      ghost var g := G();
      WhereIs(g, Lists(), finishedJob);
      FinishKeeps(g, Lists(), finishedJob);
      done := done + [finishedJob];
      results := results + [arena.jobs[finishedJob].result];
      running := [];
      assert Lists() == old(Lists()).(done := done, running := []);
      ReleaseDependents(finishedJob);
    }

    /** The end of onJobFinished: the next ready job gets its data and is dispatched. */
    method DispatchNext()
      requires Valid() && running == [] && readyList != []
      modifies this`readyList, this`running, this`emitted, arena
      ensures Valid() && |running| == 1 && emitted == old(emitted) + [JobReady(running[0])]
      ensures running[0] < |arena.jobs| && Dispatched(old(arena.jobs), arena.jobs, running[0])
      ensures Lists() == old(Lists()).(running := [old(readyList)[0]], ready := old(readyList)[1..])
    {
      ghost var g := G();
      DispatchKeeps(g, Lists());
      WhereIs(g, Lists(), readyList[0]);
      var nextJob := readyList[0];
      var multiDependencies := CollectExports(nextJob);
      readyList := readyList[1..];
      running := [nextJob];
      arena.SetDependenciesData(nextJob, multiDependencies);
      emitted := emitted + [JobReady(nextJob)];
      assert Lists() == old(Lists()).(running := running, ready := readyList);
    }

    /** Only the data of the dispatched job changed, and it is what its predecessors hand over. */
    ghost predicate Dispatched(before: seq<JobData>, after: seq<JobData>, job: nat)
      reads dependencies
    {
      && job < |before| == |after|
      && after == before[job := before[job].(dependenciesData := after[job].dependenciesData)]
      && IsHandover(G(), infos, before, job, Preds(G().edges, job), after[job].dependenciesData)
    }

    /** The loop of onJobFinished over the successors of the finished job. */
    method ReleaseDependents(finishedJob: nat)
      requires dependencies.Valid() && Consistent(G(), Lists(), Succs(G().edges, finishedJob))
      modifies this`todo, this`readyList, this`dependencyCounts
      ensures Consistent(G(), Lists(), []) && Lists() == Release(old(Lists()), Succs(G().edges, finishedJob))
    {
      var dependents := dependencies.Successors(finishedJob);
      assert dependents[0..] == dependents;
      ghost var g := G();
      for i := 0 to |dependents|
        invariant g == G() && Consistent(g, Lists(), dependents[i..])
        invariant Release(Lists(), dependents[i..]) == Release(old(Lists()), dependents)
      {
        assert dependents[i..] == [dependents[i]] + dependents[i + 1..];
        ReleaseDependent(dependents[i], dependents[i + 1..]);
      }
      assert dependents[|dependents|..] == [];
    }

    method ReleaseDependent(dependent: nat, ghost rest: seq<nat>)
      requires Consistent(G(), Lists(), [dependent] + rest)
      modifies this`todo, this`readyList, this`dependencyCounts
      ensures Consistent(G(), Lists(), rest) && Release(Lists(), rest) == Release(old(Lists()), [dependent] + rest)
    {
      assert ([dependent] + rest)[1..] == rest;
      SuccessorWaits(G(), Lists(), dependent, rest);
      CountDownKeeps(G(), Lists(), dependent, rest);
      dependencyCounts := dependencyCounts[dependent := dependencyCounts[dependent] - 1];
      if dependencyCounts[dependent] == 0 {
        dependencyCounts := dependencyCounts - {dependent};
        todo, readyList := Without(todo, dependent), readyList + [dependent];
        assert dependencyCounts == old(dependencyCounts) - {dependent};
      }
      assert Lists() == CountDown(old(Lists()), dependent);
    }

    /** The loop of onJobFinished over the predecessors of the next job. */
    method CollectExports(nextJob: nat) returns (data: map<string, seq<ExportMap>>)
      requires dependencies.Valid() && Closed(G()) && Labelled(G(), infos)
      requires forall n | n in G().nodes :: n < |arena.jobs|
      ensures IsHandover(G(), infos, arena.jobs, nextJob, Preds(G().edges, nextJob), data)
    {
      data := map[];
      var preds := dependencies.Predecessors(nextJob);
      for i := 0 to |preds|
        invariant IsHandover(G(), infos, arena.jobs, nextJob, preds[..i], data)
      {
        var predecessor := preds[i];
        assert predecessor in preds;
        PredsAreEdges(G(), predecessor, nextJob);
        InfoInRange(G().edges, infos, predecessor, nextJob);
        EndpointsIn(G(), predecessor, nextJob);
        HandoverStep(G(), infos, arena.jobs, nextJob, preds, i, data);
        if arena.jobs[predecessor].exports != map[] {
          var dependency := infos[dependencies.TheEdge(predecessor, nextJob)];
          var alias := if dependency.alias == "" then dependency.name else dependency.alias;
          data := data[alias := At(data, alias) + [arena.jobs[predecessor].exports]];
        }
      }
      assert preds[..|preds|] == preds;
    }
  }

  lemma RootLeft(todo: seq<nat>, roots: seq<nat>, i: nat)
    requires Ascending(roots) && i < |roots| && forall k | i <= k < |roots| :: roots[k] in todo
    ensures forall k | i < k < |roots| :: roots[k] in Without(todo, roots[i])
  {
    forall k | i < k < |roots| ensures roots[k] in Without(todo, roots[i]) {
      assert multiset(todo)[roots[k]] > 0 && roots[k] != roots[i];
    }
  }

  lemma HandoverStep(g: Graph<nat>, deps: seq<Dependency>, jobs: seq<JobData>, j: nat, preds: seq<nat>, i: nat,
                     data: map<string, seq<ExportMap>>)
    requires i < |preds| && preds[i] < |jobs|
    requires IsHandover(g, deps, jobs, j, preds[..i], data)
    ensures jobs[preds[i]].exports == map[] ==> IsHandover(g, deps, jobs, j, preds[..i + 1], data)
    ensures jobs[preds[i]].exports != map[] ==>
              var alias := LatestKey(g, deps, preds[i], j);
              IsHandover(g, deps, jobs, j, preds[..i + 1], data[alias := At(data, alias) + [jobs[preds[i]].exports]])
  {
    var longer := preds[..i + 1];
    assert longer[..|longer| - 1] == preds[..i];
    var alias := LatestKey(g, deps, preds[i], j);
    var next := if jobs[preds[i]].exports == map[] then data
                else data[alias := At(data, alias) + [jobs[preds[i]].exports]];
    forall k ensures At(next, k) == ExportsOf(jobs, Senders(g, deps, jobs, j, longer, k)) {
      assert At(data, k) == ExportsOf(jobs, Senders(g, deps, jobs, j, preds[..i], k));
      OneSenderMore(g, deps, jobs, j, longer, k);
    }
  }

  lemma OneSenderMore(g: Graph<nat>, deps: seq<Dependency>, jobs: seq<JobData>, j: nat, preds: seq<nat>, k: string)
    requires preds != [] && preds[|preds| - 1] < |jobs|
    ensures var p := preds[|preds| - 1];
            ExportsOf(jobs, Senders(g, deps, jobs, j, preds, k)) ==
              ExportsOf(jobs, Senders(g, deps, jobs, j, preds[..|preds| - 1], k)) +
              if jobs[p].exports != map[] && LatestKey(g, deps, p, j) == k then [jobs[p].exports] else []
  {
  }
}
