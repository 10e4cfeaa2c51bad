/** DependencyResolver::completeResolve: from the testcase graph and the job table to the job graph. */
module DependencyResolvers {
  import opened Options
  import opened Graphs
  import opened DirectedGraphs
  import opened Tags
  import opened Jobs
  import opened Handovers
  import opened Matchings

  /** The match of one item for one job; what its tag expressions yield for the job is given by `rowsOf`. */
  function MatchOf(jobs: seq<JobData>, table: seq<JobEntry>, rowsOf: TagRows,
                   job: nat, name: nat, item: DependsItem): Option<seq<nat>> {
    MatchAmong(jobs, JobsNamed(table, name), rowsOf, job, item)
  }

  function MatchAmong(jobs: seq<JobData>, preceding: seq<nat>, rowsOf: TagRows, job: nat, item: DependsItem)
      : Option<seq<nat>>
  {
    match TagRowsFor(item, rowsOf, job)
    case None => None
    case Some(rows) => Matches(TagsOf(jobs, job), item, rows, preceding, jobs)
  }

  /** Each evaluation matched what its item asks for. */
  ghost predicate Faithful(jobs: seq<JobData>, table: seq<JobEntry>, rowsOf: TagRows,
                           evals: seq<Evaluation>) {
    forall k {:trigger evals[k]} | 0 <= k < |evals| ::
      MatchOf(jobs, table, rowsOf, evals[k].job, evals[k].name, evals[k].item) == Some(evals[k].matched)
  }

  ghost predicate Counted(names: nat -> string, evals: seq<Evaluation>, deps: seq<Dependency>) {
    && |deps| == |evals|
    && forall k {:trigger deps[k]} | 0 <= k < |deps| ::
         deps[k] == Dependency(names(evals[k].name), evals[k].item.alias, |evals[k].matched|)
  }

  /** All items that lead from testcase `name` to the testcase of `job` were evaluated for it, in their order. */
  ghost predicate Evaluated(tests: Graph<DependsItem>, jobs: seq<JobData>, evals: seq<Evaluation>, job: nat, name: nat) {
    ItemsFor(evals, job, name) == Infos(tests.edges, name, NameOf(jobs, job))
  }

  ghost predicate AllEvaluated(tests: Graph<DependsItem>, jobs: seq<JobData>, evals: seq<Evaluation>, job: nat) {
    forall name {:trigger Evaluated(tests, jobs, evals, job, name)} :: Evaluated(tests, jobs, evals, job, name)
  }

  ghost predicate NoneEvaluated(evals: seq<Evaluation>, job: nat) {
    forall name {:trigger ItemsFor(evals, job, name)} :: ItemsFor(evals, job, name) == []
  }

  class DependencyResolver {
    const testcaseGraph: DirectedGraph<DependsItem>
    const names: nat -> string
    const rowsOf: TagRows
    const arena: JobArena
    const jobGraph: DirectedGraph<nat>
    var dependencies: seq<Dependency>
    ghost var evals: seq<Evaluation>

    ghost predicate Valid()
      reads this, testcaseGraph, jobGraph
    {
      && testcaseGraph.Valid() && jobGraph.Valid()
      && jobGraph.value.edges == AllEdges(evals)
      && Counted(names, evals, dependencies)
    }

    constructor (tests: DirectedGraph<DependsItem>, names: nat -> string,
                 rowsOf: TagRows, arena: JobArena)
      requires tests.Valid()
      ensures Valid() && evals == [] && jobGraph.value.nodes == [] && fresh(jobGraph)
      ensures testcaseGraph == tests && this.names == names && this.rowsOf == rowsOf && this.arena == arena
    {
      testcaseGraph, this.names, this.rowsOf, this.arena := tests, names, rowsOf, arena;
      jobGraph := new DirectedGraph<nat>();
      dependencies, evals := [], [];
    }

    /** incrementCount and insertEdge: all edges of one evaluation carry the handle k of one shared Dependency. */
    method Link(precedingJob: nat, currentJob: nat, k: nat)
      requires jobGraph.Valid() && k < |dependencies|
      modifies this`dependencies, jobGraph
      ensures jobGraph.Valid()
      ensures dependencies == old(dependencies)[k := old(dependencies)[k].(count := old(dependencies)[k].count + 1)]
      ensures jobGraph.value ==
              old(jobGraph.value).(edges := old(jobGraph.value.edges) + [Edge(precedingJob, currentJob, k)])
    {
      dependencies := dependencies[k := dependencies[k].(count := dependencies[k].count + 1)];
      jobGraph.InsertEdge(precedingJob, currentJob, k);
    }

    /** The last dependency counts the edges that were linked to `job` since `before`. */
    ghost predicate Linked(before: Graph<nat>, deps: seq<Dependency>, blank: Dependency, job: nat, matched: seq<nat>)
      reads this, jobGraph
    {
      && jobGraph.Valid()
      && dependencies == deps + [blank.(count := |matched|)]
      && jobGraph.value == before.(edges := before.edges + EdgesTo(job, matched, |deps|))
    }

    method LinkNext(precedingJob: nat, currentJob: nat, ghost before: Graph<nat>, ghost deps: seq<Dependency>,
                    ghost blank: Dependency, ghost matched: seq<nat>)
      requires Linked(before, deps, blank, currentJob, matched)
      modifies this`dependencies, jobGraph
      ensures Linked(before, deps, blank, currentJob, matched + [precedingJob])
    {
      Link(precedingJob, currentJob, |dependencies| - 1);
      assert EdgesTo(currentJob, matched + [precedingJob], |deps|) ==
             EdgesTo(currentJob, matched, |deps|) + [Edge(precedingJob, currentJob, |deps|)];
    }

    /** Any job with the dependency's name. */
    method LinkAll(currentJob: nat, precedingJobs: seq<nat>, ghost before: Graph<nat>, ghost deps: seq<Dependency>,
                   ghost blank: Dependency)
      requires Linked(before, deps, blank, currentJob, [])
      modifies this`dependencies, jobGraph
      ensures Linked(before, deps, blank, currentJob, precedingJobs)
    {
      for i := 0 to |precedingJobs|
        invariant Linked(before, deps, blank, currentJob, precedingJobs[..i])
      {
        assert precedingJobs[..i + 1] == precedingJobs[..i] + [precedingJobs[i]];
        LinkNext(precedingJobs[i], currentJob, before, deps, blank, precedingJobs[..i]);
      }
      assert precedingJobs[..|precedingJobs|] == precedingJobs;
    }

    /** The first job with our tags. */
    method LinkEqual(currentJob: nat, precedingJobs: seq<nat>, ourTags: TagSet, ghost before: Graph<nat>,
                     ghost deps: seq<Dependency>, ghost blank: Dependency) returns (matched: bool)
      requires Linked(before, deps, blank, currentJob, [])
      modifies this`dependencies, jobGraph
      ensures matched <==> WithTags(precedingJobs, arena.jobs, ourTags) != []
      ensures !matched ==> Linked(before, deps, blank, currentJob, [])
      ensures matched ==> Linked(before, deps, blank, currentJob, [WithTags(precedingJobs, arena.jobs, ourTags)[0]])
    {
      matched := false;
      for i := 0 to |precedingJobs|
        invariant !matched && WithTags(precedingJobs[..i], arena.jobs, ourTags) == []
        invariant Linked(before, deps, blank, currentJob, [])
      {
        var upTo := precedingJobs[..i + 1];
        assert upTo[..|upTo| - 1] == precedingJobs[..i];
        if TagsOf(arena.jobs, precedingJobs[i]) == ourTags {
          LinkNext(precedingJobs[i], currentJob, before, deps, blank, []);
          matched := true;
          FirstWithTags(precedingJobs, arena.jobs, ourTags, i);
          return;
        }
      }
      assert precedingJobs[..|precedingJobs|] == precedingJobs;
    }

    /** For each row, every job with the tags of that row. */
    method LinkRows(currentJob: nat, precedingJobs: seq<nat>, rows: seq<TagSet>, ghost before: Graph<nat>,
                    ghost deps: seq<Dependency>, ghost blank: Dependency)
      requires Linked(before, deps, blank, currentJob, [])
      modifies this`dependencies, jobGraph
      ensures Linked(before, deps, blank, currentJob, WithRows(precedingJobs, arena.jobs, rows))
    {
      for r := 0 to |rows|
        invariant Linked(before, deps, blank, currentJob, WithRows(precedingJobs, arena.jobs, rows[..r]))
      {
        ghost var earlier := WithRows(precedingJobs, arena.jobs, rows[..r]);
        assert earlier + WithTags(precedingJobs[..0], arena.jobs, rows[r]) == earlier;
        for i := 0 to |precedingJobs|
          invariant Linked(before, deps, blank, currentJob,
                           earlier + WithTags(precedingJobs[..i], arena.jobs, rows[r]))
        {
          var upTo := precedingJobs[..i + 1];
          assert upTo[..|upTo| - 1] == precedingJobs[..i];
          ghost var sofar := earlier + WithTags(precedingJobs[..i], arena.jobs, rows[r]);
          if TagsOf(arena.jobs, precedingJobs[i]) == rows[r] {
            LinkNext(precedingJobs[i], currentJob, before, deps, blank, sofar);
            assert sofar + [precedingJobs[i]] == earlier + WithTags(upTo, arena.jobs, rows[r]);
          } else {
            assert sofar == earlier + WithTags(upTo, arena.jobs, rows[r]);
          }
        }
        assert precedingJobs[..|precedingJobs|] == precedingJobs;
        assert rows[..r + 1][..r] == rows[..r];
      }
      assert rows[..|rows|] == rows;
    }

    /** The three flavours of matching. */
    method LinkMatches(currentJob: nat, ourTags: TagSet, item: DependsItem, rows: seq<TagSet>, precedingJobs: seq<nat>,
                       ghost before: Graph<nat>, ghost deps: seq<Dependency>, ghost blank: Dependency)
        returns (matched: bool)
      requires Linked(before, deps, blank, currentJob, [])
      modifies this`dependencies, jobGraph
      ensures var m := Matches(ourTags, item, rows, precedingJobs, arena.jobs);
              && (matched <==> m.Some?)
              && Linked(before, deps, blank, currentJob, if matched then m.value else [])
    {
      var weAreTagged := ourTags != {};
      var dependencyIsTagged := |precedingJobs| > 1;
      matched := true;
      if !item.specifiesTags {
        if !weAreTagged || !dependencyIsTagged {
          LinkAll(currentJob, precedingJobs, before, deps, blank);
        } else {
          matched := LinkEqual(currentJob, precedingJobs, ourTags, before, deps, blank);
        }
      } else {
        LinkRows(currentJob, precedingJobs, rows, before, deps, blank);
      }
    }

    /** One Depends item, evaluated for one job. False is the error of the evaluation or of a mismatch, after which the
        program exits. */
    method ResolveItem(currentJob: nat, ourTags: TagSet, dependencyName: nat, item: DependsItem, precedingJobs: seq<nat>)
        returns (matched: bool)
      requires Valid() && ourTags == TagsOf(arena.jobs, currentJob)
      modifies this`dependencies, this`evals, jobGraph
      ensures var m := MatchAmong(arena.jobs, precedingJobs, rowsOf, currentJob, item);
              && (matched <==> m.Some?)
              && (matched ==> Valid() && evals == old(evals) + [Evaluation(currentJob, dependencyName, item, m.value)])
      ensures jobGraph.value.nodes == old(jobGraph.value.nodes)
      ensures testcaseGraph.Valid() && testcaseGraph.value == old(testcaseGraph.value)
    {
      var rows := TagRowsFor(item, rowsOf, currentJob);
      if rows.None? {
        return false;
      }
      ghost var before, deps := jobGraph.value, dependencies;
      var dependency := Dependency(names(dependencyName), item.alias, 0);
      dependencies := dependencies + [dependency];
      assert before.edges + EdgesTo(currentJob, [], |deps|) == before.edges;
      matched := LinkMatches(currentJob, ourTags, item, rows.value, precedingJobs, before, deps, dependency);
      if matched {
        ghost var m := MatchAmong(arena.jobs, precedingJobs, rowsOf, currentJob, item).value;
        ghost var e := Evaluation(currentJob, dependencyName, item, m);
        Recorded(names, evals, deps, e);
        evals := evals + [e];
      }
    }

    /** The loop over the Depends items that lead from one testcase to the testcase of one job. */
    method ResolveName(table: seq<JobEntry>, currentJob: nat, dependencyName: nat) returns (matched: bool)
      requires Valid() && Faithful(arena.jobs, table, rowsOf, evals)
      requires currentJob < |arena.jobs| && ItemsFor(evals, currentJob, dependencyName) == []
      modifies this`dependencies, this`evals, jobGraph
      ensures jobGraph.value.nodes == old(jobGraph.value.nodes)
      ensures testcaseGraph.Valid() && testcaseGraph.value == old(testcaseGraph.value)
      ensures matched ==>
                && Valid() && Faithful(arena.jobs, table, rowsOf, evals)
                && Evaluated(testcaseGraph.value, arena.jobs, evals, currentJob, dependencyName)
                && OnlyFor(old(evals), evals, currentJob, dependencyName)
      ensures !matched ==> HasMismatch(arena.jobs, testcaseGraph.value, table, rowsOf, currentJob)
    {
      var items := testcaseGraph.Edges(dependencyName, arena.jobs[currentJob].name);
      ghost var tests, start, jobs := testcaseGraph.value, evals, arena.jobs;
      for i := 0 to |items|
        invariant Valid() && testcaseGraph.value == tests && jobGraph.value.nodes == old(jobGraph.value.nodes)
        invariant arena.jobs == jobs
        invariant ItemsDone(jobs, table, rowsOf, start, evals, currentJob, dependencyName, items[..i])
      {
        ghost var earlier := evals;
        matched := ResolveItem(currentJob, arena.jobs[currentJob].tags, dependencyName, items[i],
                               JobsNamed(table, dependencyName));
        if !matched {
          assert Mismatch(jobs, tests, table, rowsOf, currentJob, dependencyName, items[i]);
          return;
        }
        ItemDone(jobs, table, rowsOf, start, earlier, evals[|earlier|], items, i);
      }
      assert items[..|items|] == items;
      matched := true;
    }

    /** The loop over the names of the testcases that the job's testcase depends on. */
    method ResolveJob(table: seq<JobEntry>, currentJob: nat) returns (matched: bool)
      requires Valid() && Faithful(arena.jobs, table, rowsOf, evals)
      requires currentJob < |arena.jobs| && NoneEvaluated(evals, currentJob)
      modifies this`dependencies, this`evals, jobGraph
      ensures jobGraph.value.nodes == old(jobGraph.value.nodes)
      ensures testcaseGraph.Valid() && testcaseGraph.value == old(testcaseGraph.value)
      ensures matched ==>
                && Valid() && Faithful(arena.jobs, table, rowsOf, evals)
                && AllEvaluated(testcaseGraph.value, arena.jobs, evals, currentJob)
                && OnlyForJob(old(evals), evals, currentJob)
      ensures !matched ==> HasMismatch(arena.jobs, testcaseGraph.value, table, rowsOf, currentJob)
    {
      var dependencyNames := set n | n in testcaseGraph.Predecessors(arena.jobs[currentJob].name);
      ghost var tests, start := testcaseGraph.value, evals;
      NothingElse(tests, arena.jobs, evals, currentJob, dependencyNames);
      while dependencyNames != {}
        invariant Valid() && Faithful(arena.jobs, table, rowsOf, evals)
        invariant testcaseGraph.value == tests && jobGraph.value.nodes == old(jobGraph.value.nodes)
        invariant Remaining(tests, arena.jobs, evals, currentJob, dependencyNames)
        invariant OnlyForJob(start, evals, currentJob)
      {
        var dependencyName :| dependencyName in dependencyNames;
        ghost var earlier := evals;
        matched := ResolveName(table, currentJob, dependencyName);
        if !matched {
          return;
        }
        NameDone(tests, arena.jobs, start, earlier, evals, currentJob, dependencyNames, dependencyName);
        dependencyNames := dependencyNames - {dependencyName};
      }
      JobDone(tests, arena.jobs, evals, currentJob);
      matched := true;
    }

    /** Inserts every job, then resolves every job. The result names a job with an item that matches nothing or has no
        value. */
    method CompleteResolve(table: seq<JobEntry>) returns (error: Option<nat>)
      requires Valid() && evals == [] && jobGraph.value.nodes == []
      requires TableFits(arena.jobs, table)
      modifies this`dependencies, this`evals, jobGraph
      ensures testcaseGraph.Valid() && testcaseGraph.value == old(testcaseGraph.value)
      ensures error.None? ==>
                && jobGraph.Valid()
                && Resolved(testcaseGraph.value, arena.jobs, table, rowsOf, evals, jobGraph.value)
                && Counted(names, evals, dependencies)
      ensures error.Some? ==>
                error.value in JobsIn(table) && HasMismatch(arena.jobs, testcaseGraph.value, table, rowsOf, error.value)
    {
      InsertJobs(table);
      ghost var tests, nodes := testcaseGraph.value, jobGraph.value.nodes;
      for i := 0 to |table|
        invariant Valid() && Faithful(arena.jobs, table, rowsOf, evals)
        invariant testcaseGraph.value == tests && jobGraph.value.nodes == nodes
        invariant AllBefore(tests, arena.jobs, table, evals, i)
      {
        ghost var earlier := evals;
        var matched := ResolveJob(table, table[i].job);
        if !matched {
          return Some(table[i].job);
        }
        EntryDone(tests, arena.jobs, table, earlier, evals, i);
      }
      error := None;
    }

    method InsertJobs(table: seq<JobEntry>)
      requires Valid() && evals == [] && jobGraph.value.nodes == []
      modifies jobGraph
      ensures Valid() && testcaseGraph.value == old(testcaseGraph.value)
      ensures NodesAre(jobGraph.value.nodes, table)
    {
      ghost var tests := testcaseGraph.value;
      for i := 0 to |table|
        invariant Valid() && testcaseGraph.value == tests && NodesAre(jobGraph.value.nodes, table[..i])
      {
        NodesGrow(jobGraph.value.nodes, table, i);
        jobGraph.InsertNode(table[i].job);
      }
      assert table[..|table|] == table;
    }

  }

  lemma {:induction false} FirstWithTags(preceding: seq<nat>, jobs: seq<JobData>, row: TagSet, i: nat)
    requires i < |preceding| && TagsOf(jobs, preceding[i]) == row && WithTags(preceding[..i], jobs, row) == []
    ensures WithTags(preceding, jobs, row) != [] && WithTags(preceding, jobs, row)[0] == preceding[i]
    decreases |preceding|
  {
    var k := |preceding| - 1;
    if i < k {
      assert preceding[..k][..i] == preceding[..i];
      FirstWithTags(preceding[..k], jobs, row, i);
    }
  }

  ghost predicate Mismatch(jobs: seq<JobData>, tests: Graph<DependsItem>, table: seq<JobEntry>,
                           rowsOf: TagRows, job: nat, name: nat, item: DependsItem) {
    item in Infos(tests.edges, name, NameOf(jobs, job)) && MatchOf(jobs, table, rowsOf, job, name, item).None?
  }

  /** Some Depends item asks for a one-to-one relation that the job does not have, or cannot be evaluated for it. */
  ghost predicate HasMismatch(jobs: seq<JobData>, tests: Graph<DependsItem>, table: seq<JobEntry>,
                              rowsOf: TagRows, job: nat) {
    exists name, item :: Mismatch(jobs, tests, table, rowsOf, job, name, item)
  }

  /** Only evaluations for (job, name) were added. */
  ghost predicate OnlyFor(before: seq<Evaluation>, after: seq<Evaluation>, job: nat, name: nat) {
    forall j, n {:trigger ItemsFor(after, j, n)} | j != job || n != name :: ItemsFor(after, j, n) == ItemsFor(before, j, n)
  }

  /** The first items of one name were evaluated for one job. */
  ghost predicate ItemsDone(jobs: seq<JobData>, table: seq<JobEntry>, rowsOf: TagRows,
                            start: seq<Evaluation>, evals: seq<Evaluation>, job: nat, name: nat, items: seq<DependsItem>) {
    && Faithful(jobs, table, rowsOf, evals)
    && ItemsFor(evals, job, name) == items
    && OnlyFor(start, evals, job, name)
  }

  lemma ItemDone(jobs: seq<JobData>, table: seq<JobEntry>, rowsOf: TagRows,
                 start: seq<Evaluation>, evals: seq<Evaluation>, e: Evaluation, items: seq<DependsItem>, i: nat)
    requires i < |items| && e.item == items[i]
    requires ItemsDone(jobs, table, rowsOf, start, evals, e.job, e.name, items[..i])
    requires MatchOf(jobs, table, rowsOf, e.job, e.name, e.item) == Some(e.matched)
    ensures ItemsDone(jobs, table, rowsOf, start, evals + [e], e.job, e.name, items[..i + 1])
  {
    OnlyForGrows(start, evals, e, e.job, e.name);
    FaithfulGrows(jobs, table, rowsOf, evals, e);
    assert items[..i + 1] == items[..i] + [items[i]];
  }

  lemma OnlyForGrows(start: seq<Evaluation>, evals: seq<Evaluation>, e: Evaluation, job: nat, name: nat)
    requires OnlyFor(start, evals, job, name) && e.job == job && e.name == name
    ensures OnlyFor(start, evals + [e], job, name)
    ensures ItemsFor(evals + [e], job, name) == ItemsFor(evals, job, name) + [e.item]
  {
    forall j, n | j != job || n != name ensures ItemsFor(evals + [e], j, n) == ItemsFor(start, j, n) {
      ItemsForGrows(evals, e, j, n);
      assert ItemsFor(evals, j, n) == ItemsFor(start, j, n);
    }
    ItemsForGrows(evals, e, job, name);
  }

  lemma FaithfulGrows(jobs: seq<JobData>, table: seq<JobEntry>, rowsOf: TagRows,
                      evals: seq<Evaluation>, e: Evaluation)
    requires Faithful(jobs, table, rowsOf, evals)
    requires MatchOf(jobs, table, rowsOf, e.job, e.name, e.item) == Some(e.matched)
    ensures Faithful(jobs, table, rowsOf, evals + [e])
  {
  }

  lemma Recorded(names: nat -> string, evals: seq<Evaluation>, deps: seq<Dependency>, e: Evaluation)
    requires Counted(names, evals, deps)
    ensures Counted(names, evals + [e], deps + [Dependency(names(e.name), e.item.alias, |e.matched|)])
    ensures AllEdges(evals + [e]) == AllEdges(evals) + EdgesTo(e.job, e.matched, |evals|)
  {
    ItemsForGrows(evals, e, 0, 0);
  }

  // -------------------------------------------------------------- loop progress

  ghost predicate OnlyForJob(before: seq<Evaluation>, after: seq<Evaluation>, job: nat) {
    forall j, n {:trigger ItemsFor(after, j, n)} | j != job :: ItemsFor(after, j, n) == ItemsFor(before, j, n)
  }

  /** The names in `open` were not evaluated yet, all others were. */
  ghost predicate Remaining(tests: Graph<DependsItem>, jobs: seq<JobData>, evals: seq<Evaluation>, job: nat, open: set<nat>) {
    forall n: nat {:trigger ItemsFor(evals, job, n)} ::
      ItemsFor(evals, job, n) == if n in open then [] else Infos(tests.edges, n, NameOf(jobs, job))
  }

  lemma NothingElse(tests: Graph<DependsItem>, jobs: seq<JobData>, evals: seq<Evaluation>, job: nat, open: set<nat>)
    requires NoneEvaluated(evals, job)
    requires forall n :: n in open <==> n in Preds(tests.edges, NameOf(jobs, job))
    ensures Remaining(tests, jobs, evals, job, open)
  {
    forall n: nat ensures ItemsFor(evals, job, n) == if n in open then [] else Infos(tests.edges, n, NameOf(jobs, job)) {
      PredsAreEdges(tests, n, NameOf(jobs, job));
    }
  }

  lemma NameDone(tests: Graph<DependsItem>, jobs: seq<JobData>, start: seq<Evaluation>, earlier: seq<Evaluation>,
                 evals: seq<Evaluation>, job: nat, open: set<nat>, name: nat)
    requires Remaining(tests, jobs, earlier, job, open) && OnlyFor(earlier, evals, job, name)
    requires Evaluated(tests, jobs, evals, job, name) && OnlyForJob(start, earlier, job)
    ensures Remaining(tests, jobs, evals, job, open - {name}) && OnlyForJob(start, evals, job)
  {
    forall j, n | j != job ensures ItemsFor(evals, j, n) == ItemsFor(start, j, n) {
      assert ItemsFor(earlier, j, n) == ItemsFor(start, j, n);
    }
    forall n: nat ensures ItemsFor(evals, job, n) ==
                     if n in open - {name} then [] else Infos(tests.edges, n, NameOf(jobs, job)) {
      if n != name { assert ItemsFor(evals, job, n) == ItemsFor(earlier, job, n); }
    }
  }

  lemma JobDone(tests: Graph<DependsItem>, jobs: seq<JobData>, evals: seq<Evaluation>, job: nat)
    requires Remaining(tests, jobs, evals, job, {})
    ensures AllEvaluated(tests, jobs, evals, job)
  {
    forall n ensures Evaluated(tests, jobs, evals, job, n) {
      assert ItemsFor(evals, job, n) == Infos(tests.edges, n, NameOf(jobs, job));
    }
  }

  ghost function JobsIn(table: seq<JobEntry>): set<nat> {
    set i | 0 <= i < |table| :: table[i].job
  }

  /** Every entry is filed under its job's name, and no job is filed twice. */
  ghost predicate TableFits(jobs: seq<JobData>, table: seq<JobEntry>) {
    && (forall i | 0 <= i < |table| :: table[i].job < |jobs| && jobs[table[i].job].name == table[i].name)
    && (forall i, j | 0 <= i < j < |table| :: table[i].job != table[j].job)
  }

  lemma NodesGrow(nodes: seq<nat>, table: seq<JobEntry>, i: nat)
    requires i < |table| && NodesAre(nodes, table[..i])
    ensures NodesAre(InsertId(nodes, table[i].job), table[..i + 1])
  {
    assert table[..i + 1] == table[..i] + [table[i]];
    assert JobsIn(table[..i + 1]) == JobsIn(table[..i]) + {table[i].job};
  }

  ghost predicate NodesAre(nodes: seq<nat>, table: seq<JobEntry>) {
    Ascending(nodes) && forall n :: n in nodes <==> n in JobsIn(table)
  }

  ghost predicate AllBefore(tests: Graph<DependsItem>, jobs: seq<JobData>, table: seq<JobEntry>,
                            evals: seq<Evaluation>, i: nat)
    requires i <= |table|
  {
    && (forall k {:trigger table[k]} | 0 <= k < i :: AllEvaluated(tests, jobs, evals, table[k].job))
    && (forall j {:trigger NoneEvaluated(evals, j)} | j !in JobsIn(table[..i]) :: NoneEvaluated(evals, j))
  }

  lemma EntryDone(tests: Graph<DependsItem>, jobs: seq<JobData>, table: seq<JobEntry>, earlier: seq<Evaluation>,
                  evals: seq<Evaluation>, i: nat)
    requires TableFits(jobs, table) && i < |table| && AllBefore(tests, jobs, table, earlier, i)
    requires OnlyForJob(earlier, evals, table[i].job) && AllEvaluated(tests, jobs, evals, table[i].job)
    ensures AllBefore(tests, jobs, table, evals, i + 1)
  {
    forall k | 0 <= k < i ensures AllEvaluated(tests, jobs, evals, table[k].job) {
      assert AllEvaluated(tests, jobs, earlier, table[k].job);
      forall n ensures Evaluated(tests, jobs, evals, table[k].job, n) {
        assert Evaluated(tests, jobs, earlier, table[k].job, n);
        assert ItemsFor(evals, table[k].job, n) == ItemsFor(earlier, table[k].job, n);
      }
    }
    assert JobsIn(table[..i + 1]) == JobsIn(table[..i]) + {table[i].job} by {
      assert table[..i + 1] == table[..i] + [table[i]];
    }
    forall j | j !in JobsIn(table[..i + 1]) ensures NoneEvaluated(evals, j) {
      assert NoneEvaluated(earlier, j);
      forall n ensures ItemsFor(evals, j, n) == [] {
        assert ItemsFor(earlier, j, n) == [];
      }
    }
  }

  // -------------------------------------------------------------------- results

  /** The job graph: its nodes are the jobs, its edges come from one evaluation of every Depends item per job,
      and from nothing else. */
  ghost predicate Resolved(tests: Graph<DependsItem>, jobs: seq<JobData>, table: seq<JobEntry>,
                           rowsOf: TagRows, evals: seq<Evaluation>, g: Graph<nat>) {
    && NodesAre(g.nodes, table)
    && g.edges == AllEdges(evals)
    && Faithful(jobs, table, rowsOf, evals)
    && AllBefore(tests, jobs, table, evals, |table|)
  }
}
