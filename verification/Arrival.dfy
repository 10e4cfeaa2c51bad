/** What a job receives, told by the Depends items: under which key, and in which order. */
module Arrivals {
  import opened Options
  import opened Graphs
  import opened Tags
  import opened Jobs
  import opened Handovers
  import opened SerialJobSchedulers
  import opened RunLoops
  import opened JobTables
  import opened Pipelines
  import J = JobMultipliers
  import M = Matchings
  import R = DependencyResolvers

  // ------------------------------------------------------------------- keys

  /** The documented key of what an item makes available: its alias or, without one, the name of the testcase. */
  function FiledUnder(e: M.Evaluation, names: nat -> string): string {
    if e.item.alias == "" then names(e.name) else e.item.alias
  }

  /** Those of the jobs that export something. */
  function Exporting(ids: seq<nat>, exports: nat -> ExportMap): seq<nat> {
    if ids == [] then [] else (if exports(ids[0]) != map[] then [ids[0]] else []) + Exporting(ids[1..], exports)
  }

  /** The jobs whose exports job j finds under key k, in that order: what its items matched, latest edge first. */
  function Arriving(evals: seq<M.Evaluation>, names: nat -> string, exports: nat -> ExportMap, j: nat, k: string)
      : seq<nat>
  {
    if evals == [] then []
    else
      var e := evals[|evals| - 1];
      (if e.job == j && FiledUnder(e, names) == k then Backwards(Exporting(e.matched, exports)) else []) +
      Arriving(evals[..|evals| - 1], names, exports, j, k)
  }

  lemma {:induction false} ExportingConcat(a: seq<nat>, b: seq<nat>, exports: nat -> ExportMap)
    ensures Exporting(a + b, exports) == Exporting(a, exports) + Exporting(b, exports)
  {
    if a == [] {
      assert a + b == b;
    } else {
      assert (a + b)[1..] == a[1..] + b;
      ExportingConcat(a[1..], b, exports);
    }
  }

  lemma {:induction false} ExportingBackwards(ids: seq<nat>, exports: nat -> ExportMap)
    ensures Exporting(Backwards(ids), exports) == Backwards(Exporting(ids, exports))
  {
    if ids != [] {
      var first := if exports(ids[0]) != map[] then [ids[0]] else [];
      ExportingBackwards(ids[1..], exports);
      ExportingConcat(Backwards(ids[1..]), [ids[0]], exports);
      assert Exporting([ids[0]], exports) == first + Exporting([], exports) == first;
      BackwardsConcat(first, Exporting(ids[1..], exports));
      assert Backwards(first) == first;
    }
  }

  lemma {:induction false} ExportingIn(ids: seq<nat>, exports: nat -> ExportMap, p: nat)
    ensures p in Exporting(ids, exports) <==> p in ids && exports(p) != map[]
  {
    if ids != [] { ExportingIn(ids[1..], exports, p); }
  }

  lemma {:induction false} SuppliersConcat(infos: seq<Dependency>, a: seq<Edge<nat>>, b: seq<Edge<nat>>,
                                           exports: nat -> ExportMap, j: nat, k: string)
    ensures Suppliers(infos, a + b, exports, j, k) ==
            Suppliers(infos, b, exports, j, k) + Suppliers(infos, a, exports, j, k)
  {
    if a == [] {
      assert a + b == b;
    } else {
      assert (a + b)[1..] == a[1..] + b;
      SuppliersConcat(infos, a[1..], b, exports, j, k);
    }
  }

  lemma {:induction false} SuppliersTo(infos: seq<Dependency>, job: nat, matched: seq<nat>, mark: nat,
                                       exports: nat -> ExportMap, j: nat, k: string)
    requires mark < |infos|
    ensures Suppliers(infos, M.EdgesTo(job, matched, mark), exports, j, k) ==
            if job == j && Key(infos[mark]) == k then Backwards(Exporting(matched, exports)) else []
  {
    if matched != [] {
      var edges := M.EdgesTo(job, matched, mark);
      assert edges[1..] == M.EdgesTo(job, matched[1..], mark);
      SuppliersTo(infos, job, matched[1..], mark, exports, j, k);
      var first := if exports(matched[0]) != map[] then [matched[0]] else [];
      BackwardsConcat(first, Exporting(matched[1..], exports));
      assert Backwards(first) == first;
    }
  }

  /** The dependencies tell the alias and the name of their items. */
  ghost predicate Told(evals: seq<M.Evaluation>, names: nat -> string, infos: seq<Dependency>) {
    && |evals| <= |infos|
    && forall i {:trigger infos[i]} | 0 <= i < |evals| :: Key(infos[i]) == FiledUnder(evals[i], names)
  }

  lemma CountedIsTold(evals: seq<M.Evaluation>, names: nat -> string, infos: seq<Dependency>)
    requires R.Counted(names, evals, infos)
    ensures Told(evals, names, infos)
  {
  }

  lemma {:induction false} SuppliersArrive(infos: seq<Dependency>, evals: seq<M.Evaluation>, names: nat -> string,
                                           exports: nat -> ExportMap, j: nat, k: string)
    requires Told(evals, names, infos)
    ensures Suppliers(infos, M.AllEdges(evals), exports, j, k) == Arriving(evals, names, exports, j, k)
    decreases |evals|
  {
    if evals != [] {
      var last := |evals| - 1;
      var e := evals[last];
      SuppliersArrive(infos, evals[..last], names, exports, j, k);
      SuppliersConcat(infos, M.AllEdges(evals[..last]), M.EdgesTo(e.job, e.matched, last), exports, j, k);
      SuppliersTo(infos, e.job, e.matched, last, exports, j, k);
      assert Key(infos[last]) == FiledUnder(e, names);
    }
  }

  // -------------------------------------------------------- agreement on keys

  /** Both evaluations are for job j and matched p, which exports something. */
  ghost predicate Share(a: M.Evaluation, b: M.Evaluation, exports: nat -> ExportMap, j: nat, p: nat) {
    a.job == b.job == j && p in a.matched && p in b.matched && exports(p) != map[]
  }

  /** Where two items of job j match the same job, it is to find its exports under the same key. */
  ghost predicate Agreeing(evals: seq<M.Evaluation>, names: nat -> string, exports: nat -> ExportMap, j: nat) {
    forall a, b, p {:trigger Share(evals[a], evals[b], exports, j, p)} |
      0 <= a < |evals| && 0 <= b < |evals| && Share(evals[a], evals[b], exports, j, p) ::
      FiledUnder(evals[a], names) == FiledUnder(evals[b], names)
  }

  lemma {:induction false} LatestInfo(edges: seq<Edge<nat>>, a: nat, b: nat) returns (i: nat)
    requires Infos(edges, a, b) != []
    ensures i < |edges| && Joins(edges[i], a, b) && edges[i].info == Infos(edges, a, b)[0]
  {
    i := |edges| - 1;
    if !Joins(edges[i], a, b) {
      i := LatestInfo(edges[..i], a, b);
    }
  }

  lemma {:induction false} JoinedHasInfo(edges: seq<Edge<nat>>, i: nat)
    requires i < |edges|
    ensures Infos(edges, edges[i].pred, edges[i].succ) != [] && edges[i].pred in Preds(edges, edges[i].succ)
  {
    if i < |edges| - 1 { JoinedHasInfo(edges[..|edges| - 1], i); }
  }

  lemma AgreeingKeysAgree(g: Graph<nat>, infos: seq<Dependency>, evals: seq<M.Evaluation>, names: nat -> string,
                          jobs: seq<JobData>, exports: nat -> ExportMap, j: nat)
    requires g.edges == M.AllEdges(evals) && Told(evals, names, infos) && Agreeing(evals, names, exports, j)
    requires forall p | p in Preds(g.edges, j) :: p < |jobs| && jobs[p].exports == exports(p)
    ensures KeysAgree(g, infos, jobs, j)
  {
    forall i | 0 <= i < |g.edges| && Wants(infos, jobs, j, g.edges[i])
      ensures Key(infos[g.edges[i].info]) == LatestKey(g, infos, g.edges[i].pred, j)
    {
      var e := g.edges[i];
      JoinedHasInfo(g.edges, i);
      var m := LatestInfo(g.edges, e.pred, j);
      M.EdgeComesFrom(evals, i);
      M.EdgeComesFrom(evals, m);
      assert Share(evals[e.info], evals[g.edges[m].info], exports, j, e.pred);
    }
  }

  // ------------------------------------------------------------ whole runs

  /** Under key k, job j holds the exports of the jobs `from`, in that order. */
  ghost predicate Receives(jobs: seq<JobData>, j: nat, k: string, from: seq<nat>, exports: nat -> ExportMap) {
    && j < |jobs| && |At(jobs[j].dependenciesData, k)| == |from|
    && forall m | 0 <= m < |from| :: At(jobs[j].dependenciesData, k)[m] == exports(from[m])
  }

  /** After a whole run, every job that ran holds, under every key, the final exports of exactly the jobs that its items
      with that alias, or without an alias for testcases of that name, have matched, in the order of the edges. */
  lemma RunArrives(tests: Graph<M.DependsItem>, made: Stages, testcases: seq<nat>, matrices: seq<J.Matrix>,
                   names: nat -> string, exportsOf: nat -> ExportMap, rowsOf: M.TagRows,
                   s: SerialJobScheduler, outcome: nat -> Outcome, i: nat, k: string)
    requires RanAll(tests, made, testcases, matrices, names, exportsOf, rowsOf, s, outcome)
    requires i < |s.done| && Agreeing(made.evals, names, FinalExports(made.jobs, exportsOf, outcome), s.done[i])
    ensures var exports := FinalExports(made.jobs, exportsOf, outcome);
            Receives(s.arena.jobs, s.done[i], k, Arriving(made.evals, names, exports, s.done[i], k), exports)
  {
    var exports := FinalExports(made.jobs, exportsOf, outcome);
    PredsRan(tests, made, testcases, matrices, names, exportsOf, rowsOf, s, outcome, i);
    CountedIsTold(made.evals, names, s.infos);
    AgreeingKeysAgree(s.G(), s.infos, made.evals, names, s.arena.jobs, exports, s.done[i]);
    RunHandsOver(tests, made, testcases, matrices, names, exportsOf, rowsOf, s, outcome, i, k);
    SuppliersArrive(s.infos, made.evals, names, exports, s.done[i], k);
  }

  lemma {:induction false} MatchedArrives(evals: seq<M.Evaluation>, names: nat -> string, exports: nat -> ExportMap,
                                          a: nat, p: nat)
    requires a < |evals| && p in evals[a].matched && exports(p) != map[]
    ensures p in Arriving(evals, names, exports, evals[a].job, FiledUnder(evals[a], names))
    decreases |evals|
  {
    var last := |evals| - 1;
    if a < last {
      MatchedArrives(evals[..last], names, exports, a, p);
    } else {
      ExportingIn(evals[a].matched, exports, p);
      BackwardsIn(Exporting(evals[a].matched, exports), p);
    }
  }

  lemma {:induction false} BackwardsIn(ids: seq<nat>, p: nat)
    ensures p in Backwards(ids) <==> p in ids
  {
    if ids != [] { BackwardsIn(ids[1..], p); }
  }

  /** So whatever an item has matched is found under its alias or, without one, under the name of the testcase. */
  lemma FoundUnderItsName(tests: Graph<M.DependsItem>, made: Stages, testcases: seq<nat>, matrices: seq<J.Matrix>,
                          names: nat -> string, exportsOf: nat -> ExportMap, rowsOf: M.TagRows,
                          s: SerialJobScheduler, outcome: nat -> Outcome, i: nat, a: nat, p: nat)
    requires RanAll(tests, made, testcases, matrices, names, exportsOf, rowsOf, s, outcome)
    requires i < |s.done| && Agreeing(made.evals, names, FinalExports(made.jobs, exportsOf, outcome), s.done[i])
    requires a < |made.evals| && made.evals[a].job == s.done[i] && p in made.evals[a].matched
    requires FinalExports(made.jobs, exportsOf, outcome)(p) != map[]
    ensures s.done[i] < |s.arena.jobs|
    ensures var e, data := made.evals[a], s.arena.jobs[s.done[i]].dependenciesData;
            && (e.item.alias == "" ==> FinalExports(made.jobs, exportsOf, outcome)(p) in At(data, names(e.name)))
            && (e.item.alias != "" ==> FinalExports(made.jobs, exportsOf, outcome)(p) in At(data, e.item.alias))
  {
    var k := FiledUnder(made.evals[a], names);
    var exports := FinalExports(made.jobs, exportsOf, outcome);
    RunArrives(tests, made, testcases, matrices, names, exportsOf, rowsOf, s, outcome, i, k);
    MatchedArrives(made.evals, names, exports, a, p);
    var from := Arriving(made.evals, names, exports, s.done[i], k);
    var m :| 0 <= m < |from| && from[m] == p;
    assert At(s.arena.jobs[s.done[i]].dependenciesData, k)[m] == exports(p);
  }

  /** No other item of the job has this key. */
  ghost predicate OnlyItem(evals: seq<M.Evaluation>, names: nat -> string, a: nat) {
    && a < |evals|
    && forall b | 0 <= b < |evals| && b != a && evals[b].job == evals[a].job ::
         FiledUnder(evals[b], names) != FiledUnder(evals[a], names)
  }

  lemma {:induction false} OnlyItemArrives(evals: seq<M.Evaluation>, names: nat -> string, exports: nat -> ExportMap,
                                           a: nat, n: nat)
    requires OnlyItem(evals, names, a) && n <= |evals|
    ensures Arriving(evals[..n], names, exports, evals[a].job, FiledUnder(evals[a], names)) ==
            if n > a then Backwards(Exporting(evals[a].matched, exports)) else []
  {
    if n > 0 {
      assert evals[..n][..n - 1] == evals[..n - 1];
      OnlyItemArrives(evals, names, exports, a, n - 1);
    }
  }

  /** A job with one item of that key receives what the item has matched, the other way round. */
  lemma OneItemArrives(tests: Graph<M.DependsItem>, made: Stages, testcases: seq<nat>, matrices: seq<J.Matrix>,
                       names: nat -> string, exportsOf: nat -> ExportMap, rowsOf: M.TagRows,
                       s: SerialJobScheduler, outcome: nat -> Outcome, i: nat, a: nat)
    requires RanAll(tests, made, testcases, matrices, names, exportsOf, rowsOf, s, outcome)
    requires i < |s.done| && Agreeing(made.evals, names, FinalExports(made.jobs, exportsOf, outcome), s.done[i])
    requires OnlyItem(made.evals, names, a) && made.evals[a].job == s.done[i]
    ensures var e, exports := made.evals[a], FinalExports(made.jobs, exportsOf, outcome);
            Receives(s.arena.jobs, e.job, FiledUnder(e, names), Backwards(Exporting(e.matched, exports)), exports)
  {
    RunArrives(tests, made, testcases, matrices, names, exportsOf, rowsOf, s, outcome, i, FiledUnder(made.evals[a], names));
    OnlyItemArrives(made.evals, names, FinalExports(made.jobs, exportsOf, outcome), a, |made.evals|);
    assert made.evals[..|made.evals|] == made.evals;
  }

  // ------------------------------------------------------------------ order

  /** What an item without tags matches for an untagged job: all jobs of the testcase, the one made last first. */
  lemma UntaggedMatches(made: Stages, rowsOf: M.TagRows, a: nat)
    requires a < |made.evals| && R.Faithful(made.jobs, made.table, rowsOf, made.evals) && Filed(made.jobs, made.table, 0)
    requires !made.evals[a].item.specifiesTags && M.TagsOf(made.jobs, made.evals[a].job) == {}
    ensures Backwards(made.evals[a].matched) == MadeFor(made.jobs, 0, made.evals[a].name)
  {
    var e, begin: nat := made.evals[a], 0;
    var preceding := M.JobsNamed(made.table, e.name);
    assert R.MatchOf(made.jobs, made.table, rowsOf, e.job, e.name, e.item) == Some(e.matched);
    var places := M.MatchesInOrder({}, e.item, [{}], preceding, made.jobs);
    assert e.matched == preceding;
    assert FiledAt(made.jobs, made.table, begin, e.name);
    BackwardsTwice(MadeFor(made.jobs, begin, e.name));
  }

  /** An untagged job finds the exports of the jobs of a testcase in the order in which these were made, which is that
      of their tags in the matrices. */
  lemma ArrivesAsMade(tests: Graph<M.DependsItem>, made: Stages, testcases: seq<nat>, matrices: seq<J.Matrix>,
                      names: nat -> string, exportsOf: nat -> ExportMap, rowsOf: M.TagRows,
                      s: SerialJobScheduler, outcome: nat -> Outcome, i: nat, a: nat)
    requires RanAll(tests, made, testcases, matrices, names, exportsOf, rowsOf, s, outcome)
    requires i < |s.done| && Agreeing(made.evals, names, FinalExports(made.jobs, exportsOf, outcome), s.done[i])
    requires OnlyItem(made.evals, names, a) && made.evals[a].job == s.done[i]
    requires !made.evals[a].item.specifiesTags && M.TagsOf(made.jobs, s.done[i]) == {}
    ensures var e, exports := made.evals[a], FinalExports(made.jobs, exportsOf, outcome);
            Receives(s.arena.jobs, e.job, FiledUnder(e, names), Exporting(MadeFor(made.jobs, 0, e.name), exports), exports)
  {
    OneItemArrives(tests, made, testcases, matrices, names, exportsOf, rowsOf, s, outcome, i, a);
    UntaggedMatches(made, rowsOf, a);
    ExportingBackwards(made.evals[a].matched, FinalExports(made.jobs, exportsOf, outcome));
  }

  lemma {:induction false} MadeIsAscending(jobs: seq<JobData>, begin: nat, n: nat)
    ensures Ascending(MadeFor(jobs, begin, n))
    ensures forall p: nat :: p in MadeFor(jobs, begin, n) <==> begin <= p < |jobs| && jobs[p].name == n
    decreases |jobs|
  {
    if |jobs| > begin {
      var k := |jobs| - 1;
      MadeIsAscending(jobs[..k], begin, n);
      var some := MadeFor(jobs[..k], begin, n);
      assert forall i | 0 <= i < |some| :: some[i] in some;
    }
  }

  lemma {:induction false} TagListOfBackwards(jobs: seq<JobData>, ids: seq<nat>)
    ensures TagList(jobs, Backwards(ids)) == seq(|ids|, i requires 0 <= i < |ids| => M.TagsOf(jobs, ids[i]))
    decreases |ids|
  {
    if ids != [] {
      var k := |ids| - 1;
      BackwardsConcat(ids[..k], [ids[k]]);
      assert ids == ids[..k] + [ids[k]] && Backwards([ids[k]]) == [ids[k]];
      TagListOfBackwards(jobs, ids[..k]);
      assert Backwards(ids)[1..] == Backwards(ids[..k]);
    }
  }

  /** The i-th job made for a testcase has the i-th of its tag sets. */
  lemma MadeInTagOrder(made: Stages, n: nat, i: nat)
    requires Lists(made.jobs, made.table, made.tags) && Filed(made.jobs, made.table, 0)
    requires n in made.tags && i < |made.tags[n]|
    ensures |MadeFor(made.jobs, 0, n)| == |made.tags[n]|
    ensures M.TagsOf(made.jobs, MadeFor(made.jobs, 0, n)[i]) == made.tags[n][i]
  {
    var begin: nat := 0;
    assert FiledAt(made.jobs, made.table, begin, n);
    TagListOfBackwards(made.jobs, MadeFor(made.jobs, begin, n));
    assert TagList(made.jobs, M.JobsNamed(made.table, n)) == made.tags[n];
  }

  /** A tagged job that has several jobs to choose from matches the one with equal tags that was made last. */
  lemma EqualTagsMatchLatest(made: Stages, rowsOf: M.TagRows, a: nat)
    requires a < |made.evals| && R.Faithful(made.jobs, made.table, rowsOf, made.evals) && Filed(made.jobs, made.table, 0)
    requires var e := made.evals[a];
             && !e.item.specifiesTags && M.TagsOf(made.jobs, e.job) != {} && |MadeFor(made.jobs, 0, e.name)| > 1
    ensures var e := made.evals[a];
            && |e.matched| == 1 && e.matched[0] in MadeFor(made.jobs, 0, e.name)
            && M.TagsOf(made.jobs, e.matched[0]) == M.TagsOf(made.jobs, e.job)
            && forall p | p in MadeFor(made.jobs, 0, e.name) && M.TagsOf(made.jobs, p) == M.TagsOf(made.jobs, e.job) ::
                 p <= e.matched[0]
  {
    var e, begin: nat := made.evals[a], 0;
    var ours, mine := M.TagsOf(made.jobs, e.job), MadeFor(made.jobs, begin, e.name);
    var preceding := M.JobsNamed(made.table, e.name);
    assert R.MatchOf(made.jobs, made.table, rowsOf, e.job, e.name, e.item) == Some(e.matched);
    assert FiledAt(made.jobs, made.table, begin, e.name);
    MadeIsAscending(made.jobs, begin, e.name);
    var places := M.MatchesInOrder(ours, e.item, [{}], preceding, made.jobs);
    FirstIsLatest(made.jobs, mine, ours, places[0].entry);
  }

  lemma FirstIsLatest(jobs: seq<JobData>, mine: seq<nat>, ours: TagSet, e: nat)
    requires Ascending(mine) && M.FirstEqual(Backwards(mine), jobs, ours, e)
    ensures Backwards(mine)[e] in mine && M.TagsOf(jobs, Backwards(mine)[e]) == ours
    ensures forall p | p in mine && M.TagsOf(jobs, p) == ours :: p <= Backwards(mine)[e]
  {
    var k := |mine| - 1;
    BackwardsAt(mine, e);
    forall p | p in mine && M.TagsOf(jobs, p) == ours ensures p <= Backwards(mine)[e] {
      var at :| 0 <= at <= k && mine[at] == p;
      BackwardsAt(mine, k - at);
      assert Backwards(mine)[k - at] == p;
    }
  }

  /** An item with tags: what it has matched is told by rows and then by table entries, and arrives the other way
      round. */
  lemma RowsArrive(tests: Graph<M.DependsItem>, made: Stages, testcases: seq<nat>, matrices: seq<J.Matrix>,
                   names: nat -> string, exportsOf: nat -> ExportMap, rowsOf: M.TagRows,
                   s: SerialJobScheduler, outcome: nat -> Outcome, i: nat, a: nat)
      returns (rows: seq<TagSet>, places: seq<M.Place>)
    requires RanAll(tests, made, testcases, matrices, names, exportsOf, rowsOf, s, outcome)
    requires i < |s.done| && Agreeing(made.evals, names, FinalExports(made.jobs, exportsOf, outcome), s.done[i])
    requires OnlyItem(made.evals, names, a) && made.evals[a].job == s.done[i] && made.evals[a].item.specifiesTags
    ensures var e, exports := made.evals[a], FinalExports(made.jobs, exportsOf, outcome);
            && rowsOf(e.item, e.job) == Some(rows)
            && M.RowByRow(Backwards(MadeFor(made.jobs, 0, e.name)), made.jobs, rows, e.matched, places)
            && Receives(s.arena.jobs, e.job, FiledUnder(e, names), Backwards(Exporting(e.matched, exports)), exports)
  {
    var e, begin: nat := made.evals[a], 0;
    OneItemArrives(tests, made, testcases, matrices, names, exportsOf, rowsOf, s, outcome, i, a);
    assert R.MatchOf(made.jobs, made.table, rowsOf, e.job, e.name, e.item) == Some(e.matched);
    rows := rowsOf(e.item, e.job).value;
    assert FiledAt(made.jobs, made.table, begin, e.name);
    places := M.MatchesInOrder(M.TagsOf(made.jobs, e.job), e.item, rows, M.JobsNamed(made.table, e.name), made.jobs);
  }
}
