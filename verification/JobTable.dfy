/** The job table that the JobMultiplier constructor builds. */
module JobTables {
  import opened Options
  import opened Graphs
  import opened Tags
  import opened Jobs
  import opened MixedRadix
  import opened Expansions
  import opened Globs
  import opened JobMultipliers
  import M = Matchings
  import R = DependencyResolvers

  type Table = seq<M.JobEntry>

  /** The tags of the jobs in `ids`, the job inserted first coming first. */
  function TagList(jobs: seq<JobData>, ids: seq<nat>): (r: seq<TagSet>)
    ensures |r| == |ids|
  {
    if ids == [] then [] else TagList(jobs, ids[1..]) + [M.TagsOf(jobs, ids[0])]
  }

  /** The tag sets of testcase n after the first m matrices: those of every matrix that covers it, one after the other. */
  function TagsFor(matrices: seq<Matrix>, expanded: seq<seq<TagSet>>, names: nat -> string, n: nat, m: nat): seq<TagSet>
    requires m <= |matrices| && m <= |expanded|
  {
    if m == 0 then []
    else TagsFor(matrices, expanded, names, n, m - 1) +
         (if Accepts(matrices[m - 1].patterns, names(n)) then expanded[m - 1] else [])
  }

  /** The table files jobs of the arena under their names, each once, with the given tags. */
  ghost predicate Lists(jobs: seq<JobData>, table: Table, tags: map<nat, seq<TagSet>>) {
    && R.TableFits(jobs, table)
    && (forall i | 0 <= i < |table| :: jobs[table[i].job].dependenciesData == map[])
    && forall n: nat {:trigger M.JobsNamed(table, n)} ::
         TagList(jobs, M.JobsNamed(table, n)) == if n in tags then tags[n] else []
  }

  lemma ListsMore(jobs: seq<JobData>, table: Table, tags: map<nat, seq<TagSet>>, data: JobData, n: nat)
    requires Lists(jobs, table, tags) && data.name == n && data.dependenciesData == map[]
    ensures Lists(jobs + [data], [M.JobEntry(n, |jobs|)] + table,
                  tags[n := (if n in tags then tags[n] else []) + [data.tags]])
  {
    var longer := jobs + [data];
    var t: Table := [M.JobEntry(n, |jobs|)] + table;
    assert t[1..] == table;
    forall k: nat ensures TagList(longer, M.JobsNamed(t, k)) ==
                     if k == n then (if n in tags then tags[n] else []) + [data.tags]
                     else if k in tags then tags[k] else [] {
      NamedAreOld(jobs, table, k);
      TagListLater(jobs, longer, M.JobsNamed(table, k));
      assert TagList(jobs, M.JobsNamed(table, k)) == if k in tags then tags[k] else [];
      if k == n {
        assert M.JobsNamed(t, k) == [|jobs|] + M.JobsNamed(table, k);
        assert M.JobsNamed(t, k)[1..] == M.JobsNamed(table, k);
      } else {
        assert M.JobsNamed(t, k) == M.JobsNamed(table, k);
      }
    }
    assert R.TableFits(longer, t);
  }

  /** The jobs of the table are new and hold what their testcases export before they run. */
  ghost predicate NewJobs(jobs: seq<JobData>, table: Table, exportsOf: nat -> ExportMap) {
    forall i {:trigger NewJob(jobs, table[i], exportsOf)} | 0 <= i < |table| :: NewJob(jobs, table[i], exportsOf)
  }

  ghost predicate NewJob(jobs: seq<JobData>, e: M.JobEntry, exportsOf: nat -> ExportMap) {
    e.job < |jobs| && jobs[e.job] == JobData(e.name, jobs[e.job].tags, exportsOf(e.name), Unfinished, map[])
  }

  lemma NewJobsMore(jobs: seq<JobData>, table: Table, exportsOf: nat -> ExportMap, n: nat, tagSet: TagSet)
    requires NewJobs(jobs, table, exportsOf)
    ensures NewJobs(jobs + [JobData(n, tagSet, exportsOf(n), Unfinished, map[])], [M.JobEntry(n, |jobs|)] + table, exportsOf)
  {
    var longer := jobs + [JobData(n, tagSet, exportsOf(n), Unfinished, map[])];
    var t: Table := [M.JobEntry(n, |jobs|)] + table;
    forall i | 0 <= i < |t| ensures NewJob(longer, t[i], exportsOf) {
      if i > 0 { assert NewJob(jobs, table[i - 1], exportsOf); }
    }
  }

  /** The jobs of testcase n in the order in which they were made, those from id `begin` on. */
  function MadeFor(jobs: seq<JobData>, begin: nat, n: nat): seq<nat>
    decreases |jobs|
  {
    if |jobs| <= begin then []
    else
      var k := |jobs| - 1;
      MadeFor(jobs[..k], begin, n) + if jobs[k].name == n then [k] else []
  }

  function Backwards<T>(s: seq<T>): (r: seq<T>)
    ensures |r| == |s|
  {
    if s == [] then [] else Backwards(s[1..]) + [s[0]]
  }

  lemma {:induction false} BackwardsConcat<T>(a: seq<T>, b: seq<T>)
    ensures Backwards(a + b) == Backwards(b) + Backwards(a)
  {
    if a == [] {
      assert a + b == b;
    } else {
      assert (a + b)[1..] == a[1..] + b;
      BackwardsConcat(a[1..], b);
    }
  }

  lemma {:induction false} BackwardsAt<T>(s: seq<T>, i: nat)
    requires i < |s|
    ensures Backwards(s)[i] == s[|s| - 1 - i]
  {
    if i < |s| - 1 { BackwardsAt(s[1..], i); }
  }

  lemma {:induction false} BackwardsTwice<T>(s: seq<T>)
    ensures Backwards(Backwards(s)) == s
  {
    if s != [] {
      BackwardsTwice(s[1..]);
      BackwardsConcat(Backwards(s[1..]), [s[0]]);
      assert Backwards([s[0]]) == [s[0]];
    }
  }

  /** Under its name, the table lists the jobs of a testcase the other way round: the one made last comes first. */
  ghost predicate Filed(jobs: seq<JobData>, table: Table, begin: nat) {
    forall n: nat {:trigger FiledAt(jobs, table, begin, n)} :: FiledAt(jobs, table, begin, n)
  }

  ghost predicate FiledAt(jobs: seq<JobData>, table: Table, begin: nat, n: nat) {
    M.JobsNamed(table, n) == Backwards(MadeFor(jobs, begin, n))
  }

  lemma FiledMore(jobs: seq<JobData>, table: Table, begin: nat, data: JobData)
    requires Filed(jobs, table, begin) && begin <= |jobs|
    ensures Filed(jobs + [data], [M.JobEntry(data.name, |jobs|)] + table, begin)
  {
    var longer := jobs + [data];
    var t: Table := [M.JobEntry(data.name, |jobs|)] + table;
    assert longer[..|jobs|] == jobs && t[1..] == table;
    forall n: nat ensures FiledAt(longer, t, begin, n) {
      assert FiledAt(jobs, table, begin, n);
      var made := MadeFor(jobs, begin, n);
      var last: seq<nat> := if data.name == n then [|jobs|] else [];
      assert MadeFor(longer, begin, n) == made + last;
      BackwardsConcat(made, last);
      assert Backwards(last) == last;
      assert M.JobsNamed(t, n) == last + M.JobsNamed(table, n);
    }
  }

  lemma {:induction false} NamedAreOld(jobs: seq<JobData>, table: Table, n: nat)
    requires forall i | 0 <= i < |table| :: table[i].job < |jobs|
    ensures forall j | j in M.JobsNamed(table, n) :: j < |jobs|
  {
    if table != [] { NamedAreOld(jobs, table[1..], n); }
  }

  lemma {:induction false} TagListLater(earlier: seq<JobData>, later: seq<JobData>, ids: seq<nat>)
    requires earlier <= later && forall j | j in ids :: j < |earlier|
    ensures TagList(earlier, ids) == TagList(later, ids)
  {
    if ids != [] {
      assert ids[0] in ids && forall j | j in ids[1..] :: j in ids;
      TagListLater(earlier, later, ids[1..]);
    }
  }

  class JobMultiplier {
    const arena: JobArena
    const tagTable: TagTable
    const names: nat -> string
    const exportsOf: nat -> ExportMap
    /** Whether a testcase has a writable property of that name. */
    const settable: (nat, string) -> bool
    /** The first id of a job of this table. */
    ghost const begin: nat
    var jobs: Table
    ghost var tags: map<nat, seq<TagSet>>

    ghost predicate Valid()
      reads this, arena, tagTable
    {
      tagTable.Valid() && Lists(arena.jobs, jobs, tags) && NewJobs(arena.jobs, jobs, exportsOf)
      && begin <= |arena.jobs| && Filed(arena.jobs, jobs, begin)
    }

    constructor (arena: JobArena, tagTable: TagTable, names: nat -> string, exportsOf: nat -> ExportMap,
                 settable: (nat, string) -> bool)
      requires tagTable.Valid()
      ensures Valid() && tags == map[] && begin == |arena.jobs|
      ensures this.arena == arena && this.tagTable == tagTable && this.names == names && this.exportsOf == exportsOf
      ensures this.settable == settable
    {
      this.arena, this.tagTable, this.names, this.exportsOf, this.settable :=
        arena, tagTable, names, exportsOf, settable;
      begin := |arena.jobs|;
      jobs, tags := [], map[];
    }

    /** Job::create and QMultiMap::insert. */
    method AddJob(name: nat, tagSet: TagSet)
      requires Valid()
      modifies this`jobs, this`tags, arena
      ensures Valid() && old(arena.jobs) <= arena.jobs && tagTable.stringsById == old(tagTable.stringsById)
      ensures tags == old(tags)[name := (if name in old(tags) then old(tags)[name] else []) + [tagSet]]
    {
      ListsMore(arena.jobs, jobs, tags, JobData(name, tagSet, exportsOf(name), Unfinished, map[]), name);
      NewJobsMore(arena.jobs, jobs, exportsOf, name, tagSet);
      FiledMore(arena.jobs, jobs, begin, JobData(name, tagSet, exportsOf(name), Unfinished, map[]));
      var job := arena.Create(name, exportsOf(name), tagSet);
      jobs := [M.JobEntry(name, job)] + jobs;
      tags := tags[name := (if name in tags then tags[name] else []) + [tagSet]];
    }

    /** The inner loop of combine. */
    method AddJobs(name: nat, tagSets: seq<TagSet>)
      requires Valid() && tagSets != []
      modifies this`jobs, this`tags, arena
      ensures Valid() && old(arena.jobs) <= arena.jobs && tagTable.stringsById == old(tagTable.stringsById)
      ensures tags == old(tags)[name := (if name in old(tags) then old(tags)[name] else []) + tagSets]
    {
      ghost var before := if name in tags then tags[name] else [];
      for i := 0 to |tagSets|
        invariant Valid() && old(arena.jobs) <= arena.jobs && tagTable.stringsById == old(tagTable.stringsById)
        invariant i == 0 ==> tags == old(tags)
        invariant i > 0 ==> tags == old(tags)[name := before + tagSets[..i]]
      {
        assert (before + tagSets[..i]) + [tagSets[i]] == before + tagSets[..i + 1];
        assert before + tagSets[..0] == before;
        AddJob(name, tagSets[i]);
        assert tags == old(tags)[name := before + tagSets[..i + 1]];
      }
      assert tagSets[..|tagSets|] == tagSets;
    }

    /** The first loops of combine: every label of the tags is a property of every testcase. */
    method CheckProperties(testcases: seq<nat>, matchedNames: seq<string>, representatives: TagSet) returns (ok: bool)
      requires forall t | t in representatives :: t.labelId < |tagTable.stringsById|
      ensures ok <==> forall n, t | n in testcases && names(n) in matchedNames && t in representatives ::
                        settable(n, tagTable.stringsById[t.labelId])
    {
      ok := true;
      for i := 0 to |testcases|
        invariant ok <==> forall n, t | n in testcases[..i] && names(n) in matchedNames && t in representatives ::
                            settable(n, tagTable.stringsById[t.labelId])
      {
        if names(testcases[i]) in matchedNames {
          ok := ok && forall t | t in representatives :: settable(testcases[i], tagTable.stringsById[t.labelId]);
        }
        assert testcases[..i + 1] == testcases[..i] + [testcases[i]];
      }
      assert testcases[..|testcases|] == testcases;
    }

    /** One matrix: expand, match, combine. The error is an overlap of labels, a matrix without any testcase, or a
        testcase without a property for one of the labels. */
    method MultiplyMatrix(testcases: seq<nat>, matrices: seq<Matrix>, m: nat, ghost expanded: seq<seq<TagSet>>)
        returns (tagSets: Option<seq<TagSet>>)
      requires Valid() && Distinct(testcases) && m < |matrices| && |expanded| == m && NonEmpty(matrices[m].dims)
      requires TagsRight(tags, testcases, matrices, expanded, names, m)
      requires AllExpanded(tagTable.stringsById, matrices, expanded)
      modifies this`jobs, this`tags, arena, tagTable
      ensures old(arena.jobs) <= arena.jobs && old(tagTable.stringsById) <= tagTable.stringsById
      ensures tagSets.None? <==> Unusable(matrices[m], testcases, names, settable)
      ensures tagSets.Some? ==>
                && Valid() && TagsRight(tags, testcases, matrices, expanded + [tagSets.value], names, m + 1)
                && AllExpanded(tagTable.stringsById, matrices, expanded + [tagSets.value])
    {
      var matrix := matrices[m];
      ghost var earlier := tagTable.stringsById;
      tagSets := Expand(matrix.dims, tagTable);
      var allNames := NamesOf(testcases, names);
      var matchedNames := Match(allNames, matrix.patterns);
      MatchedNames(testcases, names, matrix.patterns);
      if tagSets.None? || |matchedNames| == 0 {
        return None;
      }
      ghost var strings := tagTable.stringsById;
      ProductPositive(Lens(matrix.dims));
      assert Denotes(strings, tagSets.value[0], Combination(matrix.dims, Digits(0, Lens(matrix.dims))));
      var ok := CheckProperties(testcases, matchedNames, tagSets.value[0]);
      LackingProperties(matrix, testcases, names, settable, strings, tagSets.value[0]);
      if !ok {
        return None;
      }
      ghost var more := expanded + [tagSets.value];
      ExpandedGrows(matrices, expanded, tagSets.value, names, testcases, tags, m);
      AllExpandedMore(earlier, strings, matrices, expanded, tagSets.value);
      AddMatched(testcases, matrices, m, matchedNames, tagSets.value, more);
    }

    /** The last loops of combine: one job per tag set for every testcase that the matrix accepts. */
    method AddMatched(testcases: seq<nat>, matrices: seq<Matrix>, m: nat, matchedNames: seq<string>,
                      tagSets: seq<TagSet>, ghost expanded: seq<seq<TagSet>>)
      requires Valid() && Distinct(testcases) && m < |matrices| && |expanded| == m + 1 && tagSets == expanded[m] != []
      requires forall n | n in testcases :: names(n) in matchedNames <==> Accepts(matrices[m].patterns, names(n))
      requires Halfway(tags, testcases, matrices, expanded, names, m, 0)
      modifies this`jobs, this`tags, arena
      ensures Valid() && old(arena.jobs) <= arena.jobs && tagTable.stringsById == old(tagTable.stringsById)
      ensures TagsRight(tags, testcases, matrices, expanded, names, m + 1)
    {
      for i := 0 to |testcases|
        invariant Valid() && old(arena.jobs) <= arena.jobs && tagTable.stringsById == old(tagTable.stringsById)
        invariant Halfway(tags, testcases, matrices, expanded, names, m, i)
      {
        ghost var before := tags;
        if names(testcases[i]) in matchedNames {
          AddJobs(testcases[i], tagSets);
        }
        TestcaseDone(before, tags, testcases, matrices, expanded, names, m, i);
      }
      MatrixDone(tags, testcases, matrices, expanded, names, m);
    }

    /** The constructor's work. None is an error after which the program exits. */
    method Multiply(testcases: seq<nat>, matrices: seq<Matrix>) returns (ok: bool, ghost expanded: seq<seq<TagSet>>)
      requires Valid() && tags == map[] && Distinct(testcases)
      requires forall m | 0 <= m < |matrices| :: NonEmpty(matrices[m].dims)
      modifies this`jobs, this`tags, arena, tagTable
      ensures old(arena.jobs) <= arena.jobs && old(tagTable.stringsById) <= tagTable.stringsById
      ensures ok ==> Valid() && Multiplied(tags, testcases, matrices, expanded, names)
      ensures ok ==> AllExpanded(tagTable.stringsById, matrices, expanded)
      ensures !ok <==> exists m :: 0 <= m < |matrices| && Unusable(matrices[m], testcases, names, settable)
    {
      expanded := [];
      for m := 0 to |matrices|
        invariant Valid() && old(arena.jobs) <= arena.jobs && old(tagTable.stringsById) <= tagTable.stringsById
        invariant |expanded| == m && TagsRight(tags, testcases, matrices, expanded, names, m)
        invariant AllExpanded(tagTable.stringsById, matrices, expanded)
        invariant forall k | 0 <= k < m :: !Unusable(matrices[k], testcases, names, settable)
      {
        var tagSets := MultiplyMatrix(testcases, matrices, m, expanded);
        if tagSets.None? {
          assert Unusable(matrices[m], testcases, names, settable);
          return false, expanded;
        }
        expanded := expanded + [tagSets.value];
      }
      AddUntagged(testcases, matrices, expanded);
      ok := true;
    }

    /** The last loop of the constructor: testcases that no matrix covers get one job without tags. */
    method AddUntagged(testcases: seq<nat>, matrices: seq<Matrix>, ghost expanded: seq<seq<TagSet>>)
      requires Valid() && |expanded| == |matrices|
      requires TagsRight(tags, testcases, matrices, expanded, names, |matrices|)
      modifies this`jobs, this`tags, arena
      ensures Valid() && old(arena.jobs) <= arena.jobs && tagTable.stringsById == old(tagTable.stringsById)
      ensures Multiplied(tags, testcases, matrices, expanded, names)
    {
      var allNames := set n | n in testcases;
      var usedNames := set e | e in jobs :: e.name;
      var untaggedNames := allNames - usedNames;
      forall n: nat ensures n in usedNames <==> n in tags {
        assert Holds(tags, n, Wanted(testcases, matrices, expanded, names, n, |matrices|));
        UsedNames(arena.jobs, jobs, tags, n);
      }
      ghost var before, untagged := tags, untaggedNames;
      assert forall n: nat :: n in untagged <==> n in testcases && n !in before;
      while untaggedNames != {}
        invariant Valid() && old(arena.jobs) <= arena.jobs && tagTable.stringsById == old(tagTable.stringsById)
        invariant untaggedNames <= untagged && AddedFor(before, tags, untagged - untaggedNames)
      {
        var name :| name in untaggedNames;
        AddJobs(name, [{}]);
        untaggedNames := untaggedNames - {name};
      }
      assert untagged - untaggedNames == untagged;
      UntaggedDone(before, tags, testcases, matrices, expanded, names, untagged);
    }
  }

  function NamesOf(testcases: seq<nat>, names: nat -> string): (r: seq<string>)
    ensures |r| == |testcases| && forall i | 0 <= i < |r| :: r[i] == names(testcases[i])
  {
    seq(|testcases|, i requires 0 <= i < |testcases| => names(testcases[i]))
  }

  /** The names that the expression of a matrix accepts. */
  lemma MatchedNames(testcases: seq<nat>, names: nat -> string, patterns: seq<string>)
    ensures var matched := Accepted(NamesOf(testcases, names), patterns);
            && (matched == [] <==> forall n | n in testcases :: !Accepts(patterns, names(n)))
            && forall n | n in testcases :: names(n) in matched <==> Accepts(patterns, names(n))
  {
    var all := NamesOf(testcases, names);
    var matched := Accepted(all, patterns);
    forall n | n in testcases ensures names(n) in matched <==> Accepts(patterns, names(n)) {
      var i :| 0 <= i < |testcases| && testcases[i] == n;
      assert all[i] == names(n);
      AcceptedIn(all, patterns, names(n));
    }
    if matched != [] {
      AcceptedIn(all, patterns, matched[0]);
      assert matched[0] in matched;
      var i :| 0 <= i < |all| && all[i] == matched[0];
      assert testcases[i] in testcases;
    }
  }

  /** Each name in `added` got one empty tag set. */
  ghost predicate AddedFor(before: map<nat, seq<TagSet>>, after: map<nat, seq<TagSet>>, added: set<nat>) {
    forall n: nat {:trigger n in after} :: n !in before || n !in added ==>
      if n in added then n in after && after[n] == [{}]
      else (n in after <==> n in before) && (n in before ==> after[n] == before[n])
  }

  lemma UntaggedDone(before: map<nat, seq<TagSet>>, after: map<nat, seq<TagSet>>, testcases: seq<nat>,
                     matrices: seq<Matrix>, expanded: seq<seq<TagSet>>, names: nat -> string, added: set<nat>)
    requires |expanded| == |matrices| && TagsRight(before, testcases, matrices, expanded, names, |matrices|)
    requires forall n: nat :: n in added <==> n in testcases && n !in before
    requires AddedFor(before, after, added)
    ensures Multiplied(after, testcases, matrices, expanded, names)
  {
    forall n: nat ensures Holds(after, n, Final(testcases, matrices, expanded, names, n)) {
      assert Holds(before, n, Wanted(testcases, matrices, expanded, names, n, |matrices|));
      assert n in after || n !in after;
    }
  }

  ghost predicate Unusable(matrix: Matrix, testcases: seq<nat>, names: nat -> string, settable: (nat, string) -> bool)
    requires NonEmpty(matrix.dims)
  {
    || !LabelsDisjoint(matrix.dims)
    || (forall n | n in testcases :: !Accepts(matrix.patterns, names(n)))
    || exists n | n in testcases :: Accepts(matrix.patterns, names(n)) && Lacks(matrix, n, settable)
  }

  /** The testcase has no property for some label of the first combination of rows; all combinations have the same
      labels if the rows of each dimension do. */
  ghost predicate Lacks(matrix: Matrix, n: nat, settable: (nat, string) -> bool)
    requires NonEmpty(matrix.dims)
  {
    exists p | p in Combination(matrix.dims, Digits(0, Lens(matrix.dims))) :: !settable(n, p.0)
  }

  lemma LackingProperties(matrix: Matrix, testcases: seq<nat>, names: nat -> string, settable: (nat, string) -> bool,
                          strings: seq<string>, first: TagSet)
    requires NonEmpty(matrix.dims)
    requires Denotes(strings, first, Combination(matrix.dims, Digits(0, Lens(matrix.dims))))
    ensures forall n :: Lacks(matrix, n, settable) <==> exists t | t in first :: !settable(n, strings[t.labelId])
  {
    var pairs := Combination(matrix.dims, Digits(0, Lens(matrix.dims)));
    forall n ensures Lacks(matrix, n, settable) <==> exists t | t in first :: !settable(n, strings[t.labelId]) {
      if p :| p in pairs && !settable(n, p.0) {
        assert HasTag(strings, first, p);
        var t :| t in first && Names(strings, t, p.0, p.1);
        assert !settable(n, strings[t.labelId]);
      }
      if t :| t in first && !settable(n, strings[t.labelId]) {
        assert (strings[t.labelId], strings[t.valueId]) in pairs;
      }
    }
  }

  ghost predicate AllExpanded(strings: seq<string>, matrices: seq<Matrix>, expanded: seq<seq<TagSet>>) {
    |expanded| <= |matrices| &&
    forall m {:trigger expanded[m]} | 0 <= m < |expanded| ::
      NonEmpty(matrices[m].dims) && Expanded(strings, matrices[m].dims, expanded[m], Product(Lens(matrices[m].dims)))
  }

  lemma AllExpandedMore(earlier: seq<string>, later: seq<string>, matrices: seq<Matrix>, expanded: seq<seq<TagSet>>,
                        last: seq<TagSet>)
    requires earlier <= later && AllExpanded(earlier, matrices, expanded) && |expanded| < |matrices|
    requires var dims := matrices[|expanded|].dims; NonEmpty(dims) && Expanded(later, dims, last, Product(Lens(dims)))
    ensures AllExpanded(later, matrices, expanded + [last])
  {
    forall m | 0 <= m < |expanded|
      ensures Expanded(later, matrices[m].dims, expanded[m], Product(Lens(matrices[m].dims)))
    {
      ExpandedLater(earlier, later, matrices[m].dims, expanded[m]);
    }
  }

  lemma ExpandedLater(earlier: seq<string>, later: seq<string>, dims: seq<seq<Row>>, tags: seq<TagSet>)
    requires NonEmpty(dims) && earlier <= later && Expanded(earlier, dims, tags, Product(Lens(dims)))
    ensures Expanded(later, dims, tags, Product(Lens(dims)))
  {
    forall i | 0 <= i < |tags| ensures Denotes(later, tags[i], Combination(dims, Digits(i, Lens(dims)))) {
      DenotesLater(earlier, later, tags[i], Combination(dims, Digits(i, Lens(dims))));
    }
  }

  ghost predicate Holds(tags: map<nat, seq<TagSet>>, n: nat, want: seq<TagSet>) {
    if want == [] then n !in tags else n in tags && tags[n] == want
  }

  function Wanted(testcases: seq<nat>, matrices: seq<Matrix>, expanded: seq<seq<TagSet>>, names: nat -> string,
                  n: nat, m: nat): seq<TagSet>
    requires m <= |matrices| && m <= |expanded|
  {
    if n in testcases then TagsFor(matrices, expanded, names, n, m) else []
  }

  /** After m matrices. */
  ghost predicate TagsRight(tags: map<nat, seq<TagSet>>, testcases: seq<nat>, matrices: seq<Matrix>,
                            expanded: seq<seq<TagSet>>, names: nat -> string, m: nat)
    requires m <= |matrices| && m <= |expanded|
  {
    forall n: nat {:trigger Wanted(testcases, matrices, expanded, names, n, m)} ::
      Holds(tags, n, Wanted(testcases, matrices, expanded, names, n, m))
  }

  /** After m matrices, and the next one for the first i testcases. */
  ghost predicate Halfway(tags: map<nat, seq<TagSet>>, testcases: seq<nat>, matrices: seq<Matrix>,
                          expanded: seq<seq<TagSet>>, names: nat -> string, m: nat, i: nat)
    requires m < |matrices| && m < |expanded| && i <= |testcases|
  {
    forall n: nat {:trigger HalfwayAt(tags, testcases, matrices, expanded, names, m, i, n)} ::
      HalfwayAt(tags, testcases, matrices, expanded, names, m, i, n)
  }

  ghost predicate HalfwayAt(tags: map<nat, seq<TagSet>>, testcases: seq<nat>, matrices: seq<Matrix>,
                            expanded: seq<seq<TagSet>>, names: nat -> string, m: nat, i: nat, n: nat)
    requires m < |matrices| && m < |expanded| && i <= |testcases|
  {
    Holds(tags, n, Wanted(testcases, matrices, expanded, names, n, if n in testcases[..i] then m + 1 else m))
  }

  lemma {:induction false} TagsForPrefix(matrices: seq<Matrix>, expanded: seq<seq<TagSet>>, last: seq<TagSet>,
                                         names: nat -> string, n: nat, m: nat)
    requires m <= |matrices| && m <= |expanded|
    ensures TagsFor(matrices, expanded + [last], names, n, m) == TagsFor(matrices, expanded, names, n, m)
  {
    if m > 0 { TagsForPrefix(matrices, expanded, last, names, n, m - 1); }
  }

  lemma ExpandedGrows(matrices: seq<Matrix>, expanded: seq<seq<TagSet>>, last: seq<TagSet>, names: nat -> string,
                      testcases: seq<nat>, tags: map<nat, seq<TagSet>>, m: nat)
    requires m < |matrices| && |expanded| == m && TagsRight(tags, testcases, matrices, expanded, names, m)
    ensures Halfway(tags, testcases, matrices, expanded + [last], names, m, 0)
  {
    var more, none: nat := expanded + [last], 0;
    forall n: nat ensures HalfwayAt(tags, testcases, matrices, more, names, m, none, n) {
      TagsForPrefix(matrices, expanded, last, names, n, m);
      assert Holds(tags, n, Wanted(testcases, matrices, expanded, names, n, m));
    }
  }

  lemma TestcaseDone(before: map<nat, seq<TagSet>>, tags: map<nat, seq<TagSet>>, testcases: seq<nat>,
                     matrices: seq<Matrix>, expanded: seq<seq<TagSet>>, names: nat -> string, m: nat, i: nat)
    requires m < |matrices| && |expanded| == m + 1 && i < |testcases| && Distinct(testcases)
    requires Halfway(before, testcases, matrices, expanded, names, m, i) && expanded[m] != []
    requires var n := testcases[i];
             tags == if Accepts(matrices[m].patterns, names(n))
                     then before[n := (if n in before then before[n] else []) + expanded[m]] else before
    ensures Halfway(tags, testcases, matrices, expanded, names, m, i + 1)
  {
    assert testcases[..i + 1] == testcases[..i] + [testcases[i]];
    var next := i + 1;
    forall n: nat ensures HalfwayAt(tags, testcases, matrices, expanded, names, m, next, n) {
      assert HalfwayAt(before, testcases, matrices, expanded, names, m, i, n);
      assert n == testcases[i] ==> n !in testcases[..i];
    }
  }

  lemma MatrixDone(tags: map<nat, seq<TagSet>>, testcases: seq<nat>, matrices: seq<Matrix>,
                   expanded: seq<seq<TagSet>>, names: nat -> string, m: nat)
    requires m < |matrices| && m < |expanded| && Halfway(tags, testcases, matrices, expanded, names, m, |testcases|)
    ensures TagsRight(tags, testcases, matrices, expanded, names, m + 1)
  {
    assert testcases[..|testcases|] == testcases;
    var next := m + 1;
    forall n: nat ensures Holds(tags, n, Wanted(testcases, matrices, expanded, names, n, next)) {
      assert HalfwayAt(tags, testcases, matrices, expanded, names, m, |testcases|, n);
    }
  }

  /** The jobs of every testcase: the tag sets of all matrices that cover it, or one empty tag set. */
  ghost predicate Multiplied(tags: map<nat, seq<TagSet>>, testcases: seq<nat>, matrices: seq<Matrix>,
                             expanded: seq<seq<TagSet>>, names: nat -> string) {
    && |expanded| == |matrices|
    && forall n: nat {:trigger Wanted(testcases, matrices, expanded, names, n, |matrices|)} ::
         Holds(tags, n, Final(testcases, matrices, expanded, names, n))
  }

  function Final(testcases: seq<nat>, matrices: seq<Matrix>, expanded: seq<seq<TagSet>>, names: nat -> string,
                 n: nat): seq<TagSet>
    requires |expanded| == |matrices|
  {
    var w := Wanted(testcases, matrices, expanded, names, n, |matrices|);
    if n in testcases && w == [] then [{}] else w
  }

  /** The names in the table are those with tags. */
  lemma UsedNames(jobs: seq<JobData>, table: Table, tags: map<nat, seq<TagSet>>, n: nat)
    requires Lists(jobs, table, tags) && (n in tags ==> tags[n] != [])
    ensures n in tags <==> exists e :: e in table && e.name == n
  {
    assert TagList(jobs, M.JobsNamed(table, n)) == if n in tags then tags[n] else [];
    NamedOrNot(table, n);
  }

  lemma {:induction false} NamedOrNot(table: Table, n: nat)
    ensures M.JobsNamed(table, n) != [] <==> exists e :: e in table && e.name == n
  {
    if table != [] {
      NamedOrNot(table[1..], n);
      if table[0].name == n { assert table[0] in table; }
      if e :| e in table[1..] && e.name == n { assert e in table; }
    }
  }
}
