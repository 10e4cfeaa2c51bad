/** Two testcases under the same matrix: an untagged Depends item relates their jobs one to one. */
module OneToOnes {
  import opened Options
  import opened Tags
  import opened Jobs
  import opened MixedRadix
  import opened Expansions
  import opened Globs
  import opened JobMultipliers
  import opened JobTables
  import M = Matchings
  import R = DependencyResolvers

  lemma {:induction false} TagListAt(jobs: seq<JobData>, ids: seq<nat>, k: nat)
    requires k < |ids|
    ensures TagList(jobs, ids)[|ids| - 1 - k] == M.TagsOf(jobs, ids[k])
  {
    if k > 0 { TagListAt(jobs, ids[1..], k - 1); }
  }

  /** Different tag sets, more than one of them: none is empty, because then all rows were empty. */
  lemma NoEmptyTags(strings: seq<string>, ids: map<string, nat>, dims: seq<seq<Row>>, tags: seq<TagSet>, i: nat)
    requires NonEmpty(dims) && LabelsDisjoint(dims) && forall k | 0 <= k < |dims| :: Uniform(dims[k])
    requires Interned(strings, ids) && Expanded(strings, dims, tags, Product(Lens(dims)))
    requires AllDiffer(tags) && |tags| > 1 && i < |tags|
    ensures tags[i] != {}
  {
    var lens, other := Lens(dims), if i == 0 then 1 else 0;
    var d, e := Digits(i, lens), Digits(other, lens);
    if tags[i] == {} {
      assert Denotes(strings, tags[i], Combination(dims, d));
      forall j | 0 <= j < |dims| ensures dims[j][d[j]] == dims[j][e[j]] {
        EmptyRow(strings, dims, d, j);
        assert dims[j][d[j]].Keys == dims[j][e[j]].Keys;
      }
      SameRowsSamePairs(dims, d, e, |dims|);
      assert Denotes(strings, tags[other], Combination(dims, e));
      DenotesSame(strings, ids, tags[i], Combination(dims, d), tags[other], Combination(dims, e));
    }
  }

  lemma EmptyRow(strings: seq<string>, dims: seq<seq<Row>>, d: seq<nat>, j: nat)
    requires InRange(d, Lens(dims)) && Denotes(strings, {}, Combination(dims, d)) && j < |dims|
    ensures dims[j][d[j]].Keys == {}
  {
    NothingDenoted(strings, Combination(dims, d));
    forall l ensures l !in dims[j][d[j]] {
      if l in dims[j][d[j]] { PairFrom(dims, d, |dims|, l, dims[j][d[j]][l]); }
    }
  }

  lemma NothingDenoted(strings: seq<string>, pairs: set<(string, string)>)
    requires Denotes(strings, {}, pairs)
    ensures pairs == {}
  {
    forall p ensures p !in pairs {
      var denoted := HasTag(strings, {}, p);
    }
  }

  /** The k-th job of one testcase matches the k-th job of the other and nothing else: the job relation is a bijection
      and the mismatch error cannot occur. */
  lemma SameMatrixMatchesOneToOne(jobs: seq<JobData>, table: Table, tags: map<nat, seq<TagSet>>,
                                  rowsOf: M.TagRows, rows: seq<TagSet>,
                                  a: nat, b: nat, item: M.DependsItem, k: nat)
    requires Lists(jobs, table, tags) && a in tags && b in tags && tags[a] == tags[b] == rows
    requires AllDiffer(rows) && (|rows| > 1 ==> forall i | 0 <= i < |rows| :: rows[i] != {})
    requires !item.specifiesTags && k < |M.JobsNamed(table, b)|
    ensures |M.JobsNamed(table, a)| == |M.JobsNamed(table, b)|
    ensures R.MatchOf(jobs, table, rowsOf, M.JobsNamed(table, b)[k], a, item) == Some([M.JobsNamed(table, a)[k]])
  {
    var theirs, mine := M.JobsNamed(table, a), M.JobsNamed(table, b);
    assert TagList(jobs, theirs) == TagList(jobs, mine) == rows;
    TagListAt(jobs, theirs, k);
    TagListAt(jobs, mine, k);
    var ours := M.TagsOf(jobs, mine[k]);
    if |theirs| > 1 {
      assert ours == rows[|rows| - 1 - k];
      OnlyOne(jobs, theirs, rows, ours, k);
    } else {
      assert theirs == [theirs[k]];
    }
  }

  lemma OnlyOne(jobs: seq<JobData>, ids: seq<nat>, rows: seq<TagSet>, ours: TagSet, k: nat)
    requires TagList(jobs, ids) == rows && AllDiffer(rows) && k < |ids| && M.TagsOf(jobs, ids[k]) == ours
    ensures M.WithTags(ids, jobs, ours) != [] && M.WithTags(ids, jobs, ours)[0] == ids[k]
  {
    var equal := M.WithTags(ids, jobs, ours);
    M.WithTagsCounts(ids, jobs, ours, ids[k]);
    assert ids[k] in multiset(ids);
    assert ids[k] in multiset(equal);
    M.WithTagsCounts(ids, jobs, ours, equal[0]);
    assert equal[0] in multiset(equal);
    assert equal[0] in ids;
    var i :| 0 <= i < |ids| && ids[i] == equal[0];
    TagListAt(jobs, ids, i);
    TagListAt(jobs, ids, k);
  }

  /** A testcase that only one matrix covers has that matrix's tag sets. */
  lemma {:induction false} CoveredOnce(matrices: seq<Matrix>, expanded: seq<seq<TagSet>>, names: nat -> string, n: nat,
                                       m: nat, at: nat)
    requires at < |matrices| && m <= |matrices| == |expanded|
    requires forall i | 0 <= i < |matrices| :: Accepts(matrices[i].patterns, names(n)) <==> i == at
    ensures TagsFor(matrices, expanded, names, n, m) == if m > at then expanded[at] else []
  {
    if m > 0 { CoveredOnce(matrices, expanded, names, n, m - 1, at); }
  }

  /** The whole chain, from the matrix to the job relation. */
  lemma CoveredTestcasesMatchOneToOne(
    jobs: seq<JobData>, table: Table, tags: map<nat, seq<TagSet>>, rowsOf: M.TagRows,
    strings: seq<string>, ids: map<string, nat>, testcases: seq<nat>, matrices: seq<Matrix>, expanded: seq<seq<TagSet>>,
    names: nat -> string, at: nat, a: nat, b: nat, item: M.DependsItem, k: nat)
    requires Lists(jobs, table, tags) && Multiplied(tags, testcases, matrices, expanded, names)
    requires Interned(strings, ids) && AllExpanded(strings, matrices, expanded) && at < |matrices|
    requires var dims := matrices[at].dims;
             NonEmpty(dims) && LabelsDisjoint(dims) && RowsDiffer(dims) && forall j | 0 <= j < |dims| :: Uniform(dims[j])
    requires a in testcases && b in testcases
    requires forall i | 0 <= i < |matrices| :: Accepts(matrices[i].patterns, names(a)) <==> i == at
    requires forall i | 0 <= i < |matrices| :: Accepts(matrices[i].patterns, names(b)) <==> i == at
    requires !item.specifiesTags && k < |M.JobsNamed(table, b)|
    ensures |M.JobsNamed(table, a)| == |M.JobsNamed(table, b)| == Product(Lens(matrices[at].dims))
    ensures R.MatchOf(jobs, table, rowsOf, M.JobsNamed(table, b)[k], a, item) == Some([M.JobsNamed(table, a)[k]])
  {
    var dims, rows := matrices[at].dims, expanded[at];
    CoveredOnce(matrices, expanded, names, a, |matrices|, at);
    CoveredOnce(matrices, expanded, names, b, |matrices|, at);
    ProductPositive(Lens(dims));
    assert Expanded(strings, dims, rows, Product(Lens(dims)));
    assert Wanted(testcases, matrices, expanded, names, a, |matrices|) == rows;
    assert Wanted(testcases, matrices, expanded, names, b, |matrices|) == rows;
    ExpandedDiffer(strings, ids, dims, rows);
    forall i | 0 <= i < |rows| && |rows| > 1 ensures rows[i] != {} {
      NoEmptyTags(strings, ids, dims, rows, i);
    }
    assert TagList(jobs, M.JobsNamed(table, b)) == rows;
    SameMatrixMatchesOneToOne(jobs, table, tags, rowsOf, rows, a, b, item, k);
  }
}
