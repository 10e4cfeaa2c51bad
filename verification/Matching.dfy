/** Which jobs a Depends item matches, and the job-graph edges that follow from it. */
module Matchings {
  import opened Options
  import opened Graphs
  import opened Tags
  import opened Jobs

  /** One entry of the job table, in the order in which QMultiMap iterates. */
  datatype JobEntry = JobEntry(name: nat, job: nat)

  /** A Depends item; `id` tells items with equal properties apart. */
  datatype DependsItem = DependsItem(id: nat, alias: string, specifiesTags: bool)

  /** What the tag expressions of an item yield for a job; None is an error after which the program exits. */
  type TagRows = (DependsItem, nat) -> Option<seq<TagSet>>

  /** evaluateTags: an item that lists no tags has one empty row. */
  function TagRowsFor(item: DependsItem, rowsOf: TagRows, job: nat): Option<seq<TagSet>> {
    if item.specifiesTags then rowsOf(item, job) else Some([{}])
  }

  /** JobTable::values(name). */
  function JobsNamed(table: seq<JobEntry>, name: nat): seq<nat> {
    if table == [] then []
    else (if table[0].name == name then [table[0].job] else []) + JobsNamed(table[1..], name)
  }

  function TagsOf(jobs: seq<JobData>, j: nat): TagSet {
    if j < |jobs| then jobs[j].tags else {}
  }

  function NameOf(jobs: seq<JobData>, j: nat): nat {
    if j < |jobs| then jobs[j].name else 0
  }

  /** The jobs of `preceding` that carry exactly the tags `row`. */
  function WithTags(preceding: seq<nat>, jobs: seq<JobData>, row: TagSet): seq<nat> {
    if preceding == [] then []
    else WithTags(preceding[..|preceding| - 1], jobs, row) +
         (if TagsOf(jobs, preceding[|preceding| - 1]) == row then [preceding[|preceding| - 1]] else [])
  }

  /** One row after the other. */
  function WithRows(preceding: seq<nat>, jobs: seq<JobData>, rows: seq<TagSet>): seq<nat> {
    if rows == [] then []
    else WithRows(preceding, jobs, rows[..|rows| - 1]) + WithTags(preceding, jobs, rows[|rows| - 1])
  }

  /** The jobs that one Depends item of a job tagged `ours` matches among `preceding`; None is the mismatch error. */
  function Matches(ours: TagSet, item: DependsItem, rows: seq<TagSet>, preceding: seq<nat>, jobs: seq<JobData>)
      : Option<seq<nat>>
  {
    if item.specifiesTags then Some(WithRows(preceding, jobs, rows))
    else if ours == {} || |preceding| <= 1 then Some(preceding)
    else
      var equal := WithTags(preceding, jobs, ours);
      if equal == [] then None else Some([equal[0]])
  }

  lemma {:induction false} WithTagsCounts(preceding: seq<nat>, jobs: seq<JobData>, row: TagSet, p: nat)
    ensures multiset(WithTags(preceding, jobs, row))[p] == if TagsOf(jobs, p) == row then multiset(preceding)[p] else 0
  {
    if preceding != [] {
      var k := |preceding| - 1;
      WithTagsCounts(preceding[..k], jobs, row, p);
      assert preceding == preceding[..k] + [preceding[k]];
    }
  }

  /** n times k, by addition. */
  function Times(n: nat, k: nat): nat {
    if k == 0 then 0 else n + Times(n, k - 1)
  }

  lemma {:induction false} TimesMultiplies(n: nat, k: nat)
    ensures Times(n, k) == n * k
  {
    if k > 0 {
      TimesMultiplies(n, k - 1);
      assert n * k == n * (k - 1) + n;
    }
  }

  lemma {:induction false} RowsAdd(preceding: seq<nat>, jobs: seq<JobData>, rows: seq<TagSet>, p: nat)
    ensures Adds(multiset(preceding)[p], rows, TagsOf(jobs, p), WithRows(preceding, jobs, rows), p)
  {
    if rows != [] {
      var k := |rows| - 1;
      var some, last := rows[..k], rows[k];
      var before, now := WithRows(preceding, jobs, some), WithTags(preceding, jobs, last);
      var n: nat := multiset(preceding)[p];
      var mine := TagsOf(jobs, p);
      assert WithRows(preceding, jobs, rows) == before + now && rows == some + [last];
      assert Adds(n, some, mine, before, p) by { RowsAdd(preceding, jobs, some, p); }
      WithTagsCounts(preceding, jobs, last, p);
      RowAdds(n, some, last, mine, before, now, p);
    }
  }

  ghost predicate Adds(n: nat, rows: seq<TagSet>, mine: TagSet, matched: seq<nat>, p: nat) {
    multiset(matched)[p] == Times(n, multiset(rows)[mine])
  }

  lemma RowAdds(n: nat, rows: seq<TagSet>, row: TagSet, mine: TagSet, before: seq<nat>, now: seq<nat>, p: nat)
    requires Adds(n, rows, mine, before, p) && multiset(now)[p] == if row == mine then n else 0
    ensures Adds(n, rows + [row], mine, before + now, p)
  {
    CountAppended(rows, row, mine);
    CountJoined(before, now, p);
  }

  lemma WithRowsCounts(preceding: seq<nat>, jobs: seq<JobData>, rows: seq<TagSet>, p: nat)
    ensures multiset(WithRows(preceding, jobs, rows))[p] == multiset(preceding)[p] * multiset(rows)[TagsOf(jobs, p)]
  {
    RowsAdd(preceding, jobs, rows, p);
    TimesMultiplies(multiset(preceding)[p], multiset(rows)[TagsOf(jobs, p)]);
  }

  lemma CountAppended<T>(s: seq<T>, x: T, y: T)
    ensures multiset(s + [x])[y] == multiset(s)[y] + if x == y then 1 else 0
  {
  }

  lemma CountJoined<T>(a: seq<T>, b: seq<T>, y: T)
    ensures multiset(a + b)[y] == multiset(a)[y] + multiset(b)[y]
  {
  }

  /** How often a preceding job is matched: as often as its tags are listed if the item lists tags; once per
      table entry if one of the sides has nothing to choose; otherwise once, if it is the first with equal tags. */
  lemma MatchesCounts(ours: TagSet, item: DependsItem, rows: seq<TagSet>, preceding: seq<nat>, jobs: seq<JobData>, p: nat)
    ensures var m := Matches(ours, item, rows, preceding, jobs);
            && (m.None? <==> !item.specifiesTags && ours != {} && |preceding| > 1 &&
                             forall q | q in preceding :: TagsOf(jobs, q) != ours)
            && (item.specifiesTags ==>
                  multiset(m.value)[p] == multiset(preceding)[p] * multiset(rows)[TagsOf(jobs, p)])
            && (!item.specifiesTags && (ours == {} || |preceding| <= 1) ==>
                  multiset(m.value)[p] == multiset(preceding)[p])
            && (!item.specifiesTags && ours != {} && |preceding| > 1 && m.Some? ==>
                  |m.value| == 1 && m.value[0] in preceding && TagsOf(jobs, m.value[0]) == ours)
  {
    WithRowsCounts(preceding, jobs, rows, p);
    var equal := WithTags(preceding, jobs, ours);
    forall q: nat ensures q in equal <==> q in preceding && TagsOf(jobs, q) == ours {
      WithTagsCounts(preceding, jobs, ours, q);
    }
    if equal != [] { assert equal[0] in equal; }
  }

  // -------------------------------------------------- the order of matches

  /** Row r and entry e of the preceding jobs. */
  datatype Place = Place(row: nat, entry: nat)

  predicate Earlier(a: Place, b: Place) {
    a.row < b.row || (a.row == b.row && a.entry < b.entry)
  }

  ghost predicate InOrder(places: seq<Place>) {
    forall i, j | 0 <= i < j < |places| :: Earlier(places[i], places[j])
  }

  ghost predicate Fits(preceding: seq<nat>, jobs: seq<JobData>, rows: seq<TagSet>, p: Place) {
    p.row < |rows| && p.entry < |preceding| && TagsOf(jobs, preceding[p.entry]) == rows[p.row]
  }

  /** The jobs at all places where row and job fit, row by row and in the order of the table. */
  ghost predicate RowByRow(preceding: seq<nat>, jobs: seq<JobData>, rows: seq<TagSet>, matched: seq<nat>,
                           places: seq<Place>) {
    && |places| == |matched| && InOrder(places)
    && (forall i {:trigger places[i]} | 0 <= i < |places| ::
          Fits(preceding, jobs, rows, places[i]) && matched[i] == preceding[places[i].entry])
    && forall p {:trigger Fits(preceding, jobs, rows, p)} | Fits(preceding, jobs, rows, p) :: p in places
  }

  lemma {:induction false} TagsInOrder(preceding: seq<nat>, jobs: seq<JobData>, row: TagSet) returns (places: seq<Place>)
    ensures RowByRow(preceding, jobs, [row], WithTags(preceding, jobs, row), places)
    decreases |preceding|
  {
    if preceding == [] {
      return [];
    }
    var k := |preceding| - 1;
    var some := TagsInOrder(preceding[..k], jobs, row);
    places := some + if TagsOf(jobs, preceding[k]) == row then [Place(0, k)] else [];
    forall p | Fits(preceding, jobs, [row], p) ensures p in places {
      if p.entry < k { assert Fits(preceding[..k], jobs, [row], p); }
    }
    forall i | 0 <= i < |some|
      ensures Fits(preceding, jobs, [row], some[i]) && some[i].row == 0 && some[i].entry < k
    {
      assert Fits(preceding[..k], jobs, [row], some[i]);
    }
  }

  function InRow(places: seq<Place>, r: nat): (s: seq<Place>)
    ensures |s| == |places|
  {
    seq(|places|, i requires 0 <= i < |places| => Place(r, places[i].entry))
  }

  lemma LastRowInOrder(preceding: seq<nat>, jobs: seq<JobData>, rows: seq<TagSet>, row: TagSet, before: seq<nat>,
                       now: seq<nat>, some: seq<Place>, more: seq<Place>)
    requires RowByRow(preceding, jobs, rows, before, some) && RowByRow(preceding, jobs, [row], now, more)
    ensures RowByRow(preceding, jobs, rows + [row], before + now, some + InRow(more, |rows|))
  {
    var last := InRow(more, |rows|);
    var places := some + last;
    forall i | 0 <= i < |places| ensures Fits(preceding, jobs, rows + [row], places[i]) {
      if i < |some| {
        assert Fits(preceding, jobs, rows, some[i]);
      } else {
        assert Fits(preceding, jobs, [row], more[i - |some|]);
      }
    }
    forall i | 0 <= i < |some| ensures some[i].row < |rows| {
      assert Fits(preceding, jobs, rows, some[i]);
    }
    forall i, j | 0 <= i < j < |more| ensures Earlier(last[i], last[j]) {
      assert Fits(preceding, jobs, [row], more[i]) && Fits(preceding, jobs, [row], more[j]);
      assert Earlier(more[i], more[j]);
    }
    forall p | Fits(preceding, jobs, rows + [row], p) ensures p in places {
      if p.row < |rows| {
        assert Fits(preceding, jobs, rows, p);
      } else {
        var q := Place(0, p.entry);
        assert Fits(preceding, jobs, [row], q);
        var i :| 0 <= i < |more| && more[i] == q;
        assert last[i] == p;
      }
    }
  }

  lemma {:induction false} RowsInOrder(preceding: seq<nat>, jobs: seq<JobData>, rows: seq<TagSet>)
      returns (places: seq<Place>)
    ensures RowByRow(preceding, jobs, rows, WithRows(preceding, jobs, rows), places)
    decreases |rows|
  {
    if rows == [] {
      return [];
    }
    var k := |rows| - 1;
    var some := RowsInOrder(preceding, jobs, rows[..k]);
    var more := TagsInOrder(preceding, jobs, rows[k]);
    LastRowInOrder(preceding, jobs, rows[..k], rows[k], WithRows(preceding, jobs, rows[..k]),
                   WithTags(preceding, jobs, rows[k]), some, more);
    assert rows[..k] + [rows[k]] == rows;
    places := some + InRow(more, k);
  }

  /** The entry e is the first with these tags. */
  ghost predicate FirstEqual(preceding: seq<nat>, jobs: seq<JobData>, ours: TagSet, e: nat) {
    && e < |preceding| && TagsOf(jobs, preceding[e]) == ours
    && forall d | 0 <= d < e :: TagsOf(jobs, preceding[d]) != ours
  }

  /** In which order jobs are matched, and so in which order edges are inserted: row by row and then as listed for an
      item with tags, as listed for an untagged job or a single one, and the first with equal tags alone otherwise. */
  lemma MatchesInOrder(ours: TagSet, item: DependsItem, rows: seq<TagSet>, preceding: seq<nat>, jobs: seq<JobData>)
      returns (places: seq<Place>)
    requires Matches(ours, item, rows, preceding, jobs).Some?
    ensures var m := Matches(ours, item, rows, preceding, jobs).value;
            && (item.specifiesTags ==> RowByRow(preceding, jobs, rows, m, places))
            && (!item.specifiesTags && (ours == {} || |preceding| <= 1) ==>
                  |m| == |preceding| == |places| &&
                  forall i | 0 <= i < |m| :: places[i].entry == i && m[i] == preceding[i])
            && (!item.specifiesTags && ours != {} && |preceding| > 1 ==>
                  |places| == |m| == 1 && FirstEqual(preceding, jobs, ours, places[0].entry) &&
                  m[0] == preceding[places[0].entry])
  {
    if item.specifiesTags {
      places := RowsInOrder(preceding, jobs, rows);
    } else if ours == {} || |preceding| <= 1 {
      places := seq(|preceding|, i requires 0 <= i < |preceding| => Place(0, i));
    } else {
      var all := TagsInOrder(preceding, jobs, ours);
      places := [all[0]];
      assert Fits(preceding, jobs, [ours], all[0]);
      forall d | 0 <= d < |preceding| && TagsOf(jobs, preceding[d]) == ours ensures all[0].entry <= d {
        assert Fits(preceding, jobs, [ours], Place(0, d));
        var i :| 0 <= i < |all| && all[i] == Place(0, d);
        assert i == 0 || Earlier(all[0], all[i]);
      }
    }
  }

  // ----------------------------------------------- the documented relation

  /** What the documentation promises a tagged job that depends on tagged ones: all that have at least its tags. */
  function AtLeast(preceding: seq<nat>, jobs: seq<JobData>, ours: TagSet): seq<nat> {
    if preceding == [] then []
    else AtLeast(preceding[..|preceding| - 1], jobs, ours) +
         (if ours <= TagsOf(jobs, preceding[|preceding| - 1]) then [preceding[|preceding| - 1]] else [])
  }

  /** Equal tags are at least the same tags. */
  lemma {:induction false} EqualAmong(preceding: seq<nat>, jobs: seq<JobData>, ours: TagSet)
    ensures WithTags(AtLeast(preceding, jobs, ours), jobs, ours) == WithTags(preceding, jobs, ours)
  {
    if preceding != [] {
      var k := |preceding| - 1;
      EqualAmong(preceding[..k], jobs, ours);
      var earlier := AtLeast(preceding[..k], jobs, ours);
      assert (earlier + [preceding[k]])[..|earlier|] == earlier && earlier + [] == earlier;
      assert WithTags(earlier + [preceding[k]], jobs, ours) ==
             WithTags(earlier, jobs, ours) + if TagsOf(jobs, preceding[k]) == ours then [preceding[k]] else [];
    }
  }

  /** For a tagged job and an item without tags, the code does what is documented for tagged dependencies exactly if,
      among several jobs, just one has at least the same tags and that one has no others, and if a single job, which
      the code takes for untagged, has at least the same tags. */
  lemma MatchesAsDocumented(ours: TagSet, item: DependsItem, rows: seq<TagSet>, preceding: seq<nat>, jobs: seq<JobData>)
    requires !item.specifiesTags && ours != {}
    ensures Matches(ours, item, rows, preceding, jobs) == Some(AtLeast(preceding, jobs, ours)) <==>
            AsDocumented(ours, preceding, jobs)
  {
    if |preceding| > 1 {
      SeveralAsDocumented(ours, item, rows, preceding, jobs);
    } else if |preceding| == 1 {
      assert preceding[..0] == [];
      assert AtLeast(preceding, jobs, ours) == if ours <= TagsOf(jobs, preceding[0]) then preceding else [];
    }
  }

  ghost predicate AsDocumented(ours: TagSet, preceding: seq<nat>, jobs: seq<JobData>) {
    if |preceding| > 1 then
      var wide := AtLeast(preceding, jobs, ours);
      |wide| == 1 && TagsOf(jobs, wide[0]) == ours
    else preceding == [] || ours <= TagsOf(jobs, preceding[0])
  }

  lemma SeveralAsDocumented(ours: TagSet, item: DependsItem, rows: seq<TagSet>, preceding: seq<nat>, jobs: seq<JobData>)
    requires !item.specifiesTags && ours != {} && |preceding| > 1
    ensures Matches(ours, item, rows, preceding, jobs) == Some(AtLeast(preceding, jobs, ours)) <==>
            AsDocumented(ours, preceding, jobs)
  {
    var wide := AtLeast(preceding, jobs, ours);
    EqualAmong(preceding, jobs, ours);
    if |wide| == 1 {
      assert wide[..0] == [];
      assert WithTags(wide, jobs, ours) == if TagsOf(jobs, wide[0]) == ours then wide else [];
    }
    var equal := WithTags(preceding, jobs, ours);
    if equal != [] && [equal[0]] == wide {
      assert WithTags(wide, jobs, ours) == equal;
      WithTagsCounts(preceding, jobs, ours, equal[0]);
      assert equal[0] in equal;
    }
  }

  /** Where it does not: a job with tag x after two jobs with x and one more tag each. The code finds no equal tags,
      an error; two dependencies are documented. */
  lemma MoreTagsAreAMismatch(item: DependsItem, rows: seq<TagSet>, x: Tag, y: Tag, z: Tag) returns (jobs: seq<JobData>)
    requires !item.specifiesTags && x != y && x != z && y != z
    ensures |jobs| == 2 && TagsOf(jobs, 0) == {x, y} && TagsOf(jobs, 1) == {x, z}
    ensures Matches({x}, item, rows, [0, 1], jobs) == None && AtLeast([0, 1], jobs, {x}) == [0, 1]
  {
    jobs := [JobData(0, {x, y}, map[], Unfinished, map[]), JobData(0, {x, z}, map[], Unfinished, map[])];
    var preceding: seq<nat> := [0, 1];
    assert preceding[..1] == [0] && preceding[..1][..0] == [];
    assert TagsOf(jobs, 0) != {x} by { assert y in TagsOf(jobs, 0); }
    assert TagsOf(jobs, 1) != {x} by { assert z in TagsOf(jobs, 1); }
    assert WithTags([0], jobs, {x}) == [];
    assert AtLeast([0], jobs, {x}) == [0];
  }

  /** The other way round: a job with tag x after the only job of a testcase, which has tag y. The code makes it a
      dependency; none is documented. */
  lemma SingleJobIsMatched(item: DependsItem, rows: seq<TagSet>, x: Tag, y: Tag) returns (jobs: seq<JobData>)
    requires !item.specifiesTags && x != y
    ensures |jobs| == 1 && TagsOf(jobs, 0) == {y}
    ensures Matches({x}, item, rows, [0], jobs) == Some([0]) && AtLeast([0], jobs, {x}) == []
  {
    jobs := [JobData(0, {y}, map[], Unfinished, map[])];
    assert x in {x} && x !in TagsOf(jobs, 0);
    var preceding: seq<nat> := [0];
    assert preceding[..0] == [];
  }

  lemma MatchesArePreceding(ours: TagSet, item: DependsItem, rows: seq<TagSet>, preceding: seq<nat>, jobs: seq<JobData>)
    requires Matches(ours, item, rows, preceding, jobs).Some?
    ensures forall p | p in Matches(ours, item, rows, preceding, jobs).value :: p in preceding
  {
    forall p | p in Matches(ours, item, rows, preceding, jobs).value ensures p in preceding {
      MatchesCounts(ours, item, rows, preceding, jobs, p);
      assert multiset(Matches(ours, item, rows, preceding, jobs).value)[p] > 0;
    }
  }

  // -------------------------------------------------- the list of evaluations

  /** One evaluation of a Depends item for one job, and what it matched. */
  datatype Evaluation = Evaluation(job: nat, name: nat, item: DependsItem, matched: seq<nat>)

  function EdgesTo(job: nat, matched: seq<nat>, k: nat): (r: seq<Edge<nat>>)
    ensures |r| == |matched|
  {
    seq(|matched|, i requires 0 <= i < |matched| => Edge(matched[i], job, k))
  }

  /** The job-graph edges of a list of evaluations; the k-th evaluation labels its edges with k. */
  function AllEdges(evals: seq<Evaluation>): seq<Edge<nat>> {
    if evals == [] then []
    else
      var k := |evals| - 1;
      AllEdges(evals[..k]) + EdgesTo(evals[k].job, evals[k].matched, k)
  }

  lemma {:induction false} EdgeComesFrom(evals: seq<Evaluation>, i: nat)
    requires i < |AllEdges(evals)|
    ensures var e := AllEdges(evals)[i];
            e.info < |evals| && e.succ == evals[e.info].job && e.pred in evals[e.info].matched
  {
    var k := |evals| - 1;
    if i < |AllEdges(evals[..k])| {
      EdgeComesFrom(evals[..k], i);
    }
  }

  /** The number of edges that share label k. */
  function Sharing(edges: seq<Edge<nat>>, k: nat): nat {
    if edges == [] then 0
    else Sharing(edges[..|edges| - 1], k) + (if edges[|edges| - 1].info == k then 1 else 0)
  }

  lemma {:induction false} SharingConcat(a: seq<Edge<nat>>, b: seq<Edge<nat>>, k: nat)
    ensures Sharing(a + b, k) == Sharing(a, k) + Sharing(b, k)
  {
    if b == [] {
      assert a + b == a;
    } else {
      assert (a + b)[..|a + b| - 1] == a + b[..|b| - 1];
      SharingConcat(a, b[..|b| - 1], k);
    }
  }

  lemma {:induction false} SharingTo(job: nat, matched: seq<nat>, mark: nat, k: nat)
    ensures Sharing(EdgesTo(job, matched, mark), k) == if mark == k then |matched| else 0
  {
    if matched != [] {
      SharingTo(job, matched[..|matched| - 1], mark, k);
      var edges := EdgesTo(job, matched, mark);
      assert edges[..|edges| - 1] == EdgesTo(job, matched[..|matched| - 1], mark);
    }
  }

  /** All edges of one evaluation, and no others, share its label. */
  lemma {:induction false} EvaluationShares(evals: seq<Evaluation>, k: nat)
    ensures Sharing(AllEdges(evals), k) == if k < |evals| then |evals[k].matched| else 0
    decreases |evals|
  {
    if evals != [] {
      var last := |evals| - 1;
      EvaluationShares(evals[..last], k);
      SharingConcat(AllEdges(evals[..last]), EdgesTo(evals[last].job, evals[last].matched, last), k);
      SharingTo(evals[last].job, evals[last].matched, last, k);
    }
  }

  /** The items evaluated for a job and a testcase name, in order. */
  function ItemsFor(evals: seq<Evaluation>, job: nat, name: nat): seq<DependsItem> {
    if evals == [] then []
    else
      var e := evals[|evals| - 1];
      ItemsFor(evals[..|evals| - 1], job, name) + (if e.job == job && e.name == name then [e.item] else [])
  }

  lemma ItemsForGrows(evals: seq<Evaluation>, e: Evaluation, job: nat, name: nat)
    ensures ItemsFor(evals + [e], job, name) ==
            ItemsFor(evals, job, name) + (if e.job == job && e.name == name then [e.item] else [])
    ensures AllEdges(evals + [e]) == AllEdges(evals) + EdgesTo(e.job, e.matched, |evals|)
  {
    assert (evals + [e])[..|evals + [e]| - 1] == evals;
  }

  lemma {:induction false} ItemEvaluated(evals: seq<Evaluation>, job: nat, name: nat, item: DependsItem) returns (k: nat)
    requires item in ItemsFor(evals, job, name)
    ensures k < |evals| && evals[k].job == job && evals[k].name == name && evals[k].item == item
  {
    var last := |evals| - 1;
    var e := evals[last];
    if e.job == job && e.name == name && e.item == item {
      k := last;
    } else {
      k := ItemEvaluated(evals[..last], job, name, item);
    }
  }
}
