/** JobMultiplier: every testcase becomes one job per tag set of the matrices that cover it, or one untagged job. */
module JobMultipliers {
  import opened Options
  import opened Tags
  import opened MixedRadix
  import opened Expansions

  datatype Matrix = Matrix(dims: seq<seq<Row>>, patterns: seq<string>)

  /** QList::value(i, 1). */
  function ValueOrOne(s: seq<nat>, i: int): nat {
    if 0 <= i < |s| then s[i] else 1
  }

  ghost function LabelsOf(dims: seq<seq<Row>>, n: nat): set<string>
    requires NonEmpty(dims) && n <= |dims|
  {
    if n == 0 then {} else LabelsOf(dims, n - 1) + dims[n - 1][0].Keys
  }

  ghost predicate DisjointUpTo(dims: seq<seq<Row>>, n: nat)
    requires NonEmpty(dims) && n <= |dims|
  {
    forall j, k | 0 <= j < k < n :: Apart(dims[j][0], dims[k][0])
  }

  lemma {:induction false} LabelFrom(dims: seq<seq<Row>>, n: nat, l: string)
    requires NonEmpty(dims) && n <= |dims|
    ensures l in LabelsOf(dims, n) <==> exists j :: 0 <= j < n && l in dims[j][0]
  {
    if n > 0 { LabelFrom(dims, n - 1, l); }
  }

  lemma LabelStep(dims: seq<seq<Row>>, i: nat)
    requires NonEmpty(dims) && i < |dims|
    ensures DisjointUpTo(dims, i + 1) <==> DisjointUpTo(dims, i) && LabelsOf(dims, i) * dims[i][0].Keys == {}
  {
    if DisjointUpTo(dims, i + 1) {
      forall l | l in LabelsOf(dims, i) ensures l !in dims[i][0] {
        LabelFrom(dims, i, l);
        var j :| 0 <= j < i && l in dims[j][0];
        assert Apart(dims[j][0], dims[i][0]);
      }
    } else if LabelsOf(dims, i) * dims[i][0].Keys == {} {
      forall j | 0 <= j < i ensures Apart(dims[j][0], dims[i][0]) {
        forall l | l in dims[j][0] ensures l !in dims[i][0] {
          LabelFrom(dims, i, l);
          assert l !in LabelsOf(dims, i) * dims[i][0].Keys;
        }
      }
    }
  }

  lemma SomeOverlap(dims: seq<seq<Row>>, n: nat)
    requires NonEmpty(dims) && n <= |dims|
    ensures LabelsDisjoint(dims) ==> DisjointUpTo(dims, n)
    ensures n == |dims| ==> (LabelsDisjoint(dims) <==> DisjointUpTo(dims, n))
  {
  }

  /** The divider of a dimension is the product of the lengths before it. */
  ghost predicate Divides(lens: seq<nat>, dividers: seq<nat>) {
    |dividers| <= |lens| && forall j {:trigger dividers[j]} | 0 <= j < |dividers| :: dividers[j] == Product(lens[..j])
  }

  lemma DividerStep(lens: seq<nat>, dividers: seq<nat>)
    requires Divides(lens, dividers) && |dividers| < |lens|
    ensures var i := |dividers|;
            Divides(lens, dividers + [ValueOrOne(dividers, i - 1) * ValueOrOne(lens[..i + 1], i - 1)])
  {
    var i := |dividers|;
    if i > 0 {
      ProductGrows(lens[..i - 1], lens[i - 1]);
      assert lens[..i] == lens[..i - 1] + [lens[i - 1]];
    }
  }

  /** The first loop of expand: lengths, dividers, and a check that no label occurs in two dimensions. */
  method Measure(dims: seq<seq<Row>>) returns (ok: bool, lengths: seq<nat>, dividers: seq<nat>)
    requires NonEmpty(dims)
    ensures ok <==> LabelsDisjoint(dims)
    ensures ok ==> lengths == Lens(dims) && |dividers| == |dims|
    ensures ok ==> Divides(Lens(dims), dividers)
  {
    lengths, dividers := [], [];
    var tagnames: set<string> := {};
    ghost var lens := Lens(dims);
    for i := 0 to |dims|
      invariant |dividers| == i && lengths == lens[..i] && Divides(lens, dividers)
      invariant tagnames == LabelsOf(dims, i) && DisjointUpTo(dims, i)
    {
      LabelStep(dims, i);
      lengths := lengths + [|dims[i]|];
      DividerStep(lens, dividers);
      dividers := dividers + [ValueOrOne(dividers, i - 1) * ValueOrOne(lengths, i - 1)];
      var dimensionTagnames := dims[i][0].Keys;
      if tagnames * dimensionTagnames != {} {
        SomeOverlap(dims, i + 1);
        return false, lengths, dividers;
      }
      tagnames := tagnames + dimensionTagnames;
    }
    SomeOverlap(dims, |dims|);
    ok := true;
  }

  /** The innermost loop of expand: one tag per entry of a row. */
  method TagRow(row: Row, tags: TagSet, table: TagTable, ghost pairs: set<(string, string)>) returns (more: TagSet)
    requires table.Valid() && Denotes(table.stringsById, tags, pairs)
    modifies table
    ensures table.Valid() && old(table.stringsById) <= table.stringsById
    ensures Denotes(table.stringsById, more, pairs + RowPairs(row, row.Keys))
  {
    more := tags;
    var keys := row.Keys;
    assert pairs + RowPairs(row, row.Keys - keys) == pairs;
    while keys != {}
      invariant keys <= row.Keys && table.Valid() && old(table.stringsById) <= table.stringsById
      invariant Denotes(table.stringsById, more, pairs + RowPairs(row, row.Keys - keys))
    {
      var key :| key in keys;
      ghost var strings, sofar := table.stringsById, pairs + RowPairs(row, row.Keys - keys);
      var tag := table.Create(key, row[key]);
      DenotesLater(strings, table.stringsById, more, sofar);
      DenotesMore(table.stringsById, more, sofar, tag, key, row[key]);
      assert sofar + {(key, row[key])} == pairs + RowPairs(row, row.Keys - (keys - {key}));
      more := more + {tag};
      keys := keys - {key};
    }
    assert row.Keys - keys == row.Keys;
  }

  /** The tags of the job at flat index i. */
  method TagIndex(dims: seq<seq<Row>>, lengths: seq<nat>, dividers: seq<nat>, i: nat, table: TagTable)
      returns (tags: TagSet)
    requires NonEmpty(dims) && table.Valid()
    requires lengths == Lens(dims) && |dividers| == |dims| && Divides(lengths, dividers)
    modifies table
    ensures table.Valid() && old(table.stringsById) <= table.stringsById
    ensures Denotes(table.stringsById, tags, Combination(dims, Digits(i, Lens(dims))))
  {
    tags := {};
    ghost var d := Digits(i, Lens(dims));
    for j := 0 to |dims|
      invariant table.Valid() && old(table.stringsById) <= table.stringsById
      invariant Denotes(table.stringsById, tags, Pairs(dims, d, j))
    {
      DigitByDivider(i, lengths, j);
      assert dividers[j] == Product(lengths[..j]);
      QuotientIsDivision(i, dividers[j]);
      QuotientIsDivision(i / dividers[j], lengths[j]);
      var row := dims[j][(i / dividers[j]) % lengths[j]];
      tags := TagRow(row, tags, table, Pairs(dims, d, j));
    }
  }

  /** One tag set per combination of rows, the first dimension varying fastest; or the error of overlapping labels. */
  method Expand(dims: seq<seq<Row>>, table: TagTable) returns (r: Option<seq<TagSet>>)
    requires NonEmpty(dims) && table.Valid()
    modifies table
    ensures table.Valid() && old(table.stringsById) <= table.stringsById
    ensures r.None? <==> !LabelsDisjoint(dims)
    ensures r.Some? ==> Expanded(table.stringsById, dims, r.value, Product(Lens(dims)))
  {
    var ok, lengths, dividers := Measure(dims);
    if !ok {
      return None;
    }
    TotalSize(dims, lengths, dividers);
    var expandedTags: seq<TagSet> := [];
    for i := 0 to dividers[|dividers| - 1] * lengths[|lengths| - 1]
      invariant table.Valid() && old(table.stringsById) <= table.stringsById
      invariant Expanded(table.stringsById, dims, expandedTags, i)
    {
      ghost var strings := table.stringsById;
      var tagsPerJob := TagIndex(dims, lengths, dividers, i, table);
      ExpandedMore(strings, table.stringsById, dims, expandedTags, tagsPerJob, i);
      expandedTags := expandedTags + [tagsPerJob];
    }
    r := Some(expandedTags);
  }

  lemma TotalSize(dims: seq<seq<Row>>, lengths: seq<nat>, dividers: seq<nat>)
    requires NonEmpty(dims) && lengths == Lens(dims) && |dividers| == |dims| && Divides(lengths, dividers)
    ensures dividers[|dividers| - 1] * lengths[|lengths| - 1] == Product(Lens(dims))
  {
    var k := |lengths| - 1;
    ProductGrows(lengths[..k], lengths[k]);
    assert lengths == lengths[..k] + [lengths[k]];
  }

  lemma ExpandedMore(earlier: seq<string>, later: seq<string>, dims: seq<seq<Row>>, tags: seq<TagSet>, last: TagSet, i: nat)
    requires NonEmpty(dims) && earlier <= later && Expanded(earlier, dims, tags, i)
    requires Denotes(later, last, Combination(dims, Digits(i, Lens(dims))))
    ensures Expanded(later, dims, tags + [last], i + 1)
  {
    forall k | 0 <= k < i ensures Denotes(later, (tags + [last])[k], Combination(dims, Digits(k, Lens(dims)))) {
      DenotesLater(earlier, later, tags[k], Combination(dims, Digits(k, Lens(dims))));
    }
  }
}
