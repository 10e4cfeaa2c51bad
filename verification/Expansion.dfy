/** Matrix expansion: dimensions as tables of rows, and the tag sets of all combinations of rows. */
module Expansions {
  import opened Tags
  import opened MixedRadix

  /** One QVariantMap of a dimension, its values converted to strings. */
  type Row = map<string, string>

  function Lens(dims: seq<seq<Row>>): (r: seq<nat>)
    ensures |r| == |dims|
  {
    seq(|dims|, j requires 0 <= j < |dims| => |dims[j]|)
  }

  /** Dimensions have at least one row. */
  ghost predicate NonEmpty(dims: seq<seq<Row>>) {
    dims != [] && forall j | 0 <= j < |dims| :: dims[j] != []
  }

  ghost predicate LabelsDisjoint(dims: seq<seq<Row>>)
    requires NonEmpty(dims)
  {
    forall j, k | 0 <= j < k < |dims| :: Apart(dims[j][0], dims[k][0])
  }

  ghost predicate Apart(r: Row, s: Row) {
    forall l | l in r :: l !in s
  }

  /** All rows of a dimension have the same labels. */
  ghost predicate Uniform(rows: seq<Row>) {
    forall i, k | 0 <= i < |rows| && 0 <= k < |rows| :: rows[i].Keys == rows[k].Keys
  }

  /** The labels and values of one row of each of the first n dimensions. */
  ghost function Pairs(dims: seq<seq<Row>>, d: seq<nat>, n: nat): set<(string, string)>
    requires n <= |dims| && InRange(d, Lens(dims))
  {
    if n == 0 then {} else Pairs(dims, d, n - 1) + RowPairs(dims[n - 1][d[n - 1]], dims[n - 1][d[n - 1]].Keys)
  }

  /** The entries of a row under the given labels. */
  ghost function RowPairs(row: Row, labels: set<string>): set<(string, string)>
    requires labels <= row.Keys
  {
    set l | l in labels :: (l, row[l])
  }

  lemma {:induction false} PairFrom(dims: seq<seq<Row>>, d: seq<nat>, n: nat, l: string, v: string)
    requires n <= |dims| && InRange(d, Lens(dims))
    ensures (l, v) in Pairs(dims, d, n) <==> exists j :: 0 <= j < n && l in dims[j][d[j]] && dims[j][d[j]][l] == v
  {
    if n > 0 { PairFrom(dims, d, n - 1, l, v); }
  }

  lemma {:induction false} SameRowsSamePairs(dims: seq<seq<Row>>, d: seq<nat>, e: seq<nat>, n: nat)
    requires n <= |dims| && InRange(d, Lens(dims)) && InRange(e, Lens(dims))
    requires forall j | 0 <= j < n :: dims[j][d[j]] == dims[j][e[j]]
    ensures Pairs(dims, d, n) == Pairs(dims, e, n)
  {
    if n > 0 { SameRowsSamePairs(dims, d, e, n - 1); }
  }

  ghost function Combination(dims: seq<seq<Row>>, d: seq<nat>): set<(string, string)>
    requires InRange(d, Lens(dims))
  {
    Pairs(dims, d, |dims|)
  }

  // --------------------------------------------------- tag sets as string pairs

  ghost predicate Denotes(strings: seq<string>, tags: TagSet, pairs: set<(string, string)>) {
    && (forall t | t in tags :: t.labelId < |strings| && t.valueId < |strings| &&
                                (strings[t.labelId], strings[t.valueId]) in pairs)
    && (forall p {:trigger HasTag(strings, tags, p)} | p in pairs :: HasTag(strings, tags, p))
  }

  ghost predicate HasTag(strings: seq<string>, tags: TagSet, p: (string, string)) {
    exists t :: t in tags && Names(strings, t, p.0, p.1)
  }

  lemma DenotesLater(earlier: seq<string>, later: seq<string>, tags: TagSet, pairs: set<(string, string)>)
    requires earlier <= later && Denotes(earlier, tags, pairs)
    ensures Denotes(later, tags, pairs)
  {
    forall p | p in pairs ensures HasTag(later, tags, p) {
      assert HasTag(earlier, tags, p);
      var t :| t in tags && Names(earlier, t, p.0, p.1);
      assert Names(later, t, p.0, p.1);
    }
  }

  lemma DenotesMore(strings: seq<string>, tags: TagSet, pairs: set<(string, string)>, t: Tag, l: string, v: string)
    requires Denotes(strings, tags, pairs) && Names(strings, t, l, v)
    ensures Denotes(strings, tags + {t}, pairs + {(l, v)})
  {
    forall p | p in pairs + {(l, v)} ensures HasTag(strings, tags + {t}, p) {
      if p in pairs {
        assert HasTag(strings, tags, p);
        var u :| u in tags && Names(strings, u, p.0, p.1);
        assert u in tags + {t};
      } else {
        assert t in tags + {t};
      }
    }
  }

  /** Interned tag sets are equal exactly if they denote the same labels and values. */
  lemma DenotesSame(strings: seq<string>, ids: map<string, nat>, s: TagSet, p: set<(string, string)>,
                    t: TagSet, q: set<(string, string)>)
    requires Interned(strings, ids) && Denotes(strings, s, p) && Denotes(strings, t, q)
    ensures s == t <==> p == q
  {
    if p == q {
      SubsetByPairs(strings, ids, s, p, t);
      SubsetByPairs(strings, ids, t, p, s);
    } else if s == t {
      PairsByTags(strings, s, p, q);
      PairsByTags(strings, s, q, p);
    }
  }

  lemma SubsetByPairs(strings: seq<string>, ids: map<string, nat>, s: TagSet, p: set<(string, string)>, t: TagSet)
    requires Interned(strings, ids) && Denotes(strings, s, p) && Denotes(strings, t, p)
    ensures s <= t
  {
    forall u | u in s ensures u in t {
      var pair := (strings[u.labelId], strings[u.valueId]);
      assert HasTag(strings, t, pair);
      var v :| v in t && Names(strings, v, pair.0, pair.1);
      TagEquality(strings, strings, ids, u, pair.0, pair.1, v, pair.0, pair.1);
    }
  }

  lemma PairsByTags(strings: seq<string>, s: TagSet, p: set<(string, string)>, q: set<(string, string)>)
    requires Denotes(strings, s, p) && Denotes(strings, s, q)
    ensures p <= q
  {
    forall pair | pair in p ensures pair in q {
      assert HasTag(strings, s, pair);
    }
  }

  // ------------------------------------------------------ distinct combinations

  lemma LabelHome(dims: seq<seq<Row>>, j: nat, k: nat, l: string)
    requires NonEmpty(dims) && LabelsDisjoint(dims) && j < |dims| && k < |dims|
    requires l in dims[j][0] && l in dims[k][0]
    ensures j == k
  {
  }

  /** With disjoint labels, a combination determines the row of every dimension. */
  lemma CombinationDetermines(dims: seq<seq<Row>>, d: seq<nat>, e: seq<nat>, j: nat)
    requires NonEmpty(dims) && LabelsDisjoint(dims) && forall k | 0 <= k < |dims| :: Uniform(dims[k])
    requires InRange(d, Lens(dims)) && InRange(e, Lens(dims)) && j < |dims|
    requires Combination(dims, d) == Combination(dims, e)
    ensures dims[j][d[j]] == dims[j][e[j]]
  {
    var a, b := dims[j][d[j]], dims[j][e[j]];
    assert a.Keys == b.Keys == dims[j][0].Keys;
    forall l | l in a ensures a[l] == b[l] {
      PairFrom(dims, d, |dims|, l, a[l]);
      PairFrom(dims, e, |dims|, l, a[l]);
      var k :| 0 <= k < |dims| && l in dims[k][e[k]] && dims[k][e[k]][l] == a[l];
      assert dims[k][e[k]].Keys == dims[k][0].Keys;
      LabelHome(dims, j, k, l);
    }
  }

  ghost predicate RowsDiffer(dims: seq<seq<Row>>) {
    forall j, a, b | 0 <= j < |dims| && 0 <= a < b < |dims[j]| :: dims[j][a] != dims[j][b]
  }

  /** The tag sets of the expansion, one per flat index. */
  ghost predicate Expanded(strings: seq<string>, dims: seq<seq<Row>>, tags: seq<TagSet>, n: nat)
    requires NonEmpty(dims)
  {
    && |tags| == n
    && forall i {:trigger tags[i]} | 0 <= i < n ::
         Denotes(strings, tags[i], Combination(dims, Digits(i, Lens(dims))))
  }

  ghost predicate AllDiffer(tags: seq<TagSet>) {
    forall i, k | 0 <= i < k < |tags| :: tags[i] != tags[k]
  }

  /** All expanded tag sets differ exactly if the rows within each dimension differ. */
  lemma ExpandedDiffer(strings: seq<string>, ids: map<string, nat>, dims: seq<seq<Row>>, tags: seq<TagSet>)
    requires NonEmpty(dims) && LabelsDisjoint(dims) && forall k | 0 <= k < |dims| :: Uniform(dims[k])
    requires Interned(strings, ids) && Expanded(strings, dims, tags, Product(Lens(dims)))
    ensures AllDiffer(tags) <==> RowsDiffer(dims)
  {
    if RowsDiffer(dims) {
      forall i, k | 0 <= i < k < |tags| ensures tags[i] != tags[k] {
        if tags[i] == tags[k] { SameIndex(strings, ids, dims, tags, i, k); }
      }
    } else {
      var j, a, b :| 0 <= j < |dims| && 0 <= a < b < |dims[j]| && dims[j][a] == dims[j][b];
      EqualRows(strings, ids, dims, tags, j, a, b);
    }
  }

  lemma SameIndex(strings: seq<string>, ids: map<string, nat>, dims: seq<seq<Row>>, tags: seq<TagSet>, i: nat, k: nat)
    requires NonEmpty(dims) && LabelsDisjoint(dims) && forall k | 0 <= k < |dims| :: Uniform(dims[k])
    requires Interned(strings, ids) && Expanded(strings, dims, tags, Product(Lens(dims)))
    requires RowsDiffer(dims) && i < |tags| && k < |tags| && tags[i] == tags[k]
    ensures i == k
  {
    var lens := Lens(dims);
    var d, e := Digits(i, lens), Digits(k, lens);
    IndexOfDigits(i, lens);
    IndexOfDigits(k, lens);
    DenotesSame(strings, ids, tags[i], Combination(dims, d), tags[k], Combination(dims, e));
    forall j | 0 <= j < |dims| ensures d[j] == e[j] {
      CombinationDetermines(dims, d, e, j);
    }
    assert d == e;
  }

  lemma EqualRows(strings: seq<string>, ids: map<string, nat>, dims: seq<seq<Row>>, tags: seq<TagSet>,
                  j: nat, a: nat, b: nat)
    requires NonEmpty(dims) && Interned(strings, ids) && Expanded(strings, dims, tags, Product(Lens(dims)))
    requires j < |dims| && a < b < |dims[j]| && dims[j][a] == dims[j][b]
    ensures !AllDiffer(tags)
  {
    var d, e := TwoCombinations(dims, j, a, b);
    var x := CombinationAt(strings, dims, tags, d);
    var y := CombinationAt(strings, dims, tags, e);
    SameRowsSameTags(strings, ids, dims, d, e, tags[x], tags[y]);
    Repeated(tags, x, y);
  }

  lemma Repeated(tags: seq<TagSet>, x: nat, y: nat)
    requires x < |tags| && y < |tags| && x != y && tags[x] == tags[y]
    ensures !AllDiffer(tags)
  {
    if x < y {
      assert tags[x] == tags[y];
    } else {
      assert tags[y] == tags[x];
    }
  }

  lemma SameRowsSameTags(strings: seq<string>, ids: map<string, nat>, dims: seq<seq<Row>>, d: seq<nat>, e: seq<nat>,
                         s: TagSet, t: TagSet)
    requires Interned(strings, ids) && InRange(d, Lens(dims)) && InRange(e, Lens(dims))
    requires forall j | 0 <= j < |dims| :: dims[j][d[j]] == dims[j][e[j]]
    requires Denotes(strings, s, Combination(dims, d)) && Denotes(strings, t, Combination(dims, e))
    ensures s == t
  {
    SameRowsSamePairs(dims, d, e, |dims|);
    DenotesSame(strings, ids, s, Combination(dims, d), t, Combination(dims, e));
  }

  /** Two combinations that differ in equal rows of one dimension only. */
  lemma TwoCombinations(dims: seq<seq<Row>>, j: nat, a: nat, b: nat) returns (d: seq<nat>, e: seq<nat>)
    requires NonEmpty(dims) && j < |dims| && a < b < |dims[j]| && dims[j][a] == dims[j][b]
    ensures InRange(d, Lens(dims)) && InRange(e, Lens(dims)) && Index(d, Lens(dims)) != Index(e, Lens(dims))
    ensures forall k | 0 <= k < |dims| :: dims[k][d[k]] == dims[k][e[k]]
  {
    var zeros := seq(|dims|, k => 0);
    d, e := zeros[j := a], zeros[j := b];
    assert d[j] != e[j];
    DigitsOfIndex(d, Lens(dims));
    DigitsOfIndex(e, Lens(dims));
  }

  /** Every combination of rows is somewhere. */
  lemma CombinationAt(strings: seq<string>, dims: seq<seq<Row>>, tags: seq<TagSet>, d: seq<nat>) returns (x: nat)
    requires NonEmpty(dims) && Expanded(strings, dims, tags, Product(Lens(dims))) && InRange(d, Lens(dims))
    ensures x == Index(d, Lens(dims)) && x < |tags| && Denotes(strings, tags[x], Combination(dims, d))
  {
    var lens := Lens(dims);
    DigitsOfIndex(d, lens);
    x := Index(d, lens);
  }
}
