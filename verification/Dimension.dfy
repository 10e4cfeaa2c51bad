/** Tags written as lists: from a map of lists to a list of rows, for Dimension and for Depends items. */
module Dimensions {
  import opened Options
  import opened Tags
  import opened Expansions
  import opened JobMultipliers

  /** The evaluated value of a tag: one basic value, or a list of them. */
  datatype TagValue = Scalar(value: string) | List(values: seq<string>)

  ghost predicate SameLengths(bindings: map<string, TagValue>) {
    forall a, b | a in bindings && b in bindings && bindings[a].List? && bindings[b].List? ::
      |bindings[a].values| == |bindings[b].values|
  }

  /** As many rows as the lists are long; one row if there is no list. */
  ghost predicate RowCount(bindings: map<string, TagValue>, n: nat) {
    if exists a :: a in bindings && bindings[a].List?
    then forall a | a in bindings && bindings[a].List? :: |bindings[a].values| == n
    else n == 1
  }

  /** The value of one tag in row i; a single value is repeated in every row. */
  function Entry(v: TagValue, i: nat): string
    requires v.List? ==> i < |v.values|
  {
    match v
    case Scalar(s) => s
    case List(vs) => vs[i]
  }

  ghost predicate IsRow(bindings: map<string, TagValue>, i: nat, row: Row) {
    row.Keys == bindings.Keys &&
    forall a | a in bindings :: (bindings[a].List? ==> i < |bindings[a].values|) && row[a] == Entry(bindings[a], i)
  }

  /** QList::value(i, first()). */
  function Value(s: seq<string>, i: nat): string {
    if i < |s| then s[i] else if s != [] then s[0] else ""
  }

  function ValuesOf(v: TagValue): seq<string> {
    match v
    case Scalar(s) => [s]
    case List(vs) => vs
  }

  /** The common length of all lists, or 1. */
  method CommonLength(bindings: map<string, TagValue>) returns (ok: bool, length: nat)
    ensures ok <==> SameLengths(bindings)
    ensures ok ==> RowCount(bindings, length)
    ensures ok ==> forall a | a in bindings && bindings[a].List? :: |bindings[a].values| == length
  {
    var arrayLengths: map<string, nat> := map a | a in bindings && bindings[a].List? :: |bindings[a].values|;
    forall a | a in bindings && bindings[a].List? ensures a in arrayLengths.Keys {}
    if a, b :| a in arrayLengths && b in arrayLengths && arrayLengths[a] != arrayLengths[b] {
      return false, 0;
    }
    if arrayLengths.Keys == {} {
      return true, 1;
    }
    var a :| a in arrayLengths.Keys;
    return true, arrayLengths[a];
  }

  /** The transposition; None is the error of lists of unequal length. */
  method Transpose(bindings: map<string, TagValue>) returns (rows: Option<seq<Row>>)
    ensures rows.None? <==> !SameLengths(bindings)
    ensures rows.Some? ==> RowCount(bindings, |rows.value|)
    ensures rows.Some? ==> forall i | 0 <= i < |rows.value| :: IsRow(bindings, i, rows.value[i])
    ensures rows.Some? ==> Uniform(rows.value)
  {
    var ok, length := CommonLength(bindings);
    if !ok {
      return None;
    }
    var data: seq<Row> := [];
    for i := 0 to length
      invariant |data| == i && forall k | 0 <= k < i :: IsRow(bindings, k, data[k])
    {
      var row: Row := map a | a in bindings :: Value(ValuesOf(bindings[a]), i);
      data := data + [row];
    }
    rows := Some(data);
  }

  /** Depends::evaluateTags: the same rows, as tag sets. */
  method EvaluateTags(bindings: map<string, TagValue>, table: TagTable) returns (tags: Option<seq<TagSet>>)
    requires table.Valid()
    modifies table
    ensures table.Valid() && old(table.stringsById) <= table.stringsById
    ensures tags.None? <==> !SameLengths(bindings)
    ensures tags.Some? ==> RowCount(bindings, |tags.value|)
    ensures tags.Some? ==> forall i | 0 <= i < |tags.value| :: DenotesRow(table.stringsById, bindings, i, tags.value[i])
  {
    var rows := Transpose(bindings);
    if rows.None? {
      return None;
    }
    var sets: seq<TagSet> := [];
    for i := 0 to |rows.value|
      invariant table.Valid() && old(table.stringsById) <= table.stringsById && |sets| == i
      invariant forall k | 0 <= k < i :: DenotesRow(table.stringsById, bindings, k, sets[k])
    {
      ghost var strings := table.stringsById;
      var t := TagRow(rows.value[i], {}, table, {});
      assert {} + RowPairs(rows.value[i], rows.value[i].Keys) == RowPairs(rows.value[i], rows.value[i].Keys);
      assert IsRow(bindings, i, rows.value[i]);
      forall k | 0 <= k < i ensures DenotesRow(table.stringsById, bindings, k, sets[k]) {
        assert DenotesRow(strings, bindings, k, sets[k]);
        var row :| IsRow(bindings, k, row) && Denotes(strings, sets[k], RowPairs(row, row.Keys));
        DenotesLater(strings, table.stringsById, sets[k], RowPairs(row, row.Keys));
      }
      sets := sets + [t];
    }
    tags := Some(sets);
  }

  ghost predicate DenotesRow(strings: seq<string>, bindings: map<string, TagValue>, i: nat, tags: TagSet) {
    exists row :: IsRow(bindings, i, row) && Denotes(strings, tags, RowPairs(row, row.Keys))
  }
}
