/** Interned tags: a label and a value, each an index into one global table of strings. */
module Tags {

  datatype Tag = Tag(labelId: nat, valueId: nat)

  type TagSet = set<Tag>

  /** The table maps every interned string to its only position. */
  ghost predicate Interned(strings: seq<string>, ids: map<string, nat>) {
    && (forall s | s in ids :: ids[s] < |strings| && strings[ids[s]] == s)
    && (forall i | 0 <= i < |strings| :: strings[i] in ids && ids[strings[i]] == i)
  }

  ghost predicate Names(strings: seq<string>, t: Tag, lbl: string, val: string) {
    && t.labelId < |strings| && strings[t.labelId] == lbl
    && t.valueId < |strings| && strings[t.valueId] == val
  }

  class TagTable {
    var stringsById: seq<string>
    var idByStrings: map<string, nat>

    ghost predicate Valid()
      reads this
    {
      Interned(stringsById, idByStrings)
    }

    constructor ()
      ensures Valid() && stringsById == []
    {
      stringsById, idByStrings := [], map[];
    }

    /** The ids handed out before keep their strings: the table only grows at its end. */
    method Create(lbl: string, val: string) returns (t: Tag)
      requires Valid()
      modifies this
      ensures Valid() && old(stringsById) <= stringsById
      ensures Names(stringsById, t, lbl, val)
    {
      if lbl !in idByStrings {
        stringsById := stringsById + [lbl];
        idByStrings := idByStrings[lbl := |stringsById| - 1];
      }
      var labelId := idByStrings[lbl];
      if val !in idByStrings {
        stringsById := stringsById + [val];
        idByStrings := idByStrings[val := |stringsById| - 1];
      }
      t := Tag(labelId, idByStrings[val]);
    }
  }

  /** Comparing ids compares strings, however much the table grew between the two calls. */
  lemma TagEquality(earlier: seq<string>, later: seq<string>, ids: map<string, nat>,
                    s: Tag, sLabel: string, sValue: string, t: Tag, tLabel: string, tValue: string)
    requires earlier <= later && Interned(later, ids)
    requires Names(earlier, s, sLabel, sValue) && Names(later, t, tLabel, tValue)
    ensures s == t <==> sLabel == tLabel && sValue == tValue
  {
    assert Names(later, s, sLabel, sValue);
    assert later[s.labelId] in ids && later[t.labelId] in ids;
    assert later[s.valueId] in ids && later[t.valueId] in ids;
  }
}
