/** Dictionaries with optional entries, as the message encoders write them: in a fixed order that need not be sorted. */
module Fields {
  import opened Bytes
  import opened Bencode

  datatype Field = Field(key: seq<byte>, tree: Option<Tree>)

  predicate DistinctKeys(fields: seq<Field>) {
    forall i, j | 0 <= i < j < |fields| :: fields[i].key != fields[j].key
  }

  /** The entries of the fields that are present. */
  function Present(fields: seq<Field>): seq<Entry> {
    if fields == [] then []
    else Present(fields[..|fields| - 1]) + PresentOne(fields[|fields| - 1])
  }

  function PresentOne(f: Field): seq<Entry> {
    if f.tree.Some? then [Entry(f.key, f.tree.value)] else []
  }

  function FieldText(f: Field): seq<byte> {
    if f.tree.Some? then StringText(f.key) + Text(f.tree.value) else []
  }

  lemma {:induction false} PresentKeys(fields: seq<Field>, e: Entry) returns (i: nat)
    requires e in Present(fields)
    ensures i < |fields| && fields[i] == Field(e.key, Some(e.tree))
  {
    var init := fields[..|fields| - 1];
    if e in Present(init) {
      i := PresentKeys(init, e);
    } else {
      i := |init|;
    }
  }

  /** A present field is found under its key, an absent one is not. */
  predicate FieldFound(d: map<seq<byte>, Value>, f: Field) {
    if f.tree.Some? then f.key in d && d[f.key] == Meaning(f.tree.value) else f.key !in d
  }

  lemma {:induction false} FieldsFound(fields: seq<Field>)
    requires DistinctKeys(fields)
    ensures forall i | 0 <= i < |fields| :: FieldFound(MeaningEntries(Present(fields)), fields[i])
  {
    if fields != [] {
      var init, last := fields[..|fields| - 1], fields[|fields| - 1];
      FieldsFound(init);
      forall e | e in Present(init) ensures e.key != last.key {
        var i := PresentKeys(init, e);
      }
      MeaningWithoutKey(Present(init), last.key);
      if last.tree.Some? {
        MeaningOfLast(Present(init), Entry(last.key, last.tree.value));
      } else {
        assert Present(init) + [] == Present(init);
      }
      forall i | 0 <= i < |fields| ensures FieldFound(MeaningEntries(Present(fields)), fields[i]) {
        if i < |init| {
          assert FieldFound(MeaningEntries(Present(init)), init[i]);
        }
      }
    }
  }

  /** Appending the text of the next field to what was written before. */
  lemma AppendField(before: seq<byte>, fields: seq<Field>, k: nat)
    requires k < |fields|
    ensures before + TextEntries(Present(fields[..k])) + FieldText(fields[k])
         == before + TextEntries(Present(fields[..k + 1]))
  {
    assert fields[..k + 1][..k] == fields[..k];
    var one := PresentOne(fields[k]);
    TextEntriesConcat(Present(fields[..k]), one);
    assert TextEntries(one) == FieldText(fields[k]) by {
      if fields[k].tree.Some? {
        assert one[1..] == [];
      }
    }
    Assoc(before, TextEntries(Present(fields[..k])), FieldText(fields[k]));
  }

  lemma {:induction false} PresentRepresentable(fields: seq<Field>)
    requires forall f | f in fields :: f.tree.Some? ==> Representable(f.tree.value)
    ensures forall e | e in Present(fields) :: Representable(e.tree)
  {
    forall e | e in Present(fields) ensures Representable(e.tree) {
      var i := PresentKeys(fields, e);
    }
  }
}
