/** Bencoded values, the grammar of BEP 3, and the text of values whose dictionaries list their entries in any order. */
module Bencode {
  import opened Bytes
  import opened Decimal

  const INT_MARK: byte := 'i' as int
  const LIST_MARK: byte := 'l' as int
  const DICT_MARK: byte := 'd' as int
  const END_MARK: byte := 'e' as int
  const COLON: byte := ':' as int

  /** A parsed value; the program keeps dictionaries in an unordered map. */
  datatype Value =
    | Integer(n: int)
    | Str(s: seq<byte>)
    | List(items: seq<Value>)
    | Dict(values: map<seq<byte>, Value>)

  /** A value as it is written down: dictionary entries have an order and may repeat keys. */
  datatype Tree =
    | IntTree(n: int)
    | StrTree(s: seq<byte>)
    | ListTree(items: seq<Tree>)
    | DictTree(entries: seq<Entry>)

  datatype Entry = Entry(key: seq<byte>, tree: Tree)

  // ----- what a tree means and how it is written -----

  /** The value of a tree; the last of several entries with one key wins. */
  function Meaning(t: Tree): Value
    decreases t, 1
  {
    match t
    case IntTree(n) => Integer(n)
    case StrTree(s) => Str(s)
    case ListTree(items) => List(MeaningItems(items))
    case DictTree(entries) => Dict(MeaningEntries(entries))
  }

  function MeaningItems(items: seq<Tree>): (r: seq<Value>)
    decreases items, 0
  {
    if items == [] then [] else [Meaning(items[0])] + MeaningItems(items[1..])
  }

  function MeaningEntries(entries: seq<Entry>): map<seq<byte>, Value>
    decreases entries, 0
  {
    if entries == [] then map[]
    else
      var last := entries[|entries| - 1];
      MeaningEntries(entries[..|entries| - 1])[last.key := Meaning(last.tree)]
  }

  function StringText(s: seq<byte>): seq<byte> { PrintNat(|s|) + [COLON] + s }

  function Text(t: Tree): (r: seq<byte>)
    decreases t, 1
  {
    match t
    case IntTree(n) => [INT_MARK] + PrintInt(n) + [END_MARK]
    case StrTree(s) => StringText(s)
    case ListTree(items) => [LIST_MARK] + TextItems(items) + [END_MARK]
    case DictTree(entries) => [DICT_MARK] + TextEntries(entries) + [END_MARK]
  }

  function TextItems(items: seq<Tree>): seq<byte>
    decreases items, 0
  {
    if items == [] then [] else Text(items[0]) + TextItems(items[1..])
  }

  function TextEntries(entries: seq<Entry>): seq<byte>
    decreases entries, 0
  {
    if entries == [] then []
    else StringText(entries[0].key) + Text(entries[0].tree) + TextEntries(entries[1..])
  }

  lemma TextItemsConcat(a: seq<Tree>, b: seq<Tree>)
    ensures TextItems(a + b) == TextItems(a) + TextItems(b)
  {
    if a == [] {
      assert a + b == b;
    } else {
      assert (a + b)[1..] == a[1..] + b;
      TextItemsConcat(a[1..], b);
    }
  }

  lemma TextEntriesConcat(a: seq<Entry>, b: seq<Entry>)
    ensures TextEntries(a + b) == TextEntries(a) + TextEntries(b)
  {
    if a == [] {
      assert a + b == b;
    } else {
      assert (a + b)[1..] == a[1..] + b;
      TextEntriesConcat(a[1..], b);
    }
  }

  /** The integers and string lengths that the program can hold. */
  predicate Representable(t: Tree)
    decreases t, 1
  {
    match t
    case IntTree(n) => -TWO_63 <= n < TWO_63
    case StrTree(s) => true
    case ListTree(items) => forall x | x in items :: Representable(x)
    case DictTree(entries) => forall e | e in entries :: Representable(e.tree)
  }

  predicate Valid(v: Value) {
    match v
    case Integer(n) => -TWO_63 <= n < TWO_63
    case Str(s) => true
    case List(items) => forall x | x in items :: Valid(x)
    case Dict(values) => forall k | k in values :: Valid(values[k])
  }

  lemma {:induction false} MeaningOfLastKey(entries: seq<Entry>, i: nat)
    requires i < |entries| && forall j | i < j < |entries| :: entries[j].key != entries[i].key
    ensures entries[i].key in MeaningEntries(entries)
    ensures MeaningEntries(entries)[entries[i].key] == Meaning(entries[i].tree)
  {
    if i < |entries| - 1 {
      MeaningOfLastKey(entries[..|entries| - 1], i);
    }
  }

  lemma MeaningWithoutKey(entries: seq<Entry>, key: seq<byte>)
    requires forall e | e in entries :: e.key != key
    ensures key !in MeaningEntries(entries)
  {
  }

  // ----- canonical order of keys -----

  predicate StrictlyIncreasing(keys: seq<seq<byte>>) {
    forall i, j | 0 <= i < j < |keys| :: LexLess(keys[i], keys[j])
  }

  /** `k` put in its place among increasing keys. */
  function InsertKey(k: seq<byte>, keys: seq<seq<byte>>): (r: seq<seq<byte>>) {
    if keys == [] || LexLess(k, keys[0]) then [k] + keys else [keys[0]] + InsertKey(k, keys[1..])
  }

  lemma {:induction false} InsertKeyIncreasing(k: seq<byte>, keys: seq<seq<byte>>)
    requires StrictlyIncreasing(keys) && k !in keys
    ensures StrictlyIncreasing(InsertKey(k, keys))
    ensures forall x :: x in InsertKey(k, keys) <==> x == k || x in keys
  {
    var r := InsertKey(k, keys);
    if keys == [] {
    } else if LexLess(k, keys[0]) {
      forall j | 0 < j < |r| ensures LexLess(r[0], r[j]) {
        if j > 1 {
          LexTransitive(k, keys[0], keys[j - 1]);
        }
      }
    } else {
      InsertKeyIncreasing(k, keys[1..]);
      LexTotal(k, keys[0]);
      assert keys == [keys[0]] + keys[1..];
      forall j | 0 < j < |r| ensures LexLess(r[0], r[j]) {
        assert r[j] in InsertKey(k, keys[1..]);
        if r[j] != k {
          var i :| 0 <= i < |keys[1..]| && keys[1..][i] == r[j];
          assert keys[i + 1] == r[j];
        }
      }
    }
  }

  /** The keys of a map in increasing order. */
  ghost function SortedKeys(s: set<seq<byte>>): (r: seq<seq<byte>>)
    ensures StrictlyIncreasing(r)
    ensures forall k :: k in r <==> k in s
  {
    if s == {} then []
    else
      var k :| k in s;
      InsertKeyIncreasing(k, SortedKeys(s - {k}));
      InsertKey(k, SortedKeys(s - {k}))
  }

  lemma EmptyOrInhabited(keys: seq<seq<byte>>)
    ensures keys == [] || exists k :: k in keys
  {
    if keys != [] {
      assert keys[0] in keys;
    }
  }

  lemma {:induction false} IncreasingUnique(a: seq<seq<byte>>, b: seq<seq<byte>>)
    requires StrictlyIncreasing(a) && StrictlyIncreasing(b)
    requires forall k :: k in a <==> k in b
    ensures a == b
  {
    if a == [] {
      EmptyOrInhabited(b);
    } else {
      assert a[0] in a;
      var j :| 0 <= j < |b| && b[j] == a[0];
      assert b[0] in b;
      var i :| 0 <= i < |a| && a[i] == b[0];
      LexTotal(a[0], b[0]);
      assert i == 0 && a[0] == b[0];
      assert a == [a[0]] + a[1..] && b == [b[0]] + b[1..];
      LexTotal(a[0], a[0]);
      assert a[0] !in a[1..] by {
        forall x | 0 <= x < |a[1..]| ensures a[1..][x] != a[0] {
          assert LexLess(a[0], a[x + 1]);
        }
      }
      assert b[0] !in b[1..] by {
        forall x | 0 <= x < |b[1..]| ensures b[1..][x] != b[0] {
          assert LexLess(b[0], b[x + 1]);
        }
      }
      forall k ensures k in a[1..] <==> k in b[1..] {
        assert k in a <==> k == a[0] || k in a[1..];
        assert k in b <==> k == b[0] || k in b[1..];
      }
      IncreasingUnique(a[1..], b[1..]);
    }
  }

  // ----- the canonical tree and encoding of a value -----

  ghost function Canon(v: Value): (t: Tree)
    decreases v, 1, 0
  {
    match v
    case Integer(n) => IntTree(n)
    case Str(s) => StrTree(s)
    case List(items) => ListTree(CanonItems(items))
    case Dict(values) => DictTree(CanonEntries(v, SortedKeys(values.Keys)))
  }

  ghost function CanonItems(items: seq<Value>): (r: seq<Tree>)
    ensures |r| == |items|
    decreases items, 0, 0
  {
    if items == [] then [] else [Canon(items[0])] + CanonItems(items[1..])
  }

  ghost function CanonEntries(v: Value, keys: seq<seq<byte>>): (r: seq<Entry>)
    requires v.Dict? && forall k | k in keys :: k in v.values
    ensures |r| == |keys| && forall i | 0 <= i < |r| :: r[i].key == keys[i]
    decreases v, 0, |keys|
  {
    if keys == [] then []
    else
      var k := keys[|keys| - 1];
      CanonEntries(v, keys[..|keys| - 1]) + [Entry(k, Canon(v.values[k]))]
  }

  /** The encoding that the program's `encode` writes. */
  ghost function Encode(v: Value): seq<byte> { Text(Canon(v)) }

  lemma {:induction false} CanonItemsAt(items: seq<Value>, i: nat)
    requires i < |items|
    ensures CanonItems(items[..i + 1]) == CanonItems(items[..i]) + [Canon(items[i])]
  {
    if i > 0 {
      CanonItemsAt(items[1..], i - 1);
      assert items[..i + 1][1..] == items[1..][..i] && items[..i][1..] == items[1..][..i - 1];
    } else {
      assert items[..1][1..] == [];
    }
  }

  lemma TextOfLastItem(items: seq<Value>, i: nat)
    requires i < |items|
    ensures TextItems(CanonItems(items[..i + 1])) == TextItems(CanonItems(items[..i])) + Encode(items[i])
  {
    CanonItemsAt(items, i);
    var last := [Canon(items[i])];
    TextItemsConcat(CanonItems(items[..i]), last);
    assert TextItems(last) == Encode(items[i]) by {
      assert last[1..] == [];
    }
  }

  lemma {:induction false} CanonMeans(v: Value)
    ensures Meaning(Canon(v)) == v
    decreases v, 1, 0
  {
    match v {
      case Integer(_) =>
      case Str(_) =>
      case List(items) => CanonItemsMean(items);
      case Dict(values) =>
        var keys := SortedKeys(values.Keys);
        CanonEntriesMean(v, keys);
        assert MeaningEntries(CanonEntries(v, keys)) == values;
    }
  }

  lemma {:induction false} CanonItemsMean(items: seq<Value>)
    ensures MeaningItems(CanonItems(items)) == items
    decreases items, 0, 0
  {
    if items != [] {
      CanonMeans(items[0]);
      CanonItemsMean(items[1..]);
      assert items == [items[0]] + items[1..];
      assert CanonItems(items)[1..] == CanonItems(items[1..]);
    }
  }

  lemma {:induction false} CanonEntriesMean(v: Value, keys: seq<seq<byte>>)
    requires v.Dict? && forall k | k in keys :: k in v.values
    ensures forall k :: k in MeaningEntries(CanonEntries(v, keys)) <==> k in keys
    ensures forall k | k in keys :: MeaningEntries(CanonEntries(v, keys))[k] == v.values[k]
    decreases v, 0, |keys|
  {
    if keys != [] {
      var init, k := keys[..|keys| - 1], keys[|keys| - 1];
      CanonMeans(v.values[k]);
      CanonEntriesMean(v, init);
      MeaningOfLast(CanonEntries(v, init), Entry(k, Canon(v.values[k])));
      assert forall x :: x in keys <==> x in init || x == k by {
        assert keys == init + [k];
      }
    }
  }

  lemma MeaningOfLast(entries: seq<Entry>, last: Entry)
    ensures MeaningEntries(entries + [last]) == MeaningEntries(entries)[last.key := Meaning(last.tree)]
  {
    var all := entries + [last];
    assert all[..|all| - 1] == entries;
  }

  lemma {:induction false} CanonRepresentable(v: Value)
    requires Valid(v)
    ensures Representable(Canon(v))
    decreases v, 1, 0
  {
    match v {
      case Integer(_) =>
      case Str(_) =>
      case List(items) => CanonItemsRepresentable(items);
      case Dict(values) => CanonEntriesRepresentable(v, SortedKeys(values.Keys));
    }
  }

  lemma {:induction false} CanonItemsRepresentable(items: seq<Value>)
    requires forall x | x in items :: Valid(x)
    ensures forall t | t in CanonItems(items) :: Representable(t)
    decreases items, 0, 0
  {
    if items != [] {
      CanonRepresentable(items[0]);
      CanonItemsRepresentable(items[1..]);
    }
  }

  lemma {:induction false} CanonEntriesRepresentable(v: Value, keys: seq<seq<byte>>)
    requires v.Dict? && Valid(v) && forall k | k in keys :: k in v.values
    ensures forall e | e in CanonEntries(v, keys) :: Representable(e.tree)
    decreases v, 0, |keys|
  {
    if keys != [] {
      CanonRepresentable(v.values[keys[|keys| - 1]]);
      CanonEntriesRepresentable(v, keys[..|keys| - 1]);
    }
  }

  // ----- the grammar of BEP 3, stated on its own -----

  /** `s` is the word of the strict grammar for `v`: minimal numerals, keys strictly increasing. */
  ghost predicate Derives(v: Value, s: seq<byte>)
    decreases v, 1, 0
  {
    match v
    case Integer(n) =>
      && |s| >= 2 && s[0] == INT_MARK && s[|s| - 1] == END_MARK
      && IsMinimalInt(s[1..|s| - 1]) && IntOf(s[1..|s| - 1]) == n
    case Str(x) => DerivesString(x, s)
    case List(items) =>
      && |s| >= 2 && s[0] == LIST_MARK && s[|s| - 1] == END_MARK
      && DerivesItems(items, s[1..|s| - 1])
    case Dict(values) =>
      && |s| >= 2 && s[0] == DICT_MARK && s[|s| - 1] == END_MARK
      && exists keys :: StrictlyIncreasing(keys) && (forall k :: k in keys <==> k in values)
           && DerivesEntries(v, keys, s[1..|s| - 1])
  }

  predicate DerivesString(x: seq<byte>, s: seq<byte>) {
    && |s| > |x|
    && var colon := |s| - |x| - 1;
    s[colon] == COLON && s[colon + 1..] == x && IsMinimalNat(s[..colon]) && NatOf(s[..colon]) == |x|
  }

  ghost predicate DerivesItems(items: seq<Value>, s: seq<byte>)
    decreases items, 0, 0
  {
    if items == [] then s == []
    else exists k :: 0 <= k <= |s| && Derives(items[0], s[..k]) && DerivesItems(items[1..], s[k..])
  }

  ghost predicate DerivesEntries(v: Value, keys: seq<seq<byte>>, s: seq<byte>)
    requires v.Dict? && forall k | k in keys :: k in v.values
    decreases v, 0, |keys|
  {
    if keys == [] then s == []
    else
      exists i, j :: 0 <= i <= j <= |s| && DerivesEntries(v, keys[..|keys| - 1], s[..i])
        && DerivesString(keys[|keys| - 1], s[i..j]) && Derives(v.values[keys[|keys| - 1]], s[j..])
  }

  lemma StringDerived(x: seq<byte>, s: seq<byte>)
    ensures DerivesString(x, s) <==> s == StringText(x)
  {
    PrintNatIsMinimal(|x|);
    if DerivesString(x, s) {
      var colon := |s| - |x| - 1;
      MinimalNatIsPrinted(s[..colon]);
      assert s == s[..colon] + [s[colon]] + s[colon + 1..];
    }
    if s == StringText(x) {
      assert s[..|s| - |x| - 1] == PrintNat(|x|);
    }
  }

  /** The grammar is unambiguous, and `encode` writes exactly the word it derives for each value. */
  lemma GrammarIsEncode(v: Value, s: seq<byte>)
    ensures Derives(v, s) <==> s == Encode(v)
  {
    if Derives(v, s) {
      DerivedIsEncoded(v, s);
    }
    EncodedIsDerived(v);
  }

  lemma {:induction false} DerivedIsEncoded(v: Value, s: seq<byte>)
    requires Derives(v, s)
    ensures s == Encode(v)
    decreases v, 1, 0
  {
    assert |s| >= 2 ==> s == [s[0]] + s[1..|s| - 1] + [s[|s| - 1]];
    match v {
      case Integer(n) => MinimalIntIsPrinted(s[1..|s| - 1]);
      case Str(x) => StringDerived(x, s);
      case List(items) => DerivedItems(items, s[1..|s| - 1]);
      case Dict(values) =>
        var keys :| StrictlyIncreasing(keys) && (forall k :: k in keys <==> k in values)
          && DerivesEntries(v, keys, s[1..|s| - 1]);
        IncreasingUnique(keys, SortedKeys(values.Keys));
        DerivedEntries(v, keys, s[1..|s| - 1]);
    }
  }

  lemma {:induction false} DerivedItems(items: seq<Value>, s: seq<byte>)
    requires DerivesItems(items, s)
    ensures s == TextItems(CanonItems(items))
    decreases items, 0, 0
  {
    if items != [] {
      var first, rest := SplitFirstItem(items, s);
      DerivedIsEncoded(items[0], first);
      DerivedItems(items[1..], rest);
      assert CanonItems(items)[1..] == CanonItems(items[1..]);
    }
  }

  lemma SplitFirstItem(items: seq<Value>, s: seq<byte>) returns (first: seq<byte>, rest: seq<byte>)
    requires items != [] && DerivesItems(items, s)
    ensures s == first + rest && Derives(items[0], first) && DerivesItems(items[1..], rest)
  {
    var k :| 0 <= k <= |s| && Derives(items[0], s[..k]) && DerivesItems(items[1..], s[k..]);
    first, rest := s[..k], s[k..];
  }

  lemma {:induction false} DerivedEntries(v: Value, keys: seq<seq<byte>>, s: seq<byte>)
    requires v.Dict? && forall k | k in keys :: k in v.values
    requires DerivesEntries(v, keys, s)
    ensures s == TextEntries(CanonEntries(v, keys))
    decreases v, 0, |keys|
  {
    if keys != [] {
      var head, name, word := SplitLastEntry(v, keys, s);
      DerivedEntries(v, keys[..|keys| - 1], head);
      DerivedLastEntry(v, keys, head, name, word);
    }
  }

  lemma SplitLastEntry(v: Value, keys: seq<seq<byte>>, s: seq<byte>)
    returns (head: seq<byte>, name: seq<byte>, word: seq<byte>)
    requires v.Dict? && keys != [] && forall k | k in keys :: k in v.values
    requires DerivesEntries(v, keys, s)
    ensures s == head + name + word && DerivesEntries(v, keys[..|keys| - 1], head)
    ensures DerivesString(keys[|keys| - 1], name) && Derives(v.values[keys[|keys| - 1]], word)
  {
    var i, j :| 0 <= i <= j <= |s| && DerivesEntries(v, keys[..|keys| - 1], s[..i])
      && DerivesString(keys[|keys| - 1], s[i..j]) && Derives(v.values[keys[|keys| - 1]], s[j..]);
    head, name, word := s[..i], s[i..j], s[j..];
    SplitThree(s, i, j);
  }

  lemma SplitThree(s: seq<byte>, i: nat, j: nat)
    requires i <= j <= |s|
    ensures s == s[..i] + s[i..j] + s[j..]
  {
  }

  lemma {:induction false} DerivedLastEntry(v: Value, keys: seq<seq<byte>>, head: seq<byte>, name: seq<byte>, word: seq<byte>)
    requires v.Dict? && keys != [] && forall k | k in keys :: k in v.values
    requires head == TextEntries(CanonEntries(v, keys[..|keys| - 1]))
    requires DerivesString(keys[|keys| - 1], name) && Derives(v.values[keys[|keys| - 1]], word)
    ensures head + name + word == TextEntries(CanonEntries(v, keys))
    decreases v, 0, 0
  {
    StringDerived(keys[|keys| - 1], name);
    DerivedIsEncoded(v.values[keys[|keys| - 1]], word);
    TextOfLastEntry(v, keys);
  }

  lemma TextOfLastEntry(v: Value, keys: seq<seq<byte>>)
    requires v.Dict? && keys != [] && forall k | k in keys :: k in v.values
    ensures var init, key := keys[..|keys| - 1], keys[|keys| - 1];
      TextEntries(CanonEntries(v, keys))
      == TextEntries(CanonEntries(v, init)) + StringText(key) + Encode(v.values[key])
  {
    var init, key := keys[..|keys| - 1], keys[|keys| - 1];
    var last := [Entry(key, Canon(v.values[key]))];
    assert CanonEntries(v, keys) == CanonEntries(v, init) + last;
    TextEntriesConcat(CanonEntries(v, init), last);
    assert TextEntries(last) == StringText(key) + Encode(v.values[key]) by {
      assert last[1..] == [];
    }
    assert TextEntries(CanonEntries(v, init)) + (StringText(key) + Encode(v.values[key]))
        == TextEntries(CanonEntries(v, init)) + StringText(key) + Encode(v.values[key]);
  }

  lemma {:induction false} EncodedIsDerived(v: Value)
    ensures Derives(v, Encode(v))
    decreases v, 1, 0
  {
    var s := Encode(v);
    match v {
      case Integer(n) =>
        PrintIntIsMinimal(n);
        assert s[1..|s| - 1] == PrintInt(n);
      case Str(x) => StringDerived(x, s);
      case List(items) =>
        EncodedItems(items);
        assert s[1..|s| - 1] == TextItems(CanonItems(items));
      case Dict(values) => EncodedDict(v);
    }
  }

  lemma {:induction false} EncodedDict(v: Value)
    requires v.Dict?
    ensures Derives(v, Encode(v))
    decreases v, 0, |SortedKeys(v.values.Keys)| + 1
  {
    var s, keys := Encode(v), SortedKeys(v.values.Keys);
    EncodedEntries(v, keys);
    assert s[1..|s| - 1] == TextEntries(CanonEntries(v, keys));
  }

  lemma {:induction false} EncodedItems(items: seq<Value>)
    ensures DerivesItems(items, TextItems(CanonItems(items)))
    decreases items, 0, 0
  {
    if items != [] {
      var first, rest := Encode(items[0]), TextItems(CanonItems(items[1..]));
      EncodedIsDerived(items[0]);
      EncodedItems(items[1..]);
      assert CanonItems(items)[1..] == CanonItems(items[1..]);
      assert (first + rest)[..|first|] == first && (first + rest)[|first|..] == rest;
    }
  }

  lemma {:induction false} EncodedEntries(v: Value, keys: seq<seq<byte>>)
    requires v.Dict? && forall k | k in keys :: k in v.values
    ensures DerivesEntries(v, keys, TextEntries(CanonEntries(v, keys)))
    decreases v, 0, |keys|
  {
    if keys != [] {
      var init, key := keys[..|keys| - 1], keys[|keys| - 1];
      var head, name, word := TextEntries(CanonEntries(v, init)), StringText(key), Encode(v.values[key]);
      EncodedEntries(v, init);
      StringDerived(key, name);
      EncodedIsDerived(v.values[key]);
      TextOfLastEntry(v, keys);
      JoinLastEntry(v, keys, head, name, word);
    }
  }

  lemma JoinLastEntry(v: Value, keys: seq<seq<byte>>, head: seq<byte>, name: seq<byte>, word: seq<byte>)
    requires v.Dict? && keys != [] && forall k | k in keys :: k in v.values
    requires DerivesEntries(v, keys[..|keys| - 1], head)
    requires DerivesString(keys[|keys| - 1], name) && Derives(v.values[keys[|keys| - 1]], word)
    ensures DerivesEntries(v, keys, head + name + word)
  {
    var s, i, j := head + name + word, |head|, |head| + |name|;
    assert s[..i] == head && s[i..j] == name && s[j..] == word;
  }
}
