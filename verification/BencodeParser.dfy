/** The straight parse, which never moves back, and the encoder. */
module BencodeParser {
  import opened Bytes
  import opened Decimal
  import opened Bencode

  datatype ParseError =
    | UnexpectedEnd
    | InvalidData
    | UnterminatedInteger
    | LeadingZero
    | NegativeZero
    | BadNumber(cause: NumberError)
    | UnterminatedStringLength
    | StringTooLong
    | UnterminatedList
    | UnterminatedDict
    | PositionWraps  // no error of the program: `pos_ + length` exceeds 64 bits, and the straight parse stops

  datatype Parsed<+T> = Ok(value: T, next: nat) | Err(error: ParseError)

  // ----- the parse of every text up to the first wrap of the position, as a function of the position -----

  function ParseInteger(data: seq<byte>, pos: nat): (r: Parsed<Value>)
    requires pos < |data| && data[pos] == INT_MARK
    ensures r.Ok? ==> pos + 2 <= r.next <= |data| && Valid(r.value)
  {
    var end := Find(data, pos + 1, END_MARK);
    if end == |data| then Err(UnterminatedInteger)
    else
      var text := data[pos + 1..end];
      if |text| > 1 && text[0] == ZERO then Err(LeadingZero)
      else if |text| > 1 && text[0] == MINUS && text[1] == ZERO then Err(NegativeZero)
      else
        match Stoll(text)
        case Success(n) => Ok(Integer(n), end + 1)
        case Failure(cause) => Err(BadNumber(cause))
  }

  function ParseString(data: seq<byte>, pos: nat): (r: Parsed<seq<byte>>)
    requires pos < |data|
    ensures r.Ok? ==> pos + 2 <= r.next <= |data|
  {
    var colon := Find(data, pos, COLON);
    if colon == |data| then Err(UnterminatedStringLength)
    else
      match Stoul(data[pos..colon])
      case Failure(cause) => Err(BadNumber(cause))
      case Success(length) =>
        if colon + 1 + length >= TWO_64 then Err(PositionWraps)
        else if colon + 1 + length > |data| then Err(StringTooLong)
        else Ok(data[colon + 1..colon + 1 + length], colon + 1 + length)
  }

  function ParseValue(data: seq<byte>, pos: nat): (r: Parsed<Value>)
    ensures r.Ok? ==> pos + 2 <= r.next <= |data| && Valid(r.value)
    decreases |data| - pos, 0
  {
    if pos >= |data| then Err(UnexpectedEnd)
    else if data[pos] == INT_MARK then ParseInteger(data, pos)
    else if data[pos] == LIST_MARK then ParseItems(data, pos + 1, [])
    else if data[pos] == DICT_MARK then ParseEntries(data, pos + 1, map[])
    else if IsDigit(data[pos]) then
      match ParseString(data, pos)
      case Ok(s, next) => Ok(Str(s), next)
      case Err(error) => Err(error)
    else Err(InvalidData)
  }

  /** The rest of a list after the items parsed so far. */
  function ParseItems(data: seq<byte>, pos: nat, items: seq<Value>): (r: Parsed<Value>)
    requires forall x | x in items :: Valid(x)
    ensures r.Ok? ==> pos + 1 <= r.next <= |data| && Valid(r.value)
    decreases |data| - pos, 1
  {
    if pos >= |data| then Err(UnterminatedList)
    else if data[pos] == END_MARK then Ok(List(items), pos + 1)
    else
      match ParseValue(data, pos)
      case Ok(value, next) => ParseItems(data, next, items + [value])
      case Err(error) => Err(error)
  }

  /** The rest of a dictionary after the entries parsed so far. */
  function ParseEntries(data: seq<byte>, pos: nat, values: map<seq<byte>, Value>): (r: Parsed<Value>)
    requires forall k | k in values :: Valid(values[k])
    ensures r.Ok? ==> pos + 1 <= r.next <= |data| && Valid(r.value)
    decreases |data| - pos, 1
  {
    if pos >= |data| then Err(UnterminatedDict)
    else if data[pos] == END_MARK then Ok(Dict(values), pos + 1)
    else
      match ParseString(data, pos)
      case Err(error) => Err(error)
      case Ok(key, afterKey) =>
        match ParseValue(data, afterKey)
        case Ok(value, next) => ParseEntries(data, next, values[key := value])
        case Err(error) => Err(error)
  }

  function Parse(data: seq<byte>): (r: Parsed<Value>)
    ensures r.Ok? ==> 2 <= r.next <= |data| && Valid(r.value)
  {
    ParseValue(data, 0)
  }

  // ----- the encoder -----

  /** The keys of a map in increasing order; the program sorts the keys it copied out of the map. */
  method SortKeys(values: map<seq<byte>, Value>) returns (keys: seq<seq<byte>>)
    ensures keys == SortedKeys(values.Keys)
  {
    var rest := values.Keys;
    keys := [];
    while rest != {}
      invariant rest <= values.Keys && StrictlyIncreasing(keys)
      invariant forall k :: k in keys <==> k in values.Keys - rest
      decreases |rest|
    {
      var k :| k in rest;
      InsertKeyIncreasing(k, keys);
      keys := InsertKey(k, keys);
      rest := rest - {k};
    }
    IncreasingUnique(keys, SortedKeys(values.Keys));
  }

  /** `encode`. */
  method WriteValue(v: Value) returns (out: seq<byte>)
    ensures out == Encode(v)
    decreases v, 1
  {
    match v
    case Integer(n) => out := [INT_MARK] + PrintInt(n) + [END_MARK];
    case Str(s) => out := PrintNat(|s|) + [COLON] + s;
    case List(items) => out := WriteList(items);
    case Dict(values) => out := WriteDict(v);
  }

  method WriteList(items: seq<Value>) returns (out: seq<byte>)
    ensures out == Text(ListTree(CanonItems(items)))
    decreases items, 0
  {
    out := [LIST_MARK];
    for i := 0 to |items|
      invariant out == [LIST_MARK] + TextItems(CanonItems(items[..i]))
    {
      var text := WriteValue(items[i]);
      TextOfLastItem(items, i);
      Assoc([LIST_MARK], TextItems(CanonItems(items[..i])), text);
      out := out + text;
    }
    assert items[..|items|] == items;
    out := out + [END_MARK];
  }

  method WriteDict(v: Value) returns (out: seq<byte>)
    requires v.Dict?
    ensures out == Text(Canon(v))
    decreases v, 0
  {
    out := [DICT_MARK];
    var keys := SortKeys(v.values);
    for i := 0 to |keys|
      invariant out == [DICT_MARK] + TextEntries(CanonEntries(v, keys[..i]))
    {
      var key := keys[i];
      var text := WriteValue(v.values[key]);
      assert keys[..i + 1][..i] == keys[..i];
      TextOfLastEntry(v, keys[..i + 1]);
      ghost var before := TextEntries(CanonEntries(v, keys[..i]));
      Assoc([DICT_MARK], before, StringText(key));
      Assoc([DICT_MARK], before + StringText(key), text);
      out := out + StringText(key);
      out := out + text;
    }
    assert keys[..|keys|] == keys;
    out := out + [END_MARK];
  }

  // ----- reading back what was written -----

  lemma ReadsNumeral(data: seq<byte>, pos: nat, digits: seq<byte>, s: seq<byte>)
    requires pos + |digits| + 1 + |s| < TWO_63 && At(data, pos, digits + [COLON] + s)
    requires digits != [] && AllDigits(digits) && Stoul(digits) == Success(|s|)
    ensures ParseString(data, pos) == Ok(s, pos + |digits| + 1 + |s|)
    ensures IsDigit(data[pos])
  {
    AtSplit(data, pos, digits + [COLON], s);
    AtSlice(data, pos + |digits| + 1, s);
    FindAfter(data, pos, digits, COLON);
    AtSplit(data, pos, digits, [COLON]);
    AtHead(data, pos, digits);
    AtSlice(data, pos, digits);
  }

  lemma ReadsString(data: seq<byte>, pos: nat, s: seq<byte>)
    requires pos + |StringText(s)| < TWO_63 && At(data, pos, StringText(s))
    ensures ParseString(data, pos) == Ok(s, pos + |StringText(s)|)
    ensures IsDigit(data[pos])
  {
    PrintNatIsMinimal(|s|);
    StoulReadsPrinted(|s|);
    ReadsNumeral(data, pos, PrintNat(|s|), s);
  }

  lemma MinimalHasNoMark(text: seq<byte>)
    requires IsMinimalInt(text)
    ensures END_MARK !in text && !(|text| > 1 && text[0] == ZERO) && !(|text| > 1 && text[0] == MINUS && text[1] == ZERO)
  {
    if text[0] == MINUS {
      assert text == [text[0]] + text[1..];
    }
  }

  lemma ReadsIntegerText(data: seq<byte>, pos: nat, text: seq<byte>, n: int)
    requires At(data, pos, [INT_MARK] + text + [END_MARK]) && IsMinimalInt(text) && Stoll(text) == Success(n)
    ensures ParseValue(data, pos) == Ok(Integer(n), pos + |text| + 2)
  {
    hide At, IsMinimalInt, Find, Stoll;
    assert [INT_MARK] + text + [END_MARK] == [INT_MARK] + (text + [END_MARK]);
    AtSplit(data, pos, [INT_MARK], text + [END_MARK]);
    AtSplit(data, pos + 1, text, [END_MARK]);
    AtHead(data, pos, [INT_MARK]);
    AtHead(data, pos + 1 + |text|, [END_MARK]);
    MinimalHasNoMark(text);
    FindAfter(data, pos + 1, text, END_MARK);
    AtSlice(data, pos + 1, text);
  }

  lemma ReadsInteger(data: seq<byte>, pos: nat, n: int)
    requires At(data, pos, Text(IntTree(n))) && -TWO_63 <= n < TWO_63
    ensures ParseValue(data, pos) == Ok(Integer(n), pos + |Text(IntTree(n))|)
  {
    PrintIntIsMinimal(n);
    StollReadsPrinted(n);
    ReadsIntegerText(data, pos, PrintInt(n), n);
  }

  /** The parser reads back every text, whatever stands after it: entries in any order, repeated keys included. */
  lemma {:induction false} ReadsTree(data: seq<byte>, pos: nat, t: Tree)
    requires pos + |Text(t)| < TWO_63 && Representable(t) && At(data, pos, Text(t))
    ensures ParseValue(data, pos) == Ok(Meaning(t), pos + |Text(t)|)
    decreases t, 1, 0
  {
    hide ParseString, ParseItems, ParseEntries, StringText;
    match t {
      case IntTree(n) => ReadsInteger(data, pos, n);
      case StrTree(s) => ReadsString(data, pos, s);
      case ListTree(items) =>
        StartsList(data, pos, TextItems(items));
        ReadsItems(data, pos + 1, items, []);
        assert [] + MeaningItems(items) == MeaningItems(items);
      case DictTree(entries) =>
        StartsDict(data, pos, TextEntries(entries));
        assert entries[..0] == [];
        ReadsEntries(data, pos + 1, entries, 0);
    }
  }

  lemma StartsList(data: seq<byte>, pos: nat, body: seq<byte>)
    requires At(data, pos, [LIST_MARK] + body + [END_MARK])
    ensures ParseValue(data, pos) == ParseItems(data, pos + 1, [])
    ensures At(data, pos + 1, body + [END_MARK])
  {
    Assoc([LIST_MARK], body, [END_MARK]);
    AtSplit(data, pos, [LIST_MARK], body + [END_MARK]);
    AtHead(data, pos, [LIST_MARK]);
  }

  lemma StartsDict(data: seq<byte>, pos: nat, body: seq<byte>)
    requires At(data, pos, [DICT_MARK] + body + [END_MARK])
    ensures ParseValue(data, pos) == ParseEntries(data, pos + 1, map[])
    ensures At(data, pos + 1, body + [END_MARK])
  {
    Assoc([DICT_MARK], body, [END_MARK]);
    AtSplit(data, pos, [DICT_MARK], body + [END_MARK]);
    AtHead(data, pos, [DICT_MARK]);
  }

  lemma TextStart(t: Tree)
    ensures Text(t) != [] && Text(t)[0] != END_MARK
  {
    if t.StrTree? {
      PrintNatIsMinimal(|t.s|);
      assert Text(t)[0] == PrintNat(|t.s|)[0];
    }
  }

  lemma ItemStep(data: seq<byte>, pos: nat, done: seq<Value>, value: Value, next: nat)
    requires pos < |data| && data[pos] != END_MARK && ParseValue(data, pos) == Ok(value, next)
    requires forall x | x in done :: Valid(x)
    ensures ParseItems(data, pos, done) == ParseItems(data, next, done + [value])
  {
  }

  lemma SplitItem(data: seq<byte>, pos: nat, items: seq<Tree>) returns (next: nat)
    requires items != [] && At(data, pos, TextItems(items) + [END_MARK])
    ensures At(data, pos, Text(items[0])) && next == pos + |Text(items[0])|
    ensures pos < |data| && data[pos] != END_MARK
    ensures At(data, next, TextItems(items[1..]) + [END_MARK])
    ensures next + |TextItems(items[1..])| == pos + |TextItems(items)|
  {
    var first := Text(items[0]);
    Assoc(first, TextItems(items[1..]), [END_MARK]);
    AtSplit(data, pos, first, TextItems(items[1..]) + [END_MARK]);
    TextStart(items[0]);
    AtHead(data, pos, first);
    next := pos + |first|;
  }

  lemma {:induction false} ReadsItems(data: seq<byte>, pos: nat, items: seq<Tree>, done: seq<Value>)
    requires pos + |TextItems(items)| + 1 < TWO_63
    requires (forall x | x in items :: Representable(x)) && forall x | x in done :: Valid(x)
    requires At(data, pos, TextItems(items) + [END_MARK])
    ensures ParseItems(data, pos, done) == Ok(List(done + MeaningItems(items)), pos + |TextItems(items)| + 1)
    decreases items, 0, 0
  {
    hide ParseString, ParseValue, ParseEntries, StringText, Text;
    if items == [] {
      assert TextItems(items) + [END_MARK] == [END_MARK];
      AtHead(data, pos, [END_MARK]);
      assert done + MeaningItems(items) == done;
    } else {
      var next := SplitItem(data, pos, items);
      ReadsTree(data, pos, items[0]);
      ItemStep(data, pos, done, Meaning(items[0]), next);
      ReadsItems(data, next, items[1..], done + [Meaning(items[0])]);
      Assoc(done, [Meaning(items[0])], MeaningItems(items[1..]));
    }
  }

  lemma EntryStep(data: seq<byte>, pos: nat, done: map<seq<byte>, Value>, key: seq<byte>, afterKey: nat, value: Value, next: nat)
    requires pos < |data| && data[pos] != END_MARK && ParseString(data, pos) == Ok(key, afterKey)
    requires ParseValue(data, afterKey) == Ok(value, next)
    requires forall k | k in done :: Valid(done[k])
    ensures ParseEntries(data, pos, done) == ParseEntries(data, next, done[key := value])
  {
  }

  lemma SplitEntry(data: seq<byte>, pos: nat, entries: seq<Entry>, i: nat) returns (afterKey: nat, next: nat)
    requires i < |entries| && At(data, pos, TextEntries(entries[i..]) + [END_MARK])
    ensures At(data, pos, StringText(entries[i].key)) && afterKey == pos + |StringText(entries[i].key)|
    ensures At(data, afterKey, Text(entries[i].tree)) && next == afterKey + |Text(entries[i].tree)|
    ensures At(data, next, TextEntries(entries[i + 1..]) + [END_MARK])
    ensures next + |TextEntries(entries[i + 1..])| == pos + |TextEntries(entries[i..])|
  {
    var name, word := StringText(entries[i].key), Text(entries[i].tree);
    assert entries[i..][1..] == entries[i + 1..];
    Assoc(name + word, TextEntries(entries[i + 1..]), [END_MARK]);
    AtSplit(data, pos, name + word, TextEntries(entries[i + 1..]) + [END_MARK]);
    AtSplit(data, pos, name, word);
    afterKey, next := pos + |name|, pos + |name| + |word|;
  }

  lemma {:induction false} ReadsEntries(data: seq<byte>, pos: nat, entries: seq<Entry>, i: nat)
    requires i <= |entries| && pos + |TextEntries(entries[i..])| + 1 < TWO_63
    requires forall e | e in entries :: Representable(e.tree)
    requires At(data, pos, TextEntries(entries[i..]) + [END_MARK])
    requires forall k | k in MeaningEntries(entries[..i]) :: Valid(MeaningEntries(entries[..i])[k])
    ensures ParseEntries(data, pos, MeaningEntries(entries[..i]))
         == Ok(Dict(MeaningEntries(entries)), pos + |TextEntries(entries[i..])| + 1)
    decreases entries, 0, |entries| - i
  {
    hide ParseString, ParseValue, ParseItems, StringText, Text;
    if i == |entries| {
      assert TextEntries(entries[i..]) + [END_MARK] == [END_MARK];
      AtHead(data, pos, [END_MARK]);
      assert entries[..i] == entries;
    } else {
      var e := entries[i];
      var afterKey, next := SplitEntry(data, pos, entries, i);
      ReadsString(data, pos, e.key);
      ReadsTree(data, afterKey, e.tree);
      EntryStep(data, pos, MeaningEntries(entries[..i]), e.key, afterKey, Meaning(e.tree), next);
      MeaningOfLast(entries[..i], e);
      assert entries[..i + 1] == entries[..i] + [e];
      ReadsEntries(data, next, entries, i + 1);
    }
  }

  /** `encode` then `parse`, with anything after the encoding. 2^63 - 1 is the greatest size of a string. */
  lemma RoundTrip(v: Value, rest: seq<byte>)
    requires Valid(v) && |Encode(v)| < TWO_63
    ensures Parse(Encode(v) + rest) == Ok(v, |Encode(v)|)
  {
    CanonMeans(v);
    CanonRepresentable(v);
    ReadsTree(Encode(v) + rest, 0, Canon(v));
  }

  /** Encodings are injective, and none is a proper prefix of another. */
  lemma UniqueDecoding(v: Value, s: seq<byte>, w: Value, t: seq<byte>)
    requires Valid(v) && Valid(w) && |Encode(v)| < TWO_63 && |Encode(w)| < TWO_63
    requires Encode(v) + s == Encode(w) + t
    ensures v == w && s == t
  {
    RoundTrip(v, s);
    RoundTrip(w, t);
    assert s == (Encode(v) + s)[|Encode(v)|..];
  }

  // ----- re-encoding what was accepted -----

  ghost function EntrySize(values: map<seq<byte>, Value>, k: seq<byte>): nat
    requires k in values
  {
    |StringText(k)| + |Encode(values[k])|
  }

  ghost function SumSizes(values: map<seq<byte>, Value>, keys: seq<seq<byte>>): nat
    requires forall k | k in keys :: k in values
  {
    if keys == [] then 0 else EntrySize(values, keys[0]) + SumSizes(values, keys[1..])
  }

  lemma {:induction false} SumSnoc(values: map<seq<byte>, Value>, keys: seq<seq<byte>>, k: seq<byte>)
    requires k in values && forall x | x in keys :: x in values
    ensures SumSizes(values, keys + [k]) == SumSizes(values, keys) + EntrySize(values, k)
  {
    if keys == [] {
      assert [k][1..] == [];
    } else {
      assert (keys + [k])[1..] == keys[1..] + [k];
      SumSnoc(values, keys[1..], k);
    }
  }

  lemma {:induction false} SumInsert(values: map<seq<byte>, Value>, keys: seq<seq<byte>>, k: seq<byte>)
    requires k in values && forall x | x in keys :: x in values
    ensures forall x | x in InsertKey(k, keys) :: x in values
    ensures SumSizes(values, InsertKey(k, keys)) == SumSizes(values, keys) + EntrySize(values, k)
  {
    if keys == [] || LexLess(k, keys[0]) {
      assert ([k] + keys)[1..] == keys;
    } else {
      SumInsert(values, keys[1..], k);
      assert ([keys[0]] + InsertKey(k, keys[1..]))[1..] == InsertKey(k, keys[1..]);
    }
  }

  lemma SumAgrees(values: map<seq<byte>, Value>, other: map<seq<byte>, Value>, keys: seq<seq<byte>>)
    requires forall k | k in keys :: k in values && k in other && values[k] == other[k]
    ensures SumSizes(values, keys) == SumSizes(other, keys)
  {
  }

  lemma {:induction false} DictSize(v: Value, keys: seq<seq<byte>>)
    requires v.Dict? && forall k | k in keys :: k in v.values
    ensures |TextEntries(CanonEntries(v, keys))| == SumSizes(v.values, keys)
  {
    if keys != [] {
      var init, k := keys[..|keys| - 1], keys[|keys| - 1];
      DictSize(v, init);
      TextOfLastEntry(v, keys);
      SumSnoc(v.values, init, k);
      assert init + [k] == keys;
    }
  }

  ghost function BodySize(values: map<seq<byte>, Value>): nat { SumSizes(values, SortedKeys(values.Keys)) }

  lemma DictTextSize(values: map<seq<byte>, Value>)
    ensures |Encode(Dict(values))| == BodySize(values) + 2
  {
    DictSize(Dict(values), SortedKeys(values.Keys));
  }

  /** Setting one key adds at most the size of its entry. */
  lemma BodyGrowth(values: map<seq<byte>, Value>, k: seq<byte>, x: Value)
    ensures BodySize(values[k := x]) <= BodySize(values) + |StringText(k)| + |Encode(x)|
  {
    var updated, others := values[k := x], SortedKeys(values.Keys - {k});
    InsertKeyIncreasing(k, others);
    IncreasingUnique(InsertKey(k, others), SortedKeys(updated.Keys));
    SumInsert(updated, others, k);
    SumAgrees(values, updated, others);
    if k in values {
      IncreasingUnique(InsertKey(k, others), SortedKeys(values.Keys));
      SumInsert(values, others, k);
    } else {
      assert values.Keys - {k} == values.Keys;
    }
  }

  lemma {:induction false} ValueShrinks(data: seq<byte>, pos: nat)
    requires |data| < TWO_63 && ParseValue(data, pos).Ok?
    ensures |Encode(ParseValue(data, pos).value)| <= ParseValue(data, pos).next - pos
    decreases |data| - pos, 0
  {
    var r := ParseValue(data, pos);
    if data[pos] == INT_MARK {
      StollShortest(data[pos + 1..Find(data, pos + 1, END_MARK)]);
    } else if data[pos] == LIST_MARK {
      ItemsShrink(data, pos + 1, []);
    } else if data[pos] == DICT_MARK {
      EntriesShrink(data, pos + 1, map[]);
    } else {
      StringShrinks(data, pos);
    }
  }

  lemma StringShrinks(data: seq<byte>, pos: nat)
    requires |data| < TWO_63 && pos < |data| && ParseString(data, pos).Ok?
    ensures |StringText(ParseString(data, pos).value)| <= ParseString(data, pos).next - pos
  {
    StoulShortest(data[pos..Find(data, pos, COLON)]);
  }

  lemma {:induction false} ItemsShrink(data: seq<byte>, pos: nat, done: seq<Value>)
    requires |data| < TWO_63 && (forall x | x in done :: Valid(x)) && ParseItems(data, pos, done).Ok?
    ensures |Encode(ParseItems(data, pos, done).value)|
         <= 1 + |TextItems(CanonItems(done))| + ParseItems(data, pos, done).next - pos
    decreases |data| - pos, 1
  {
    if data[pos] != END_MARK {
      var first := ParseValue(data, pos);
      var more := done + [first.value];
      ValueShrinks(data, pos);
      ItemsShrink(data, first.next, more);
      TextOfLastItem(more, |done|);
      assert more[..|done| + 1] == more && more[..|done|] == done;
    }
  }

  lemma {:induction false} EntriesShrink(data: seq<byte>, pos: nat, done: map<seq<byte>, Value>)
    requires |data| < TWO_63 && (forall k | k in done :: Valid(done[k])) && ParseEntries(data, pos, done).Ok?
    ensures |Encode(ParseEntries(data, pos, done).value)| <= 1 + BodySize(done) + ParseEntries(data, pos, done).next - pos
    decreases |data| - pos, 1
  {
    if data[pos] == END_MARK {
      DictTextSize(done);
    } else {
      var key := ParseString(data, pos);
      var value := ParseValue(data, key.next);
      EntryStep(data, pos, done, key.value, key.next, value.value, value.next);
      StringShrinks(data, pos);
      ValueShrinks(data, key.next);
      BodyGrowth(done, key.value, value.value);
      EntriesShrink(data, value.next, done[key.value := value.value]);
    }
  }

  /** What the straight parse accepts is re-encoded as the word of the grammar for the same value, no longer than the text read. */
  lemma StraightReencoding(s: seq<byte>)
    requires |s| < TWO_63 && Parse(s).Ok?
    ensures var v := Parse(s).value;
      Derives(v, Encode(v)) && Parse(Encode(v)) == Ok(v, |Encode(v)|) && |Encode(v)| <= Parse(s).next
  {
    var v := Parse(s).value;
    EncodedIsDerived(v);
    ValueShrinks(s, 0);
    assert Encode(v) + [] == Encode(v);
    RoundTrip(v, []);
  }
}
