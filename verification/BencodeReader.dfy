/** The parser object, and what the run of the parser promises. */
module BencodeReader {
  import opened Bytes
  import opened Decimal
  import opened Bencode
  import opened BencodeParser
  import opened BencodeRun

  /** The run of `parse` on a whole text: how it ends, or that it never does. */
  function ParseRun(data: seq<byte>): Outcome<Value> { RunValue(data, 0, Bound(data)) }

  /** Whether the parse ends is decided within the bound: no text needs more nested calls and loop turns. */
  lemma EndsIffWithinBound(data: seq<byte>)
    ensures ParseRun(data).Ended? <==> exists fuel :: RunValue(data, 0, fuel).Ended?
    ensures forall fuel | RunValue(data, 0, fuel).Ended? :: ParseRun(data) == RunValue(data, 0, fuel)
  {
    hide RunValue;
    assert ParseRun(data) == RunValue(data, 0, Bound(data));
    forall fuel | RunValue(data, 0, fuel).Ended? ensures ParseRun(data) == RunValue(data, 0, fuel) {
      EndsWithinBound(data, 0, fuel);
    }
  }

  /** As long as no string wraps the position, the parse ends, and as the straight parse does. */
  lemma EndsWithoutWrap(data: seq<byte>)
    requires Parse(data) != Err(PositionWraps)
    ensures ParseRun(data) == Ended(Parse(data))
  {
    hide RunValue, ParseValue;
    ValueRunsStraight(data, 0, Bound(data));
  }

  // ----- the parser object -----

  class Parser {
    const data: seq<byte>
    var pos: nat

    constructor (data: seq<byte>)
      ensures this.data == data && pos == 0
    {
      this.data := data;
      pos := 0;
    }

    /** The object has done what the parse `p` says. */
    ghost predicate Follows<T>(r: Result<T, ParseError>, p: Parsed<T>)
      reads this
    {
      match p
      case Ok(value, next) => r == Success(value) && pos == next
      case Err(error) => r == Failure(error)
    }

    method ReadValue(ghost fuel: nat) returns (r: Result<Value, ParseError>)
      requires RunValue(data, pos, fuel).Ended?
      modifies this`pos
      ensures Follows(r, RunValue(data, old(pos), fuel).result)
      decreases fuel, 0
    {
      hide RunItems, RunEntries, RunString, ParseInteger;
      if pos >= |data| {
        return Failure(UnexpectedEnd);
      }
      var c := data[pos];
      if c == INT_MARK {
        r := ReadInteger();
      } else if c == LIST_MARK {
        r := ReadList(fuel - 1);
      } else if c == DICT_MARK {
        r := ReadDict(fuel - 1);
      } else if IsDigit(c) {
        var s :- ReadString();
        r := Success(Str(s));
      } else {
        r := Failure(InvalidData);
      }
    }

    method ReadInteger() returns (r: Result<Value, ParseError>)
      requires pos < |data| && data[pos] == INT_MARK
      modifies this`pos
      ensures Follows(r, ParseInteger(data, old(pos)))
    {
      pos := pos + 1;
      var end := Find(data, pos, END_MARK);
      if end == |data| {
        return Failure(UnterminatedInteger);
      }
      var text := data[pos..end];
      pos := end + 1;
      if |text| > 1 && text[0] == ZERO {
        return Failure(LeadingZero);
      }
      if |text| > 1 && text[0] == MINUS && text[1] == ZERO {
        return Failure(NegativeZero);
      }
      match Stoll(text)
      case Success(n) => r := Success(Integer(n));
      case Failure(cause) => r := Failure(BadNumber(cause));
    }

    method ReadString() returns (r: Result<seq<byte>, ParseError>)
      requires pos < |data|
      modifies this`pos
      ensures Follows(r, RunString(data, old(pos)))
    {
      var colon := Find(data, pos, COLON);
      if colon == |data| {
        return Failure(UnterminatedStringLength);
      }
      var number := Stoul(data[pos..colon]);
      if number.Failure? {
        return Failure(BadNumber(number.error));
      }
      var length := number.value;
      pos := colon + 1;
      if (pos + length) % TWO_64 > |data| {
        return Failure(StringTooLong);
      }
      r := Success(Substr(data, pos, length));
      pos := (pos + length) % TWO_64;
    }

    method ReadList(ghost fuel: nat) returns (r: Result<Value, ParseError>)
      requires pos < |data| && data[pos] == LIST_MARK && RunItems(data, pos + 1, [], fuel).Ended?
      modifies this`pos
      ensures Follows(r, RunItems(data, old(pos) + 1, [], fuel).result)
      decreases fuel, 1
    {
      hide RunValue, RunEntries, RunString;
      pos := pos + 1;
      var items := [];
      ghost var left, whole := fuel, RunItems(data, pos, [], fuel);
      while pos < |data| && data[pos] != END_MARK
        invariant 0 <= left <= fuel && RunItems(data, pos, items, left) == whole
        decreases left
      {
        var value :- ReadValue(left - 1);
        items := items + [value];
        left := left - 1;
      }
      if pos >= |data| {
        return Failure(UnterminatedList);
      }
      pos := pos + 1;
      r := Success(List(items));
    }

    method ReadDict(ghost fuel: nat) returns (r: Result<Value, ParseError>)
      requires pos < |data| && data[pos] == DICT_MARK && RunEntries(data, pos + 1, map[], fuel).Ended?
      modifies this`pos
      ensures Follows(r, RunEntries(data, old(pos) + 1, map[], fuel).result)
      decreases fuel, 1
    {
      hide RunValue, RunItems, RunString;
      pos := pos + 1;
      var values := map[];
      ghost var left, whole := fuel, RunEntries(data, pos, map[], fuel);
      while pos < |data| && data[pos] != END_MARK
        invariant 0 <= left <= fuel && RunEntries(data, pos, values, left) == whole
        decreases left
      {
        ghost var start := pos;
        var key :- ReadString();
        EntryTurn(data, start, values, left, key, pos, RunValue(data, pos, left - 1));
        var value :- ReadValue(left - 1);
        values := values[key := value];
        left := left - 1;
      }
      if pos >= |data| {
        return Failure(UnterminatedDict);
      }
      pos := pos + 1;
      r := Success(Dict(values));
    }
  }

  /** `parse(data, consumed)`: a value and the number of bytes it took, or the error thrown. */
  method ParsePrefix(data: seq<byte>) returns (r: Result<Value, ParseError>, consumed: nat)
    requires ParseRun(data).Ended?
    ensures match ParseRun(data).result
      case Ok(value, next) => r == Success(value) && consumed == next
      case Err(error) => r == Failure(error)
  {
    var parser := new Parser(data);
    r := parser.ReadValue(Bound(data));
    consumed := parser.pos;
  }

  // ----- round trips -----

  /** `parse` of `encode`, with anything after the encoding: every value comes back, with the length of its encoding. */
  lemma RunRoundTrip(v: Value, rest: seq<byte>)
    requires Valid(v) && |Encode(v)| < TWO_63
    ensures ParseRun(Encode(v) + rest) == Ended(Ok(v, |Encode(v)|))
  {
    RoundTrip(v, rest);
    EndsWithoutWrap(Encode(v) + rest);
  }

  /** A word of the strict grammar is parsed to its value and re-encoded to itself. */
  lemma StrictWordsAreFixed(v: Value, s: seq<byte>)
    requires Valid(v) && |s| < TWO_63 && Derives(v, s)
    ensures ParseRun(s) == Ended(Ok(v, |s|)) && Encode(v) == s
  {
    GrammarIsEncode(v, s);
    assert s + [] == s;
    RunRoundTrip(v, []);
  }

  /**
   * Whatever value is accepted, on a text with wraps or without, its encoding is the word of the grammar and parses
   * to the same value. Without a wrap, the encoding is no longer than the bytes consumed.
   */
  lemma ReencodingIsCanonical(s: seq<byte>, v: Value, consumed: nat)
    requires |s| < TWO_63 && ParseRun(s) == Ended(Ok(v, consumed))
    ensures Valid(v) && Derives(v, Encode(v))
    ensures |Encode(v)| < TWO_63 ==> ParseRun(Encode(v)) == Ended(Ok(v, |Encode(v)|))
    ensures Parse(s) != Err(PositionWraps) ==> |Encode(v)| <= consumed <= |s|
  {
    RunIsValid(s, 0, Bound(s));
    EncodedIsDerived(v);
    if |Encode(v)| < TWO_63 {
      assert Encode(v) + [] == Encode(v);
      RunRoundTrip(v, []);
    }
    if Parse(s) != Err(PositionWraps) {
      EndsWithoutWrap(s);
      StraightReencoding(s);
    }
  }

  lemma {:induction false} RunIsValid(data: seq<byte>, pos: nat, fuel: nat)
    requires RunValue(data, pos, fuel).Ended? && RunValue(data, pos, fuel).result.Ok?
    ensures Valid(RunValue(data, pos, fuel).result.value)
    decreases fuel
  {
    hide RunItems, RunEntries, RunString;
    if data[pos] == LIST_MARK {
      ItemsAreValid(data, pos + 1, [], fuel - 1);
    } else if data[pos] == DICT_MARK {
      EntriesAreValid(data, pos + 1, map[], fuel - 1);
    }
  }

  lemma {:induction false} ItemsAreValid(data: seq<byte>, pos: nat, items: seq<Value>, fuel: nat)
    requires (forall x | x in items :: Valid(x)) && RunItems(data, pos, items, fuel).Ended?
    requires RunItems(data, pos, items, fuel).result.Ok?
    ensures Valid(RunItems(data, pos, items, fuel).result.value)
    decreases fuel
  {
    hide RunValue, RunEntries, RunString;
    if data[pos] != END_MARK {
      RunIsValid(data, pos, fuel - 1);
      var first := RunValue(data, pos, fuel - 1).result;
      ItemsAreValid(data, first.next, items + [first.value], fuel - 1);
    }
  }

  lemma {:induction false} EntriesAreValid(data: seq<byte>, pos: nat, values: map<seq<byte>, Value>, fuel: nat)
    requires (forall k | k in values :: Valid(values[k])) && RunEntries(data, pos, values, fuel).Ended?
    requires RunEntries(data, pos, values, fuel).result.Ok?
    ensures Valid(RunEntries(data, pos, values, fuel).result.value)
    decreases fuel
  {
    hide RunValue, RunItems, RunString;
    if data[pos] != END_MARK {
      var key := RunString(data, pos);
      var first := RunValue(data, key.next, fuel - 1);
      EntryTurn(data, pos, values, fuel, key.value, key.next, first);
      RunIsValid(data, key.next, fuel - 1);
      EntriesAreValid(data, first.result.next, values[key.value := first.result.value], fuel - 1);
    }
  }
}
