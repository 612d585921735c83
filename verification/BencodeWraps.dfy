/** Texts on which the position of the parser moves back. */
module BencodeWraps {
  import opened Bytes
  import opened Decimal
  import opened Bencode
  import opened BencodeParser
  import opened BencodeRun
  import opened BencodeReader

  /** A negative length is accepted, and counts from the end of 64 bits. */
  lemma NegativeLength(d: nat)
    requires 1 <= d <= 9
    ensures Stoul([MINUS, ZERO + d]) == Success(TWO_64 - d)
  {
    var digit: seq<byte> := [ZERO + d];
    RecogniseDigits(digit);
    assert [MINUS] + digit == [MINUS, ZERO + d];
    assert digit[..0] == [] && NatOf(digit) == 10 * NatOf(digit[..0]) + d;
  }

  lemma SmallNumber(d: nat)
    requires d <= 9
    ensures Stoul([ZERO + d]) == Success(d) && Stoll([ZERO + d]) == Success(d)
  {
    var digit: seq<byte> := [ZERO + d];
    RecogniseDigits(digit);
    assert digit[..0] == [] && NatOf(digit) == 10 * NatOf(digit[..0]) + d;
  }

  /** A key "-d" moves the position to the byte `d - 2` before the minus sign; what is read is the rest of the text. */
  lemma NegativeKey(data: seq<byte>, pos: nat, d: nat)
    requires 1 <= d <= 9 && d <= pos + 3 && pos + 3 <= |data| < TWO_63
    requires data[pos] == MINUS && data[pos + 1] == ZERO + d && data[pos + 2] == COLON
    ensures RunString(data, pos) == Ok(data[pos + 3..], pos + 3 - d)
  {
    assert Find(data, pos, COLON) == pos + 2 by {
      assert data[pos] != COLON && data[pos + 1] != COLON;
      assert Find(data, pos, COLON) <= pos + 2;
    }
    assert data[pos..pos + 2] == [MINUS, ZERO + d];
    NegativeLength(d);
  }

  lemma ShortString(data: seq<byte>, pos: nat, d: nat)
    requires d <= 9 && pos + 2 + d <= |data| < TWO_63 && data[pos] == ZERO + d && data[pos + 1] == COLON
    ensures RunString(data, pos) == Ok(data[pos + 2..pos + 2 + d], pos + 2 + d)
  {
    assert Find(data, pos, COLON) == pos + 1 by {
      assert data[pos] != COLON;
      assert Find(data, pos, COLON) <= pos + 1;
    }
    assert data[pos..pos + 1] == [ZERO + d];
    SmallNumber(d);
  }

  lemma ShortInteger(data: seq<byte>, pos: nat, d: nat)
    requires d <= 9 && pos + 3 <= |data| && data[pos] == INT_MARK && data[pos + 1] == ZERO + d && data[pos + 2] == END_MARK
    ensures ParseInteger(data, pos) == Ok(Integer(d), pos + 3)
  {
    assert Find(data, pos + 1, END_MARK) == pos + 2 by {
      assert data[pos + 1] != END_MARK;
      assert Find(data, pos + 1, END_MARK) <= pos + 2;
    }
    assert data[pos + 1..pos + 2] == [ZERO + d];
    SmallNumber(d);
  }

  // ----- a parse that never ends -----

  /** The ten bytes `d1:ai1e-6:`. */
  predicate IsLoop(data: seq<byte>) {
    data == [DICT_MARK, ZERO + 1, COLON, 97, INT_MARK, ZERO + 1, END_MARK, MINUS, ZERO + 6, COLON]
  }

  /** At the second key, one turn of the loop comes back to the same position. */
  lemma ComesBack(data: seq<byte>, values: map<seq<byte>, Value>, fuel: nat)
    requires IsLoop(data)
    ensures RunString(data, 7) == Ok([], 4)
    ensures RunValue(data, 4, fuel + 1) == Ended(Ok(Integer(1), 7))
    ensures RunEntries(data, 7, values, fuel + 2) == RunEntries(data, 7, values[[] := Integer(1)], fuel + 1)
  {
    hide RunString, ParseInteger, RunEntries, RunItems;
    NegativeKey(data, 7, 6);
    assert data[10..] == [];
    ShortInteger(data, 4, 1);
    assert RunValue(data, 4, fuel + 1) == Ended(Ok(Integer(1), 7));
    EntryTurn(data, 7, values, fuel + 2, [], 4, Ended(Ok(Integer(1), 7)));
  }

  lemma {:induction false} LoopsForever(data: seq<byte>, values: map<seq<byte>, Value>, fuel: nat)
    requires IsLoop(data)
    ensures RunEntries(data, 7, values, fuel) == Running
    decreases fuel
  {
    hide RunString, RunItems;
    if fuel == 1 {
      NegativeKey(data, 7, 6);
    } else if fuel > 1 {
      ComesBack(data, values, fuel - 2);
      LoopsForever(data, values[[] := Integer(1)], fuel - 1);
    }
  }

  /** So the parse of these ten bytes never ends. */
  lemma NeverEnds(data: seq<byte>, fuel: nat)
    requires IsLoop(data)
    ensures RunValue(data, 0, fuel) == Running && ParseRun(data) == Running
  {
    FirstEntryThenLoop(data, fuel);
    FirstEntryThenLoop(data, Bound(data));
  }

  lemma FirstEntryThenLoop(data: seq<byte>, fuel: nat)
    requires IsLoop(data)
    ensures RunValue(data, 0, fuel) == Running
  {
    hide RunString, RunItems, ParseInteger;
    ShortString(data, 1, 1);
    if fuel > 2 {
      ComesBack(data, map[], fuel - 3);
      EntryTurn(data, 1, map[], fuel - 1, data[3..4], 4, Ended(Ok(Integer(1), 7)));
      LoopsForever(data, map[data[3..4] := Integer(1)], fuel - 2);
    }
  }

  // ----- a text whose encoding is longer -----

  /** The seven bytes `d-2:abe`. */
  predicate IsReread(data: seq<byte>) { data == [DICT_MARK, MINUS, ZERO + 2, COLON, 97, 98, END_MARK] }

  /** The key "abe" and the value "ab" are read from the same bytes, and their encoding has eleven. */
  lemma RereadGrows(data: seq<byte>)
    requires IsReread(data)
    ensures ParseRun(data) == Ended(Ok(Dict(map[[97, 98, END_MARK] := Str([97, 98])]), 7))
    ensures |Encode(Dict(map[[97, 98, END_MARK] := Str([97, 98])]))| == 11
  {
    hide RunString, RunItems, ParseInteger, Encode;
    var key: seq<byte>, value := [97, 98, END_MARK], Str([97, 98]);
    NegativeKey(data, 1, 2);
    ShortString(data, 2, 2);
    assert data[4..] == key && data[4..6] == [97, 98];
    assert RunValue(data, 2, 22) == Ended(Ok(value, 6));
    EntryTurn(data, 1, map[], 23, key, 2, Ended(Ok(value, 6)));
    assert map[][key := value] == map[key := value];
    assert RunEntries(data, 6, map[key := value], 22) == Ended(Ok(Dict(map[key := value]), 7));
    RereadLength(key, value);
  }

  lemma RereadLength(key: seq<byte>, value: Value)
    requires |key| == 3 && value.Str? && |value.s| == 2
    ensures |Encode(Dict(map[key := value]))| == 11
  {
    var values := map[key := value];
    assert values.Keys == {key};
    DictTextSize(values);
    IncreasingUnique(SortedKeys(values.Keys), [key]);
    assert |StringText(key)| == 5 && Canon(value) == StrTree(value.s) && |Encode(value)| == 4;
    assert [key][1..] == [] && SumSizes(values, [key]) == EntrySize(values, key) + SumSizes(values, []);
  }
}
