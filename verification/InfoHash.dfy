/** The info hash, and the bytes of the torrent text that it is meant to be the hash of. */
module InfoHash {
  import opened Bytes
  import opened Decimal
  import opened Bencode
  import opened BencodeParser
  import opened BencodeRun
  import opened BencodeReader
  import opened Metadata
  import Sha1

  datatype Span = Span(start: nat, end: nat)

  /** From where to where the loop over the entries of a dictionary reads its last value of a key. */
  function LastSpan(data: seq<byte>, pos: nat, key: seq<byte>, fuel: nat): Option<Span>
    decreases fuel
  {
    if fuel == 0 || pos >= |data| || data[pos] == END_MARK then None
    else
      match RunString(data, pos)
      case Err(_) => None
      case Ok(k, afterKey) =>
        match RunValue(data, afterKey, fuel - 1)
        case Ended(Ok(_, next)) =>
          var later := LastSpan(data, next, key, fuel - 1);
          if later.Some? then later else if k == key then Some(Span(afterKey, next)) else None
        case _ => None
  }

  /** The value was read from there. */
  ghost predicate IsReadAt(data: seq<byte>, span: Span, v: Value) {
    span.start <= |data| && span.end <= |data| && exists fuel :: RunValue(data, span.start, fuel) == Ended(Ok(v, span.end))
  }

  lemma {:induction false} LastSpanIsRead(data: seq<byte>, pos: nat, values: map<seq<byte>, Value>, key: seq<byte>, fuel: nat,
                                          all: map<seq<byte>, Value>, next: nat)
    requires RunEntries(data, pos, values, fuel) == Ended(Ok(Dict(all), next))
    ensures var span := LastSpan(data, pos, key, fuel);
      && (span.Some? ==> key in all && IsReadAt(data, span.value, all[key]))
      && (span.None? ==> (key in all <==> key in values) && (key in all ==> all[key] == values[key]))
    decreases fuel
  {
    hide RunString, RunValue, RunItems;
    if pos < |data| && data[pos] != END_MARK {
      var name := RunString(data, pos);
      var first := RunValue(data, name.next, fuel - 1);
      EntryTurn(data, pos, values, fuel, name.value, name.next, first);
      LastSpanIsRead(data, first.result.next, values[name.value := first.result.value], key, fuel - 1, all, next);
      if LastSpan(data, first.result.next, key, fuel - 1).None? && name.value == key {
        assert IsReadAt(data, Span(name.next, first.result.next), all[key]);
      }
    }
  }

  /** Where the value of a key of the whole text was read. */
  function KeySpan(data: seq<byte>, key: seq<byte>): Option<Span> { LastSpan(data, 1, key, Bound(data) - 1) }

  /** Without a wrap, every value takes at least two bytes. */
  lemma {:induction false} SpanGoesOn(data: seq<byte>, pos: nat, values: map<seq<byte>, Value>, key: seq<byte>, fuel: nat)
    requires (forall k | k in values :: Valid(values[k])) && ParseEntries(data, pos, values).Ok?
    requires fuel >= Rest(data, pos) + 2
    ensures var span := LastSpan(data, pos, key, fuel); span.Some? ==> span.value.start + 2 <= span.value.end <= |data|
    decreases fuel
  {
    hide RunString, RunValue, ParseString, ParseValue, ParseItems;
    if pos < |data| && data[pos] != END_MARK {
      StringRunsStraight(data, pos);
      var name := ParseString(data, pos);
      ValueRunsStraight(data, name.next, fuel - 1);
      var first := ParseValue(data, name.next);
      EntryStep(data, pos, values, name.value, name.next, first.value, first.next);
      SpanGoesOn(data, first.next, values[name.value := first.value], key, fuel - 1);
    }
  }

  /**
   * For every accepted torrent text: the hashed bytes, the re-encoding of the info dictionary, are the bytes from which
   * it was read if and only if these are strict. Without a wrap they are a proper stretch of the text.
   */
  lemma InfoHashOfOriginalBytes(data: seq<byte>, dict: map<seq<byte>, Value>, consumed: nat)
    requires ParseRun(data) == Ended(Ok(Dict(dict), consumed)) && KEY_INFO in dict
    ensures KeySpan(data, KEY_INFO).Some?
    ensures var span := KeySpan(data, KEY_INFO).value; var info := dict[KEY_INFO];
      && IsReadAt(data, span, info)
      && (Parse(data) != Err(PositionWraps) ==> span.start + 2 <= span.end)
      && (span.start <= span.end ==>
            (Encode(info) == data[span.start..span.end] <==> Derives(info, data[span.start..span.end]))
            && (Derives(info, data[span.start..span.end]) ==>
                  Sha1.Hash(Encode(info)) == Sha1.Hash(data[span.start..span.end])))
  {
    hide RunEntries, ParseEntries, Encode, Derives;
    TopIsDictionary(data, dict, consumed);
    LastSpanIsRead(data, 1, map[], KEY_INFO, Bound(data) - 1, dict, consumed);
    var span := KeySpan(data, KEY_INFO).value;
    if span.start <= span.end {
      GrammarIsEncode(dict[KEY_INFO], data[span.start..span.end]);
    }
    if Parse(data) != Err(PositionWraps) {
      EndsWithoutWrap(data);
      StraightTop(data);
      SpanGoesOn(data, 1, map[], KEY_INFO, Bound(data) - 1);
    }
  }

  lemma TopIsDictionary(data: seq<byte>, dict: map<seq<byte>, Value>, consumed: nat)
    requires ParseRun(data) == Ended(Ok(Dict(dict), consumed))
    ensures data != [] && data[0] == DICT_MARK
    ensures RunEntries(data, 1, map[], Bound(data) - 1) == Ended(Ok(Dict(dict), consumed))
  {
    hide RunString, RunEntries;
    ItemsMakeAList(data, 1, [], Bound(data) - 1);
  }

  lemma {:induction false} ItemsMakeAList(data: seq<byte>, pos: nat, items: seq<Value>, fuel: nat)
    ensures var r := RunItems(data, pos, items, fuel); r.Ended? && r.result.Ok? ==> r.result.value.List?
    decreases fuel
  {
    hide RunValue;
    if fuel > 0 && pos < |data| && data[pos] != END_MARK {
      var first := RunValue(data, pos, fuel - 1);
      if first.Ended? && first.result.Ok? {
        ItemsMakeAList(data, first.result.next, items + [first.result.value], fuel - 1);
      }
    }
  }

  lemma StraightTop(data: seq<byte>)
    requires data != [] && data[0] == DICT_MARK
    ensures Parse(data) == ParseEntries(data, 1, map[])
  {
  }

  // ----- a torrent that is not strict -----

  /** Its info dictionary has the keys "name", "length", "piece length" and "pieces", in this order. */
  function UnsortedInfo(): Tree {
    DictTree([
      Entry(KEY_NAME, StrTree([])), Entry(KEY_LENGTH, IntTree(1)), Entry(KEY_PIECE_LENGTH, IntTree(1)),
      Entry(KEY_PIECES, StrTree([]))])
  }

  function UnsortedTorrent(): Tree { DictTree([Entry(KEY_ANNOUNCE, StrTree([])), Entry(KEY_INFO, UnsortedInfo())]) }

  lemma InfoKeysDiffer()
    ensures KEY_NAME[0] == 110 && KEY_LENGTH[0] == 108 && KEY_PIECE_LENGTH[0] == 112 && KEY_PIECES[0] == 112
    ensures |KEY_NAME| == 4 && |KEY_LENGTH| == 6 && |KEY_PIECE_LENGTH| == 12 && |KEY_PIECES| == 6
    ensures |KEY_ANNOUNCE| == 8 && |KEY_INFO| == 4
  {
  }

  lemma MeaningOfUnsortedInfo(info: map<seq<byte>, Value>)
    requires Meaning(UnsortedInfo()) == Dict(info)
    ensures info.Keys == {KEY_NAME, KEY_LENGTH, KEY_PIECE_LENGTH, KEY_PIECES}
    ensures info[KEY_NAME] == Str([]) && info[KEY_LENGTH] == Integer(1)
    ensures info[KEY_PIECE_LENGTH] == Integer(1) && info[KEY_PIECES] == Str([])
  {
    var e := UnsortedInfo().entries;
    InfoKeysDiffer();
    MeaningOfLast(e[..3], e[3]);
    MeaningOfLast(e[..2], e[2]);
    MeaningOfLast(e[..1], e[1]);
    MeaningOfLast([], e[0]);
    assert e[..3] + [e[3]] == e && e[..2] + [e[2]] == e[..3] && e[..1] + [e[1]] == e[..2] && [] + [e[0]] == e[..1];
  }

  lemma LengthIsLeast(key: seq<byte>)
    requires key in {KEY_NAME, KEY_LENGTH, KEY_PIECE_LENGTH, KEY_PIECES}
    ensures !LexLess(key, KEY_LENGTH)
  {
    InfoKeysDiffer();
    LexTotal(key, KEY_LENGTH);
  }

  /** The encoding of the dictionary begins with the text of its least key. */
  lemma EncodingBegins(info: map<seq<byte>, Value>)
    requires info.Keys == {KEY_NAME, KEY_LENGTH, KEY_PIECE_LENGTH, KEY_PIECES}
    ensures |Encode(Dict(info))| > 1 && Encode(Dict(info))[1] == StringText(KEY_LENGTH)[0]
  {
    hide LexLess;
    InfoKeysDiffer();
    var keys := SortedKeys(info.Keys);
    assert KEY_LENGTH in keys;
    var j :| 0 <= j < |keys| && keys[j] == KEY_LENGTH;
    assert keys[0] in info.Keys;
    assert forall i | 0 < i < |keys| :: LexLess(keys[0], keys[i]);
    LengthIsLeast(keys[0]);
    assert keys[0] == KEY_LENGTH;
    var entries := CanonEntries(Dict(info), keys);
    assert entries[0].key == KEY_LENGTH;
    assert Encode(Dict(info)) == [DICT_MARK] + TextEntries(entries) + [END_MARK];
  }

  /** So the word that is hashed is not the one in the torrent. */
  lemma UnsortedWordIsReplaced(info: map<seq<byte>, Value>)
    requires Meaning(UnsortedInfo()) == Dict(info)
    ensures Encode(Dict(info)) != Text(UnsortedInfo()) && !Derives(Dict(info), Text(UnsortedInfo()))
  {
    hide Encode;
    InfoKeysDiffer();
    MeaningOfUnsortedInfo(info);
    EncodingBegins(info);
    var entries := UnsortedInfo().entries;
    assert Text(UnsortedInfo()) == [DICT_MARK] + TextEntries(entries) + [END_MARK];
    assert TextEntries(entries)[0] == StringText(KEY_NAME)[0];
    assert StringText(KEY_NAME)[0] == PrintNat(4)[0] == ZERO + 4 && StringText(KEY_LENGTH)[0] == PrintNat(6)[0] == ZERO + 6;
    GrammarIsEncode(Dict(info), Text(UnsortedInfo()));
  }

  lemma MeaningOfUnsortedTorrent(dict: map<seq<byte>, Value>)
    requires Meaning(UnsortedTorrent()) == Dict(dict)
    ensures dict.Keys == {KEY_ANNOUNCE, KEY_INFO} && dict[KEY_ANNOUNCE] == Str([]) && dict[KEY_INFO] == Meaning(UnsortedInfo())
  {
    var e := UnsortedTorrent().entries;
    InfoKeysDiffer();
    MeaningOfLast(e[..1], e[1]);
    MeaningOfLast([], e[0]);
    assert e[..1] + [e[1]] == e && [] + [e[0]] == e[..1];
  }

  /** A torrent is read from that text, but its info hash is that of another word than the one in the text. */
  lemma UnsortedTorrentIsAccepted() returns (dict: map<seq<byte>, Value>)
    ensures ParseRun(Text(UnsortedTorrent())) == Ended(Ok(Dict(dict), |Text(UnsortedTorrent())|)) && IsTorrent(dict)
    ensures Encode(dict[KEY_INFO]) != Text(UnsortedInfo())
  {
    hide Text, Encode, ParseRun;
    var t := UnsortedTorrent();
    dict := Meaning(t).values;
    MeaningOfUnsortedTorrent(dict);
    MeaningOfUnsortedInfo(dict[KEY_INFO].values);
    UnsortedWordIsReplaced(dict[KEY_INFO].values);
    UnsortedIsRepresentable();
    UnsortedIsShort();
    assert Text(t) + [] == Text(t);
    assert At(Text(t), 0, Text(t));
    ReadsTree(Text(t), 0, t);
    EndsWithoutWrap(Text(t));
  }

  lemma UnsortedIsRepresentable()
    ensures Representable(UnsortedTorrent())
  {
    var inner, outer := UnsortedInfo().entries, UnsortedTorrent().entries;
    assert forall e | e in inner :: Representable(e.tree);
    assert Representable(UnsortedInfo());
    assert forall e | e in outer :: Representable(e.tree);
  }

  lemma ShortEntry(e: Entry, rest: seq<Entry>)
    ensures |TextEntries([e] + rest)| == |StringText(e.key)| + |Text(e.tree)| + |TextEntries(rest)|
  {
    assert ([e] + rest)[1..] == rest;
  }

  lemma UnsortedIsShort()
    ensures |Text(UnsortedTorrent())| < TWO_63
  {
    InfoKeysDiffer();
    var inner, outer := UnsortedInfo().entries, UnsortedTorrent().entries;
    assert inner == [inner[0]] + ([inner[1]] + ([inner[2]] + ([inner[3]] + [])));
    ShortEntry(inner[0], [inner[1]] + ([inner[2]] + ([inner[3]] + [])));
    ShortEntry(inner[1], [inner[2]] + ([inner[3]] + []));
    ShortEntry(inner[2], [inner[3]] + []);
    ShortEntry(inner[3], []);
    assert outer == [outer[0]] + ([outer[1]] + []);
    ShortEntry(outer[0], [outer[1]] + []);
    ShortEntry(outer[1], []);
    assert |Text(UnsortedInfo())| == |TextEntries(inner)| + 2 && |Text(UnsortedTorrent())| == |TextEntries(outer)| + 2;
  }
}
