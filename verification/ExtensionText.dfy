/** The metadata messages as they go over the wire, byte by byte. */
module ExtensionText {
  import opened Bytes
  import opened Decimal
  import opened Bencode
  import opened ExtensionProtocol
  import opened KrpcCodec

  lemma NamesInOrder()
    ensures StrictlyIncreasing([KEY_MSG_TYPE, KEY_PIECE]) && StrictlyIncreasing([KEY_MSG_TYPE, KEY_PIECE, KEY_TOTAL_SIZE])
  {
    assert KEY_MSG_TYPE[0] == 109 && KEY_PIECE[0] == 112 && KEY_TOTAL_SIZE[0] == 116;
  }

  lemma NameTexts()
    ensures StringText(KEY_MSG_TYPE) == Ascii("8:msg_type") && StringText(KEY_PIECE) == Ascii("5:piece")
    ensures StringText(KEY_TOTAL_SIZE) == Ascii("10:total_size")
  {
    SmallNumerals();
    assert PrintNat(8) == Ascii("8");
    assert PrintNat(10) == PrintNat(1) + [48];
    StringLiteral("8", "msg_type");
    StringLiteral("5", "piece");
    StringLiteral("10", "total_size");
  }

  /** A dictionary is encoded in the order of its keys. */
  lemma DictOf(values: map<seq<byte>, Value>, keys: seq<seq<byte>>)
    requires StrictlyIncreasing(keys) && forall k :: k in keys <==> k in values
    ensures Canon(Dict(values)) == DictTree(CanonEntries(Dict(values), keys))
  {
    IncreasingUnique(keys, SortedKeys(values.Keys));
  }

  lemma TwoEntries(v: Value, a: seq<byte>, b: seq<byte>)
    requires v.Dict? && a in v.values && b in v.values
    ensures CanonEntries(v, [a, b]) == [Entry(a, Canon(v.values[a])), Entry(b, Canon(v.values[b]))]
  {
    assert [a, b][..1] == [a] && [a][..0] == [];
    assert CanonEntries(v, [a]) == [Entry(a, Canon(v.values[a]))];
  }

  lemma ThreeEntriesOf(v: Value, a: seq<byte>, b: seq<byte>, c: seq<byte>)
    requires v.Dict? && a in v.values && b in v.values && c in v.values
    ensures CanonEntries(v, [a, b, c]) == [Entry(a, Canon(v.values[a])), Entry(b, Canon(v.values[b])), Entry(c, Canon(v.values[c]))]
  {
    TwoEntries(v, a, b);
    assert [a, b, c][..2] == [a, b];
  }

  function IntText(n: int): seq<byte> { Ascii("i") + PrintInt(n) + Ascii("e") }

  lemma TextOfTwo(a: Entry, b: Entry)
    ensures TextEntries([a, b]) == StringText(a.key) + Text(a.tree) + (StringText(b.key) + Text(b.tree))
  {
    hide Text, StringText;
    OneEntry(a, [b]);
    OneEntry(b, []);
    assert [a] + [b] == [a, b] && [b] + [] == [b];
  }

  lemma TextOfThree(a: Entry, b: Entry, c: Entry)
    ensures TextEntries([a, b, c])
         == StringText(a.key) + Text(a.tree) + (StringText(b.key) + Text(b.tree) + (StringText(c.key) + Text(c.tree)))
  {
    hide Text, StringText;
    OneEntry(a, [b, c]);
    TextOfTwo(b, c);
    assert [a] + [b, c] == [a, b, c];
  }

  lemma TextOfInteger(n: int)
    ensures Text(IntTree(n)) == IntText(n)
  {
    EdgeLiterals();
  }

  /** A request or a rejection: its kind and the number of the piece, as BEP 9 writes them. */
  lemma MessageText(kind: byte, piece: nat)
    requires piece < TWO_63
    ensures Encode(MessageDict(kind, piece))
         == Ascii("d") + (Ascii("8:msg_type") + IntText(kind) + (Ascii("5:piece") + IntText(piece))) + Ascii("e")
  {
    hide StringText, IntText, Ascii, TextEntries, CanonEntries, StrictlyIncreasing;
    var v := MessageDict(kind, piece);
    NamesDiffer();
    NamesInOrder();
    NameTexts();
    DictOf(v.values, [KEY_MSG_TYPE, KEY_PIECE]);
    TwoEntries(v, KEY_MSG_TYPE, KEY_PIECE);
    TextOfTwo(Entry(KEY_MSG_TYPE, IntTree(kind)), Entry(KEY_PIECE, IntTree(piece)));
    TextOfInteger(kind);
    TextOfInteger(piece);
    EdgeLiterals();
  }

  lemma NamesDiffer()
    ensures KEY_MSG_TYPE != KEY_PIECE && KEY_PIECE != KEY_TOTAL_SIZE && KEY_MSG_TYPE != KEY_TOTAL_SIZE
  {
    assert |KEY_MSG_TYPE| == 8 && |KEY_PIECE| == 5 && |KEY_TOTAL_SIZE| == 10;
  }

  lemma DataTree(piece: nat, totalSize: nat)
    requires piece < TWO_63 && totalSize < TWO_63
    ensures Canon(DataDict(piece, totalSize))
         == DictTree([Entry(KEY_MSG_TYPE, IntTree(1)), Entry(KEY_PIECE, IntTree(piece)), Entry(KEY_TOTAL_SIZE, IntTree(totalSize))])
  {
    hide CanonEntries, StrictlyIncreasing;
    var v := DataDict(piece, totalSize);
    NamesDiffer();
    NamesInOrder();
    DictOf(v.values, [KEY_MSG_TYPE, KEY_PIECE, KEY_TOTAL_SIZE]);
    ThreeEntriesOf(v, KEY_MSG_TYPE, KEY_PIECE, KEY_TOTAL_SIZE);
  }

  /** A data message: kind 1, the piece and the total size; the bytes of the piece follow. */
  lemma DataText(piece: nat, totalSize: nat)
    requires piece < TWO_63 && totalSize < TWO_63
    ensures Encode(DataDict(piece, totalSize))
         == Ascii("d") + (Ascii("8:msg_type") + IntText(1) + (Ascii("5:piece") + IntText(piece)
            + (Ascii("10:total_size") + IntText(totalSize)))) + Ascii("e")
  {
    hide StringText, IntText, Ascii, TextEntries, Canon, DataDict;
    DataTree(piece, totalSize);
    NameTexts();
    TextOfThree(Entry(KEY_MSG_TYPE, IntTree(1)), Entry(KEY_PIECE, IntTree(piece)), Entry(KEY_TOTAL_SIZE, IntTree(totalSize)));
    TextOfInteger(1);
    TextOfInteger(piece);
    TextOfInteger(totalSize);
    EdgeLiterals();
  }
}
