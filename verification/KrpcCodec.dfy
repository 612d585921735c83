/** The encoders that append literal text, and the decoders that fill in message fields. */
module KrpcCodec {
  import opened Bytes
  import opened Decimal
  import opened Bencode
  import opened BencodeReader
  import opened Fields
  import opened NodeId
  import opened RoutingTable
  import opened Krpc

  // ----- the literals of the encoders -----

  lemma SmallNumerals()
    ensures PrintNat(1) == Ascii("1") && PrintNat(2) == Ascii("2") && PrintNat(4) == Ascii("4") && PrintNat(5) == Ascii("5")
    ensures PrintNat(6) == Ascii("6") && PrintNat(9) == Ascii("9") && PrintNat(12) == Ascii("12") && PrintNat(20) == Ascii("20")
  {
    assert PrintNat(12) == PrintNat(1) + [50];
    assert PrintNat(20) == PrintNat(2) + [48];
  }

  /** A string literal is the length, a colon and the string. */
  lemma StringLiteral(length: string, s: string)
    requires PrintNat(|s|) == Ascii(length)
    ensures StringText(Ascii(s)) == Ascii(length + ":" + s)
  {
    JoinLiteral(length, ":");
    JoinLiteral(length + ":", s);
    assert Ascii(":") == [COLON];
    assert |Ascii(s)| == |s|;
  }

  lemma IdLiterals()
    ensures StringText(KEY_ID) == Ascii("2:id") && StringText(KEY_TARGET) == Ascii("6:target")
    ensures StringText(KEY_INFO_HASH) == Ascii("9:info_hash")
  {
    SmallNumerals();
    StringLiteral("2", "id");
    StringLiteral("6", "target");
    StringLiteral("9", "info_hash");
  }

  lemma PortLiterals()
    ensures StringText(KEY_PORT) == Ascii("4:port") && StringText(KEY_TOKEN) == Ascii("5:token")
    ensures StringText(KEY_IMPLIED_PORT) == Ascii("12:implied_port")
  {
    SmallNumerals();
    StringLiteral("4", "port");
    StringLiteral("5", "token");
    StringLiteral("12", "implied_port");
  }

  lemma ListLiterals()
    ensures StringText(KEY_NODES) == Ascii("5:nodes") && StringText(KEY_VALUES) == Ascii("6:values")
  {
    SmallNumerals();
    StringLiteral("5", "nodes");
    StringLiteral("6", "values");
  }

  lemma MarkLiterals()
    ensures StringText(KEY_A) == Ascii("1:a") && StringText(KEY_Q) == Ascii("1:q") && StringText(KEY_R) == Ascii("1:r")
    ensures StringText(KEY_E) == Ascii("1:e") && StringText(KEY_T) == Ascii("1:t") && StringText(KEY_Y) == Ascii("1:y")
  {
    SmallNumerals();
    StringLiteral("1", "a");
    StringLiteral("1", "q");
    StringLiteral("1", "r");
    StringLiteral("1", "e");
    StringLiteral("1", "t");
    StringLiteral("1", "y");
  }

  lemma IdText(id: Id)
    ensures StringText(id) == Ascii("20:") + id
  {
    SmallNumerals();
  }

  /** A key literal followed by the start of its value. */
  lemma JoinLiteral(a: string, b: string)
    ensures Ascii(a) + Ascii(b) == Ascii(a + b)
  {
  }

  lemma OneEntry(e: Entry, rest: seq<Entry>)
    ensures TextEntries([e] + rest) == StringText(e.key) + Text(e.tree) + TextEntries(rest)
  {
    assert ([e] + rest)[1..] == rest;
  }

  // ----- queries -----

  method IdField(key: seq<byte>, name: string, id: Option<Id>) returns (piece: seq<byte>)
    requires StringText(key) == Ascii(name)
    ensures piece == FieldText(StringField(key, id))
  {
    piece := [];
    if id.Some? {
      piece := Ascii(name + "20:") + id.value;
      IdPiece(key, name, name + "20:", id.value);
    }
  }

  method TokenField(token: Option<seq<byte>>) returns (piece: seq<byte>)
    ensures piece == FieldText(StringField(KEY_TOKEN, token))
  {
    piece := [];
    if token.Some? {
      PortLiterals();
      piece := Ascii("5:token") + StringText(token.value);
    }
  }

  method PortField(m: Query) returns (piece: seq<byte>)
    ensures piece == FieldText(QueryFields(m)[3])
  {
    piece := [];
    if m.port.Some? {
      PortLiterals();
      piece := Ascii("4:porti") + PrintInt(m.port.value) + Ascii("e");
      IntegerPiece(KEY_PORT, "4:port", "4:porti", m.port.value);
    }
  }

  method ImpliedPortField(m: Query) returns (piece: seq<byte>)
    ensures piece == FieldText(QueryFields(m)[5])
  {
    piece := [];
    if m.impliedPort == Some(true) {
      piece := Ascii("12:implied_porti1e");
      ImpliedPortPiece();
    }
  }

  method WriteQueryArguments(m: Query) returns (out: seq<byte>)
    ensures out == TextEntries(Present(QueryFields(m)))
  {
    assert StringText(KEY_ID) == Ascii("2:id") && StringText(KEY_TARGET) == Ascii("6:target")
        && StringText(KEY_INFO_HASH) == Ascii("9:info_hash") by {
      IdLiterals();
    }
    out := IdField(KEY_ID, "2:id", Some(m.id));
    var piece := IdField(KEY_TARGET, "6:target", m.target);
    out := out + piece;
    piece := IdField(KEY_INFO_HASH, "9:info_hash", m.infoHash);
    out := out + piece;
    piece := PortField(m);
    out := out + piece;
    piece := TokenField(m.token);
    out := out + piece;
    piece := ImpliedPortField(m);
    out := out + piece;
    SixFields(QueryFields(m));
  }

  lemma SixFields(f: seq<Field>)
    requires |f| == 6
    ensures TextEntries(Present(f))
         == FieldText(f[0]) + FieldText(f[1]) + FieldText(f[2]) + FieldText(f[3]) + FieldText(f[4]) + FieldText(f[5])
  {
    FirstSix(f);
    assert f[..6] == f;
  }

  lemma FirstSix(f: seq<Field>)
    requires |f| >= 6
    ensures TextEntries(Present(f[..6]))
         == FieldText(f[0]) + FieldText(f[1]) + FieldText(f[2]) + FieldText(f[3]) + FieldText(f[4]) + FieldText(f[5])
  {
    FirstFive(f);
    AppendOptional(f, 5);
  }

  lemma FirstFive(f: seq<Field>)
    requires |f| >= 5
    ensures TextEntries(Present(f[..5]))
         == FieldText(f[0]) + FieldText(f[1]) + FieldText(f[2]) + FieldText(f[3]) + FieldText(f[4])
  {
    FirstFour(f);
    AppendOptional(f, 4);
  }

  lemma FourFields(f: seq<Field>)
    requires |f| == 4
    ensures TextEntries(Present(f)) == FieldText(f[0]) + FieldText(f[1]) + FieldText(f[2]) + FieldText(f[3])
  {
    FirstFour(f);
    assert f[..4] == f;
  }

  lemma FirstFour(f: seq<Field>)
    requires |f| >= 4
    ensures TextEntries(Present(f[..4])) == FieldText(f[0]) + FieldText(f[1]) + FieldText(f[2]) + FieldText(f[3])
  {
    FirstField(f);
    AppendOptional(f, 1);
    AppendOptional(f, 2);
    AppendOptional(f, 3);
  }

  lemma FirstField(f: seq<Field>)
    requires |f| >= 1
    ensures TextEntries(Present(f[..1])) == FieldText(f[0])
  {
    AppendOptional(f, 0);
    assert f[..0] == [];
    assert TextEntries(Present([])) == [];
    assert [] + FieldText(f[0]) == FieldText(f[0]);
  }

  lemma AppendOptional(fields: seq<Field>, k: nat)
    requires k < |fields|
    ensures TextEntries(Present(fields[..k])) + FieldText(fields[k]) == TextEntries(Present(fields[..k + 1]))
  {
    AppendField([], fields, k);
    assert [] + TextEntries(Present(fields[..k])) == TextEntries(Present(fields[..k]));
    assert [] + TextEntries(Present(fields[..k + 1])) == TextEntries(Present(fields[..k + 1]));
  }

  lemma IdPiece(key: seq<byte>, name: string, literal: string, id: Id)
    requires literal == name + "20:" && StringText(key) == Ascii(name)
    ensures Ascii(literal) + id == StringText(key) + StringText(id)
  {
    IdText(id);
    JoinLiteral(name, "20:");
    Assoc(Ascii(name), Ascii("20:"), id);
  }

  lemma IntegerPiece(key: seq<byte>, name: string, literal: string, n: int)
    requires literal == name + "i" && StringText(key) == Ascii(name)
    ensures Ascii(literal) + PrintInt(n) + Ascii("e") == StringText(key) + Text(IntTree(n))
  {
    JoinLiteral(name, "i");
    EdgeLiterals();
    Assoc(Ascii(name), [INT_MARK], PrintInt(n));
    Assoc(Ascii(name), [INT_MARK] + PrintInt(n), [END_MARK]);
  }

  lemma ImpliedPortPiece()
    ensures Ascii("12:implied_porti1e") == StringText(KEY_IMPLIED_PORT) + Text(IntTree(1))
  {
    PortLiterals();
    IntegerPiece(KEY_IMPLIED_PORT, "12:implied_port", "12:implied_porti", 1);
    SmallNumerals();
    JoinLiteral("12:implied_porti", "1");
    JoinLiteral("12:implied_porti1", "e");
  }

  /** `QueryMessage::encode`. */
  method EncodeQuery(m: Query) returns (out: seq<byte>)
    requires m.queryType.Some?
    ensures out == Text(QueryTree(m))
  {
    var queryName := QueryName(m.queryType.value);
    var arguments := WriteQueryArguments(m);
    out := Ascii("d") + Ascii("1:ad") + arguments + Ascii("e");
    out := out + (Ascii("1:q") + StringText(queryName));
    out := out + (Ascii("1:t") + StringText(m.tid));
    out := out + Ascii("1:y1:q");
    out := out + Ascii("e");
    QueryText(m, arguments);
  }

  lemma QueryText(m: Query, arguments: seq<byte>)
    requires m.queryType.Some? && arguments == TextEntries(Present(QueryFields(m)))
    ensures Ascii("d") + Ascii("1:ad") + arguments + Ascii("e")
            + (Ascii("1:q") + StringText(QueryName(m.queryType.value)))
            + (Ascii("1:t") + StringText(m.tid)) + Ascii("1:y1:q") + Ascii("e") == Text(QueryTree(m))
  {
    var name := QueryName(m.queryType.value);
    assert Text(QueryTree(m)) == [DICT_MARK] + (StringText(KEY_A) + ([DICT_MARK] + arguments + [END_MARK])
        + ((StringText(KEY_Q) + StringText(name)) + ((StringText(KEY_T) + StringText(m.tid))
        + (StringText(KEY_Y) + StringText(KEY_Q))))) + [END_MARK] by {
      FourEntries(QueryTree(m).entries);
    }
    FrameFour([DICT_MARK], StringText(KEY_A), arguments, [END_MARK], StringText(KEY_Q) + StringText(name),
              StringText(KEY_T) + StringText(m.tid), StringText(KEY_Y) + StringText(KEY_Q));
    Literals();
  }

  /** The literals of the encoders in terms of keys and marks. */
  lemma Literals()
    ensures Ascii("d") == [DICT_MARK] && Ascii("e") == [END_MARK]
    ensures Ascii("1:ad") == StringText(KEY_A) + [DICT_MARK] && Ascii("1:rd") == StringText(KEY_R) + [DICT_MARK]
    ensures Ascii("1:q") == StringText(KEY_Q) && Ascii("1:t") == StringText(KEY_T)
    ensures Ascii("1:y1:q") == StringText(KEY_Y) + StringText(KEY_Q)
    ensures Ascii("1:y1:r") == StringText(KEY_Y) + StringText(KEY_R)
  {
    MarkLiterals();
    EdgeLiterals();
    JoinLiteral("1:a", "d");
    JoinLiteral("1:r", "d");
    JoinLiteral("1:y", "1:q");
    JoinLiteral("1:y", "1:r");
  }

  lemma EdgeLiterals()
    ensures Ascii("d") == [DICT_MARK] && Ascii("l") == [LIST_MARK] && Ascii("i") == [INT_MARK] && Ascii("e") == [END_MARK]
  {
  }

  lemma FrameFour(d: seq<byte>, key: seq<byte>, body: seq<byte>, e: seq<byte>, x: seq<byte>, y: seq<byte>, z: seq<byte>)
    ensures d + (key + d) + body + e + x + y + z + e == d + (key + (d + body + e) + (x + (y + z))) + e
  {
  }

  lemma FrameThree(d: seq<byte>, key: seq<byte>, body: seq<byte>, e: seq<byte>, x: seq<byte>, y: seq<byte>)
    ensures d + (key + d) + body + e + x + y + e == d + (key + (d + body + e) + (x + y)) + e
  {
  }

  lemma FourEntries(e: seq<Entry>)
    requires |e| == 4
    ensures TextEntries(e) == StringText(e[0].key) + Text(e[0].tree) + (StringText(e[1].key) + Text(e[1].tree)
      + (StringText(e[2].key) + Text(e[2].tree) + (StringText(e[3].key) + Text(e[3].tree))))
  {
    hide Text, StringText;
    assert e == [e[0]] + ([e[1]] + ([e[2]] + ([e[3]] + [])));
    OneEntry(e[0], [e[1]] + ([e[2]] + ([e[3]] + [])));
    OneEntry(e[1], [e[2]] + ([e[3]] + []));
    OneEntry(e[2], [e[3]] + []);
    OneEntry(e[3], []);
  }

  lemma ThreeEntries(e: seq<Entry>)
    requires |e| == 3
    ensures TextEntries(e) == StringText(e[0].key) + Text(e[0].tree) + (StringText(e[1].key) + Text(e[1].tree)
      + (StringText(e[2].key) + Text(e[2].tree)))
  {
    hide Text, StringText;
    assert e == [e[0]] + ([e[1]] + ([e[2]] + []));
    OneEntry(e[0], [e[1]] + ([e[2]] + []));
    OneEntry(e[1], [e[2]] + []);
    OneEntry(e[2], []);
  }

  /** `QueryMessage::decode`. */
  method DecodeQuery(data: seq<byte>) returns (r: Option<Query>)
    requires ParseRun(data).Ended?
    ensures r == DecodedQuery(data)
  {
    var parsed, consumed := ParsePrefix(data);
    if parsed.Failure? || !parsed.value.Dict? {
      return None;
    }
    var dict := parsed.value.values;
    var msg := Query([], None, ZeroId(), None, None, None, None, None);
    if KEY_T in dict {
      msg := msg.(tid := StringOf(dict[KEY_T]));
    }
    if KEY_Q in dict {
      var queryType := QueryTypeOf(StringOf(dict[KEY_Q]));
      if queryType.None? {
        return None;
      }
      msg := msg.(queryType := queryType);
    }
    if KEY_A in dict && dict[KEY_A].Dict? {
      var args := dict[KEY_A].values;
      if IdAt(args, KEY_ID).Some? {
        msg := msg.(id := IdAt(args, KEY_ID).value);
      }
      msg := msg.(target := IdAt(args, KEY_TARGET), infoHash := IdAt(args, KEY_INFO_HASH));
      if KEY_PORT in args {
        msg := msg.(port := Some(IntegerOf(args[KEY_PORT]) % 0x1_0000));
      }
      msg := msg.(token := StringAt(args, KEY_TOKEN));
      if KEY_IMPLIED_PORT in args {
        msg := msg.(impliedPort := Some(IntegerOf(args[KEY_IMPLIED_PORT]) != 0));
      }
    }
    r := Some(msg);
  }

  // ----- responses -----

  method WriteResponseArguments(host: Host, m: Response) returns (out: seq<byte>)
    ensures out == TextEntries(Present(ResponseFields(host, m)))
  {
    assert StringText(KEY_ID) == Ascii("2:id") by {
      IdLiterals();
    }
    out := IdField(KEY_ID, "2:id", Some(m.id));
    var piece := NodesField(host, m);
    out := out + piece;
    piece := ValuesField(host, m);
    out := out + piece;
    piece := TokenField(m.token);
    out := out + piece;
    FourFields(ResponseFields(host, m));
  }

  method NodesField(host: Host, m: Response) returns (piece: seq<byte>)
    ensures piece == FieldText(ResponseFields(host, m)[1])
  {
    piece := [];
    if NonEmpty(m.nodes) {
      ListLiterals();
      var compactNodes := EncodeNodes(host, m.nodes.value);
      piece := Ascii("5:nodes") + StringText(compactNodes);
    }
  }

  method ValuesField(host: Host, m: Response) returns (piece: seq<byte>)
    ensures piece == FieldText(ResponseFields(host, m)[2])
  {
    piece := [];
    if NonEmpty(m.peers) {
      var items := WritePeers(m.peers.value);
      piece := Ascii("6:valuesl") + items + Ascii("e");
      ListPiece(items, m.peers.value);
    }
  }

  lemma ListPiece(items: seq<byte>, peers: seq<DHTNode>)
    requires items == TextItems(PeerTrees(peers))
    ensures Ascii("6:valuesl") + items + Ascii("e") == StringText(KEY_VALUES) + Text(ListTree(PeerTrees(peers)))
  {
    ListLiterals();
    JoinLiteral("6:values", "l");
    EdgeLiterals();
    Assoc(Ascii("6:values"), [LIST_MARK], items);
    Assoc(Ascii("6:values"), [LIST_MARK] + items, [END_MARK]);
  }

  method WritePeers(peers: seq<DHTNode>) returns (out: seq<byte>)
    ensures out == TextItems(PeerTrees(peers))
  {
    out := [];
    for k := 0 to |peers|
      invariant out == TextItems(PeerTrees(peers)[..k])
    {
      var piece := Ascii("6:") + peers[k].ip + [peers[k].port / 256, peers[k].port % 256];
      PeerPiece(peers[k]);
      TextItemsConcat(PeerTrees(peers)[..k], [PeerTrees(peers)[k]]);
      assert PeerTrees(peers)[..k + 1] == PeerTrees(peers)[..k] + [PeerTrees(peers)[k]];
      OneItem(PeerTrees(peers)[k]);
      out := out + piece;
    }
    assert PeerTrees(peers)[..|peers|] == PeerTrees(peers);
  }

  lemma OneItem(t: Tree)
    ensures TextItems([t]) == Text(t)
  {
    assert [t][1..] == [];
  }

  lemma PeerPiece(n: DHTNode)
    ensures Ascii("6:") + n.ip + [n.port / 256, n.port % 256] == Text(StrTree(PeerText(n)))
  {
    SmallNumerals();
    Assoc(Ascii("6:"), n.ip, [n.port / 256, n.port % 256]);
  }

  /** `ResponseMessage::encode`. */
  method EncodeResponse(host: Host, m: Response) returns (out: seq<byte>)
    ensures out == Text(ResponseTree(host, m))
  {
    var arguments := WriteResponseArguments(host, m);
    out := Ascii("d") + Ascii("1:rd") + arguments + Ascii("e");
    out := out + (Ascii("1:t") + StringText(m.tid));
    out := out + Ascii("1:y1:r");
    out := out + Ascii("e");
    ResponseText(host, m, arguments);
  }

  lemma ResponseText(host: Host, m: Response, arguments: seq<byte>)
    requires arguments == TextEntries(Present(ResponseFields(host, m)))
    ensures Ascii("d") + Ascii("1:rd") + arguments + Ascii("e") + (Ascii("1:t") + StringText(m.tid))
            + Ascii("1:y1:r") + Ascii("e") == Text(ResponseTree(host, m))
  {
    assert Text(ResponseTree(host, m)) == [DICT_MARK] + (StringText(KEY_R) + ([DICT_MARK] + arguments + [END_MARK])
        + ((StringText(KEY_T) + StringText(m.tid)) + (StringText(KEY_Y) + StringText(KEY_R)))) + [END_MARK] by {
      ThreeEntries(ResponseTree(host, m).entries);
    }
    FrameThree([DICT_MARK], StringText(KEY_R), arguments, [END_MARK],
               StringText(KEY_T) + StringText(m.tid), StringText(KEY_Y) + StringText(KEY_R));
    Literals();
  }

  /** `ResponseMessage::decode`. */
  method DecodeResponse(host: Host, data: seq<byte>, now: int) returns (r: Option<Response>)
    requires ParseRun(data).Ended?
    ensures r == DecodedResponse(host, data, now)
  {
    var parsed, consumed := ParsePrefix(data);
    if parsed.Failure? || !parsed.value.Dict? {
      return None;
    }
    var dict := parsed.value.values;
    var msg := Response([], ZeroId(), None, None, None);
    if KEY_T in dict {
      msg := msg.(tid := StringOf(dict[KEY_T]));
    }
    if KEY_R in dict && dict[KEY_R].Dict? {
      var resp := dict[KEY_R].values;
      if IdAt(resp, KEY_ID).Some? {
        msg := msg.(id := IdAt(resp, KEY_ID).value);
      }
      if KEY_NODES in resp {
        var nodes := DecodeNodes(host, StringOf(resp[KEY_NODES]), now);
        msg := msg.(nodes := Some(nodes));
      }
      msg := msg.(token := StringAt(resp, KEY_TOKEN));
      if KEY_VALUES in resp && resp[KEY_VALUES].List? {
        var peers := ReadPeers(resp[KEY_VALUES].items);
        if peers != [] {
          msg := msg.(peers := Some(peers));
        }
      }
    }
    r := Some(msg);
  }

  method ReadPeers(items: seq<Value>) returns (peers: seq<DHTNode>)
    ensures peers == PeersOf(items)
  {
    peers := [];
    for k := 0 to |items|
      invariant peers == PeersOf(items[..k])
    {
      assert items[..k + 1][..k] == items[..k];
      var s := StringOf(items[k]);
      if |s| == 6 {
        peers := peers + [PeerOf(s)];
      }
    }
    assert items[..|items|] == items;
  }

  // ----- errors -----

  /** `ErrorMessage::encode`. */
  method EncodeError(m: Error) returns (out: seq<byte>)
    ensures out == Text(ErrorTree(m))
  {
    out := Ascii("d");
    out := out + (Ascii("1:eli") + PrintInt(m.code) + Ascii("e"));
    out := out + StringText(m.message);
    out := out + Ascii("e");
    out := out + (Ascii("1:t") + StringText(m.tid));
    out := out + Ascii("1:y1:e");
    out := out + Ascii("e");
    ErrorText(m);
  }

  lemma ErrorText(m: Error)
    ensures Ascii("d") + (Ascii("1:eli") + PrintInt(m.code) + Ascii("e")) + StringText(m.message) + Ascii("e")
            + (Ascii("1:t") + StringText(m.tid)) + Ascii("1:y1:e") + Ascii("e") == Text(ErrorTree(m))
  {
    var list := StringText(KEY_E) + Text(ErrorTree(m).entries[0].tree);
    assert Text(ErrorTree(m)) == [DICT_MARK] + (list + ((StringText(KEY_T) + StringText(m.tid))
        + (StringText(KEY_Y) + StringText(KEY_E)))) + [END_MARK] by {
      ThreeEntries(ErrorTree(m).entries);
    }
    assert Ascii("1:eli") + PrintInt(m.code) + Ascii("e") + StringText(m.message) + Ascii("e") == list by {
      ErrorPiece(m);
    }
    RegroupError(Ascii("d"), Ascii("1:eli") + PrintInt(m.code) + Ascii("e"), StringText(m.message), Ascii("e"),
                 Ascii("1:t") + StringText(m.tid), Ascii("1:y1:e"));
    assert Ascii("1:t") == StringText(KEY_T) && Ascii("d") == [DICT_MARK] && Ascii("e") == [END_MARK] by {
      Literals();
    }
    assert Ascii("1:y1:e") == StringText(KEY_Y) + StringText(KEY_E) by {
      MarkLiterals();
      JoinLiteral("1:y", "1:e");
    }
  }

  lemma RegroupError(d: seq<byte>, code: seq<byte>, message: seq<byte>, e: seq<byte>, t: seq<byte>, y: seq<byte>)
    ensures d + code + message + e + t + y + e == d + ((code + message + e) + (t + y)) + e
  {
  }

  lemma ErrorPiece(m: Error)
    ensures Ascii("1:eli") + PrintInt(m.code) + Ascii("e") + StringText(m.message) + Ascii("e")
         == StringText(KEY_E) + Text(ErrorTree(m).entries[0].tree)
  {
    MarkLiterals();
    JoinLiteral("1:e", "l");
    JoinLiteral("1:el", "i");
    EdgeLiterals();
    var items := [IntTree(m.code), StrTree(m.message)];
    assert items == [items[0]] + [items[1]];
    TextItemsConcat([items[0]], [items[1]]);
    OneItem(items[0]);
    OneItem(items[1]);
    assert TextItems(items) == [INT_MARK] + PrintInt(m.code) + [END_MARK] + StringText(m.message);
  }

  /** `ErrorMessage::decode`. */
  method DecodeError(data: seq<byte>) returns (r: Option<Error>)
    requires ParseRun(data).Ended?
    ensures r == DecodedError(data)
  {
    var parsed, consumed := ParsePrefix(data);
    if parsed.Failure? || !parsed.value.Dict? {
      return None;
    }
    var dict := parsed.value.values;
    var msg := Error([], 0, []);
    if KEY_T in dict {
      msg := msg.(tid := StringOf(dict[KEY_T]));
    }
    if KEY_E in dict && dict[KEY_E].List? && |dict[KEY_E].items| >= 2 {
      var items := dict[KEY_E].items;
      msg := msg.(code := ToInt32(IntegerOf(items[0])), message := StringOf(items[1]));
    }
    r := Some(msg);
  }
}
