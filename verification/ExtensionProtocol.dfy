/** The messages of the metadata extension (BEP 9): a bencoded dictionary, for data messages followed by raw bytes. */
module ExtensionProtocol {
  import opened Bytes
  import opened Bencode
  import opened BencodeParser
  import opened BencodeReader

  const KEY_M: seq<byte> := Ascii("m")
  const KEY_METADATA_SIZE: seq<byte> := Ascii("metadata_size")
  const KEY_MSG_TYPE: seq<byte> := Ascii("msg_type")
  const KEY_PIECE: seq<byte> := Ascii("piece")
  const KEY_TOTAL_SIZE: seq<byte> := Ascii("total_size")
  const UT_METADATA: seq<byte> := Ascii("ut_metadata")

  /** `static_cast` between the 64-bit unsigned sizes and the 64-bit signed integers of a dictionary. */
  function ToSigned(n: nat): int { if n % TWO_64 < TWO_63 then n % TWO_64 else n % TWO_64 - TWO_64 }

  function ToSize(n: int): (r: nat)
    ensures r < TWO_64
  {
    n % TWO_64
  }

  lemma CastsUndo(n: nat)
    requires n < TWO_64
    ensures ToSize(ToSigned(n)) == n && -TWO_63 <= ToSigned(n) < TWO_63
  {
    if n >= TWO_63 {
      assert (n - TWO_64) % TWO_64 == n;
    }
  }

  function IntegerAt(d: map<seq<byte>, Value>, key: seq<byte>): Option<int> {
    if key in d && d[key].Integer? then Some(d[key].n) else None
  }

  // ----- metadata messages -----

  /** Without a total size in the dictionary the field of the message is left alone. */
  datatype MetadataMessage = MetadataMessage(msgType: byte, piece: nat, totalSize: Option<nat>, data: seq<byte>)

  /** What the bytes of a message say, if they are a message. */
  function MessageOf(payload: seq<byte>): Option<MetadataMessage> {
    match ParseRun(payload)
    case Ended(Ok(Dict(values), consumed)) => MessageFrom(values, payload[consumed..])
    case _ => None
  }

  function MessageFrom(d: map<seq<byte>, Value>, data: seq<byte>): Option<MetadataMessage> {
    var kind, piece, total := IntegerAt(d, KEY_MSG_TYPE), IntegerAt(d, KEY_PIECE), IntegerAt(d, KEY_TOTAL_SIZE);
    if kind.None? || piece.None? then None
    else
      Some(MetadataMessage(
             kind.value % 256,
             ToSize(piece.value),
             if total.Some? then Some(ToSize(total.value)) else None,
             data))
  }

  function MessageDict(kind: byte, piece: nat): Value {
    Dict(map[KEY_MSG_TYPE := Integer(kind), KEY_PIECE := Integer(ToSigned(piece))])
  }

  function DataDict(piece: nat, totalSize: nat): Value {
    Dict(map[KEY_MSG_TYPE := Integer(1), KEY_PIECE := Integer(ToSigned(piece)), KEY_TOTAL_SIZE := Integer(ToSigned(totalSize))])
  }

  /** `build_metadata_data`. */
  method BuildMetadataData(id: byte, piece: nat, totalSize: nat, data: seq<byte>) returns (payload: seq<byte>)
    ensures payload == [id] + (Encode(DataDict(piece, totalSize)) + data)
  {
    var bencoded := WriteValue(DataDict(piece, totalSize));
    payload := [id];
    payload := payload + bencoded;
    payload := payload + data;
    Assoc([id], bencoded, data);
  }

  /** `build_metadata_request` and `build_metadata_reject`, which differ in the kind only. */
  method BuildMetadataMessage(id: byte, kind: byte, piece: nat) returns (payload: seq<byte>)
    ensures payload == [id] + Encode(MessageDict(kind, piece))
  {
    var bencoded := WriteValue(MessageDict(kind, piece));
    payload := [id] + bencoded;
  }

  /** `parse_metadata_message`. */
  method ParseMetadataMessage(payload: seq<byte>) returns (msg: Option<MetadataMessage>)
    requires ParseRun(payload).Ended?
    ensures msg == MessageOf(payload)
  {
    if payload == [] {
      return None;
    }
    var value, consumed := ParsePrefix(payload);
    if value.Failure? || !value.value.Dict? {
      return None;
    }
    var dict := value.value.values;
    if !(KEY_MSG_TYPE in dict && dict[KEY_MSG_TYPE].Integer?) {
      return None;
    }
    if !(KEY_PIECE in dict && dict[KEY_PIECE].Integer?) {
      return None;
    }
    var totalSize := None;
    if KEY_TOTAL_SIZE in dict && dict[KEY_TOTAL_SIZE].Integer? {
      totalSize := Some(ToSize(dict[KEY_TOTAL_SIZE].n));
    }
    var data := [];
    if consumed < |payload| {
      data := payload[consumed..];
    }
    assert data == payload[consumed..];
    msg := Some(MetadataMessage(dict[KEY_MSG_TYPE].n % 256, ToSize(dict[KEY_PIECE].n), totalSize, data));
  }

  lemma KeysDiffer()
    ensures KEY_MSG_TYPE != KEY_PIECE && KEY_MSG_TYPE != KEY_TOTAL_SIZE && KEY_PIECE != KEY_TOTAL_SIZE
  {
    assert |KEY_MSG_TYPE| == 8 && |KEY_PIECE| == 5 && |KEY_TOTAL_SIZE| == 10;
  }

  /** After its leading identifier, a data message is read back: piece, total size and all the data. */
  lemma DataRoundTrip(piece: nat, totalSize: nat, data: seq<byte>)
    requires piece < TWO_64 && totalSize < TWO_64 && |Encode(DataDict(piece, totalSize))| < TWO_63
    ensures MessageOf(Encode(DataDict(piece, totalSize)) + data) == Some(MetadataMessage(1, piece, Some(totalSize), data))
  {
    var text := Encode(DataDict(piece, totalSize));
    DataDictRead(piece, totalSize, data);
    RunRoundTrip(DataDict(piece, totalSize), data);
    assert (text + data)[|text|..] == data;
  }

  lemma DataDictRead(piece: nat, totalSize: nat, data: seq<byte>)
    requires piece < TWO_64 && totalSize < TWO_64
    ensures Valid(DataDict(piece, totalSize))
    ensures MessageFrom(DataDict(piece, totalSize).values, data) == Some(MetadataMessage(1, piece, Some(totalSize), data))
  {
    CastsUndo(piece);
    CastsUndo(totalSize);
    KeysDiffer();
  }

  lemma MessageDictRead(kind: byte, piece: nat)
    requires piece < TWO_64
    ensures Valid(MessageDict(kind, piece))
    ensures MessageFrom(MessageDict(kind, piece).values, []) == Some(MetadataMessage(kind, piece, None, []))
  {
    CastsUndo(piece);
    KeysDiffer();
  }

  /** Requests (kind 0) and rejections (kind 2) are read back. */
  lemma MessageRoundTrip(kind: byte, piece: nat)
    requires piece < TWO_64 && |Encode(MessageDict(kind, piece))| < TWO_63
    ensures MessageOf(Encode(MessageDict(kind, piece))) == Some(MetadataMessage(kind, piece, None, []))
  {
    var text := Encode(MessageDict(kind, piece));
    MessageDictRead(kind, piece);
    assert text + [] == text && text[|text|..] == [];
    RunRoundTrip(MessageDict(kind, piece), []);
  }

  // ----- the extended handshake -----

  const KEY_V: seq<byte> := Ascii("v")
  const KEY_P: seq<byte> := Ascii("p")
  const KEY_REQQ: seq<byte> := Ascii("reqq")
  const UT_PEX: seq<byte> := Ascii("ut_pex")
  const LT_DONTHAVE: seq<byte> := Ascii("lt_donthave")
  const UPLOAD_ONLY: seq<byte> := Ascii("upload_only")

  /** What a handshake tells a new object; a field that is not sent keeps its first value. */
  datatype Handshake = Handshake(
    extensions: map<seq<byte>, byte>,
    client: seq<byte>,
    port: nat,
    metadataSize: nat,
    uploadOnly: bool)

  function Extensions(m: map<seq<byte>, Value>): map<seq<byte>, byte> {
    map k | k in m && m[k].Integer? :: m[k].n % 256
  }

  function IntegerOr(x: Option<int>, default: int): int { if x.Some? then x.value else default }

  function HandshakeFrom(d: map<seq<byte>, Value>): Handshake {
    Handshake(
      if KEY_M in d && d[KEY_M].Dict? then Extensions(d[KEY_M].values) else map[],
      if KEY_V in d && d[KEY_V].Str? then d[KEY_V].s else [],
      IntegerOr(IntegerAt(d, KEY_P), 0) % 0x1_0000,
      ToSize(IntegerOr(IntegerAt(d, KEY_METADATA_SIZE), 0)),
      IntegerOr(IntegerAt(d, UPLOAD_ONLY), 0) != 0)
  }

  function HandshakeOf(payload: seq<byte>): Option<Handshake> {
    match ParseRun(payload)
    case Ended(Ok(Dict(values), _)) => Some(HandshakeFrom(values))
    case _ => None
  }

  /** `parse_extended_handshake` of a new object. */
  method ParseExtendedHandshake(payload: seq<byte>) returns (handshake: Option<Handshake>)
    requires ParseRun(payload).Ended?
    ensures handshake == HandshakeOf(payload)
  {
    var value, consumed := ParsePrefix(payload);
    if value.Failure? || !value.value.Dict? {
      return None;
    }
    var dict := value.value.values;
    var h := Handshake(map[], [], 0, 0, false);
    if KEY_M in dict && dict[KEY_M].Dict? {
      var extensions := CollectExtensions(dict[KEY_M].values);
      h := h.(extensions := extensions);
    }
    if KEY_V in dict && dict[KEY_V].Str? {
      h := h.(client := dict[KEY_V].s);
    }
    if KEY_P in dict && dict[KEY_P].Integer? {
      h := h.(port := dict[KEY_P].n % 0x1_0000);
    }
    if KEY_METADATA_SIZE in dict && dict[KEY_METADATA_SIZE].Integer? {
      h := h.(metadataSize := ToSize(dict[KEY_METADATA_SIZE].n));
    }
    if UPLOAD_ONLY in dict && dict[UPLOAD_ONLY].Integer? {
      h := h.(uploadOnly := dict[UPLOAD_ONLY].n != 0);
    }
    handshake := Some(h);
  }

  /** The extensions of this client, as they are announced. */
  function LocalExtensions(): map<seq<byte>, Value> {
    map[UT_METADATA := Integer(1), UT_PEX := Integer(2), LT_DONTHAVE := Integer(7), UPLOAD_ONLY := Integer(3)]
  }

  function HandshakeDict(port: nat, client: seq<byte>, metadataSize: nat): Value {
    var d := map[KEY_M := Dict(LocalExtensions()), KEY_V := Str(client), KEY_P := Integer(port)];
    var d' := if metadataSize > 0 then d[KEY_METADATA_SIZE := Integer(ToSigned(metadataSize))] else d;
    Dict(d'[KEY_REQQ := Integer(250)])
  }

  /** `build_extended_handshake`. */
  method BuildExtendedHandshake(port: nat, client: seq<byte>, metadataSize: nat) returns (payload: seq<byte>)
    ensures payload == Encode(HandshakeDict(port, client, metadataSize))
  {
    var dict := map[KEY_M := Dict(LocalExtensions())];
    dict := dict[KEY_V := Str(client)];
    dict := dict[KEY_P := Integer(port)];
    if metadataSize > 0 {
      dict := dict[KEY_METADATA_SIZE := Integer(ToSigned(metadataSize))];
    }
    dict := dict[KEY_REQQ := Integer(250)];
    payload := WriteValue(Dict(dict));
  }

  lemma HandshakeKeysDiffer()
    ensures KEY_M !in {KEY_V, KEY_P, KEY_REQQ, KEY_METADATA_SIZE, UPLOAD_ONLY}
    ensures KEY_V !in {KEY_P, KEY_REQQ, KEY_METADATA_SIZE, UPLOAD_ONLY} && KEY_P !in {KEY_REQQ, KEY_METADATA_SIZE, UPLOAD_ONLY}
    ensures KEY_METADATA_SIZE !in {KEY_REQQ, UPLOAD_ONLY} && KEY_REQQ != UPLOAD_ONLY
    ensures UT_METADATA !in {UT_PEX, LT_DONTHAVE, UPLOAD_ONLY}
  {
    assert KEY_M[0] == 109 && KEY_V[0] == 118 && KEY_P[0] == 112;
    assert |KEY_M| == |KEY_V| == |KEY_P| == 1 && |KEY_REQQ| == 4 && |KEY_METADATA_SIZE| == 13 && |UPLOAD_ONLY| == 11;
    assert |UT_METADATA| == 11 && |UT_PEX| == 6 && UT_METADATA[1] == 116 && LT_DONTHAVE[0] == 108 && UPLOAD_ONLY[1] == 112;
    assert UT_METADATA[0] == 117;
  }

  lemma HandshakeDictRead(port: nat, client: seq<byte>, metadataSize: nat)
    requires port < 0x1_0000 && metadataSize < TWO_64 && |client| < TWO_63
    ensures HandshakeDict(port, client, metadataSize).Dict? && Valid(HandshakeDict(port, client, metadataSize))
    ensures HandshakeFrom(HandshakeDict(port, client, metadataSize).values)
         == Handshake(Extensions(LocalExtensions()), client, port, metadataSize, false)
  {
    HandshakeKeysDiffer();
    CastsUndo(metadataSize);
    var d := HandshakeDict(port, client, metadataSize).values;
    assert forall k | k in LocalExtensions() :: Valid(LocalExtensions()[k]);
    assert d[KEY_M] == Dict(LocalExtensions()) && d[KEY_V] == Str(client) && d[KEY_P] == Integer(port);
    assert UPLOAD_ONLY !in d;
    assert metadataSize > 0 ==> d[KEY_METADATA_SIZE] == Integer(ToSigned(metadataSize));
    assert metadataSize == 0 ==> KEY_METADATA_SIZE !in d;
  }

  /** A handshake is read back: the extensions and their identifiers, client, port and metadata size. */
  lemma HandshakeRoundTrip(port: nat, client: seq<byte>, metadataSize: nat)
    requires port < 0x1_0000 && metadataSize < TWO_64 && |client| < TWO_63
    requires |Encode(HandshakeDict(port, client, metadataSize))| < TWO_63
    ensures HandshakeOf(Encode(HandshakeDict(port, client, metadataSize)))
         == Some(Handshake(Extensions(LocalExtensions()), client, port, metadataSize, false))
    ensures UT_METADATA in Extensions(LocalExtensions()) && Extensions(LocalExtensions())[UT_METADATA] == 1
  {
    hide HandshakeDict, HandshakeFrom, Encode, ParseRun;
    var v := HandshakeDict(port, client, metadataSize);
    HandshakeDictRead(port, client, metadataSize);
    assert Encode(v) + [] == Encode(v);
    RunRoundTrip(v, []);
    HandshakeKeysDiffer();
  }

  /** What any handshake tells, by the names of BEP 10; what it does not send is empty, zero or false. */
  lemma HandshakeIsRead(d: map<seq<byte>, Value>)
    ensures var h := HandshakeFrom(d);
      && (forall port | Ascii("p") in d && d[Ascii("p")] == Integer(port) && 0 <= port < 0x1_0000 :: h.port == port)
      && (forall size | Ascii("metadata_size") in d && d[Ascii("metadata_size")] == Integer(size) && 0 <= size < TWO_63 :: h.metadataSize == size)
      && (forall n | Ascii("upload_only") in d && d[Ascii("upload_only")] == Integer(n) :: h.uploadOnly == (n != 0))
      && (forall client | Ascii("v") in d && d[Ascii("v")] == Str(client) :: h.client == client)
      && (forall m, key, id: byte | Ascii("m") in d && d[Ascii("m")] == Dict(m) && key in m && m[key] == Integer(id) ::
            key in h.extensions && h.extensions[key] == id)
      && (Ascii("p") !in d ==> h.port == 0) && (Ascii("metadata_size") !in d ==> h.metadataSize == 0)
      && (Ascii("upload_only") !in d ==> !h.uploadOnly) && (Ascii("v") !in d ==> h.client == []) && (Ascii("m") !in d ==> h.extensions == map[])
  {
    hide Ascii;
  }

  method CollectExtensions(m: map<seq<byte>, Value>) returns (extensions: map<seq<byte>, byte>)
    ensures extensions == Extensions(m)
  {
    extensions := map[];
    var left := m.Keys;
    while left != {}
      invariant left <= m.Keys
      invariant extensions == map k | k in m && k !in left && m[k].Integer? :: m[k].n % 256
      decreases |left|
    {
      var key :| key in left;
      left := left - {key};
      if m[key].Integer? {
        extensions := extensions[key := m[key].n % 256];
      }
    }
  }
}
