/** What becomes of a datagram: which of the three kinds of messages it is taken for. */
module KrpcDispatch {
  import opened Bytes
  import opened Bencode
  import opened BencodeReader
  import opened NodeId
  import opened RoutingTable
  import opened Krpc
  import opened KrpcCodec

  datatype Handling = AsQuery(query: Query) | AsResponse(response: Response) | AsError(error: Error) | Ignored

  /** The decoders are tried one after the other. */
  function Handled(host: Host, data: seq<byte>, now: int): Handling {
    match DecodedQuery(data)
    case Some(query) => AsQuery(query)
    case None =>
      match DecodedResponse(host, data, now)
      case Some(response) => AsResponse(response)
      case None =>
        match DecodedError(data)
        case Some(error) => AsError(error)
        case None => Ignored
  }

  /** One turn of `run` for a datagram that has arrived. */
  method Dispatch(host: Host, data: seq<byte>, now: int) returns (h: Handling)
    requires ParseRun(data).Ended?
    ensures h == Handled(host, data, now)
  {
    var query := DecodeQuery(data);
    if query.Some? {
      return AsQuery(query.value);
    }
    var response := DecodeResponse(host, data, now);
    if response.Some? {
      return AsResponse(response.value);
    }
    var error := DecodeError(data);
    if error.Some? {
      return AsError(error.value);
    }
    h := Ignored;
  }

  predicate IsQueryName(name: seq<byte>) {
    name == Ascii("ping") || name == Ascii("find_node") || name == Ascii("get_peers") || name == Ascii("announce_peer")
  }

  /**
   * Exactly what a datagram is taken for: a dictionary is a query, unless it has a query name that is none of the four, and
   * then it is a response. Nothing is ever taken for an error. The entry "y", which tells the kind, plays no part.
   */
  lemma HandledIff(host: Host, data: seq<byte>, now: int)
    ensures var h, d := Handled(host, data, now), Datagram(data);
      && (h.Ignored? <==> d.None?) && !h.AsError?
      && (h.AsResponse? <==> d.Some? && Ascii("q") in d.value && !IsQueryName(StringOf(d.value[Ascii("q")])))
  {
    hide Ascii, Datagram;
  }

  /** What an empty query with a transaction identifier says: its kind is not known. */
  function Blank(tid: seq<byte>): Query { Query(tid, None, ZeroId(), None, None, None, None, None) }

  lemma WithoutName(entries: seq<Entry>, tid: seq<byte>)
    requires |entries| == 3 && entries[1] == Entry(KEY_T, StrTree(tid)) && entries[2].key == KEY_Y
    requires entries[0].key == KEY_R || entries[0].key == KEY_E
    ensures QueryFrom(MeaningEntries(entries)) == Some(Blank(tid))
  {
    hide MeaningEntries;
    KeyFacts();
    TopEntries(entries);
    MeaningWithoutKey(entries, KEY_Q);
    MeaningWithoutKey(entries, KEY_A);
    assert entries[1].key == KEY_T;
  }

  /** Every response that is sent is taken for a query without a kind, whatever it says. */
  lemma ResponseIsTakenForQuery(host: Host, m: Response, now: int)
    requires |Text(ResponseTree(host, m))| < TWO_63
    ensures Handled(host, Text(ResponseTree(host, m)), now) == AsQuery(Blank(m.tid))
  {
    hide Text, Datagram, QueryFrom;
    ResponseTop(host, m);
    WithoutName(ResponseTree(host, m).entries, m.tid);
  }

  /** And so is every error. */
  lemma ErrorIsTakenForQuery(host: Host, m: Error, now: int)
    requires -0x8000_0000 <= m.code < 0x8000_0000 && |Text(ErrorTree(m))| < TWO_63
    ensures Handled(host, Text(ErrorTree(m)), now) == AsQuery(Blank(m.tid))
  {
    hide Text, Datagram, QueryFrom;
    DatagramOfTree(ErrorTree(m));
    WithoutName(ErrorTree(m).entries, m.tid);
  }

  /** Queries are taken for what they are. */
  lemma QueryIsTakenForQuery(host: Host, m: Query, now: int)
    requires m.queryType.Some? && |Text(QueryTree(m))| < TWO_63
    ensures Handled(host, Text(QueryTree(m)), now) == AsQuery(NormalQuery(m))
  {
    hide Text, QueryTree, DecodedQuery;
    QueryRoundTrip(m);
  }

  // ----- messages of other programs -----

  /** The arguments of a query, by their names in BEP 5, whoever wrote it and in whatever order. */
  lemma QueryIsRead(data: seq<byte>, d: map<seq<byte>, Value>, args: map<seq<byte>, Value>, q: Query)
    requires Datagram(data) == Some(d) && DecodedQuery(data) == Some(q) && Ascii("a") in d && d[Ascii("a")] == Dict(args)
    ensures Ascii("t") in d && d[Ascii("t")].Str? ==> q.tid == d[Ascii("t")].s
    ensures forall id: Id | Ascii("id") in args && args[Ascii("id")] == Str(id) :: q.id == id
    ensures forall id: Id | Ascii("target") in args && args[Ascii("target")] == Str(id) :: q.target == Some(id)
    ensures forall id: Id | Ascii("info_hash") in args && args[Ascii("info_hash")] == Str(id) :: q.infoHash == Some(id)
    ensures forall port: Port | Ascii("port") in args && args[Ascii("port")] == Integer(port) :: q.port == Some(port)
    ensures forall token | Ascii("token") in args && args[Ascii("token")] == Str(token) :: q.token == Some(token)
    ensures forall n | Ascii("implied_port") in args && args[Ascii("implied_port")] == Integer(n) :: q.impliedPort == Some(n != 0)
    ensures Ascii("target") !in args ==> q.target == None
    ensures Ascii("info_hash") !in args ==> q.infoHash == None
    ensures Ascii("port") !in args ==> q.port == None
    ensures Ascii("token") !in args ==> q.token == None
    ensures Ascii("implied_port") !in args ==> q.impliedPort == None
  {
    hide Ascii, Datagram;
  }

  /** The values of a response. */
  lemma ResponseIsRead(host: Host, data: seq<byte>, now: int, d: map<seq<byte>, Value>, r: map<seq<byte>, Value>)
    requires Datagram(data) == Some(d) && Ascii("r") in d && d[Ascii("r")] == Dict(r)
    ensures DecodedResponse(host, data, now).Some?
    ensures var m := DecodedResponse(host, data, now).value;
      && (Ascii("t") in d && d[Ascii("t")].Str? ==> m.tid == d[Ascii("t")].s)
      && (forall id: Id | Ascii("id") in r && r[Ascii("id")] == Str(id) :: m.id == id)
      && (forall s | Ascii("nodes") in r && r[Ascii("nodes")] == Str(s) :: m.nodes == Some(NodesOf(host, s, now)))
      && (forall s | Ascii("token") in r && r[Ascii("token")] == Str(s) :: m.token == Some(s))
      && (forall items | Ascii("values") in r && r[Ascii("values")] == List(items) && PeersOf(items) != [] :: m.peers == Some(PeersOf(items)))
      && (Ascii("nodes") !in r ==> m.nodes == None) && (Ascii("token") !in r ==> m.token == None)
      && (Ascii("values") !in r ==> m.peers == None)
  {
    hide Ascii, Datagram;
  }

  /** The code and the text of an error. */
  lemma ErrorIsRead(data: seq<byte>, d: map<seq<byte>, Value>, code: int, message: seq<byte>, more: seq<Value>)
    requires Datagram(data) == Some(d) && -0x8000_0000 <= code < 0x8000_0000
    requires Ascii("e") in d && d[Ascii("e")] == List([Integer(code), Str(message)] + more)
    ensures DecodedError(data).Some? && DecodedError(data).value.code == code && DecodedError(data).value.message == message
  {
    hide Ascii, Datagram;
    assert ([Integer(code), Str(message)] + more)[0] == Integer(code) && ([Integer(code), Str(message)] + more)[1] == Str(message);
  }

  // ----- ports on the wire -----

  /** Compact node info of BEP 5: identifier, address, and the port in network byte order. */
  function StandardRecord(n: DHTNode): (r: seq<byte>)
    ensures |r| == 26
  {
    n.id + n.ip + [n.port / 256, n.port % 256]
  }

  /** Peers are sent as BEP 5 says: the address, and the port in network byte order. */
  lemma PeerIsStandard(n: DHTNode)
    ensures PeerText(n) == StandardRecord(n)[20..]
  {
  }

  /**
   * The compact nodes that are sent are those of the standard if and only if the host is big-endian or the two bytes of the
   * port are equal: elsewhere they are exchanged twice, by the conversion and by writing the higher byte first.
   */
  lemma RecordIsStandardIff(host: Host, n: DHTNode)
    ensures CompactNode(host, n) == StandardRecord(n) <==> host == BigEndian || n.port / 256 == n.port % 256
  {
    var port := Swapped(host, n.port);
    assert CompactNode(host, n)[24] == port / 256 && CompactNode(host, n)[25] == port % 256;
    assert StandardRecord(n)[24] == n.port / 256 && StandardRecord(n)[25] == n.port % 256;
  }

  /** And the compact nodes of the standard are read right under the same condition. */
  lemma StandardIsReadIff(host: Host, n: DHTNode, now: int)
    ensures NodeAt(host, StandardRecord(n), 0, now) == Fresh(n, now) <==> host == BigEndian || n.port / 256 == n.port % 256
  {
    var data := StandardRecord(n);
    RecordParts(data, 0, n.id, n.ip, n.port / 256, n.port % 256);
    assert data[0..26] == data;
    var high: nat, low: nat := n.port / 256, n.port % 256;
    assert n.port == 256 * high + low;
  }

  // ----- nodes that were only heard of -----

  /**
   * A node from the compact nodes of any message is GOOD as soon as it is in the table, although it never answered; and one
   * that the table knows is replaced by it, even when three failures had made that one BAD.
   */
  lemma HearsayIsGood(t: Table, host: Host, data: seq<byte>, k: nat, now: int)
    requires TableOk(t) && k < |data| / 26 && NodeAt(host, data, 26 * k, now).id != t.ownId
    ensures var node := NodesOf(host, data, now)[k];
      && BucketFor(t, node.id) < BUCKETS && QualityOf(node, now) == GOOD
      && ((exists n | n in t.buckets[BucketFor(t, node.id)] :: n.id == node.id) ==>
            node in AddNode(t, node, now).buckets[BucketFor(t, node.id)])
  {
    hide AddNode;
    AddStoresIff(t, NodesOf(host, data, now)[k], now);
  }
}
