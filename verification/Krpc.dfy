/** The messages of the DHT protocol: hand-written encoders, and decoders over the generic parser. */
module Krpc {
  import opened Bytes
  import opened Bencode
  import opened BencodeParser
  import opened BencodeReader
  import opened Fields
  import opened NodeId
  import opened RoutingTable

  datatype QueryType = PING | FIND_NODE | GET_PEERS | ANNOUNCE_PEER

  /** Without a query type, the field of the decoded message was never set. */
  datatype Query = Query(
    tid: seq<byte>,
    queryType: Option<QueryType>,
    id: Id,
    target: Option<Id>,
    infoHash: Option<Id>,
    port: Option<Port>,
    token: Option<seq<byte>>,
    impliedPort: Option<bool>)

  datatype Response = Response(
    tid: seq<byte>,
    id: Id,
    nodes: Option<seq<DHTNode>>,
    peers: Option<seq<DHTNode>>,
    token: Option<seq<byte>>)

  datatype Error = Error(tid: seq<byte>, code: int, message: seq<byte>)

  function ZeroId(): Id { seq(20, _ => 0) }

  const KEY_A: seq<byte> := Ascii("a")
  const KEY_Q: seq<byte> := Ascii("q")
  const KEY_R: seq<byte> := Ascii("r")
  const KEY_E: seq<byte> := Ascii("e")
  const KEY_T: seq<byte> := Ascii("t")
  const KEY_Y: seq<byte> := Ascii("y")
  const KEY_ID: seq<byte> := Ascii("id")
  const KEY_TARGET: seq<byte> := Ascii("target")
  const KEY_INFO_HASH: seq<byte> := Ascii("info_hash")
  const KEY_PORT: seq<byte> := Ascii("port")
  const KEY_TOKEN: seq<byte> := Ascii("token")
  const KEY_IMPLIED_PORT: seq<byte> := Ascii("implied_port")
  const KEY_NODES: seq<byte> := Ascii("nodes")
  const KEY_VALUES: seq<byte> := Ascii("values")

  lemma KeyFacts()
    ensures |KEY_A| == |KEY_Q| == |KEY_R| == |KEY_E| == |KEY_T| == |KEY_Y| == 1
    ensures KEY_A[0] == 97 && KEY_Q[0] == 113 && KEY_R[0] == 114 && KEY_E[0] == 101 && KEY_T[0] == 116 && KEY_Y[0] == 121
    ensures |KEY_ID| == 2 && |KEY_TARGET| == 6 && |KEY_INFO_HASH| == 9 && |KEY_PORT| == 4 && |KEY_TOKEN| == 5
    ensures |KEY_IMPLIED_PORT| == 12 && |KEY_NODES| == 5 && |KEY_VALUES| == 6
    ensures KEY_TOKEN[0] == 116 && KEY_NODES[0] == 110
  {
  }

  // ----- what the decoders read out of a value -----

  function StringOf(v: Value): seq<byte> { if v.Str? then v.s else [] }

  function IntegerOf(v: Value): int { if v.Integer? then v.n else 0 }

  function StringAt(d: map<seq<byte>, Value>, key: seq<byte>): Option<seq<byte>> {
    if key in d then Some(StringOf(d[key])) else None
  }

  function IdAt(d: map<seq<byte>, Value>, key: seq<byte>): Option<Id> {
    if key in d && |StringOf(d[key])| == 20 then Some(StringOf(d[key])) else None
  }

  function DictAt(d: map<seq<byte>, Value>, key: seq<byte>): map<seq<byte>, Value> {
    if key in d && d[key].Dict? then d[key].values else map[]
  }

  function GetOr<T>(x: Option<T>, default: T): T { if x.Some? then x.value else default }

  function QueryName(t: QueryType): seq<byte> {
    match t
    case PING => Ascii("ping")
    case FIND_NODE => Ascii("find_node")
    case GET_PEERS => Ascii("get_peers")
    case ANNOUNCE_PEER => Ascii("announce_peer")
  }

  function QueryTypeOf(name: seq<byte>): Option<QueryType> {
    if name == Ascii("ping") then Some(PING)
    else if name == Ascii("find_node") then Some(FIND_NODE)
    else if name == Ascii("get_peers") then Some(GET_PEERS)
    else if name == Ascii("announce_peer") then Some(ANNOUNCE_PEER)
    else None
  }

  lemma QueryNameRead(t: QueryType)
    ensures QueryTypeOf(QueryName(t)) == Some(t)
  {
    assert QueryName(FIND_NODE)[0] == 102 && QueryName(GET_PEERS)[0] == 103;
  }

  /** A whole datagram as a dictionary; exceptions of the parser are caught. */
  function Datagram(data: seq<byte>): Option<map<seq<byte>, Value>> {
    match ParseRun(data)
    case Ended(Ok(Dict(values), _)) => Some(values)
    case _ => None
  }

  // ----- queries -----

  /** A query as it is written: the key order of the encoder. */
  function QueryTree(m: Query): Tree
    requires m.queryType.Some?
  {
    DictTree([Entry(KEY_A, DictTree(Present(QueryFields(m)))),
              Entry(KEY_Q, StrTree(QueryName(m.queryType.value))),
              Entry(KEY_T, StrTree(m.tid)),
              Entry(KEY_Y, StrTree(KEY_Q))])
  }

  function StringField(key: seq<byte>, s: Option<seq<byte>>): Field {
    Field(key, if s.Some? then Some(StrTree(s.value)) else None)
  }

  function QueryFields(m: Query): seq<Field> {
    [StringField(KEY_ID, Some(m.id)),
     StringField(KEY_TARGET, m.target),
     StringField(KEY_INFO_HASH, m.infoHash),
     Field(KEY_PORT, if m.port.Some? then Some(IntTree(m.port.value)) else None),
     StringField(KEY_TOKEN, m.token),
     Field(KEY_IMPLIED_PORT, if m.impliedPort == Some(true) then Some(IntTree(1)) else None)]
  }

  function QueryFrom(d: map<seq<byte>, Value>): Option<Query> {
    if KEY_Q in d && QueryTypeOf(StringOf(d[KEY_Q])).None? then None
    else
      var args := DictAt(d, KEY_A);
      Some(Query(
             GetOr(StringAt(d, KEY_T), []),
             if KEY_Q in d then QueryTypeOf(StringOf(d[KEY_Q])) else None,
             GetOr(IdAt(args, KEY_ID), ZeroId()),
             IdAt(args, KEY_TARGET),
             IdAt(args, KEY_INFO_HASH),
             if KEY_PORT in args then Some(IntegerOf(args[KEY_PORT]) % 0x1_0000) else None,
             StringAt(args, KEY_TOKEN),
             if KEY_IMPLIED_PORT in args then Some(IntegerOf(args[KEY_IMPLIED_PORT]) != 0) else None))
  }

  function DecodedQuery(data: seq<byte>): Option<Query> {
    match Datagram(data)
    case None => None
    case Some(d) => QueryFrom(d)
  }

  /** What is read back: a false implied_port is not written. */
  function NormalQuery(m: Query): Query {
    m.(impliedPort := if m.impliedPort == Some(true) then Some(true) else None)
  }

  /** The four entries of a message are found under their keys. */
  lemma TopEntries(entries: seq<Entry>)
    requires forall i, j | 0 <= i < j < |entries| :: entries[i].key != entries[j].key
    ensures forall i | 0 <= i < |entries| ::
      entries[i].key in MeaningEntries(entries) && MeaningEntries(entries)[entries[i].key] == Meaning(entries[i].tree)
  {
    forall i | 0 <= i < |entries|
      ensures entries[i].key in MeaningEntries(entries) && MeaningEntries(entries)[entries[i].key] == Meaning(entries[i].tree)
    {
      MeaningOfLastKey(entries, i);
    }
  }

  lemma DatagramOfTree(t: Tree)
    requires t.DictTree? && Representable(t) && |Text(t)| < TWO_63
    ensures Datagram(Text(t)) == Some(MeaningEntries(t.entries))
  {
    ReadsTree(Text(t), 0, t);
    EndsWithoutWrap(Text(t));
  }

  lemma QueryFieldsFound(m: Query)
    ensures forall i | 0 <= i < 6 :: FieldFound(MeaningEntries(Present(QueryFields(m))), QueryFields(m)[i])
    ensures forall e | e in Present(QueryFields(m)) :: Representable(e.tree)
  {
    KeyFacts();
    FieldsFound(QueryFields(m));
    PresentRepresentable(QueryFields(m));
  }

  lemma QueryArguments(m: Query)
    ensures var args := MeaningEntries(Present(QueryFields(m)));
      && IdAt(args, KEY_ID) == Some(m.id)
      && IdAt(args, KEY_TARGET) == m.target
      && IdAt(args, KEY_INFO_HASH) == m.infoHash
      && (KEY_PORT in args <==> m.port.Some?) && (m.port.Some? ==> args[KEY_PORT] == Integer(m.port.value))
      && StringAt(args, KEY_TOKEN) == m.token
      && (KEY_IMPLIED_PORT in args <==> m.impliedPort == Some(true))
      && (KEY_IMPLIED_PORT in args ==> args[KEY_IMPLIED_PORT] == Integer(1))
  {
    var args, fields := MeaningEntries(Present(QueryFields(m))), QueryFields(m);
    QueryFieldsFound(m);
    assert FieldFound(args, fields[0]) && FieldFound(args, fields[1]) && FieldFound(args, fields[2])
        && FieldFound(args, fields[3]) && FieldFound(args, fields[4]) && FieldFound(args, fields[5]);
  }

  /** Encoding a query and decoding it gives the query back. */
  lemma QueryRoundTrip(m: Query)
    requires m.queryType.Some? && |Text(QueryTree(m))| < TWO_63
    ensures DecodedQuery(Text(QueryTree(m))) == Some(NormalQuery(m))
  {
    QueryTop(m);
    QueryArguments(m);
    QueryNameRead(m.queryType.value);
  }

  lemma QueryTop(m: Query)
    requires m.queryType.Some? && |Text(QueryTree(m))| < TWO_63
    ensures var d := MeaningEntries(QueryTree(m).entries);
      && Datagram(Text(QueryTree(m))) == Some(d)
      && StringAt(d, KEY_T) == Some(m.tid)
      && KEY_Q in d && StringOf(d[KEY_Q]) == QueryName(m.queryType.value)
      && DictAt(d, KEY_A) == MeaningEntries(Present(QueryFields(m)))
  {
    hide Text, Datagram, Present, QueryFields, MeaningEntries;
    var t := QueryTree(m);
    KeyFacts();
    QueryFieldsFound(m);
    TopEntries(t.entries);
    DatagramOfTree(t);
    assert t.entries[0].key == KEY_A && t.entries[1].key == KEY_Q && t.entries[2].key == KEY_T;
  }

  // ----- compact nodes and peers -----

  /** The byte order of the host, which `htons` and `ntohs` depend on. */
  datatype Host = LittleEndian | BigEndian

  function Swapped(host: Host, port: Port): (r: Port) {
    if host.LittleEndian? then port % 256 * 256 + port / 256 else port
  }

  function CompactNode(host: Host, n: DHTNode): (r: seq<byte>)
    ensures |r| == 26
  {
    n.id + n.ip + [Swapped(host, n.port) / 256, Swapped(host, n.port) % 256]
  }

  function CompactNodes(host: Host, nodes: seq<DHTNode>): (r: seq<byte>)
    ensures |r| == 26 * |nodes|
  {
    if nodes == [] then [] else CompactNodes(host, nodes[..|nodes| - 1]) + CompactNode(host, nodes[|nodes| - 1])
  }

  function NodeAt(host: Host, data: seq<byte>, i: nat, now: int): DHTNode
    requires i + 26 <= |data|
  {
    var high: nat, low: nat := data[i + 24], data[i + 25];
    DHTNode(data[i..i + 20], data[i + 20..i + 24], Swapped(host, high * 256 + low), now, now - 20 * MINUTE, 0)
  }

  /** The complete records of compact nodes; what is left over at the end is ignored. */
  function NodesOf(host: Host, data: seq<byte>, now: int): (r: seq<DHTNode>)
    ensures |r| == |data| / 26
  {
    seq(|data| / 26, k requires 0 <= k < |data| / 26 => NodeAt(host, data, 26 * k, now))
  }

  method EncodeNodes(host: Host, nodes: seq<DHTNode>) returns (data: seq<byte>)
    ensures data == CompactNodes(host, nodes)
  {
    data := [];
    for k := 0 to |nodes|
      invariant data == CompactNodes(host, nodes[..k])
    {
      assert nodes[..k + 1][..k] == nodes[..k];
      var portBe := Swapped(host, nodes[k].port);
      data := data + (nodes[k].id + nodes[k].ip + [portBe / 256, portBe % 256]);
    }
    assert nodes[..|nodes|] == nodes;
  }

  method DecodeNodes(host: Host, data: seq<byte>, now: int) returns (nodes: seq<DHTNode>)
    ensures nodes == NodesOf(host, data, now)
  {
    nodes := [];
    var i := 0;
    while i + 26 <= |data|
      invariant i == 26 * |nodes| && i <= |data|
      invariant forall k | 0 <= k < |nodes| :: nodes[k] == NodeAt(host, data, 26 * k, now)
    {
      nodes := nodes + [NodeAt(host, data, i, now)];
      i := i + 26;
    }
  }

  /** A node as it is read: seen now, not queried for 20 minutes. */
  function Fresh(n: DHTNode, now: int): DHTNode {
    n.(lastSeen := now, lastQuery := now - 20 * MINUTE, failedQueries := 0)
  }

  function FreshAll(nodes: seq<DHTNode>, now: int): (r: seq<DHTNode>)
    ensures |r| == |nodes|
  {
    seq(|nodes|, k requires 0 <= k < |nodes| => Fresh(nodes[k], now))
  }

  lemma {:induction false} CompactAt(host: Host, nodes: seq<DHTNode>, k: nat)
    requires k < |nodes|
    ensures CompactNodes(host, nodes)[26 * k..26 * k + 26] == CompactNode(host, nodes[k])
  {
    if k < |nodes| - 1 {
      CompactAt(host, nodes[..|nodes| - 1], k);
    }
  }

  lemma NodeRead(host: Host, data: seq<byte>, i: nat, n: DHTNode, now: int)
    requires i + 26 <= |data| && data[i..i + 26] == CompactNode(host, n)
    ensures NodeAt(host, data, i, now) == Fresh(n, now)
  {
    RecordParts(data, i, n.id, n.ip, Swapped(host, n.port) / 256, Swapped(host, n.port) % 256);
    assert Swapped(host, Swapped(host, n.port)) == n.port;
  }

  lemma RecordParts(data: seq<byte>, i: nat, id: Id, ip: Ip, high: byte, low: byte)
    requires i + 26 <= |data| && data[i..i + 26] == id + ip + [high, low]
    ensures data[i..i + 20] == id && data[i + 20..i + 24] == ip && data[i + 24] == high && data[i + 25] == low
  {
    var record := id + ip + [high, low];
    forall j | 0 <= j < 26 ensures data[i + j] == record[j] {
      assert data[i..i + 26][j] == data[i + j];
    }
    assert At(data, i, record);
    AtSplit(data, i, id + ip, [high, low]);
    AtSplit(data, i, id, ip);
    AtHead(data, i + 24, [high, low]);
    AtSlice(data, i, id);
    AtSlice(data, i + 20, ip);
    assert data[i + 25] == record[25];
  }

  /** Compact nodes decode to what was encoded, on a host of either byte order. */
  lemma NodesRoundTrip(host: Host, nodes: seq<DHTNode>, now: int)
    ensures NodesOf(host, CompactNodes(host, nodes), now) == FreshAll(nodes, now)
  {
    var data := CompactNodes(host, nodes);
    forall k | 0 <= k < |nodes| ensures NodeAt(host, data, 26 * k, now) == Fresh(nodes[k], now) {
      CompactAt(host, nodes, k);
      NodeRead(host, data, 26 * k, nodes[k], now);
    }
  }

  /** A peer of the list "values": address and port in network order. */
  function PeerText(n: DHTNode): (r: seq<byte>)
    ensures |r| == 6
  {
    n.ip + [n.port / 256, n.port % 256]
  }

  /** A peer that was read; only address and port are known. */
  function PeerOf(s: seq<byte>): DHTNode
    requires |s| == 6
  {
    var high: nat, low: nat := s[4], s[5];
    DHTNode(ZeroId(), s[..4], high * 256 + low, 0, 0, 0)
  }

  function Anonymous(n: DHTNode): DHTNode { DHTNode(ZeroId(), n.ip, n.port, 0, 0, 0) }

  function AnonymousAll(nodes: seq<DHTNode>): (r: seq<DHTNode>)
    ensures |r| == |nodes|
  {
    seq(|nodes|, k requires 0 <= k < |nodes| => Anonymous(nodes[k]))
  }

  /** The peers of a list; items that are not strings of six bytes are skipped. */
  function PeersOf(items: seq<Value>): seq<DHTNode> {
    if items == [] then []
    else
      var s := StringOf(items[|items| - 1]);
      PeersOf(items[..|items| - 1]) + (if |s| == 6 then [PeerOf(s)] else [])
  }

  function PeerTrees(peers: seq<DHTNode>): (r: seq<Tree>)
    ensures |r| == |peers|
  {
    seq(|peers|, k requires 0 <= k < |peers| => StrTree(PeerText(peers[k])))
  }

  lemma {:induction false} MeaningItemsAt(items: seq<Tree>)
    ensures |MeaningItems(items)| == |items|
    ensures forall i | 0 <= i < |items| :: MeaningItems(items)[i] == Meaning(items[i])
  {
    if items != [] {
      MeaningItemsAt(items[1..]);
      forall i | 0 <= i < |items| ensures MeaningItems(items)[i] == Meaning(items[i]) {
        if i > 0 {
          assert MeaningItems(items)[i] == MeaningItems(items[1..])[i - 1];
        }
      }
    }
  }

  lemma {:induction false} PeersRead(items: seq<Value>, peers: seq<DHTNode>)
    requires |items| == |peers| && forall i | 0 <= i < |items| :: items[i] == Str(PeerText(peers[i]))
    ensures PeersOf(items) == AnonymousAll(peers)
  {
    hide PeerText, PeerOf, Anonymous;
    if items != [] {
      PeersRead(items[..|items| - 1], peers[..|peers| - 1]);
      PeerRead(peers[|peers| - 1]);
    }
  }

  lemma PeerRead(n: DHTNode)
    ensures |PeerText(n)| == 6 && PeerOf(PeerText(n)) == Anonymous(n)
  {
    assert PeerText(n)[..4] == n.ip;
  }

  // ----- responses -----

  function NonEmpty(nodes: Option<seq<DHTNode>>): bool { nodes.Some? && nodes.value != [] }

  function ResponseFields(host: Host, m: Response): seq<Field> {
    [StringField(KEY_ID, Some(m.id)),
     Field(KEY_NODES, if NonEmpty(m.nodes) then Some(StrTree(CompactNodes(host, m.nodes.value))) else None),
     Field(KEY_VALUES, if NonEmpty(m.peers) then Some(ListTree(PeerTrees(m.peers.value))) else None),
     StringField(KEY_TOKEN, m.token)]
  }

  function ResponseTree(host: Host, m: Response): Tree {
    DictTree([Entry(KEY_R, DictTree(Present(ResponseFields(host, m)))),
              Entry(KEY_T, StrTree(m.tid)),
              Entry(KEY_Y, StrTree(KEY_R))])
  }

  function ResponseFrom(host: Host, d: map<seq<byte>, Value>, now: int): Response {
    var r := DictAt(d, KEY_R);
    var peers := if KEY_VALUES in r && r[KEY_VALUES].List? then PeersOf(r[KEY_VALUES].items) else [];
    Response(GetOr(StringAt(d, KEY_T), []),
             GetOr(IdAt(r, KEY_ID), ZeroId()),
             if KEY_NODES in r then Some(NodesOf(host, StringOf(r[KEY_NODES]), now)) else None,
             if peers != [] then Some(peers) else None,
             StringAt(r, KEY_TOKEN))
  }

  function DecodedResponse(host: Host, data: seq<byte>, now: int): Option<Response> {
    match Datagram(data)
    case None => None
    case Some(d) => Some(ResponseFrom(host, d, now))
  }

  /** What is read back: empty lists are absent, node times start afresh, peers have no identifier. */
  function NormalResponse(m: Response, now: int): Response {
    m.(nodes := if NonEmpty(m.nodes) then Some(FreshAll(m.nodes.value, now)) else None,
       peers := if NonEmpty(m.peers) then Some(AnonymousAll(m.peers.value)) else None)
  }

  lemma ResponseFieldsFound(host: Host, m: Response)
    ensures forall i | 0 <= i < 4 :: FieldFound(MeaningEntries(Present(ResponseFields(host, m))), ResponseFields(host, m)[i])
    ensures forall e | e in Present(ResponseFields(host, m)) :: Representable(e.tree)
  {
    KeyFacts();
    FieldsFound(ResponseFields(host, m));
    PresentRepresentable(ResponseFields(host, m));
  }

  lemma ResponseArguments(host: Host, m: Response)
    ensures var r := MeaningEntries(Present(ResponseFields(host, m)));
      && IdAt(r, KEY_ID) == Some(m.id) && StringAt(r, KEY_TOKEN) == m.token
      && (KEY_NODES in r <==> NonEmpty(m.nodes))
      && (KEY_NODES in r ==> r[KEY_NODES] == Str(CompactNodes(host, m.nodes.value)))
      && (KEY_VALUES in r <==> NonEmpty(m.peers))
      && (KEY_VALUES in r ==> r[KEY_VALUES] == List(MeaningItems(PeerTrees(m.peers.value))))
  {
    var r, fields := MeaningEntries(Present(ResponseFields(host, m))), ResponseFields(host, m);
    ResponseFieldsFound(host, m);
    assert FieldFound(r, fields[0]) && FieldFound(r, fields[1]) && FieldFound(r, fields[2]) && FieldFound(r, fields[3]);
  }

  lemma ValuesRead(peers: seq<DHTNode>)
    ensures PeersOf(MeaningItems(PeerTrees(peers))) == AnonymousAll(peers)
  {
    MeaningItemsAt(PeerTrees(peers));
    PeersRead(MeaningItems(PeerTrees(peers)), peers);
  }

  /** Encoding a response and decoding it gives the response back. */
  lemma ResponseRoundTrip(host: Host, m: Response, now: int)
    requires |Text(ResponseTree(host, m))| < TWO_63
    ensures DecodedResponse(host, Text(ResponseTree(host, m)), now) == Some(NormalResponse(m, now))
  {
    ResponseTop(host, m);
    ResponseArguments(host, m);
    if NonEmpty(m.nodes) {
      NodesRoundTrip(host, m.nodes.value, now);
    }
    if NonEmpty(m.peers) {
      ValuesRead(m.peers.value);
    }
  }

  lemma ResponseTop(host: Host, m: Response)
    requires |Text(ResponseTree(host, m))| < TWO_63
    ensures var d := MeaningEntries(ResponseTree(host, m).entries);
      && Datagram(Text(ResponseTree(host, m))) == Some(d)
      && StringAt(d, KEY_T) == Some(m.tid)
      && DictAt(d, KEY_R) == MeaningEntries(Present(ResponseFields(host, m)))
  {
    hide Text, Datagram, Present, ResponseFields, MeaningEntries;
    var t := ResponseTree(host, m);
    KeyFacts();
    ResponseFieldsFound(host, m);
    TopEntries(t.entries);
    DatagramOfTree(t);
    assert t.entries[0].key == KEY_R && t.entries[1].key == KEY_T;
  }

  // ----- errors -----

  function ErrorTree(m: Error): Tree {
    DictTree([Entry(KEY_E, ListTree([IntTree(m.code), StrTree(m.message)])),
              Entry(KEY_T, StrTree(m.tid)),
              Entry(KEY_Y, StrTree(KEY_E))])
  }

  /** The conversion of a 64-bit number to the 32-bit type of the error code. */
  function ToInt32(n: int): int { (n + 0x8000_0000) % TWO_32 - 0x8000_0000 }

  /** A message without an error list keeps code 0 and no text. */
  function ErrorFrom(d: map<seq<byte>, Value>): Error {
    var items := if KEY_E in d && d[KEY_E].List? then d[KEY_E].items else [];
    Error(GetOr(StringAt(d, KEY_T), []),
          if |items| >= 2 then ToInt32(IntegerOf(items[0])) else 0,
          if |items| >= 2 then StringOf(items[1]) else [])
  }

  function DecodedError(data: seq<byte>): Option<Error> {
    match Datagram(data)
    case None => None
    case Some(d) => Some(ErrorFrom(d))
  }

  /** Encoding an error and decoding it gives the error back. */
  lemma ErrorRoundTrip(m: Error)
    requires -0x8000_0000 <= m.code < 0x8000_0000 && |Text(ErrorTree(m))| < TWO_63
    ensures DecodedError(Text(ErrorTree(m))) == Some(m)
  {
    hide Text, Datagram, MeaningEntries;
    var t := ErrorTree(m);
    KeyFacts();
    TopEntries(t.entries);
    DatagramOfTree(t);
    MeaningItemsAt([IntTree(m.code), StrTree(m.message)]);
    assert t.entries[0].key == KEY_E && t.entries[1].key == KEY_T;
  }
}
