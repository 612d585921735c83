/** Iterative lookups: what is asked, what is in flight and who has answered, over every run of the client. */
module Lookup {
  import opened Bytes
  import opened Endian
  import opened NodeId
  import opened RoutingTable
  import opened Krpc

  const LOOKUP_K: nat := 8
  const LOOKUP_ALPHA: nat := 3
  const QUERY_TIMEOUT_SECONDS: int := 10

  /** `node_key`: address and port. */
  type Key = seq<byte>

  function KeyOf(n: DHTNode): Key { PeerText(n) }

  lemma KeyIsTheEndpoint(a: DHTNode, b: DHTNode)
    ensures KeyOf(a) == KeyOf(b) <==> a.ip == b.ip && a.port == b.port
  {
    assert a.port == 256 * (a.port / 256) + a.port % 256 && b.port == 256 * (b.port / 256) + b.port % 256;
    assert KeyOf(a)[4] == a.port / 256 && KeyOf(a)[5] == a.port % 256;
    assert KeyOf(b)[4] == b.port / 256 && KeyOf(b)[5] == b.port % 256;
    assert KeyOf(a)[..4] == a.ip && KeyOf(b)[..4] == b.ip;
  }

  datatype LookupState = LookupState(
    target: Id,
    kind: QueryType,
    infoHash: Option<Id>,
    shortlist: seq<DHTNode>,
    queried: set<Key>,
    responding: set<Key>,
    inFlight: nat,
    tokens: map<Key, seq<byte>>,
    active: bool)

  /** A query that waits for its answer; `lookup` says which lookup it belongs to, if any. */
  datatype PendingQuery = PendingQuery(sentTime: int, key: Key, lookup: Option<nat>)

  datatype Sent = Sent(key: Key, lookup: Option<nat>)

  /** `generated` counts the transaction identifiers, `sent` records every query that went out. */
  datatype Client = Client(
    lookups: seq<LookupState>,
    pending: map<seq<byte>, PendingQuery>,
    generated: nat,
    sent: seq<Sent>)

  /** The four bytes of a 32-bit counter. */
  function Tid(n: nat): seq<byte> { Endian.BigEndian(n % TWO_32, 4) }

  lemma TidValue(n: nat)
    requires n < TWO_32
    ensures FromBigEndian(Tid(n)) == n
  {
    FourBytes();
    assert n % TWO_32 == n;
    BigEndianValue(n, 4);
  }

  lemma FourBytes()
    ensures Pow256(4) == TWO_32
  {
    assert Pow256(2) == 256 * 256 && Pow256(3) == 256 * Pow256(2);
  }

  // ----- continue_lookup -----

  /** `std::unique` by identifier: the first of each group of neighbours. */
  function Uniqued(nodes: seq<DHTNode>): (r: seq<DHTNode>)
    ensures nodes != [] ==> r != [] && r[|r| - 1].id == nodes[|nodes| - 1].id
    ensures forall n | n in r :: n in nodes
  {
    if nodes == [] then []
    else
      var init, last := nodes[..|nodes| - 1], nodes[|nodes| - 1];
      var before := Uniqued(init);
      if before != [] && before[|before| - 1].id == last.id then before else before + [last]
  }

  function Capped(nodes: seq<DHTNode>): seq<DHTNode> {
    if |nodes| > LOOKUP_K * 4 then nodes[..LOOKUP_K * 4] else nodes
  }

  /** A result of `std::sort` by distance. */
  predicate IsOrder(order: seq<DHTNode>, nodes: seq<DHTNode>, target: Id) {
    multiset(order) == multiset(nodes) && SortedByDistance(order, target)
  }

  datatype Choice = Choice(queried: set<Key>, inFlight: nat, chosen: seq<DHTNode>)

  /** Nodes not asked before, closest first, while fewer than three queries are in flight. */
  function Choose(nodes: seq<DHTNode>, c: Choice): Choice {
    if nodes == [] || c.inFlight >= LOOKUP_ALPHA then c
    else if KeyOf(nodes[0]) in c.queried then Choose(nodes[1..], c)
    else Choose(nodes[1..], Choice(c.queried + {KeyOf(nodes[0])}, c.inFlight + 1, c.chosen + [nodes[0]]))
  }

  function CountQueried(nodes: seq<DHTNode>, queried: set<Key>): (n: nat)
    ensures n <= |nodes|
  {
    if nodes == [] then 0
    else CountQueried(nodes[..|nodes| - 1], queried) + (if KeyOf(nodes[|nodes| - 1]) in queried then 1 else 0)
  }

  function Closest(nodes: seq<DHTNode>): seq<DHTNode> {
    if |nodes| > LOOKUP_K then nodes[..LOOKUP_K] else nodes
  }

  /** A query of type GET_PEERS needs an info hash. */
  predicate Sends(lk: LookupState) { lk.kind == FIND_NODE || (lk.kind == GET_PEERS && lk.infoHash.Some?) }

  function SendOne(c: Client, key: Key, lookup: Option<nat>, now: int): Client {
    Client(c.lookups, c.pending[Tid(c.generated) := PendingQuery(now, key, lookup)], c.generated + 1,
           c.sent + [Sent(key, lookup)])
  }

  function SendAll(c: Client, nodes: seq<DHTNode>, l: nat, now: int): (r: Client)
    ensures r.lookups == c.lookups && r.generated == c.generated + |nodes|
    decreases |nodes|
  {
    if nodes == [] then c else SendAll(SendOne(c, KeyOf(nodes[0]), Some(l), now), nodes[1..], l, now)
  }

  /** The lookup after its list is put in order and the next nodes are chosen. */
  function Advanced(lk: LookupState, order: seq<DHTNode>): LookupState {
    var nodes := Capped(Uniqued(order));
    var choice := Choose(nodes, Choice(lk.queried, lk.inFlight, []));
    var activeCount := CountQueried(Closest(nodes), lk.queried);
    lk.(shortlist := nodes, queried := choice.queried, inFlight := choice.inFlight,
        active := lk.active && !(choice.inFlight == 0 && activeCount == |choice.queried|))
  }

  function Chosen(lk: LookupState, order: seq<DHTNode>): seq<DHTNode> {
    Choose(Capped(Uniqued(order)), Choice(lk.queried, lk.inFlight, [])).chosen
  }

  function ContinueLookup(c: Client, l: nat, order: seq<DHTNode>, now: int): (r: Client)
    requires l < |c.lookups|
    ensures |r.lookups| == |c.lookups| && r.generated >= c.generated
  {
    var lk := c.lookups[l];
    var c' := c.(lookups := c.lookups[l := Advanced(lk, order)]);
    if Sends(lk) then SendAll(c', Chosen(lk, order), l, now) else c'
  }

  // ----- handle_lookup_response -----

  /** Appends the nodes whose endpoint is not in the list yet. */
  function Discovered(shortlist: seq<DHTNode>, seen: set<Key>, nodes: seq<DHTNode>): seq<DHTNode>
    decreases |nodes|
  {
    if nodes == [] then shortlist
    else if KeyOf(nodes[0]) in seen then Discovered(shortlist, seen, nodes[1..])
    else Discovered(shortlist + [nodes[0]], seen + {KeyOf(nodes[0])}, nodes[1..])
  }

  function Keys(nodes: seq<DHTNode>): set<Key> { set n | n in nodes :: KeyOf(n) }

  function Answered(lk: LookupState, key: Key, msg: Response): LookupState {
    lk.(responding := lk.responding + {key},
        tokens := if msg.token.Some? then lk.tokens[key := msg.token.value] else lk.tokens,
        inFlight := if lk.inFlight > 0 then lk.inFlight - 1 else 0,
        shortlist := if msg.nodes.Some? then Discovered(lk.shortlist, Keys(lk.shortlist), msg.nodes.value) else lk.shortlist)
  }

  // ----- steps -----

  datatype Event =
    | Start(target: Id, kind: QueryType, infoHash: Option<Id>, nodes: seq<DHTNode>, order: seq<DHTNode>, now: int)
    | Answer(msg: Response, order: seq<DHTNode>, now: int)
    | Fail(tid: seq<byte>)
    | Expire(now: int)
    | Ask(key: Key, now: int)

  function NewLookup(target: Id, kind: QueryType, infoHash: Option<Id>, nodes: seq<DHTNode>): LookupState {
    LookupState(target, kind, infoHash, nodes, {}, {}, 0, map[], true)
  }

  function Started(c: Client, lk: LookupState): Client {
    c.(lookups := c.lookups + [lk], generated := c.generated + 1)
  }

  predicate OfLookup(c: Client, tid: seq<byte>) {
    tid in c.pending && c.pending[tid].lookup.Some? && c.pending[tid].lookup.value < |c.lookups|
  }

  function AnsweredLookup(c: Client, msg: Response): LookupState
    requires OfLookup(c, msg.tid)
  {
    Answered(c.lookups[c.pending[msg.tid].lookup.value], c.pending[msg.tid].key, msg)
  }

  /** `order` is what the sort of this step makes of the list. */
  predicate Legal(c: Client, e: Event) {
    match e
    case Start(target, _, _, nodes, order, _) => IsOrder(order, nodes, target)
    case Answer(msg, order, _) => OfLookup(c, msg.tid) ==>
      IsOrder(order, AnsweredLookup(c, msg).shortlist, AnsweredLookup(c, msg).target)
    case _ => true
  }

  predicate Expired(q: PendingQuery, now: int) { Seconds(now - q.sentTime) > QUERY_TIMEOUT_SECONDS }

  function HandleResponse(c: Client, msg: Response, order: seq<DHTNode>, now: int): (r: Client)
    ensures r.generated >= c.generated
  {
    if msg.tid !in c.pending then c
    else
      var c' := if OfLookup(c, msg.tid) then
                  var l := c.pending[msg.tid].lookup.value;
                  ContinueLookup(c.(lookups := c.lookups[l := AnsweredLookup(c, msg)]), l, order, now)
                else c;
      c'.(pending := c'.pending - {msg.tid})
  }

  function Apply(c: Client, e: Event): (r: Client)
    ensures r.generated >= c.generated
  {
    match e
    case Start(target, kind, infoHash, nodes, order, now) =>
      ContinueLookup(Started(c, NewLookup(target, kind, infoHash, nodes)), |c.lookups|, order, now)
    case Answer(msg, order, now) => HandleResponse(c, msg, order, now)
    case Fail(tid) => c.(pending := c.pending - {tid})
    case Expire(now) => c.(pending := map tid | tid in c.pending && !Expired(c.pending[tid], now) :: c.pending[tid])
    case Ask(key, now) => SendOne(c, key, None, now)
  }

  // ----- the invariant -----

  /** Distances to the target increase strictly, as 160-bit numbers. */
  predicate EverFarther(nodes: seq<DHTNode>, target: Id) {
    forall i, j | 0 <= i < j < |nodes| :: Far(nodes[i], target) < Far(nodes[j], target)
  }

  predicate ShortlistOk(lk: LookupState) {
    |lk.shortlist| <= 32 && UniqueIds(lk.shortlist) && EverFarther(lk.shortlist, lk.target)
  }

  predicate LookupOk(lk: LookupState) {
    && lk.responding <= lk.queried
    && |lk.queried| == lk.inFlight + |lk.responding|
    && lk.inFlight <= 3
    && lk.tokens.Keys <= lk.responding
  }

  predicate TidsOk(c: Client) {
    forall tid | tid in c.pending :: |tid| == 4 && FromBigEndian(tid) < c.generated
  }

  /** Waiting queries of a lookup go to different endpoints that were asked and have not answered. */
  predicate PendingOk(c: Client, l: nat, lk: LookupState) {
    && (forall tid | tid in c.pending && c.pending[tid].lookup == Some(l) ::
          c.pending[tid].key in lk.queried && c.pending[tid].key !in lk.responding)
    && (forall t, u | t in c.pending && u in c.pending && c.pending[t].lookup == Some(l) == c.pending[u].lookup
          && c.pending[t].key == c.pending[u].key :: t == u)
  }

  /** No endpoint is asked twice in a lookup. */
  predicate SentOk(c: Client, l: nat, lk: LookupState) {
    && (forall i | 0 <= i < |c.sent| && c.sent[i].lookup == Some(l) :: c.sent[i].key in lk.queried)
    && (forall i, j | 0 <= i < j < |c.sent| && c.sent[i].lookup == Some(l) == c.sent[j].lookup :: c.sent[i].key != c.sent[j].key)
  }

  predicate NoStrayQueries(c: Client) {
    && (forall tid | tid in c.pending && c.pending[tid].lookup.Some? :: c.pending[tid].lookup.value < |c.lookups|)
    && (forall i | 0 <= i < |c.sent| && c.sent[i].lookup.Some? :: c.sent[i].lookup.value < |c.lookups|)
  }

  predicate QueriesOk(c: Client) {
    && TidsOk(c) && NoStrayQueries(c)
    && forall l | 0 <= l < |c.lookups| :: PendingOk(c, l, c.lookups[l]) && SentOk(c, l, c.lookups[l])
  }

  predicate Invariant(c: Client) {
    && QueriesOk(c)
    && forall l | 0 <= l < |c.lookups| :: LookupOk(c.lookups[l]) && ShortlistOk(c.lookups[l])
  }

  // ----- the list -----

  lemma NotFarther(a: DHTNode, b: DHTNode, target: Id)
    requires !Closer(b, a, target)
    ensures Far(a, target) <= Far(b, target) && (a.id != b.id ==> Far(a, target) < Far(b, target))
  {
    var x, y := Distance(a.id, target), Distance(b.id, target);
    LexTotal(x, y);
    OrderIsNumeric(x, y);
    OrderIsNumeric(y, x);
    if a.id != b.id && x == y {
      DistanceInjective(a.id, b.id, target);
    }
  }

  function Ids(nodes: seq<DHTNode>): set<Id> {
    set n | n in nodes :: n.id
  }

  lemma IdsOfLast(nodes: seq<DHTNode>, n: DHTNode)
    ensures Ids(nodes + [n]) == Ids(nodes) + {n.id}
  {
  }

  lemma IdOfLast(nodes: seq<DHTNode>)
    requires nodes != []
    ensures nodes[|nodes| - 1].id in Ids(nodes)
  {
  }

  lemma {:induction false} UniquedKeepsIds(nodes: seq<DHTNode>)
    ensures Ids(Uniqued(nodes)) == Ids(nodes)
  {
    hide Ids;
    if nodes != [] {
      var init, last := nodes[..|nodes| - 1], nodes[|nodes| - 1];
      var before := Uniqued(init);
      UniquedKeepsIds(init);
      assert nodes == init + [last];
      IdsOfLast(init, last);
      if before != [] && before[|before| - 1].id == last.id {
        IdOfLast(before);
      } else {
        IdsOfLast(before, last);
      }
    }
  }

  lemma {:induction false} UniquedIsFarther(nodes: seq<DHTNode>, target: Id)
    requires SortedByDistance(nodes, target)
    ensures EverFarther(Uniqued(nodes), target)
  {
    if nodes != [] {
      var init, last := nodes[..|nodes| - 1], nodes[|nodes| - 1];
      UniquedIsFarther(init, target);
      var before := Uniqued(init);
      if init != [] && before[|before| - 1].id != last.id {
        NotFarther(init[|init| - 1], last, target);
      }
    }
  }

  /** Of a sorted list one node of each identifier is left, in strictly increasing distance. */
  lemma UniquedIsStrict(nodes: seq<DHTNode>, target: Id)
    requires SortedByDistance(nodes, target)
    ensures EverFarther(Uniqued(nodes), target)
    ensures Ids(Uniqued(nodes)) == Ids(nodes)
  {
    hide Uniqued, EverFarther, SortedByDistance, Ids;
    UniquedIsFarther(nodes, target);
    UniquedKeepsIds(nodes);
  }

  lemma PreparedIsStrict(order: seq<DHTNode>, lk: LookupState)
    requires SortedByDistance(order, lk.target)
    ensures ShortlistOk(Advanced(lk, order))
  {
    UniquedIsFarther(order, lk.target);
    StrictPrefix(Uniqued(order), Capped(Uniqued(order)), lk.target);
  }

  lemma StrictPrefix(all: seq<DHTNode>, nodes: seq<DHTNode>, target: Id)
    requires nodes <= all && EverFarther(all, target)
    ensures EverFarther(nodes, target) && UniqueIds(nodes)
  {
    forall i, j | 0 <= i < j < |nodes| ensures nodes[i].id != nodes[j].id {
      assert Far(all[i], target) < Far(all[j], target);
    }
  }

  // ----- the choice -----

  predicate DifferentKeys(nodes: seq<DHTNode>) {
    forall i, j | 0 <= i < j < |nodes| :: KeyOf(nodes[i]) != KeyOf(nodes[j])
  }

  /** What a choice adds to the queried endpoints of before. */
  predicate ChoiceFrom(queried: set<Key>, inFlight: nat, c: Choice) {
    && DifferentKeys(c.chosen)
    && c.queried == queried + Keys(c.chosen) && Keys(c.chosen) !! queried
    && c.inFlight == inFlight + |c.chosen| && |c.queried| == |queried| + |c.chosen|
  }

  lemma {:induction false} ChooseAdds(nodes: seq<DHTNode>, c: Choice, queried: set<Key>, inFlight: nat)
    requires ChoiceFrom(queried, inFlight, c) && c.inFlight <= 3
    ensures ChoiceFrom(queried, inFlight, Choose(nodes, c)) && Choose(nodes, c).inFlight <= 3
    decreases |nodes|
  {
    if nodes != [] && c.inFlight < LOOKUP_ALPHA {
      var next := ChooseFirst(nodes, c);
      if next != c {
        ChooseOne(c, nodes[0], queried, inFlight);
      }
      ChooseAdds(nodes[1..], next, queried, inFlight);
    }
  }

  /** One turn of the loop. */
  lemma ChooseFirst(nodes: seq<DHTNode>, c: Choice) returns (next: Choice)
    requires nodes != [] && c.inFlight < LOOKUP_ALPHA
    ensures Choose(nodes, c) == Choose(nodes[1..], next)
    ensures if KeyOf(nodes[0]) in c.queried then next == c
            else next == Choice(c.queried + {KeyOf(nodes[0])}, c.inFlight + 1, c.chosen + [nodes[0]])
  {
    next := if KeyOf(nodes[0]) in c.queried then c
            else Choice(c.queried + {KeyOf(nodes[0])}, c.inFlight + 1, c.chosen + [nodes[0]]);
  }

  lemma KeysOfFirst(nodes: seq<DHTNode>)
    requires nodes != []
    ensures Keys(nodes) == {KeyOf(nodes[0])} + Keys(nodes[1..])
  {
    assert nodes == [nodes[0]] + nodes[1..];
  }

  lemma KeysOfLast(nodes: seq<DHTNode>, n: DHTNode)
    ensures Keys(nodes + [n]) == Keys(nodes) + {KeyOf(n)}
  {
  }

  lemma ChooseOne(c: Choice, n: DHTNode, queried: set<Key>, inFlight: nat)
    requires ChoiceFrom(queried, inFlight, c) && KeyOf(n) !in c.queried
    ensures ChoiceFrom(queried, inFlight, Choice(c.queried + {KeyOf(n)}, c.inFlight + 1, c.chosen + [n]))
  {
    KeysOfLast(c.chosen, n);
    forall i | 0 <= i < |c.chosen| ensures KeyOf(c.chosen[i]) != KeyOf(n) {
      assert c.chosen[i] in c.chosen && KeyOf(c.chosen[i]) in Keys(c.chosen);
    }
  }

  /** The choice stops at some place of the list: all before it are asked by then, only nodes before it are new. */
  lemma {:induction false} ChooseStops(nodes: seq<DHTNode>, c: Choice) returns (k: nat)
    ensures k <= |nodes| && forall i | 0 <= i < k :: KeyOf(nodes[i]) in Choose(nodes, c).queried
    ensures forall m | m in Choose(nodes, c).chosen :: m in c.chosen || m in nodes[..k]
    ensures c.queried <= Choose(nodes, c).queried && (Choose(nodes, c).inFlight < 3 ==> k == |nodes|)
    decreases |nodes|
  {
    k := 0;
    if nodes != [] && c.inFlight < LOOKUP_ALPHA {
      var n := nodes[0];
      var next := ChooseFirst(nodes, c);
      var j := ChooseStops(nodes[1..], next);
      k := j + 1;
      assert nodes[..k] == [n] + nodes[1..][..j];
      assert KeyOf(n) in next.queried;
      forall i | 0 <= i < k ensures KeyOf(nodes[i]) in Choose(nodes, c).queried {
        assert i > 0 ==> nodes[i] == nodes[1..][i - 1];
      }
    }
  }

  /** The choice of a lookup whose books balance. */
  lemma AdvanceOk(lk: LookupState, order: seq<DHTNode>)
    requires LookupOk(lk) && SortedByDistance(order, lk.target)
    ensures var r := Advanced(lk, order); var chosen := Chosen(lk, order);
      && LookupOk(r) && ShortlistOk(r)
      && r.queried == lk.queried + Keys(chosen) && Keys(chosen) !! lk.queried && DifferentKeys(chosen)
      && (r.inFlight == 0 ==> Keys(r.shortlist) <= r.responding && r.queried == r.responding)
  {
    var start := Choice(lk.queried, lk.inFlight, []);
    assert Keys([]) == {};
    ChooseAdds(Capped(Uniqued(order)), start, lk.queried, lk.inFlight);
    PreparedIsStrict(order, lk);
    var r := Advanced(lk, order);
    assert r.responding == lk.responding && lk.responding <= lk.queried;
    if r.inFlight == 0 {
      var k := ChooseStops(r.shortlist, start);
      SubsetOfSameSize(r.responding, r.queried);
    }
  }

  lemma {:induction false} SubsetOfSameSize<T>(a: set<T>, b: set<T>)
    requires a <= b && |a| == |b|
    ensures a == b
  {
    assert b == a + (b - a);
    assert |b| == |a| + |b - a|;
    assert |b - a| == 0;
  }

  // ----- sending -----

  lemma {:induction false} SendAllOk(c: Client, nodes: seq<DHTNode>, l: nat, now: int)
    requires QueriesOk(c) && l < |c.lookups| && c.generated + |nodes| <= TWO_32 && DifferentKeys(nodes)
    requires forall n | n in nodes :: KeyOf(n) in c.lookups[l].queried && KeyOf(n) !in c.lookups[l].responding
    requires Unsent(c, nodes, l)
    ensures QueriesOk(SendAll(c, nodes, l, now))
    decreases |nodes|
  {
    if nodes != [] {
      KeysOfFirst(nodes);
      assert Keys([nodes[0]]) == {KeyOf(nodes[0])};
      SendOneOk(c, nodes[0], l, now);
      StillUnsent(c, nodes, l, now);
      SendAllOk(SendOne(c, KeyOf(nodes[0]), Some(l), now), nodes[1..], l, now);
    }
  }

  predicate Unsent(c: Client, nodes: seq<DHTNode>, l: nat) {
    && (forall tid | tid in c.pending && c.pending[tid].lookup == Some(l) :: c.pending[tid].key !in Keys(nodes))
    && (forall i | 0 <= i < |c.sent| && c.sent[i].lookup == Some(l) :: c.sent[i].key !in Keys(nodes))
  }

  lemma StillUnsent(c: Client, nodes: seq<DHTNode>, l: nat, now: int)
    requires nodes != [] && DifferentKeys(nodes) && Unsent(c, nodes, l)
    ensures Unsent(SendOne(c, KeyOf(nodes[0]), Some(l), now), nodes[1..], l) && DifferentKeys(nodes[1..])
  {
    KeysOfFirst(nodes);
    assert KeyOf(nodes[0]) !in Keys(nodes[1..]) by {
      assert forall i | 1 <= i < |nodes| :: KeyOf(nodes[0]) != KeyOf(nodes[i]);
    }
  }

  lemma SendOneOk(c: Client, n: DHTNode, l: nat, now: int)
    requires QueriesOk(c) && l < |c.lookups| && c.generated < TWO_32
    requires KeyOf(n) in c.lookups[l].queried && KeyOf(n) !in c.lookups[l].responding
    requires Unsent(c, [n], l)
    ensures QueriesOk(SendOne(c, KeyOf(n), Some(l), now))
  {
    hide KeyOf, FromBigEndian;
    var next := SendOne(c, KeyOf(n), Some(l), now);
    TidValue(c.generated);
    assert Tid(c.generated) !in c.pending;
    assert KeyOf(n) in Keys([n]) by {
      assert n in [n];
    }
    forall k | 0 <= k < |next.lookups| ensures PendingOk(next, k, next.lookups[k]) && SentOk(next, k, next.lookups[k]) {
      assert PendingOk(c, k, c.lookups[k]) && SentOk(c, k, c.lookups[k]);
    }
  }

  /** A query outside the lookups. */
  lemma AskOk(c: Client, key: Key, now: int)
    requires QueriesOk(c) && c.generated < TWO_32
    ensures QueriesOk(SendOne(c, key, None, now))
  {
    var next := SendOne(c, key, None, now);
    TidValue(c.generated);
    assert Tid(c.generated) !in c.pending;
    forall k | 0 <= k < |next.lookups| ensures PendingOk(next, k, next.lookups[k]) && SentOk(next, k, next.lookups[k]) {
      assert PendingOk(c, k, c.lookups[k]) && SentOk(c, k, c.lookups[k]);
    }
  }

  // ----- steps keep the invariant -----

  /** Replacing one lookup by a later state of it in which more endpoints are queried. */
  lemma AdvanceQueries(c: Client, l: nat, lk: LookupState)
    requires QueriesOk(c) && l < |c.lookups|
    requires c.lookups[l].queried <= lk.queried && lk.responding == c.lookups[l].responding
    ensures QueriesOk(c.(lookups := c.lookups[l := lk]))
  {
    var next := c.(lookups := c.lookups[l := lk]);
    forall k | 0 <= k < |next.lookups| ensures PendingOk(next, k, next.lookups[k]) && SentOk(next, k, next.lookups[k]) {
      assert PendingOk(c, k, c.lookups[k]) && SentOk(c, k, c.lookups[k]);
    }
  }

  lemma ContinueOk(c: Client, l: nat, order: seq<DHTNode>, now: int)
    requires QueriesOk(c) && l < |c.lookups| && LookupOk(c.lookups[l])
    requires SortedByDistance(order, c.lookups[l].target)
    requires ContinueLookup(c, l, order, now).generated <= TWO_32
    ensures var r := ContinueLookup(c, l, order, now);
      QueriesOk(r) && r.lookups == c.lookups[l := Advanced(c.lookups[l], order)]
    ensures LookupOk(Advanced(c.lookups[l], order)) && ShortlistOk(Advanced(c.lookups[l], order))
  {
    var lk := c.lookups[l];
    var chosen := Chosen(lk, order);
    AdvanceOk(lk, order);
    AdvanceQueries(c, l, Advanced(lk, order));
    var c' := c.(lookups := c.lookups[l := Advanced(lk, order)]);
    if Sends(lk) {
      forall n | n in chosen ensures KeyOf(n) in Keys(chosen) {
      }
      assert PendingOk(c, l, lk) && SentOk(c, l, lk);
      SendAllOk(c', chosen, l, now);
    }
  }

  lemma ContinueKeeps(c: Client, l: nat, order: seq<DHTNode>, now: int)
    requires QueriesOk(c) && l < |c.lookups| && LookupOk(c.lookups[l])
    requires forall k | 0 <= k < |c.lookups| && k != l :: LookupOk(c.lookups[k]) && ShortlistOk(c.lookups[k])
    requires SortedByDistance(order, c.lookups[l].target)
    requires ContinueLookup(c, l, order, now).generated <= TWO_32
    ensures Invariant(ContinueLookup(c, l, order, now))
  {
    ContinueOk(c, l, order, now);
  }

  /** An answered query may stay in the table of pending queries until the lookup has gone on. */
  lemma {:induction false} SendAllWithout(c: Client, nodes: seq<DHTNode>, l: nat, now: int, tid: seq<byte>)
    requires tid in c.pending && FromBigEndian(tid) < c.generated && c.generated + |nodes| <= TWO_32
    ensures SendAll(c, nodes, l, now).(pending := SendAll(c, nodes, l, now).pending - {tid})
         == SendAll(c.(pending := c.pending - {tid}), nodes, l, now)
    decreases |nodes|
  {
    if nodes != [] {
      TidValue(c.generated);
      var next := SendOne(c, KeyOf(nodes[0]), Some(l), now);
      assert next.pending - {tid} == (c.pending - {tid})[Tid(c.generated) := PendingQuery(now, KeyOf(nodes[0]), Some(l))];
      SendAllWithout(next, nodes[1..], l, now, tid);
    }
  }

  /** The client when an answer has been entered and its query is no longer pending. */
  function Entered(c: Client, msg: Response): Client
    requires OfLookup(c, msg.tid)
  {
    c.(lookups := c.lookups[c.pending[msg.tid].lookup.value := AnsweredLookup(c, msg)], pending := c.pending - {msg.tid})
  }

  lemma EnteredOk(c: Client, msg: Response)
    requires Invariant(c) && OfLookup(c, msg.tid)
    ensures QueriesOk(Entered(c, msg)) && LookupOk(AnsweredLookup(c, msg))
  {
    var next, l := Entered(c, msg), c.pending[msg.tid].lookup.value;
    var lk := c.lookups[l];
    assert LookupOk(lk) && PendingOk(c, l, lk);
    assert lk.responding + {c.pending[msg.tid].key} <= lk.queried;
    SmallerSet(lk.responding, c.pending[msg.tid].key, lk.queried);
    forall k | 0 <= k < |next.lookups| ensures PendingOk(next, k, next.lookups[k]) && SentOk(next, k, next.lookups[k]) {
      assert PendingOk(c, k, c.lookups[k]) && SentOk(c, k, c.lookups[k]);
    }
  }

  lemma SmallerSet<T>(a: set<T>, x: T, b: set<T>)
    requires a + {x} <= b && x !in a
    ensures |a| + 1 == |a + {x}| <= |b|
  {
    assert b == (a + {x}) + (b - (a + {x}));
    assert |b| == |a + {x}| + |b - (a + {x})|;
  }

  lemma AnswerIsEnteredFirst(c: Client, msg: Response, order: seq<DHTNode>, now: int)
    requires Invariant(c) && OfLookup(c, msg.tid) && HandleResponse(c, msg, order, now).generated <= TWO_32
    ensures HandleResponse(c, msg, order, now)
         == ContinueLookup(Entered(c, msg), c.pending[msg.tid].lookup.value, order, now)
  {
    var l := c.pending[msg.tid].lookup.value;
    var lk := AnsweredLookup(c, msg);
    var c' := c.(lookups := c.lookups[l := lk]);
    assert FromBigEndian(msg.tid) < c.generated;
    assert c'.lookups[l] == Entered(c, msg).lookups[l] == lk;
    var advanced := c'.(lookups := c'.lookups[l := Advanced(lk, order)]);
    if Sends(lk) {
      SendAllWithout(advanced, Chosen(lk, order), l, now, msg.tid);
    }
  }

  lemma AnswerKeeps(c: Client, msg: Response, order: seq<DHTNode>, now: int)
    requires Invariant(c) && Legal(c, Answer(msg, order, now)) && HandleResponse(c, msg, order, now).generated <= TWO_32
    ensures Invariant(HandleResponse(c, msg, order, now))
  {
    if OfLookup(c, msg.tid) {
      EnteredOk(c, msg);
      AnswerIsEnteredFirst(c, msg, order, now);
      ContinueKeeps(Entered(c, msg), c.pending[msg.tid].lookup.value, order, now);
    } else if msg.tid in c.pending {
      FewerPending(c, c.pending - {msg.tid});
    }
  }

  /** Every step of the client keeps every lookup in order. */
  lemma ApplyKeeps(c: Client, e: Event)
    requires Invariant(c) && Legal(c, e) && Apply(c, e).generated <= TWO_32
    ensures Invariant(Apply(c, e))
  {
    match e {
      case Start(target, kind, infoHash, nodes, order, now) =>
        StartKeeps(c, e);
      case Answer(msg, order, now) =>
        AnswerKeeps(c, msg, order, now);
      case Fail(tid) => FewerPending(c, c.pending - {tid});
      case Expire(now) =>
        FewerPending(c, map tid | tid in c.pending && !Expired(c.pending[tid], now) :: c.pending[tid]);
      case Ask(key, now) => AskOk(c, key, now);
    }
  }

  lemma StartedOk(c: Client, lk: LookupState)
    requires QueriesOk(c)
    ensures QueriesOk(Started(c, lk))
  {
    var next := Started(c, lk);
    forall k | 0 <= k < |next.lookups| ensures PendingOk(next, k, next.lookups[k]) && SentOk(next, k, next.lookups[k]) {
      if k < |c.lookups| {
        assert PendingOk(c, k, c.lookups[k]) && SentOk(c, k, c.lookups[k]);
      }
    }
  }

  lemma StartKeeps(c: Client, e: Event)
    requires e.Start? && Invariant(c) && Legal(c, e) && Apply(c, e).generated <= TWO_32
    ensures Invariant(Apply(c, e))
  {
    var lk := NewLookup(e.target, e.kind, e.infoHash, e.nodes);
    StartedOk(c, lk);
    ContinueKeeps(Started(c, lk), |c.lookups|, e.order, e.now);
  }

  lemma FewerPending(c: Client, pending: map<seq<byte>, PendingQuery>)
    requires QueriesOk(c) && pending.Keys <= c.pending.Keys && forall tid | tid in pending :: pending[tid] == c.pending[tid]
    ensures QueriesOk(c.(pending := pending))
  {
    var next := c.(pending := pending);
    forall k | 0 <= k < |next.lookups| ensures PendingOk(next, k, next.lookups[k]) && SentOk(next, k, next.lookups[k]) {
      assert PendingOk(c, k, c.lookups[k]) && SentOk(c, k, c.lookups[k]);
    }
  }

  // ----- whole runs -----

  const IDLE := Client([], map[], 0, [])

  function Run(events: seq<Event>): Client {
    if events == [] then IDLE else Apply(Run(events[..|events| - 1]), events[|events| - 1])
  }

  predicate LegalRun(events: seq<Event>) {
    forall i | 0 <= i < |events| :: Legal(Run(events[..i]), events[i])
  }

  lemma {:induction false} RunKeeps(events: seq<Event>)
    requires LegalRun(events) && Run(events).generated <= TWO_32
    ensures Invariant(Run(events))
  {
    if events != [] {
      var init := events[..|events| - 1];
      forall i | 0 <= i < |init| ensures Legal(Run(init[..i]), init[i]) {
        assert init[..i] == events[..i];
      }
      assert Run(events).generated >= Run(init).generated;
      RunKeeps(init);
      ApplyKeeps(Run(init), events[|events| - 1]);
    }
  }

  lemma LegalPrefix(events: seq<Event>, k: nat)
    requires LegalRun(events) && k <= |events|
    ensures LegalRun(events[..k])
  {
    forall i | 0 <= i < k ensures Legal(Run(events[..k][..i]), events[..k][i]) {
      assert events[..k][..i] == events[..i];
    }
  }

  lemma {:induction false} FewerGenerated(events: seq<Event>, k: nat)
    requires k <= |events|
    ensures Run(events[..k]).generated <= Run(events).generated
  {
    hide Apply;
    if k == |events| {
      assert events[..k] == events;
    } else {
      var init := events[..|events| - 1];
      assert init[..k] == events[..k];
      FewerGenerated(init, k);
    }
  }

  function LivePending(c: Client, l: nat): set<seq<byte>> {
    set tid | tid in c.pending && c.pending[tid].lookup == Some(l)
  }

  /** The keys of different waiting queries are different, so counting queries counts endpoints. */
  lemma {:induction false} KeysOfPending(c: Client, l: nat, tids: set<seq<byte>>) returns (keys: set<Key>)
    requires l < |c.lookups| && PendingOk(c, l, c.lookups[l]) && tids <= LivePending(c, l)
    ensures |keys| == |tids|
    ensures forall k | k in keys :: k in c.lookups[l].queried - c.lookups[l].responding
    ensures forall k :: k in keys <==> exists tid :: tid in tids && c.pending[tid].key == k
  {
    keys := {};
    if tids != {} {
      var tid :| tid in tids;
      var rest := KeysOfPending(c, l, tids - {tid});
      assert c.pending[tid].key !in rest;
      keys := rest + {c.pending[tid].key};
    }
  }

  lemma LiveAtMostInFlight(c: Client, l: nat)
    requires Invariant(c) && l < |c.lookups|
    ensures |LivePending(c, l)| <= c.lookups[l].inFlight
  {
    var lk := c.lookups[l];
    assert LookupOk(lk) && PendingOk(c, l, lk);
    var keys := KeysOfPending(c, l, LivePending(c, l));
    var waiting := lk.queried - lk.responding;
    assert lk.queried == lk.responding + waiting;
    assert |lk.queried| == |lk.responding| + |waiting|;
    assert keys <= waiting;
    assert waiting == keys + (waiting - keys);
    assert |waiting| == |keys| + |waiting - keys|;
  }

  /** The accounting of every lookup in every run with fewer than 2^32 transaction identifiers. */
  lemma LookupAccounting(events: seq<Event>, l: nat)
    requires LegalRun(events) && Run(events).generated <= TWO_32 && l < |Run(events).lookups|
    ensures var c := Run(events); var lk := c.lookups[l];
      && |lk.queried| == lk.inFlight + |lk.responding|
      && lk.inFlight <= 3
      && lk.responding <= lk.queried
      && lk.tokens.Keys <= lk.responding
      && |LivePending(c, l)| <= lk.inFlight
  {
    RunKeeps(events);
    assert LookupOk(Run(events).lookups[l]);
    LiveAtMostInFlight(Run(events), l);
  }

  /** No endpoint is sent two queries by the same lookup. */
  lemma NoEndpointIsAskedTwice(events: seq<Event>, l: nat, i: nat, j: nat)
    requires LegalRun(events) && Run(events).generated <= TWO_32
    requires i < j < |Run(events).sent| && Run(events).sent[i].lookup == Some(l) == Run(events).sent[j].lookup
    ensures Run(events).sent[i].key != Run(events).sent[j].key
  {
    RunKeeps(events);
    assert SentOk(Run(events), l, Run(events).lookups[l]);
  }

  /** Whenever a step is over, each list is strictly sorted by distance, without duplicates and at most 32 long. */
  lemma ShortlistsAreSorted(events: seq<Event>, l: nat, i: nat, j: nat)
    requires LegalRun(events) && Run(events).generated <= TWO_32 && l < |Run(events).lookups|
    requires i < j < |Run(events).lookups[l].shortlist|
    ensures var lk := Run(events).lookups[l];
      && |lk.shortlist| <= 32 && lk.shortlist[i].id != lk.shortlist[j].id
      && Far(lk.shortlist[i], lk.target) < Far(lk.shortlist[j], lk.target)
  {
    RunKeeps(events);
    assert ShortlistOk(Run(events).lookups[l]);
  }

  /** A lookup ends in a step only when all endpoints it asked, and all in its list, have answered. */
  lemma OverWhenAllAnswered(lk: LookupState, order: seq<DHTNode>)
    requires LookupOk(lk) && SortedByDistance(order, lk.target)
    requires lk.active && !Advanced(lk, order).active
    ensures var r := Advanced(lk, order); r.queried == r.responding && Keys(r.shortlist) <= r.responding
  {
    AdvanceOk(lk, order);
  }

  /**
   * A lookup ends in its very first step if and only if no node was known. Then the branch that ends it locks the
   * mutex that its start holds already.
   */
  lemma EndsAtOnceIff(target: Id, kind: QueryType, infoHash: Option<Id>, nodes: seq<DHTNode>, order: seq<DHTNode>)
    requires IsOrder(order, nodes, target)
    ensures !Advanced(NewLookup(target, kind, infoHash, nodes), order).active <==> nodes == []
  {
    var lk := NewLookup(target, kind, infoHash, nodes);
    assert |multiset(order)| == |multiset(nodes)|;
    if nodes != [] {
      AdvanceOk(lk, order);
      var prepared := Advanced(lk, order).shortlist;
      assert prepared != [] && KeyOf(prepared[0]) in Keys(prepared);
    }
  }

  /** The nodes asked next are closer to the target than every node of the list that stays unasked. */
  lemma ClosestAreAskedFirst(lk: LookupState, order: seq<DHTNode>, asked: DHTNode, other: DHTNode)
    requires SortedByDistance(order, lk.target)
    requires asked in Chosen(lk, order)
    requires other in Advanced(lk, order).shortlist && KeyOf(other) !in Advanced(lk, order).queried
    ensures Far(asked, lk.target) < Far(other, lk.target)
  {
    PreparedIsStrict(order, lk);
    var nodes := Capped(Uniqued(order));
    var k := ChooseStops(nodes, Choice(lk.queried, lk.inFlight, []));
    var i :| 0 <= i < k && nodes[i] == asked;
    var j :| 0 <= j < |nodes| && nodes[j] == other;
    assert EverFarther(nodes, lk.target);
  }
}
