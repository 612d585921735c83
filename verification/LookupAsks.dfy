/** Whom a lookup asks, how many at a time, and exactly when it ends. */
module LookupAsks {
  import opened Bytes
  import RoutingTable
  import NodeId
  import LookupLearns
  import opened Krpc
  import opened Lookup

  type DHTNode = RoutingTable.DHTNode

  // ----- the queries that go out -----

  /** The kinds of lookups that the program starts. */
  predicate Searches(lk: LookupState) { lk.kind == FIND_NODE || (lk.kind == GET_PEERS && lk.infoHash.Some?) }

  /** Every node chosen gets a query of its own, in order. */
  lemma {:induction false} ChosenAreAsked(c: Client, nodes: seq<DHTNode>, l: nat, now: int)
    ensures var sent := SendAll(c, nodes, l, now).sent;
      && |sent| == |c.sent| + |nodes| && c.sent <= sent
      && forall i | 0 <= i < |nodes| :: sent[|c.sent| + i] == Sent(KeyOf(nodes[i]), Some(l))
    decreases |nodes|
  {
    hide KeyOf, Tid;
    if nodes != [] {
      var next, rest := SendOne(c, KeyOf(nodes[0]), Some(l), now), nodes[1..];
      ChosenAreAsked(next, rest, l, now);
      var sent := SendAll(c, nodes, l, now).sent;
      assert next.sent <= sent && next.sent[|c.sent|] == Sent(KeyOf(nodes[0]), Some(l));
      forall i | 0 <= i < |nodes| ensures sent[|c.sent| + i] == Sent(KeyOf(nodes[i]), Some(l)) {
        if i > 0 {
          assert sent[|next.sent| + (i - 1)] == Sent(KeyOf(rest[i - 1]), Some(l));
        }
      }
    }
  }

  predicate Waits(c: Client, tid: seq<byte>, query: PendingQuery) { tid in c.pending && c.pending[tid] == query }

  /** Each of these queries waits for its answer under a transaction identifier of its own. */
  lemma {:induction false} ChosenWait(c: Client, nodes: seq<DHTNode>, l: nat, now: int, i: nat)
    requires c.generated + |nodes| <= TWO_32 && i < |nodes|
    ensures Waits(SendAll(c, nodes, l, now), Tid(c.generated + i), PendingQuery(now, KeyOf(nodes[i]), Some(l)))
    decreases |nodes|
  {
    hide KeyOf, Tid;
    var next := SendOne(c, KeyOf(nodes[0]), Some(l), now);
    if i == 0 {
      OthersStay(next, nodes[1..], l, now, c.generated, PendingQuery(now, KeyOf(nodes[0]), Some(l)));
    } else {
      ChosenWait(next, nodes[1..], l, now, i - 1);
    }
  }

  /** Later queries leave an earlier one in place. */
  lemma {:induction false} OthersStay(c: Client, nodes: seq<DHTNode>, l: nat, now: int, k: nat, query: PendingQuery)
    requires k < c.generated && c.generated + |nodes| <= TWO_32 && Waits(c, Tid(k), query)
    ensures Waits(SendAll(c, nodes, l, now), Tid(k), query)
    decreases |nodes|
  {
    hide KeyOf, Tid;
    if nodes != [] {
      TidValue(k);
      TidValue(c.generated);
      OthersStay(SendOne(c, KeyOf(nodes[0]), Some(l), now), nodes[1..], l, now, k, query);
    }
  }

  function SentKeys(c: Client, l: nat): set<Key> {
    set i | 0 <= i < |c.sent| && c.sent[i].lookup == Some(l) :: c.sent[i].key
  }

  /** The endpoints that a lookup counts as asked are those it sent a query to; one of another kind sends none. */
  predicate AskedIsSent(c: Client, l: nat)
    requires l < |c.lookups|
  {
    SentKeys(c, l) == if Searches(c.lookups[l]) then c.lookups[l].queried else {}
  }

  /** Three queries are in flight, or every endpoint of the list was asked. */
  predicate Busy(lk: LookupState) { lk.inFlight >= 3 || Keys(lk.shortlist) <= lk.queried }

  predicate AllInOrder(c: Client) { forall l | 0 <= l < |c.lookups| :: AskedIsSent(c, l) && Busy(c.lookups[l]) }

  lemma {:induction false} SentKeysOfAll(c: Client, nodes: seq<DHTNode>, k: nat, now: int, l: nat)
    ensures SentKeys(SendAll(c, nodes, k, now), l) == SentKeys(c, l) + (if k == l then Keys(nodes) else {})
    decreases |nodes|
  {
    hide KeyOf, Keys;
    if nodes != [] {
      var next := SendOne(c, KeyOf(nodes[0]), Some(k), now);
      SentKeysOfOne(c, KeyOf(nodes[0]), Some(k), now, l);
      SentKeysOfAll(next, nodes[1..], k, now, l);
      KeysOfFirst(nodes);
    } else {
      LookupLearns.NoKeys();
    }
  }

  lemma SentKeysOfOne(c: Client, key: Key, lookup: Option<nat>, now: int, l: nat)
    ensures SentKeys(SendOne(c, key, lookup, now), l) == SentKeys(c, l) + (if lookup == Some(l) then {key} else {})
  {
    var next := SendOne(c, key, lookup, now);
    assert forall i | 0 <= i < |c.sent| :: next.sent[i] == c.sent[i];
    assert next.sent[|c.sent|] == Sent(key, lookup);
  }

  lemma AdvancedIsBusy(lk: LookupState, order: seq<DHTNode>)
    requires LookupOk(lk) && RoutingTable.SortedByDistance(order, lk.target)
    ensures Busy(Advanced(lk, order)) && Advanced(lk, order).queried == lk.queried + Keys(Chosen(lk, order))
    ensures Searches(Advanced(lk, order)) == Searches(lk)
  {
    hide KeyOf, Uniqued;
    AdvanceOk(lk, order);
    var r := Advanced(lk, order);
    var k := ChooseStops(r.shortlist, Choice(lk.queried, lk.inFlight, []));
  }

  lemma ContinueInOrder(c: Client, k: nat, order: seq<DHTNode>, now: int)
    requires k < |c.lookups| && LookupOk(c.lookups[k]) && RoutingTable.SortedByDistance(order, c.lookups[k].target)
    requires forall l | 0 <= l < |c.lookups| :: AskedIsSent(c, l) && (l != k ==> Busy(c.lookups[l]))
    ensures AllInOrder(ContinueLookup(c, k, order, now))
  {
    hide SentKeys, Advanced, Busy, Chosen, Keys, LookupOk, RoutingTable.SortedByDistance;
    var lk := c.lookups[k];
    var advanced, next := c.(lookups := c.lookups[k := Advanced(lk, order)]), ContinueLookup(c, k, order, now);
    AdvancedIsBusy(lk, order);
    forall l | 0 <= l < |next.lookups| ensures AskedIsSent(next, l) && Busy(next.lookups[l]) {
      assert AskedIsSent(c, l);
      SameSent(c, advanced, l);
      SentKeysOfAll(advanced, Chosen(lk, order), k, now, l);
    }
  }

  lemma SameSent(c: Client, next: Client, l: nat)
    requires next.sent == c.sent
    ensures SentKeys(next, l) == SentKeys(c, l)
  {
  }

  /** A lookup that is new has asked nobody. */
  lemma NoneSentYet(c: Client)
    requires NoStrayQueries(c)
    ensures SentKeys(c, |c.lookups|) == {}
  {
  }

  lemma StartInOrder(c: Client, lk: LookupState, order: seq<DHTNode>, now: int)
    requires NoStrayQueries(c) && AllInOrder(c) && lk.queried == {} && LookupOk(lk)
    requires RoutingTable.SortedByDistance(order, lk.target)
    ensures AllInOrder(ContinueLookup(Started(c, lk), |c.lookups|, order, now))
  {
    hide ContinueLookup, SentKeys, RoutingTable.SortedByDistance, Busy, LookupOk;
    NoneSentYet(c);
    forall l | 0 <= l <= |c.lookups| ensures AskedIsSent(Started(c, lk), l) {
      SameSent(c, Started(c, lk), l);
      assert l < |c.lookups| ==> AskedIsSent(c, l);
    }
    ContinueInOrder(Started(c, lk), |c.lookups|, order, now);
  }

  lemma AnswerInOrder(c: Client, msg: Response, order: seq<DHTNode>, now: int)
    requires Invariant(c) && AllInOrder(c) && OfLookup(c, msg.tid) && Legal(c, Answer(msg, order, now))
    ensures AllInOrder(ContinueLookup(Entered(c, msg), c.pending[msg.tid].lookup.value, order, now))
  {
    hide ContinueLookup, SentKeys, Discovered, RoutingTable.SortedByDistance, Busy, Invariant, LookupOk;
    var entered := Entered(c, msg);
    EnteredOk(c, msg);
    forall l | 0 <= l < |c.lookups| ensures AskedIsSent(entered, l) {
      SameSent(c, entered, l);
      assert AskedIsSent(c, l);
    }
    ContinueInOrder(entered, c.pending[msg.tid].lookup.value, order, now);
  }

  lemma StepInOrder(c: Client, e: Event)
    requires Invariant(c) && Legal(c, e) && Apply(c, e).generated <= TWO_32 && AllInOrder(c)
    ensures AllInOrder(Apply(c, e))
  {
    hide ContinueLookup, AllInOrder, Discovered, RoutingTable.SortedByDistance, LookupOk, ShortlistOk, Entered;
    match e {
      case Start(target, kind, infoHash, nodes, order, now) =>
        NewIsOk(target, kind, infoHash, nodes);
        StartInOrder(c, NewLookup(target, kind, infoHash, nodes), order, now);
      case Answer(msg, order, now) =>
        if OfLookup(c, msg.tid) {
          AnswerIsEnteredFirst(c, msg, order, now);
          AnswerInOrder(c, msg, order, now);
        } else if msg.tid in c.pending {
          Unsaid(c, Apply(c, e));
        }
      case Fail(_) => Unsaid(c, Apply(c, e));
      case Expire(_) => Unsaid(c, Apply(c, e));
      case Ask(key, now) => AskInOrder(c, key, now);
    }
  }

  lemma AskInOrder(c: Client, key: Key, now: int)
    requires AllInOrder(c)
    ensures AllInOrder(SendOne(c, key, None, now))
  {
    hide SentKeys, Busy, KeyOf;
    forall l | 0 <= l < |c.lookups| ensures AskedIsSent(SendOne(c, key, None, now), l) {
      SentKeysOfOne(c, key, None, now, l);
      assert AskedIsSent(c, l);
    }
  }

  lemma NewIsOk(target: NodeId.Id, kind: QueryType, infoHash: Option<NodeId.Id>, nodes: seq<DHTNode>)
    ensures LookupOk(NewLookup(target, kind, infoHash, nodes))
  {
  }

  lemma Unsaid(c: Client, next: Client)
    requires AllInOrder(c) && next.sent == c.sent && next.lookups == c.lookups
    ensures AllInOrder(next)
  {
    forall l | 0 <= l < |c.lookups| ensures AskedIsSent(next, l) {
      SameSent(c, next, l);
      assert AskedIsSent(c, l);
    }
  }

  /**
   * In every run: a lookup sent queries to exactly the endpoints that it counts as asked, and it has three in flight or has
   * asked every endpoint of its list.
   */
  lemma LookupsAreBusy(events: seq<Event>, l: nat)
    requires LegalRun(events) && Run(events).generated <= TWO_32 && l < |Run(events).lookups|
    ensures AskedIsSent(Run(events), l) && Busy(Run(events).lookups[l])
  {
    RunInOrder(events);
  }

  lemma {:induction false} RunInOrder(events: seq<Event>)
    requires LegalRun(events) && Run(events).generated <= TWO_32
    ensures AllInOrder(Run(events))
  {
    hide Apply, Legal, Invariant, AllInOrder;
    if events == [] {
      NothingAtFirst();
    } else {
      var last := |events| - 1;
      LegalPrefix(events, last);
      FewerGenerated(events, last);
      RunInOrder(events[..last]);
      RunKeeps(events[..last]);
      StepInOrder(Run(events[..last]), events[last]);
    }
  }

  lemma NothingAtFirst()
    ensures AllInOrder(IDLE)
  {
  }

  /** Every query and every lookup takes a transaction identifier of its own, and nothing else takes one. */
  lemma {:induction false} IdentifiersAreCounted(events: seq<Event>)
    ensures Run(events).generated == |Run(events).sent| + |Run(events).lookups|
  {
    hide Apply;
    if events != [] {
      IdentifiersAreCounted(events[..|events| - 1]);
      StepCounts(Run(events[..|events| - 1]), events[|events| - 1]);
    }
  }

  lemma {:induction false} AllCount(c: Client, nodes: seq<DHTNode>, l: nat, now: int)
    ensures |SendAll(c, nodes, l, now).sent| == |c.sent| + |nodes|
    decreases |nodes|
  {
    if nodes != [] {
      AllCount(SendOne(c, KeyOf(nodes[0]), Some(l), now), nodes[1..], l, now);
    }
  }

  lemma ContinueCounts(c: Client, k: nat, order: seq<DHTNode>, now: int)
    requires k < |c.lookups|
    ensures var r := ContinueLookup(c, k, order, now);
      r.generated - c.generated == |r.sent| - |c.sent| && |r.lookups| == |c.lookups|
  {
    hide Advanced, Chosen;
    AllCount(c.(lookups := c.lookups[k := Advanced(c.lookups[k], order)]), Chosen(c.lookups[k], order), k, now);
  }

  lemma StepCounts(c: Client, e: Event)
    ensures var r := Apply(c, e);
      r.generated - c.generated == |r.sent| - |c.sent| + |r.lookups| - |c.lookups|
  {
    hide ContinueLookup, AnsweredLookup;
    match e {
      case Start(target, kind, infoHash, nodes, order, now) =>
        ContinueCounts(Started(c, NewLookup(target, kind, infoHash, nodes)), |c.lookups|, order, now);
      case Answer(msg, order, now) =>
        if OfLookup(c, msg.tid) {
          var k := c.pending[msg.tid].lookup.value;
          ContinueCounts(c.(lookups := c.lookups[k := AnsweredLookup(c, msg)]), k, order, now);
        }
      case Fail(_) =>
      case Expire(_) =>
      case Ask(_, _) =>
    }
  }

  // ----- tokens and timeouts -----

  /** The lookup has the token of an endpoint. */
  predicate HasToken(c: Client, l: nat, key: Key, token: seq<byte>) {
    l < |c.lookups| && key in c.lookups[l].tokens && c.lookups[l].tokens[key] == token
  }

  /** The step is an answer of an endpoint to the lookup, with a token. */
  predicate Tells(c: Client, e: Event, l: nat, key: Key, token: seq<byte>) {
    && e.Answer? && OfLookup(c, e.msg.tid) && e.msg.token == Some(token)
    && c.pending[e.msg.tid].lookup == Some(l) && c.pending[e.msg.tid].key == key
  }

  lemma ContinueKeepsTokens(c: Client, k: nat, order: seq<DHTNode>, now: int, l: nat, key: Key, token: seq<byte>)
    requires k < |c.lookups| && HasToken(c, l, key, token)
    ensures HasToken(ContinueLookup(c, k, order, now), l, key, token)
  {
    hide Uniqued, Choose, CountQueried, KeyOf;
  }

  lemma EnteredToken(c: Client, msg: Response, l: nat, key: Key, token: seq<byte>)
    requires Invariant(c) && OfLookup(c, msg.tid)
    requires HasToken(c, l, key, token)
      || (c.pending[msg.tid].lookup == Some(l) && c.pending[msg.tid].key == key && msg.token == Some(token))
    ensures HasToken(c.(lookups := c.lookups[c.pending[msg.tid].lookup.value := AnsweredLookup(c, msg)]), l, key, token)
  {
    hide Discovered, KeyOf, SentOk;
    assert LookupOk(c.lookups[l]) && PendingOk(c, l, c.lookups[l]);
  }

  lemma TokenStep(c: Client, e: Event, l: nat, key: Key, token: seq<byte>)
    requires Invariant(c) && (HasToken(c, l, key, token) || Tells(c, e, l, key, token))
    ensures HasToken(Apply(c, e), l, key, token)
  {
    hide ContinueLookup, Invariant, KeyOf, AnsweredLookup;
    match e {
      case Start(target, kind, infoHash, nodes, order, now) =>
        ContinueKeepsTokens(Started(c, NewLookup(target, kind, infoHash, nodes)), |c.lookups|, order, now, l, key, token);
      case Answer(msg, order, now) =>
        if OfLookup(c, msg.tid) {
          var k := c.pending[msg.tid].lookup.value;
          EnteredToken(c, msg, l, key, token);
          ContinueKeepsTokens(c.(lookups := c.lookups[k := AnsweredLookup(c, msg)]), k, order, now, l, key, token);
        }
      case Fail(_) =>
      case Expire(_) =>
      case Ask(_, _) =>
    }
  }

  /** In every run, a token that came with an answer stays with the endpoint that sent it. */
  lemma {:induction false} TokensAreKept(events: seq<Event>, i: nat, l: nat, key: Key, token: seq<byte>)
    requires LegalRun(events) && Run(events).generated <= TWO_32
    requires i < |events| && Tells(Run(events[..i]), events[i], l, key, token)
    ensures HasToken(Run(events), l, key, token)
  {
    hide Apply, Legal, Tells, HasToken, Invariant;
    var last := |events| - 1;
    LegalPrefix(events, last);
    FewerGenerated(events, last);
    RunKeeps(events[..last]);
    if i < last {
      assert events[..last][..i] == events[..i];
      TokensAreKept(events[..last], i, l, key, token);
    }
    TokenStep(Run(events[..last]), events[last], l, key, token);
  }

  /** A cleanup forgets exactly the queries sent eleven seconds ago or earlier. */
  lemma ForgottenAfterElevenSeconds(c: Client, now: int, tid: seq<byte>)
    ensures tid in Apply(c, Expire(now)).pending <==> tid in c.pending && now - c.pending[tid].sentTime < 11_000_000_000
    ensures tid in Apply(c, Expire(now)).pending ==> Apply(c, Expire(now)).pending[tid] == c.pending[tid]
  {
  }

  // ----- the end -----

  /** The places among the first eight of a list at which asked endpoints stand. */
  function AskedPlaces(nodes: seq<DHTNode>, queried: set<Key>): set<int> {
    set i | 0 <= i < |nodes| && i < 8 && KeyOf(nodes[i]) in queried
  }

  lemma {:induction false} CountIsPlaces(nodes: seq<DHTNode>, queried: set<Key>)
    requires |nodes| <= 8
    ensures CountQueried(nodes, queried) == |AskedPlaces(nodes, queried)|
  {
    hide KeyOf;
    if nodes != [] {
      var init, k := nodes[..|nodes| - 1], |nodes| - 1;
      CountIsPlaces(init, queried);
      assert AskedPlaces(nodes, queried) == AskedPlaces(init, queried) + (if KeyOf(nodes[k]) in queried then {k} else {});
    }
  }

  /**
   * Exactly when a step ends a lookup: no query is in flight, and the eight closest nodes of its list have as many places
   * with asked endpoints as endpoints were asked in all.
   */
  lemma EndsIff(lk: LookupState, order: seq<DHTNode>)
    requires LookupOk(lk) && RoutingTable.SortedByDistance(order, lk.target) && lk.active
    ensures var r := Advanced(lk, order);
      !r.active <==> r.inFlight == 0 && |AskedPlaces(r.shortlist, lk.queried)| == |r.queried|
  {
    hide KeyOf, Uniqued;
    var nodes := Advanced(lk, order).shortlist;
    CountIsPlaces(Closest(nodes), lk.queried);
    assert AskedPlaces(Closest(nodes), lk.queried) == AskedPlaces(nodes, lk.queried);
  }
}
