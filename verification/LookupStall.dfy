/** What becomes of a lookup whose queries are forgotten: it counts them as in flight for ever. */
module LookupStall {
  import opened Bytes
  import RoutingTable
  import opened Krpc
  import opened Lookup

  /** How many queries a lookup counts as in flight although none of them is pending. */
  function Lost(c: Client, l: nat): int
    requires l < |c.lookups|
  {
    c.lookups[l].inFlight - |LivePending(c, l)|
  }

  lemma FewerOf<T>(a: set<T>, b: set<T>)
    requires a <= b
    ensures |a| <= |b| && (forall x | x in b && x !in a :: |a| < |b|)
  {
    assert b == a + (b - a);
    assert |b| == |a| + |b - a|;
  }

  lemma SendOneLive(c: Client, key: Key, lookup: Option<nat>, now: int, l: nat)
    ensures |LivePending(SendOne(c, key, lookup, now), l)| <= |LivePending(c, l)| + (if lookup == Some(l) then 1 else 0)
  {
    hide Tid;
    var tid := Tid(c.generated);
    if lookup == Some(l) {
      FewerOf(LivePending(SendOne(c, key, lookup, now), l), LivePending(c, l) + {tid});
    } else {
      FewerOf(LivePending(SendOne(c, key, lookup, now), l), LivePending(c, l));
    }
  }

  lemma {:induction false} SendAllLive(c: Client, nodes: seq<RoutingTable.DHTNode>, k: nat, now: int, l: nat)
    ensures |LivePending(SendAll(c, nodes, k, now), l)| <= |LivePending(c, l)| + (if k == l then |nodes| else 0)
    decreases |nodes|
  {
    hide LivePending, SendOne;
    if nodes != [] {
      SendOneLive(c, KeyOf(nodes[0]), Some(k), now, l);
      SendAllLive(SendOne(c, KeyOf(nodes[0]), Some(k), now), nodes[1..], k, now, l);
    }
  }

  /** The number in flight grows by the nodes chosen, and as long as it is positive the lookup goes on. */
  lemma AdvancedInFlight(lk: LookupState, order: seq<RoutingTable.DHTNode>)
    requires lk.inFlight <= 3
    ensures Advanced(lk, order).inFlight == lk.inFlight + |Chosen(lk, order)|
    ensures Advanced(lk, order).inFlight > 0 ==> Advanced(lk, order).active == lk.active
  {
    ChooseAdds(Capped(Uniqued(order)), Choice(lk.queried, lk.inFlight, []), lk.queried, lk.inFlight);
  }

  lemma ContinueLost(c: Client, k: nat, order: seq<RoutingTable.DHTNode>, now: int, l: nat)
    requires k < |c.lookups| && l < |c.lookups| && c.lookups[k].inFlight <= 3
    ensures var next := ContinueLookup(c, k, order, now);
      Lost(next, l) >= Lost(c, l) && (Lost(c, l) > 0 ==> next.lookups[l].active == c.lookups[l].active)
  {
    hide LivePending, Advanced, Chosen;
    var lk := c.lookups[k];
    var advanced := c.(lookups := c.lookups[k := Advanced(lk, order)]);
    AdvancedInFlight(lk, order);
    SamePending(c, advanced, l);
    SendAllLive(advanced, Chosen(lk, order), k, now, l);
  }

  lemma SamePending(c: Client, next: Client, l: nat)
    requires next.pending == c.pending
    ensures LivePending(next, l) == LivePending(c, l)
  {
  }

  /** Entering an answer takes one query from those pending and one from those in flight. */
  lemma EnteredLost(c: Client, msg: Response, l: nat)
    requires Invariant(c) && OfLookup(c, msg.tid) && l < |c.lookups|
    ensures Lost(Entered(c, msg), l) == Lost(c, l) && Entered(c, msg).lookups[l].active == c.lookups[l].active
    ensures AnsweredLookup(c, msg).inFlight <= 3
  {
    hide Discovered;
    var k := c.pending[msg.tid].lookup.value;
    assert LookupOk(c.lookups[k]);
    if k == l {
      LiveAtMostInFlight(c, l);
      assert msg.tid in LivePending(c, l);
      assert LivePending(Entered(c, msg), l) == LivePending(c, l) - {msg.tid};
    } else {
      assert LivePending(Entered(c, msg), l) == LivePending(c, l);
    }
  }

  lemma FewerPendingLost(c: Client, pending: map<seq<byte>, PendingQuery>, l: nat)
    requires l < |c.lookups| && pending.Keys <= c.pending.Keys && forall tid | tid in pending :: pending[tid] == c.pending[tid]
    ensures Lost(c.(pending := pending), l) >= Lost(c, l)
    ensures forall tid | tid in LivePending(c, l) && tid !in pending :: Lost(c.(pending := pending), l) > Lost(c, l)
  {
    FewerOf(LivePending(c.(pending := pending), l), LivePending(c, l));
  }

  lemma StartedLost(c: Client, lk: LookupState, l: nat)
    requires l < |c.lookups|
    ensures Lost(Started(c, lk), l) == Lost(c, l)
  {
    SamePending(c, Started(c, lk), l);
  }

  /** No step finds a lost query again, and a lookup that has lost one does not end. */
  lemma StepLost(c: Client, e: Event, l: nat)
    requires Invariant(c) && Apply(c, e).generated <= TWO_32 && l < |c.lookups|
    ensures l < |Apply(c, e).lookups| && Lost(Apply(c, e), l) >= Lost(c, l)
    ensures Lost(c, l) > 0 ==> Apply(c, e).lookups[l].active == c.lookups[l].active
  {
    hide ContinueLookup, Lost, Entered;
    match e {
      case Start(target, kind, infoHash, nodes, order, now) =>
        var lk := NewLookup(target, kind, infoHash, nodes);
        StartedLost(c, lk, l);
        ContinueLost(Started(c, lk), |c.lookups|, order, now, l);
      case Answer(msg, order, now) =>
        if OfLookup(c, msg.tid) {
          AnswerIsEnteredFirst(c, msg, order, now);
          EnteredLost(c, msg, l);
          EnteredLookup(c, msg);
          ContinueLost(Entered(c, msg), c.pending[msg.tid].lookup.value, order, now, l);
        } else if msg.tid in c.pending {
          FewerPendingLost(c, c.pending - {msg.tid}, l);
        }
      case Fail(tid) => FewerPendingLost(c, c.pending - {tid}, l);
      case Expire(now) =>
        FewerPendingLost(c, map tid | tid in c.pending && !Expired(c.pending[tid], now) :: c.pending[tid], l);
      case Ask(key, now) => AskLost(c, key, now, l);
    }
  }

  lemma EnteredLookup(c: Client, msg: Response)
    requires OfLookup(c, msg.tid)
    ensures |Entered(c, msg).lookups| == |c.lookups|
    ensures Entered(c, msg).lookups[c.pending[msg.tid].lookup.value] == AnsweredLookup(c, msg)
  {
  }

  lemma AskLost(c: Client, key: Key, now: int, l: nat)
    requires l < |c.lookups|
    ensures Lost(SendOne(c, key, None, now), l) >= Lost(c, l)
  {
    SendOneLive(c, key, None, now, l);
  }

  // ----- whole runs -----

  /** In every run, the number of lost queries of a lookup never goes down, and with some it never ends. */
  lemma {:induction false} LostForEver(events: seq<Event>, k: nat, l: nat)
    requires LegalRun(events) && Run(events).generated <= TWO_32 && k <= |events| && l < |Run(events[..k]).lookups|
    ensures l < |Run(events).lookups| && Lost(Run(events), l) >= Lost(Run(events[..k]), l) >= 0
    ensures Lost(Run(events[..k]), l) > 0 ==> Run(events).lookups[l].active == Run(events[..k]).lookups[l].active
  {
    hide Apply, Lost, Invariant;
    if k == |events| {
      assert events[..k] == events;
      RunKeeps(events);
      NoneLostAtFirst(Run(events), l);
    } else {
      var last := |events| - 1;
      var init := events[..last];
      assert init[..k] == events[..k];
      LegalPrefix(events, last);
      FewerGenerated(events, last);
      LostForEver(init, k, l);
      RunKeeps(init);
      StepLost(Run(init), events[last], l);
    }
  }

  lemma NoneLostAtFirst(c: Client, l: nat)
    requires Invariant(c) && l < |c.lookups|
    ensures Lost(c, l) >= 0
  {
    LiveAtMostInFlight(c, l);
  }

  /** The step forgets a query of the lookup: it failed, or it was not answered in time. */
  predicate Forgets(c: Client, e: Event, l: nat) {
    (e.Fail? || e.Expire?) && exists tid :: tid in LivePending(c, l) && tid !in Apply(c, e).pending
  }

  lemma ForgottenIsLost(c: Client, e: Event, l: nat)
    requires l < |c.lookups| && Forgets(c, e, l)
    ensures l < |Apply(c, e).lookups| && Lost(Apply(c, e), l) > Lost(c, l)
    ensures Apply(c, e).lookups[l] == c.lookups[l]
  {
    hide Lost, LivePending;
    match e {
      case Fail(tid) => FewerPendingLost(c, c.pending - {tid}, l);
      case Expire(now) =>
        FewerPendingLost(c, map tid | tid in c.pending && !Expired(c.pending[tid], now) :: c.pending[tid], l);
    }
  }

  /** One query that fails or expires keeps its lookup from ever ending, whatever answers come later. */
  lemma ForgottenQueryStrands(events: seq<Event>, k: nat, l: nat)
    requires LegalRun(events) && Run(events).generated <= TWO_32 && k < |events| && l < |Run(events[..k]).lookups|
    requires Run(events[..k]).lookups[l].active && Forgets(Run(events[..k]), events[k], l)
    ensures l < |Run(events).lookups| && Run(events).lookups[l].active && Lost(Run(events), l) > 0
  {
    hide Apply, Lost, Invariant, Forgets;
    var before := Run(events[..k]);
    LegalPrefix(events, k);
    FewerGenerated(events, k);
    RunKeeps(events[..k]);
    NoneLostAtFirst(before, l);
    ForgottenIsLost(before, events[k], l);
    assert events[..k + 1][..k] == events[..k] && Run(events[..k + 1]) == Apply(before, events[k]);
    LostForEver(events, k + 1, l);
  }

  // ----- lookups that have asked too many -----

  /** One continuation forgets no endpoint asked, and does not end a lookup that has asked more than eight. */
  lemma AdvancedAsked(lk: LookupState, order: seq<RoutingTable.DHTNode>)
    requires lk.inFlight <= 3
    ensures |lk.queried| <= |Advanced(lk, order).queried|
    ensures |Advanced(lk, order).queried| > 8 ==> Advanced(lk, order).active == lk.active
  {
    ChooseAdds(Capped(Uniqued(order)), Choice(lk.queried, lk.inFlight, []), lk.queried, lk.inFlight);
  }

  /** What becomes of lookup `l` in a step. */
  predicate StaysBusy(c: Client, next: Client, l: nat) {
    && l < |c.lookups| <= |next.lookups|
    && |c.lookups[l].queried| <= |next.lookups[l].queried|
    && (|c.lookups[l].queried| > 8 ==> next.lookups[l].active == c.lookups[l].active)
  }

  lemma ContinueAsked(c: Client, k: nat, order: seq<RoutingTable.DHTNode>, now: int, l: nat)
    requires k < |c.lookups| && l < |c.lookups| && c.lookups[k].inFlight <= 3
    ensures StaysBusy(c, ContinueLookup(c, k, order, now), l)
  {
    hide Advanced, Chosen;
    AdvancedAsked(c.lookups[k], order);
  }

  lemma StepAsked(c: Client, e: Event, l: nat)
    requires Invariant(c) && l < |c.lookups|
    ensures StaysBusy(c, Apply(c, e), l)
  {
    hide ContinueLookup, Lost, Discovered;
    match e {
      case Start(target, kind, infoHash, nodes, order, now) =>
        ContinueAsked(Started(c, NewLookup(target, kind, infoHash, nodes)), |c.lookups|, order, now, l);
      case Answer(msg, order, now) =>
        if OfLookup(c, msg.tid) {
          var k := c.pending[msg.tid].lookup.value;
          assert LookupOk(c.lookups[k]);
          ContinueAsked(c.(lookups := c.lookups[k := AnsweredLookup(c, msg)]), k, order, now, l);
        }
      case Fail(_) =>
      case Expire(_) =>
      case Ask(_, _) =>
    }
  }

  /** A lookup that has asked more than eight endpoints, whether they answered or not, never ends. */
  lemma {:induction false} ManyAskedNeverEnds(events: seq<Event>, k: nat, l: nat)
    requires LegalRun(events) && Run(events).generated <= TWO_32 && k <= |events| && l < |Run(events[..k]).lookups|
    ensures StaysBusy(Run(events[..k]), Run(events), l)
  {
    hide Apply, Invariant;
    if k == |events| {
      assert events[..k] == events;
    } else {
      var last := |events| - 1;
      var init := events[..last];
      assert init[..k] == events[..k];
      LegalPrefix(events, last);
      FewerGenerated(events, last);
      ManyAskedNeverEnds(init, k, l);
      RunKeeps(init);
      StepAsked(Run(init), events[last], l);
    }
  }
}
