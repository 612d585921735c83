/** Which nodes a routing table gives up, told by their fields, and how long a node that was seen is safe. */
module RoutingEviction {
  import opened NodeId
  import opened RoutingTable

  /** In nanoseconds. */
  const HOUR: int := 3_600_000_000_000
  const QUARTER: int := 900_000_000_000

  /** Three failures, or not seen for an hour. */
  predicate Expendable(n: DHTNode, now: int) { n.failedQueries >= 3 || now - n.lastSeen >= HOUR }

  /** The three states by the fields of a node. */
  lemma QualityByFields(n: DHTNode, now: int)
    ensures QualityOf(n, now) == BAD <==> Expendable(n, now)
    ensures QualityOf(n, now) == GOOD <==> n.failedQueries < 3 && now - n.lastSeen < QUARTER
  {
  }

  /** A node makes way for another identifier only from a full bucket, and only with three failures or after an hour. */
  lemma AddEvictsOnlyExpendable(t: Table, node: DHTNode, now: int, b: nat, i: nat)
    requires TableOk(t) && b < BUCKETS && i < |t.buckets[b]|
    requires t.buckets[b][i] !in AddNode(t, node, now).buckets[b]
    ensures t.buckets[b][i].id == node.id || (Expendable(t.buckets[b][i], now) && |t.buckets[b]| == 8)
  {
    hide AddNode, QualityOf;
    AddEvictsOnlyBad(t, node, now, b, i);
    QualityByFields(t.buckets[b][i], now);
  }

  /** A new identifier is stored if and only if it is not the own one, and its bucket has fewer than eight nodes or such a one. */
  lemma NewIsStoredIff(t: Table, node: DHTNode, now: int)
    requires TableOk(t)
    ensures BucketFor(t, node.id) < BUCKETS
    ensures var nodes := t.buckets[BucketFor(t, node.id)];
      (forall n | n in nodes :: n.id != node.id) ==>
        (node in AddNode(t, node, now).buckets[BucketFor(t, node.id)] <==>
           node.id != t.ownId && (|nodes| < 8 || exists n | n in nodes :: Expendable(n, now)))
  {
    hide AddNode, QualityOf, Expendable;
    AddStoresIff(t, node, now);
    forall n | n in t.buckets[BucketFor(t, node.id)] ensures QualityOf(n, now) == BAD <==> Expendable(n, now) {
      QualityByFields(n, now);
    }
  }

  /** What the marks do to the fields of a node: nothing else changes. */
  lemma MarksDo(n: DHTNode, now: int)
    ensures var m := SeenAt(now)(n);
      && m.lastSeen == now && m.failedQueries == 0 && m.lastQuery == n.lastQuery && m.id == n.id && m.ip == n.ip && m.port == n.port
    ensures var m := QueriedAt(now)(n);
      && m.lastQuery == now && m.lastSeen == n.lastSeen && m.failedQueries == n.failedQueries
      && m.id == n.id && m.ip == n.ip && m.port == n.port
    ensures var m := FailedOnce()(n);
      && m.failedQueries == n.failedQueries + 1 && m.lastSeen == n.lastSeen && m.lastQuery == n.lastQuery
      && m.id == n.id && m.ip == n.ip && m.port == n.port
  {
  }

  // ----- whole runs -----

  /** The table has the identifier, seen at `since` or later, with at most `failures` failures. */
  predicate Has(t: Table, id: Id, since: int, failures: nat)
    requires |t.buckets| == BUCKETS
  {
    exists b, i :: 0 <= b < BUCKETS && 0 <= i < |t.buckets[b]| && IsNode(t.buckets[b][i], id, since, failures)
  }

  predicate IsNode(n: DHTNode, id: Id, since: int, failures: nat) {
    n.id == id && n.lastSeen >= since && n.failedQueries <= failures
  }

  /**
   * An event within an hour of `since` that does not take back what is known of the identifier: no removal, and no older news.
   */
  predicate WithinTheHour(e: Event, id: Id, since: int) {
    match e
    case Add(node, now) => now < since + HOUR && (node.id == id ==> node.lastSeen >= since && node.failedQueries <= 0)
    case Remove(other) => other != id
    case Seen(other, now) => other == id ==> now >= since
    case _ => true
  }

  function Failures(events: seq<Event>, id: Id): nat {
    if events == [] then 0
    else Failures(events[..|events| - 1], id) + (if events[|events| - 1] == QueryFailed(id) then 1 else 0)
  }

  lemma MarkKeeps(t: Table, marked: Id, change: DHTNode -> DHTNode, id: Id, since: int, failures: nat, more: nat)
    requires TableOk(t) && Has(t, id, since, failures)
    requires forall n | IsNode(n, id, since, failures) :: IsNode(if id == marked then change(n) else n, id, since, more)
    ensures Has(MarkNode(t, marked, change), id, since, more)
  {
    hide MarkNode, IsNode;
    var b, i :| 0 <= b < BUCKETS && 0 <= i < |t.buckets[b]| && IsNode(t.buckets[b][i], id, since, failures);
    MarkChangesOne(t, marked, change, b, i);
    assert t.buckets[b][i].id == id by {
      IdOf(t.buckets[b][i], id, since, failures);
    }
    assert IsNode(MarkNode(t, marked, change).buckets[b][i], id, since, more);
  }

  lemma IdOf(n: DHTNode, id: Id, since: int, failures: nat)
    requires IsNode(n, id, since, failures)
    ensures n.id == id
  {
  }

  lemma AddKeeps(t: Table, node: DHTNode, now: int, id: Id, since: int, failures: nat)
    requires TableOk(t) && Has(t, id, since, failures) && failures < 3 && WithinTheHour(Add(node, now), id, since)
    ensures Has(AddNode(t, node, now), id, since, failures)
  {
    hide AddNode;
    var b, i :| 0 <= b < BUCKETS && 0 <= i < |t.buckets[b]| && IsNode(t.buckets[b][i], id, since, failures);
    var n, after := t.buckets[b][i], AddNode(t, node, now);
    if n in after.buckets[b] {
      var j :| 0 <= j < |after.buckets[b]| && after.buckets[b][j] == n;
      assert IsNode(after.buckets[b][j], id, since, failures);
    } else {
      AddEvictsOnlyBad(t, node, now, b, i);
      AddEvictsOnlyExpendable(t, node, now, b, i);
      var j :| 0 <= j < |after.buckets[b]| && after.buckets[b][j] == node;
      assert IsNode(after.buckets[b][j], id, since, failures);
    }
  }

  lemma RemoveKeeps(t: Table, other: Id, id: Id, since: int, failures: nat)
    requires TableOk(t) && Has(t, id, since, failures) && other != id
    ensures Has(RemoveNode(t, other), id, since, failures)
  {
    hide RemoveNode;
    var b, i :| 0 <= b < BUCKETS && 0 <= i < |t.buckets[b]| && IsNode(t.buckets[b][i], id, since, failures);
    RemoveTakesOne(t, other, b);
    var n, after := t.buckets[b][i], RemoveNode(t, other);
    assert n in after.buckets[b];
    var j :| 0 <= j < |after.buckets[b]| && after.buckets[b][j] == n;
    assert IsNode(after.buckets[b][j], id, since, failures);
  }

  lemma StepKeeps(t: Table, e: Event, id: Id, since: int, failures: nat)
    requires TableOk(t) && Has(t, id, since, failures) && failures < 3 && WithinTheHour(e, id, since)
    ensures Has(Apply(t, e), id, since, failures + (if e == QueryFailed(id) then 1 else 0))
  {
    hide Has, AddNode, RemoveNode, MarkNode;
    match e {
      case Add(node, now) => AddKeeps(t, node, now, id, since, failures);
      case Remove(other) => RemoveKeeps(t, other, id, since, failures);
      case Seen(other, now) => MarkKeeps(t, other, SeenAt(now), id, since, failures, failures);
      case QuerySent(other, now) => MarkKeeps(t, other, QueriedAt(now), id, since, failures, failures);
      case QueryFailed(other) =>
        MarkKeeps(t, other, FailedOnce(), id, since, failures, failures + (if other == id then 1 else 0));
    }
  }

  /** A node that was seen is safe for an hour: with fewer than three failures since then, no other identifier displaces it. */
  lemma {:induction false} SeenIsSafeForAnHour(t: Table, events: seq<Event>, id: Id, since: int)
    requires TableOk(t) && Has(t, id, since, 0) && Failures(events, id) < 3
    requires forall e | e in events :: WithinTheHour(e, id, since)
    ensures Has(Run(t, events), id, since, Failures(events, id))
  {
    hide Has, Apply, WithinTheHour;
    if events != [] {
      var init, e := events[..|events| - 1], events[|events| - 1];
      assert e in events;
      SeenIsSafeForAnHour(t, init, id, since);
      StepKeeps(Run(t, init), e, id, since, Failures(init, id));
    }
  }

  /** An answer makes a node of the table one that was just seen, whatever it was before. */
  lemma SeenNow(t: Table, b: nat, i: nat, now: int)
    requires TableOk(t) && b < BUCKETS && i < |t.buckets[b]|
    ensures Has(Apply(t, Seen(t.buckets[b][i].id, now)), t.buckets[b][i].id, now, 0)
  {
    hide MarkNode;
    MarkChangesOne(t, t.buckets[b][i].id, SeenAt(now), b, i);
    assert IsNode(Apply(t, Seen(t.buckets[b][i].id, now)).buckets[b][i], t.buckets[b][i].id, now, 0);
  }
}
