/** The DHT client as an object: its lookups, the queries that wait for answers and the transaction identifiers. */
module DhtClient {
  import opened Bytes
  import opened NodeId
  import opened RoutingTable
  import opened Krpc
  import opened Lookup
  import Endian

  /** `std::unique` over a sorted list. */
  method Unique(nodes: seq<DHTNode>) returns (r: seq<DHTNode>)
    ensures r == Uniqued(nodes)
  {
    r := [];
    for k := 0 to |nodes|
      invariant r == Uniqued(nodes[..k])
    {
      assert nodes[..k + 1][..k] == nodes[..k];
      if r == [] || r[|r| - 1].id != nodes[k].id {
        r := r + [nodes[k]];
      }
    }
    assert nodes[..|nodes|] == nodes;
  }

  method CountActive(nodes: seq<DHTNode>, queried: set<Key>) returns (activeCount: nat)
    ensures activeCount == CountQueried(Closest(nodes), queried)
  {
    activeCount := 0;
    var limit := if |nodes| < LOOKUP_K then |nodes| else LOOKUP_K;
    for i := 0 to limit
      invariant activeCount == CountQueried(nodes[..i], queried)
    {
      assert nodes[..i + 1][..i] == nodes[..i];
      if KeyOf(nodes[i]) in queried {
        activeCount := activeCount + 1;
      }
    }
    assert nodes[..limit] == Closest(nodes);
  }

  method ChooseNext(nodes: seq<DHTNode>, start: Choice) returns (c: Choice)
    ensures c == Choose(nodes, start)
  {
    c := start;
    var i := 0;
    while i < |nodes| && c.inFlight < LOOKUP_ALPHA
      invariant i <= |nodes| && Choose(nodes[i..], c) == Choose(nodes, start)
    {
      var node := nodes[i];
      assert nodes[i..][0] == node && nodes[i..][1..] == nodes[i + 1..];
      if KeyOf(node) !in c.queried {
        c := Choice(c.queried + {KeyOf(node)}, c.inFlight + 1, c.chosen + [node]);
      }
      i := i + 1;
    }
  }

  method AddDiscovered(shortlist: seq<DHTNode>, nodes: seq<DHTNode>) returns (r: seq<DHTNode>)
    ensures r == Discovered(shortlist, Keys(shortlist), nodes)
  {
    var seen: set<Key> := {};
    for k := 0 to |shortlist|
      invariant seen == Keys(shortlist[..k])
    {
      assert shortlist[..k + 1] == shortlist[..k] + [shortlist[k]];
      KeysOfLast(shortlist[..k], shortlist[k]);
      seen := seen + {KeyOf(shortlist[k])};
    }
    assert shortlist[..|shortlist|] == shortlist;
    r := shortlist;
    for k := 0 to |nodes|
      invariant Discovered(r, seen, nodes[k..]) == Discovered(shortlist, Keys(shortlist), nodes)
    {
      assert nodes[k..][0] == nodes[k] && nodes[k..][1..] == nodes[k + 1..];
      if KeyOf(nodes[k]) !in seen {
        r := r + [nodes[k]];
        seen := seen + {KeyOf(nodes[k])};
      }
    }
  }

  class DhtClient {
    var lookups: seq<LookupState>
    var pending: map<seq<byte>, PendingQuery>
    var counter: int
    ghost var generated: nat
    ghost var sent: seq<Sent>

    ghost function Snapshot(): Client
      reads this
    {
      Client(lookups, pending, generated, sent)
    }

    /** The 32-bit counter wraps. */
    ghost predicate Valid()
      reads this
    {
      counter == generated % TWO_32
    }

    constructor ()
      ensures Valid() && Snapshot() == IDLE
    {
      lookups, pending, counter, generated, sent := [], map[], 0, 0, [];
    }

    /** `TransactionIDGenerator::generate`. */
    method Generate() returns (tid: seq<byte>)
      requires Valid()
      modifies this`counter, this`generated
      ensures Valid() && generated == old(generated) + 1 && tid == Tid(old(generated))
    {
      var id: nat := counter;
      counter := (counter + 1) % TWO_32;
      tid := [id / 0x100_0000 % 256, id / 0x1_0000 % 256, id / 0x100 % 256, id % 256];
      TidBytes(generated);
      CounterWraps(generated);
      generated := generated + 1;
    }

    /** The queries of lookups, and pings, announcements and retries outside them. */
    method SendQuery(key: Key, lookup: Option<nat>, now: int)
      requires Valid()
      modifies this
      ensures Valid() && Snapshot() == SendOne(old(Snapshot()), key, lookup, now)
    {
      var tid := Generate();
      pending := pending[tid := PendingQuery(now, key, lookup)];
      sent := sent + [Sent(key, lookup)];
    }

    method ContinueLookup(l: nat, now: int) returns (ghost order: seq<DHTNode>)
      requires Valid() && l < |lookups|
      modifies this
      ensures Valid() && IsOrder(order, old(lookups[l].shortlist), old(lookups[l].target))
      ensures Snapshot() == Lookup.ContinueLookup(old(Snapshot()), l, order, now)
    {
      var lk := lookups[l];
      var sorted := SortByDistance(lk.shortlist, lk.target);
      order := sorted;
      var shortlist := Unique(sorted);
      if |shortlist| > LOOKUP_K * 4 {
        shortlist := shortlist[..LOOKUP_K * 4];
      }
      var activeCount := CountActive(shortlist, lk.queried);
      var choice := ChooseNext(shortlist, Choice(lk.queried, lk.inFlight, []));
      var over := choice.inFlight == 0 && activeCount == |choice.queried|;
      lookups := lookups[l := lk.(shortlist := shortlist, queried := choice.queried, inFlight := choice.inFlight,
                                  active := lk.active && !over)];
      assert lookups == old(lookups)[l := Advanced(lk, order)];
      if Sends(lk) {
        SendQueries(choice.chosen, l, now);
      }
    }

    method SendQueries(nodes: seq<DHTNode>, l: nat, now: int)
      requires Valid()
      modifies this
      ensures Valid() && Snapshot() == SendAll(old(Snapshot()), nodes, l, now)
    {
      for k := 0 to |nodes|
        invariant Valid() && SendAll(Snapshot(), nodes[k..], l, now) == SendAll(old(Snapshot()), nodes, l, now)
      {
        assert nodes[k..][0] == nodes[k] && nodes[k..][1..] == nodes[k + 1..];
        SendQuery(KeyOf(nodes[k]), Some(l), now);
      }
    }

    /** `iterative_find_node`, `iterative_get_peers` and `announce`: a new lookup over the closest known nodes. */
    method StartLookup(target: Id, kind: QueryType, infoHash: Option<Id>, nodes: seq<DHTNode>, now: int)
      returns (ghost order: seq<DHTNode>)
      requires Valid()
      modifies this
      ensures Valid() && Legal(old(Snapshot()), Start(target, kind, infoHash, nodes, order, now))
      ensures Snapshot() == Lookup.Apply(old(Snapshot()), Start(target, kind, infoHash, nodes, order, now))
    {
      var id := Generate();
      lookups := lookups + [NewLookup(target, kind, infoHash, nodes)];
      order := ContinueLookup(|lookups| - 1, now);
    }

    method HandleLookupResponse(msg: Response, now: int) returns (ghost order: seq<DHTNode>)
      requires Valid() && OfLookup(Snapshot(), msg.tid)
      modifies this
      ensures Valid() && IsOrder(order, old(AnsweredLookup(Snapshot(), msg).shortlist), old(AnsweredLookup(Snapshot(), msg).target))
      ensures var c := old(Snapshot()); var l := c.pending[msg.tid].lookup.value;
        Snapshot() == Lookup.ContinueLookup(c.(lookups := c.lookups[l := AnsweredLookup(c, msg)]), l, order, now)
    {
      var query := pending[msg.tid];
      var l := query.lookup.value;
      var lk := lookups[l];
      lk := lk.(responding := lk.responding + {query.key});
      if msg.token.Some? {
        lk := lk.(tokens := lk.tokens[query.key := msg.token.value]);
      }
      if lk.inFlight > 0 {
        lk := lk.(inFlight := lk.inFlight - 1);
      }
      if msg.nodes.Some? {
        var shortlist := AddDiscovered(lk.shortlist, msg.nodes.value);
        lk := lk.(shortlist := shortlist);
      }
      assert lk == AnsweredLookup(Snapshot(), msg);
      lookups := lookups[l := lk];
      order := ContinueLookup(l, now);
    }

    method HandleResponse(msg: Response, now: int) returns (ghost order: seq<DHTNode>)
      requires Valid() && NoStrayQueries(Snapshot())
      modifies this
      ensures Valid() && Legal(old(Snapshot()), Answer(msg, order, now))
      ensures Snapshot() == Lookup.Apply(old(Snapshot()), Answer(msg, order, now))
    {
      order := [];
      if msg.tid !in pending {
        return;
      }
      if pending[msg.tid].lookup.Some? {
        order := HandleLookupResponse(msg, now);
      }
      pending := pending - {msg.tid};
    }

    method HandleError(tid: seq<byte>)
      modifies this`pending
      ensures Snapshot() == Lookup.Apply(old(Snapshot()), Fail(tid))
    {
      pending := pending - {tid};
    }

    method CleanupExpiredQueries(now: int)
      modifies this`pending
      ensures Snapshot() == Lookup.Apply(old(Snapshot()), Expire(now))
    {
      var left := pending.Keys;
      while left != {}
        invariant left <= pending.Keys <= old(pending).Keys
        invariant forall tid | tid in pending :: pending[tid] == old(pending)[tid]
        invariant forall tid | tid in left :: tid in pending
        invariant forall tid | tid in old(pending) && tid !in left :: tid in pending <==> !Expired(old(pending)[tid], now)
        decreases |left|
      {
        var tid :| tid in left;
        left := left - {tid};
        if Expired(pending[tid], now) {
          pending := pending - {tid};
        }
      }
      assert pending == map tid | tid in old(pending) && !Expired(old(pending)[tid], now) :: old(pending)[tid];
    }
  }

  lemma CounterWraps(n: nat)
    ensures (n % TWO_32 + 1) % TWO_32 == (n + 1) % TWO_32
  {
  }

  lemma TidBytes(n: nat)
    ensures var id: nat := n % TWO_32;
      Tid(n) == [id / 0x100_0000 % 256, id / 0x1_0000 % 256, id / 0x100 % 256, id % 256]
  {
    var id := n % TWO_32;
    assert id / 256 / 256 == id / 0x1_0000 && id / 0x1_0000 / 256 == id / 0x100_0000;
    assert Endian.BigEndian(id, 4) == Endian.BigEndian(id / 256, 3) + [id % 256];
    assert Endian.BigEndian(id / 256, 3) == Endian.BigEndian(id / 0x1_0000, 2) + [id / 256 % 256];
    assert Endian.BigEndian(id / 0x1_0000, 2) == Endian.BigEndian(id / 0x100_0000, 1) + [id / 0x1_0000 % 256];
    assert Endian.BigEndian(id / 0x100_0000, 1) == [] + [id / 0x100_0000 % 256];
  }
}
