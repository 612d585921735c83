/** The Kademlia routing table: buckets, eviction, closest nodes. */
module RoutingTable {
  import opened Bytes
  import opened Sequences
  import opened Bits
  import opened NodeId

  // Times are in nanoseconds.
  const MINUTE: int := 60_000_000_000
  const SECOND: int := 1_000_000_000
  const K: nat := 8
  const BUCKETS: nat := 160

  type Ip = s: seq<byte> | |s| == 4 witness [0, 0, 0, 0]
  type Port = x: int | 0 <= x < 0x1_0000

  datatype DHTNode = DHTNode(id: Id, ip: Ip, port: Port, lastSeen: int, lastQuery: int, failedQueries: int)

  datatype Quality = GOOD | QUESTIONABLE | BAD

  /** Whole minutes of a duration, truncated towards zero. */
  function Minutes(duration: int): int {
    if duration >= 0 then duration / 60_000_000_000 else -(-duration / 60_000_000_000)
  }

  /** Whole seconds of a duration, truncated towards zero. */
  function Seconds(duration: int): int {
    if duration >= 0 then duration / 1_000_000_000 else -(-duration / 1_000_000_000)
  }

  function QualityOf(n: DHTNode, now: int): Quality {
    if n.failedQueries >= 3 then BAD
    else if Minutes(now - n.lastSeen) < 15 then GOOD
    else if Minutes(now - n.lastSeen) < 60 then QUESTIONABLE
    else BAD
  }

  type Bucket = seq<DHTNode>

  datatype Table = Table(ownId: Id, buckets: seq<Bucket>)

  // ----- one bucket -----

  /** The position of the node with an identifier; the size of the bucket when there is none. */
  function FindId(nodes: Bucket, id: Id): (i: nat)
    ensures i <= |nodes| && (i < |nodes| ==> nodes[i].id == id)
    ensures forall j | 0 <= j < i :: nodes[j].id != id
  {
    if nodes == [] || nodes[0].id == id then 0 else 1 + FindId(nodes[1..], id)
  }

  function FindBad(nodes: Bucket, now: int): (i: nat)
    ensures i <= |nodes| && (i < |nodes| ==> QualityOf(nodes[i], now) == BAD)
    ensures forall j | 0 <= j < i :: QualityOf(nodes[j], now) != BAD
  {
    if nodes == [] || QualityOf(nodes[0], now) == BAD then 0 else 1 + FindBad(nodes[1..], now)
  }

  function AddToBucket(nodes: Bucket, node: DHTNode, now: int): Bucket {
    var i := FindId(nodes, node.id);
    if i < |nodes| then nodes[i := node]
    else if |nodes| < K then nodes + [node]
    else
      var bad := FindBad(nodes, now);
      if bad < |nodes| then nodes[bad := node] else nodes
  }

  /** `std::remove_if` by identifier. */
  function WithoutId(nodes: Bucket, id: Id): Bucket {
    if nodes == [] then []
    else (if nodes[0].id == id then [] else [nodes[0]]) + WithoutId(nodes[1..], id)
  }

  function UpdateNode(nodes: Bucket, id: Id, change: DHTNode -> DHTNode): Bucket {
    var i := FindId(nodes, id);
    if i < |nodes| then nodes[i := change(nodes[i])] else nodes
  }

  function SeenAt(now: int): DHTNode -> DHTNode { (n: DHTNode) => n.(lastSeen := now, failedQueries := 0) }
  function QueriedAt(now: int): DHTNode -> DHTNode { (n: DHTNode) => n.(lastQuery := now) }
  function FailedOnce(): DHTNode -> DHTNode { (n: DHTNode) => n.(failedQueries := n.failedQueries + 1) }

  // ----- the table -----

  function BucketFor(t: Table, id: Id): nat { BucketOf(Distance(t.ownId, id)) }

  lemma BucketInRange(t: Table, id: Id)
    ensures BucketFor(t, id) < BUCKETS
  {
    if Value(Distance(t.ownId, id)) > 0 {
      BucketBounds(Distance(t.ownId, id));
    }
  }

  function AddNode(t: Table, node: DHTNode, now: int): (r: Table)
    requires |t.buckets| == BUCKETS
    ensures |r.buckets| == BUCKETS && r.ownId == t.ownId
  {
    if node.id == t.ownId then t
    else
      var b := BucketFor(t, node.id);
      BucketInRange(t, node.id);
      t.(buckets := t.buckets[b := AddToBucket(t.buckets[b], node, now)])
  }

  function RemoveNode(t: Table, id: Id): (r: Table)
    requires |t.buckets| == BUCKETS
    ensures |r.buckets| == BUCKETS
  {
    var b := BucketFor(t, id);
    BucketInRange(t, id);
    t.(buckets := t.buckets[b := WithoutId(t.buckets[b], id)])
  }

  function MarkNode(t: Table, id: Id, change: DHTNode -> DHTNode): (r: Table)
    requires |t.buckets| == BUCKETS
    ensures |r.buckets| == BUCKETS
  {
    var b := BucketFor(t, id);
    BucketInRange(t, id);
    t.(buckets := t.buckets[b := UpdateNode(t.buckets[b], id, change)])
  }

  // ----- the invariant over all runs -----

  predicate UniqueIds(nodes: Bucket) {
    forall i, j | 0 <= i < j < |nodes| :: nodes[i].id != nodes[j].id
  }

  /** Bucket `b` holds at most 8 nodes, all different, none the own one, at distances with highest bit `b`. */
  predicate BucketOk(ownId: Id, b: nat, nodes: Bucket) {
    && |nodes| <= K && UniqueIds(nodes)
    && forall n | n in nodes :: n.id != ownId && BucketOf(Distance(ownId, n.id)) == b
  }

  predicate TableOk(t: Table) {
    |t.buckets| == BUCKETS && forall b | 0 <= b < BUCKETS :: BucketOk(t.ownId, b, t.buckets[b])
  }

  /** Every node is in the bucket of its distance: 2^b <= distance < 2^(b+1). */
  lemma NodesAreInTheirBuckets(t: Table, b: nat, n: DHTNode)
    requires TableOk(t) && b < BUCKETS && n in t.buckets[b]
    ensures Power2(b) <= Value(Distance(t.ownId, n.id)) < Power2(b + 1)
    ensures n.id != t.ownId
  {
    DistanceLaws(t.ownId, n.id);
    BucketBounds(Distance(t.ownId, n.id));
  }

  /** Identifiers are unique across the whole table. */
  lemma IdsAreUnique(t: Table, b: nat, i: nat, c: nat, j: nat)
    requires TableOk(t) && b < BUCKETS && c < BUCKETS && i < |t.buckets[b]| && j < |t.buckets[c]|
    requires t.buckets[b][i].id == t.buckets[c][j].id
    ensures b == c && i == j
  {
    assert BucketOk(t.ownId, b, t.buckets[b]) && BucketOk(t.ownId, c, t.buckets[c]);
    assert t.buckets[b][i] in t.buckets[b] && t.buckets[c][j] in t.buckets[c];
  }

  lemma AddToBucketOk(ownId: Id, b: nat, nodes: Bucket, node: DHTNode, now: int)
    requires BucketOk(ownId, b, nodes) && node.id != ownId && BucketOf(Distance(ownId, node.id)) == b
    ensures BucketOk(ownId, b, AddToBucket(nodes, node, now))
  {
    var after := AddToBucket(nodes, node, now);
    assert forall n | n in after :: n == node || n in nodes;
  }

  lemma {:induction false} WithoutIdHolds(nodes: Bucket, id: Id)
    ensures |WithoutId(nodes, id)| <= |nodes|
    ensures forall n :: n in WithoutId(nodes, id) <==> n in nodes && n.id != id
  {
    if nodes != [] {
      WithoutIdHolds(nodes[1..], id);
      assert nodes == [nodes[0]] + nodes[1..];
    }
  }

  lemma {:induction false} WithoutIdUnique(nodes: Bucket, id: Id)
    requires UniqueIds(nodes)
    ensures UniqueIds(WithoutId(nodes, id))
  {
    if nodes != [] {
      var first, others := nodes[0], nodes[1..];
      assert forall n | n in others :: n.id != first.id;
      WithoutIdUnique(others, id);
      WithoutIdHolds(others, id);
      FirstIsUnique(first, WithoutId(others, id));
    }
  }

  lemma FirstIsUnique(first: DHTNode, rest: Bucket)
    requires UniqueIds(rest) && forall n | n in rest :: n.id != first.id
    ensures UniqueIds([first] + rest) && UniqueIds([] + rest)
  {
    assert [] + rest == rest;
  }

  lemma WithoutIdOk(nodes: Bucket, id: Id)
    requires UniqueIds(nodes)
    ensures UniqueIds(WithoutId(nodes, id)) && |WithoutId(nodes, id)| <= |nodes|
    ensures forall n :: n in WithoutId(nodes, id) <==> n in nodes && n.id != id
  {
    WithoutIdHolds(nodes, id);
    WithoutIdUnique(nodes, id);
  }

  lemma UpdateNodeOk(ownId: Id, b: nat, nodes: Bucket, id: Id, change: DHTNode -> DHTNode)
    requires BucketOk(ownId, b, nodes) && forall n :: change(n).id == n.id
    ensures BucketOk(ownId, b, UpdateNode(nodes, id, change))
  {
    var after, i := UpdateNode(nodes, id, change), FindId(nodes, id);
    forall n | n in after ensures n.id != ownId && BucketOf(Distance(ownId, n.id)) == b {
      var j :| 0 <= j < |after| && after[j] == n;
      assert nodes[j] in nodes && n.id == nodes[j].id;
    }
  }

  datatype Event =
    | Add(node: DHTNode, now: int)
    | Remove(id: Id)
    | Seen(id: Id, now: int)
    | QuerySent(id: Id, now: int)
    | QueryFailed(id: Id)

  function Apply(t: Table, e: Event): Table
    requires |t.buckets| == BUCKETS
  {
    match e
    case Add(node, now) => AddNode(t, node, now)
    case Remove(id) => RemoveNode(t, id)
    case Seen(id, now) => MarkNode(t, id, SeenAt(now))
    case QuerySent(id, now) => MarkNode(t, id, QueriedAt(now))
    case QueryFailed(id) => MarkNode(t, id, FailedOnce())
  }

  lemma ApplyOk(t: Table, e: Event)
    requires TableOk(t)
    ensures TableOk(Apply(t, e)) && Apply(t, e).ownId == t.ownId
  {
    match e {
      case Add(node, now) =>
        if node.id != t.ownId {
          var b := BucketFor(t, node.id);
          BucketInRange(t, node.id);
          AddToBucketOk(t.ownId, b, t.buckets[b], node, now);
        }
      case Remove(id) =>
        BucketInRange(t, id);
        WithoutIdOk(t.buckets[BucketFor(t, id)], id);
      case Seen(id, now) => MarkOk(t, id, SeenAt(now));
      case QuerySent(id, now) => MarkOk(t, id, QueriedAt(now));
      case QueryFailed(id) => MarkOk(t, id, FailedOnce());
    }
  }

  lemma MarkOk(t: Table, id: Id, change: DHTNode -> DHTNode)
    requires TableOk(t) && forall n :: change(n).id == n.id
    ensures TableOk(MarkNode(t, id, change))
  {
    var b := BucketFor(t, id);
    BucketInRange(t, id);
    UpdateNodeOk(t.ownId, b, t.buckets[b], id, change);
  }

  function Empty(ownId: Id): Table { Table(ownId, seq(BUCKETS, _ => [])) }

  function Run(t: Table, events: seq<Event>): (r: Table)
    requires TableOk(t)
    ensures TableOk(r) && r.ownId == t.ownId
  {
    if events == [] then t
    else
      var before := Run(t, events[..|events| - 1]);
      ApplyOk(before, events[|events| - 1]);
      Apply(before, events[|events| - 1])
  }

  /** After every run from an empty table: right buckets, at most 8 nodes in each, no identifier twice, never the own one. */
  lemma EveryRunIsOk(ownId: Id, events: seq<Event>, b: nat, i: nat, c: nat, j: nat)
    requires b < BUCKETS && c < BUCKETS
    ensures TableOk(Empty(ownId))
    ensures var t := Run(Empty(ownId), events);
      && |t.buckets[b]| <= 8
      && (i < |t.buckets[b]| ==>
            t.buckets[b][i].id != ownId
            && Power2(b) <= Value(Distance(ownId, t.buckets[b][i].id)) < Power2(b + 1))
      && (i < |t.buckets[b]| && j < |t.buckets[c]| && t.buckets[b][i].id == t.buckets[c][j].id ==> b == c && i == j)
  {
    var t := Run(Empty(ownId), events);
    assert BucketOk(t.ownId, b, t.buckets[b]);
    if i < |t.buckets[b]| {
      NodesAreInTheirBuckets(t, b, t.buckets[b][i]);
      if j < |t.buckets[c]| && t.buckets[b][i].id == t.buckets[c][j].id {
        IdsAreUnique(t, b, i, c, j);
      }
    }
  }

  /** Adding a node displaces another only from a full bucket, only one in state BAD, and only for the new node. */
  lemma AddEvictsOnlyBad(t: Table, node: DHTNode, now: int, b: nat, i: nat)
    requires TableOk(t) && b < BUCKETS && i < |t.buckets[b]|
    requires t.buckets[b][i] !in AddNode(t, node, now).buckets[b]
    ensures b == BucketFor(t, node.id) && node in AddNode(t, node, now).buckets[b]
    ensures t.buckets[b][i].id == node.id || (QualityOf(t.buckets[b][i], now) == BAD && |t.buckets[b]| == K)
    ensures |AddNode(t, node, now).buckets[b]| == |t.buckets[b]|
  {
    BucketInRange(t, node.id);
    var nodes := t.buckets[b];
    assert nodes[i] in nodes;
    var after := AddToBucket(nodes, node, now);
    var at, bad := FindId(nodes, node.id), FindBad(nodes, now);
    forall j | 0 <= j < |nodes| && j < |after| && after[j] == nodes[j] ensures nodes[j] in after {
    }
    assert at < |nodes| ==> after[at] == node;
    assert at == |nodes| && |nodes| == K && bad < |nodes| ==> after[bad] == node;
  }

  /**
   * A node is stored exactly if it is not the own one, and its bucket knows its identifier,
   * has room, or holds a node in state BAD.
   */
  lemma AddStoresIff(t: Table, node: DHTNode, now: int)
    requires TableOk(t)
    ensures BucketFor(t, node.id) < BUCKETS
    ensures var nodes := t.buckets[BucketFor(t, node.id)];
      node in AddNode(t, node, now).buckets[BucketFor(t, node.id)] <==>
        node.id != t.ownId
        && (|nodes| < K || exists n | n in nodes :: n.id == node.id || QualityOf(n, now) == BAD)
  {
    BucketInRange(t, node.id);
    var nodes := t.buckets[BucketFor(t, node.id)];
    var i, bad, after := FindId(nodes, node.id), FindBad(nodes, now), AddToBucket(nodes, node, now);
    assert i < |nodes| ==> nodes[i] in nodes && after[i] == node;
    assert i == |nodes| && |nodes| < K ==> after[|nodes|] == node;
    assert i == |nodes| && |nodes| == K && bad < |nodes| ==> nodes[bad] in nodes && after[bad] == node;
  }

  /** Removing takes away the node with the identifier and no other. */
  lemma RemoveTakesOne(t: Table, id: Id, b: nat)
    requires TableOk(t) && b < BUCKETS
    ensures forall n :: n in RemoveNode(t, id).buckets[b] <==> n in t.buckets[b] && n.id != id
  {
    BucketInRange(t, id);
    WithoutIdOk(t.buckets[BucketFor(t, id)], id);
    assert BucketOk(t.ownId, b, t.buckets[b]);
  }

  /** A mark changes the node with the identifier, wherever it is, and no other. */
  lemma MarkChangesOne(t: Table, id: Id, change: DHTNode -> DHTNode, b: nat, i: nat)
    requires TableOk(t) && b < BUCKETS && i < |t.buckets[b]|
    ensures var after := MarkNode(t, id, change).buckets[b];
      && |after| == |t.buckets[b]|
      && after[i] == if t.buckets[b][i].id == id then change(t.buckets[b][i]) else t.buckets[b][i]
  {
    BucketInRange(t, id);
    assert BucketOk(t.ownId, b, t.buckets[b]) && t.buckets[b][i] in t.buckets[b];
  }

  /** Three failures in a row make a node BAD, whatever it was; one answer makes it GOOD again. */
  lemma FailuresAndAnswers(n: DHTNode, now: int, at: int)
    requires n.failedQueries >= 0
    ensures QualityOf(FailedOnce()(FailedOnce()(FailedOnce()(n))), now) == BAD
    ensures QualityOf(SeenAt(at)(n), now) == GOOD <==> now - at < 15 * MINUTE
  {
  }

  /** In any table, three failures reported in a row make the node BAD, whenever it is asked; one answer then makes it GOOD. */
  lemma ReportsDecide(t: Table, b: nat, i: nat, seen: int, now: int)
    requires TableOk(t) && b < BUCKETS && i < |t.buckets[b]| && t.buckets[b][i].failedQueries >= 0
    ensures var id := t.buckets[b][i].id; var failed := Run(t, [QueryFailed(id), QueryFailed(id), QueryFailed(id)]);
      && |failed.buckets[b]| == |t.buckets[b]| && failed.buckets[b][i].id == id && QualityOf(failed.buckets[b][i], now) == BAD
      && var answered := Apply(failed, Seen(id, seen));
         |answered.buckets[b]| == |t.buckets[b]|
         && (QualityOf(answered.buckets[b][i], now) == GOOD <==> now - seen < 15 * MINUTE)
  {
    hide MarkNode, QualityOf, BucketOk;
    var id := t.buckets[b][i].id;
    var fail := QueryFailed(id);
    RunThree(t, fail);
    var one := Apply(t, fail);
    var two := Apply(one, fail);
    ApplyOk(t, fail);
    ApplyOk(one, fail);
    ApplyOk(two, fail);
    MarkChangesOne(t, id, FailedOnce(), b, i);
    MarkChangesOne(one, id, FailedOnce(), b, i);
    MarkChangesOne(two, id, FailedOnce(), b, i);
    var failed := Apply(two, fail);
    MarkChangesOne(failed, id, SeenAt(seen), b, i);
    FailuresAndAnswers(t.buckets[b][i], now, seen);
    FailuresAndAnswers(failed.buckets[b][i], now, seen);
  }

  lemma RunThree(t: Table, e: Event)
    requires TableOk(t)
    ensures TableOk(Apply(t, e)) && TableOk(Apply(Apply(t, e), e))
    ensures Run(t, [e, e, e]) == Apply(Apply(Apply(t, e), e), e)
  {
    hide Apply, BucketOk;
    var events := [e, e, e];
    assert events[..2] == [e, e] && [e, e][..1] == [e] && [e][..0] == [];
    ApplyOk(t, e);
    ApplyOk(Apply(t, e), e);
    assert Run(t, [e]) == Apply(t, e);
    assert Run(t, [e, e]) == Apply(Apply(t, e), e);
  }

  // ----- closest nodes -----

  function GoodIn(nodes: Bucket, now: int): (r: Bucket)
    ensures forall n :: n in r <==> n in nodes && QualityOf(n, now) == GOOD
    ensures |r| <= |nodes|
  {
    if nodes == [] then []
    else
      var last := nodes[|nodes| - 1];
      assert nodes == nodes[..|nodes| - 1] + [last];
      GoodIn(nodes[..|nodes| - 1], now) + (if QualityOf(last, now) == GOOD then [last] else [])
  }

  /** The good nodes of all buckets, bucket by bucket. */
  function GoodNodes(buckets: seq<Bucket>, now: int): seq<DHTNode> {
    if buckets == [] then [] else GoodNodes(buckets[..|buckets| - 1], now) + GoodIn(buckets[|buckets| - 1], now)
  }

  lemma GoodInUnique(nodes: Bucket, now: int)
    requires UniqueIds(nodes)
    ensures UniqueIds(GoodIn(nodes, now))
  {
    if nodes != [] {
      var init := nodes[..|nodes| - 1];
      GoodInUnique(init, now);
      forall n | n in GoodIn(init, now) ensures n.id != nodes[|nodes| - 1].id {
        var i :| 0 <= i < |init| && init[i] == n;
      }
    }
  }

  predicate IsGoodIn(t: Table, count: nat, n: DHTNode, now: int)
    requires count <= |t.buckets|
  {
    QualityOf(n, now) == GOOD && exists b :: 0 <= b < count && n in t.buckets[b]
  }

  lemma {:induction false} GoodNodesUnique(t: Table, count: nat, now: int)
    requires TableOk(t) && count <= BUCKETS
    ensures UniqueIds(GoodNodes(t.buckets[..count], now))
    ensures forall n :: n in GoodNodes(t.buckets[..count], now) <==> IsGoodIn(t, count, n, now)
  {
    if count > 0 {
      var earlier, last := t.buckets[..count - 1], t.buckets[count - 1];
      assert t.buckets[..count][..count - 1] == earlier;
      GoodNodesUnique(t, count - 1, now);
      assert BucketOk(t.ownId, count - 1, last);
      GoodInUnique(last, now);
      forall n, m | n in GoodNodes(earlier, now) && m in GoodIn(last, now) ensures n.id != m.id {
        var b :| 0 <= b < count - 1 && n in t.buckets[b];
        assert BucketOk(t.ownId, b, t.buckets[b]);
      }
    }
  }

  predicate Closer(a: DHTNode, b: DHTNode, target: Id) {
    LexLess(Distance(a.id, target), Distance(b.id, target))
  }

  predicate SortedByDistance(nodes: seq<DHTNode>, target: Id) {
    forall i, j | 0 <= i < j < |nodes| :: !Closer(nodes[j], nodes[i], target)
  }

  /** `std::sort` by distance: some permutation in which no node comes before a closer one. */
  method SortByDistance(nodes: seq<DHTNode>, target: Id) returns (sorted: seq<DHTNode>)
    ensures multiset(sorted) == multiset(nodes) && SortedByDistance(sorted, target)
  {
    sorted := [];
    for i := 0 to |nodes|
      invariant multiset(sorted) == multiset(nodes[..i]) && SortedByDistance(sorted, target)
    {
      var k := 0;
      while k < |sorted| && !Closer(nodes[i], sorted[k], target)
        invariant 0 <= k <= |sorted|
        invariant forall j | 0 <= j < k :: !Closer(nodes[i], sorted[j], target)
      {
        k := k + 1;
      }
      InsertSorted(sorted, k, nodes[i], target);
      assert nodes[..i + 1] == nodes[..i] + [nodes[i]];
      sorted := sorted[..k] + [nodes[i]] + sorted[k..];
    }
    assert nodes[..|nodes|] == nodes;
  }

  lemma InsertSorted(sorted: seq<DHTNode>, k: nat, n: DHTNode, target: Id)
    requires SortedByDistance(sorted, target) && k <= |sorted|
    requires forall j | 0 <= j < k :: !Closer(n, sorted[j], target)
    requires k < |sorted| ==> Closer(n, sorted[k], target)
    ensures SortedByDistance(sorted[..k] + [n] + sorted[k..], target)
    ensures multiset(sorted[..k] + [n] + sorted[k..]) == multiset(sorted) + multiset{n}
  {
    assert sorted == sorted[..k] + sorted[k..];
    forall j | k <= j < |sorted| ensures !Closer(sorted[j], n, target) {
      var a, b, c := Distance(n.id, target), Distance(sorted[k].id, target), Distance(sorted[j].id, target);
      LexTotal(b, c);
      LexTotal(a, c);
      if LexLess(b, c) {
        LexTransitive(a, b, c);
      }
    }
  }

  function Far(n: DHTNode, target: Id): nat { Value(Distance(n.id, target)) }

  /** In a sorted list of nodes with different identifiers, distances increase strictly as numbers. */
  lemma SortedIsStrict(nodes: seq<DHTNode>, target: Id)
    requires SortedByDistance(nodes, target) && UniqueIds(nodes)
    ensures forall i, j | 0 <= i < j < |nodes| :: Far(nodes[i], target) < Far(nodes[j], target)
  {
    forall i, j | 0 <= i < j < |nodes| ensures Far(nodes[i], target) < Far(nodes[j], target) {
      var a, b := Distance(nodes[i].id, target), Distance(nodes[j].id, target);
      LexTotal(a, b);
      OrderIsNumeric(a, b);
      if a == b {
        DistanceInjective(nodes[i].id, nodes[j].id, target);
      }
    }
  }

  lemma UniqueByMultiset(a: seq<DHTNode>, b: seq<DHTNode>)
    requires multiset(a) == multiset(b) && UniqueIds(a)
    ensures UniqueIds(b) && forall n :: n in a <==> n in b
  {
    forall n ensures n in a <==> n in b {
      assert n in a <==> n in multiset(a);
      assert n in b <==> n in multiset(b);
    }
    forall i, j | 0 <= i < j < |b| ensures b[i].id != b[j].id {
      if b[i].id == b[j].id {
        OneOfEach(a, b[i], b[j]);
        CountedTwice(b, i, j);
      }
    }
  }

  lemma OneOfEach(a: seq<DHTNode>, n: DHTNode, m: DHTNode)
    requires UniqueIds(a) && n in a && m in a && n.id == m.id
    ensures n == m && multiset(a)[n] == 1
  {
    var i :| 0 <= i < |a| && a[i] == n;
    assert a == a[..i] + [n] + a[i + 1..];
    assert n !in a[..i] && n !in a[i + 1..];
  }

  // ----- the object -----

  class Routing {
    var ownId: Id
    var buckets: seq<Bucket>

    function Snapshot(): Table
      reads this
    {
      Table(ownId, buckets)
    }

    constructor (ownId: Id)
      ensures Snapshot() == Empty(ownId) && TableOk(Snapshot())
    {
      this.ownId := ownId;
      buckets := seq(BUCKETS, _ => []);
    }

    method BucketIndexFor(id: Id) returns (b: nat)
      ensures b == BucketFor(Snapshot(), id) && b < BUCKETS
    {
      BucketInRange(Snapshot(), id);
      b := BucketIndex(Distance(ownId, id));
    }

    method Add(node: DHTNode, now: int)
      requires |buckets| == BUCKETS
      modifies this`buckets
      ensures Snapshot() == AddNode(old(Snapshot()), node, now)
    {
      if node.id != ownId {
        var b := BucketIndexFor(node.id);
        buckets := buckets[b := AddToBucket(buckets[b], node, now)];
      }
    }

    method Remove(id: Id)
      requires |buckets| == BUCKETS
      modifies this`buckets
      ensures Snapshot() == RemoveNode(old(Snapshot()), id)
    {
      var b := BucketIndexFor(id);
      buckets := buckets[b := WithoutId(buckets[b], id)];
    }

    method Mark(id: Id, change: DHTNode -> DHTNode)
      requires |buckets| == BUCKETS
      modifies this`buckets
      ensures Snapshot() == MarkNode(old(Snapshot()), id, change)
    {
      var b := BucketIndexFor(id);
      buckets := buckets[b := UpdateNode(buckets[b], id, change)];
    }

    method CollectGood(now: int) returns (nodes: seq<DHTNode>)
      requires |buckets| == BUCKETS
      ensures nodes == GoodNodes(buckets, now)
    {
      nodes := [];
      for b := 0 to BUCKETS
        invariant nodes == GoodNodes(buckets[..b], now)
      {
        assert buckets[..b + 1][..b] == buckets[..b];
        nodes := nodes + GoodIn(buckets[b], now);
      }
      assert buckets[..BUCKETS] == buckets;
    }

    /** `find_closest_nodes`: exactly the closest good nodes, in strictly increasing distance. */
    method FindClosestNodes(target: Id, count: nat, now: int) returns (closest: seq<DHTNode>)
      requires TableOk(Snapshot())
      ensures |closest| == if |GoodNodes(buckets, now)| > count then count else |GoodNodes(buckets, now)|
      ensures forall i, j | 0 <= i < j < |closest| :: Far(closest[i], target) < Far(closest[j], target)
      ensures forall n | n in closest :: n in GoodNodes(buckets, now)
      ensures forall n, c | n in GoodNodes(buckets, now) && n !in closest && c in closest :: Far(c, target) < Far(n, target)
    {
      var all := CollectGood(now);
      var sorted := SortByDistance(all, target);
      assert buckets[..BUCKETS] == buckets;
      GoodNodesUnique(Snapshot(), BUCKETS, now);
      UniqueByMultiset(all, sorted);
      SortedIsStrict(sorted, target);
      assert |sorted| == |multiset(sorted)| == |multiset(all)| == |all|;
      closest := if |sorted| > count then sorted[..count] else sorted;
      RestIsFarther(sorted, |closest|, target);
      assert forall n | n in closest :: n in sorted;
    }
  }

  /** Whatever is cut off the end of a strictly sorted list is farther than all that stays. */
  lemma RestIsFarther(sorted: seq<DHTNode>, kept: nat, target: Id)
    requires kept <= |sorted|
    requires forall i, j | 0 <= i < j < |sorted| :: Far(sorted[i], target) < Far(sorted[j], target)
    ensures forall n, c | n in sorted && n !in sorted[..kept] && c in sorted[..kept] :: Far(c, target) < Far(n, target)
  {
    forall i | 0 <= i < kept ensures sorted[i] in sorted[..kept] {
      assert sorted[..kept][i] == sorted[i];
    }
    forall n, c | n in sorted && n !in sorted[..kept] && c in sorted[..kept] ensures Far(c, target) < Far(n, target) {
      var i :| 0 <= i < |sorted| && sorted[i] == n;
      var j :| 0 <= j < kept && sorted[..kept][j] == c;
    }
  }
}
