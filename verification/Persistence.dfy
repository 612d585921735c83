/** The routing table as bytes, and back. */
module Persistence {
  import opened Bytes
  import opened Endian
  import opened NodeId
  import opened RoutingTable

  /** 20 bytes of identifier, 4 of address, 2 of port. */
  function Record(n: DHTNode): (r: seq<byte>)
    ensures |r| == 26
  {
    n.id + n.ip + [n.port / 256, n.port % 256]
  }

  function Records(nodes: seq<DHTNode>): (r: seq<byte>)
    ensures |r| == 26 * |nodes|
  {
    if nodes == [] then [] else Record(nodes[0]) + Records(nodes[1..])
  }

  /** What `serialize` writes; the count is a 32-bit number. */
  function Stored(ownId: Id, good: seq<DHTNode>): seq<byte> {
    ownId + BigEndian(|good|, 4) + Records(good)
  }

  /** The node of a record, as seen now and never queried since. */
  function ReadNode(data: seq<byte>, offset: nat, now: int): DHTNode
    requires offset + 26 <= |data|
  {
    var high: nat, low: nat := data[offset + 24], data[offset + 25];
    DHTNode(data[offset..offset + 20], data[offset + 20..offset + 24], high * 256 + low, now, now - 20 * MINUTE, 0)
  }

  /** The loop of `deserialize`; it stops early when the data is too short. */
  function ReadRecords(t: Table, data: seq<byte>, offset: nat, count: nat, now: int): Table
    requires |t.buckets| == BUCKETS
    decreases count
  {
    if count == 0 || offset + 26 > |data| then t
    else ReadRecords(AddNode(t, ReadNode(data, offset, now), now), data, offset + 26, count - 1, now)
  }

  function Deserialized(t: Table, data: seq<byte>, now: int): Option<Table>
    requires |t.buckets| == BUCKETS
  {
    if |data| < 24 then None
    else Some(ReadRecords(t.(ownId := data[..20]), data, 24, FromBigEndian(data[20..24]), now))
  }

  lemma {:induction false} RecordsAt(nodes: seq<DHTNode>, k: nat)
    requires k < |nodes|
    ensures Records(nodes)[26 * k..26 * k + 26] == Record(nodes[k])
  {
    hide Record;
    if k == 0 {
      assert Records(nodes)[..26] == Record(nodes[0]);
    } else {
      RecordsAt(nodes[1..], k - 1);
      SliceBehind(Record(nodes[0]), Records(nodes[1..]), 26 * (k - 1));
    }
  }

  lemma SliceBehind(first: seq<byte>, rest: seq<byte>, i: nat)
    requires |first| == 26 && i + 26 <= |rest|
    ensures (first + rest)[26 + i..26 + i + 26] == rest[i..i + 26]
  {
  }

  /** The layout of the stored table: identifier, number of nodes, and for each node its identifier, address and port. */
  lemma StoredLayout(ownId: Id, good: seq<DHTNode>, k: nat)
    requires |good| < TWO_32 && k < |good|
    ensures var data, at := Stored(ownId, good), 24 + 26 * k;
      && |data| == 24 + 26 * |good|
      && data[..20] == ownId && FromBigEndian(data[20..24]) == |good|
      && data[at..at + 20] == good[k].id && data[at + 20..at + 24] == good[k].ip && FromBigEndian(data[at + 24..at + 26]) == good[k].port
  {
    hide BigEndian, FromBigEndian, Record;
    var data, records, at := Stored(ownId, good), Records(good), 24 + 26 * k;
    FourBytes();
    BigEndianValue(|good|, 4);
    assert data[20..24] == BigEndian(|good|, 4);
    RecordsAt(good, k);
    RecordParts(good[k]);
    var record := Record(good[k]);
    assert data[at..at + 26] == record by {
      assert data == (ownId + BigEndian(|good|, 4)) + records;
      assert data[24..] == records;
      assert data[at..at + 26] == data[24..][26 * k..26 * k + 26];
    }
    assert data[at..at + 20] == data[at..at + 26][..20] && data[at + 20..at + 24] == data[at..at + 26][20..24];
    assert data[at + 24..at + 26] == data[at..at + 26][24..];
  }

  lemma FourBytes()
    ensures Pow256(4) == TWO_32
  {
    assert Pow256(2) == 0x1_0000;
  }

  lemma RecordParts(n: DHTNode)
    ensures var r := Record(n); r[..20] == n.id && r[20..24] == n.ip && FromBigEndian(r[24..]) == n.port
  {
    var high, low := n.port / 256, n.port % 256;
    assert Record(n)[24..] == [high, low] && [high, low][..1] == [high] && [high][..0] == [];
    assert FromBigEndian([high]) == high;
  }

  method Serialize(table: Routing, now: int) returns (data: seq<byte>)
    requires |table.buckets| == BUCKETS
    ensures data == Stored(table.ownId, GoodNodes(table.buckets, now))
  {
    var good := table.CollectGood(now);
    var count := |good| % TWO_32;
    data := table.ownId + [ShiftBytes(count, 3) % 256, ShiftBytes(count, 2) % 256, ShiftBytes(count, 1) % 256, count % 256];
    CountBytes(|good|);
    ghost var head := data;
    for i := 0 to |good|
      invariant head + Records(good) == data + Records(good[i..])
    {
      assert good[i..][1..] == good[i + 1..];
      Assoc(data, Record(good[i]), Records(good[i + 1..]));
      data := data + Record(good[i]);
    }
    assert good[|good|..] == [];
  }

  lemma CountBytes(n: nat)
    ensures var c := n % TWO_32;
      [ShiftBytes(c, 3) % 256, ShiftBytes(c, 2) % 256, ShiftBytes(c, 1) % 256, c % 256] == BigEndian(n, 4)
  {
    var c := n % TWO_32;
    BigEndianWraps(c, n / TWO_32, 4);
    assert Pow256(4) == TWO_32;
    forall j | 0 <= j < 4 ensures BigEndian(c, 4)[j] == ShiftBytes(c, 3 - j) % 256 {
      BigEndianAt(c, 4, j);
    }
    assert BigEndian(c, 4) == [BigEndian(c, 4)[0], BigEndian(c, 4)[1], BigEndian(c, 4)[2], BigEndian(c, 4)[3]];
    assert ShiftBytes(c, 0) == c;
  }

  method Deserialize(table: Routing, data: seq<byte>, now: int) returns (ok: bool)
    requires |table.buckets| == BUCKETS
    modifies table
    ensures ok == Deserialized(old(table.Snapshot()), data, now).Some?
    ensures table.Snapshot() == if ok then Deserialized(old(table.Snapshot()), data, now).value else old(table.Snapshot())
  {
    hide AddNode, ReadNode, FromBigEndian;
    if |data| < 24 {
      return false;
    }
    table.ownId := data[..20];
    var count := FromBigEndian(data[20..24]);
    var offset, i := 24, 0;
    ghost var start := table.Snapshot();
    while i < count && offset + 26 <= |data|
      invariant i <= count && offset == 24 + 26 * i && |table.buckets| == BUCKETS
      invariant ReadRecords(start, data, 24, count, now) == ReadRecords(table.Snapshot(), data, offset, count - i, now)
    {
      table.Add(ReadNode(data, offset, now), now);
      offset, i := offset + 26, i + 1;
    }
    ok := true;
  }

  // ----- storing and restoring -----

  /** A node as it is after a restart. */
  function Restored(n: DHTNode, now: int): DHTNode {
    n.(lastSeen := now, lastQuery := now - 20 * MINUTE, failedQueries := 0)
  }

  function RestoredAll(nodes: seq<DHTNode>, now: int): (r: seq<DHTNode>)
    ensures |r| == |nodes| && forall i | 0 <= i < |r| :: r[i] == Restored(nodes[i], now)
  {
    seq(|nodes|, i requires 0 <= i < |nodes| => Restored(nodes[i], now))
  }

  function AddAll(t: Table, nodes: seq<DHTNode>, now: int): (r: Table)
    requires |t.buckets| == BUCKETS
    ensures |r.buckets| == BUCKETS && r.ownId == t.ownId
  {
    if nodes == [] then t else AddNode(AddAll(t, nodes[..|nodes| - 1], now), Restored(nodes[|nodes| - 1], now), now)
  }

  lemma ReadsRecord(data: seq<byte>, offset: nat, n: DHTNode, now: int)
    requires At(data, offset, Record(n))
    ensures ReadNode(data, offset, now) == Restored(n, now)
  {
    AtSplit(data, offset, n.id + n.ip, [n.port / 256, n.port % 256]);
    AtSplit(data, offset, n.id, n.ip);
    AtSlice(data, offset, n.id);
    AtSlice(data, offset + 20, n.ip);
    AtSlice(data, offset + 24, [n.port / 256, n.port % 256]);
    assert data[offset + 24] == data[offset + 24..offset + 26][0];
    assert data[offset + 25] == data[offset + 24..offset + 26][1];
  }

  lemma {:induction false} ReadsRecords(t: Table, data: seq<byte>, offset: nat, nodes: seq<DHTNode>, done: nat, now: int)
    requires |t.buckets| == BUCKETS && done <= |nodes|
    requires At(data, offset, Records(nodes[done..]))
    ensures ReadRecords(AddAll(t, nodes[..done], now), data, offset, |nodes| - done, now) == AddAll(t, nodes, now)
    decreases |nodes| - done
  {
    if done == |nodes| {
      assert nodes[..done] == nodes;
    } else {
      var n := nodes[done];
      assert nodes[done..][1..] == nodes[done + 1..];
      AtSplit(data, offset, Record(n), Records(nodes[done + 1..]));
      ReadsRecord(data, offset, n, now);
      assert nodes[..done + 1][..done] == nodes[..done];
      ReadsRecords(t, data, offset + 26, nodes, done + 1, now);
    }
  }

  lemma {:induction false} AddAllConcat(t: Table, a: seq<DHTNode>, b: seq<DHTNode>, now: int)
    requires |t.buckets| == BUCKETS
    ensures AddAll(t, a + b, now) == AddAll(AddAll(t, a, now), b, now)
  {
    if b == [] {
      assert a + b == a;
    } else {
      assert (a + b)[..|a + b| - 1] == a + b[..|b| - 1];
      AddAllConcat(t, a, b[..|b| - 1], now);
    }
  }

  /** Good nodes of one bucket, added to the table in which that bucket is still empty, fill just that bucket. */
  lemma {:induction false} AddsOneBucket(t: Table, b: nat, nodes: Bucket, now: int)
    requires |t.buckets| == BUCKETS && b < BUCKETS && t.buckets[b] == [] && BucketOk(t.ownId, b, nodes)
    ensures AddAll(t, nodes, now) == t.(buckets := t.buckets[b := RestoredAll(nodes, now)])
  {
    hide AddToBucket, QualityOf;
    if nodes == [] {
      assert RestoredAll(nodes, now) == [];
      assert t.buckets[b := []] == t.buckets;
    } else {
      var init, last := nodes[..|nodes| - 1], nodes[|nodes| - 1];
      assert nodes == init + [last];
      AddsOneBucket(t, b, init, now);
      var before, node := RestoredAll(init, now), Restored(last, now);
      assert last in nodes && BucketFor(t, node.id) == b;
      FreshNodeGoesLast(before, node, now);
      assert before + [node] == RestoredAll(nodes, now);
      assert t.buckets[b := before][b := before + [node]] == t.buckets[b := before + [node]];
    }
  }

  lemma FreshNodeGoesLast(nodes: Bucket, node: DHTNode, now: int)
    requires |nodes| < K && forall i | 0 <= i < |nodes| :: nodes[i].id != node.id
    ensures AddToBucket(nodes, node, now) == nodes + [node]
  {
  }

  lemma GoodInOk(ownId: Id, b: nat, nodes: Bucket, now: int)
    requires BucketOk(ownId, b, nodes)
    ensures BucketOk(ownId, b, GoodIn(nodes, now))
  {
    GoodInUnique(nodes, now);
  }

  lemma {:induction false} AddsAllBuckets(t: Table, count: nat, later: int, now: int)
    requires TableOk(t) && count <= BUCKETS
    ensures var r := AddAll(Empty(t.ownId), GoodNodes(t.buckets[..count], now), later);
      && r.ownId == t.ownId
      && (forall b | 0 <= b < count :: r.buckets[b] == RestoredAll(GoodIn(t.buckets[b], now), later))
      && (forall b | count <= b < BUCKETS :: r.buckets[b] == [])
  {
    hide GoodIn, RestoredAll, BucketOk;
    if count > 0 {
      var good := GoodIn(t.buckets[count - 1], now);
      var earlier := GoodNodes(t.buckets[..count - 1], now);
      AddsAllBuckets(t, count - 1, later, now);
      assert t.buckets[..count][..count - 1] == t.buckets[..count - 1];
      AddAllConcat(Empty(t.ownId), earlier, good, later);
      AddsNextBucket(t, AddAll(Empty(t.ownId), earlier, later), count, later, now);
    }
  }

  /** The good nodes of one more bucket, in their own place. */
  lemma AddsNextBucket(t: Table, r: Table, count: nat, later: int, now: int)
    requires TableOk(t) && 0 < count <= BUCKETS && r.ownId == t.ownId && |r.buckets| == BUCKETS && r.buckets[count - 1] == []
    ensures AddAll(r, GoodIn(t.buckets[count - 1], now), later)
         == r.(buckets := r.buckets[count - 1 := RestoredAll(GoodIn(t.buckets[count - 1], now), later)])
  {
    hide AddAll, GoodIn;
    assert BucketOk(t.ownId, count - 1, t.buckets[count - 1]);
    GoodInOk(t.ownId, count - 1, t.buckets[count - 1], now);
    AddsOneBucket(r, count - 1, GoodIn(t.buckets[count - 1], now), later);
  }

  lemma GoodCount(t: Table, count: nat, now: int)
    requires TableOk(t) && count <= BUCKETS
    ensures |GoodNodes(t.buckets[..count], now)| <= 8 * count
  {
    if count > 0 {
      GoodCount(t, count - 1, now);
      assert t.buckets[..count][..count - 1] == t.buckets[..count - 1];
      assert BucketOk(t.ownId, count - 1, t.buckets[count - 1]);
    }
  }

  /**
   * Storing a table and reading it into an empty one, of any identifier, restores the own identifier and
   * exactly the good nodes, each in its bucket and in the old order; only the times start afresh.
   */
  lemma RestoresGoodNodes(t: Table, other: Id, now: int, later: int)
    requires TableOk(t)
    ensures var r := Deserialized(Empty(other), Stored(t.ownId, GoodNodes(t.buckets, now)), later);
      && r.Some? && r.value.ownId == t.ownId && |r.value.buckets| == BUCKETS
      && forall b | 0 <= b < BUCKETS :: r.value.buckets[b] == RestoredAll(GoodIn(t.buckets[b], now), later)
  {
    var good := GoodNodes(t.buckets, now);
    var data := Stored(t.ownId, good);
    assert t.buckets[..BUCKETS] == t.buckets;
    GoodCount(t, BUCKETS, now);
    assert Pow256(4) == TWO_32;
    BigEndianValue(|good|, 4);
    assert data[..20] == t.ownId && data[20..24] == BigEndian(|good|, 4);
    assert good[..0] == [] && good[0..] == good;
    assert At(data, 24, Records(good));
    ReadsRecords(Empty(t.ownId), data, 24, good, 0, later);
    AddsAllBuckets(t, BUCKETS, later, now);
  }
}
