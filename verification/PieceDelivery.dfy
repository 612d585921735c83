/** Honest peers: the blocks of a piece, in any order and with repetitions, complete it. */
module PieceDelivery {
  import opened Bytes
  import opened FileMap
  import opened PieceManager
  import Sha1

  /** The bytes that a peer sends for a place of a piece: 16 KiB, or what is left. */
  function BlockAt(data: seq<byte>, begin: nat): seq<byte>
    requires begin <= |data|
  {
    data[begin..Min(begin + 16384, |data|)]
  }

  predicate HasBlock(data: seq<byte>, k: nat, block: seq<byte>) { 16384 * k < |data| && block == BlockAt(data, 16384 * k) }

  /** What an event may say about a piece: requests are for blocks of 16 KiB, and what is sent is part of the data. */
  predicate Honest(e: Event, piece: nat, data: seq<byte>) {
    match e
    case RequestBlock(p, _, blockSize) => p == piece ==> blockSize == 16384
    case ReceiveBlock(p, begin, block) => p == piece ==> begin % 16384 == 0 && HasBlock(data, begin / 16384, block)
    case _ => true
  }

  predicate Asks(e: Event, piece: nat) { e.RequestBlock? && e.piece == piece }

  predicate Brings(e: Event, piece: nat, k: nat) { e.ReceiveBlock? && e.piece == piece && e.begin == 16384 * k }

  /** Block `k` comes after the first request for the piece. */
  predicate IsBrought(events: seq<Event>, piece: nat, k: nat) {
    exists i, j :: 0 <= i < j < |events| && Asks(events[i], piece) && Brings(events[j], piece, k)
  }

  /** The piece has the right number of blocks, and those that are in are true. */
  predicate Shares(d: Download, data: seq<byte>) {
    && Even(d) && d.received != []
    && 16384 * (|d.received| - 1) < |data| <= 16384 * |d.received|
    && forall k | 0 <= k < |d.received| :: d.received[k] ==> HasBlock(data, k, d.blocks[k])
  }

  lemma {:induction false} BlocksJoin(blocks: seq<seq<byte>>, data: seq<byte>)
    requires forall k | 0 <= k < |blocks| :: HasBlock(data, k, blocks[k])
    ensures Sha1.Concat(blocks) == data[..Min(16384 * |blocks|, |data|)]
  {
    if blocks != [] {
      var k := |blocks| - 1;
      BlocksJoin(blocks[..k], data);
      assert HasBlock(data, k, blocks[k]);
    }
  }

  /** When all blocks are in, they are the data. */
  lemma AllBlocks(d: Download, data: seq<byte>)
    requires Shares(d, data) && AllTrue(d.received)
    ensures Sha1.Concat(d.blocks) == data
  {
    forall k | 0 <= k < |d.blocks| ensures HasBlock(data, k, d.blocks[k]) {
      assert d.received[k];
    }
    BlocksJoin(d.blocks, data);
    assert data[..|data|] == data;
  }

  /** The first request lays out as many blocks as the data has; it says yes exactly for the blocks that there are. */
  lemma RequestStarts(t: Torrent, s: State, piece: nat, block: nat, data: seq<byte>)
    requires t.pieceLength > 0 && piece < |s.active| && s.active[piece].received == []
    requires |data| == SizeOf(t, piece) > 0
    ensures var (after, ok) := Request(t, s, piece, block, 16384);
      && |after.active| == |s.active| && Shares(after.active[piece], data)
      && !(true in after.active[piece].received)
      && (ok <==> 16384 * block < |data|)
  {
    var count := (|data| + 16384 - 1) / 16384;
    assert 16384 * (count - 1) < |data| <= 16384 * count;
  }

  /** A received block is stored at its place, once. */
  lemma ReceiveStores(s: State, piece: nat, k: nat, data: seq<byte>)
    requires (forall d | d in s.active :: Even(d)) && piece < |s.active| && Shares(s.active[piece], data) && 16384 * k < |data|
    ensures var d := s.active[piece]; var (after, ok) := Receive(s, piece, 16384 * k, BlockAt(data, 16384 * k));
      && k < |d.received| && ok == !d.received[k] && |after.active| == |s.active|
      && Shares(after.active[piece], data) && after.active[piece].received == d.received[k := true]
  {
    assert 16384 * k / 16384 == k;
  }

  /** A block is accepted if and only if the piece is started, has such a block, and did not receive it yet. */
  lemma ReceiveTellsIff(s: State, piece: nat, begin: nat, data: seq<byte>)
    requires forall d | d in s.active :: Even(d)
    ensures var (after, ok) := Receive(s, piece, begin, data);
      && (ok <==> piece < |s.active| && begin < 16384 * |s.active[piece].received| && !s.active[piece].received[begin / 16384])
      && (!ok ==> after == s)
  {
    if piece < |s.active| {
      Between(begin, 16384, |s.active[piece].received|);
    }
  }

  /**
   * A verification says yes exactly for complete pieces whose blocks have the expected hash; a complete piece without it starts
   * over, and anything else stays as it was.
   */
  lemma VerifyTellsIff(t: Torrent, s: State, piece: nat)
    requires |s.active| == |s.have| == |t.hashes|
    ensures var (after, ok) := Verify(t, s, piece); var complete := piece < |s.active| && IsComplete(s.active[piece]);
      && (ok <==> complete && Sha1.Hash(Sha1.Concat(s.active[piece].blocks)) == t.hashes[piece])
      && (ok ==> after.have == s.have[piece := true] && after.active == s.active)
      && (complete && !ok ==> after == s.(active := s.active[piece := Download([], [], [])]))
      && (!complete ==> after == s)
  {
  }

  /** What an event does to a piece on its way: it keeps it there, and what it brings is in. */
  predicate Goes(before: Download, after: Download, e: Event, piece: nat, data: seq<byte>) {
    && Shares(after, data) && |after.received| == |before.received|
    && forall k | 0 <= k < |before.received| :: after.received[k] == (before.received[k] || Brings(e, piece, k))
  }

  lemma HonestReceive(s: State, e: Event, piece: nat, data: seq<byte>)
    requires (forall d | d in s.active :: Even(d)) && piece < |s.active| && Shares(s.active[piece], data)
    requires e.ReceiveBlock? && Honest(e, piece, data)
    ensures var after := Receive(s, e.piece, e.begin, e.data).0;
      |after.active| == |s.active| && Goes(s.active[piece], after.active[piece], e, piece, data)
  {
    if e.piece == piece {
      BroughtIsTrue(e.begin, e.data, data);
      ReceiveStores(s, piece, e.begin / 16384, data);
    }
  }

  lemma HonestVerify(t: Torrent, s: State, p: nat, piece: nat, data: seq<byte>)
    requires piece < |s.active| == |s.have| == |t.hashes| && Sha1.Hash(data) == t.hashes[piece] && Shares(s.active[piece], data)
    ensures var after := Verify(t, s, p).0; |after.active| == |s.active| && after.active[piece] == s.active[piece]
  {
    hide Shares;
    if p == piece && IsComplete(s.active[piece]) {
      AllBlocks(s.active[piece], data);
    }
  }

  lemma HonestRequest(t: Torrent, s: State, e: Event, piece: nat, data: seq<byte>)
    requires t.pieceLength > 0 && e.RequestBlock? && e.blockSize > 0 && piece < |s.active| && Shares(s.active[piece], data)
    ensures var after := Request(t, s, e.piece, e.block, e.blockSize).0;
      |after.active| == |s.active| && Goes(s.active[piece], after.active[piece], e, piece, data)
  {
  }

  lemma Nothing(d: Download, e: Event, piece: nat, data: seq<byte>)
    requires Shares(d, data) && !e.ReceiveBlock?
    ensures Goes(d, d, e, piece, data)
  {
  }

  /** No event takes a piece off its way; what it brings is there. */
  lemma HonestStep(t: Torrent, maps: seq<seq<Mapping>>, s: State, e: Event, piece: nat, data: seq<byte>)
    requires WellFormed(t, maps, s) && piece < |t.hashes| && Sha1.Hash(data) == t.hashes[piece]
    requires Honest(e, piece, data) && Shares(s.active[piece], data)
    ensures |Apply(t, maps, s, e).active| == |s.active|
    ensures Goes(s.active[piece], Apply(t, maps, s, e).active[piece], e, piece, data)
  {
    hide WrittenUpTo, GoodRequest, Mapped, Chunk, Shown, Shares, Honest, Goes, Receive, Verify, Request;
    SomeBytes(t, maps, s, piece);
    match e {
      case ReceiveBlock(p, begin, block) => HonestReceive(s, e, piece, data);
      case VerifyPiece(p) =>
        HonestVerify(t, s, p, piece, data);
        Nothing(s.active[piece], e, piece, data);
      case RequestBlock(p, block, blockSize) =>
        if blockSize > 0 {
          HonestRequest(t, s, e, piece, data);
        } else {
          Nothing(s.active[piece], e, piece, data);
        }
      case _ => Nothing(s.active[piece], e, piece, data);
    }
  }

  lemma BroughtIsTrue(begin: nat, block: seq<byte>, data: seq<byte>)
    requires begin % 16384 == 0 && HasBlock(data, begin / 16384, block)
    ensures 16384 * (begin / 16384) == begin < |data| && block == BlockAt(data, begin)
  {
  }

  lemma AsksStart(t: Torrent, maps: seq<seq<Mapping>>, s: State, e: Event, piece: nat, data: seq<byte>)
    requires WellFormed(t, maps, s) && piece < |t.hashes| && s.active[piece].received == []
    requires |data| == SizeOf(t, piece) > 0 && Honest(e, piece, data)
    ensures var after := Apply(t, maps, s, e).active[piece];
      if Asks(e, piece) then Shares(after, data) else after.received == []
  {
    hide WrittenUpTo, GoodRequest, Mapped, Chunk, Shown, HasBlock, Shares;
    assert s.active[piece] in s.active;
    SomeBytes(t, maps, s, piece);
    if Asks(e, piece) {
      RequestStarts(t, s, piece, e.block, data);
    }
  }

  predicate IsAsked(events: seq<Event>, piece: nat) { exists i :: 0 <= i < |events| && Asks(events[i], piece) }

  /** The piece before and after its first request; all that was brought since then is in. */
  lemma {:induction false} HonestRun(t: Torrent, maps: seq<seq<Mapping>>, start: State, events: seq<Event>, piece: nat,
                                     data: seq<byte>)
    requires WellFormed(t, maps, start) && piece < |t.hashes| && start.active[piece].received == []
    requires |data| == SizeOf(t, piece) > 0 && Sha1.Hash(data) == t.hashes[piece]
    requires forall e | e in events :: Honest(e, piece, data)
    ensures var d := Run(t, maps, start, events).active[piece];
      if IsAsked(events, piece)
      then Shares(d, data) && forall k | 0 <= k < |d.received| && IsBrought(events, piece, k) :: d.received[k]
      else d.received == []
  {
    hide Apply, Honest, Asks, Brings, Shares, WellFormed;
    if events != [] {
      var last := |events| - 1;
      var init, e := events[..last], events[last];
      HonestRun(t, maps, start, init, piece, data);
      assert e in events;
      var before, after := Run(t, maps, start, init), Run(t, maps, start, events);
      SameSize(t, maps, before);
      SameSize(t, maps, after);
      if IsAsked(init, piece) {
        HonestStep(t, maps, before, e, piece, data);
        assert IsAsked(events, piece) by {
          var i :| 0 <= i < |init| && Asks(init[i], piece);
          assert Asks(events[i], piece);
        }
        forall k | 0 <= k < |after.active[piece].received| && IsBrought(events, piece, k) ensures after.active[piece].received[k] {
          var i, j :| 0 <= i < j < |events| && Asks(events[i], piece) && Brings(events[j], piece, k);
          if j < last {
            assert Asks(init[i], piece) && Brings(init[j], piece, k) && IsBrought(init, piece, k);
          }
        }
      } else {
        AsksStart(t, maps, before, e, piece, data);
        AskedOnlyLast(events, piece);
      }
    }
  }

  lemma SameSize(t: Torrent, maps: seq<seq<Mapping>>, s: State)
    requires WellFormed(t, maps, s)
    ensures |s.active| == |t.hashes|
  {
  }

  lemma AskedOnlyLast(events: seq<Event>, piece: nat)
    requires events != [] && !IsAsked(events[..|events| - 1], piece)
    ensures IsAsked(events, piece) <==> Asks(events[|events| - 1], piece)
    ensures forall k :: !IsBrought(events, piece, k)
  {
    hide Asks, Brings;
    var init := events[..|events| - 1];
    forall i | 0 <= i < |init| ensures !Asks(events[i], piece) {
      assert init[i] == events[i];
    }
  }

  /**
   * Honest blocks complete a piece: whatever else goes on, when every block was sent after the first request, in any order
   * and with repetitions, the blocks are the data, and a verification then has the piece and hands the data to the disk.
   */
  lemma HonestBlocksComplete(t: Torrent, maps: seq<seq<Mapping>>, start: State, events: seq<Event>, piece: nat, data: seq<byte>)
    requires WellFormed(t, maps, start) && piece < |t.hashes| && start.active[piece].received == []
    requires |data| == SizeOf(t, piece) && Sha1.Hash(data) == t.hashes[piece]
    requires forall e | e in events :: Honest(e, piece, data)
    requires forall k: nat | 16384 * k < |data| :: IsBrought(events, piece, k)
    ensures var s := Run(t, maps, start, events); var (after, ok) := Verify(t, s, piece);
      && IsComplete(s.active[piece]) && Sha1.Concat(s.active[piece].blocks) == data
      && ok && after.have[piece] && after.queue == s.queue + [WriteRequest(piece, data)]
  {
    hide Honest, HasBlock, Sha1.Hash, Brings, Asks;
    SomeBytes(t, maps, start, piece);
    HonestRun(t, maps, start, events, piece, data);
    var s := Run(t, maps, start, events);
    assert IsBrought(events, piece, 0);
    assert IsAsked(events, piece) by {
      var i, j :| 0 <= i < j < |events| && Asks(events[i], piece) && Brings(events[j], piece, 0);
    }
    var d := s.active[piece];
    forall k | 0 <= k < |d.received| ensures d.received[k] {
      assert 16384 * k < |data|;
      assert IsBrought(events, piece, k);
    }
    AllBlocks(d, data);
  }

  lemma SomeBytes(t: Torrent, maps: seq<seq<Mapping>>, s: State, piece: nat)
    requires WellFormed(t, maps, s) && piece < |t.hashes|
    ensures t.pieceLength > 0 && SizeOf(t, piece) > 0 && |s.active| == |s.have| == |t.hashes|
  {
    SizeOfPiece(t.lengths, t.pieceLength, maps, piece);
  }
}
