/** What happens to one block between its request and the verification of its piece. */
module BlockLifecycle {
  import opened Bytes
  import opened FileMap
  import opened PieceManager

  predicate Requested(s: State, piece: nat, block: nat) {
    piece < |s.active| && block < |s.active[piece].requested| && s.active[piece].requested[block]
  }

  predicate Holds(s: State, piece: nat, block: nat, data: seq<byte>) {
    piece < |s.active|
    && var d := s.active[piece];
       block < |d.received| && d.received[block] && block < |d.blocks| && d.blocks[block] == data
  }

  /** `request_block` says yes. */
  predicate HandsOut(t: Torrent, s: State, e: Event, piece: nat, block: nat)
    requires t.pieceLength > 0
  {
    e.RequestBlock? && e.piece == piece && e.block == block && e.blockSize > 0
    && Request(t, s, piece, block, e.blockSize).1
  }

  /** The piece is complete, but its hash is wrong. */
  predicate Fails(t: Torrent, s: State, e: Event, piece: nat) {
    e == VerifyPiece(piece) && piece < |s.active| && IsComplete(s.active[piece]) && !Matches(t, piece, s.active[piece])
  }

  /** Only a failed verification of its piece takes a request or the data of a block back. */
  lemma BlockStays(t: Torrent, maps: seq<seq<Mapping>>, s: State, e: Event, piece: nat, block: nat, data: seq<byte>)
    requires WellFormed(t, maps, s) && !Fails(t, s, e, piece)
    ensures Requested(s, piece, block) ==> Requested(Apply(t, maps, s, e), piece, block)
    ensures Holds(s, piece, block, data) ==> Holds(Apply(t, maps, s, e), piece, block, data)
  {
    hide Mapped, WrittenUpTo, GoodRequest, Matches, Chunk, Shown;
    if piece < |s.active| {
      assert s.active[piece] in s.active;
    }
  }

  /** The state before event `k` of a run. */
  ghost function StateAt(t: Torrent, maps: seq<seq<Mapping>>, start: State, events: seq<Event>, k: nat): (r: State)
    requires WellFormed(t, maps, start) && k <= |events|
    ensures WellFormed(t, maps, r)
  {
    Run(t, maps, start, events[..k])
  }

  ghost predicate FailsAt(t: Torrent, maps: seq<seq<Mapping>>, start: State, events: seq<Event>, k: nat, piece: nat)
    requires WellFormed(t, maps, start)
  {
    k < |events| && Fails(t, StateAt(t, maps, start, events, k), events[k], piece)
  }

  lemma NextState(t: Torrent, maps: seq<seq<Mapping>>, start: State, events: seq<Event>, k: nat)
    requires WellFormed(t, maps, start) && k < |events|
    ensures StateAt(t, maps, start, events, k + 1) == Apply(t, maps, StateAt(t, maps, start, events, k), events[k])
  {
    assert events[..k + 1][..k] == events[..k];
  }

  lemma {:induction false} BlocksStay(t: Torrent, maps: seq<seq<Mapping>>, start: State, events: seq<Event>, i: nat, j: nat,
                                      piece: nat, block: nat, data: seq<byte>)
    requires WellFormed(t, maps, start) && i <= j <= |events|
    requires forall k | i <= k < j :: !FailsAt(t, maps, start, events, k, piece)
    ensures Requested(StateAt(t, maps, start, events, i), piece, block)
        ==> Requested(StateAt(t, maps, start, events, j), piece, block)
    ensures Holds(StateAt(t, maps, start, events, i), piece, block, data)
        ==> Holds(StateAt(t, maps, start, events, j), piece, block, data)
    decreases j
  {
    if i < j {
      BlocksStay(t, maps, start, events, i, j - 1, piece, block, data);
      assert !FailsAt(t, maps, start, events, j - 1, piece);
      NextState(t, maps, start, events, j - 1);
      BlockStays(t, maps, StateAt(t, maps, start, events, j - 1), events[j - 1], piece, block, data);
    }
  }

  lemma HandedOutIsRequested(t: Torrent, maps: seq<seq<Mapping>>, s: State, e: Event, piece: nat, block: nat)
    requires WellFormed(t, maps, s) && HandsOut(t, s, e, piece, block)
    ensures !Requested(s, piece, block) && Requested(Apply(t, maps, s, e), piece, block)
  {
    assert s.active[piece] in s.active;
  }

  /** A block handed out to two peers was lost in between: a verification of its piece failed. */
  lemma NoBlockIsHandedOutTwice(t: Torrent, maps: seq<seq<Mapping>>, start: State, events: seq<Event>, i: nat, j: nat,
                                piece: nat, block: nat)
    requires WellFormed(t, maps, start) && i < j < |events|
    requires HandsOut(t, StateAt(t, maps, start, events, i), events[i], piece, block)
    requires HandsOut(t, StateAt(t, maps, start, events, j), events[j], piece, block)
    ensures exists k :: i < k < j && FailsAt(t, maps, start, events, k, piece)
  {
    HandedOutIsRequested(t, maps, StateAt(t, maps, start, events, i), events[i], piece, block);
    HandedOutIsRequested(t, maps, StateAt(t, maps, start, events, j), events[j], piece, block);
    NextState(t, maps, start, events, i);
    if forall k | i + 1 <= k < j :: !FailsAt(t, maps, start, events, k, piece) {
      BlocksStay(t, maps, start, events, i + 1, j, piece, block, []);
      assert false;
    }
  }

  /** A peer sends the data from a place within the 16 KiB of the block. */
  predicate Sends(e: Event, piece: nat, block: nat, data: seq<byte>) {
    e.ReceiveBlock? && e.piece == piece && 16384 * block <= e.begin < 16384 * (block + 1) && e.data == data
  }

  lemma NewBlockWasSent(t: Torrent, maps: seq<seq<Mapping>>, s: State, e: Event, piece: nat, block: nat, data: seq<byte>)
    requires WellFormed(t, maps, s) && Holds(Apply(t, maps, s, e), piece, block, data)
    ensures Holds(s, piece, block, data) || Sends(e, piece, block, data)
  {
    assert s.active[piece] in s.active;
  }

  /** Every block that is held is one that some peer sent for this place. */
  lemma {:induction false} BlocksWereSent(t: Torrent, maps: seq<seq<Mapping>>, start: State, events: seq<Event>,
                                          piece: nat, block: nat, data: seq<byte>)
    returns (i: nat)
    requires Initial(t, start) && WellFormed(t, maps, start)
    requires Holds(Run(t, maps, start, events), piece, block, data)
    ensures i < |events| && Sends(events[i], piece, block, data)
  {
    var last := |events| - 1;
    if Sends(events[last], piece, block, data) {
      i := last;
    } else {
      NewBlockWasSent(t, maps, Run(t, maps, start, events[..last]), events[last], piece, block, data);
      i := BlocksWereSent(t, maps, start, events[..last], piece, block, data);
    }
  }
}
