/** Fetching the metadata of a torrent from peers, piece by piece. */
module MetadataExchange {
  import opened Bytes
  import opened Sequences
  import opened Bencode
  import opened BencodeReader
  import opened FileMap
  import opened ExtensionProtocol
  import Sha1

  const METADATA_PIECE_SIZE: nat := 16384

  /** `callbacks` is what the completion callback was called with, call by call. */
  datatype Exchange = Exchange(
    infoHash: seq<byte>,
    metadataSize: Option<nat>,
    peerId: Option<byte>,
    pieceStatus: seq<bool>,
    received: seq<seq<byte>>,
    metadata: seq<byte>,
    complete: bool,
    hasCallback: bool,
    callbacks: seq<seq<byte>>)

  /** The sum is a 64-bit one: for the greatest sizes it wraps and there are no pieces. */
  function NumPieces(size: nat): nat { (size + METADATA_PIECE_SIZE - 1) % TWO_64 / METADATA_PIECE_SIZE }

  function WithSize(e: Exchange, size: nat): Exchange {
    e.(metadataSize := Some(size), pieceStatus := Repeat(NumPieces(size), false), received := Repeat(NumPieces(size), []))
  }

  /** A handshake tells the identifier to use and, the first time, the size. */
  function Greeted(e: Exchange, payload: seq<byte>): Exchange {
    match HandshakeOf(payload)
    case None => e
    case Some(h) =>
      var e' := e.(peerId := if UT_METADATA in h.extensions then Some(h.extensions[UT_METADATA]) else None);
      if h.metadataSize > 0 && e'.metadataSize.None? then WithSize(e', h.metadataSize) else e'
  }

  predicate AllReceived(e: Exchange) { forall i | 0 <= i < |e.pieceStatus| :: e.pieceStatus[i] }

  /** `assemble_metadata`: joins the pieces when all are there, and checks size and hash. */
  function Assembled(e: Exchange): Exchange {
    var buffer := Sha1.Concat(e.received);
    if !AllReceived(e) || e.metadataSize != Some(|buffer|) then e
    else if buffer != [] && Sha1.Hash(buffer) == e.infoHash then
      e.(metadata := buffer, complete := true, callbacks := if e.hasCallback then e.callbacks + [buffer] else e.callbacks)
    else e.(metadata := buffer)
  }

  function Stored(e: Exchange, piece: nat, data: seq<byte>): Exchange
    requires piece < |e.pieceStatus| == |e.received|
  {
    e.(received := e.received[piece := data], pieceStatus := e.pieceStatus[piece := true])
  }

  /** A data message is kept when its piece is wanted and new. */
  function Delivered(e: Exchange, payload: seq<byte>): Exchange {
    match MessageOf(payload)
    case None => e
    case Some(msg) =>
      if msg.msgType == 1 && e.metadataSize.Some? && msg.piece < |e.pieceStatus| == |e.received| && !e.pieceStatus[msg.piece]
      then Assembled(Stored(e, msg.piece, msg.data))
      else e
  }

  datatype Event = SetCallback | Greet(payload: seq<byte>) | Deliver(payload: seq<byte>)

  function Apply(e: Exchange, event: Event): Exchange {
    match event
    case SetCallback => e.(hasCallback := true)
    case Greet(payload) => Greeted(e, payload)
    case Deliver(payload) => Delivered(e, payload)
  }

  function Run(e: Exchange, events: seq<Event>): Exchange {
    if events == [] then e else Apply(Run(e, events[..|events| - 1]), events[|events| - 1])
  }

  function New(infoHash: seq<byte>): Exchange { Exchange(infoHash, None, None, [], [], [], false, false, []) }

  // ----- safety over every run -----

  predicate Invariant(e: Exchange) {
    && |e.received| == |e.pieceStatus|
    && (e.metadataSize.None? ==> e.pieceStatus == [])
    && (e.metadataSize.Some? ==> |e.pieceStatus| == NumPieces(e.metadataSize.value))
    && (e.complete ==> AllReceived(e) && e.pieceStatus != [] && e.metadataSize == Some(|e.metadata|)
                       && e.metadata == Sha1.Concat(e.received) && Sha1.Hash(e.metadata) == e.infoHash)
    && (e.callbacks != [] ==> e.complete && e.callbacks == [e.metadata])
  }

  lemma ApplyKeeps(e: Exchange, event: Event)
    requires Invariant(e)
    ensures Invariant(Apply(e, event)) && Apply(e, event).infoHash == e.infoHash
    ensures e.metadataSize.Some? ==> Apply(e, event).metadataSize == e.metadataSize
    ensures e.complete ==> Apply(e, event).complete && Apply(e, event).metadata == e.metadata
  {
    if event.Deliver? {
      DeliveredKeeps(e, event.payload);
    }
  }

  lemma DeliveredKeeps(e: Exchange, payload: seq<byte>)
    requires Invariant(e)
    ensures Invariant(Delivered(e, payload)) && Delivered(e, payload).infoHash == e.infoHash
    ensures Delivered(e, payload).metadataSize == e.metadataSize
    ensures e.complete ==> Delivered(e, payload) == e
  {
    var msg := MessageOf(payload);
    if msg.Some? && msg.value.msgType == 1 && e.metadataSize.Some? && msg.value.piece < |e.pieceStatus|
       && !e.pieceStatus[msg.value.piece] {
      var e' := Stored(e, msg.value.piece, msg.value.data);
      assert !e.complete && e.callbacks == [] && !e'.complete;
      assert Assembled(e').pieceStatus == e'.pieceStatus != [];
    }
  }

  lemma {:induction false} RunKeeps(e: Exchange, events: seq<Event>)
    requires Invariant(e)
    ensures Invariant(Run(e, events)) && Run(e, events).infoHash == e.infoHash
    ensures e.metadataSize.Some? ==> Run(e, events).metadataSize == e.metadataSize
    ensures e.complete ==> Run(e, events).complete && Run(e, events).metadata == e.metadata
  {
    if events != [] {
      RunKeeps(e, events[..|events| - 1]);
      ApplyKeeps(Run(e, events[..|events| - 1]), events[|events| - 1]);
    }
  }

  /** Metadata that is called complete has the announced size and the right hash; the callback gets it, and only once. */
  lemma CompleteIsVerified(infoHash: seq<byte>, events: seq<Event>)
    ensures var e := Run(New(infoHash), events);
      && (e.complete ==> e.metadataSize == Some(|e.metadata|) && Sha1.Hash(e.metadata) == infoHash)
      && |e.callbacks| <= 1
      && (e.callbacks != [] ==> e.complete && e.callbacks[0] == e.metadata)
  {
    RunKeeps(New(infoHash), events);
  }

  /** A size of zero is never taken; the callback is called only if there is one. */
  lemma {:induction false} NothingWithoutCause(infoHash: seq<byte>, events: seq<Event>)
    ensures var e := Run(New(infoHash), events);
      && e.metadataSize != Some(0)
      && (e.hasCallback <==> SetCallback in events) && (!e.hasCallback ==> e.callbacks == [])
  {
    hide MessageOf, HandshakeOf;
    if events != [] {
      var init, last := events[..|events| - 1], events[|events| - 1];
      NothingWithoutCause(infoHash, init);
      assert events == init + [last];
    }
  }

  /** Pieces that join to the announced size are the metadata, whether or not their hash is right. */
  lemma {:induction false} JoinedIsKept(infoHash: seq<byte>, events: seq<Event>)
    ensures var e := Run(New(infoHash), events);
      AllReceived(e) && e.pieceStatus != [] && e.metadataSize == Some(|Sha1.Concat(e.received)|) ==> e.metadata == Sha1.Concat(e.received)
  {
    hide MessageOf, HandshakeOf, NumPieces;
    if events != [] {
      var before := Run(New(infoHash), events[..|events| - 1]);
      JoinedIsKept(infoHash, events[..|events| - 1]);
      RunKeeps(New(infoHash), events[..|events| - 1]);
      JoinedStep(before, events[|events| - 1]);
    }
  }

  lemma JoinedStep(e: Exchange, event: Event)
    requires Invariant(e)
    requires AllReceived(e) && e.pieceStatus != [] && e.metadataSize == Some(|Sha1.Concat(e.received)|) ==> e.metadata == Sha1.Concat(e.received)
    ensures var r := Apply(e, event);
      AllReceived(r) && r.pieceStatus != [] && r.metadataSize == Some(|Sha1.Concat(r.received)|) ==> r.metadata == Sha1.Concat(r.received)
  {
    hide MessageOf, HandshakeOf, NumPieces;
    if event.Greet? && Greeted(e, event.payload).pieceStatus != e.pieceStatus {
      var r := Greeted(e, event.payload);
      assert r.pieceStatus != [] ==> !r.pieceStatus[0];
    }
  }

  /** A callback that was set before completion is called with the metadata. */
  lemma {:induction false} CallbackIsCalled(e: Exchange, events: seq<Event>)
    requires Invariant(e) && e.hasCallback && !e.complete && Run(e, events).complete
    ensures Run(e, events).callbacks == [Run(e, events).metadata]
  {
    CallbackStays(e, events);
  }

  lemma {:induction false} CallbackStays(e: Exchange, events: seq<Event>)
    requires Invariant(e) && e.hasCallback && (e.complete ==> e.callbacks == [e.metadata])
    ensures var r := Run(e, events); Invariant(r) && r.hasCallback && (r.complete ==> r.callbacks == [r.metadata])
  {
    hide Invariant, MessageOf, HandshakeOf;
    if events != [] {
      var before, last := Run(e, events[..|events| - 1]), events[|events| - 1];
      CallbackStays(e, events[..|events| - 1]);
      ApplyKeeps(before, last);
      CallbackStep(before, last);
    }
  }

  lemma CallbackStep(e: Exchange, event: Event)
    requires Invariant(e) && e.hasCallback && (e.complete ==> e.callbacks == [e.metadata])
    ensures var r := Apply(e, event); r.hasCallback && (r.complete ==> r.callbacks == [r.metadata])
  {
    hide MessageOf, HandshakeOf;
    if event.Deliver? {
      DeliveredKeeps(e, event.payload);
    }
  }

  lemma {:induction false} RunInParts(e: Exchange, first: seq<Event>, more: seq<Event>)
    ensures Run(e, first + more) == Run(Run(e, first), more)
  {
    if more == [] {
      assert first + more == first;
    } else {
      var all := first + more;
      assert all[..|all| - 1] == first + more[..|more| - 1];
      RunInParts(e, first, more[..|more| - 1]);
    }
  }

  /** Whatever happens later, the size stays, and what is complete stays complete and the same. */
  lemma SizeNeverChanges(infoHash: seq<byte>, events: seq<Event>, more: seq<Event>)
    ensures var before := Run(New(infoHash), events); var after := Run(New(infoHash), events + more);
      && (before.metadataSize.Some? ==> after.metadataSize == before.metadataSize)
      && (before.complete ==> after.complete && after.metadata == before.metadata)
  {
    RunInParts(New(infoHash), events, more);
    RunKeeps(New(infoHash), events);
    RunKeeps(Run(New(infoHash), events), more);
  }

  /** When every piece is in and the result is wrong, no later message can repair it. */
  lemma {:induction false} WrongPiecesStay(e: Exchange, events: seq<Event>)
    requires Invariant(e) && e.metadataSize.Some? && AllReceived(e) && !e.complete
    ensures !Run(e, events).complete && AllReceived(Run(e, events)) && Run(e, events).received == e.received
    ensures Run(e, events).metadataSize == e.metadataSize
  {
    if events != [] {
      WrongPiecesStay(e, events[..|events| - 1]);
    }
  }

  // ----- honest peers -----

  /** Piece `i` of the metadata, 16 KiB of it or what is left. */
  function Slice(metadata: seq<byte>, i: nat): seq<byte>
    requires i * 16384 <= |metadata|
  {
    metadata[i * 16384..Min((i + 1) * 16384, |metadata|)]
  }

  predicate HasSlice(metadata: seq<byte>, i: nat, data: seq<byte>) {
    i * 16384 <= |metadata| && data == Slice(metadata, i)
  }

  /** Sizes for which the piece count does not wrap. */
  predicate Countable(size: nat) { 0 < size <= TWO_64 - METADATA_PIECE_SIZE }

  /** The last piece begins before the end of the metadata and ends at or after it. */
  lemma PiecesCover(size: nat)
    requires Countable(size)
    ensures NumPieces(size) > 0
    ensures (NumPieces(size) - 1) * METADATA_PIECE_SIZE < size <= NumPieces(size) * METADATA_PIECE_SIZE
  {
    assert (size + METADATA_PIECE_SIZE - 1) % TWO_64 == size + METADATA_PIECE_SIZE - 1;
  }

  /** What an event may say about some metadata: that size, and true slices. */
  predicate Honest(metadata: seq<byte>, event: Event) {
    match event
    case SetCallback => true
    case Greet(payload) => HandshakeOf(payload).Some? ==> HandshakeOf(payload).value.metadataSize in {0, |metadata|}
    case Deliver(payload) =>
      var msg := MessageOf(payload);
      msg.Some? && msg.value.msgType == 1 && msg.value.piece < NumPieces(|metadata|) ==>
        HasSlice(metadata, msg.value.piece, msg.value.data)
  }

  predicate Delivers(event: Event, piece: nat) {
    event.Deliver? && var msg := MessageOf(event.payload);
      msg.Some? && msg.value.msgType == 1 && msg.value.piece == piece
  }

  predicate IsDelivered(events: seq<Event>, piece: nat) { exists j :: 0 <= j < |events| && Delivers(events[j], piece) }

  /** The state of an exchange that has only heard the truth about `metadata`. */
  predicate Truthful(e: Exchange, metadata: seq<byte>) {
    && Invariant(e) && e.metadataSize == Some(|metadata|) && e.infoHash == Sha1.Hash(metadata)
    && (forall i | 0 <= i < |e.received| :: e.pieceStatus[i] ==> HasSlice(metadata, i, e.received[i]))
    && (AllReceived(e) ==> e.complete && e.metadata == metadata)
  }

  lemma {:induction false} SlicesJoin(received: seq<seq<byte>>, metadata: seq<byte>)
    requires forall i | 0 <= i < |received| :: HasSlice(metadata, i, received[i])
    ensures Sha1.Concat(received) == metadata[..Min(|received| * METADATA_PIECE_SIZE, |metadata|)]
  {
    if received != [] {
      var k := |received| - 1;
      SlicesJoin(received[..k], metadata);
      assert HasSlice(metadata, k, received[k]);
    }
  }

  lemma TruthfulStep(e: Exchange, metadata: seq<byte>, event: Event)
    requires Countable(|metadata|) && Truthful(e, metadata) && Honest(metadata, event)
    ensures Truthful(Apply(e, event), metadata)
    ensures forall i | 0 <= i < |e.pieceStatus| ::
      Apply(e, event).pieceStatus[i] == (e.pieceStatus[i] || Delivers(event, i))
  {
    ApplyKeeps(e, event);
    if event.Deliver? {
      var msg := MessageOf(event.payload);
      if msg.Some? && msg.value.msgType == 1 && msg.value.piece < |e.pieceStatus| && !e.pieceStatus[msg.value.piece] {
        TruthfulStored(e, metadata, msg.value.piece, msg.value.data);
      }
    }
  }

  lemma AllSlices(received: seq<seq<byte>>, metadata: seq<byte>)
    requires Countable(|metadata|) && |received| == NumPieces(|metadata|)
    requires forall i | 0 <= i < |received| :: HasSlice(metadata, i, received[i])
    ensures Sha1.Concat(received) == metadata
  {
    SlicesJoin(received, metadata);
    PiecesCover(|metadata|);
    assert metadata[..|metadata|] == metadata;
  }

  lemma TruthfulStored(e: Exchange, metadata: seq<byte>, piece: nat, data: seq<byte>)
    requires Countable(|metadata|) && Truthful(e, metadata) && piece < |e.pieceStatus| && HasSlice(metadata, piece, data)
    ensures var r := Assembled(Stored(e, piece, data));
      && r.pieceStatus == e.pieceStatus[piece := true] && r.received == e.received[piece := data]
      && (AllReceived(r) ==> r.complete && r.metadata == metadata)
  {
    var stored := Stored(e, piece, data);
    assert Assembled(stored).pieceStatus == stored.pieceStatus && Assembled(stored).received == stored.received;
    if AllReceived(stored) {
      forall i | 0 <= i < |stored.received| ensures HasSlice(metadata, i, stored.received[i]) {
        assert stored.pieceStatus[i];
        assert i != piece ==> e.pieceStatus[i] && stored.received[i] == e.received[i];
      }
      AllSlices(stored.received, metadata);
    }
  }

  lemma {:induction false} TruthfulRun(e: Exchange, metadata: seq<byte>, events: seq<Event>)
    requires Countable(|metadata|) && Truthful(e, metadata)
    requires forall event | event in events :: Honest(metadata, event)
    ensures Truthful(Run(e, events), metadata)
    ensures forall i | 0 <= i < NumPieces(|metadata|) && IsDelivered(events, i) :: Run(e, events).pieceStatus[i]
  {
    hide Honest, Apply, Delivers, MessageOf;
    if events != [] {
      var init, last := events[..|events| - 1], events[|events| - 1];
      TruthfulRun(e, metadata, init);
      assert last in events;
      var before, after := Run(e, init), Run(e, events);
      TruthfulStep(before, metadata, last);
      assert |before.pieceStatus| == |after.pieceStatus| == NumPieces(|metadata|);
      forall i | 0 <= i < NumPieces(|metadata|) && IsDelivered(events, i) ensures after.pieceStatus[i] {
        var j :| 0 <= j < |events| && Delivers(events[j], i);
        if j < |init| {
          assert Delivers(init[j], i);
          assert before.pieceStatus[i];
        } else {
          assert Delivers(last, i);
        }
      }
    }
  }

  /** Delivering the true slices, in any order and with repetitions, gives the metadata itself. */
  lemma SlicesInAnyOrder(metadata: seq<byte>, size: seq<byte>, events: seq<Event>)
    requires Countable(|metadata|)
    requires HandshakeOf(size).Some? && HandshakeOf(size).value.metadataSize == |metadata|
    requires forall event | event in events :: Honest(metadata, event)
    requires forall i | 0 <= i < NumPieces(|metadata|) :: IsDelivered(events, i)
    ensures var e := Run(Greeted(New(Sha1.Hash(metadata)), size), events); e.complete && e.metadata == metadata
  {
    var start := Greeted(New(Sha1.Hash(metadata)), size);
    StartIsTruthful(metadata, size);
    TruthfulRun(start, metadata, events);
    var e := Run(start, events);
    assert |e.pieceStatus| == NumPieces(|metadata|);
    assert AllReceived(e);
  }

  lemma StartIsTruthful(metadata: seq<byte>, size: seq<byte>)
    requires Countable(|metadata|)
    requires HandshakeOf(size).Some? && HandshakeOf(size).value.metadataSize == |metadata|
    ensures Truthful(Greeted(New(Sha1.Hash(metadata)), size), metadata)
  {
    PiecesCover(|metadata|);
    assert Greeted(New(Sha1.Hash(metadata)), size).pieceStatus[0] == false;
  }

  /** The data messages that a peer builds are such deliveries. */
  lemma BuiltSliceIsHonest(metadata: seq<byte>, i: nat)
    requires Countable(|metadata|) && i < NumPieces(|metadata|) && i * METADATA_PIECE_SIZE <= |metadata|
    requires |Encode(DataDict(i, |metadata|))| < TWO_63
    ensures var event := Deliver(Encode(DataDict(i, |metadata|)) + Slice(metadata, i));
      Honest(metadata, event) && Delivers(event, i)
  {
    PiecesCover(|metadata|);
    DataRoundTrip(i, |metadata|, Slice(metadata, i));
  }

  // ----- the object -----

  function Missing(pieceStatus: seq<bool>): seq<nat> {
    if pieceStatus == [] then []
    else Missing(pieceStatus[..|pieceStatus| - 1]) + (if pieceStatus[|pieceStatus| - 1] then [] else [|pieceStatus| - 1])
  }

  class MetadataExchange {
    const infoHash: seq<byte>
    var metadataSize: Option<nat>
    var peerId: Option<byte>
    var pieceStatus: seq<bool>
    var received: seq<seq<byte>>
    var metadata: seq<byte>
    var complete: bool
    var hasCallback: bool
    ghost var callbacks: seq<seq<byte>>

    ghost function Snapshot(): Exchange
      reads this
    {
      Exchange(infoHash, metadataSize, peerId, pieceStatus, received, metadata, complete, hasCallback, callbacks)
    }

    constructor (infoHash: seq<byte>)
      ensures Snapshot() == New(infoHash)
    {
      this.infoHash := infoHash;
      metadataSize, peerId, pieceStatus, received, metadata, complete, hasCallback := None, None, [], [], [], false, false;
      callbacks := [];
    }

    method SetMetadataCompleteCallback()
      modifies this`hasCallback
      ensures Snapshot() == Apply(old(Snapshot()), SetCallback)
    {
      hasCallback := true;
    }

    method HandleExtensionHandshake(payload: seq<byte>)
      requires ParseRun(payload).Ended?
      requires |received| == |pieceStatus| && (metadataSize.None? ==> pieceStatus == [])
      modifies this
      ensures Snapshot() == Apply(old(Snapshot()), Greet(payload))
    {
      var handshake := ParseExtendedHandshake(payload);
      if handshake.None? {
        return;
      }
      var h := handshake.value;
      if UT_METADATA in h.extensions {
        peerId := Some(h.extensions[UT_METADATA]);
      } else {
        peerId := None;
      }
      if h.metadataSize > 0 && metadataSize.None? {
        metadataSize := Some(h.metadataSize);
        var numPieces := (h.metadataSize + METADATA_PIECE_SIZE - 1) % TWO_64 / METADATA_PIECE_SIZE;
        pieceStatus := seq(numPieces, _ => false);
        received := seq(numPieces, _ => []);
      }
    }

    /** A data message is stored; a request is answered with a rejection. */
    method HandleMetadataMessage(payload: seq<byte>) returns (reject: Option<seq<byte>>)
      requires ParseRun(payload).Ended?
      requires |received| == |pieceStatus|
      modifies this
      ensures Snapshot() == Apply(old(Snapshot()), Deliver(payload))
      ensures var msg := MessageOf(payload);
        if msg.Some? && msg.value.msgType == 0 && peerId.Some?
        then reject == Some([peerId.value] + Encode(MessageDict(2, msg.value.piece)))
        else reject == None
    {
      reject := None;
      var parsed := ParseMetadataMessage(payload);
      if parsed.None? {
        return;
      }
      var msg := parsed.value;
      if msg.msgType == 0 {
        if peerId.Some? {
          var answer := BuildMetadataMessage(peerId.value, 2, msg.piece);
          reject := Some(answer);
        }
      } else if msg.msgType == 1 {
        if metadataSize.None? || msg.piece >= |pieceStatus| {
          return;
        }
        if !pieceStatus[msg.piece] {
          received := received[msg.piece := msg.data];
          pieceStatus := pieceStatus[msg.piece := true];
          AssembleMetadata();
        }
      }
    }

    /** Asks for the pieces that are missing, in order. */
    method RequestMetadata() returns (requests: seq<seq<byte>>)
      ensures peerId.None? || metadataSize.None? || complete ==> requests == []
      ensures peerId.Some? && metadataSize.Some? && !complete ==> |requests| == |Missing(pieceStatus)|
      ensures peerId.Some? && metadataSize.Some? && !complete ==>
        forall k | 0 <= k < |requests| :: requests[k] == [peerId.value] + Encode(MessageDict(0, Missing(pieceStatus)[k]))
    {
      requests := [];
      if peerId.None? || metadataSize.None? || complete {
        return;
      }
      for i := 0 to |pieceStatus|
        invariant |requests| == |Missing(pieceStatus[..i])|
        invariant forall k | 0 <= k < |requests| ::
          requests[k] == [peerId.value] + Encode(MessageDict(0, Missing(pieceStatus[..i])[k]))
      {
        assert pieceStatus[..i + 1][..i] == pieceStatus[..i];
        if !pieceStatus[i] {
          var request := BuildMetadataMessage(peerId.value, 0, i);
          requests := requests + [request];
        }
      }
      assert pieceStatus[..|pieceStatus|] == pieceStatus;
    }

    method AssembleMetadata()
      requires metadataSize.Some?
      modifies this`metadata, this`complete, this`callbacks
      ensures Snapshot() == Assembled(old(Snapshot()))
    {
      for i := 0 to |pieceStatus|
        invariant Snapshot() == old(Snapshot()) && forall k | 0 <= k < i :: pieceStatus[k]
      {
        if !pieceStatus[i] {
          return;
        }
      }
      var buffer: seq<byte> := [];
      for i := 0 to |received|
        invariant Snapshot() == old(Snapshot()) && buffer == Sha1.Concat(received[..i])
      {
        buffer := buffer + received[i];
        assert received[..i + 1][..i] == received[..i];
      }
      assert received[..|received|] == received;
      if |buffer| != metadataSize.value {
        return;
      }
      metadata := buffer;
      var verified := VerifyMetadata();
      if verified {
        complete := true;
        if hasCallback {
          callbacks := callbacks + [metadata];
        }
      }
    }

    method VerifyMetadata() returns (ok: bool)
      ensures ok == (metadata != [] && Sha1.Hash(metadata) == infoHash)
    {
      if metadata == [] {
        return false;
      }
      var sha1 := new Sha1.Context();
      sha1.Update(metadata);
      assert [] + metadata == metadata;
      var hash := sha1.Finalize();
      return hash == infoHash;
    }
  }
}
