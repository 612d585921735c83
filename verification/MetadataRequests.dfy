/** What is asked of a peer, and that honest answers to it complete the metadata. */
module MetadataRequests {
  import opened Bytes
  import opened Bencode
  import opened BencodeParser
  import opened ExtensionProtocol
  import opened MetadataExchange
  import opened MetadataRepair
  import Sha1

  /** The pieces asked for are those that are not in, each once, in increasing order. */
  lemma {:induction false} MissingIsNotIn(status: seq<bool>)
    ensures forall i :: i in Missing(status) <==> 0 <= i < |status| && !status[i]
    ensures forall j, k | 0 <= j < k < |Missing(status)| :: Missing(status)[j] < Missing(status)[k]
  {
    if status != [] {
      var init, last := status[..|status| - 1], |status| - 1;
      MissingIsNotIn(init);
      forall i ensures i in Missing(status) <==> 0 <= i < |status| && !status[i] {
        assert i in Missing(status) <==> i in Missing(init) || (i == last && !status[last]);
      }
      assert forall j | 0 <= j < |Missing(init)| :: Missing(init)[j] in Missing(init);
    }
  }

  /** What an honest peer sends back for a request: the piece it is about, of the metadata. */
  ghost function Reply(metadata: seq<byte>, request: seq<byte>): Event {
    if request == [] then SetCallback
    else
      match MessageOf(request[1..])
      case Some(MetadataMessage(0, piece, _, _)) =>
        if 16384 * piece <= |metadata| then DataMessage(piece, |metadata|, Slice(metadata, piece)) else SetCallback
      case _ => SetCallback
  }

  ghost function Replies(metadata: seq<byte>, requests: seq<seq<byte>>): (r: seq<Event>)
    ensures |r| == |requests|
  {
    seq(|requests|, k requires 0 <= k < |requests| => Reply(metadata, requests[k]))
  }

  /** The requests that the object builds, piece by piece. */
  ghost predicate AreRequests(requests: seq<seq<byte>>, id: byte, pieces: seq<nat>) {
    |requests| == |pieces| && forall k | 0 <= k < |requests| :: requests[k] == [id] + Encode(MessageDict(0, pieces[k]))
  }

  lemma MessageDictSize(kind: byte, piece: nat)
    requires piece < TWO_64
    ensures |Encode(MessageDict(kind, piece))| < TWO_63
  {
    var none: map<seq<byte>, Value> := map[];
    var one := none[KEY_MSG_TYPE := Integer(kind)];
    EmptyBody();
    CastsUndo(piece);
    IntegerSize(kind);
    IntegerSize(ToSigned(piece));
    EntryFits(none, KEY_MSG_TYPE, Integer(kind));
    EntryFits(one, KEY_PIECE, Integer(ToSigned(piece)));
    assert MessageDict(kind, piece) == Dict(one[KEY_PIECE := Integer(ToSigned(piece))]);
    DictTextSize(one[KEY_PIECE := Integer(ToSigned(piece))]);
  }

  /** A built request is answered with the true slice. */
  lemma RequestIsAnswered(metadata: seq<byte>, id: byte, piece: nat)
    requires Countable(|metadata|) && piece < NumPieces(|metadata|)
    ensures var event := Reply(metadata, [id] + Encode(MessageDict(0, piece))); Honest(metadata, event) && Delivers(event, piece)
  {
    hide MessageOf;
    var request := [id] + Encode(MessageDict(0, piece));
    PiecesCover(|metadata|);
    MessageDictSize(0, piece);
    MessageRoundTrip(0, piece);
    assert request[1..] == Encode(MessageDict(0, piece));
    DataMessageRead(piece, |metadata|, Slice(metadata, piece));
  }

  /** What some pieces that were asked for become, with what was in before. */
  predicate Gains(before: seq<bool>, after: seq<bool>, pieces: seq<nat>) {
    |after| == |before| && forall i | 0 <= i < |before| && (before[i] || i in pieces) :: after[i]
  }

  lemma ReplyStep(e: Exchange, metadata: seq<byte>, id: byte, piece: nat)
    requires Countable(|metadata|) && Truthful(e, metadata) && piece < NumPieces(|metadata|)
    ensures var r := Apply(e, Reply(metadata, [id] + Encode(MessageDict(0, piece))));
      Truthful(r, metadata) && Gains(e.pieceStatus, r.pieceStatus, [piece])
  {
    hide Apply, Reply, Honest, Delivers, NumPieces, Encode, Truthful;
    var event := Reply(metadata, [id] + Encode(MessageDict(0, piece)));
    RequestIsAnswered(metadata, id, piece);
    TruthfulStep(e, metadata, event);
    TruthfulSize(e, metadata);
    TruthfulSize(Apply(e, event), metadata);
  }

  lemma GainsMore(before: seq<bool>, between: seq<bool>, after: seq<bool>, pieces: seq<nat>, piece: nat)
    requires Gains(before, between, pieces) && Gains(between, after, [piece])
    ensures Gains(before, after, pieces + [piece])
  {
  }

  lemma {:induction false} RepliesRun(e: Exchange, metadata: seq<byte>, requests: seq<seq<byte>>, id: byte, pieces: seq<nat>)
    requires Countable(|metadata|) && Truthful(e, metadata) && AreRequests(requests, id, pieces)
    requires forall piece | piece in pieces :: piece < NumPieces(|metadata|)
    ensures var r := Run(e, Replies(metadata, requests)); Truthful(r, metadata) && Gains(e.pieceStatus, r.pieceStatus, pieces)
    decreases |requests|
  {
    hide Apply, Reply, NumPieces, Encode, Truthful;
    var events := Replies(metadata, requests);
    if requests != [] {
      var last := |requests| - 1;
      assert events[..last] == Replies(metadata, requests[..last]);
      assert pieces == pieces[..last] + [pieces[last]] && pieces[last] in pieces;
      forall piece | piece in pieces[..last] ensures piece < NumPieces(|metadata|) {
        assert piece in pieces;
      }
      RepliesRun(e, metadata, requests[..last], id, pieces[..last]);
      var before := Run(e, events[..last]);
      ReplyStep(before, metadata, id, pieces[last]);
      GainsMore(e.pieceStatus, before.pieceStatus, Run(e, events).pieceStatus, pieces[..last], pieces[last]);
    } else {
      assert Run(e, events) == e;
    }
  }

  lemma TruthfulSize(e: Exchange, metadata: seq<byte>)
    requires Truthful(e, metadata)
    ensures |e.pieceStatus| == NumPieces(|metadata|)
  {
  }

  /**
   * From any state that has only heard the truth about some metadata: the requests for what is missing, answered by an honest
   * peer, complete the exchange with that metadata.
   */
  lemma RequestsComplete(e: Exchange, metadata: seq<byte>, id: byte, requests: seq<seq<byte>>)
    requires Countable(|metadata|) && Truthful(e, metadata) && AreRequests(requests, id, Missing(e.pieceStatus))
    ensures var r := Run(e, Replies(metadata, requests)); r.complete && r.metadata == metadata
  {
    hide Reply, NumPieces, Missing, Run;
    MissingIsNotIn(e.pieceStatus);
    TruthfulSize(e, metadata);
    RepliesRun(e, metadata, requests, id, Missing(e.pieceStatus));
    var r := Run(e, Replies(metadata, requests));
    forall i | 0 <= i < |r.pieceStatus| ensures r.pieceStatus[i] {
      assert e.pieceStatus[i] || i in Missing(e.pieceStatus);
    }
  }
}
