/** When a metadata exchange can still be completed by the messages to come. */
module MetadataRepair {
  import opened Bytes
  import opened Decimal
  import opened Bencode
  import opened BencodeParser
  import opened ExtensionProtocol
  import opened MetadataExchange
  import Sha1

  // ----- the messages that are needed can be written -----

  lemma {:induction false} NumeralSize(n: nat)
    ensures |PrintNat(n)| <= n / 100 + 3
    decreases n
  {
    if n >= 10 {
      NumeralSize(n / 10);
    }
  }

  const SHORT: nat := 100_000_000_000_000_000

  lemma IntegerSize(n: int)
    requires -TWO_63 <= n < TWO_63
    ensures |Encode(Integer(n))| <= SHORT
  {
    NumeralSize(if n < 0 then -n else n);
    assert Encode(Integer(n)) == [INT_MARK] + PrintInt(n) + [END_MARK];
  }

  lemma KeySize(key: seq<byte>)
    requires |key| < 100
    ensures |StringText(key)| < 200
  {
    NumeralSize(|key|);
  }

  /** One more short entry. */
  lemma EntryFits(values: map<seq<byte>, Value>, key: seq<byte>, value: Value)
    requires |key| < 100 && |Encode(value)| <= SHORT
    ensures BodySize(values[key := value]) <= BodySize(values) + SHORT + 200
  {
    BodyGrowth(values, key, value);
    KeySize(key);
  }

  lemma EmptyBody()
    ensures BodySize(map[]) == 0
  {
    EmptyOrInhabited(SortedKeys({}));
    assert SortedKeys({}) == [];
    var none: map<seq<byte>, Value> := map[];
    assert none.Keys == {};
  }

  lemma DataDictSize(piece: nat, totalSize: nat)
    requires piece < TWO_64 && totalSize < TWO_64
    ensures |Encode(DataDict(piece, totalSize))| < TWO_63
  {
    var none: map<seq<byte>, Value> := map[];
    var one := none[KEY_MSG_TYPE := Integer(1)];
    var two := one[KEY_PIECE := Integer(ToSigned(piece))];
    var three := two[KEY_TOTAL_SIZE := Integer(ToSigned(totalSize))];
    CastsUndo(piece);
    CastsUndo(totalSize);
    IntegerSize(1);
    IntegerSize(ToSigned(piece));
    IntegerSize(ToSigned(totalSize));
    EmptyBody();
    EntryFits(none, KEY_MSG_TYPE, Integer(1));
    EntryFits(one, KEY_PIECE, Integer(ToSigned(piece)));
    EntryFits(two, KEY_TOTAL_SIZE, Integer(ToSigned(totalSize)));
    assert DataDict(piece, totalSize) == Dict(three);
    DictTextSize(three);
  }

  lemma LocalExtensionsSize()
    ensures |Encode(Dict(LocalExtensions()))| <= 4 * (SHORT + 200) + 2
  {
    var none: map<seq<byte>, Value> := map[];
    var one := none[UT_METADATA := Integer(1)];
    var two := one[UT_PEX := Integer(2)];
    var three := two[LT_DONTHAVE := Integer(7)];
    var four := three[UPLOAD_ONLY := Integer(3)];
    IntegerSize(1);
    IntegerSize(2);
    IntegerSize(7);
    IntegerSize(3);
    EmptyBody();
    EntryFits(none, UT_METADATA, Integer(1));
    EntryFits(one, UT_PEX, Integer(2));
    EntryFits(two, LT_DONTHAVE, Integer(7));
    EntryFits(three, UPLOAD_ONLY, Integer(3));
    assert LocalExtensions() == four;
    DictTextSize(four);
  }

  lemma HandshakeSize(metadataSize: nat)
    requires 0 < metadataSize < TWO_64
    ensures |Encode(HandshakeDict(0, [], metadataSize))| < TWO_63
  {
    var none: map<seq<byte>, Value> := map[];
    var one := none[KEY_M := Dict(LocalExtensions())];
    var two := one[KEY_V := Str([])];
    var three := two[KEY_P := Integer(0)];
    var four := three[KEY_METADATA_SIZE := Integer(ToSigned(metadataSize))];
    var five := four[KEY_REQQ := Integer(250)];
    CastsUndo(metadataSize);
    IntegerSize(0);
    IntegerSize(ToSigned(metadataSize));
    IntegerSize(250);
    KeySize([]);
    KeySize(KEY_M);
    LocalExtensionsSize();
    EmptyBody();
    BodyGrowth(none, KEY_M, Dict(LocalExtensions()));
    assert Encode(Str([])) == StringText([]);
    EntryFits(one, KEY_V, Str([]));
    EntryFits(two, KEY_P, Integer(0));
    EntryFits(three, KEY_METADATA_SIZE, Integer(ToSigned(metadataSize)));
    EntryFits(four, KEY_REQQ, Integer(250));
    assert one == map[KEY_M := Dict(LocalExtensions())];
    assert three == map[KEY_M := Dict(LocalExtensions()), KEY_V := Str([]), KEY_P := Integer(0)];
    assert HandshakeDict(0, [], metadataSize) == Dict(five);
    DictTextSize(five);
  }

  // ----- a stored piece stays -----

  /** What is in stays in, as it is; the pieces stay as many. */
  lemma {:induction false} ReceivedStays(e: Exchange, more: seq<Event>)
    requires Invariant(e) && e.metadataSize.Some?
    ensures var r := Run(e, more);
      && Invariant(r) && r.metadataSize == e.metadataSize && r.infoHash == e.infoHash && |r.received| == |e.received|
      && forall i | 0 <= i < |e.pieceStatus| :: e.pieceStatus[i] ==> r.pieceStatus[i] && r.received[i] == e.received[i]
  {
    RunKeeps(e, more);
    if more != [] {
      var init := more[..|more| - 1];
      ReceivedStays(e, init);
      StepKeepsReceived(Run(e, init), more[|more| - 1]);
    }
  }

  lemma StepKeepsReceived(e: Exchange, event: Event)
    requires Invariant(e) && e.metadataSize.Some?
    ensures var r := Apply(e, event);
      && |r.received| == |r.pieceStatus| == |e.received|
      && forall i | 0 <= i < |e.pieceStatus| :: e.pieceStatus[i] ==> r.pieceStatus[i] && r.received[i] == e.received[i]
  {
    hide MessageOf, HandshakeOf, NumPieces;
  }

  // ----- when completion is possible -----

  /** Pieces that agree with all that is in, and make up metadata of the announced size with the right hash. */
  ghost predicate Fills(e: Exchange, pieces: seq<seq<byte>>) {
    && |pieces| == |e.received| == |e.pieceStatus|
    && (forall i | 0 <= i < |pieces| && e.pieceStatus[i] :: pieces[i] == e.received[i])
    && e.metadataSize == Some(|Sha1.Concat(pieces)|) && Sha1.Hash(Sha1.Concat(pieces)) == e.infoHash
  }

  /** A piece is missing, and the missing ones can be filled in; before a size is known, some metadata has the hash. */
  ghost predicate CanBeFilled(e: Exchange) {
    if e.metadataSize.Some? then !AllReceived(e) && exists pieces :: Fills(e, pieces)
    else exists metadata: seq<byte> :: Countable(|metadata|) && Sha1.Hash(metadata) == e.infoHash
  }

  lemma CompletedIsFilled(e: Exchange, more: seq<Event>)
    requires Invariant(e) && e.metadataSize.Some? && !e.complete && Run(e, more).complete
    ensures CanBeFilled(e)
  {
    ReceivedStays(e, more);
    assert Fills(e, Run(e, more).received);
    if AllReceived(e) {
      WrongPiecesStay(e, more);
      assert false;
    }
  }

  /** Sizes are 64-bit ones. */
  lemma {:induction false} SizesFit(e: Exchange, more: seq<Event>)
    requires e.metadataSize.Some? ==> e.metadataSize.value < TWO_64
    ensures Run(e, more).metadataSize.Some? ==> Run(e, more).metadataSize.value < TWO_64
  {
    hide MessageOf, NumPieces;
    if more != [] {
      SizesFit(e, more[..|more| - 1]);
    }
  }

  lemma WrappedSizeHasNoPieces(size: nat)
    requires TWO_64 - METADATA_PIECE_SIZE < size < TWO_64
    ensures NumPieces(size) == 0
  {
    var sum := size + METADATA_PIECE_SIZE - 1;
    assert sum % TWO_64 == sum - TWO_64 < METADATA_PIECE_SIZE;
  }

  lemma HasPieces(size: nat)
    requires size < TWO_64
    ensures NumPieces(size) > 0 ==> Countable(size)
  {
    if size > TWO_64 - METADATA_PIECE_SIZE {
      WrappedSizeHasNoPieces(size);
    }
  }

  lemma CompletedWasPossible(e: Exchange, more: seq<Event>)
    requires Invariant(e) && e.metadataSize.None? && Run(e, more).complete
    ensures CanBeFilled(e)
  {
    var r := Run(e, more);
    RunKeeps(e, more);
    SizesFit(e, more);
    HasPieces(|r.metadata|);
  }

  // ----- how the missing pieces are filled in -----

  ghost function DataMessage(i: nat, size: nat, data: seq<byte>): Event { Deliver(Encode(DataDict(i, size)) + data) }

  lemma DataMessageRead(i: nat, size: nat, data: seq<byte>)
    requires i < TWO_64 && size < TWO_64
    ensures MessageOf(DataMessage(i, size, data).payload) == Some(MetadataMessage(1, i, Some(size), data))
  {
    DataDictSize(i, size);
    DataRoundTrip(i, size, data);
  }

  /** The messages with the first `k` pieces. */
  ghost function DataMessages(pieces: seq<seq<byte>>, size: nat, k: nat): seq<Event>
    requires k <= |pieces|
  {
    if k == 0 then [] else DataMessages(pieces, size, k - 1) + [DataMessage(k - 1, size, pieces[k - 1])]
  }

  /** After the first `k` messages: these pieces are in, all that is in is right, and the last one completes. */
  ghost predicate FilledUpTo(e: Exchange, pieces: seq<seq<byte>>, k: nat) {
    && Invariant(e) && Fills(e, pieces) && k <= |pieces| && 0 < |pieces| < TWO_64 && |Sha1.Concat(pieces)| < TWO_64
    && (forall i | 0 <= i < k :: e.pieceStatus[i])
    && (AllReceived(e) ==> e.complete)
  }

  lemma FillOneMore(e: Exchange, pieces: seq<seq<byte>>, k: nat, size: nat)
    requires FilledUpTo(e, pieces, k) && k < |pieces| && size == |Sha1.Concat(pieces)| > 0
    ensures FilledUpTo(Apply(e, DataMessage(k, size, pieces[k])), pieces, k + 1)
  {
    hide MessageOf, NumPieces, Sha1.Hash;
    var event := DataMessage(k, size, pieces[k]);
    DataMessageRead(k, size, pieces[k]);
    ApplyKeeps(e, event);
    if !e.pieceStatus[k] {
      var stored := Stored(e, k, pieces[k]);
      assert Apply(e, event) == Assembled(stored);
      if AllReceived(stored) {
        forall i | 0 <= i < |pieces| ensures stored.received[i] == pieces[i] {
          assert stored.pieceStatus[i];
        }
        assert stored.received == pieces;
      }
    }
  }

  lemma {:induction false} FillInOrder(e: Exchange, pieces: seq<seq<byte>>, k: nat, size: nat)
    requires FilledUpTo(e, pieces, 0) && k <= |pieces| && size == |Sha1.Concat(pieces)| > 0
    ensures FilledUpTo(Run(e, DataMessages(pieces, size, k)), pieces, k)
  {
    hide FilledUpTo, Apply;
    if k == 0 {
      assert DataMessages(pieces, size, 0) == [];
    } else {
      var before := DataMessages(pieces, size, k - 1);
      var all := DataMessages(pieces, size, k);
      FillInOrder(e, pieces, k - 1, size);
      assert all[..|all| - 1] == before && all[|all| - 1] == DataMessage(k - 1, size, pieces[k - 1]);
      FillOneMore(Run(e, before), pieces, k - 1, size);
    }
  }

  lemma SizesOfFilling(e: Exchange, pieces: seq<seq<byte>>)
    requires Invariant(e) && Fills(e, pieces) && !AllReceived(e) && |Sha1.Concat(pieces)| < TWO_64
    ensures 0 < |pieces| < TWO_64 && |Sha1.Concat(pieces)| > 0
  {
    hide NumPieces;
    PieceCount(|Sha1.Concat(pieces)|);
  }

  lemma PieceCount(size: nat)
    requires size < TWO_64
    ensures NumPieces(size) < TWO_64 && (size == 0 ==> NumPieces(size) == 0)
  {
  }

  lemma FillingCompletes(e: Exchange, pieces: seq<seq<byte>>) returns (more: seq<Event>)
    requires Invariant(e) && Fills(e, pieces) && !AllReceived(e) && |Sha1.Concat(pieces)| < TWO_64
    ensures Run(e, more).complete
  {
    hide Run, NumPieces, DataMessages;
    var size := |Sha1.Concat(pieces)|;
    SizesOfFilling(e, pieces);
    more := DataMessages(pieces, size, |pieces|);
    FillInOrder(e, pieces, |pieces|, size);
    assert AllReceived(Run(e, more));
  }

  lemma GreetingSetsSize(e: Exchange, size: nat) returns (greeting: Event)
    requires Invariant(e) && e.metadataSize.None? && 0 < size < TWO_64
    ensures Apply(e, greeting) == WithSize(e, size).(peerId := Some(1))
  {
    HandshakeSize(size);
    HandshakeRoundTrip(0, [], size);
    greeting := Greet(Encode(HandshakeDict(0, [], size)));
  }

  ghost function Slices(metadata: seq<byte>): (r: seq<seq<byte>>)
    requires Countable(|metadata|)
    ensures |r| == NumPieces(|metadata|) > 0 && Sha1.Concat(r) == metadata
  {
    PiecesCover(|metadata|);
    var r := seq(NumPieces(|metadata|), i requires 0 <= i < NumPieces(|metadata|) => Slice(metadata, i));
    AllSlices(r, metadata);
    r
  }

  /** After the size has been announced, every piece is missing, and the slices fill them in. */
  lemma SlicesFill(e: Exchange, metadata: seq<byte>)
    requires Invariant(e) && e.metadataSize.None? && Countable(|metadata|) && Sha1.Hash(metadata) == e.infoHash
    ensures var greeted := WithSize(e, |metadata|).(peerId := Some(1));
      && Invariant(greeted) && !AllReceived(greeted) && Fills(greeted, Slices(metadata))
      && greeted.metadataSize == Some(|metadata|) && greeted.received != [] && !greeted.pieceStatus[0]
  {
    var pieces := Slices(metadata);
    assert !WithSize(e, |metadata|).pieceStatus[0];
  }

  lemma MetadataCompletes(e: Exchange, metadata: seq<byte>) returns (more: seq<Event>)
    requires Invariant(e) && e.metadataSize.None? && Countable(|metadata|) && Sha1.Hash(metadata) == e.infoHash
    ensures Run(e, more).complete
  {
    hide Apply, WithSize, NumPieces, Slices;
    var greeting := GreetingSetsSize(e, |metadata|);
    SlicesFill(e, metadata);
    var rest := FillingCompletes(Apply(e, greeting), Slices(metadata));
    more := [greeting] + rest;
    RunInParts(e, [greeting], rest);
    RunOne(e, greeting);
  }

  lemma RunOne(e: Exchange, event: Event)
    ensures Run(e, [event]) == Apply(e, event)
  {
    assert [event][..0] == [];
  }

  lemma FillableCompletes(e: Exchange)
    requires Invariant(e) && CanBeFilled(e) && (e.metadataSize.Some? ==> e.metadataSize.value < TWO_64)
    ensures exists more :: Run(e, more).complete
  {
    hide Invariant, Run;
    if e.metadataSize.Some? {
      var pieces :| Fills(e, pieces);
      var more := FillingCompletes(e, pieces);
    } else {
      var metadata: seq<byte> :| Countable(|metadata|) && Sha1.Hash(metadata) == e.infoHash;
      var more := MetadataCompletes(e, metadata);
    }
  }

  lemma CompletedWasFillable(e: Exchange, more: seq<Event>)
    requires Invariant(e) && Run(e, more).complete && !e.complete
    ensures CanBeFilled(e)
  {
    hide Invariant, Run;
    if e.metadataSize.Some? {
      CompletedIsFilled(e, more);
    } else {
      CompletedWasPossible(e, more);
    }
  }

  /**
   * An exchange can still be completed by some messages if and only if it is complete, or the pieces that are missing
   * can be filled in to metadata of the announced size with the right hash.
   */
  lemma RepairableIff(infoHash: seq<byte>, events: seq<Event>)
    ensures var e := Run(New(infoHash), events); (exists more :: Run(e, more).complete) <==> e.complete || CanBeFilled(e)
  {
    hide Apply, NumPieces, CanBeFilled;
    var e := Run(New(infoHash), events);
    RunKeeps(New(infoHash), events);
    SizesFit(New(infoHash), events);
    if e.complete {
      assert Run(e, []).complete;
    } else if CanBeFilled(e) {
      FillableCompletes(e);
    }
    forall more | Run(e, more).complete ensures e.complete || CanBeFilled(e) {
      if !e.complete {
        CompletedWasFillable(e, more);
      }
    }
  }

  // ----- one wrong message is enough -----

  lemma {:induction false} ConcatIsLonger(pieces: seq<seq<byte>>, i: nat)
    requires i < |pieces|
    ensures |pieces[i]| <= |Sha1.Concat(pieces)|
  {
    if i < |pieces| - 1 {
      ConcatIsLonger(pieces[..|pieces| - 1], i);
    }
  }

  /** A piece that is longer than the whole can never be replaced, whatever else is missing. */
  lemma TooLongPieceIsFinal(e: Exchange, i: nat, more: seq<Event>)
    requires Invariant(e) && e.metadataSize.Some? && i < |e.received| && e.pieceStatus[i] && !e.complete
    requires |e.received[i]| > e.metadataSize.value
    ensures !Run(e, more).complete
  {
    if Run(e, more).complete {
      CompletedIsFilled(e, more);
      var pieces :| Fills(e, pieces);
      ConcatIsLonger(pieces, i);
      assert false;
    }
  }

  /**
   * For any metadata: once a peer has announced its size, completion is possible; after a first piece that is longer
   * than the metadata it is not, though the pieces behind it may all be missing.
   */
  lemma WrongPieceIsFinal(metadata: seq<byte>, data: seq<byte>) returns (greeting: Event)
    requires Countable(|metadata|) && |data| > |metadata|
    ensures exists more :: Run(Run(New(Sha1.Hash(metadata)), [greeting]), more).complete
    ensures forall more ::
      !Run(Run(New(Sha1.Hash(metadata)), [greeting, DataMessage(0, |metadata|, data)]), more).complete
  {
    hide Apply, WithSize, NumPieces, Slices, Invariant;
    var start, message := New(Sha1.Hash(metadata)), DataMessage(0, |metadata|, data);
    RunKeeps(start, []);
    assert start == Run(start, []);
    greeting := GreetingSetsSize(start, |metadata|);
    SlicesFill(start, metadata);
    var greeted := Apply(start, greeting);
    RunOne(start, greeting);
    var more := FillingCompletes(greeted, Slices(metadata));
    RunInParts(start, [greeting], [message]);
    assert [greeting] + [message] == [greeting, message];
    RunOne(greeted, message);
    TooLongIsStored(greeted, metadata, data);
    forall more ensures !Run(Apply(greeted, message), more).complete {
      TooLongPieceIsFinal(Apply(greeted, message), 0, more);
    }
  }

  lemma TooLongIsStored(e: Exchange, metadata: seq<byte>, data: seq<byte>)
    requires Invariant(e) && e.metadataSize == Some(|metadata|) && e.received != [] && !e.pieceStatus[0]
    requires |data| > |metadata| && |metadata| < TWO_64
    ensures var r := Apply(e, DataMessage(0, |metadata|, data));
      && Invariant(r) && !r.complete && r.received != [] && r.pieceStatus[0] && r.received[0] == data
      && r.metadataSize == e.metadataSize
  {
    var message := DataMessage(0, |metadata|, data);
    ApplyKeeps(e, message);
    DataMessageRead(0, |metadata|, data);
    assert Apply(e, message) == Assembled(Stored(e, 0, data));
    WrongSizeCompletesNothing(Stored(e, 0, data));
  }

  lemma WrongSizeCompletesNothing(e: Exchange)
    requires e.received != [] && e.metadataSize.Some? && |e.received[0]| > e.metadataSize.value && !e.complete
    ensures !Assembled(e).complete && Assembled(e).received == e.received && Assembled(e).pieceStatus == e.pieceStatus
  {
    ConcatIsLonger(e.received, 0);
  }
}
