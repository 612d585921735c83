/** Pieces from request to disk, under every interleaving of peers, verifier and disk thread. */
module PieceManager {
  import opened Bytes
  import opened Sequences
  import opened FileMap
  import opened Disk
  import Sha1

  datatype Torrent = Torrent(lengths: seq<nat>, pieceLength: nat, hashes: seq<seq<byte>>)

  /** The blocks of one piece; without blocks, the piece has not been started. */
  datatype Download = Download(requested: seq<bool>, received: seq<bool>, blocks: seq<seq<byte>>)

  const NOT_STARTED: Download := Download([], [], [])

  datatype WriteRequest = WriteRequest(piece: nat, data: seq<byte>)

  /** The disk thread: idle, or with some mappings of a request written. */
  datatype Progress = Idle | Writing(request: WriteRequest, mappingsDone: nat)

  datatype State = State(
    have: seq<bool>,
    active: seq<Download>,
    queue: seq<WriteRequest>,
    progress: Progress,
    disk: Contents)

  // ----- the locked operations as functions of the state -----

  function Started(blockCount: nat): Download {
    Download(Repeat(blockCount, false), Repeat(blockCount, false), Repeat(blockCount, []))
  }

  function SizeOf(t: Torrent, piece: nat): nat
    requires t.pieceLength > 0
  {
    PieceSize(t.lengths, t.pieceLength, |t.hashes|, piece)
  }

  predicate Even(d: Download) { |d.requested| == |d.received| == |d.blocks| }

  predicate AllTrue(bits: seq<bool>) { forall i | 0 <= i < |bits| :: bits[i] }

  predicate IsComplete(d: Download) { d.received != [] && AllTrue(d.received) }

  function Request(t: Torrent, s: State, piece: nat, block: nat, blockSize: nat): (State, bool)
    requires t.pieceLength > 0 && blockSize > 0
  {
    if piece >= |s.active| then (s, false)
    else
      var d := if s.active[piece].received == [] then Started((SizeOf(t, piece) + blockSize - 1) / blockSize)
               else s.active[piece];
      if block >= |d.requested| || d.requested[block] then (s.(active := s.active[piece := d]), false)
      else (s.(active := s.active[piece := d.(requested := d.requested[block := true])]), true)
  }

  /** Blocks are 16 KiB long, whatever size was requested. */
  function BlockIndex(begin: nat): nat { begin / 16384 }

  function Receive(s: State, piece: nat, begin: nat, data: seq<byte>): (State, bool)
    requires forall d | d in s.active :: Even(d)
  {
    if piece >= |s.active| then (s, false)
    else
      var d, block := s.active[piece], BlockIndex(begin);
      assert d in s.active;
      if block >= |d.received| || d.received[block] then (s, false)
      else
        assert Even(d);
        var more := Download(d.requested, d.received[block := true], d.blocks[block := data]);
        (s.(active := s.active[piece := more]), true)
  }

  /** The blocks of the piece hash to the expected value. */
  predicate Matches(t: Torrent, piece: nat, d: Download) {
    piece < |t.hashes| && Sha1.Hash(Sha1.Concat(d.blocks)) == t.hashes[piece]
  }

  function Verify(t: Torrent, s: State, piece: nat): (State, bool)
    requires |s.active| == |s.have| == |t.hashes|
  {
    if piece >= |s.active| || !IsComplete(s.active[piece]) then (s, false)
    else if Matches(t, piece, s.active[piece]) then
      var request := WriteRequest(piece, Sha1.Concat(s.active[piece].blocks));
      (s.(have := s.have[piece := true], queue := s.queue + [request]), true)
    else (s.(active := s.active[piece := NOT_STARTED]), false)
  }

  // ----- reading and writing a piece -----

  function PieceBytes(t: Torrent, files: Contents, piece: nat): seq<byte>
    requires Shaped(files, t.lengths)
  {
    FlatLength(files, t.lengths);
    BoundaryMonotone(t.lengths, t.pieceLength, piece, piece + 1);
    Flat(files)[Boundary(t.lengths, t.pieceLength, piece)..Boundary(t.lengths, t.pieceLength, piece + 1)]
  }

  /** The mappings are those of the torrent, one list for every hash. */
  predicate Mapped(t: Torrent, maps: seq<seq<Mapping>>) {
    |maps| == |t.hashes| && CountFits(t.lengths, t.pieceLength, |maps|) && MapsAll(t.lengths, t.pieceLength, maps)
  }

  lemma MappingPlace(t: Torrent, maps: seq<seq<Mapping>>, piece: nat, k: nat)
    requires Mapped(t, maps) && piece < |maps| && k < |maps[piece]|
    ensures Fits(t.lengths, maps[piece][k])
    ensures Start(t.lengths, maps[piece][k].file) + maps[piece][k].offset
         == Boundary(t.lengths, t.pieceLength, piece) + Lengths(maps[piece][..k])
    ensures Lengths(maps[piece][..k + 1]) == Lengths(maps[piece][..k]) + maps[piece][k].length
    ensures Boundary(t.lengths, t.pieceLength, piece) + Lengths(maps[piece][..k + 1])
         <= Boundary(t.lengths, t.pieceLength, piece + 1) <= Total(t.lengths)
    ensures Lengths(maps[piece][..k + 1]) <= SizeOf(t, piece)
  {
    assert MapsPiece(t.lengths, t.pieceLength, piece, maps[piece]);
    SizeOfPiece(t.lengths, t.pieceLength, maps, piece);
    MappingStart(t.lengths, maps[piece], Boundary(t.lengths, t.pieceLength, piece),
                 Boundary(t.lengths, t.pieceLength, piece + 1), k);
  }

  lemma WholePiece(t: Torrent, maps: seq<seq<Mapping>>, piece: nat)
    requires Mapped(t, maps) && piece < |maps|
    ensures Lengths(maps[piece]) == SizeOf(t, piece)
    ensures Boundary(t.lengths, t.pieceLength, piece + 1)
         == Boundary(t.lengths, t.pieceLength, piece) + SizeOf(t, piece)
    ensures Boundary(t.lengths, t.pieceLength, piece + 1) <= Total(t.lengths)
  {
    assert MapsPiece(t.lengths, t.pieceLength, piece, maps[piece]);
    SizeOfPiece(t.lengths, t.pieceLength, maps, piece);
    PositionsLength(t.lengths, maps[piece]);
  }

  // ----- the disk thread -----

  /**
   * The bytes that are written for a piece of some size: those of the data, and if these are too few then whatever
   * stands behind them in memory.
   */
  function Shown(data: seq<byte>, beyond: seq<byte>, size: nat): (r: seq<byte>)
    ensures |r| == size && (|data| == size ==> r == data)
  {
    if |data| >= size then data[..size] else (data + beyond + Repeat(size, 0))[..size]
  }

  /** The thread takes the next request. */
  function Take(t: Torrent, s: State, beyond: seq<byte>): State
    requires t.pieceLength > 0
  {
    if s.progress.Idle? && s.queue != [] then
      var next := s.queue[0];
      s.(queue := s.queue[1..],
         progress := Writing(WriteRequest(next.piece, Shown(next.data, beyond, SizeOf(t, next.piece))), 0))
    else s
  }

  /** The bytes of a request that mapping `k` takes. */
  function Chunk(maps: seq<seq<Mapping>>, request: WriteRequest, k: nat): seq<byte>
    requires request.piece < |maps| && k < |maps[request.piece]|
    requires Lengths(maps[request.piece][..k]) + maps[request.piece][k].length <= |request.data|
  {
    request.data[Lengths(maps[request.piece][..k])..][..maps[request.piece][k].length]
  }

  /** One turn of the loop of `write_piece`, or its end. */
  function WriteNext(t: Torrent, maps: seq<seq<Mapping>>, s: State): State
    requires WellFormed(t, maps, s)
  {
    if s.progress.Idle? then s
    else
      var request, k := s.progress.request, s.progress.mappingsDone;
      if k == |maps[request.piece]| then s.(progress := Idle)
      else
        MappingPlace(t, maps, request.piece, k);
        s.(disk := WriteAt(s.disk, maps[request.piece][k], Chunk(maps, request, k)), progress := Writing(request, k + 1))
  }

  predicate Pending(s: State, piece: nat) {
    (s.progress.Writing? && s.progress.request.piece == piece) || exists w | w in s.queue :: w.piece == piece
  }

  /** A request carries data with the hash of a piece that is had. */
  predicate GoodRequest(t: Torrent, s: State, w: WriteRequest) {
    w.piece < |t.hashes| == |s.have| && s.have[w.piece] && Sha1.Hash(w.data) == t.hashes[w.piece]
  }

  /** The bytes of a request that its first `k` mappings wrote are on disk. */
  predicate WrittenUpTo(t: Torrent, maps: seq<seq<Mapping>>, files: Contents, w: WriteRequest, k: nat)
    requires Mapped(t, maps) && Shaped(files, t.lengths) && w.piece < |maps|
  {
    && k <= |maps[w.piece]| && |w.data| == SizeOf(t, w.piece)
    && Lengths(maps[w.piece][..k]) <= |w.data|
    && var lo, n := Boundary(t.lengths, t.pieceLength, w.piece), Lengths(maps[w.piece][..k]);
       lo + n <= |Flat(files)| && Flat(files)[lo..lo + n] == w.data[..n]
  }

  /** What every run keeps: queued data is verified, and what a running write has written is on disk. */
  ghost predicate WellFormed(t: Torrent, maps: seq<seq<Mapping>>, s: State) {
    && Mapped(t, maps)
    && |s.have| == |s.active| == |t.hashes| && Shaped(s.disk, t.lengths)
    && (forall d | d in s.active :: Even(d))
    && (forall w | w in s.queue :: GoodRequest(t, s, w))
    && (s.progress.Writing? ==>
          && s.progress.request.piece < |t.hashes| && s.have[s.progress.request.piece]
          && WrittenUpTo(t, maps, s.disk, s.progress.request, s.progress.mappingsDone))
  }

  /** What runs keep besides, as long as the data taken has the length of its piece: had pieces are on disk or on their way. */
  ghost predicate Invariant(t: Torrent, maps: seq<seq<Mapping>>, s: State) {
    && WellFormed(t, maps, s)
    && (s.progress.Writing? ==> GoodRequest(t, s, s.progress.request))
    && (forall p | 0 <= p < |s.have| :: s.have[p] ==> Backed(t, s, p))
  }

  /** A piece that is had is on its way to disk or there. */
  ghost predicate Backed(t: Torrent, s: State, piece: nat)
    requires Shaped(s.disk, t.lengths) && piece < |t.hashes|
  {
    Pending(s, piece) || Sha1.Hash(PieceBytes(t, s.disk, piece)) == t.hashes[piece]
  }

  /** What the constructor leaves: no pieces, nothing requested, files of the right size. */
  predicate Initial(t: Torrent, s: State) {
    && s.have == Repeat(|t.hashes|, false) && s.active == Repeat(|t.hashes|, NOT_STARTED)
    && s.queue == [] && s.progress == Idle && Shaped(s.disk, t.lengths)
  }

  // ----- runs -----

  datatype Event =
    | RequestBlock(piece: nat, block: nat, blockSize: nat)
    | ReceiveBlock(piece: nat, begin: nat, data: seq<byte>)
    | VerifyPiece(piece: nat)
    | TakeRequest(beyond: seq<byte>)
    | WriteMapping

  function Apply(t: Torrent, maps: seq<seq<Mapping>>, s: State, e: Event): State
    requires WellFormed(t, maps, s)
  {
    match e
    case RequestBlock(piece, block, blockSize) => if blockSize == 0 then s else Request(t, s, piece, block, blockSize).0
    case ReceiveBlock(piece, begin, data) => Receive(s, piece, begin, data).0
    case VerifyPiece(piece) => Verify(t, s, piece).0
    case TakeRequest(beyond) => Take(t, s, beyond)
    case WriteMapping => WriteNext(t, maps, s)
  }

  ghost function Run(t: Torrent, maps: seq<seq<Mapping>>, s: State, events: seq<Event>): (r: State)
    requires WellFormed(t, maps, s)
    ensures WellFormed(t, maps, r)
  {
    if events == [] then s
    else
      var before := Run(t, maps, s, events[..|events| - 1]);
      ApplyKeeps(t, maps, before, events[|events| - 1]);
      Apply(t, maps, before, events[|events| - 1])
  }

  /** If the event takes a request, its data has the length of the piece. */
  predicate RightLength(t: Torrent, s: State, e: Event) {
    e.TakeRequest? && s.progress.Idle? && s.queue != [] ==>
      t.pieceLength > 0 && |s.queue[0].data| == SizeOf(t, s.queue[0].piece)
  }

  /** The hypothesis of a run: data with the hash of a piece has its length, whenever the disk thread takes some. */
  ghost predicate RightLengths(t: Torrent, maps: seq<seq<Mapping>>, start: State, events: seq<Event>)
    requires WellFormed(t, maps, start)
  {
    forall i | 0 <= i < |events| :: RightLength(t, Run(t, maps, start, events[..i]), events[i])
  }

  lemma InitialHolds(t: Torrent, maps: seq<seq<Mapping>>, s: State)
    requires Mapped(t, maps) && Initial(t, s)
    ensures Invariant(t, maps, s)
  {
  }

  /** Every event keeps both, the second one if it takes no data of another length. */
  lemma ApplyKeeps(t: Torrent, maps: seq<seq<Mapping>>, s: State, e: Event)
    requires WellFormed(t, maps, s)
    ensures WellFormed(t, maps, Apply(t, maps, s, e))
    ensures Invariant(t, maps, s) && RightLength(t, s, e) ==> Invariant(t, maps, Apply(t, maps, s, e))
  {
    hide Invariant, WellFormed;
    match e {
      case RequestBlock(piece, block, blockSize) => RequestKeeps(t, maps, s, e);
      case ReceiveBlock(piece, begin, data) => ReceiveKeeps(t, maps, s, e);
      case VerifyPiece(piece) => VerifyKeeps(t, maps, s, piece);
      case TakeRequest(beyond) => TakeKeeps(t, maps, s, beyond);
      case WriteMapping => WriteKeeps(t, maps, s);
    }
  }

  lemma {:induction false} RunKeeps(t: Torrent, maps: seq<seq<Mapping>>, start: State, events: seq<Event>)
    requires WellFormed(t, maps, start) && Invariant(t, maps, start) && RightLengths(t, maps, start, events)
    ensures Invariant(t, maps, Run(t, maps, start, events))
  {
    hide RightLength, Apply, WellFormed, Invariant;
    if events != [] {
      var last := |events| - 1;
      var earlier := events[..last];
      forall i | 0 <= i < last ensures RightLength(t, Run(t, maps, start, earlier[..i]), earlier[i]) {
        assert earlier[..i] == events[..i];
      }
      RunKeeps(t, maps, start, earlier);
      ApplyKeeps(t, maps, Run(t, maps, start, earlier), events[last]);
    }
  }

  lemma RequestKeeps(t: Torrent, maps: seq<seq<Mapping>>, s: State, e: Event)
    requires WellFormed(t, maps, s) && e.RequestBlock?
    ensures WellFormed(t, maps, Apply(t, maps, s, e)) && (Invariant(t, maps, s) ==> Invariant(t, maps, Apply(t, maps, s, e)))
  {
    if e.piece < |s.active| {
      assert s.active[e.piece] in s.active;
    }
    OneDownload(t, maps, s, Apply(t, maps, s, e), e.piece);
  }

  lemma ReceiveKeeps(t: Torrent, maps: seq<seq<Mapping>>, s: State, e: Event)
    requires WellFormed(t, maps, s) && e.ReceiveBlock?
    ensures WellFormed(t, maps, Apply(t, maps, s, e)) && (Invariant(t, maps, s) ==> Invariant(t, maps, Apply(t, maps, s, e)))
  {
    if e.piece < |s.active| {
      assert s.active[e.piece] in s.active;
    }
    OneDownload(t, maps, s, Apply(t, maps, s, e), e.piece);
  }

  lemma OneDownload(t: Torrent, maps: seq<seq<Mapping>>, s: State, after: State, piece: nat)
    requires WellFormed(t, maps, s)
    requires after == s ||
      (piece < |s.active| == |after.active| && Even(after.active[piece])
       && after == s.(active := s.active[piece := after.active[piece]]))
    ensures WellFormed(t, maps, after) && (Invariant(t, maps, s) ==> Invariant(t, maps, after))
  {
    forall d | d in after.active ensures Even(d) {
      var i :| 0 <= i < |after.active| && after.active[i] == d;
      assert s.active[i] in s.active;
    }
    forall p | Invariant(t, maps, s) && 0 <= p < |after.have| && after.have[p] ensures Backed(t, after, p) {
      assert Backed(t, s, p);
    }
  }

  lemma VerifyKeeps(t: Torrent, maps: seq<seq<Mapping>>, s: State, piece: nat)
    requires WellFormed(t, maps, s)
    ensures WellFormed(t, maps, Verify(t, s, piece).0) && (Invariant(t, maps, s) ==> Invariant(t, maps, Verify(t, s, piece).0))
  {
    var after := Verify(t, s, piece).0;
    if after.queue == s.queue {
      OneDownload(t, maps, s, after, piece);
    } else {
      forall w | w in after.queue ensures GoodRequest(t, after, w) {
        assert w in s.queue ==> GoodRequest(t, s, w);
      }
      forall p | Invariant(t, maps, s) && 0 <= p < |after.have| && after.have[p] ensures Backed(t, after, p) {
        if p == piece {
          assert after.queue[|s.queue|].piece == piece;
        } else {
          assert Backed(t, s, p);
          assert forall w | w in s.queue :: w in after.queue;
        }
      }
    }
  }

  lemma TakeKeeps(t: Torrent, maps: seq<seq<Mapping>>, s: State, beyond: seq<byte>)
    requires WellFormed(t, maps, s)
    ensures WellFormed(t, maps, Take(t, s, beyond))
    ensures Invariant(t, maps, s) && RightLength(t, s, TakeRequest(beyond)) ==> Invariant(t, maps, Take(t, s, beyond))
  {
    if s.progress.Idle? && s.queue != [] {
      var first, rest := s.queue[0], s.queue[1..];
      assert s.queue == [first] + rest && first in s.queue;
      assert GoodRequest(t, s, first);
      var taken := WriteRequest(first.piece, Shown(first.data, beyond, SizeOf(t, first.piece)));
      StartsUnwritten(t, maps, s.disk, taken);
      var after := s.(queue := rest, progress := Writing(taken, 0));
      assert Take(t, s, beyond) == after;
      forall w | w in after.queue ensures GoodRequest(t, after, w) {
        assert w in s.queue && GoodRequest(t, s, w);
      }
      if Invariant(t, maps, s) && RightLength(t, s, TakeRequest(beyond)) {
        TakenStaysPending(t, s, first, taken, rest);
      }
    }
  }

  lemma StartsUnwritten(t: Torrent, maps: seq<seq<Mapping>>, files: Contents, w: WriteRequest)
    requires Mapped(t, maps) && Shaped(files, t.lengths) && w.piece < |maps| && |w.data| == SizeOf(t, w.piece)
    ensures WrittenUpTo(t, maps, files, w, 0)
  {
    assert maps[w.piece][..0] == [];
    FlatLength(files, t.lengths);
    WholePiece(t, maps, w.piece);
  }

  lemma TakenStaysPending(t: Torrent, s: State, first: WriteRequest, taken: WriteRequest, rest: seq<WriteRequest>)
    requires |s.have| == |t.hashes| && Shaped(s.disk, t.lengths)
    requires s.progress.Idle? && s.queue == [first] + rest && taken.piece == first.piece
    requires forall p | 0 <= p < |s.have| :: s.have[p] ==> Backed(t, s, p)
    ensures var after := s.(queue := rest, progress := Writing(taken, 0));
      forall p | 0 <= p < |s.have| :: s.have[p] ==> Backed(t, after, p)
  {
    var after := s.(queue := rest, progress := Writing(taken, 0));
    forall p | 0 <= p < |s.have| && s.have[p] ensures Backed(t, after, p) {
      assert Backed(t, s, p);
    }
  }

  lemma WriteKeeps(t: Torrent, maps: seq<seq<Mapping>>, s: State)
    requires WellFormed(t, maps, s)
    ensures WellFormed(t, maps, WriteNext(t, maps, s)) && (Invariant(t, maps, s) ==> Invariant(t, maps, WriteNext(t, maps, s)))
  {
    if s.progress.Writing? {
      if s.progress.mappingsDone == |maps[s.progress.request.piece]| {
        FinishKeeps(t, maps, s);
      } else {
        ChunkKeeps(t, maps, s);
      }
    }
  }

  lemma FinishKeeps(t: Torrent, maps: seq<seq<Mapping>>, s: State)
    requires WellFormed(t, maps, s) && s.progress.Writing?
    requires s.progress.mappingsDone == |maps[s.progress.request.piece]|
    ensures PieceBytes(t, s.disk, s.progress.request.piece) == s.progress.request.data
    ensures WellFormed(t, maps, s.(progress := Idle)) && (Invariant(t, maps, s) ==> Invariant(t, maps, s.(progress := Idle)))
  {
    var after, w := s.(progress := Idle), s.progress.request;
    assert maps[w.piece][..|maps[w.piece]|] == maps[w.piece];
    WholePiece(t, maps, w.piece);
    assert w.data[..|w.data|] == w.data;
    assert PieceBytes(t, s.disk, w.piece) == w.data;
    forall p | Invariant(t, maps, s) && 0 <= p < |after.have| && after.have[p] ensures Backed(t, after, p) {
      assert Backed(t, s, p);
    }
  }

  lemma ChunkKeeps(t: Torrent, maps: seq<seq<Mapping>>, s: State)
    requires WellFormed(t, maps, s) && s.progress.Writing?
    requires s.progress.mappingsDone < |maps[s.progress.request.piece]|
    ensures WellFormed(t, maps, WriteNext(t, maps, s)) && (Invariant(t, maps, s) ==> Invariant(t, maps, WriteNext(t, maps, s)))
  {
    hide Boundary, Flat, Start, PieceBytes, MapsPiece;
    var after, w, k := WriteNext(t, maps, s), s.progress.request, s.progress.mappingsDone;
    ChunkWritten(t, maps, s.disk, w, k);
    forall p | Invariant(t, maps, s) && 0 <= p < |after.have| && after.have[p] ensures Backed(t, after, p) {
      assert Backed(t, s, p);
      if p != w.piece {
        OtherPieceKept(t, maps, s.disk, w, k, p);
      }
    }
    assert forall q | q in after.queue :: GoodRequest(t, s, q);
  }

  lemma ChunkWritten(t: Torrent, maps: seq<seq<Mapping>>, files: Contents, w: WriteRequest, k: nat)
    requires Mapped(t, maps) && Shaped(files, t.lengths) && w.piece < |maps| && k < |maps[w.piece]|
    requires WrittenUpTo(t, maps, files, w, k)
    ensures Lengths(maps[w.piece][..k]) + maps[w.piece][k].length <= |w.data|
    ensures Fits(t.lengths, maps[w.piece][k])
    ensures var written := WriteAt(files, maps[w.piece][k], Chunk(maps, w, k));
      Shaped(written, t.lengths) && WrittenUpTo(t, maps, written, w, k + 1)
  {
    hide MapsPiece, MapsAll, Start, PieceBytes;
    MappingPlace(t, maps, w.piece, k);
    var m, lo, n := maps[w.piece][k], Boundary(t.lengths, t.pieceLength, w.piece), Lengths(maps[w.piece][..k]);
    var chunk := Chunk(maps, w, k);
    FlatWrite(files, t.lengths, m, chunk);
    var flat := Splice(Flat(files), lo + n, chunk);
    assert flat[lo..lo + n + m.length] == Flat(files)[lo..lo + n] + chunk;
    assert w.data[..n + m.length] == w.data[..n] + chunk;
  }

  lemma OtherPieceKept(t: Torrent, maps: seq<seq<Mapping>>, files: Contents, w: WriteRequest, k: nat, p: nat)
    requires Mapped(t, maps) && Shaped(files, t.lengths) && w.piece < |maps| && k < |maps[w.piece]|
    requires WrittenUpTo(t, maps, files, w, k) && p != w.piece
    ensures Lengths(maps[w.piece][..k]) + maps[w.piece][k].length <= |w.data|
    ensures Fits(t.lengths, maps[w.piece][k])
    ensures var written := WriteAt(files, maps[w.piece][k], Chunk(maps, w, k));
      Shaped(written, t.lengths) && PieceBytes(t, written, p) == PieceBytes(t, files, p)
  {
    hide MapsPiece, MapsAll, Start;
    MappingPlace(t, maps, w.piece, k);
    var m, chunk := maps[w.piece][k], Chunk(maps, w, k);
    FlatWrite(files, t.lengths, m, chunk);
    FlatLength(files, t.lengths);
    var at, lo, hi := Start(t.lengths, m.file) + m.offset, Boundary(t.lengths, t.pieceLength, p),
                      Boundary(t.lengths, t.pieceLength, p + 1);
    BoundaryMonotone(t.lengths, t.pieceLength, p, p + 1);
    if p < w.piece {
      BoundaryMonotone(t.lengths, t.pieceLength, p + 1, w.piece);
      assert hi <= at;
    } else {
      BoundaryMonotone(t.lengths, t.pieceLength, w.piece + 1, p);
      assert at + |chunk| <= lo;
    }
    SpliceOutside(Flat(files), at, chunk, lo, hi);
  }

  lemma SpliceOutside(s: seq<byte>, at: nat, data: seq<byte>, lo: nat, hi: nat)
    requires at + |data| <= |s| && lo <= hi <= |s| && (hi <= at || at + |data| <= lo)
    ensures Splice(s, at, data)[lo..hi] == s[lo..hi]
  {
  }

  // ----- the main results -----

  /** In every run with data of the right lengths, a had piece with no pending write reads back with the expected hash. */
  lemma HadPiecesReadBack(t: Torrent, maps: seq<seq<Mapping>>, start: State, events: seq<Event>, piece: nat)
    requires Mapped(t, maps) && Initial(t, start) && piece < |t.hashes|
    ensures Invariant(t, maps, start)
    ensures RightLengths(t, maps, start, events) ==>
      var s := Run(t, maps, start, events);
      s.have[piece] && !Pending(s, piece) ==> Sha1.Hash(PieceBytes(t, s.disk, piece)) == t.hashes[piece]
  {
    InitialHolds(t, maps, start);
    if RightLengths(t, maps, start, events) {
      RunKeeps(t, maps, start, events);
      var s := Run(t, maps, start, events);
      assert s.have[piece] ==> Backed(t, s, piece);
    }
  }

  /** In every run, each queued write carries data with the hash of its piece; with right lengths, so does a running one. */
  lemma WritesCarryVerifiedData(t: Torrent, maps: seq<seq<Mapping>>, start: State, events: seq<Event>)
    requires Mapped(t, maps) && Initial(t, start)
    ensures Invariant(t, maps, start)
    ensures var s := Run(t, maps, start, events);
      && (forall w | w in s.queue :: Sha1.Hash(w.data) == t.hashes[w.piece])
      && (RightLengths(t, maps, start, events) && s.progress.Writing? ==>
            Sha1.Hash(s.progress.request.data) == t.hashes[s.progress.request.piece])
  {
    InitialHolds(t, maps, start);
    if RightLengths(t, maps, start, events) {
      RunKeeps(t, maps, start, events);
    }
  }

  /**
   * When a write is done, the piece holds what was shown to it. So of verified data of another length the first bytes
   * are written, or more than there are, and the piece has the expected hash exactly if these bytes have it.
   */
  lemma WrittenIsShown(t: Torrent, maps: seq<seq<Mapping>>, s: State, beyond: seq<byte>, after: State)
    requires WellFormed(t, maps, s) && s.progress.Idle? && s.queue != []
    requires WellFormed(t, maps, after) && after.progress.Writing?
    requires after.progress.request == Take(t, s, beyond).progress.request
    requires after.progress.mappingsDone == |maps[s.queue[0].piece]|
    ensures var first := s.queue[0]; var size := SizeOf(t, first.piece);
      && PieceBytes(t, after.disk, first.piece) == Shown(first.data, beyond, size)
      && (|first.data| >= size ==> PieceBytes(t, after.disk, first.piece) == first.data[..size])
  {
    FinishKeeps(t, maps, after);
  }

  /** The only event that sets a have-bit is a verification of a complete piece whose blocks match; none clears one. */
  lemma HaveChanges(t: Torrent, maps: seq<seq<Mapping>>, s: State, e: Event, piece: nat)
    requires WellFormed(t, maps, s) && piece < |t.hashes|
    ensures var after := Apply(t, maps, s, e);
      && |after.have| == |s.have|
      && (s.have[piece] ==> after.have[piece])
      && (after.have[piece] && !s.have[piece] ==>
            e == VerifyPiece(piece) && IsComplete(s.active[piece]) && Matches(t, piece, s.active[piece]))
  {
  }

  ghost predicate VerifiedAt(t: Torrent, maps: seq<seq<Mapping>>, start: State, events: seq<Event>, i: nat, piece: nat)
    requires WellFormed(t, maps, start) && piece < |t.hashes|
  {
    && i < |events| && events[i] == VerifyPiece(piece)
    && var s := Run(t, maps, start, events[..i]);
       IsComplete(s.active[piece]) && Matches(t, piece, s.active[piece])
  }

  lemma {:induction false} HaveStays(t: Torrent, maps: seq<seq<Mapping>>, start: State, events: seq<Event>, i: nat, piece: nat)
    requires WellFormed(t, maps, start) && i <= |events| && piece < |t.hashes|
    ensures Run(t, maps, start, events[..i]).have[piece] ==> Run(t, maps, start, events).have[piece]
  {
    if i == |events| {
      assert events[..i] == events;
    } else {
      var earlier := events[..|events| - 1];
      HaveStays(t, maps, start, earlier, i, piece);
      assert earlier[..i] == events[..i];
      HaveChanges(t, maps, Run(t, maps, start, earlier), events[|events| - 1], piece);
    }
  }

  lemma VerifiedIsHad(t: Torrent, maps: seq<seq<Mapping>>, start: State, events: seq<Event>, i: nat, piece: nat)
    requires WellFormed(t, maps, start) && piece < |t.hashes|
    requires VerifiedAt(t, maps, start, events, i, piece)
    ensures Run(t, maps, start, events).have[piece]
  {
    var upTo := events[..i + 1];
    assert upTo[..i] == events[..i];
    HaveStays(t, maps, start, events, i + 1, piece);
  }

  lemma {:induction false} HadWasVerified(t: Torrent, maps: seq<seq<Mapping>>, start: State, events: seq<Event>, piece: nat)
    returns (i: nat)
    requires WellFormed(t, maps, start) && piece < |t.hashes| && !start.have[piece]
    requires Run(t, maps, start, events).have[piece]
    ensures VerifiedAt(t, maps, start, events, i, piece)
  {
    var last := |events| - 1;
    var earlier := events[..last];
    if Run(t, maps, start, earlier).have[piece] {
      i := HadWasVerified(t, maps, start, earlier, piece);
      assert earlier[..i] == events[..i];
    } else {
      HaveChanges(t, maps, Run(t, maps, start, earlier), events[last], piece);
      i := last;
    }
  }

  /** A piece is had at the end of a run exactly if some verification of the run found matching blocks. */
  lemma HadIffVerified(t: Torrent, maps: seq<seq<Mapping>>, start: State, events: seq<Event>, piece: nat)
    requires Mapped(t, maps) && Initial(t, start) && piece < |t.hashes|
    ensures Invariant(t, maps, start)
    ensures Run(t, maps, start, events).have[piece]
       <==> exists i: nat :: VerifiedAt(t, maps, start, events, i, piece)
  {
    InitialHolds(t, maps, start);
    if Run(t, maps, start, events).have[piece] {
      var i := HadWasVerified(t, maps, start, events, piece);
    }
    forall i: nat | VerifiedAt(t, maps, start, events, i, piece)
      ensures Run(t, maps, start, events).have[piece]
    {
      VerifiedIsHad(t, maps, start, events, i, piece);
    }
  }

  // ----- the object -----

  class Manager {
    const torrent: Torrent
    const maps: seq<seq<Mapping>>
    var have: seq<bool>
    var active: seq<Download>
    var diskQueue: seq<WriteRequest>
    var progress: Progress  // the local state of the disk thread
    var disk: Contents

    function Snapshot(): State
      reads this
    {
      State(have, active, diskQueue, progress, disk)
    }

    predicate Consistent()
      reads this
    {
      |have| == |active| == |torrent.hashes| && forall d | d in active :: Even(d)
    }

    constructor (torrent: Torrent)
      ensures this.torrent == torrent && Consistent() && Initial(torrent, Snapshot())
      ensures |maps| == |torrent.hashes|
      ensures torrent.pieceLength > 0 ==> MapsAll(torrent.lengths, torrent.pieceLength, maps)
    {
      this.torrent := torrent;
      have := Repeat(|torrent.hashes|, false);
      active := Repeat(|torrent.hashes|, NOT_STARTED);
      diskQueue, progress := [], Idle;
      disk := seq(|torrent.lengths|, i requires 0 <= i < |torrent.lengths| => Repeat(torrent.lengths[i], 0));
      var mappings := CalculateFileMappings(torrent.lengths, torrent.pieceLength, |torrent.hashes|);
      maps := mappings;
    }

    method RequestBlock(piece: nat, block: nat, blockSize: nat) returns (ok: bool)
      requires Consistent() && torrent.pieceLength > 0 && blockSize > 0
      modifies this`active
      ensures (Snapshot(), ok) == Request(torrent, old(Snapshot()), piece, block, blockSize)
    {
      if piece >= |active| {
        return false;
      }
      var download := active[piece];
      if download.received == [] {
        var pieceSize := if piece == |torrent.hashes| - 1 then Total(torrent.lengths) % torrent.pieceLength
                         else torrent.pieceLength;
        if pieceSize == 0 {
          pieceSize := torrent.pieceLength;
        }
        assert pieceSize == SizeOf(torrent, piece);
        download := Started((pieceSize + blockSize - 1) / blockSize);
        active := active[piece := download];
      }
      assert active == old(active)[piece := download];
      if block >= |download.requested| {
        return false;
      }
      if download.requested[block] {
        return false;
      }
      active := active[piece := download.(requested := download.requested[block := true])];
      assert active == old(active)[piece := download.(requested := download.requested[block := true])];
      return true;
    }

    method ReceiveBlock(piece: nat, begin: nat, data: seq<byte>) returns (ok: bool)
      requires Consistent()
      modifies this`active
      ensures (Snapshot(), ok) == Receive(old(Snapshot()), piece, begin, data)
    {
      if piece >= |active| {
        return false;
      }
      var download := active[piece];
      assert download in active;
      if download.received == [] {
        return false;
      }
      var block := BlockIndex(begin);
      if block >= |download.received| {
        return false;
      }
      if download.received[block] {
        return false;
      }
      download := Download(download.requested, download.received[block := true], download.blocks[block := data]);
      active := active[piece := download];
      return true;
    }

    method VerifyPiece(piece: nat) returns (ok: bool)
      requires Consistent()
      modifies this`have, this`active, this`diskQueue
      ensures (Snapshot(), ok) == Verify(torrent, old(Snapshot()), piece)
    {
      if piece >= |active| || !IsComplete(active[piece]) {
        return false;
      }
      var blocks := active[piece].blocks;
      var pieceData := [];
      for i := 0 to |blocks|
        invariant pieceData == Sha1.Concat(blocks[..i])
      {
        assert blocks[..i + 1][..i] == blocks[..i];
        pieceData := pieceData + blocks[i];
      }
      assert blocks[..|blocks|] == blocks;
      Sha1.ConcatSingle(pieceData);
      var hash := Sha1.HashParts([pieceData]);
      if hash == torrent.hashes[piece] {
        have := have[piece := true];
        diskQueue := diskQueue + [WriteRequest(piece, pieceData)];
        return true;
      }
      active := active[piece := NOT_STARTED];
      return false;
    }

    /** The disk thread takes the next request; `beyond` is what stands behind its data in memory. */
    method TakeRequest(beyond: seq<byte>)
      requires torrent.pieceLength > 0
      modifies this`diskQueue, this`progress
      ensures Snapshot() == Take(torrent, old(Snapshot()), beyond)
    {
      if progress.Idle? && diskQueue != [] {
        var next := diskQueue[0];
        progress := Writing(WriteRequest(next.piece, Shown(next.data, beyond, SizeOf(torrent, next.piece))), 0);
        diskQueue := diskQueue[1..];
      }
    }

    /** One mapping of the running request is written, or the request ends. */
    method WriteMapping()
      requires WellFormed(torrent, maps, Snapshot())
      modifies this`progress, this`disk
      ensures Snapshot() == WriteNext(torrent, maps, old(Snapshot()))
    {
      if progress.Writing? {
        var request, k := progress.request, progress.mappingsDone;
        if k == |maps[request.piece]| {
          progress := Idle;
        } else {
          MappingPlace(torrent, maps, request.piece, k);
          disk := WriteAt(disk, maps[request.piece][k], Chunk(maps, request, k));
          progress := Writing(request, k + 1);
        }
      }
    }

    /** `write_piece` without interruption: the bytes of the piece are replaced, all others stay. */
    method WritePiece(piece: nat, data: seq<byte>)
      requires Mapped(torrent, maps) && Shaped(disk, torrent.lengths) && piece < |maps|
      requires |data| >= SizeOf(torrent, piece)
      modifies this`disk
      ensures Shaped(disk, torrent.lengths)
      ensures Boundary(torrent.lengths, torrent.pieceLength, piece) + SizeOf(torrent, piece) <= |Flat(old(disk))|
      ensures Flat(disk) == Splice(Flat(old(disk)), Boundary(torrent.lengths, torrent.pieceLength, piece),
                                   data[..SizeOf(torrent, piece)])
    {
      var ms := maps[piece];
      ghost var lo, size := Boundary(torrent.lengths, torrent.pieceLength, piece), SizeOf(torrent, piece);
      WholePiece(torrent, maps, piece);
      FlatLength(disk, torrent.lengths);
      ghost var before := Flat(disk);
      var offset := 0;
      assert Splice(before, lo, data[..0]) == before;
      assert ms[..0] == [];
      for k := 0 to |ms|
        invariant offset == Lengths(ms[..k]) <= size == SizeOf(torrent, piece)
        invariant PartWritten(torrent, before, lo, disk, data[..offset])
      {
        MappingPlace(torrent, maps, piece, k);
        var end := offset + ms[k].length;
        var bytes := data[offset..end];
        PrefixNext(data, offset, end);
        WriteOneMore(torrent, maps, piece, k, before, lo, disk, data[..offset], bytes, data[..end]);
        disk := WriteAt(disk, ms[k], bytes);
        offset := end;
      }
      assert ms[..|ms|] == ms;
    }

    /** `read_piece`: nothing for a piece that is not had, else the bytes of the piece. */
    method ReadPiece(piece: nat) returns (data: seq<byte>)
      requires Mapped(torrent, maps) && Shaped(disk, torrent.lengths) && |have| == |maps|
      ensures data == if piece < |have| && have[piece] then PieceBytes(torrent, disk, piece) else []
    {
      if piece >= |have| || !have[piece] {
        return [];
      }
      var ms := maps[piece];
      ghost var lo, flat := Boundary(torrent.lengths, torrent.pieceLength, piece), Flat(disk);
      WholePiece(torrent, maps, piece);
      FlatLength(disk, torrent.lengths);
      data := [];
      assert ms[..0] == [];
      for k := 0 to |ms|
        invariant Lengths(ms[..k]) <= SizeOf(torrent, piece)
        invariant data == flat[lo..lo + Lengths(ms[..k])]
      {
        ReadOneMore(torrent, maps, piece, k, disk, lo);
        data := data + ReadAt(disk, ms[k]);
      }
      assert ms[..|ms|] == ms;
    }
  }

  /** The bytes `first` of a piece are in place, all others are those from before. */
  ghost predicate PartWritten(t: Torrent, before: seq<byte>, lo: nat, files: Contents, first: seq<byte>) {
    && Shaped(files, t.lengths) && lo + |first| <= |before|
    && Flat(files) == Splice(before, lo, first)
  }

  /** One more mapping of a piece is written behind those already written. */
  lemma WriteOneMore(t: Torrent, maps: seq<seq<Mapping>>, piece: nat, k: nat, before: seq<byte>, lo: nat, files: Contents,
                     first: seq<byte>, bytes: seq<byte>, more: seq<byte>)
    requires Mapped(t, maps) && PartWritten(t, before, lo, files, first) && piece < |maps| && k < |maps[piece]|
    requires lo == Boundary(t.lengths, t.pieceLength, piece) && lo + |first| + |bytes| <= |before|
    requires |first| == Lengths(maps[piece][..k]) && |bytes| == maps[piece][k].length && more == first + bytes
    ensures Shaped(files, t.lengths) && Fits(t.lengths, maps[piece][k])
    ensures PartWritten(t, before, lo, WriteAt(files, maps[piece][k], bytes), more)
  {
    MappingPlace(t, maps, piece, k);
    FlatWrite(files, t.lengths, maps[piece][k], bytes);
    SpliceNext(before, lo, first, bytes);
  }

  /** The next mapping reads the bytes behind those of the earlier ones. */
  lemma ReadOneMore(t: Torrent, maps: seq<seq<Mapping>>, piece: nat, k: nat, files: Contents, lo: nat)
    requires Mapped(t, maps) && Shaped(files, t.lengths) && piece < |maps| && k < |maps[piece]|
    requires lo == Boundary(t.lengths, t.pieceLength, piece)
    ensures Fits(t.lengths, maps[piece][k]) && Lengths(maps[piece][..k + 1]) <= SizeOf(t, piece)
    ensures lo + Lengths(maps[piece][..k]) <= lo + Lengths(maps[piece][..k + 1]) <= |Flat(files)|
    ensures Flat(files)[lo..lo + Lengths(maps[piece][..k])] + ReadAt(files, maps[piece][k])
         == Flat(files)[lo..lo + Lengths(maps[piece][..k + 1])]
  {
    MappingPlace(t, maps, piece, k);
    FlatLength(files, t.lengths);
    FlatRead(files, t.lengths, maps[piece][k]);
    SliceNext(Flat(files), lo, Lengths(maps[piece][..k]), maps[piece][k].length);
  }

  lemma PrefixNext(s: seq<byte>, n: nat, end: nat)
    requires n <= end <= |s|
    ensures s[..end] == s[..n] + s[n..end]
  {
  }

  lemma SliceNext(s: seq<byte>, lo: nat, n: nat, length: nat)
    requires lo + n + length <= |s|
    ensures s[lo..lo + n] + s[lo + n..][..length] == s[lo..lo + n + length]
  {
  }

  lemma SpliceNext(s: seq<byte>, at: nat, first: seq<byte>, second: seq<byte>)
    requires at + |first| + |second| <= |s|
    ensures Splice(Splice(s, at, first), at + |first|, second) == Splice(s, at, first + second)
  {
  }

  /** A piece written in full reads back as written, and every other piece as before. */
  lemma SpliceReadsBack(t: Torrent, maps: seq<seq<Mapping>>, before: Contents, after: Contents, piece: nat, data: seq<byte>)
    requires Mapped(t, maps) && Shaped(before, t.lengths) && Shaped(after, t.lengths) && piece < |maps|
    requires |data| == SizeOf(t, piece)
    requires Boundary(t.lengths, t.pieceLength, piece) + |data| <= |Flat(before)|
    requires Flat(after) == Splice(Flat(before), Boundary(t.lengths, t.pieceLength, piece), data)
    ensures PieceBytes(t, after, piece) == data
    ensures forall p: nat | p != piece :: PieceBytes(t, after, p) == PieceBytes(t, before, p)
  {
    WholePiece(t, maps, piece);
    FlatLength(before, t.lengths);
    forall p: nat | p != piece ensures PieceBytes(t, after, p) == PieceBytes(t, before, p) {
      var lo := Boundary(t.lengths, t.pieceLength, piece);
      if p < piece {
        BoundaryMonotone(t.lengths, t.pieceLength, p + 1, piece);
      } else {
        BoundaryMonotone(t.lengths, t.pieceLength, piece + 1, p);
      }
      BoundaryMonotone(t.lengths, t.pieceLength, p, p + 1);
      SpliceOutside(Flat(before), lo, data, Boundary(t.lengths, t.pieceLength, p), Boundary(t.lengths, t.pieceLength, p + 1));
    }
  }
}
