/** The order in which verified pieces go to disk. */
module DiskQueue {
  import opened FileMap
  import opened PieceManager

  /** A verification that finds matching blocks. */
  predicate Verifies(t: Torrent, s: State, e: Event)
    requires |s.active| == |t.hashes|
  {
    e.VerifyPiece? && e.piece < |t.hashes| && IsComplete(s.active[e.piece]) && Matches(t, e.piece, s.active[e.piece])
  }

  /** The disk thread begins to write a piece. */
  predicate Begins(s: State, after: State) { s.progress.Idle? && after.progress.Writing? }

  lemma SameSizes(t: Torrent, maps: seq<seq<Mapping>>, s: State)
    requires WellFormed(t, maps, s)
    ensures |s.active| == |t.hashes| && t.pieceLength > 0 && forall d | d in s.active :: Even(d)
  {
  }

  /** The pieces that were verified, in order. */
  ghost function Verified(t: Torrent, maps: seq<seq<Mapping>>, start: State, events: seq<Event>): seq<nat>
    requires WellFormed(t, maps, start)
  {
    if events == [] then []
    else
      var before, e := Run(t, maps, start, events[..|events| - 1]), events[|events| - 1];
      SameSizes(t, maps, before);
      Verified(t, maps, start, events[..|events| - 1]) + if Verifies(t, before, e) then [e.piece] else []
  }

  /** The pieces whose writes were begun, in order. */
  ghost function Begun(t: Torrent, maps: seq<seq<Mapping>>, start: State, events: seq<Event>): seq<nat>
    requires WellFormed(t, maps, start)
  {
    if events == [] then []
    else
      var before, after := Run(t, maps, start, events[..|events| - 1]), Run(t, maps, start, events);
      Begun(t, maps, start, events[..|events| - 1]) + if Begins(before, after) then [after.progress.request.piece] else []
  }

  function Pieces(requests: seq<WriteRequest>): (r: seq<nat>)
    ensures |r| == |requests|
  {
    seq(|requests|, i requires 0 <= i < |requests| => requests[i].piece)
  }

  /** One event: a verification puts its piece behind the others, and only the first one is ever begun. */
  lemma StepInOrder(t: Torrent, maps: seq<seq<Mapping>>, s: State, e: Event)
    requires WellFormed(t, maps, s)
    ensures |s.active| == |t.hashes|
    ensures var after := Apply(t, maps, s, e);
      Pieces(s.queue) + (if Verifies(t, s, e) then [e.piece] else [])
      == (if Begins(s, after) then [after.progress.request.piece] else []) + Pieces(after.queue)
  {
    hide WrittenUpTo, GoodRequest, Matches, Chunk, Shown;
    SameSizes(t, maps, s);
    match e {
      case RequestBlock(piece, block, blockSize) =>
      case ReceiveBlock(piece, begin, data) =>
      case VerifyPiece(piece) => PiecesOfMore(s.queue, Apply(t, maps, s, e).queue);
      case TakeRequest(beyond) =>
        if s.queue != [] {
          assert Pieces(s.queue) == [s.queue[0].piece] + Pieces(s.queue[1..]);
        }
      case WriteMapping =>
    }
  }

  lemma PiecesOfMore(queue: seq<WriteRequest>, more: seq<WriteRequest>)
    requires more == queue || (|more| == |queue| + 1 && more[..|queue|] == queue)
    ensures Pieces(more) == Pieces(queue) + if |more| > |queue| then [more[|queue|].piece] else []
  {
  }

  /**
   * In every run, the pieces that were verified are those whose writes were begun and then those that are queued: each
   * verification leads to one write, in the order of the verifications, and nothing else is written.
   */
  lemma {:induction false} FirstInFirstOut(t: Torrent, maps: seq<seq<Mapping>>, start: State, events: seq<Event>)
    requires WellFormed(t, maps, start) && start.queue == []
    ensures Verified(t, maps, start, events) == Begun(t, maps, start, events) + Pieces(Run(t, maps, start, events).queue)
  {
    hide Apply, WellFormed, Pieces, Matches, IsComplete;
    if events == [] {
      assert Pieces([]) == [];
    } else {
      var init, e := events[..|events| - 1], events[|events| - 1];
      FirstInFirstOut(t, maps, start, init);
      var before, after := Run(t, maps, start, init), Run(t, maps, start, events);
      StepInOrder(t, maps, before, e);
      Regroup(Verified(t, maps, start, init), if Verifies(t, before, e) then [e.piece] else [], Begun(t, maps, start, init),
              if Begins(before, after) then [after.progress.request.piece] else [], Pieces(before.queue), Pieces(after.queue));
    }
  }

  lemma Regroup(verified: seq<nat>, v: seq<nat>, begun: seq<nat>, b: seq<nat>, queued: seq<nat>, left: seq<nat>)
    requires verified == begun + queued && queued + v == b + left
    ensures verified + v == (begun + b) + left
  {
    assert (begun + queued) + v == begun + (queued + v);
    assert begun + (b + left) == (begun + b) + left;
  }

  // ----- the disk thread alone -----

  lemma {:induction false} RunInParts(t: Torrent, maps: seq<seq<Mapping>>, s: State, first: seq<Event>, more: seq<Event>)
    requires WellFormed(t, maps, s)
    ensures Run(t, maps, s, first + more) == Run(t, maps, Run(t, maps, s, first), more)
  {
    hide Apply, WellFormed;
    if more == [] {
      assert first + more == first;
    } else {
      var all := first + more;
      assert all[..|all| - 1] == first + more[..|more| - 1];
      RunInParts(t, maps, s, first, more[..|more| - 1]);
    }
  }

  lemma FirstStep(t: Torrent, maps: seq<seq<Mapping>>, s: State, e: Event, more: seq<Event>)
    requires WellFormed(t, maps, s)
    ensures WellFormed(t, maps, Apply(t, maps, s, e))
    ensures Run(t, maps, s, [e] + more) == Run(t, maps, Apply(t, maps, s, e), more)
  {
    hide Apply, WellFormed;
    ApplyKeeps(t, maps, s, e);
    RunInParts(t, maps, s, [e], more);
    assert [e][..0] == [];
  }

  /** A running write comes to its end: a turn for each mapping that is left, and one more. */
  lemma {:induction false} WriteEnds(t: Torrent, maps: seq<seq<Mapping>>, s: State) returns (events: seq<Event>)
    requires WellFormed(t, maps, s)
    ensures var r := Run(t, maps, s, events); r.progress == Idle && r.queue == s.queue && r.have == s.have
    ensures if s.progress.Idle? then events == []
            else s.progress.request.piece < |maps| && |events| == |maps[s.progress.request.piece]| - s.progress.mappingsDone + 1
    ensures forall e | e in events :: e == WriteMapping
    decreases if s.progress.Writing? && s.progress.request.piece < |maps|
              then |maps[s.progress.request.piece]| - s.progress.mappingsDone + 1 else 0
  {
    hide WellFormed;
    events := [];
    if s.progress.Writing? {
      OneTurn(t, maps, s);
      FirstStep(t, maps, s, WriteMapping, []);
      var more := WriteEnds(t, maps, Apply(t, maps, s, WriteMapping));
      FirstStep(t, maps, s, WriteMapping, more);
      events := [WriteMapping] + more;
    }
  }

  lemma OneTurn(t: Torrent, maps: seq<seq<Mapping>>, s: State)
    requires WellFormed(t, maps, s) && s.progress.Writing?
    ensures s.progress.request.piece < |maps| && s.progress.mappingsDone <= |maps[s.progress.request.piece]|
    ensures var next := Apply(t, maps, s, WriteMapping);
      && next.queue == s.queue && next.have == s.have
      && if s.progress.mappingsDone == |maps[s.progress.request.piece]| then next.progress == Idle
         else next.progress == Writing(s.progress.request, s.progress.mappingsDone + 1)
  {
    hide GoodRequest, Chunk, MapsAll;
  }

  /** From any state of a run, the disk thread alone brings everything that is queued to disk. */
  lemma {:induction false} DiskDrains(t: Torrent, maps: seq<seq<Mapping>>, s: State) returns (events: seq<Event>)
    requires WellFormed(t, maps, s)
    ensures var r := Run(t, maps, s, events); r.progress == Idle && r.queue == [] && r.have == s.have
    ensures forall e | e in events :: e.WriteMapping? || e.TakeRequest?
    decreases |s.queue|
  {
    hide Apply, WellFormed;
    events := WriteEnds(t, maps, s);
    var idle := Run(t, maps, s, events);
    if idle.queue != [] {
      var take := TakeRequest([]);
      Taken(t, maps, idle);
      FirstStep(t, maps, idle, take, []);
      var more := DiskDrains(t, maps, Apply(t, maps, idle, take));
      FirstStep(t, maps, idle, take, more);
      RunInParts(t, maps, s, events, [take] + more);
      events := events + ([take] + more);
    }
  }

  lemma Taken(t: Torrent, maps: seq<seq<Mapping>>, s: State)
    requires WellFormed(t, maps, s) && s.progress == Idle && s.queue != []
    ensures var r := Apply(t, maps, s, TakeRequest([])); |r.queue| == |s.queue| - 1 && r.have == s.have
  {
  }
}
