/** Which piece to request next. */
module PieceSelection {
  import opened Bytes
  import opened Sequences
  import opened FileMap
  import opened PieceManager

  /** The number of peers that have piece `i`; bitfields of another length are ignored. */
  function Availability(peers: seq<seq<bool>>, count: nat, i: nat): nat
    requires i < count
  {
    if peers == [] then 0
    else
      var last := peers[|peers| - 1];
      Availability(peers[..|peers| - 1], count, i) + (if |last| == count && last[i] then 1 else 0)
  }

  /** The greatest priority of a file of the piece, 0 without files. */
  function Priority(ms: seq<Mapping>, priorities: seq<nat>): nat
    requires forall m | m in ms :: m.file < |priorities|
  {
    if ms == [] then 0
    else
      var earlier, last := Priority(ms[..|ms| - 1], priorities), priorities[ms[|ms| - 1].file];
      if earlier >= last then earlier else last
  }

  /** The peers with a bitfield of the right length that has piece `i`. */
  function Holders(peers: seq<seq<bool>>, count: nat, i: nat): set<int>
    requires i < count
  {
    set p | 0 <= p < |peers| && |peers[p]| == count && peers[p][i]
  }

  lemma {:induction false} AvailabilityIsHolders(peers: seq<seq<bool>>, count: nat, i: nat)
    requires i < count
    ensures Availability(peers, count, i) == |Holders(peers, count, i)|
  {
    if peers != [] {
      var init, p := peers[..|peers| - 1], |peers| - 1;
      AvailabilityIsHolders(init, count, i);
      assert Holders(peers, count, i) == Holders(init, count, i) + (if |peers[p]| == count && peers[p][i] then {p} else {});
    }
  }

  lemma {:induction false} PriorityIsGreatest(ms: seq<Mapping>, priorities: seq<nat>)
    requires forall m | m in ms :: m.file < |priorities|
    ensures forall m | m in ms :: priorities[m.file] <= Priority(ms, priorities)
    ensures ms == [] ==> Priority(ms, priorities) == 0
    ensures ms != [] ==> exists m | m in ms :: priorities[m.file] == Priority(ms, priorities)
  {
    if ms != [] {
      var init, last := ms[..|ms| - 1], ms[|ms| - 1];
      PriorityIsGreatest(init, priorities);
      assert ms == init + [last] && last in ms;
    }
  }

  predicate FullyRequested(d: Download) { d.requested != [] && AllTrue(d.requested) }

  /** A piece is fully requested if and only if no block of it would be handed out. */
  lemma FullyRequestedIff(t: Torrent, s: State, piece: nat, blockSize: nat)
    requires t.pieceLength > 0 && blockSize > 0 && piece < |s.active| && SizeOf(t, piece) > 0 && Even(s.active[piece])
    ensures !FullyRequested(s.active[piece]) <==> exists block: nat :: Request(t, s, piece, block, blockSize).1
  {
    var d := s.active[piece];
    if d.received == [] {
      MoreThanNone(SizeOf(t, piece), blockSize);
      assert Request(t, s, piece, 0, blockSize).1;
    } else if !FullyRequested(d) {
      var block: nat :| block < |d.requested| && !d.requested[block];
      assert Request(t, s, piece, block, blockSize).1;
    }
  }

  lemma MoreThanNone(size: nat, blockSize: nat)
    requires size > 0 && blockSize > 0
    ensures (size + blockSize - 1) / blockSize > 0
  {
    Between(size + blockSize - 1, blockSize, 1);
  }

  /** A piece that may be requested: not had, wanted, offered by a peer, with a block left to request. */
  predicate Eligible(s: State, peers: seq<seq<bool>>, mask: Option<seq<bool>>, i: nat)
    requires |s.have| == |s.active|
  {
    && i < |s.have| && !s.have[i] && Availability(peers, |s.have|, i) > 0
    && (mask.Some? ==> i < |mask.value| && mask.value[i])
    && !FullyRequested(s.active[i])
  }

  /** Rarer comes first, then the higher priority, then the lower index. */
  predicate Preferred(availabilityA: nat, priorityA: nat, a: nat, availabilityB: nat, priorityB: nat, b: nat) {
    availabilityA < availabilityB
    || (availabilityA == availabilityB && (priorityA > priorityB || (priorityA == priorityB && a <= b)))
  }

  /** Eligible are exactly the pieces that are not had, that some peer has, that the mask allows, and with a block left. */
  lemma EligibleIff(s: State, peers: seq<seq<bool>>, mask: Option<seq<bool>>, i: nat)
    requires |s.have| == |s.active|
    ensures Eligible(s, peers, mask, i) <==>
      && i < |s.have| && !s.have[i] && (exists p :: 0 <= p < |peers| && |peers[p]| == |s.have| && peers[p][i])
      && (mask == None || (i < |mask.value| && mask.value[i]))
      && !(s.active[i].requested != [] && AllTrue(s.active[i].requested))
  {
    if i < |s.have| {
      AvailabilityIsHolders(peers, |s.have|, i);
      if p :| 0 <= p < |peers| && |peers[p]| == |s.have| && peers[p][i] {
        assert p in Holders(peers, |s.have|, i);
      }
      if Holders(peers, |s.have|, i) != {} {
        var p :| p in Holders(peers, |s.have|, i);
      }
    }
  }

  /** A piece that is preferred to all eligible ones is a rarest; among those of the highest priority; and of these the first. */
  lemma PreferredIsRarest(peers: seq<seq<bool>>, maps: seq<seq<Mapping>>, priorities: seq<nat>, a: nat, b: nat)
    requires a < |maps| && b < |maps| && forall i | 0 <= i < |maps| :: forall m | m in maps[i] :: m.file < |priorities|
    requires Preferred(Availability(peers, |maps|, a), Priority(maps[a], priorities), a,
                       Availability(peers, |maps|, b), Priority(maps[b], priorities), b)
    ensures |Holders(peers, |maps|, a)| <= |Holders(peers, |maps|, b)|
    ensures |Holders(peers, |maps|, a)| == |Holders(peers, |maps|, b)| ==> Priority(maps[a], priorities) >= Priority(maps[b], priorities)
    ensures |Holders(peers, |maps|, a)| == |Holders(peers, |maps|, b)| && Priority(maps[a], priorities) == Priority(maps[b], priorities)
      ==> a <= b
  {
    AvailabilityIsHolders(peers, |maps|, a);
    AvailabilityIsHolders(peers, |maps|, b);
  }

  method CountAvailability(peers: seq<seq<bool>>, count: nat) returns (availability: seq<nat>)
    ensures |availability| == count && forall i | 0 <= i < count :: availability[i] == Availability(peers, count, i)
  {
    availability := Repeat(count, 0);
    for p := 0 to |peers|
      invariant |availability| == count
      invariant forall i | 0 <= i < count :: availability[i] == Availability(peers[..p], count, i)
    {
      var bitfield := peers[p];
      assert peers[..p + 1][..p] == peers[..p];
      if |bitfield| == count {
        for i := 0 to count
          invariant |availability| == count
          invariant forall j | 0 <= j < i :: availability[j] == Availability(peers[..p + 1], count, j)
          invariant forall j | i <= j < count :: availability[j] == Availability(peers[..p], count, j)
        {
          if bitfield[i] {
            availability := availability[i := availability[i] + 1];
          }
        }
      }
    }
    assert peers[..|peers|] == peers;
  }

  method PiecePriority(ms: seq<Mapping>, priorities: seq<nat>) returns (priority: nat)
    requires forall m | m in ms :: m.file < |priorities|
    ensures priority == Priority(ms, priorities)
  {
    priority := 0;
    for k := 0 to |ms|
      invariant forall m | m in ms[..k] :: m.file < |priorities|
      invariant priority == Priority(ms[..k], priorities)
    {
      assert ms[..k + 1][..k] == ms[..k];
      if priorities[ms[k].file] > priority {
        priority := priorities[ms[k].file];
      }
    }
    assert ms[..|ms|] == ms;
  }

  method SelectRarestPiece(s: State, maps: seq<seq<Mapping>>, priorities: seq<nat>, peers: seq<seq<bool>>,
                           mask: Option<seq<bool>>)
    returns (best: Option<nat>)
    requires |s.have| == |s.active| == |maps|
    requires forall i | 0 <= i < |maps| :: forall m | m in maps[i] :: m.file < |priorities|
    ensures best.None? ==> forall i | 0 <= i < |maps| :: !Eligible(s, peers, mask, i)
    ensures best.Some? ==> Eligible(s, peers, mask, best.value)
    ensures best.Some? ==> forall i | 0 <= i < |maps| && Eligible(s, peers, mask, i) ::
      Preferred(Availability(peers, |maps|, best.value), Priority(maps[best.value], priorities), best.value,
                Availability(peers, |maps|, i), Priority(maps[i], priorities), i)
  {
    var n := |maps|;
    var availability := CountAvailability(peers, n);
    best := None;
    var minAvailability, maxPriority := 0, 0;
    for i := 0 to n
      invariant best.None? ==> forall j | 0 <= j < i :: !Eligible(s, peers, mask, j)
      invariant best.Some? ==> best.value < i && Eligible(s, peers, mask, best.value)
      invariant best.Some? ==> minAvailability == Availability(peers, n, best.value)
      invariant best.Some? ==> maxPriority == Priority(maps[best.value], priorities)
      invariant best.Some? ==> forall j | 0 <= j < i && Eligible(s, peers, mask, j) ::
        Preferred(minAvailability, maxPriority, best.value, Availability(peers, n, j), Priority(maps[j], priorities), j)
    {
      var eligible := !s.have[i] && availability[i] > 0 && (mask.Some? ==> i < |mask.value| && mask.value[i])
        && !FullyRequested(s.active[i]);
      assert eligible <==> Eligible(s, peers, mask, i);
      if eligible {
        var priority := PiecePriority(maps[i], priorities);
        if best.None? || availability[i] < minAvailability
           || (availability[i] == minAvailability && priority > maxPriority) {
          minAvailability := availability[i];
          maxPriority := priority;
          best := Some(i);
        }
      }
    }
  }
}
