/** The files of a torrent as one byte sequence, cut into pieces. */
module FileMap {
  import opened Bytes

  /** Part of a file: where a run of bytes of a piece lives. */
  datatype Mapping = Mapping(file: nat, offset: nat, length: nat)

  // ----- positions in the concatenation of the files -----

  /** The position at which file `i` starts. */
  function Start(lengths: seq<nat>, i: nat): nat
    requires i <= |lengths|
  {
    if i == 0 then 0 else Start(lengths, i - 1) + lengths[i - 1]
  }

  function Total(lengths: seq<nat>): nat { Start(lengths, |lengths|) }

  lemma StartMonotone(lengths: seq<nat>, i: nat, j: nat)
    requires i <= j <= |lengths|
    ensures Start(lengths, i) <= Start(lengths, j)
  {
    if i < j {
      StartMonotone(lengths, i, j - 1);
    }
  }

  /** The positions from `lo` up to, but not including, `hi`. */
  function Range(lo: nat, hi: nat): (r: seq<nat>)
    requires lo <= hi
    ensures |r| == hi - lo && forall i | 0 <= i < |r| :: r[i] == lo + i
  {
    seq(hi - lo, i => lo + i)
  }

  predicate Fits(lengths: seq<nat>, m: Mapping) {
    m.file < |lengths| && m.length > 0 && m.offset + m.length <= lengths[m.file]
  }

  predicate AllFit(lengths: seq<nat>, ms: seq<Mapping>) { forall i | 0 <= i < |ms| :: Fits(lengths, ms[i]) }

  /** The positions that mappings cover, in their order. */
  function Positions(lengths: seq<nat>, ms: seq<Mapping>): seq<nat>
    requires AllFit(lengths, ms)
  {
    if ms == [] then []
    else
      var m := ms[|ms| - 1];
      var start := Start(lengths, m.file) + m.offset;
      Positions(lengths, ms[..|ms| - 1]) + Range(start, start + m.length)
  }

  function Min(a: nat, b: nat): nat { if a <= b then a else b }

  /** Piece `p` covers the positions from `Boundary(p)` to `Boundary(p + 1)`. */
  function Boundary(lengths: seq<nat>, pieceLength: nat, p: nat): nat { Min(p * pieceLength, Total(lengths)) }

  lemma BoundaryMonotone(lengths: seq<nat>, pieceLength: nat, p: nat, q: nat)
    requires p <= q
    ensures Boundary(lengths, pieceLength, p) <= Boundary(lengths, pieceLength, q)
  {
    MulMonotone(p, q, pieceLength);
  }

  /** The mappings of piece `p` list exactly its positions, in order. */
  predicate MapsPiece(lengths: seq<nat>, pieceLength: nat, p: nat, ms: seq<Mapping>) {
    BoundaryMonotone(lengths, pieceLength, p, p + 1);
    AllFit(lengths, ms)
    && Positions(lengths, ms) == Range(Boundary(lengths, pieceLength, p), Boundary(lengths, pieceLength, p + 1))
  }

  predicate MapsAll(lengths: seq<nat>, pieceLength: nat, maps: seq<seq<Mapping>>) {
    forall p | 0 <= p < |maps| :: MapsPiece(lengths, pieceLength, p, maps[p])
  }

  lemma PositionsSnoc(lengths: seq<nat>, ms: seq<Mapping>, m: Mapping)
    requires AllFit(lengths, ms) && Fits(lengths, m)
    ensures AllFit(lengths, ms + [m])
    ensures var start := Start(lengths, m.file) + m.offset;
      Positions(lengths, ms + [m]) == Positions(lengths, ms) + Range(start, start + m.length)
  {
    assert (ms + [m])[..|ms|] == ms;
  }

  lemma RangeJoin(lo: nat, mid: nat, hi: nat)
    requires lo <= mid <= hi
    ensures Range(lo, mid) + Range(mid, hi) == Range(lo, hi)
  {
  }

  // ----- calculate_file_mappings -----

  /** What the loops keep: pieces before `current` are mapped, `current` up to `mapped`, later ones not at all. */
  ghost predicate MappedUpTo(lengths: seq<nat>, pieceLength: nat, maps: seq<seq<Mapping>>, current: nat, pieceOffset: nat) {
    && current <= |maps|
    && (pieceOffset < pieceLength || pieceOffset == 0)
    && (current == |maps| ==> pieceOffset == 0)
    && current * pieceLength + pieceOffset <= Total(lengths)
    && (forall p | 0 <= p < |maps| :: AllFit(lengths, maps[p]))
    && (forall p | 0 <= p < current :: Positions(lengths, maps[p]) == FullPiece(pieceLength, p))
    && (current < |maps| ==>
          Positions(lengths, maps[current]) == Range(current * pieceLength, current * pieceLength + pieceOffset))
    && (forall p | current < p < |maps| :: maps[p] == [])
  }

  function FullPiece(pieceLength: nat, p: nat): seq<nat> {
    Range(p * pieceLength, p * pieceLength + pieceLength)
  }

  lemma MappedAll(lengths: seq<nat>, pieceLength: nat, maps: seq<seq<Mapping>>, current: nat, pieceOffset: nat)
    requires pieceLength > 0 && MappedUpTo(lengths, pieceLength, maps, current, pieceOffset)
    requires current < |maps| ==> current * pieceLength + pieceOffset == Total(lengths)
    ensures MapsAll(lengths, pieceLength, maps)
  {
    forall p | 0 <= p < |maps| ensures MapsPiece(lengths, pieceLength, p, maps[p]) {
      MulStep(p, pieceLength);
      MulStep(current, pieceLength);
      if p < current {
        MulMonotone(p + 1, current, pieceLength);
      } else if p > current {
        MulMonotone(current + 1, p, pieceLength);
      }
    }
  }

  /** One mapping more for the current piece, which is then left if it is full. */
  lemma MapOneMore(lengths: seq<nat>, pieceLength: nat, maps: seq<seq<Mapping>>, current: nat, pieceOffset: nat, m: Mapping)
    requires pieceLength > 0 && MappedUpTo(lengths, pieceLength, maps, current, pieceOffset) && current < |maps|
    requires Fits(lengths, m) && pieceOffset + m.length <= pieceLength
    requires Start(lengths, m.file) + m.offset == current * pieceLength + pieceOffset
    ensures var more := maps[current := maps[current] + [m]];
      if pieceOffset + m.length == pieceLength
      then MappedUpTo(lengths, pieceLength, more, current + 1, 0)
      else MappedUpTo(lengths, pieceLength, more, current, pieceOffset + m.length)
  {
    var base := current * pieceLength;
    MulStep(current, pieceLength);
    PositionsSnoc(lengths, maps[current], m);
    RangeJoin(base, base + pieceOffset, base + pieceOffset + m.length);
    StartMonotone(lengths, m.file + 1, |lengths|);
    assert Range(base + pieceLength, base + pieceLength + 0) == [];
    assert Positions(lengths, []) == [];
  }

  method CalculateFileMappings(lengths: seq<nat>, pieceLength: nat, pieceCount: nat) returns (maps: seq<seq<Mapping>>)
    ensures |maps| == pieceCount
    ensures pieceLength > 0 ==> MapsAll(lengths, pieceLength, maps)
  {
    maps := seq(pieceCount, _ => []);
    var currentPiece: nat, pieceOffset: nat := 0, 0;
    for file := 0 to |lengths|
      invariant |maps| == pieceCount && currentPiece <= pieceCount
      invariant pieceOffset < pieceLength || pieceOffset == 0
      invariant pieceLength > 0 ==> MappedUpTo(lengths, pieceLength, maps, currentPiece, pieceOffset)
      invariant currentPiece < pieceCount ==> pieceLength > 0 ==>
        currentPiece * pieceLength + pieceOffset == Start(lengths, file)
    {
      var fileRemaining: nat := lengths[file];
      while fileRemaining > 0 && currentPiece < pieceCount
        invariant fileRemaining <= lengths[file] && |maps| == pieceCount && currentPiece <= pieceCount
        invariant pieceOffset < pieceLength || pieceOffset == 0
        invariant pieceLength > 0 ==> MappedUpTo(lengths, pieceLength, maps, currentPiece, pieceOffset)
        invariant currentPiece < pieceCount ==> pieceLength > 0 ==>
          currentPiece * pieceLength + pieceOffset == Start(lengths, file) + (lengths[file] - fileRemaining)
        decreases pieceCount - currentPiece, fileRemaining
      {
        var pieceRemaining := pieceLength - pieceOffset;
        var bytesInThisPiece := Min(fileRemaining, pieceRemaining);
        var mapping := Mapping(file, lengths[file] - fileRemaining, bytesInThisPiece);
        if pieceLength > 0 {
          MapOneMore(lengths, pieceLength, maps, currentPiece, pieceOffset, mapping);
          MulStep(currentPiece, pieceLength);
        }
        maps := maps[currentPiece := maps[currentPiece] + [mapping]];
        fileRemaining := fileRemaining - bytesInThisPiece;
        pieceOffset := pieceOffset + bytesInThisPiece;
        if pieceOffset >= pieceLength {
          currentPiece := currentPiece + 1;
          pieceOffset := 0;
        }
      }
    }
    if pieceLength > 0 {
      MappedAll(lengths, pieceLength, maps, currentPiece, pieceOffset);
    }
  }

  // ----- the size of a piece -----

  /** `pieceCount` pieces cover the files, and one fewer do not. */
  predicate CountFits(lengths: seq<nat>, pieceLength: nat, pieceCount: nat) {
    pieceLength > 0 && pieceCount == (Total(lengths) + pieceLength - 1) / pieceLength
  }

  /** The size the program computes for a piece. */
  function PieceSize(lengths: seq<nat>, pieceLength: nat, pieceCount: nat, p: nat): nat
    requires pieceLength > 0
  {
    var size := if p == pieceCount - 1 then Total(lengths) % pieceLength else pieceLength;
    if size == 0 then pieceLength else size
  }

  lemma CountBounds(lengths: seq<nat>, pieceLength: nat, pieceCount: nat)
    requires CountFits(lengths, pieceLength, pieceCount)
    ensures Total(lengths) <= pieceCount * pieceLength < Total(lengths) + pieceLength
  {
    var x := Total(lengths) + pieceLength - 1;
    assert x == pieceLength * (x / pieceLength) + x % pieceLength;
    assert pieceCount * pieceLength == pieceLength * (x / pieceLength);
  }

  lemma Remainder(total: nat, d: nat, q: nat)
    requires d > 0 && q * d < total <= q * d + d
    ensures total % d == (if total == q * d + d then 0 else total - q * d)
  {
    MulStep(q, d);
    if total == q * d + d {
      Quotient(q + 1, d, 0);
    } else {
      Quotient(q, d, total - q * d);
    }
  }

  /** The computed sizes are the lengths of the mapped pieces. */
  lemma SizeOfPiece(lengths: seq<nat>, pieceLength: nat, maps: seq<seq<Mapping>>, p: nat)
    requires CountFits(lengths, pieceLength, |maps|) && MapsAll(lengths, pieceLength, maps) && p < |maps|
    ensures |Positions(lengths, maps[p])| == PieceSize(lengths, pieceLength, |maps|, p) > 0
    ensures Boundary(lengths, pieceLength, p + 1) - Boundary(lengths, pieceLength, p)
         == PieceSize(lengths, pieceLength, |maps|, p)
  {
    var n := |maps|;
    CountBounds(lengths, pieceLength, n);
    MulStep(p, pieceLength);
    if p == n - 1 {
      Remainder(Total(lengths), pieceLength, p);
    } else {
      MulMonotone(p + 1, n - 1, pieceLength);
      MulStep(n - 1, pieceLength);
    }
    assert MapsPiece(lengths, pieceLength, p, maps[p]);
  }

  /** Every byte of the torrent is mapped by one piece only: that of its position. */
  lemma CoveredOnce(lengths: seq<nat>, pieceLength: nat, maps: seq<seq<Mapping>>, position: nat, p: nat)
    requires CountFits(lengths, pieceLength, |maps|) && MapsAll(lengths, pieceLength, maps) && p < |maps|
    requires position < Total(lengths)
    ensures position / pieceLength < |maps|
    ensures position in Positions(lengths, maps[p]) <==> p == position / pieceLength
  {
    var q, n := position / pieceLength, |maps|;
    var lo, hi := Boundary(lengths, pieceLength, p), Boundary(lengths, pieceLength, p + 1);
    CountBounds(lengths, pieceLength, n);
    Between(position, pieceLength, n);
    Between(position, pieceLength, p);
    Between(position, pieceLength, p + 1);
    assert MapsPiece(lengths, pieceLength, p, maps[p]);
    InRange(lo, hi, position);
  }

  lemma Between(x: nat, d: nat, p: nat)
    requires d > 0
    ensures x / d < p <==> x < p * d
  {
    var q := x / d;
    assert x == d * q + x % d;
    MulStep(q, d);
    if q < p {
      MulMonotone(q + 1, p, d);
    } else {
      MulMonotone(p, q, d);
    }
  }

  lemma InRange(lo: nat, hi: nat, x: nat)
    requires lo <= hi
    ensures x in Range(lo, hi) <==> lo <= x < hi
  {
    if lo <= x < hi {
      assert Range(lo, hi)[x - lo] == x;
    }
  }
}
