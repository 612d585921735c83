/** Where the bytes of a piece are among the files, as the two searches find it and as the mappings say it. */
module FileRange {
  import opened Bytes
  import opened FileMap
  import opened Disk
  import opened PieceManager
  import Metadata

  /** The position of a byte of a piece among all bytes of the torrent, in 64 bits. */
  function GlobalOffset(pieceLength: nat, piece: nat, offset: nat): nat { (piece * pieceLength + offset) % TWO_64 }

  /** The start of a file; 0 if it is not known. */
  function FileStart(file: Metadata.TorrentFile): nat { if file.offset.Some? then file.offset.value else 0 }

  /** The file says that it holds the byte at a position. */
  predicate InRange(file: Metadata.TorrentFile, position: nat) {
    FileStart(file) <= position < Metadata.AddSize(FileStart(file), file.length)
  }

  /** `get_file_range`: the first file that holds a byte of a piece, and the offset of the byte in it. */
  method GetFileRange(files: seq<Metadata.TorrentFile>, pieceLength: nat, piece: nat, offset: nat)
    returns (r: Option<(nat, nat)>)
    ensures var position := GlobalOffset(pieceLength, piece, offset);
      match r
      case None => forall i | 0 <= i < |files| :: !InRange(files[i], position)
      case Some((file, fileOffset)) =>
        && file < |files| && InRange(files[file], position) && FileStart(files[file]) + fileOffset == position
        && forall i | 0 <= i < file :: !InRange(files[i], position)
  {
    var position := GlobalOffset(pieceLength, piece, offset);
    for i := 0 to |files|
      invariant forall j | 0 <= j < i :: !InRange(files[j], position)
    {
      if InRange(files[i], position) {
        return Some((i, position - FileStart(files[i])));
      }
    }
    r := None;
  }

  /** A position is in one file only. */
  lemma OnePlace(lengths: seq<nat>, i: nat, x: nat, m: Mapping, y: nat)
    requires i < |lengths| && x < lengths[i] && Fits(lengths, m) && m.offset <= y < m.offset + m.length
    requires Start(lengths, i) + x == Start(lengths, m.file) + y
    ensures i == m.file && x == y
  {
    if i < m.file {
      StartMonotone(lengths, i + 1, m.file);
    } else if m.file < i {
      StartMonotone(lengths, m.file + 1, i);
    }
  }

  lemma PieceStart(t: Torrent, maps: seq<seq<Mapping>>, piece: nat)
    requires Mapped(t, maps) && piece < |maps|
    ensures Boundary(t.lengths, t.pieceLength, piece) == piece * t.pieceLength
  {
    CountBounds(t.lengths, t.pieceLength, |maps|);
    MulMonotone(piece, |maps| - 1, t.pieceLength);
    MulStep(|maps| - 1, t.pieceLength);
  }

  lemma MappedPosition(t: Torrent, maps: seq<seq<Mapping>>, piece: nat, k: nat, offset: nat, y: nat)
    requires Mapped(t, maps) && piece < |maps| && k < |maps[piece]|
    requires Lengths(maps[piece][..k]) <= offset < Lengths(maps[piece][..k]) + maps[piece][k].length
    requires y == maps[piece][k].offset + offset - Lengths(maps[piece][..k])
    ensures var m := maps[piece][k];
      && Fits(t.lengths, m) && m.offset <= y < m.offset + m.length
      && piece * t.pieceLength + offset == Start(t.lengths, m.file) + y < Total(t.lengths)
  {
    MappingPlace(t, maps, piece, k);
    PieceStart(t, maps, piece);
  }

  lemma HeldByOne(files: seq<Metadata.TorrentFile>, m: Mapping, y: nat, i: nat, position: nat)
    requires Metadata.Consecutive(files) && Total(Metadata.Lengths(files)) < TWO_64 && i < |files|
    requires Fits(Metadata.Lengths(files), m) && m.offset <= y < m.offset + m.length
    requires position == Start(Metadata.Lengths(files), m.file) + y
    ensures Metadata.Holds(files[i], position) <==> i == m.file
  {
    hide Metadata.Holds;
    var lengths := Metadata.Lengths(files);
    Metadata.HoldsIsContains(files, i, position);
    assert Start(lengths, i + 1) == Start(lengths, i) + lengths[i];
    if Metadata.Holds(files[i], position) {
      OnePlace(lengths, i, position - Start(lengths, i), m, y);
    }
  }

  lemma KnownStart(files: seq<Metadata.TorrentFile>, i: nat)
    requires Metadata.Consecutive(files) && Total(Metadata.Lengths(files)) < TWO_64 && i < |files|
    ensures files[i].offset.Some? && FileStart(files[i]) == Start(Metadata.Lengths(files), i)
  {
    StartMonotone(Metadata.Lengths(files), i, |files|);
    Metadata.SmallModulo(Start(Metadata.Lengths(files), i));
  }

  /**
   * The byte of a piece that mapping `k` covers is held by the file of the mapping and by no other, at the offset that
   * the mapping gives. So `get_file_range` and `get_file_at_offset`, which find the first file that holds the byte,
   * agree with the mapping.
   */
  lemma SearchesAgreeWithMapping(t: Torrent, files: seq<Metadata.TorrentFile>, maps: seq<seq<Mapping>>, piece: nat, k: nat,
                                 offset: nat, i: nat)
    requires Metadata.Consecutive(files) && t.lengths == Metadata.Lengths(files) && Total(t.lengths) < TWO_64
    requires Mapped(t, maps) && piece < |maps| && k < |maps[piece]| && i < |files|
    requires Lengths(maps[piece][..k]) <= offset < Lengths(maps[piece][..k]) + maps[piece][k].length
    ensures var m := maps[piece][k]; var position := GlobalOffset(t.pieceLength, piece, offset);
      && m.file < |files|
      && (InRange(files[i], position) <==> i == m.file)
      && (Metadata.Holds(files[i], position) <==> i == m.file)
      && position == FileStart(files[m.file]) + m.offset + (offset - Lengths(maps[piece][..k]))
  {
    hide Metadata.Holds, Mapped, Metadata.Consecutive, InRange, FileStart;
    var m := maps[piece][k];
    var y: nat := m.offset + (offset - Lengths(maps[piece][..k]));
    MappedPosition(t, maps, piece, k, offset, y);
    var position := piece * t.pieceLength + offset;
    Metadata.SmallModulo(position);
    HeldByOne(files, m, y, i, position);
    KnownStart(files, i);
    KnownStart(files, m.file);
    HoldsIsInRange(files[i], position);
  }

  lemma HoldsIsInRange(file: Metadata.TorrentFile, position: nat)
    requires file.offset.Some?
    ensures Metadata.Holds(file, position) <==> InRange(file, position)
  {
  }
}
