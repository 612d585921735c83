/** Torrent metadata read from the bencoded dictionary of a torrent file. */
module Metadata {
  import opened Bytes
  import opened Bencode
  import opened BencodeParser
  import opened FileMap
  import Sha1

  datatype TorrentFile = TorrentFile(path: seq<byte>, length: nat, offset: Option<nat>)

  datatype TorrentMetadata = TorrentMetadata(
    announce: seq<byte>,
    announceList: seq<seq<byte>>,
    infoHash: seq<byte>,
    name: seq<byte>,
    pieceLength: nat,
    pieceHashes: seq<seq<byte>>,
    totalLength: nat,
    files: seq<TorrentFile>)

  datatype MetadataError =
    | MissingAnnounce
    | MissingInfo
    | MissingName
    | MissingPieceLength
    | MissingPieces
    | InvalidPiecesLength
    | MissingLength
    | FileNotDictionary
    | MissingFileLength
    | MissingFilePath
    | InvalidPathComponent

  // The dictionary keys of a torrent file.
  const KEY_LENGTH: seq<byte> := Ascii("length")
  const KEY_PATH: seq<byte> := Ascii("path")
  const KEY_ANNOUNCE: seq<byte> := Ascii("announce")
  const KEY_ANNOUNCE_LIST: seq<byte> := Ascii("announce-list")
  const SLASH: byte := '/' as int
  const KEY_INFO: seq<byte> := Ascii("info")
  const KEY_NAME: seq<byte> := Ascii("name")
  const KEY_PIECE_LENGTH: seq<byte> := Ascii("piece length")
  const KEY_PIECES: seq<byte> := Ascii("pieces")
  const KEY_FILES: seq<byte> := Ascii("files")

  /** `static_cast<size_t>` of a signed 64-bit integer. */
  function Unsigned(n: int): (r: nat)
    ensures r < TWO_64
  {
    n % TWO_64
  }

  predicate HasString(d: map<seq<byte>, Value>, key: seq<byte>) { key in d && d[key].Str? }
  predicate HasInteger(d: map<seq<byte>, Value>, key: seq<byte>) { key in d && d[key].Integer? }
  predicate HasDict(d: map<seq<byte>, Value>, key: seq<byte>) { key in d && d[key].Dict? }
  predicate HasList(d: map<seq<byte>, Value>, key: seq<byte>) { key in d && d[key].List? }

  // ----- paths -----

  predicate IsAbsolute(part: seq<byte>) { part != [] && part[0] == SLASH }

  /** `path::operator/=` on POSIX. */
  function AppendPath(base: seq<byte>, part: seq<byte>): (r: seq<byte>)
    ensures IsAbsolute(part) ==> r == part
    ensures !IsAbsolute(part) ==> base <= r
  {
    if IsAbsolute(part) then part
    else if base == [] || base[|base| - 1] == SLASH then base + part
    else base + [SLASH] + part
  }

  /** The path of the components below the name, if all of them are strings. */
  function PathOf(name: seq<byte>, parts: seq<Value>): Option<seq<byte>> {
    if parts == [] then Some(name)
    else
      var base, last := PathOf(name, parts[..|parts| - 1]), parts[|parts| - 1];
      if base.None? || !last.Str? then None else Some(AppendPath(base.value, last.s))
  }

  /** There is a path exactly if all components are strings; without an absolute one it begins with the name. */
  lemma {:induction false} PathBeginsWithName(name: seq<byte>, parts: seq<Value>)
    ensures PathOf(name, parts).Some? <==> forall i | 0 <= i < |parts| :: parts[i].Str?
    ensures PathOf(name, parts).Some? && (forall i | 0 <= i < |parts| :: parts[i].Str? && !IsAbsolute(parts[i].s)) ==>
      name <= PathOf(name, parts).value
  {
    if parts != [] {
      PathBeginsWithName(name, parts[..|parts| - 1]);
    }
  }

  method JoinPath(name: seq<byte>, parts: seq<Value>) returns (path: Option<seq<byte>>)
    ensures path == PathOf(name, parts)
  {
    var joined := name;
    for i := 0 to |parts|
      invariant PathOf(name, parts[..i]) == Some(joined)
    {
      assert parts[..i + 1][..i] == parts[..i];
      if !parts[i].Str? {
        PathBeginsWithName(name, parts);
        return None;
      }
      joined := AppendPath(joined, parts[i].s);
    }
    assert parts[..|parts|] == parts;
    path := Some(joined);
  }

  // ----- the files of a torrent -----

  /** What one entry of the list "files" says, before it is placed. */
  function FileEntry(item: Value, name: seq<byte>): Result<TorrentFile, MetadataError> {
    if !item.Dict? then Failure(FileNotDictionary)
    else
      var d := item.values;
      if KEY_LENGTH !in d || !d[KEY_LENGTH].Integer? then Failure(MissingFileLength)
      else if KEY_PATH !in d || !d[KEY_PATH].List? then Failure(MissingFilePath)
      else
        match PathOf(name, d[KEY_PATH].items)
        case None => Failure(InvalidPathComponent)
        case Some(path) => Success(TorrentFile(path, Unsigned(d[KEY_LENGTH].n), None))
  }

  function Lengths(files: seq<TorrentFile>): (r: seq<nat>)
    ensures |r| == |files|
  {
    seq(|files|, i requires 0 <= i < |files| => files[i].length)
  }

  /** Every file starts where the ones before it end, modulo 2^64. */
  predicate Consecutive(files: seq<TorrentFile>) {
    forall i | 0 <= i < |files| :: files[i].offset == Some(Start(Lengths(files), i) % TWO_64)
  }

  /** Addition of `size_t` values. */
  function AddSize(a: nat, b: nat): (r: nat) {
    (a + b) % TWO_64
  }

  lemma StartOfPrefix(a: seq<nat>, b: seq<nat>, i: nat)
    requires i <= |a| && a <= b
    ensures Start(a, i) == Start(b, i)
  {
  }

  lemma ConsecutiveSnoc(files: seq<TorrentFile>, file: TorrentFile)
    requires Consecutive(files) && file.offset == Some(Total(Lengths(files)) % TWO_64)
    ensures Consecutive(files + [file])
    ensures Total(Lengths(files + [file])) % TWO_64 == AddSize(Total(Lengths(files)) % TWO_64, file.length)
  {
    var a, b := Lengths(files), Lengths(files + [file]);
    assert a <= b && b[|files|] == file.length;
    forall j | 0 <= j <= |files| ensures Start(a, j) == Start(b, j) {
      StartOfPrefix(a, b, j);
    }
    var more := files + [file];
    forall i | 0 <= i < |more| ensures more[i].offset == Some(Start(b, i) % TWO_64) {
      assert i < |files| ==> more[i] == files[i];
    }
    assert Total(b) == Total(a) + file.length;
    SumModulo(Total(a), file.length);
  }

  predicate IsEntry(file: TorrentFile, item: Value, name: seq<byte>) {
    FileEntry(item, name) == Success(file.(offset := None))
  }

  predicate IsRejected(item: Value, name: seq<byte>, error: MetadataError) {
    FileEntry(item, name) == Failure(error)
  }

  /** The entry is the first one that cannot be read. */
  predicate IsFirstRejected(items: seq<Value>, i: nat, name: seq<byte>, error: MetadataError)
    requires i < |items|
  {
    IsRejected(items[i], name, error) && forall j | 0 <= j < i :: FileEntry(items[j], name).Success?
  }

  method ReadEntry(item: Value, name: seq<byte>, offset: nat) returns (r: Result<TorrentFile, MetadataError>)
    ensures r.Success? ==> IsEntry(r.value, item, name) && r.value.offset == Some(offset)
    ensures r.Failure? ==> IsRejected(item, name, r.error)
  {
    if !item.Dict? {
      return Failure(FileNotDictionary);
    }
    var d := item.values;
    if !HasInteger(d, KEY_LENGTH) {
      return Failure(MissingFileLength);
    }
    if !HasList(d, KEY_PATH) {
      return Failure(MissingFilePath);
    }
    var path := JoinPath(name, d[KEY_PATH].items);
    if path.None? {
      return Failure(InvalidPathComponent);
    }
    r := Success(TorrentFile(path.value, Unsigned(d[KEY_LENGTH].n), Some(offset)));
    assert r.value.(offset := None) == TorrentFile(path.value, Unsigned(d[KEY_LENGTH].n), None);
  }

  /** What is known once the first `n` entries have been read. */
  ghost predicate ReadSoFar(files: seq<TorrentFile>, offset: nat, items: seq<Value>, n: nat, name: seq<byte>)
    requires n <= |items|
  {
    && |files| == n && Consecutive(files) && offset == Total(Lengths(files)) % TWO_64
    && forall j | 0 <= j < n :: IsEntry(files[j], items[j], name)
  }

  lemma ReadOneMore(files: seq<TorrentFile>, offset: nat, items: seq<Value>, n: nat, name: seq<byte>, file: TorrentFile)
    requires n < |items| && ReadSoFar(files, offset, items, n, name)
    requires IsEntry(file, items[n], name) && file.offset == Some(offset)
    ensures ReadSoFar(files + [file], AddSize(offset, file.length), items, n + 1, name)
  {
    ConsecutiveSnoc(files, file);
    var more := files + [file];
    forall j | 0 <= j < n + 1 ensures IsEntry(more[j], items[j], name) {
      assert j < n ==> more[j] == files[j];
    }
  }

  method ParseFiles(items: seq<Value>, name: seq<byte>) returns (r: Result<seq<TorrentFile>, MetadataError>)
    ensures r.Success? ==> |r.value| == |items| && Consecutive(r.value)
    ensures r.Success? ==> forall i | 0 <= i < |items| :: IsEntry(r.value[i], items[i], name)
    ensures r.Failure? ==> exists i | 0 <= i < |items| :: IsFirstRejected(items, i, name, r.error)
  {
    var files: seq<TorrentFile> := [];
    var currentOffset := 0;
    for i := 0 to |items|
      invariant ReadSoFar(files, currentOffset, items, i, name)
    {
      var entry := ReadEntry(items[i], name, currentOffset);
      if entry.Failure? {
        assert IsFirstRejected(items, i, name, entry.error);
        return Failure(entry.error);
      }
      var file := entry.value;
      ReadOneMore(files, currentOffset, items, i, name, file);
      files := files + [file];
      currentOffset := AddSize(currentOffset, file.length);
    }
    r := Success(files);
  }

  lemma SumModulo(a: nat, b: nat)
    ensures (a % TWO_64 + b) % TWO_64 == (a + b) % TWO_64
  {
  }

  // ----- finding a file -----

  /** The file says that it holds the byte at `offset`. */
  predicate Holds(file: TorrentFile, offset: nat) {
    file.offset.Some? && file.offset.value <= offset < AddSize(file.offset.value, file.length)
  }

  /** `get_file_at_offset`: the first file that holds the offset. */
  method GetFileAtOffset(files: seq<TorrentFile>, offset: nat) returns (r: Option<nat>)
    ensures r.Some? ==> r.value < |files| && Holds(files[r.value], offset)
    ensures r.Some? ==> forall i | 0 <= i < r.value :: !Holds(files[i], offset)
    ensures r.None? ==> forall i | 0 <= i < |files| :: !Holds(files[i], offset)
  {
    for i := 0 to |files|
      invariant forall j | 0 <= j < i :: !Holds(files[j], offset)
    {
      if Holds(files[i], offset) {
        return Some(i);
      }
    }
    r := None;
  }

  /** With consecutive files of less than 2^64 bytes in all, the file that holds an offset is the one that contains it. */
  lemma HoldsIsContains(files: seq<TorrentFile>, i: nat, offset: nat)
    requires Consecutive(files) && Total(Lengths(files)) < TWO_64 && i < |files|
    ensures Holds(files[i], offset) <==> Start(Lengths(files), i) <= offset < Start(Lengths(files), i + 1)
  {
    hide Start;
    var lengths := Lengths(files);
    var start, end := Start(lengths, i), Start(lengths, i + 1);
    NextStart(lengths, i);
    StartMonotone(lengths, i + 1, |files|);
    SmallModulo(start);
    SmallModulo(end);
    HoldsFrom(files[i], start, end, offset);
  }

  lemma NextStart(lengths: seq<nat>, i: nat)
    requires i < |lengths|
    ensures Start(lengths, i + 1) == Start(lengths, i) + lengths[i]
  {
  }

  lemma HoldsFrom(file: TorrentFile, start: nat, end: nat, offset: nat)
    requires file.offset == Some(start) && end == start + file.length < TWO_64
    ensures Holds(file, offset) <==> start <= offset < end
  {
    SmallModulo(end);
  }

  lemma SmallModulo(a: nat)
    requires a < TWO_64
    ensures a % TWO_64 == a
  {
  }

  // ----- parse_from_bencode -----

  // ----- announce-list -----

  predicate NoRepetition(urls: seq<seq<byte>>) { forall i, j | 0 <= i < j < |urls| :: urls[i] != urls[j] }

  /** The strings of a tier that are not there yet, added one by one. */
  function WithTier(urls: seq<seq<byte>>, tier: seq<Value>): (r: seq<seq<byte>>)
    ensures urls <= r && (NoRepetition(urls) ==> NoRepetition(r))
    ensures forall u :: u in r <==> u in urls || Str(u) in tier
  {
    if tier == [] then urls
    else
      var before, last := WithTier(urls, tier[..|tier| - 1]), tier[|tier| - 1];
      assert tier == tier[..|tier| - 1] + [last];
      if last.Str? && last.s !in before then before + [last.s] else before
  }

  predicate InSomeTier(u: seq<byte>, tiers: seq<Value>) {
    exists i :: 0 <= i < |tiers| && tiers[i].List? && Str(u) in tiers[i].items
  }

  function WithTiers(urls: seq<seq<byte>>, tiers: seq<Value>): (r: seq<seq<byte>>)
    ensures urls <= r && (NoRepetition(urls) ==> NoRepetition(r))
    ensures forall u :: u in r <==> u in urls || InSomeTier(u, tiers)
  {
    if tiers == [] then urls
    else
      var init, last := tiers[..|tiers| - 1], tiers[|tiers| - 1];
      assert forall u :: InSomeTier(u, tiers) <==> InSomeTier(u, init) || (last.List? && Str(u) in last.items) by {
        assert tiers == init + [last];
      }
      if last.List? then WithTier(WithTiers(urls, init), last.items) else WithTiers(urls, init)
  }

  /** The trackers: that of "announce" first, then those of the tiers, none twice. */
  function AnnounceList(dict: map<seq<byte>, Value>): (r: seq<seq<byte>>)
    requires HasString(dict, KEY_ANNOUNCE)
    ensures r != [] && r[0] == dict[KEY_ANNOUNCE].s && NoRepetition(r)
    ensures forall u :: u in r <==>
      u == dict[KEY_ANNOUNCE].s || (HasList(dict, KEY_ANNOUNCE_LIST) && InSomeTier(u, dict[KEY_ANNOUNCE_LIST].items))
  {
    var first := [dict[KEY_ANNOUNCE].s];
    if HasList(dict, KEY_ANNOUNCE_LIST) then WithTiers(first, dict[KEY_ANNOUNCE_LIST].items) else first
  }

  method ReadAnnounceList(dict: map<seq<byte>, Value>) returns (urls: seq<seq<byte>>)
    requires HasString(dict, KEY_ANNOUNCE)
    ensures urls == AnnounceList(dict)
  {
    urls := [dict[KEY_ANNOUNCE].s];
    if HasList(dict, KEY_ANNOUNCE_LIST) {
      var tiers := dict[KEY_ANNOUNCE_LIST].items;
      ghost var first := urls;
      for i := 0 to |tiers|
        invariant urls == WithTiers(first, tiers[..i])
      {
        assert tiers[..i + 1][..i] == tiers[..i];
        if tiers[i].List? {
          urls := AddTier(urls, tiers[i].items);
        }
      }
      assert tiers[..|tiers|] == tiers;
    }
  }

  method AddTier(urls: seq<seq<byte>>, tier: seq<Value>) returns (r: seq<seq<byte>>)
    ensures r == WithTier(urls, tier)
  {
    r := urls;
    for j := 0 to |tier|
      invariant r == WithTier(urls, tier[..j])
    {
      assert tier[..j + 1][..j] == tier[..j];
      if tier[j].Str? && tier[j].s !in r {
        r := r + [tier[j].s];
      }
    }
    assert tier[..|tier|] == tier;
  }

  /** The info dictionary describes one file, or a list of files. */
  predicate HasFiles(d: map<seq<byte>, Value>, name: seq<byte>) {
    HasInteger(d, KEY_LENGTH)
    || (HasList(d, KEY_FILES) && forall i | 0 <= i < |d[KEY_FILES].items| :: FileEntry(d[KEY_FILES].items[i], name).Success?)
  }

  /** A dictionary from which a torrent can be read. */
  predicate IsTorrent(dict: map<seq<byte>, Value>) {
    && HasString(dict, KEY_ANNOUNCE) && HasDict(dict, KEY_INFO)
    && var d := dict[KEY_INFO].values;
       && HasString(d, KEY_NAME) && HasInteger(d, KEY_PIECE_LENGTH)
       && HasString(d, KEY_PIECES) && |d[KEY_PIECES].s| % 20 == 0
       && HasFiles(d, d[KEY_NAME].s)
  }

  /** The files are those that the info dictionary describes. */
  predicate AreFilesOf(files: seq<TorrentFile>, d: map<seq<byte>, Value>, name: seq<byte>) {
    if HasInteger(d, KEY_LENGTH) then files == [TorrentFile(name, Unsigned(d[KEY_LENGTH].n), Some(0))]
    else
      && HasList(d, KEY_FILES) && |files| == |d[KEY_FILES].items|
      && forall i | 0 <= i < |files| :: IsEntry(files[i], d[KEY_FILES].items[i], name)
  }

  /** The first of the checks, in the order of the program, that the dictionary does not meet. */
  predicate Explains(dict: map<seq<byte>, Value>, error: MetadataError) {
    if !HasString(dict, KEY_ANNOUNCE) then error == MissingAnnounce
    else if !HasDict(dict, KEY_INFO) then error == MissingInfo
    else
      var d := dict[KEY_INFO].values;
      if !HasString(d, KEY_NAME) then error == MissingName
      else if !HasInteger(d, KEY_PIECE_LENGTH) then error == MissingPieceLength
      else if !HasString(d, KEY_PIECES) then error == MissingPieces
      else if |d[KEY_PIECES].s| % 20 != 0 then error == InvalidPiecesLength
      else ExplainsFiles(d, d[KEY_NAME].s, error)
  }

  predicate ExplainsFiles(d: map<seq<byte>, Value>, name: seq<byte>, error: MetadataError) {
    if HasInteger(d, KEY_LENGTH) then false
    else if !HasList(d, KEY_FILES) then error == MissingLength
    else exists i | 0 <= i < |d[KEY_FILES].items| :: IsFirstRejected(d[KEY_FILES].items, i, name, error)
  }

  method ParseFromBencode(dict: map<seq<byte>, Value>) returns (r: Result<TorrentMetadata, MetadataError>)
    ensures r.Success? <==> IsTorrent(dict)
    ensures r.Success? ==>
      var d := dict[KEY_INFO].values;
      && r.value.announce == dict[KEY_ANNOUNCE].s && r.value.announceList == AnnounceList(dict)
      && r.value.name == d[KEY_NAME].s
      && r.value.infoHash == Sha1.Hash(Encode(dict[KEY_INFO]))
      && r.value.pieceLength == Unsigned(d[KEY_PIECE_LENGTH].n)
      && JoinHashes(r.value.pieceHashes) == d[KEY_PIECES].s && (forall h | h in r.value.pieceHashes :: |h| == 20)
      && AreFilesOf(r.value.files, d, r.value.name) && Consecutive(r.value.files)
      && r.value.totalLength == Total(Lengths(r.value.files)) % TWO_64
    ensures r.Failure? ==> Explains(dict, r.error)
  {
    if !HasString(dict, KEY_ANNOUNCE) {
      return Failure(MissingAnnounce);
    }
    var announceList := ReadAnnounceList(dict);
    if KEY_INFO !in dict || !dict[KEY_INFO].Dict? {
      return Failure(MissingInfo);
    }
    var info := dict[KEY_INFO];
    var infoBencoded := WriteValue(info);
    var infoHash := Sha1.HashParts([infoBencoded]);
    Sha1.ConcatSingle(infoBencoded);
    var d := info.values;
    if !HasString(d, KEY_NAME) {
      return Failure(MissingName);
    }
    if !HasInteger(d, KEY_PIECE_LENGTH) {
      return Failure(MissingPieceLength);
    }
    if !HasString(d, KEY_PIECES) {
      return Failure(MissingPieces);
    }
    var hashes: seq<seq<byte>> :- ParsePieces(d[KEY_PIECES].s);
    var name := d[KEY_NAME].s;
    var layout :- ReadFiles(d, name);
    r := Success(TorrentMetadata(dict[KEY_ANNOUNCE].s, announceList, infoHash, name, Unsigned(d[KEY_PIECE_LENGTH].n),
                                 hashes, layout.1, layout.0));
  }

  /** The single file, or the files of the list, with the total length. */
  method ReadFiles(d: map<seq<byte>, Value>, name: seq<byte>) returns (r: Result<(seq<TorrentFile>, nat), MetadataError>)
    ensures r.Success? <==> HasFiles(d, name)
    ensures r.Success? ==> AreFilesOf(r.value.0, d, name)
    ensures r.Failure? ==> ExplainsFiles(d, name, r.error)
    ensures r.Success? ==> Consecutive(r.value.0) && r.value.1 == Total(Lengths(r.value.0)) % TWO_64
  {
    if HasInteger(d, KEY_LENGTH) {
      var length := Unsigned(d[KEY_LENGTH].n);
      assert Total(Lengths([])) == 0;
      SmallModulo(length);
      ConsecutiveSnoc([], TorrentFile(name, length, Some(0)));
      assert [] + [TorrentFile(name, length, Some(0))] == [TorrentFile(name, length, Some(0))];
      return Success(([TorrentFile(name, length, Some(0))], length));
    }
    if KEY_FILES !in d || !d[KEY_FILES].List? {
      return Failure(MissingLength);
    }
    var files :- ParseFiles(d[KEY_FILES].items, name);
    var total := SumLengths(files);
    r := Success((files, total));
  }

  method SumLengths(files: seq<TorrentFile>) returns (total: nat)
    ensures total == Total(Lengths(files)) % TWO_64
  {
    total := 0;
    for i := 0 to |files|
      invariant total == Start(Lengths(files), i) % TWO_64
    {
      SumModulo(Start(Lengths(files), i), files[i].length);
      total := (total + files[i].length) % TWO_64;
    }
  }

  function JoinHashes(hashes: seq<seq<byte>>): seq<byte> {
    if hashes == [] then [] else JoinHashes(hashes[..|hashes| - 1]) + hashes[|hashes| - 1]
  }

  method ParsePieces(data: seq<byte>) returns (r: Result<seq<seq<byte>>, MetadataError>)
    ensures r.Success? <==> |data| % 20 == 0
    ensures r.Success? ==> JoinHashes(r.value) == data && forall h | h in r.value :: |h| == 20
    ensures r.Failure? ==> r.error == InvalidPiecesLength
  {
    if |data| % 20 != 0 {
      return Failure(InvalidPiecesLength);
    }
    var count := |data| / 20;
    var hashes: seq<seq<byte>> := [];
    for i := 0 to count
      invariant forall h | h in hashes :: |h| == 20
      invariant JoinHashes(hashes) == data[..20 * i]
    {
      var hash := data[20 * i..20 * i + 20];
      assert (hashes + [hash])[..|hashes|] == hashes;
      assert data[..20 * (i + 1)] == data[..20 * i] + hash;
      hashes := hashes + [hash];
    }
    assert data[..20 * count] == data;
    r := Success(hashes);
  }
}
