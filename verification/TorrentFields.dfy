/** Which dictionaries are torrents, by the names of BEP 3, and that every other one is refused for one reason. */
module TorrentFields {
  import opened Bytes
  import opened Bencode
  import opened Metadata

  /** An entry of the list of files: a length and a path of strings. */
  predicate IsFile(item: Value) {
    && item.Dict?
    && Ascii("length") in item.values && item.values[Ascii("length")].Integer?
    && Ascii("path") in item.values && item.values[Ascii("path")].List?
    && forall part | part in item.values[Ascii("path")].items :: part.Str?
  }

  lemma EntryIff(item: Value, name: seq<byte>)
    ensures FileEntry(item, name).Success? <==> IsFile(item)
    ensures IsFile(item) ==>
      var file := FileEntry(item, name).value;
      && 0 <= file.length < TWO_64 && (item.values[Ascii("length")].n - file.length) % TWO_64 == 0
      && PathOf(name, item.values[Ascii("path")].items) == Some(file.path)
  {
    hide Ascii;
    if item.Dict? && KEY_PATH in item.values && item.values[KEY_PATH].List? {
      var parts := item.values[KEY_PATH].items;
      PathBeginsWithName(name, parts);
      forall part | part in parts ensures exists i :: 0 <= i < |parts| && parts[i] == part {
      }
    }
  }

  /** Exactly the dictionaries that are accepted. */
  lemma IsTorrentIff(dict: map<seq<byte>, Value>)
    ensures IsTorrent(dict) <==>
      && Ascii("announce") in dict && dict[Ascii("announce")].Str?
      && Ascii("info") in dict && dict[Ascii("info")].Dict?
      && var d := dict[Ascii("info")].values;
         && Ascii("name") in d && d[Ascii("name")].Str?
         && Ascii("piece length") in d && d[Ascii("piece length")].Integer?
         && Ascii("pieces") in d && d[Ascii("pieces")].Str? && |d[Ascii("pieces")].s| % 20 == 0
         && ((Ascii("length") in d && d[Ascii("length")].Integer?)
             || (Ascii("files") in d && d[Ascii("files")].List? && forall item | item in d[Ascii("files")].items :: IsFile(item)))
  {
    hide Ascii, FileEntry, IsFile;
    if HasDict(dict, KEY_INFO) && HasString(dict[KEY_INFO].values, KEY_NAME) {
      var d := dict[KEY_INFO].values;
      AllEntriesIff(d, d[KEY_NAME].s);
    }
  }

  lemma AllEntriesIff(d: map<seq<byte>, Value>, name: seq<byte>)
    ensures HasFiles(d, name) <==>
      HasInteger(d, KEY_LENGTH) || (HasList(d, KEY_FILES) && forall item | item in d[KEY_FILES].items :: IsFile(item))
  {
    hide Ascii, FileEntry, IsFile;
    if HasList(d, KEY_FILES) {
      var items := d[KEY_FILES].items;
      forall i | 0 <= i < |items| ensures FileEntry(items[i], name).Success? <==> IsFile(items[i]) {
        EntryIff(items[i], name);
      }
    }
  }

  lemma {:induction false} FirstRejected(items: seq<Value>, name: seq<byte>) returns (i: nat, error: MetadataError)
    requires exists k :: 0 <= k < |items| && FileEntry(items[k], name).Failure?
    ensures i < |items| && IsFirstRejected(items, i, name, error)
  {
    var last := |items| - 1;
    if k :| 0 <= k < last && FileEntry(items[k], name).Failure? {
      assert FileEntry(items[..last][k], name).Failure?;
      i, error := FirstRejected(items[..last], name);
      forall j | 0 <= j < i ensures FileEntry(items[j], name).Success? {
        assert items[..last][j] == items[j];
      }
    } else {
      i, error := last, FileEntry(items[last], name).error;
    }
  }

  lemma OneFileReason(d: map<seq<byte>, Value>, name: seq<byte>)
    ensures HasFiles(d, name) ==> forall e :: !ExplainsFiles(d, name, e)
    ensures !HasFiles(d, name) ==> exists e :: ExplainsFiles(d, name, e)
    ensures forall e, f | ExplainsFiles(d, name, e) && ExplainsFiles(d, name, f) :: e == f
  {
    hide Ascii, FileEntry;
    if !HasFiles(d, name) {
      if HasList(d, KEY_FILES) {
        var i, error := FirstRejected(d[KEY_FILES].items, name);
        assert ExplainsFiles(d, name, error);
      } else {
        assert ExplainsFiles(d, name, MissingLength);
      }
    }
    forall e, f | ExplainsFiles(d, name, e) && ExplainsFiles(d, name, f) ensures e == f {
      if HasList(d, KEY_FILES) {
        var items := d[KEY_FILES].items;
        var i :| 0 <= i < |items| && IsFirstRejected(items, i, name, e);
        var j :| 0 <= j < |items| && IsFirstRejected(items, j, name, f);
        assert i == j;
      }
    }
  }

  /** A dictionary is refused if and only if there is a reason, and there is never more than one. */
  lemma OneReason(dict: map<seq<byte>, Value>)
    ensures IsTorrent(dict) ==> forall e :: !Explains(dict, e)
    ensures !IsTorrent(dict) ==> exists e :: Explains(dict, e)
    ensures forall e, f | Explains(dict, e) && Explains(dict, f) :: e == f
  {
    hide Ascii, HasFiles, ExplainsFiles;
    if HasDict(dict, KEY_INFO) && HasString(dict[KEY_INFO].values, KEY_NAME) {
      var d := dict[KEY_INFO].values;
      OneFileReason(d, d[KEY_NAME].s);
      if !IsTorrent(dict) && HasString(dict, KEY_ANNOUNCE) {
        if !HasInteger(d, KEY_PIECE_LENGTH) {
          assert Explains(dict, MissingPieceLength);
        } else if !HasString(d, KEY_PIECES) {
          assert Explains(dict, MissingPieces);
        } else if |d[KEY_PIECES].s| % 20 != 0 {
          assert Explains(dict, InvalidPiecesLength);
        } else {
          var e :| ExplainsFiles(d, d[KEY_NAME].s, e);
          assert Explains(dict, e);
        }
      }
    } else if HasString(dict, KEY_ANNOUNCE) && HasDict(dict, KEY_INFO) {
      assert Explains(dict, MissingName);
    }
    if HasString(dict, KEY_ANNOUNCE) && !HasDict(dict, KEY_INFO) {
      assert Explains(dict, MissingInfo);
    }
    if !HasString(dict, KEY_ANNOUNCE) {
      assert Explains(dict, MissingAnnounce);
    }
  }
}
