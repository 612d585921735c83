/** A joined path holds the name and the components it was made of. */
module TorrentPaths {
  import opened Bytes
  import opened Bencode
  import opened Metadata

  /** What stands between the slashes of a path. */
  function Segments(path: seq<byte>): (r: seq<seq<byte>>)
    ensures r != []
  {
    if path == [] then [[]]
    else
      var before, last := Segments(path[..|path| - 1]), path[|path| - 1];
      if last == SLASH then before + [[]] else before[..|before| - 1] + [before[|before| - 1] + [last]]
  }

  lemma SegmentsOfNext(path: seq<byte>, c: byte)
    ensures var s := Segments(path);
      Segments(path + [c]) == if c == SLASH then s + [[]] else s[..|s| - 1] + [s[|s| - 1] + [c]]
  {
    assert (path + [c])[..|path|] == path;
  }

  lemma {:induction false} SegmentsOfLonger(path: seq<byte>, part: seq<byte>)
    requires SLASH !in part
    ensures var s := Segments(path); Segments(path + part) == s[..|s| - 1] + [s[|s| - 1] + part]
  {
    hide Segments;
    var s := Segments(path);
    if part == [] {
      assert path + part == path;
      assert s[|s| - 1] + part == s[|s| - 1];
    } else {
      var init, last := part[..|part| - 1], part[|part| - 1];
      SegmentsOfLonger(path, init);
      SegmentsOfNext(path + init, last);
      assert path + part == (path + init) + [last];
      assert s[|s| - 1] + part == (s[|s| - 1] + init) + [last];
    }
  }

  /** A component below a path that does not end in a slash is one more segment. */
  lemma AppendedIsSegment(path: seq<byte>, part: seq<byte>)
    requires path != [] && path[|path| - 1] != SLASH && SLASH !in part
    ensures Segments(AppendPath(path, part)) == Segments(path) + [part]
  {
    hide Segments;
    SegmentsOfNext(path, SLASH);
    SegmentsOfLonger(path + [SLASH], part);
    assert AppendPath(path, part) == path + [SLASH] + part;
    assert [] + part == part;
  }

  /** A plain name of a file or directory. */
  predicate IsPlain(name: seq<byte>) { name != [] && SLASH !in name }

  function Names(parts: seq<Value>): (r: seq<seq<byte>>)
    requires forall v | v in parts :: v.Str?
    ensures |r| == |parts|
  {
    seq(|parts|, i requires 0 <= i < |parts| => parts[i].s)
  }

  /** The path of plain components has the name and these components as its segments, so no two lists share a path. */
  lemma {:induction false} PathHasItsComponents(name: seq<byte>, parts: seq<Value>)
    requires IsPlain(name) && forall v | v in parts :: v.Str? && IsPlain(v.s)
    ensures PathOf(name, parts).Some?
    ensures var path := PathOf(name, parts).value; path != [] && path[|path| - 1] != SLASH && Segments(path) == [name] + Names(parts)
  {
    hide Segments;
    if parts == [] {
      OnlyName(name);
    } else {
      var init, last := parts[..|parts| - 1], parts[|parts| - 1];
      PathHasItsComponents(name, init);
      AppendedIsSegment(PathOf(name, init).value, last.s);
      assert Names(parts) == Names(init) + [last.s];
    }
  }

  lemma OnlyName(name: seq<byte>)
    requires IsPlain(name)
    ensures name[|name| - 1] != SLASH && Segments(name) == [name]
  {
    SegmentsOfLonger([], name);
    assert [] + name == name;
  }

  /** An absolute component starts over, and a path that ends in a slash takes the component as it is. */
  lemma OtherPaths(path: seq<byte>, part: seq<byte>)
    ensures part != [] && part[0] == SLASH ==> AppendPath(path, part) == part
    ensures !(part != [] && part[0] == SLASH) && (path == [] || path[|path| - 1] == SLASH) ==> AppendPath(path, part) == path + part
  {
  }
}
