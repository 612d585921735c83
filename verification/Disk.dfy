/** The files of a torrent on disk, written and read piece by piece. */
module Disk {
  import opened Bytes
  import opened FileMap

  /** The contents of every file, which the program creates with its full length. */
  type Contents = seq<seq<byte>>

  predicate Shaped(files: Contents, lengths: seq<nat>) {
    |files| == |lengths| && forall i | 0 <= i < |files| :: |files[i]| == lengths[i]
  }

  /** The flat byte sequence of the torrent. */
  function Flat(files: Contents): seq<byte> {
    if files == [] then [] else Flat(files[..|files| - 1]) + files[|files| - 1]
  }

  lemma {:induction false} FlatLength(files: Contents, lengths: seq<nat>)
    requires Shaped(files, lengths)
    ensures |Flat(files)| == Total(lengths)
  {
    if files != [] {
      var init := lengths[..|lengths| - 1];
      FlatLength(files[..|files| - 1], init);
      StartOfInit(lengths, |init|);
    }
  }

  lemma StartOfInit(lengths: seq<nat>, i: nat)
    requires i < |lengths|
    ensures Start(lengths[..|lengths| - 1], i) == Start(lengths, i)
  {
    if i > 0 {
      StartOfInit(lengths, i - 1);
    }
  }

  /** File `i` is found in the flat sequence at its start. */
  lemma {:induction false} FlatFile(files: Contents, lengths: seq<nat>, i: nat)
    requires Shaped(files, lengths) && i < |files|
    ensures Start(lengths, i) + lengths[i] <= |Flat(files)|
    ensures Flat(files)[Start(lengths, i)..Start(lengths, i) + lengths[i]] == files[i]
  {
    var init := lengths[..|lengths| - 1];
    FlatLength(files[..|files| - 1], init);
    StartOfInit(lengths, i);
    if i < |files| - 1 {
      FlatFile(files[..|files| - 1], init, i);
    }
  }

  /** `data` in place of the bytes from `at` on. */
  function Splice(s: seq<byte>, at: nat, data: seq<byte>): (r: seq<byte>)
    requires at + |data| <= |s|
    ensures |r| == |s|
  {
    s[..at] + data + s[at + |data|..]
  }

  function WriteAt(files: Contents, m: Mapping, data: seq<byte>): (r: Contents)
    requires m.file < |files| && m.offset + |data| <= |files[m.file]|
  {
    files[m.file := Splice(files[m.file], m.offset, data)]
  }

  /** A write to one file is a splice of the flat sequence. */
  lemma {:induction false} FlatWrite(files: Contents, lengths: seq<nat>, m: Mapping, data: seq<byte>)
    requires Shaped(files, lengths) && Fits(lengths, m) && |data| == m.length
    ensures Shaped(WriteAt(files, m, data), lengths)
    ensures Start(lengths, m.file) + m.offset + m.length <= |Flat(files)|
    ensures Flat(WriteAt(files, m, data)) == Splice(Flat(files), Start(lengths, m.file) + m.offset, data)
  {
    hide Splice;
    var init, last := files[..|files| - 1], |files| - 1;
    var written := WriteAt(files, m, data);
    FlatLength(init, lengths[..last]);
    StartOfInit(lengths, m.file);
    if m.file < last {
      FlatWrite(init, lengths[..last], m, data);
      assert written[..last] == WriteAt(init, m, data);
      SpliceLeft(Flat(init), files[last], Start(lengths, m.file) + m.offset, data);
    } else {
      assert written[..last] == init;
      SpliceRight(Flat(init), files[last], m.offset, data);
    }
  }

  lemma SpliceLeft(x: seq<byte>, y: seq<byte>, at: nat, data: seq<byte>)
    requires at + |data| <= |x|
    ensures Splice(x, at, data) + y == Splice(x + y, at, data)
  {
  }

  lemma SpliceRight(x: seq<byte>, y: seq<byte>, at: nat, data: seq<byte>)
    requires at + |data| <= |y|
    ensures x + Splice(y, at, data) == Splice(x + y, |x| + at, data)
  {
  }

  /** The bytes of one mapping. */
  function ReadAt(files: Contents, m: Mapping): seq<byte>
    requires m.file < |files| && m.offset + m.length <= |files[m.file]|
  {
    files[m.file][m.offset..m.offset + m.length]
  }

  lemma FlatRead(files: Contents, lengths: seq<nat>, m: Mapping)
    requires Shaped(files, lengths) && Fits(lengths, m)
    ensures Start(lengths, m.file) + m.offset + m.length <= |Flat(files)|
    ensures ReadAt(files, m) == Flat(files)[Start(lengths, m.file) + m.offset..][..m.length]
  {
    FlatFile(files, lengths, m.file);
    var start := Start(lengths, m.file);
    SliceOfSlice(Flat(files), start, lengths[m.file], m.offset, m.length);
  }

  lemma SliceOfSlice(s: seq<byte>, start: nat, size: nat, offset: nat, length: nat)
    requires start + size <= |s| && offset + length <= size
    ensures s[start..start + size][offset..offset + length] == s[start + offset..][..length]
  {
    var left, right := s[start..start + size][offset..offset + length], s[start + offset..][..length];
    forall i | 0 <= i < length ensures left[i] == right[i] {
      assert left[i] == s[start..start + size][offset + i];
    }
  }

  // ----- the mappings of a piece, from the first on -----

  function Lengths(ms: seq<Mapping>): nat {
    if ms == [] then 0 else Lengths(ms[..|ms| - 1]) + ms[|ms| - 1].length
  }

  lemma {:induction false} PositionsLength(lengths: seq<nat>, ms: seq<Mapping>)
    requires AllFit(lengths, ms)
    ensures |Positions(lengths, ms)| == Lengths(ms)
  {
    if ms != [] {
      PositionsLength(lengths, ms[..|ms| - 1]);
    }
  }

  lemma RangePrefix(a: seq<nat>, b: seq<nat>, lo: nat, hi: nat)
    requires lo <= hi && a + b == Range(lo, hi)
    ensures a == Range(lo, hi - |b|)
  {
    forall i | 0 <= i < |a| ensures a[i] == lo + i {
      assert (a + b)[i] == a[i];
    }
  }

  /** In a piece that starts at `lo`, mapping `k` starts where the earlier ones end. */
  lemma {:induction false} MappingStart(lengths: seq<nat>, ms: seq<Mapping>, lo: nat, hi: nat, k: nat)
    requires AllFit(lengths, ms) && lo <= hi && Positions(lengths, ms) == Range(lo, hi) && k < |ms|
    ensures Start(lengths, ms[k].file) + ms[k].offset == lo + Lengths(ms[..k])
    ensures Lengths(ms[..k + 1]) == Lengths(ms[..k]) + ms[k].length
    ensures lo + Lengths(ms[..k + 1]) <= hi
    decreases |ms|
  {
    var last := |ms| - 1;
    var m, init := ms[last], Positions(lengths, ms[..last]);
    var start := Start(lengths, m.file) + m.offset;
    assert Range(lo, hi) == init + Range(start, start + m.length);
    PositionsLength(lengths, ms[..last]);
    assert Range(lo, hi)[|init|] == start;
    assert ms[..k + 1][..k] == ms[..k];
    if k == last {
      assert ms[..k + 1] == ms;
    } else {
      RangePrefix(init, Range(start, start + m.length), lo, hi);
      MappingStart(lengths, ms[..last], lo, hi - m.length, k);
      assert ms[..last][..k] == ms[..k] && ms[..last][..k + 1] == ms[..k + 1];
    }
  }
}
