/** The RC4 stream cipher of the encrypted handshake. */
module Rc4 {
  import opened Bytes
  import opened Sequences
  import opened Bits

  /** A permutation of the bytes and the two indices. */
  datatype State = State(s: seq<byte>, i: byte, j: byte)

  function Identity(): (r: seq<byte>)
    ensures |r| == 256
  {
    seq(256, i requires 0 <= i < 256 => i)
  }

  predicate IsPermutation(s: seq<byte>) { |s| == 256 && multiset(s) == multiset(Identity()) }

  function Swap(s: seq<byte>, a: nat, b: nat): (r: seq<byte>)
    requires a < |s| && b < |s|
    ensures |r| == |s|
  {
    s[a := s[b]][b := s[a]]
  }

  lemma SwapPermutes(s: seq<byte>, a: nat, b: nat)
    requires IsPermutation(s) && a < 256 && b < 256
    ensures IsPermutation(Swap(s, a, b))
  {
    assert multiset(Swap(s, a, b)) == multiset(s);
  }

  /** Every byte stands at exactly one place. */
  lemma EachByteOnce(s: seq<byte>, v: byte)
    requires IsPermutation(s)
    ensures exists k :: 0 <= k < 256 && s[k] == v
    ensures forall a, b | 0 <= a < b < 256 :: !(s[a] == v && s[b] == v)
  {
    var all := Identity();
    assert all == all[..v] + [v] + all[v + 1..];
    assert v !in all[..v] && v !in all[v + 1..];
    assert multiset(s)[v] == multiset(all)[v] == 1;
    assert v in multiset(s) && v in s;
    forall a, b | 0 <= a < b < 256 ensures !(s[a] == v && s[b] == v) {
      if s[a] == s[b] {
        CountedTwice(s, a, b);
      }
    }
  }

  /** Addition of 8-bit numbers. */
  function Plus(a: byte, b: byte): byte {
    var sum: nat := a + b;
    sum % 256
  }

  // ----- key scheduling -----

  /** The permutation and the index after `n` turns. */
  function Scheduled(key: seq<byte>, n: nat): (r: (seq<byte>, byte))
    requires key != [] && n <= 256
    ensures IsPermutation(r.0)
  {
    if n == 0 then (Identity(), 0)
    else
      var (s, j) := Scheduled(key, n - 1);
      var j' := Plus(Plus(j, s[n - 1]), key[(n - 1) % |key|]);
      SwapPermutes(s, n - 1, j');
      (Swap(s, n - 1, j'), j')
  }

  lemma ScheduledNext(key: seq<byte>, n: nat)
    requires key != [] && n < 256
    ensures |Scheduled(key, n).0| == 256
    ensures var before := Scheduled(key, n); var k := Plus(Plus(before.1, before.0[n]), key[n % |key|]);
      Scheduled(key, n + 1) == (Swap(before.0, n, k), k)
  {
  }

  function Keyed(key: seq<byte>): Generator
    requires key != []
  {
    State(Scheduled(key, 256).0, 0, 0)
  }

  // ----- key streams of any generator -----

  function Iterate<S>(next: S -> S, st: S, n: nat): S { if n == 0 then st else next(Iterate(next, st, n - 1)) }

  /** The outputs of `n` turns. */
  function Stream<S, T>(next: S -> S, output: S -> T, st: S, n: nat): (r: seq<T>)
    ensures |r| == n
  {
    seq(n, k requires 0 <= k < n => output(Iterate(next, st, k + 1)))
  }

  lemma {:induction false} IterateInParts<S>(next: S -> S, st: S, m: nat, n: nat)
    ensures Iterate(next, Iterate(next, st, m), n) == Iterate(next, st, m + n)
  {
    if n > 0 {
      IterateInParts(next, st, m, n - 1);
    }
  }

  lemma StreamInParts<S, T>(next: S -> S, output: S -> T, st: S, m: nat, n: nat)
    ensures Stream(next, output, st, m + n) == Stream(next, output, st, m) + Stream(next, output, Iterate(next, st, m), n)
  {
    forall k | 0 <= k < n
      ensures Stream(next, output, st, m + n)[m + k] == Stream(next, output, Iterate(next, st, m), n)[k]
    {
      IterateInParts(next, st, m, k + 1);
    }
  }

  function XorAll(data: seq<byte>, stream: seq<byte>): (r: seq<byte>)
    requires |data| == |stream|
    ensures |r| == |data|
  {
    seq(|data|, k requires 0 <= k < |data| => XorByte(data[k], stream[k]))
  }

  lemma XorAllInParts(a: seq<byte>, b: seq<byte>, s: seq<byte>, t: seq<byte>)
    requires |a| == |s| && |b| == |t|
    ensures XorAll(a + b, s + t) == XorAll(a, s) + XorAll(b, t)
  {
  }

  lemma XorAllTwice(data: seq<byte>, stream: seq<byte>)
    requires |data| == |stream|
    ensures XorAll(XorAll(data, stream), stream) == data
  {
    forall k | 0 <= k < |data| ensures XorAll(XorAll(data, stream), stream)[k] == data[k] {
      XorUndo(data[k], stream[k]);
    }
  }

  // ----- the key stream -----

  predicate HasSize(st: State) { |st.s| == 256 }

  type Generator = st: State | HasSize(st) witness State(Identity(), 0, 0)

  function Next(st: Generator): Generator {
    var i := Plus(st.i, 1);
    var j := Plus(st.j, st.s[i]);
    State(Swap(st.s, i, j), i, j)
  }

  function KeyByte(st: Generator): byte { st.s[Plus(st.s[st.i], st.s[st.j])] }

  function Advance(st: Generator, n: nat): Generator { Iterate(Next, st, n) }

  /** Encryption and decryption. */
  function Processed(st: Generator, data: seq<byte>): (r: seq<byte>)
    ensures |r| == |data|
  {
    XorAll(data, Stream(Next, KeyByte, st, |data|))
  }

  lemma {:induction false} AdvancePermutes(st: Generator, n: nat)
    requires IsPermutation(st.s)
    ensures IsPermutation(Advance(st, n).s)
  {
    if n > 0 {
      AdvancePermutes(st, n - 1);
      var before := Advance(st, n - 1);
      var i := Plus(before.i, 1);
      SwapPermutes(before.s, i, Plus(before.j, before.s[i]));
    }
  }

  /** The state is a permutation of 0..255 after the key schedule and after every number of bytes. */
  lemma AlwaysAPermutation(key: seq<byte>, n: nat, v: byte)
    requires key != []
    ensures exists k :: 0 <= k < 256 && Advance(Keyed(key), n).s[k] == v
    ensures forall a, b | 0 <= a < b < 256 :: Advance(Keyed(key), n).s[a] != Advance(Keyed(key), n).s[b]
  {
    var s := Advance(Keyed(key), n).s;
    AdvancePermutes(Keyed(key), n);
    EachByteOnce(s, v);
    forall a, b | 0 <= a < b < 256 ensures s[a] != s[b] {
      EachByteOnce(s, s[a]);
    }
  }

  /** Processing data in two parts is processing it whole. */
  lemma ProcessedInParts(st: Generator, a: seq<byte>, b: seq<byte>)
    ensures Processed(st, a + b) == Processed(st, a) + Processed(Advance(st, |a|), b)
  {
    StreamInParts(Next, KeyByte, st, |a|, |b|);
    XorAllInParts(a, b, Stream(Next, KeyByte, st, |a|), Stream(Next, KeyByte, Advance(st, |a|), |b|));
  }

  function ProcessedChunks(st: Generator, chunks: seq<seq<byte>>): seq<byte>
    decreases |chunks|
  {
    if chunks == [] then [] else Processed(st, chunks[0]) + ProcessedChunks(Advance(st, |chunks[0]|), chunks[1..])
  }

  function Joined(chunks: seq<seq<byte>>): seq<byte> {
    if chunks == [] then [] else chunks[0] + Joined(chunks[1..])
  }

  /** However the data is cut up, the output is the same. */
  lemma {:induction false} AnyChunks(st: Generator, chunks: seq<seq<byte>>)
    ensures ProcessedChunks(st, chunks) == Processed(st, Joined(chunks))
    decreases |chunks|
  {
    if chunks != [] {
      AnyChunks(Advance(st, |chunks[0]|), chunks[1..]);
      ProcessedInParts(st, chunks[0], Joined(chunks[1..]));
    }
  }

  /** Processing twice from the same key gives the data back. */
  lemma TwiceIsIdentity(key: seq<byte>, data: seq<byte>)
    requires key != []
    ensures Processed(Keyed(key), Processed(Keyed(key), data)) == data
  {
    XorAllTwice(data, Stream(Next, KeyByte, Keyed(key), |data|));
  }

  // ----- the object -----

  class RC4 {
    const permutation: array<byte>
    var i: byte
    var j: byte

    ghost function Snapshot(): State
      reads this, permutation
    {
      State(permutation[..], i, j)
    }

    constructor ()
      ensures fresh(permutation) && permutation.Length == 256 && Snapshot() == State(Identity(), 0, 0)
    {
      i, j := 0, 0;
      permutation := new byte[256](k requires 0 <= k < 256 => k);
      new;
      assert permutation[..] == Identity();
    }

    method Init(key: seq<byte>)
      requires key != [] && permutation.Length == 256
      modifies this, permutation
      ensures Snapshot() == Keyed(key)
    {
      hide Plus, IsPermutation;
      for n := 0 to 256
        invariant forall k | 0 <= k < n :: permutation[k] == k
      {
        permutation[n] := n;
      }
      assert permutation[..] == Identity();
      assert Scheduled(key, 0) == (Identity(), 0);
      var k: byte := 0;
      for n := 0 to 256
        invariant (permutation[..], k) == Scheduled(key, n)
      {
        ScheduledNext(key, n);
        k := Plus(Plus(k, permutation[n]), key[n % |key|]);
        permutation[n], permutation[k] := permutation[k], permutation[n];
      }
      i, j := 0, 0;
    }

    /** One turn of the loop of `process`: the next byte of the key stream. */
    method NextKeyByte() returns (keyByte: byte)
      requires permutation.Length == 256
      modifies this, permutation
      ensures Snapshot() == Next(old(Snapshot())) && keyByte == KeyByte(Snapshot())
    {
      i := Plus(i, 1);
      j := Plus(j, permutation[i]);
      permutation[i], permutation[j] := permutation[j], permutation[i];
      keyByte := permutation[Plus(permutation[i], permutation[j])];
    }

    /** Encrypts or decrypts in place. */
    method Process(data: array<byte>)
      requires permutation.Length == 256 && data != permutation
      modifies this, permutation, data
      ensures data[..] == Processed(old(Snapshot()), old(data[..]))
      ensures Snapshot() == Advance(old(Snapshot()), data.Length)
    {
      for k := 0 to data.Length
        invariant Snapshot() == Advance(old(Snapshot()), k)
        invariant data[k..] == old(data[..])[k..]
        invariant data[..k] == Processed(old(Snapshot()), old(data[..]))[..k]
      {
        var keyByte := NextKeyByte();
        data[k] := XorByte(data[k], keyByte);
      }
    }
  }
}
