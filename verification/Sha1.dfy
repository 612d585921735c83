/** SHA-1: the definition of FIPS 180-4 and the incremental implementation. */
module Sha1 {
  import opened Bytes
  import opened Bits
  import opened Endian

  datatype Registers = Registers(a: word, b: word, c: word, d: word, e: word)

  // ----- FIPS 180-4 -----

  // The rounds of one block, and the words of its schedule.
  const ROUNDS: nat := 80

  // Section 5.3.1.
  const INITIAL := Registers(0x67452301, 0xEFCDAB89, 0x98BADCFE, 0x10325476, 0xC3D2E1F0)

  // Section 3.2: the rotations by 1, 5 and 30; the two shifted parts have no common bit.
  function Rotl1(x: word): word { x * 2 % TWO_32 + x / 0x8000_0000 }
  function Rotl5(x: word): word { x * 0x20 % TWO_32 + x / 0x800_0000 }
  function Rotl30(x: word): word { x * 0x4000_0000 % TWO_32 + x / 4 }

  // Section 4.1.1.
  function Ch(x: word, y: word, z: word): word { XorWord(AndWord(x, y), AndWord(NotWord(x), z)) }
  function Parity(x: word, y: word, z: word): word { XorWord(XorWord(x, y), z) }
  function Maj(x: word, y: word, z: word): word { XorWord(XorWord(AndWord(x, y), AndWord(x, z)), AndWord(y, z)) }

  function Mix(t: nat, x: word, y: word, z: word): word {
    if t < 20 then Ch(x, y, z) else if t < 40 then Parity(x, y, z) else if t < 60 then Maj(x, y, z) else Parity(x, y, z)
  }

  // Section 4.2.1.
  function K(t: nat): word {
    if t < 20 then 0x5A827999 else if t < 40 then 0x6ED9EBA1 else if t < 60 then 0x8F1BBCDC else 0xCA62C1D6
  }

  /** Four bytes as a big-endian word. */
  function Word(b0: byte, b1: byte, b2: byte, b3: byte): word {
    b0 * 0x100_0000 + b1 * 0x1_0000 + b2 * 0x100 + b3
  }

  /** Section 6.1.2, step 1: the first `n` words of the message schedule. */
  function Schedule(block: seq<byte>, n: nat): (w: seq<word>)
    requires |block| == 64
    ensures |w| == n
  {
    if n <= 16 then seq(n, t requires 0 <= t < n => Word(block[4 * t], block[4 * t + 1], block[4 * t + 2], block[4 * t + 3]))
    else
      var w := Schedule(block, n - 1);
      w + [Rotl1(XorWord(XorWord(XorWord(w[n - 4], w[n - 9]), w[n - 15]), w[n - 17]))]
  }

  /** Step 3: round `t` with schedule word `w`. */
  function Round(r: Registers, t: nat, w: word): Registers {
    Registers(NextA(r.a, Mix(t, r.b, r.c, r.d), r.e, K(t), w), r.a, Rotl30(r.b), r.c, r.d)
  }

  function NextA(a: word, f: word, e: word, k: word, w: word): word {
    AddWord(AddWord(AddWord(AddWord(Rotl5(a), f), e), k), w)
  }

  /** The working variables after the rounds of the given schedule words. */
  function Rounds(w: seq<word>, start: Registers): Registers {
    if w == [] then start else Round(Rounds(w[..|w| - 1], start), |w| - 1, w[|w| - 1])
  }

  function Plus(x: Registers, y: Registers): Registers {
    Registers(AddWord(x.a, y.a), AddWord(x.b, y.b), AddWord(x.c, y.c), AddWord(x.d, y.d), AddWord(x.e, y.e))
  }

  /** Steps 2 to 4 for one block. */
  function Compress(h: Registers, block: seq<byte>): Registers
    requires |block| == 64
  {
    Plus(h, Rounds(Schedule(block, ROUNDS), h))
  }

  /** The complete blocks of a message, one after the other. */
  function Absorb(h: Registers, message: seq<byte>): Registers
    decreases |message|
  {
    if |message| < 64 then h else Absorb(Compress(h, message[..64]), message[64..])
  }

  /** The bytes after the complete blocks. */
  function Rest(message: seq<byte>): (r: seq<byte>)
    ensures |r| == |message| % 64
    decreases |message|
  {
    if |message| < 64 then message else Rest(message[64..])
  }

  function Zeros(n: nat): (r: seq<byte>)
    ensures |r| == n
  {
    seq(n, _ => 0)
  }

  /** The number of zero bytes of the padding. */
  function ZeroCount(length: nat): nat { (119 - length % 64) % 64 }

  /** Section 5.1.1 on whole bytes; the length field holds the bit length modulo 2^64. */
  function Pad(message: seq<byte>): (r: seq<byte>)
    ensures |r| % 64 == 0
  {
    PaddedLength(|message|);
    message + [0x80] + Zeros(ZeroCount(|message|)) + BigEndian(8 * |message|, 8)
  }

  lemma PaddedLength(length: nat)
    ensures (length + 1 + ZeroCount(length) + 8) % 64 == 0
  {
    var blocks, rest := length / 64, length % 64;
    var blocksLeft := if rest < 56 then 1 else 2;
    assert rest + 1 + ZeroCount(length) + 8 == 64 * blocksLeft;
    assert length + 1 + ZeroCount(length) + 8 == 64 * (blocks + blocksLeft);
  }

  function WordBytes(x: word): (r: seq<byte>)
    ensures |r| == 4
  {
    [x / 0x100_0000 % 256, x / 0x1_0000 % 256, x / 0x100 % 256, x % 256]
  }

  function Digest(h: Registers): (r: seq<byte>)
    ensures |r| == 20
  {
    WordBytes(h.a) + WordBytes(h.b) + WordBytes(h.c) + WordBytes(h.d) + WordBytes(h.e)
  }

  function Hash(message: seq<byte>): (r: seq<byte>)
    ensures |r| == 20
  {
    Digest(Absorb(INITIAL, Pad(message)))
  }

  /** The length kept modulo 2^64, times eight modulo 2^64, gives the length field. */
  lemma LengthField(size: nat)
    ensures BigEndian((size % TWO_64) * 8 % TWO_64, 8) == BigEndian(8 * size, 8)
  {
    var high, kept := size / TWO_64, size % TWO_64;
    var carry, low := kept * 8 / TWO_64, kept * 8 % TWO_64;
    var q := 8 * high + carry;
    assert Pow256(8) == TWO_64;
    assert 8 * size == low + TWO_64 * q;
    BigEndianWraps(low, q, 8);
  }

  predicate FitsBlock(length: nat, zeroBits: nat) { (8 * length + 1 + zeroBits) % 512 == 448 }

  /** The padding is the one of section 5.1.1: a one bit, the fewest zero bits, the 64-bit length. */
  lemma PaddingIsStandard(message: seq<byte>)
    requires |message| < 0x2000_0000_0000_0000
    ensures FitsBlock(|message|, 8 * ZeroCount(|message|) + 7)
    ensures forall j: nat | j < 8 * ZeroCount(|message|) + 7 :: !FitsBlock(|message|, j)
    ensures var lengthField := Pad(message)[|message| + 1 + ZeroCount(|message|)..];
      && Pad(message) == message + [0x80] + Zeros(ZeroCount(|message|)) + lengthField
      && |lengthField| == 8 && FromBigEndian(lengthField) == 8 * |message|
  {
    FewestZeroBits(|message|);
    var field := BigEndian(8 * |message|, 8);
    assert Pad(message)[|message| + 1 + ZeroCount(|message|)..] == field;
    assert Pow256(8) == TWO_64;
    BigEndianValue(8 * |message|, 8);
  }

  lemma FewestZeroBits(length: nat)
    ensures FitsBlock(length, 8 * ZeroCount(length) + 7)
    ensures forall j: nat | j < 8 * ZeroCount(length) + 7 :: !FitsBlock(length, j)
  {
    var zeros, blocks, rest := ZeroCount(length), length / 64, length % 64;
    Multiple512(blocks, 8 * rest + 1 + 8 * zeros + 7);
    forall j: nat | j < 8 * zeros + 7 ensures !FitsBlock(length, j) {
      Multiple512(blocks, 8 * rest + 1 + j);
    }
  }

  lemma Multiple512(blocks: nat, x: nat)
    ensures (512 * blocks + x) % 512 == x % 512
  {
  }

  /** Up to one block at a time, a longer message changes the registers only when it completes a block. */
  lemma {:induction false} Extends(h: Registers, m: seq<byte>, part: seq<byte>)
    requires |Rest(m)| + |part| <= 64
    ensures |Rest(m)| + |part| < 64 ==> Absorb(h, m + part) == Absorb(h, m) && Rest(m + part) == Rest(m) + part
    ensures |Rest(m)| + |part| == 64 ==>
      Absorb(h, m + part) == Compress(Absorb(h, m), Rest(m) + part) && Rest(m + part) == []
    decreases |m|
  {
    if |m| < 64 {
      if |m + part| == 64 {
        assert (m + part)[..64] == m + part && (m + part)[64..] == [];
      }
    } else {
      assert (m + part)[..64] == m[..64] && (m + part)[64..] == m[64..] + part;
      Extends(Compress(h, m[..64]), m[64..], part);
    }
  }

  // ----- the implementation -----

  /** The OR forms of the program agree with the XOR forms of the standard. */
  lemma ChForm(x: word, y: word, z: word)
    ensures OrWord(AndWord(x, y), AndWord(NotWord(x), z)) == Ch(x, y, z)
  {
    WordPower();
    ChoiceForms(x, y, z, 32);
  }

  lemma MajForm(x: word, y: word, z: word)
    ensures OrWord(OrWord(AndWord(x, y), AndWord(x, z)), AndWord(y, z)) == Maj(x, y, z)
  {
    MajorityForms(x, y, z);
  }

  class Context {
    var h: Registers
    var length: nat  // modulo 2^64
    const buffer: array<byte>
    var index: nat

    ghost var message: seq<byte>  // everything passed to Update since the last reset

    ghost predicate Valid()
      reads this, buffer
    {
      Buffered(message) && length == |message| % TWO_64
    }

    /** The registers hold the complete blocks of `m` and the buffer the bytes after them. */
    ghost predicate Buffered(m: seq<byte>)
      reads this, buffer
    {
      && buffer.Length == 64 && index == |Rest(m)|
      && h == Absorb(INITIAL, m)
      && buffer[..index] == Rest(m)
    }

    constructor ()
      ensures Valid() && fresh(buffer) && message == []
    {
      h, length, index, message := INITIAL, 0, 0, [];
      buffer := new byte[64](_ => 0);
      new;
      assert buffer[..0] == [];
    }

    method Reset()
      requires buffer.Length == 64
      modifies this
      ensures Valid() && message == []
    {
      h, length, index, message := INITIAL, 0, 0, [];
      assert buffer[..0] == [];
    }

    /** The first part of `process_block`: the schedule of the buffered block. */
    method ExpandBlock() returns (w: array<word>)
      requires buffer.Length == 64
      ensures fresh(w) && w.Length == 80 && w[..] == Schedule(buffer[..], ROUNDS)
    {
      w := new word[80];
      for i := 0 to 16
        invariant w[..i] == Schedule(buffer[..], i)
      {
        w[i] := Word(buffer[i * 4], buffer[i * 4 + 1], buffer[i * 4 + 2], buffer[i * 4 + 3]);
        assert w[..i + 1] == w[..i] + [w[i]];
      }
      for i := 16 to 80
        invariant w[..i] == Schedule(buffer[..], i)
      {
        ghost var before := w[..i];
        w[i] := XorWord(XorWord(XorWord(w[i - 3], w[i - 8]), w[i - 14]), w[i - 16]);
        w[i] := Rotl1(w[i]);
        assert w[..i + 1] == before + [w[i]];
      }
      assert w[..80] == w[..];
    }

    method ProcessBlock()
      requires buffer.Length == 64
      modifies this`h
      ensures h == Compress(old(h), buffer[..])
    {
      var w := ExpandBlock();
      ghost var block, words := buffer[..], w[..];
      var a, b, c, d, e := h.a, h.b, h.c, h.d, h.e;
      for i := 0 to 80
        invariant h == old(h) && w[..] == words && Registers(a, b, c, d, e) == Rounds(words[..i], h)
      {
        assert words[..i + 1][..i] == words[..i];
        var f, k := ChooseRound(i, b, c, d);
        ghost var before := Registers(a, b, c, d, e);
        var temp := NextA(a, f, e, k, w[i]);
        e := d;
        d := c;
        c := Rotl30(b);
        b := a;
        a := temp;
        assert Registers(a, b, c, d, e) == Round(before, i, words[i]);
      }
      assert words[..80] == words;
      h := Plus(h, Registers(a, b, c, d, e));
      assert buffer[..] == block;
    }

    /** The branches of the round: the function in its OR form, and the constant. */
    static method ChooseRound(i: nat, b: word, c: word, d: word) returns (f: word, k: word)
      ensures f == Mix(i, b, c, d) && k == K(i)
    {
      if i < 20 {
        f := OrWord(AndWord(b, c), AndWord(NotWord(b), d));
        ChForm(b, c, d);
        k := 0x5A827999;
      } else if i < 40 {
        f := XorWord(XorWord(b, c), d);
        k := 0x6ED9EBA1;
      } else if i < 60 {
        f := OrWord(OrWord(AndWord(b, c), AndWord(b, d)), AndWord(c, d));
        MajForm(b, c, d);
        k := 0x8F1BBCDC;
      } else {
        f := XorWord(XorWord(b, c), d);
        k := 0xCA62C1D6;
      }
    }

    /** `memcpy` into the buffer at the write position. */
    method CopyIn(part: seq<byte>)
      requires buffer.Length == 64 && index + |part| <= 64
      modifies buffer
      ensures buffer[..index + |part|] == old(buffer[..index]) + part
    {
      forall i | 0 <= i < |part| {
        buffer[index + i] := part[i];
      }
    }

    /** `std::fill` with zeros. */
    method FillZeros(from: nat, to: nat)
      requires from <= to <= buffer.Length
      modifies buffer
      ensures buffer[..to] == old(buffer[..from]) + Zeros(to - from)
    {
      forall i | from <= i < to {
        buffer[i] := 0;
      }
    }

    /** One turn of the loop of `update`: at most the free part of the buffer, then a block if it is full. */
    method Append(part: seq<byte>)
      requires Buffered(message) && |part| <= 64 - index
      modifies this`h, this`index, this`message, buffer
      ensures Buffered(message) && message == old(message) + part
    {
      Extends(INITIAL, message, part);
      CopyIn(part);
      message := message + part;
      index := index + |part|;
      if index == 64 {
        assert buffer[..64] == buffer[..];
        ProcessBlock();
        index := 0;
        assert buffer[..0] == [];
      }
    }

    method Update(data: seq<byte>)
      requires Valid()
      modifies this, buffer
      ensures Valid() && message == old(message) + data
    {
      hide Absorb, Rest;
      AddModulo(|message|, |data|);
      length := (length + |data|) % TWO_64;
      var done := 0;
      while done < |data|
        invariant done <= |data| && message == old(message) + data[..done]
        invariant Buffered(message)
        invariant length == (|old(message)| + |data|) % TWO_64
      {
        var toCopy := if |data| - done < 64 - index then |data| - done else 64 - index;
        var part := data[done..done + toCopy];
        assert data[..done + toCopy] == data[..done] + part;
        Assoc(old(message), data[..done], part);
        Append(part);
        done := done + toCopy;
      }
      assert data[..|data|] == data;
    }

    /** The start of `finalize`: what is in the registers and the buffer lacks only the length field. */
    method PadToLengthField()
      requires Buffered(message)
      modifies this`h, this`index, buffer
      ensures forall field | |field| == 8 ::
        Absorb(INITIAL, message + [0x80] + Zeros(ZeroCount(|message|)) + field) == Compress(h, buffer[..56] + field)
    {
      ghost var before, last := h, buffer[..index] + [0x80];
      buffer[index] := 0x80;
      index := index + 1;
      assert buffer[..index] == last;
      if index > 56 {
        FillZeros(index, 64);
        assert buffer[..] == buffer[..64];
        ProcessBlock();
        index := 0;
        assert buffer[..0] == [];
      }
      FillZeros(index, 56);
      ghost var front := buffer[..56];
      assert if |last| > 56 then h == Compress(before, last + Zeros(64 - |last|)) && front == Zeros(56)
             else h == before && front == last + Zeros(56 - |last|);
      forall field: seq<byte> | |field| == 8
        ensures Absorb(INITIAL, message + [0x80] + Zeros(ZeroCount(|message|)) + field) == Compress(h, front + field)
      {
        if |last| > 56 {
          PadTwoBlocks(message, last, field);
        } else {
          PadOneBlock(message, last, field);
        }
      }
    }

    /** Pads, writes the length and returns the digest; the object is then as new. */
    method Finalize() returns (digest: seq<byte>)
      requires Valid()
      modifies this, buffer
      ensures digest == Hash(old(message))
      ensures Valid() && message == []
    {
      PadToLengthField();
      WriteLength((length * 8) % TWO_64);
      LengthField(|message|);
      ProcessBlock();
      digest := Digest(h);
      Reset();
    }

    /** The loop that stores the bit length in the last eight bytes. */
    method WriteLength(bitLength: nat)
      requires buffer.Length == 64
      modifies buffer
      ensures buffer[..] == old(buffer[..56]) + BigEndian(bitLength, 8)
    {
      for i := 0 to 8
        invariant buffer[..56 + i] == old(buffer[..56]) + BigEndian(bitLength, 8)[..i]
      {
        BigEndianAt(bitLength, 8, i);
        buffer[56 + i] := ShiftBytes(bitLength, 7 - i) % 256;
        assert buffer[..56 + i + 1] == buffer[..56 + i] + [buffer[56 + i]];
        assert BigEndian(bitLength, 8)[..i + 1] == BigEndian(bitLength, 8)[..i] + [buffer[56 + i]];
      }
      assert buffer[..64] == buffer[..];
    }
  }

  lemma AddModulo(a: nat, b: nat)
    ensures (a % TWO_64 + b) % TWO_64 == (a + b) % TWO_64
  {
  }

  /** The first padding branch: the length field fits after the last bytes. */
  lemma PadOneBlock(message: seq<byte>, last: seq<byte>, field: seq<byte>)
    requires last == Rest(message) + [0x80] && |last| <= 56 && |field| == 8
    ensures Absorb(INITIAL, message + [0x80] + Zeros(ZeroCount(|message|)) + field)
         == Compress(Absorb(INITIAL, message), last + Zeros(56 - |last|) + field)
  {
    hide Absorb, Compress, Rest;
    ZeroCounts(|message|);
    var zeros := Zeros(ZeroCount(|message|));
    assert zeros == Zeros(56 - |last|);
    var part := [0x80] + zeros + field;
    RegroupFour(message, [0x80], zeros, field);
    assert message + [0x80] + zeros + field == message + part;
    RegroupFour(Rest(message), [0x80], zeros, field);
    assert last + zeros + field == Rest(message) + part;
    assert |Rest(message)| + |part| == 64;
    Extends(INITIAL, message, part);
  }

  /** The second padding branch: the length field needs a block of its own. */
  lemma PadTwoBlocks(message: seq<byte>, last: seq<byte>, field: seq<byte>)
    requires last == Rest(message) + [0x80] && |last| > 56 && |field| == 8
    ensures Absorb(INITIAL, message + [0x80] + Zeros(ZeroCount(|message|)) + field)
         == Compress(Compress(Absorb(INITIAL, message), last + Zeros(64 - |last|)), Zeros(56) + field)
  {
    hide Absorb, Compress, Rest;
    ZeroCounts(|message|);
    var first, second := Zeros(64 - |last|), Zeros(56);
    var fill, tail := [0x80] + first, second + field;
    ZerosSum(|first|, |second|);
    assert Zeros(ZeroCount(|message|)) == first + second;
    RegroupFive(message, [0x80], first, second, field);
    assert message + [0x80] + Zeros(ZeroCount(|message|)) + field == message + fill + tail;
    Assoc(Rest(message), [0x80], first);
    assert last + first == Rest(message) + fill;
    assert |Rest(message)| + |fill| == 64;
    Extends(INITIAL, message, fill);
    assert |Rest(message + fill)| == 0 && |tail| == 64 && [] + tail == tail;
    Extends(INITIAL, message + fill, tail);
  }

  lemma RegroupFour(a: seq<byte>, b: seq<byte>, c: seq<byte>, d: seq<byte>)
    ensures a + b + c + d == a + (b + c + d)
  {
  }

  lemma RegroupFive(a: seq<byte>, b: seq<byte>, c: seq<byte>, d: seq<byte>, e: seq<byte>)
    ensures a + b + (c + d) + e == a + (b + c) + (d + e)
  {
  }

  lemma ZeroCounts(length: nat)
    ensures ZeroCount(length) == if length % 64 < 56 then 55 - length % 64 else 119 - length % 64
  {
  }

  lemma ZerosSum(m: nat, n: nat)
    ensures Zeros(m + n) == Zeros(m) + Zeros(n)
  {
  }

  function Concat(parts: seq<seq<byte>>): seq<byte> {
    if parts == [] then [] else Concat(parts[..|parts| - 1]) + parts[|parts| - 1]
  }

  lemma ConcatSingle(part: seq<byte>)
    ensures Concat([part]) == part
  {
    var none: seq<seq<byte>> := [part][..0];
    assert none == [];
  }

  /** Hashing a message in any parts gives the hash of the whole. */
  method HashParts(parts: seq<seq<byte>>) returns (digest: seq<byte>)
    ensures digest == Hash(Concat(parts))
  {
    var sha1 := new Context();
    for i := 0 to |parts|
      invariant sha1.Valid() && fresh(sha1) && fresh(sha1.buffer) && sha1.message == Concat(parts[..i])
    {
      sha1.Update(parts[i]);
      assert parts[..i + 1][..i] == parts[..i];
    }
    assert parts[..|parts|] == parts;
    digest := sha1.Finalize();
  }
}
