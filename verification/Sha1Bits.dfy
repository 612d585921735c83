/** The parts of SHA-1 bit by bit, its constants, and the rounds backwards. */
module Sha1Bits {
  import opened Bytes
  import opened Bits
  import opened Endian
  import opened Sha1

  /** Bit `i` of a number, from the lowest. */
  function Bit(x: nat, i: nat): nat { if i == 0 then x % 2 else Bit(x / 2, i - 1) }

  // ----- rotations -----

  /** Two numbers, one above the `n` bits of the other. */
  function Above(high: nat, low: nat, n: nat): nat { high * Power2(n) + low }

  lemma {:induction false} BitsOfBoth(high: nat, low: nat, n: nat, i: nat)
    requires low < Power2(n)
    ensures Bit(Above(high, low, n), i) == if i < n then Bit(low, i) else Bit(high, i - n)
  {
    if n > 0 {
      var x, half := Above(high, low, n), high * Power2(n - 1);
      Doubled(high, n);
      assert x % 2 == low % 2 && x / 2 == half + low / 2;
      if i > 0 {
        BitsOfBoth(high, low / 2, n - 1, i - 1);
      }
    }
  }

  lemma Doubled(x: nat, n: nat)
    requires n > 0
    ensures x * Power2(n) == 2 * (x * Power2(n - 1))
  {
    assert Power2(n) == 2 * Power2(n - 1);
  }

  /** When the upper part of a word goes below the lower one, all bits move by `k`, and around. */
  lemma ExchangedBits(high: nat, low: nat, k: nat, i: nat)
    requires k <= 32 && low < Power2(32 - k) && high < Power2(k) && i < 32
    ensures Bit(Above(low, high, k), (i + k) % 32) == Bit(Above(high, low, 32 - k), i)
  {
    hide Bit, Power2, Above;
    var j := if i + k < 32 then i + k else i + k - 32;
    assert (i + k) % 32 == j;
    BitsOfBoth(low, high, k, j);
    BitsOfBoth(high, low, 32 - k, i);
  }

  lemma Powers()
    ensures Power2(1) == 2 && Power2(2) == 4 && Power2(5) == 0x20
    ensures Power2(27) == 0x800_0000 && Power2(30) == 0x4000_0000 && Power2(31) == 0x8000_0000
  {
    assert Power2(10) == 0x400;
    assert Power2(20) == 0x10_0000;
  }

  lemma Exchanged1(x: word) returns (high: nat, low: nat)
    ensures high < Power2(1) && low < Power2(31) && x == Above(high, low, 31) && Rotl1(x) == Above(low, high, 1)
  {
    hide Power2;
    Powers();
    high, low := x / 0x8000_0000, x % 0x8000_0000;
  }

  lemma Exchanged5(x: word) returns (high: nat, low: nat)
    ensures high < Power2(5) && low < Power2(27) && x == Above(high, low, 27) && Rotl5(x) == Above(low, high, 5)
  {
    hide Power2;
    Powers();
    high, low := x / 0x800_0000, x % 0x800_0000;
  }

  lemma Exchanged30(x: word) returns (high: nat, low: nat)
    ensures high < Power2(30) && low < Power2(2) && x == Above(high, low, 2) && Rotl30(x) == Above(low, high, 30)
  {
    hide Power2;
    Powers();
    high, low := x / 4, x % 4;
  }

  /** The rotations move bit `i` to `i + k`, modulo 32, for each of the three distances. */
  lemma RotationsMoveBits(x: word, i: nat)
    requires i < 32
    ensures Bit(Rotl1(x), (i + 1) % 32) == Bit(x, i)
    ensures Bit(Rotl5(x), (i + 5) % 32) == Bit(x, i)
    ensures Bit(Rotl30(x), (i + 30) % 32) == Bit(x, i)
  {
    hide Bit, Rotl1, Rotl5, Rotl30, Above, Power2;
    var high, low := Exchanged1(x);
    ExchangedBits(high, low, 1, i);
    high, low := Exchanged5(x);
    ExchangedBits(high, low, 5, i);
    high, low := Exchanged30(x);
    ExchangedBits(high, low, 30, i);
  }

  // ----- the functions of the rounds -----

  lemma {:induction false} BitsOfOperators(x: nat, y: nat, i: nat)
    ensures Bit(And(x, y), i) == if Bit(x, i) == 1 && Bit(y, i) == 1 then 1 else 0
    ensures Bit(Or(x, y), i) == if Bit(x, i) == 1 || Bit(y, i) == 1 then 1 else 0
    ensures Bit(Xor(x, y), i) == if Bit(x, i) != Bit(y, i) then 1 else 0
  {
    AndStep(x, y);
    OrStep(x, y);
    XorStep(x, y);
    if i > 0 {
      BitsOfOperators(x / 2, y / 2, i - 1);
    }
  }

  lemma {:induction false} BitsOfComplement(x: nat, n: nat, i: nat)
    requires x < Power2(n) && i < n
    ensures Bit(Power2(n) - 1 - x, i) == 1 - Bit(x, i)
  {
    assert Power2(n) == 2 * Power2(n - 1);
    assert (Power2(n) - 1 - x) % 2 == 1 - x % 2 && (Power2(n) - 1 - x) / 2 == Power2(n - 1) - 1 - x / 2;
    if i > 0 {
      BitsOfComplement(x / 2, n - 1, i - 1);
    }
  }

  /** Section 4.1.1, bit by bit: the choice, the parity of three, their majority, and the parity again. */
  lemma MixBits(t: nat, x: word, y: word, z: word, i: nat)
    requires t < 80 && i < 32
    ensures var a, b, c := Bit(x, i), Bit(y, i), Bit(z, i);
      Bit(Mix(t, x, y, z), i) ==
        (if t < 20 then if a == 1 then b else c
         else if 40 <= t < 60 then if a + b + c >= 2 then 1 else 0
         else (a + b + c) % 2)
  {
    hide And, Or, Xor, Power2;
    IsBit(x, i);
    IsBit(y, i);
    IsBit(z, i);
    WordPower();
    if t < 20 {
      BitsOfComplement(x, 32, i);
      BitsOfOperators(x, y, i);
      BitsOfOperators(NotWord(x), z, i);
      BitsOfOperators(AndWord(x, y), AndWord(NotWord(x), z), i);
    } else if 40 <= t < 60 {
      BitsOfOperators(x, y, i);
      BitsOfOperators(x, z, i);
      BitsOfOperators(y, z, i);
      BitsOfOperators(AndWord(x, y), AndWord(x, z), i);
      BitsOfOperators(XorWord(AndWord(x, y), AndWord(x, z)), AndWord(y, z), i);
    } else {
      BitsOfOperators(x, y, i);
      BitsOfOperators(XorWord(x, y), z, i);
    }
  }

  lemma {:induction false} IsBit(x: nat, i: nat)
    ensures Bit(x, i) < 2
  {
    if i > 0 {
      IsBit(x / 2, i - 1);
    }
  }

  lemma SumIsReduced(x: word, y: word)
    ensures AddWord(x, y) == (x + y) % TWO_32
  {
  }

  // ----- the constants -----

  /** Whose square root gives the constant of a round. */
  function Radicand(t: nat): nat { if t < 20 then 2 else if t < 40 then 3 else if t < 60 then 5 else 10 }

  /** Section 4.2.1: the constants are the square roots of 2, 3, 5 and 10, times 2^30, without their fractions. */
  lemma ConstantsAreRoots(t: nat)
    requires t < 80
    ensures K(t) * K(t) <= Radicand(t) * Power2(60) < (K(t) + 1) * (K(t) + 1)
  {
    hide Power2;
    Powers();
    PowerSum(30, 30);
  }

  lemma {:induction false} PowerSum(m: nat, n: nat)
    ensures Power2(m + n) == Power2(m) * Power2(n)
  {
    if m > 0 {
      PowerSum(m - 1, n);
      assert Power2(m + n) == 2 * (Power2(m - 1) * Power2(n));
      assert Power2(m) == 2 * Power2(m - 1);
    }
  }

  /**
   * Section 5.3.1: as bytes from the lowest, the first four initial values count the hexadecimal digits up and down, and the
   * last takes them from both ends.
   */
  lemma InitialValuesCount(k: nat)
    requires k < 4
    ensures WordBytes(INITIAL.a)[3 - k] == 0x22 * k + 0x01 && WordBytes(INITIAL.b)[3 - k] == 0x22 * k + 0x89
    ensures WordBytes(INITIAL.c)[3 - k] == 0xFE - 0x22 * k && WordBytes(INITIAL.d)[3 - k] == 0x76 - 0x22 * k
    ensures WordBytes(INITIAL.e)[3 - k] == 0xF0 - 0x0F * k
  {
  }

  // ----- bytes and words -----

  lemma BigEndianOfFour(b0: byte, b1: byte, b2: byte, b3: byte)
    ensures FromBigEndian([b0, b1, b2, b3]) == Word(b0, b1, b2, b3)
  {
    assert [b0][..0] == [] && FromBigEndian([b0]) == b0;
    assert [b0, b1][..1] == [b0] && FromBigEndian([b0, b1]) == b0 * 256 + b1;
    assert [b0, b1, b2][..2] == [b0, b1] && FromBigEndian([b0, b1, b2]) == (b0 * 256 + b1) * 256 + b2;
    assert [b0, b1, b2, b3][..3] == [b0, b1, b2];
  }

  lemma WordBytesValue(x: word)
    ensures FromBigEndian(WordBytes(x)) == x
  {
    BigEndianOfFour(x / 0x100_0000 % 256, x / 0x1_0000 % 256, x / 0x100 % 256, x % 256);
    assert x / 0x100 / 256 == x / 0x1_0000 && x / 0x1_0000 / 256 == x / 0x100_0000;
  }

  /** The digest is the five registers, in order, as big-endian numbers. */
  lemma DigestIsRegisters(h: Registers)
    ensures FromBigEndian(Digest(h)[..4]) == h.a && FromBigEndian(Digest(h)[4..8]) == h.b
    ensures FromBigEndian(Digest(h)[8..12]) == h.c && FromBigEndian(Digest(h)[12..16]) == h.d
    ensures FromBigEndian(Digest(h)[16..]) == h.e
  {
    hide FromBigEndian, WordBytes;
    WordBytesValue(h.a);
    WordBytesValue(h.b);
    WordBytesValue(h.c);
    WordBytesValue(h.d);
    WordBytesValue(h.e);
    assert Digest(h)[..4] == WordBytes(h.a) && Digest(h)[4..8] == WordBytes(h.b) && Digest(h)[8..12] == WordBytes(h.c);
    assert Digest(h)[12..16] == WordBytes(h.d) && Digest(h)[16..] == WordBytes(h.e);
  }

  lemma {:induction false} ScheduleGrows(block: seq<byte>, m: nat, n: nat)
    requires |block| == 64 && 16 <= m <= n
    ensures Schedule(block, n)[..m] == Schedule(block, m)
  {
    if m < n {
      ScheduleGrows(block, m, n - 1);
      assert Schedule(block, n)[..n - 1] == Schedule(block, n - 1);
      assert Schedule(block, n)[..m] == Schedule(block, n)[..n - 1][..m];
    } else {
      assert Schedule(block, n)[..n] == Schedule(block, n);
    }
  }

  /** Section 6.1.2, step 1, on the whole schedule: the words of the block, then the recurrence of the standard. */
  lemma ScheduleIsStandard(block: seq<byte>, t: nat)
    requires |block| == 64 && t < 80
    ensures var w := Schedule(block, 80);
      if t < 16 then w[t] == FromBigEndian(block[4 * t..4 * t + 4])
      else w[t] == Rotl1(XorWord(XorWord(XorWord(w[t - 3], w[t - 8]), w[t - 14]), w[t - 16]))
  {
    hide Rotl1, FromBigEndian, XorWord;
    var w := Schedule(block, 80);
    if t < 16 {
      ScheduleGrows(block, 16, 80);
      assert w[t] == w[..16][t];
      BigEndianOfFour(block[4 * t], block[4 * t + 1], block[4 * t + 2], block[4 * t + 3]);
      assert block[4 * t..4 * t + 4] == [block[4 * t], block[4 * t + 1], block[4 * t + 2], block[4 * t + 3]];
    } else {
      var shorter := Schedule(block, t + 1);
      ScheduleGrows(block, t + 1, 80);
      ScheduleGrows(block, t, t + 1);
      assert w[..t + 1] == shorter && shorter[..t] == Schedule(block, t);
      assert w[t] == shorter[t];
      assert forall k | 0 <= k < t :: w[..t + 1][k] == shorter[..t][k];
    }
  }

  // ----- the rounds backwards -----

  function Difference(x: word, y: word): word { (x - y) % TWO_32 }

  /** The rotation by 2, which undoes the one by 30. */
  function Rotl2(x: word): word { x * 4 % TWO_32 + x / 0x4000_0000 }

  lemma RotatedBack(x: word)
    ensures Rotl2(Rotl30(x)) == x
  {
    var y := Rotl30(x);
    assert y == x % 4 * 0x4000_0000 + x / 4;
    assert y / 0x4000_0000 == x % 4 && y % 0x4000_0000 == x / 4;
  }

  /** What the registers were before a round. */
  function Before(r: Registers, t: nat, w: word): Registers {
    var a, b, c, d := r.b, Rotl2(r.c), r.d, r.e;
    var others := (Rotl5(a) + Mix(t, b, c, d) + K(t) + w) % TWO_32;
    Registers(a, b, c, d, Difference(r.a, others))
  }

  lemma SumOfFive(p: word, f: word, e: word, k: word, w: word)
    ensures Difference(AddWord(AddWord(AddWord(AddWord(p, f), e), k), w), (p + f + k + w) % TWO_32) == e
  {
    var others := (p + f + k + w) % TWO_32;
    var q := (p + f + k + w) / TWO_32;
    var sum := AddWord(AddWord(AddWord(AddWord(p, f), e), k), w);
    assert exists m: int :: sum == p + f + e + k + w + m * TWO_32 by {
      var s1 := AddWord(p, f);
      var s2 := AddWord(s1, e);
      var s3 := AddWord(s2, k);
      var m1, m2 := (if p + f < TWO_32 then 0 else -1), (if s1 + e < TWO_32 then 0 else -1);
      var m3, m4 := (if s2 + k < TWO_32 then 0 else -1), (if s3 + w < TWO_32 then 0 else -1);
      assert sum == p + f + e + k + w + (m1 + m2 + m3 + m4) * TWO_32;
    }
    var m: int :| sum == p + f + e + k + w + m * TWO_32;
    assert sum - others == e + (m + q) * TWO_32;
    Residue(e, m + q);
  }

  lemma Residue(x: word, q: int)
    ensures (x + q * TWO_32) % TWO_32 == x
  {
  }

  /** Each round can be undone, so it loses nothing. */
  lemma RoundIsUndone(r: Registers, t: nat, w: word)
    ensures Before(Round(r, t, w), t, w) == r
  {
    hide Rotl5, Rotl30, Rotl2, Mix, K, AddWord, Difference;
    RotatedBack(r.b);
    SumOfFive(Rotl5(r.a), Mix(t, r.b, r.c, r.d), r.e, K(t), w);
  }

  function AllBefore(w: seq<word>, r: Registers): Registers
    decreases |w|
  {
    if w == [] then r else AllBefore(w[..|w| - 1], Before(r, |w| - 1, w[|w| - 1]))
  }

  lemma {:induction false} RoundsAreUndone(w: seq<word>, start: Registers)
    ensures AllBefore(w, Rounds(w, start)) == start
    decreases |w|
  {
    hide Round, Before;
    if w != [] {
      var init := w[..|w| - 1];
      RoundIsUndone(Rounds(init, start), |w| - 1, w[|w| - 1]);
      RoundsAreUndone(init, start);
    }
  }

  /** The compression of a block: what it adds to the registers are these, taken through eighty rounds that can be undone. */
  lemma CompressionIsUndone(h: Registers, block: seq<byte>)
    requires |block| == 64
    ensures var r := Compress(h, block);
      AllBefore(Schedule(block, 80), Registers(Difference(r.a, h.a), Difference(r.b, h.b), Difference(r.c, h.c),
                                               Difference(r.d, h.d), Difference(r.e, h.e))) == h
  {
    hide Schedule, Rounds, AllBefore;
    RoundsAreUndone(Schedule(block, 80), h);
  }
}
