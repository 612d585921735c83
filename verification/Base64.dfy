/** Base64 of saved state: section 4 of RFC 4648. */
module Base64 {
  import opened Bytes

  const UPPER: string := "ABCDEFGHIJKLMNOPQRSTUVWXYZ"
  const LOWER: string := "abcdefghijklmnopqrstuvwxyz"
  const DIGITS_AND_SIGNS: string := "0123456789+/"
  const ALPHABET: string := UPPER + LOWER + DIGITS_AND_SIGNS
  const PAD: byte := '=' as int

  type digit = x: int | 0 <= x < 64

  /** Table 1 of RFC 4648. */
  function Letter(v: digit): byte {
    if v < 26 then 'A' as int + v
    else if v < 52 then 'a' as int + (v - 26)
    else if v < 62 then '0' as int + (v - 52)
    else if v == 62 then '+' as int else '/' as int
  }

  /** The digit of a letter; -1 for all other bytes. */
  function ValueOf(c: byte): int {
    if 'A' as int <= c <= 'Z' as int then c - 'A' as int
    else if 'a' as int <= c <= 'z' as int then c - 'a' as int + 26
    else if '0' as int <= c <= '9' as int then c - '0' as int + 52
    else if c == '+' as int then 62
    else if c == '/' as int then 63
    else -1
  }

  lemma LettersAndValues(v: digit, c: byte)
    ensures ValueOf(Letter(v)) == v && Letter(v) != PAD
    ensures -1 <= ValueOf(c) < 64 && (ValueOf(c) >= 0 ==> Letter(ValueOf(c)) == c)
  {
  }

  /** The string of the program lists the letters of the table. */
  lemma AlphabetIsTheTable()
    ensures |ALPHABET| == 64 && forall v | 0 <= v < 64 :: ALPHABET[v] as int == Letter(v)
  {
    UpperLetters();
    LowerLetters();
    OtherLetters();
    JoinedAlphabet(UPPER, LOWER, DIGITS_AND_SIGNS);
  }

  lemma UpperLetters()
    ensures |UPPER| == 26 && forall v | 0 <= v < 26 :: UPPER[v] as int == Letter(v)
  {
  }

  lemma LowerLetters()
    ensures |LOWER| == 26 && forall v | 0 <= v < 26 :: LOWER[v] as int == Letter(26 + v)
  {
  }

  lemma OtherLetters()
    ensures |DIGITS_AND_SIGNS| == 12 && forall v | 0 <= v < 12 :: DIGITS_AND_SIGNS[v] as int == Letter(52 + v)
  {
  }

  lemma JoinedAlphabet(a: string, b: string, c: string)
    requires |a| == |b| == 26 && |c| == 12
    requires forall v | 0 <= v < 26 :: a[v] as int == Letter(v) && b[v] as int == Letter(26 + v)
    requires forall v | 0 <= v < 12 :: c[v] as int == Letter(52 + v)
    ensures forall v | 0 <= v < 64 :: (a + b + c)[v] as int == Letter(v)
  {
    hide Letter;
    forall v | 0 <= v < 64 ensures (a + b + c)[v] as int == Letter(v) {
      if 26 <= v < 52 {
        assert b[v - 26] as int == Letter(26 + (v - 26));
      } else if v >= 52 {
        assert c[v - 52] as int == Letter(52 + (v - 52));
      }
    }
  }

  // ----- encoding -----

  function Letters(digits: seq<digit>): (r: seq<byte>)
    ensures |r| == |digits|
  {
    seq(|digits|, k requires 0 <= k < |digits| => Letter(digits[k]))
  }

  // The masks and shifts of the program on three bytes.
  function FirstDigit(a: byte): digit { a / 4 }
  function SecondDigit(a: byte, b: byte): digit { a % 4 * 16 + b / 16 }
  function ThirdDigit(b: byte, c: byte): digit { b % 16 * 4 + c / 64 }
  function FourthDigit(c: byte): digit { c % 64 }

  function Quad(a: byte, b: byte, c: byte): (r: seq<digit>)
    ensures |r| == 4
  {
    [FirstDigit(a), SecondDigit(a, b), ThirdDigit(b, c), FourthDigit(c)]
  }

  /** The text: four letters for three bytes, and a padded group for what is left. */
  function Encoded(x: seq<byte>): seq<byte> {
    match |x|
    case 0 => []
    case 1 => Letters(Quad(x[0], 0, 0)[..2]) + [PAD, PAD]
    case 2 => Letters(Quad(x[0], x[1], 0)[..3]) + [PAD]
    case _ => Letters(Quad(x[0], x[1], x[2])) + Encoded(x[3..])
  }

  /** Three bytes as one 24-bit number. */
  function Group(a: nat, b: nat, c: nat): nat { a * 0x1_0000 + b * 0x100 + c }

  /** 6-bit group `k` of a 24-bit number, from the highest. */
  function SixBits(n: nat, k: nat): digit {
    if k == 0 then n / 0x4_0000 % 64 else if k == 1 then n / 0x1000 % 64 else if k == 2 then n / 64 % 64 else n % 64
  }

  function AtOrZero(x: seq<byte>, k: nat): nat { if k < |x| then x[k] else 0 }

  /** Section 4 of RFC 4648: 24-bit groups of input as four 6-bit groups each; a group that is cut short is filled with
      zero bits, and in the place of letters that carry no input there is padding. */
  function Standard(x: seq<byte>): seq<byte> {
    if x == [] then []
    else
      var group := Group(x[0], AtOrZero(x, 1), AtOrZero(x, 2));
      [Letter(SixBits(group, 0)), Letter(SixBits(group, 1)),
       if |x| > 1 then Letter(SixBits(group, 2)) else PAD,
       if |x| > 2 then Letter(SixBits(group, 3)) else PAD]
      + if |x| > 3 then Standard(x[3..]) else []
  }

  /** The text of the program is that of the standard. */
  lemma {:induction false} EncodedIsStandard(x: seq<byte>)
    ensures Encoded(x) == Standard(x)
  {
    if |x| > 0 {
      var b: byte, c: byte := AtOrZero(x, 1), AtOrZero(x, 2);
      QuadIsOneNumber(x[0], b, c);
      StandardGroup(x, Quad(x[0], b, c));
      if |x| >= 3 {
        EncodedIsStandard(x[3..]);
      }
    }
  }

  lemma LettersInOrder(quad: seq<digit>)
    requires |quad| == 4
    ensures Letters(quad[..2]) + [PAD, PAD] == [Letter(quad[0]), Letter(quad[1]), PAD, PAD]
    ensures Letters(quad[..3]) + [PAD] == [Letter(quad[0]), Letter(quad[1]), Letter(quad[2]), PAD]
    ensures Letters(quad) == [Letter(quad[0]), Letter(quad[1]), Letter(quad[2]), Letter(quad[3])]
  {
    hide Letter;
  }

  /** One group of both texts. */
  lemma StandardGroup(x: seq<byte>, quad: seq<digit>)
    requires |x| > 0 && |quad| == 4
    requires var n := Group(x[0], AtOrZero(x, 1), AtOrZero(x, 2)); forall k | 0 <= k < 4 :: quad[k] == SixBits(n, k)
    ensures Standard(x) == (if |x| == 1 then Letters(quad[..2]) + [PAD, PAD] else if |x| == 2 then Letters(quad[..3]) + [PAD]
                            else Letters(quad) + Standard(x[3..]))
  {
    hide SixBits, Group, Letter, Letters;
    LettersInOrder(quad);
  }

  /** The digits are those of the three bytes as one 24-bit number. */
  lemma QuadIsOneNumber(a: byte, b: byte, c: byte)
    ensures forall k | 0 <= k < 4 :: Quad(a, b, c)[k] == SixBits(Group(a, b, c), k)
  {
    var p: nat, q: nat, r: nat, s: nat := FirstDigit(a), SecondDigit(a, b), ThirdDigit(b, c), FourthDigit(c);
    assert Group(a, b, c) == p * 0x4_0000 + q * 0x1000 + r * 64 + s;
    FourDigits(p, q, r, s);
  }

  lemma FourDigits(p: digit, q: digit, r: digit, s: digit)
    ensures var n := p * 0x4_0000 + q * 0x1000 + r * 64 + s;
      n / 0x4_0000 % 64 == p && n / 0x1000 % 64 == q && n / 64 % 64 == r && n % 64 == s
  {
    Quotient(p, 0x4_0000, q * 0x1000 + r * 64 + s);
    Quotient(p * 64 + q, 0x1000, r * 64 + s);
    Quotient(p, 64, q);
    Quotient((p * 64 + q) * 64 + r, 64, s);
    Quotient(p * 64 + q, 64, r);
  }

  lemma {:induction false} EncodedInParts(x: seq<byte>, y: seq<byte>)
    requires |x| % 3 == 0
    ensures Encoded(x + y) == Encoded(x) + Encoded(y)
  {
    if x == [] {
      assert x + y == y;
    } else {
      EncodedInParts(x[3..], y);
      assert (x + y)[3..] == x[3..] + y;
      Assoc(Letters(Quad(x[0], x[1], x[2])), Encoded(x[3..]), Encoded(y));
    }
  }

  /** The padding of the text of `n` bytes. */
  function Padding(n: nat): seq<byte> { if n % 3 == 0 then [] else if n % 3 == 1 then [PAD, PAD] else [PAD] }

  lemma LettersOnly(digits: seq<digit>)
    ensures forall c | c in Letters(digits) :: c != PAD && ValueOf(c) >= 0
  {
    forall k | 0 <= k < |digits| ensures Letters(digits)[k] != PAD && ValueOf(Letters(digits)[k]) >= 0 {
      LettersAndValues(digits[k], 0);
    }
  }

  /** The text is letters of the alphabet, then padding up to a multiple of four. */
  lemma {:induction false} EncodedShape(x: seq<byte>) returns (letters: seq<byte>)
    ensures Encoded(x) == letters + Padding(|x|)
    ensures forall c | c in letters :: c != PAD && ValueOf(c) >= 0
  {
    if |x| >= 3 {
      var digits := Quad(x[0], x[1], x[2]);
      var rest := EncodedShape(x[3..]);
      LettersOnly(digits);
      letters := Letters(digits) + rest;
      Assoc(Letters(digits), rest, Padding(|x|));
      PaddingRepeats(|x|);
    } else {
      letters := ShortShape(x);
    }
  }

  lemma ShortShape(x: seq<byte>) returns (letters: seq<byte>)
    requires |x| < 3
    ensures Encoded(x) == letters + Padding(|x|)
    ensures forall c | c in letters :: c != PAD && ValueOf(c) >= 0
  {
    letters := [];
    if |x| == 1 {
      letters := Letters(Quad(x[0], 0, 0)[..2]);
      LettersOnly(Quad(x[0], 0, 0)[..2]);
    } else if |x| == 2 {
      letters := Letters(Quad(x[0], x[1], 0)[..3]);
      LettersOnly(Quad(x[0], x[1], 0)[..3]);
    }
  }

  lemma PaddingRepeats(n: nat)
    requires n >= 3
    ensures Padding(n) == Padding(n - 3) && (n - 3 + 2) / 3 + 1 == (n + 2) / 3
  {
  }

  lemma {:induction false} EncodedLength(x: seq<byte>)
    ensures |Encoded(x)| == 4 * ((|x| + 2) / 3)
  {
    if |x| >= 3 {
      EncodedLength(x[3..]);
      PaddingRepeats(|x|);
    }
  }

  method Encode(input: seq<byte>) returns (ret: seq<byte>)
    ensures ret == Encoded(input)
  {
    ret := [];
    var i := 0;
    var bytes := new byte[3](_ => 0);
    ghost var groups: nat := 0;
    for k := 0 to |input|
      invariant 0 <= i < 3 && k == 3 * groups + i && forall m | 0 <= m < i :: bytes[m] == input[3 * groups + m]
      invariant ret == Encoded(input[..3 * groups])
    {
      bytes[i] := input[k];
      i := i + 1;
      if i == 3 {
        assert bytes[0] == input[3 * groups] && bytes[1] == input[3 * groups + 1] && bytes[2] == input[3 * groups + 2];
        NextGroup(input, groups);
        ret := ret + Letters([FirstDigit(bytes[0]), SecondDigit(bytes[0], bytes[1]),
                              ThirdDigit(bytes[1], bytes[2]), FourthDigit(bytes[2])]);
        i := 0;
        groups := groups + 1;
      }
    }
    if i > 0 {
      for j := i to 3
        invariant forall m | i <= m < j :: bytes[m] == 0
        invariant forall m | 0 <= m < i :: bytes[m] == input[3 * groups + m]
      {
        bytes[j] := 0;
      }
      var quad := [FirstDigit(bytes[0]), SecondDigit(bytes[0], bytes[1]), ThirdDigit(bytes[1], bytes[2])];
      var pads := WritePadding(i);
      assert bytes[2] == 0 && (i == 1 ==> bytes[1] == 0) && bytes[0] == input[3 * groups];
      assert i == 2 ==> bytes[1] == input[3 * groups + 1];
      PaddedGroup(input, groups, i, bytes[0], bytes[1]);
      Assoc(ret, Letters(quad[..i + 1]), pads);
      ret := ret + Letters(quad[..i + 1]);
      ret := ret + pads;
    } else {
      assert input[..3 * groups] == input;
    }
  }

  /** The loop that fills the last group with padding signs. */
  method WritePadding(count: nat) returns (pads: seq<byte>)
    requires 1 <= count < 3
    ensures pads == Padding(count)
  {
    var i := count;
    pads := [];
    while i < 3
      invariant count <= i <= 3 && |pads| == i - count && forall k | 0 <= k < |pads| :: pads[k] == PAD
    {
      pads := pads + [PAD];
      i := i + 1;
    }
  }

  /** The one or two bytes that are left fill a group with zeros, of which one letter more than bytes is written. */
  lemma PaddedGroup(x: seq<byte>, groups: nat, left: nat, a: byte, b: byte)
    requires 1 <= left < 3 && |x| == 3 * groups + left
    requires x[3 * groups] == a && b == if left == 2 then x[3 * groups + 1] else 0
    ensures Encoded(x) == Encoded(x[..3 * groups])
      + (Letters([FirstDigit(a), SecondDigit(a, b), ThirdDigit(b, 0)][..left + 1]) + Padding(left))
  {
    var k := 3 * groups;
    assert x == x[..k] + x[k..];
    EncodedInParts(x[..k], x[k..]);
    assert x[k..] == if left == 1 then [a] else [a, b];
    ShortGroup(a, b);
  }

  lemma ShortGroup(a: byte, b: byte)
    ensures Encoded([a]) == Letters([FirstDigit(a), SecondDigit(a, 0), ThirdDigit(0, 0)][..2]) + Padding(1)
    ensures Encoded([a, b]) == Letters([FirstDigit(a), SecondDigit(a, b), ThirdDigit(b, 0)][..3]) + Padding(2)
  {
    assert Quad(a, 0, 0)[..2] == [FirstDigit(a), SecondDigit(a, 0), ThirdDigit(0, 0)][..2];
    assert Quad(a, b, 0)[..3] == [FirstDigit(a), SecondDigit(a, b), ThirdDigit(b, 0)][..3];
  }

  lemma NextGroup(x: seq<byte>, groups: nat)
    requires 3 * groups + 3 <= |x|
    ensures var k := 3 * groups;
      Encoded(x[..3 * (groups + 1)]) == Encoded(x[..k])
      + Letters([FirstDigit(x[k]), SecondDigit(x[k], x[k + 1]), ThirdDigit(x[k + 1], x[k + 2]), FourthDigit(x[k + 2])])
  {
    var k := 3 * groups;
    var three := x[k..k + 3];
    assert x[..k + 3] == x[..k] + three;
    EncodedInParts(x[..k], three);
    assert Encoded(three[3..]) == [];
  }

  // ----- decoding -----

  /** The digits of the letters in a text; other bytes are skipped. */
  function Digits(s: seq<byte>): seq<digit> {
    if s == [] then []
    else
      var c := s[|s| - 1];
      LettersAndValues(0, c);
      Digits(s[..|s| - 1]) + (if ValueOf(c) == -1 then [] else [ValueOf(c)])
  }

  /** How many digits of the last group are there, four making it complete. */
  function Phase(d: seq<digit>): (p: nat)
    ensures p < 4
  {
    if d == [] then 0
    else
      var before := Phase(d[..|d| - 1]);
      if before == 3 then 0 else before + 1
  }

  /** All digits as one number: an accumulator of unlimited size. */
  function Number(d: seq<digit>): nat {
    if d == [] then 0 else 64 * Number(d[..|d| - 1]) + d[|d| - 1]
  }

  /** Each digit but the first of its group completes a byte: the highest eight bits that were not given out yet. */
  function Octets(d: seq<digit>): seq<byte> {
    if d == [] then []
    else Octets(d[..|d| - 1]) + NewOctet(Number(d), Phase(d[..|d| - 1]))
  }

  function NewOctet(number: int, phase: nat): seq<byte> {
    if phase == 0 then [] else [Shifted(number, phase) % 256]
  }

  /** `/` rounds down, as the arithmetic shift does. */
  function Shifted(number: int, phase: nat): int {
    if phase == 1 then number / 16 else if phase == 2 then number / 4 else number
  }

  lemma OctetsOfLast(d: seq<digit>, v: digit)
    ensures Number(d + [v]) == 64 * Number(d) + v && Phase(d + [v]) == (if Phase(d) == 3 then 0 else Phase(d) + 1)
    ensures Octets(d + [v]) == Octets(d) + NewOctet(Number(d + [v]), Phase(d))
  {
    assert (d + [v])[..|d|] == d;
  }

  function Decoded(s: seq<byte>): seq<byte> { Octets(Digits(s)) }

  /** `n` modulo 2^32, as a signed number. */
  function Wrapped(n: int): int { if n % TWO_32 < 0x8000_0000 then n % TWO_32 else n % TWO_32 - TWO_32 }

  lemma WrappedBy(n: int) returns (q: int)
    ensures n == Wrapped(n) + TWO_32 * q
  {
    q := n / TWO_32 + (if n % TWO_32 < 0x8000_0000 then 0 else 1);
  }

  lemma WrappedCongruent(m: int, n: int, q: int)
    requires m == n + TWO_32 * q
    ensures Wrapped(m) == Wrapped(n)
  {
  }

  /** Shifting and adding within 32 bits. */
  lemma WrappedStep(n: nat, v: digit)
    ensures Wrapped(Wrapped(Wrapped(n) * 64) + v) == Wrapped(64 * n + v)
  {
    var q := WrappedBy(n);
    var r := WrappedBy(Wrapped(n) * 64);
    WrappedCongruent(64 * n + v, Wrapped(Wrapped(n) * 64) + v, 64 * q + r);
  }

  lemma HighBits(w: int, t: int)
    ensures (w + 0x1000 * t) / 16 % 256 == w / 16 % 256
  {
    assert (w + 0x1000 * t) / 16 == w / 16 + 256 * t;
  }

  lemma MiddleBits(w: int, t: int)
    ensures (w + 0x400 * t) / 4 % 256 == w / 4 % 256
  {
    assert (w + 0x400 * t) / 4 == w / 4 + 256 * t;
  }

  lemma LowBits(w: int, t: int)
    ensures (w + 256 * t) % 256 == w % 256
  {
  }

  /** A byte depends on the last twelve bits of the accumulator only. */
  lemma TwelveBits(w: int, t: int, phase: nat)
    ensures NewOctet(w + 0x1000 * t, phase) == NewOctet(w, phase)
  {
    if phase == 1 {
      HighBits(w, t);
    } else if phase == 2 {
      MiddleBits(w, 4 * t);
    } else {
      LowBits(w, 16 * t);
    }
  }

  /** Bits that fell out of a 32-bit accumulator were not needed any more. */
  lemma LostBitsAreNotMissed(n: nat, phase: nat)
    ensures NewOctet(Wrapped(n), phase) == NewOctet(n, phase)
  {
    var q := WrappedBy(n);
    assert n == Wrapped(n) + 0x1000 * (0x10_0000 * q);
    TwelveBits(Wrapped(n), 0x10_0000 * q, phase);
  }

  /** The table of the decoder: the digit of each letter, -1 elsewhere. */
  method BuildTable() returns (t: array<int>)
    ensures fresh(t) && t.Length == 256 && forall c | 0 <= c < 256 :: t[c] == ValueOf(c)
  {
    AlphabetIsTheTable();
    t := new int[256](_ => -1);
    for i := 0 to 64
      invariant forall c | 0 <= c < 256 :: t[c] == if ValueOf(c) < i then ValueOf(c) else -1
    {
      assert ALPHABET[i] as int == Letter(i);
      forall c | 0 <= c < 256 ensures ValueOf(c) == i <==> c == Letter(i) {
        LettersAndValues(i, c);
      }
      t[ALPHABET[i] as int] := i;
    }
    forall c | 0 <= c < 256 ensures ValueOf(c) < 64 {
      LettersAndValues(0, c);
    }
  }

  method Decode(encoded: seq<byte>) returns (out: seq<byte>)
    ensures out == Decoded(encoded)
  {
    hide Wrapped, Octets, Number, Phase, ValueOf;
    var t := BuildTable();
    NoDigits();
    out := [];
    var val, valb := 0, -8;
    for k := 0 to |encoded|
      invariant forall c | 0 <= c < 256 :: t[c] == ValueOf(c)
      invariant val == Wrapped(Number(Digits(encoded[..k])))
      invariant valb == Waiting(Phase(Digits(encoded[..k])))
      invariant out == Octets(Digits(encoded[..k]))
    {
      var c := encoded[k];
      NextDigit(encoded, k);
      if t[c] != -1 {
        LettersAndValues(0, c);
        DecodeStep(Digits(encoded[..k]), t[c], val, valb);
        val := Wrapped(Wrapped(val * 64) + t[c]);
        valb := valb + 6;
        if valb >= 0 {
          out := out + [ShiftRight(val, valb) % 256];
          valb := valb - 8;
        }
      }
    }
    assert encoded[..|encoded|] == encoded;
  }

  /** The arithmetic right shift, for the distances that occur. */
  function ShiftRight(val: int, valb: int): int { if valb == 4 then val / 16 else if valb == 2 then val / 4 else val }

  /** The value of `valb`: the bits that wait, less eight. */
  function Waiting(phase: nat): int { if phase == 0 then -8 else if phase == 1 then -2 else if phase == 2 then -4 else -6 }

  lemma NoDigits()
    ensures Digits([]) == [] && Wrapped(Number([])) == 0 && Phase([]) == 0 && Octets([]) == []
  {
  }

  /** One turn of the loop, for a letter. */
  lemma DecodeStep(before: seq<digit>, v: digit, val: int, valb: int)
    requires val == Wrapped(Number(before)) && valb == Waiting(Phase(before))
    ensures var d := before + [v]; var val' := Wrapped(Wrapped(val * 64) + v);
      && val' == Wrapped(Number(d))
      && Waiting(Phase(d)) == (if valb + 6 >= 0 then valb + 6 - 8 else valb + 6)
      && Octets(d) == Octets(before) + (if valb + 6 >= 0 then [ShiftRight(val', valb + 6) % 256] else [])
  {
    OctetsOfLast(before, v);
    WrappedStep(Number(before), v);
    LostBitsAreNotMissed(Number(before + [v]), Phase(before));
  }

  lemma NextDigit(s: seq<byte>, k: nat)
    requires k < |s|
    ensures ValueOf(s[k]) == -1 ==> Digits(s[..k + 1]) == Digits(s[..k])
    ensures ValueOf(s[k]) != -1 ==> Digits(s[..k + 1]) == Digits(s[..k]) + [ValueOf(s[k])]
  {
    assert s[..k + 1][..k] == s[..k];
  }

  // ----- round trip -----

  lemma {:induction false} DigitsInParts(s: seq<byte>, t: seq<byte>)
    ensures Digits(s + t) == Digits(s) + Digits(t)
  {
    if t == [] {
      assert s + t == s;
    } else {
      DigitsInParts(s, t[..|t| - 1]);
      assert (s + t)[..|s + t| - 1] == s + t[..|t| - 1];
      LettersAndValues(0, t[|t| - 1]);
    }
  }

  lemma {:induction false} DigitsOfLetters(d: seq<digit>)
    ensures Digits(Letters(d)) == d
  {
    if d != [] {
      DigitsOfLetters(d[..|d| - 1]);
      assert Letters(d)[..|d| - 1] == Letters(d[..|d| - 1]);
      LettersAndValues(d[|d| - 1], 0);
    }
  }

  lemma PaddingHasNoDigits(n: nat)
    ensures Digits(Padding(n)) == []
  {
    assert ValueOf(PAD) == -1;
    assert [PAD, PAD][..1] == [PAD] && [PAD][..0] == [];
    assert Digits([PAD]) == Digits([PAD][..0]) + [];
    assert Digits([PAD, PAD]) == Digits([PAD, PAD][..1]) + [];
  }

  /** The digits of a padded text, one more than bytes in the last group. */
  function EncodedDigits(x: seq<byte>): seq<digit> {
    match |x|
    case 0 => []
    case 1 => Quad(x[0], 0, 0)[..2]
    case 2 => Quad(x[0], x[1], 0)[..3]
    case _ => Quad(x[0], x[1], x[2]) + EncodedDigits(x[3..])
  }

  lemma {:induction false} DigitsOfEncoded(x: seq<byte>)
    ensures Digits(Encoded(x)) == EncodedDigits(x)
  {
    if |x| >= 3 {
      var digits := Quad(x[0], x[1], x[2]);
      DigitsOfEncoded(x[3..]);
      DigitsInParts(Letters(digits), Encoded(x[3..]));
      DigitsOfLetters(digits);
    } else if |x| > 0 {
      var digits := EncodedDigits(x);
      DigitsInParts(Letters(digits), Padding(|x|));
      DigitsOfLetters(digits);
      PaddingHasNoDigits(|x|);
    }
  }

  // The bytes of a group come out one by one.

  lemma OctetOf(w: nat, phase: nat, a: byte)
    requires (phase == 1 && w / 16 == a) || (phase == 2 && w / 4 % 256 == a) || (phase == 3 && w % 256 == a)
    ensures NewOctet(w, phase) == [a]
  {
  }

  lemma FirstDigits(a: byte, b: byte)
    ensures 64 * FirstDigit(a) + SecondDigit(a, b) == a * 16 + b / 16
  {
  }

  lemma SecondDigits(a: byte, b: byte, c: byte)
    ensures 64 * SecondDigit(a, b) + ThirdDigit(b, c) == (a % 4 * 256 + b) * 4 + c / 64
  {
  }

  lemma ThirdDigits(b: byte, c: byte)
    ensures 64 * ThirdDigit(b, c) + FourthDigit(c) == b % 16 * 256 + c
  {
  }

  lemma FirstOctet(n: nat, a: byte, b: byte)
    ensures NewOctet(0x1000 * n + 64 * FirstDigit(a) + SecondDigit(a, b), 1) == [a]
  {
    hide FirstDigit, SecondDigit, NewOctet;
    var w := 64 * FirstDigit(a) + SecondDigit(a, b);
    TwelveBits(w, n, 1);
    FirstDigits(a, b);
    Quotient(a, 16, b / 16);
    OctetOf(w, 1, a);
  }

  lemma SecondOctet(n: nat, a: byte, b: byte, c: byte)
    ensures NewOctet(0x1000 * n + 64 * SecondDigit(a, b) + ThirdDigit(b, c), 2) == [b]
  {
    hide SecondDigit, ThirdDigit, NewOctet;
    var w := 64 * SecondDigit(a, b) + ThirdDigit(b, c);
    TwelveBits(w, n, 2);
    SecondDigits(a, b, c);
    Quotient(a % 4 * 256 + b, 4, c / 64);
    Quotient(a % 4, 256, b);
    OctetOf(w, 2, b);
  }

  lemma ThirdOctet(n: nat, b: byte, c: byte)
    ensures NewOctet(0x1000 * n + 64 * ThirdDigit(b, c) + FourthDigit(c), 3) == [c]
  {
    hide ThirdDigit, FourthDigit, NewOctet;
    var w := 64 * ThirdDigit(b, c) + FourthDigit(c);
    TwelveBits(w, n, 3);
    ThirdDigits(b, c);
    Quotient(b % 16, 256, c);
    OctetOf(w, 3, c);
  }

  lemma OctetsOfDigits(d: seq<digit>, p: digit, q: digit, r: digit, s: digit)
    requires Phase(d) == 0
    ensures Octets(d + [p] + [q]) == Octets(d) + NewOctet(0x1000 * Number(d) + 64 * p + q, 1)
    ensures Octets(d + [p] + [q] + [r]) == Octets(d + [p] + [q]) + NewOctet(0x1000 * Number(d + [p]) + 64 * q + r, 2)
    ensures Octets(d + [p] + [q] + [r] + [s])
         == Octets(d + [p] + [q] + [r]) + NewOctet(0x1000 * Number(d + [p] + [q]) + 64 * r + s, 3)
    ensures Phase(d + [p] + [q] + [r] + [s]) == 0
  {
    OctetsOfLast(d, p);
    OctetsOfTwo(d, p, q);
    OctetsOfTwo(d + [p], q, r);
    OctetsOfTwo(d + [p] + [q], r, s);
  }

  lemma OctetsOfTwo(d: seq<digit>, p: digit, q: digit)
    ensures Octets(d + [p] + [q]) == Octets(d + [p]) + NewOctet(0x1000 * Number(d) + 64 * p + q, Phase(d + [p]))
    ensures Phase(d + [p] + [q]) == if Phase(d + [p]) == 3 then 0 else Phase(d + [p]) + 1
  {
    OctetsOfLast(d, p);
    OctetsOfLast(d + [p], q);
    assert Number(d + [p] + [q]) == 0x1000 * Number(d) + 64 * p + q;
  }

  lemma AppendDigits<T>(d: seq<T>, p: T, q: T, r: T, s: T)
    ensures d + [p, q, r, s][..2] == d + [p] + [q] && d + [p, q, r, s][..3] == d + [p] + [q] + [r]
    ensures d + [p, q, r, s] == d + [p] + [q] + [r] + [s]
    ensures d + [p] + [q] == d + [p, q] && d + [p] + [q] + [r] == d + [p, q, r]
  {
  }

  /** After whole groups, the digits of up to three more bytes give these bytes. */
  lemma OctetsOfGroup(d: seq<digit>, a: byte, b: byte, c: byte)
    requires Phase(d) == 0
    ensures Octets(d + Quad(a, b, c)[..2]) == Octets(d) + [a]
    ensures Octets(d + Quad(a, b, c)[..3]) == Octets(d) + [a, b]
    ensures Octets(d + Quad(a, b, c)) == Octets(d) + [a, b, c] && Phase(d + Quad(a, b, c)) == 0
  {
    var p, q := FirstDigit(a), SecondDigit(a, b);
    OctetsOfDigits(d, p, q, ThirdDigit(b, c), FourthDigit(c));
    FirstOctet(Number(d), a, b);
    SecondOctet(Number(d + [p]), a, b, c);
    ThirdOctet(Number(d + [p] + [q]), b, c);
    AppendDigits(d, p, q, ThirdDigit(b, c), FourthDigit(c));
    AppendDigits(Octets(d), a, b, c, 0);
  }

  lemma {:induction false} OctetsOfEncoded(d: seq<digit>, x: seq<byte>)
    requires Phase(d) == 0
    ensures Octets(d + EncodedDigits(x)) == Octets(d) + x
    decreases |x|
  {
    hide Octets, Quad, Phase;
    if |x| >= 3 {
      var g := Quad(x[0], x[1], x[2]);
      OctetsOfGroup(d, x[0], x[1], x[2]);
      OctetsOfEncoded(d + g, x[3..]);
      assert x[..3] == [x[0], x[1], x[2]] && x == x[..3] + x[3..];
      Assoc(d, g, EncodedDigits(x[3..]));
      Assoc(Octets(d), x[..3], x[3..]);
    } else if |x| == 2 {
      OctetsOfGroup(d, x[0], x[1], 0);
      assert x == [x[0], x[1]];
    } else if |x| == 1 {
      OctetsOfGroup(d, x[0], 0, 0);
      assert x == [x[0]];
    } else {
      assert d + [] == d;
    }
  }

  /** Decoding what was encoded gives the bytes back. */
  lemma RoundTrip(x: seq<byte>)
    ensures Decoded(Encoded(x)) == x
  {
    DigitsOfEncoded(x);
    OctetsOfEncoded([], x);
    assert [] + EncodedDigits(x) == EncodedDigits(x);
  }
}
