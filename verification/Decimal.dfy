/** Decimal numerals: what the stream operator prints and what `std::stoll`/`std::stoul` read. */
module Decimal {
  import opened Bytes

  const ZERO: byte := '0' as int
  const MINUS: byte := '-' as int
  const PLUS: byte := '+' as int

  predicate IsDigit(b: byte) { ZERO <= b <= ZERO + 9 }

  predicate AllDigits(s: seq<byte>) { forall i | 0 <= i < |s| :: IsDigit(s[i]) }

  /** The number a string of digits denotes. */
  function NatOf(s: seq<byte>): nat
    requires AllDigits(s)
  {
    if s == [] then 0 else 10 * NatOf(s[..|s| - 1]) + (s[|s| - 1] - ZERO)
  }

  /** A numeral without superfluous leading zeros. */
  predicate IsMinimalNat(s: seq<byte>) {
    s != [] && AllDigits(s) && (|s| > 1 ==> s[0] != ZERO)
  }

  /** A signed numeral without superfluous leading zeros and without a negative zero. */
  predicate IsMinimalInt(s: seq<byte>) {
    IsMinimalNat(s) || (|s| > 1 && s[0] == MINUS && s[1] != ZERO && IsMinimalNat(s[1..]))
  }

  function IntOf(s: seq<byte>): int
    requires IsMinimalInt(s)
  {
    if s[0] == MINUS then 0 - NatOf(s[1..]) else NatOf(s)
  }

  /** How an unsigned number is printed. */
  function PrintNat(n: nat): (s: seq<byte>) {
    if n < 10 then [ZERO + n] else PrintNat(n / 10) + [ZERO + n % 10]
  }

  /** How a signed number is printed. */
  function PrintInt(n: int): (s: seq<byte>) {
    if n < 0 then [MINUS] + PrintNat(-n) else PrintNat(n)
  }

  lemma {:induction false} PrintNatIsMinimal(n: nat)
    ensures IsMinimalNat(PrintNat(n)) && NatOf(PrintNat(n)) == n
    ensures n != 0 ==> PrintNat(n)[0] != ZERO
  {
    if n >= 10 {
      PrintNatIsMinimal(n / 10);
      var s := PrintNat(n);
      assert s[..|s| - 1] == PrintNat(n / 10);
    } else {
      assert PrintNat(n)[..0] == [];
    }
  }

  lemma {:induction false} MinimalNatIsPrinted(s: seq<byte>)
    requires IsMinimalNat(s)
    ensures PrintNat(NatOf(s)) == s
    ensures |s| > 1 ==> NatOf(s) >= 10
  {
    var init := s[..|s| - 1];
    assert s == init + [s[|s| - 1]];
    if |s| == 1 {
      assert NatOf(init) == 0;
    } else {
      MinimalNatIsPrinted(init);
      assert init[0] != ZERO;
      if |init| == 1 {
        assert init[..0] == [];
      }
    }
  }

  /** The printed form is the one minimal numeral of each number. */
  lemma PrintIntIsMinimal(n: int)
    ensures IsMinimalInt(PrintInt(n)) && IntOf(PrintInt(n)) == n
  {
    PrintNatIsMinimal(if n < 0 then -n else n);
    if n < 0 {
      assert PrintInt(n)[1..] == PrintNat(-n);
    }
  }

  lemma MinimalIntIsPrinted(s: seq<byte>)
    requires IsMinimalInt(s)
    ensures PrintInt(IntOf(s)) == s
  {
    if s[0] == MINUS {
      var digits := s[1..];
      MinimalNatIsPrinted(digits);
      if |digits| == 1 {
        assert digits[..0] == [];
      }
      assert s == [MINUS] + digits;
    } else {
      MinimalNatIsPrinted(s);
    }
  }

  /** A printed number is no longer than any numeral of the same number. */
  lemma {:induction false} PrintNatIsShortest(s: seq<byte>)
    requires s != [] && AllDigits(s)
    ensures |PrintNat(NatOf(s))| <= |s|
  {
    var init := s[..|s| - 1];
    if |s| == 1 {
      assert NatOf(init) == 0;
    } else {
      PrintNatIsShortest(init);
    }
  }

  // ----- std::stoll and std::stoul -----

  /** `std::isspace` in the C locale. */
  predicate IsSpace(b: byte) { b == 32 || 9 <= b <= 13 }

  function SkipSpace(s: seq<byte>): (r: seq<byte>)
    ensures |r| <= |s|
  {
    if s != [] && IsSpace(s[0]) then SkipSpace(s[1..]) else s
  }

  /** The longest prefix of digits. */
  function Digits(s: seq<byte>): (r: seq<byte>)
    ensures AllDigits(r) && |r| <= |s|
  {
    if s != [] && IsDigit(s[0]) then [s[0]] + Digits(s[1..]) else []
  }

  datatype Numeral = NoDigits | Numeral(negative: bool, digits: seq<byte>)

  /** What the C conversion functions recognise: white space, a sign, digits; the rest is ignored. */
  function Recognise(s: seq<byte>): (r: Numeral)
    ensures r.Numeral? ==> r.digits != [] && AllDigits(r.digits)
    ensures r.Numeral? ==> |r.digits| + (if r.negative then 1 else 0) <= |s|
  {
    var t := SkipSpace(s);
    var signed := t != [] && (t[0] == MINUS || t[0] == PLUS);
    var digits := Digits(if signed then t[1..] else t);
    if digits == [] then NoDigits else Numeral(signed && t[0] == MINUS, digits)
  }

  datatype NumberError = InvalidArgument | OutOfRange

  /** `std::stoll`. */
  function Stoll(s: seq<byte>): (r: Result<int, NumberError>)
    ensures r.Success? ==> -TWO_63 <= r.value < TWO_63
  {
    match Recognise(s)
    case NoDigits => Failure(InvalidArgument)
    case Numeral(negative, digits) =>
      var n := if negative then 0 - NatOf(digits) else NatOf(digits);
      if -TWO_63 <= n < TWO_63 then Success(n) else Failure(OutOfRange)
  }

  /** `std::stoul`: a negative numeral is accepted and negated modulo 2^64. */
  function Stoul(s: seq<byte>): (r: Result<nat, NumberError>)
    ensures r.Success? ==> r.value < TWO_64
  {
    match Recognise(s)
    case NoDigits => Failure(InvalidArgument)
    case Numeral(negative, digits) =>
      var n := NatOf(digits);
      if n >= TWO_64 then Failure(OutOfRange)
      else if negative && n > 0 then Success(TWO_64 - n) else Success(n)
  }

  lemma DigitsOfDigits(s: seq<byte>)
    requires AllDigits(s)
    ensures Digits(s) == s
  {
    if s != [] {
      DigitsOfDigits(s[1..]);
      assert s == [s[0]] + s[1..];
    }
  }

  lemma RecogniseDigits(digits: seq<byte>)
    requires digits != [] && AllDigits(digits)
    ensures Recognise(digits) == Numeral(false, digits)
    ensures Recognise([MINUS] + digits) == Numeral(true, digits)
  {
    DigitsOfDigits(digits);
    assert IsDigit(digits[0]);
    assert SkipSpace(digits) == digits;
    var s := [MINUS] + digits;
    assert SkipSpace(s) == s && s[1..] == digits;
  }

  lemma RecognisePrinted(n: int)
    ensures Recognise(PrintInt(n)) == Numeral(n < 0, PrintNat(if n < 0 then -n else n))
  {
    PrintNatIsMinimal(if n < 0 then -n else n);
    RecogniseDigits(PrintNat(if n < 0 then -n else n));
  }

  lemma StollReadsPrinted(n: int)
    requires -TWO_63 <= n < TWO_63
    ensures Stoll(PrintInt(n)) == Success(n)
  {
    RecognisePrinted(n);
    PrintNatIsMinimal(if n < 0 then -n else n);
  }

  lemma StoulReadsPrinted(n: nat)
    requires n < TWO_64
    ensures Stoul(PrintNat(n)) == Success(n)
  {
    RecognisePrinted(n);
    PrintNatIsMinimal(n);
  }

  /** Re-printing what was read never takes more room than the text read. */
  lemma StollShortest(s: seq<byte>)
    requires Stoll(s).Success?
    ensures |PrintInt(Stoll(s).value)| <= |s|
  {
    PrintNatIsShortest(Recognise(s).digits);
  }

  lemma PrintNatMonotone(a: nat, b: nat)
    requires a <= b
    ensures |PrintNat(a)| <= |PrintNat(b)|
  {
    if a >= 10 {
      PrintNatMonotone(a / 10, b / 10);
    }
  }

  lemma StoulShortest(s: seq<byte>)
    requires Stoul(s).Success? && Stoul(s).value < TWO_63
    ensures |PrintNat(Stoul(s).value)| <= |s|
  {
    var digits := Recognise(s).digits;
    PrintNatIsShortest(digits);
    if NatOf(digits) != Stoul(s).value {
      PrintNatMonotone(Stoul(s).value, NatOf(digits));
    }
  }
}
