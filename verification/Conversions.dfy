/** Exactly which texts `std::stoll` and `std::stoul` read, and what they make of them. */
module Conversions {
  import opened Bytes
  import opened Decimal

  /** The six characters of white space of the C locale. */
  predicate IsBlank(b: byte) { b in {9, 10, 11, 12, 13, 32} }

  /** White space, an optional sign, all the digits there are, and the rest. */
  predicate AreParts(s: seq<byte>, spaces: seq<byte>, sign: seq<byte>, digits: seq<byte>, rest: seq<byte>) {
    && s == spaces + sign + digits + rest
    && (forall c | c in spaces :: IsBlank(c))
    && (sign == [] || sign == ['+' as int] || sign == ['-' as int])
    && digits != [] && AllDigits(digits) && (rest != [] ==> !IsDigit(rest[0]))
  }

  lemma {:induction false} SpacesAreSkipped(spaces: seq<byte>, rest: seq<byte>)
    requires (forall c | c in spaces :: IsBlank(c)) && (rest != [] ==> !IsBlank(rest[0]))
    ensures SkipSpace(spaces + rest) == rest
  {
    if spaces == [] {
      assert spaces + rest == rest;
    } else {
      assert spaces[0] in spaces && (spaces + rest)[1..] == spaces[1..] + rest;
      SpacesAreSkipped(spaces[1..], rest);
    }
  }

  lemma {:induction false} SkippedIsSpaces(s: seq<byte>) returns (spaces: seq<byte>)
    ensures s == spaces + SkipSpace(s) && forall c | c in spaces :: IsBlank(c)
  {
    spaces := [];
    if s != [] && IsSpace(s[0]) {
      var more := SkippedIsSpaces(s[1..]);
      spaces := [s[0]] + more;
      assert s == [s[0]] + s[1..];
    }
  }

  lemma {:induction false} DigitsAreTaken(digits: seq<byte>, rest: seq<byte>)
    requires AllDigits(digits) && (rest != [] ==> !IsDigit(rest[0]))
    ensures Digits(digits + rest) == digits
  {
    if digits == [] {
      assert digits + rest == rest;
    } else {
      assert (digits + rest)[1..] == digits[1..] + rest;
      DigitsAreTaken(digits[1..], rest);
    }
  }

  lemma {:induction false} TakenAreDigits(s: seq<byte>) returns (rest: seq<byte>)
    ensures s == Digits(s) + rest && (rest != [] ==> !IsDigit(rest[0]))
  {
    if s != [] && IsDigit(s[0]) {
      rest := TakenAreDigits(s[1..]);
      assert s == [s[0]] + s[1..];
    } else {
      rest := s;
    }
  }

  lemma PartsAreRecognised(s: seq<byte>, spaces: seq<byte>, sign: seq<byte>, digits: seq<byte>, rest: seq<byte>)
    requires AreParts(s, spaces, sign, digits, rest)
    ensures Recognise(s) == Numeral(sign == ['-' as int], digits)
  {
    var behind := sign + digits + rest;
    assert s == spaces + behind;
    assert digits[0] in digits;
    assert behind[0] == if sign == [] then digits[0] else sign[0];
    SpacesAreSkipped(spaces, behind);
    assert sign != [] ==> behind[1..] == digits + rest;
    assert sign == [] ==> behind == digits + rest;
    DigitsAreTaken(digits, rest);
  }

  lemma RecognisedHasParts(s: seq<byte>) returns (spaces: seq<byte>, sign: seq<byte>, digits: seq<byte>, rest: seq<byte>)
    requires Recognise(s).Numeral?
    ensures AreParts(s, spaces, sign, digits, rest)
  {
    hide SkipSpace, Digits, AllDigits, IsBlank;
    spaces := SkippedIsSpaces(s);
    var t := SkipSpace(s);
    var signed := t != [] && (t[0] == MINUS || t[0] == PLUS);
    sign := if signed then [t[0]] else [];
    var behind := if signed then t[1..] else t;
    digits := Digits(behind);
    rest := TakenAreDigits(behind);
    assert t == sign + behind;
    Joined(spaces, sign, digits, rest);
  }

  lemma Joined(spaces: seq<byte>, sign: seq<byte>, digits: seq<byte>, rest: seq<byte>)
    ensures spaces + (sign + (digits + rest)) == spaces + sign + digits + rest
  {
  }

  /** What both conversions make of a text with a numeral, and that they refuse every other one. */
  lemma ConversionsOf(s: seq<byte>, spaces: seq<byte>, sign: seq<byte>, digits: seq<byte>, rest: seq<byte>)
    requires AreParts(s, spaces, sign, digits, rest)
    ensures var n: int := if sign == ['-' as int] then 0 - NatOf(digits) else NatOf(digits);
      && Stoll(s) == (if -0x8000_0000_0000_0000 <= n <= 0x7FFF_FFFF_FFFF_FFFF then Success(n) else Failure(OutOfRange))
      && Stoul(s) == (if NatOf(digits) <= 0xFFFF_FFFF_FFFF_FFFF then Success(n % TWO_64) else Failure(OutOfRange))
  {
    hide Recognise, NatOf;
    PartsAreRecognised(s, spaces, sign, digits, rest);
  }

  lemma NoNumeralIsRefused(s: seq<byte>)
    requires forall spaces, sign, digits, rest :: !AreParts(s, spaces, sign, digits, rest)
    ensures Stoll(s) == Failure(InvalidArgument) && Stoul(s) == Failure(InvalidArgument)
  {
    hide Recognise;
    if Recognise(s).Numeral? {
      var spaces, sign, digits, rest := RecognisedHasParts(s);
    }
  }
}
