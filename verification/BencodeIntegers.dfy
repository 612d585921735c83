/** Where the integers that the parser accepts go beyond the grammar. */
module BencodeIntegers {
  import opened Bytes
  import opened Decimal
  import opened Bencode
  import opened BencodeParser
  import opened BencodeRun
  import opened BencodeReader

  function IntegerText(numeral: seq<byte>): seq<byte> { [INT_MARK] + numeral + [END_MARK] }

  /** The parser accepts the text and reads an integer from it. */
  predicate IsAccepted(text: seq<byte>) { ParseRun(text).Ended? && ParseRun(text).result.Ok? }

  lemma ReadsAnyInteger(numeral: seq<byte>)
    requires END_MARK !in numeral && IsAccepted(IntegerText(numeral))
    ensures Stoll(numeral).Success? && ParseRun(IntegerText(numeral)).result.value == Integer(Stoll(numeral).value)
  {
    var data := IntegerText(numeral);
    assert At(data, 1, numeral + [END_MARK]);
    FindAfter(data, 1, numeral, END_MARK);
    assert data[1..|numeral| + 1] == numeral;
  }

  predicate BeginsTwo(numeral: seq<byte>, a: byte, b: byte) { |numeral| > 1 && numeral[0] == a && numeral[1] == b }

  /**
   * What becomes of any integer text: a zero in front of other bytes and a zero behind a minus are refused as such, and of the
   * rest exactly those that `std::stoll` reads are accepted.
   */
  lemma IntegerResult(numeral: seq<byte>)
    requires END_MARK !in numeral
    ensures ParseRun(IntegerText(numeral)).Ended?
    ensures var r := ParseRun(IntegerText(numeral)).result;
      && (|numeral| > 1 && numeral[0] == '0' as int ==> r == Err(LeadingZero))
      && (BeginsTwo(numeral, '-' as int, '0' as int) ==> r == Err(NegativeZero))
      && (!(|numeral| > 1 && numeral[0] == '0' as int) && !BeginsTwo(numeral, '-' as int, '0' as int) ==>
            (r.Ok? <==> Stoll(numeral).Success?) && (Stoll(numeral).Failure? ==> r == Err(BadNumber(Stoll(numeral).error)))
            && (r.Ok? ==> r == Ok(Integer(Stoll(numeral).value), |numeral| + 2)))
  {
    hide Stoll;
    var data := IntegerText(numeral);
    assert At(data, 1, numeral + [END_MARK]);
    FindAfter(data, 1, numeral, END_MARK);
    assert data[1..|numeral| + 1] == numeral;
  }

  /** An accepted integer is re-encoded to itself if and only if its numeral is minimal. */
  lemma IntegerFixedIffMinimal(numeral: seq<byte>)
    requires END_MARK !in numeral && IsAccepted(IntegerText(numeral))
    ensures Encode(ParseRun(IntegerText(numeral)).result.value) == IntegerText(numeral) <==> IsMinimalInt(numeral)
  {
    hide ParseRun;
    ReadsAnyInteger(numeral);
    var n := Stoll(numeral).value;
    assert Encode(Integer(n)) == IntegerText(PrintInt(n));
    assert IntegerText(PrintInt(n))[1..|PrintInt(n)| + 1] == PrintInt(n);
    assert IntegerText(numeral)[1..|numeral| + 1] == numeral;
    PrintIntIsMinimal(n);
    if IsMinimalInt(numeral) {
      MinimalIntIsPrinted(numeral);
      StollIsMinimal(numeral);
    }
  }

  lemma StollIsMinimal(numeral: seq<byte>)
    requires IsMinimalInt(numeral) && Stoll(numeral).Success?
    ensures Stoll(numeral).value == IntOf(numeral)
  {
    MinimalIntIsPrinted(numeral);
    RecognisePrinted(IntOf(numeral));
    var n := IntOf(numeral);
    PrintNatIsMinimal(if n < 0 then -n else n);
  }

  /** Not every accepted integer is strict: a plus sign is read, and lost in the re-encoding. */
  lemma PlusSignIsAccepted()
    ensures var s := IntegerText([PLUS, ZERO + 5]); ParseRun(s) == Ended(Ok(Integer(5), 4)) && Encode(Integer(5)) != s
  {
    var numeral: seq<byte> := [PLUS, ZERO + 5];
    var s := IntegerText(numeral);
    assert s == [INT_MARK, PLUS, ZERO + 5, END_MARK];
    assert s[1] != END_MARK && s[2] != END_MARK && s[3] == END_MARK;
    assert Find(s, 1, END_MARK) == 3;
    assert s[1..3] == numeral;
    var five: seq<byte> := [ZERO + 5];
    DigitsOfDigits(five);
    assert SkipSpace(numeral) == numeral && numeral[1..] == five;
    assert Recognise(numeral) == Numeral(false, five);
    assert five[..0] == [] && NatOf(five) == 10 * NatOf(five[..0]) + 5;
    IntegerFixedIffMinimal(numeral);
    assert !IsMinimalInt(numeral);
  }
}
