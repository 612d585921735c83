/** Where the errors of strings are reported: right behind the byte that is wrong, or where something is missing. */
module JsonErrors {
  import opened Bytes
  import opened Json
  import opened JsonParser
  import opened JsonStrings
  import JsonGrammar
  import JsonAccepts

  /** A string up to some place: its quote, bytes that stand for themselves, and what follows them. */
  function Begun(s: seq<byte>, rest: seq<byte>): seq<byte> { [QUOTE] + s + rest }

  lemma {:induction false} PlainIsRead(s: seq<byte>, rest: seq<byte>, k: nat)
    requires k <= |s| && forall c | c in s :: NeedsNoEscape(c)
    ensures ParseChars(Begun(s, rest), 1, []) == ParseChars(Begun(s, rest), 1 + k, s[..k])
  {
    if k > 0 {
      PlainIsRead(s, rest, k - 1);
      var data := Begun(s, rest);
      assert data[k] == s[k - 1] && s[k - 1] in s;
      assert s[..k] == s[..k - 1] + [s[k - 1]];
    }
  }

  /** The parse of a string that begins like this is that of its rest. */
  lemma RestDecides(s: seq<byte>, rest: seq<byte>, error: JsonError)
    requires forall c | c in s :: NeedsNoEscape(c)
    requires ParseChars(Begun(s, rest), 1 + |s|, s) == Err(error)
    ensures Parse(Begun(s, rest)) == Err(error)
  {
    hide Parse, ParseChars;
    PlainIsRead(s, rest, |s|);
    assert s[..|s|] == s;
    QuoteDecides(Begun(s, rest), error);
  }

  lemma QuoteDecides(data: seq<byte>, error: JsonError)
    requires data != [] && data[0] == QUOTE && ParseChars(data, 1, []) == Err(error)
    ensures Parse(data) == Err(error)
  {
    hide ParseChars, ParseItems, ParseMembers, ParseNumber, ParseLiteral;
    assert SkipWs(data, 0) == 0;
    assert ParseString(data, 0) == Err(error);
    assert ParseValue(data, 0) == Err(error);
  }

  /** The letters that may stand behind a backslash. */
  predicate IsEscapeLetter(c: byte) {
    c in {'"' as int, 92, '/' as int, 'b' as int, 'f' as int, 'n' as int, 'r' as int, 't' as int, 'u' as int}
  }

  /** Errors at one byte: the end of the text, a control character, a backslash at the end, a wrong letter behind one. */
  lemma SimpleErrors(s: seq<byte>, rest: seq<byte>)
    requires forall c | c in s :: NeedsNoEscape(c)
    ensures rest == [] ==> Parse(Begun(s, rest)) == Err(JsonError(|s| + 1, UnterminatedString))
    ensures rest != [] && rest[0] < 0x20 ==> Parse(Begun(s, rest)) == Err(JsonError(|s| + 2, ControlCharacter))
    ensures rest == [92] ==> Parse(Begun(s, rest)) == Err(JsonError(|s| + 2, UnterminatedEscape))
    ensures |rest| >= 2 && rest[0] == 92 && !IsEscapeLetter(rest[1]) ==>
      Parse(Begun(s, rest)) == Err(JsonError(|s| + 3, InvalidEscape))
  {
    var data := Begun(s, rest);
    if rest == [] {
      RestDecides(s, rest, JsonError(|s| + 1, UnterminatedString));
    } else {
      assert data[|s| + 1] == rest[0];
      if rest[0] < 0x20 {
        RestDecides(s, rest, JsonError(|s| + 2, ControlCharacter));
      } else if rest == [92] {
        RestDecides(s, rest, JsonError(|s| + 2, UnterminatedEscape));
      } else if |rest| >= 2 && rest[0] == 92 && !IsEscapeLetter(rest[1]) {
        assert data[|s| + 2] == rest[1];
        RestDecides(s, rest, JsonError(|s| + 3, InvalidEscape));
      }
    }
  }

  lemma CodepointDecides(s: seq<byte>, rest: seq<byte>, error: JsonError)
    requires forall c | c in s :: NeedsNoEscape(c)
    requires |rest| >= 2 && rest[0] == 92 && rest[1] == 'u' as int && ParseCodepoint(Begun(s, rest), |s| + 3) == Err(error)
    ensures Parse(Begun(s, rest)) == Err(error)
  {
    hide ParseCodepoint;
    var data := Begun(s, rest);
    assert data[|s| + 1] == rest[0] && data[|s| + 2] == rest[1];
    RestDecides(s, rest, error);
  }

  predicate IsHexDigit(c: byte) { JsonGrammar.HexOf(c) >= 0 }

  /** Errors of the digits of an escape: too few bytes, or one that is no digit. */
  lemma DigitErrors(s: seq<byte>, rest: seq<byte>)
    requires forall c | c in s :: NeedsNoEscape(c)
    requires |rest| >= 2 && rest[0] == 92 && rest[1] == 'u' as int
    ensures |rest| < 6 ==> Parse(Begun(s, rest)) == Err(JsonError(|s| + 3, IncompleteUnicode))
    ensures |rest| >= 6 && (exists k :: 2 <= k < 6 && !IsHexDigit(rest[k])) ==>
      Parse(Begun(s, rest)) == Err(JsonError(|s| + 3, InvalidHex))
  {
    var data := Begun(s, rest);
    if |rest| < 6 {
      CodepointDecides(s, rest, JsonError(|s| + 3, IncompleteUnicode));
    } else if k :| 2 <= k < 6 && !IsHexDigit(rest[k]) {
      assert data[|s| + 3 + (k - 2)] == rest[k];
      NoHex(data, |s| + 3, k - 1, 4);
      CodepointDecides(s, rest, JsonError(|s| + 3, InvalidHex));
    }
  }

  /** Errors of pairs: no escape behind a high surrogate, or one that is not of a low surrogate. */
  lemma PairErrors(s: seq<byte>, rest: seq<byte>, high: nat)
    requires (forall c | c in s :: NeedsNoEscape(c)) && JsonGrammar.IsHigh(high)
    requires JsonGrammar.UnitAt(high, Begun(s, rest), |s| + 1)
    ensures |rest| < 8 || rest[6] != 92 || rest[7] != 'u' as int ==>
      Parse(Begun(s, rest)) == Err(JsonError(|s| + 7, MissingLowSurrogate))
    ensures forall low: nat | JsonGrammar.UnitAt(low, Begun(s, rest), |s| + 7) && !JsonGrammar.IsLow(low) ::
      Parse(Begun(s, rest)) == Err(JsonError(|s| + 13, InvalidLowSurrogate))
  {
    hide Parse, ParseChars, ParseCodeUnit, JsonGrammar.UnitAt;
    var data := Begun(s, rest);
    JsonAccepts.UnitFits(high, data, |s| + 1);
    assert data[|s| + 1] == rest[0] && data[|s| + 2] == rest[1];
    assert |rest| >= 8 ==> data[|s| + 7] == rest[6] && data[|s| + 8] == rest[7];
    JsonAccepts.UnitIsRead(data, |s| + 1);
    if |rest| < 8 || rest[6] != 92 || rest[7] != 'u' as int {
      CodepointDecides(s, rest, JsonError(|s| + 7, MissingLowSurrogate));
    }
    forall low: nat | JsonGrammar.UnitAt(low, data, |s| + 7) && !JsonGrammar.IsLow(low)
      ensures Parse(data) == Err(JsonError(|s| + 13, InvalidLowSurrogate))
    {
      JsonAccepts.UnitFits(low, data, |s| + 7);
      JsonAccepts.UnitIsRead(data, |s| + 7);
      CodepointDecides(s, rest, JsonError(|s| + 13, InvalidLowSurrogate));
    }
  }
}
