/** Which strings of JSON texts are UTF-8. */
module JsonStrings {
  import opened Bytes
  import opened Json
  import opened JsonParser
  import opened Utf8Text
  import Utf8
  import Decimal

  /** Some escape in the rest of a string is a low surrogate on its own. */
  predicate HasLoneSurrogate(data: seq<byte>, pos: nat)
    requires pos <= |data|
    decreases |data| - pos
  {
    if pos == |data| || data[pos] == QUOTE then false
    else if data[pos] != BACKSLASH then HasLoneSurrogate(data, pos + 1)
    else if pos + 1 == |data| then false
    else if data[pos + 1] != 117 then HasLoneSurrogate(data, pos + 2)
    else IsLone(data, pos + 2) || (ParseCodepoint(data, pos + 2).Ok? && HasLoneSurrogate(data, ParseCodepoint(data, pos + 2).next))
  }

  /** The four digits at `pos` are those of a low surrogate. */
  predicate IsLone(data: seq<byte>, pos: nat) {
    ParseCodeUnit(data, pos).Ok? && LowSurrogate(ParseCodeUnit(data, pos).value)
  }

  /** From the start, an emitted code point leads back to it, unless it is a surrogate; elsewhere it breaks the scan. */
  lemma EmittedScans(scan: Scan, codepoint: nat)
    requires codepoint <= Utf8.MAX_CODEPOINT && IsBetween(scan)
    ensures var after := After(scan, Utf8.Emitted(codepoint));
      after == if scan == START && !Utf8.Surrogate(codepoint) then START else Broken
  {
    var s := Utf8.Emitted(codepoint);
    Utf8.EmittedIsUtf8(codepoint);
    if scan != START {
      assert s[0] <= 0x7F || s[0] >= 0xC0;
      BrokenStays(s[1..]);
    } else if !Utf8.Surrogate(codepoint) {
      CharacterScans(s);
    } else {
      SurrogateBreaks(codepoint);
    }
  }

  lemma SurrogateBreaks(codepoint: nat)
    requires Utf8.Surrogate(codepoint)
    ensures After(START, Utf8.Emitted(codepoint)) == Broken
  {
    var s := Utf8.Emitted(codepoint);
    assert codepoint / 0x1000 == 13 && codepoint / 64 % 64 >= 32;
    assert s[0] == 0xED && s[1] >= 0xA0;
    AfterFour(START, s);
  }

  /** A scan that awaits something awaits tail bytes. */
  predicate IsBetween(scan: Scan) {
    scan.Await? ==> (scan.tails == 0 ==> scan == START) && (scan.tails > 0 ==> 0x80 <= scan.low && scan.high <= 0xBF)
  }

  lemma BetweenStays(scan: Scan, b: byte)
    requires IsBetween(scan)
    ensures IsBetween(Next(scan, b))
  {
  }

  /** The text of an escape is ASCII. */
  predicate IsAscii(s: seq<byte>) { forall i | 0 <= i < |s| :: s[i] <= 0x7F }

  lemma {:induction false} AsciiScans(scan: Scan, s: seq<byte>)
    requires IsAscii(s) && s != [] && IsBetween(scan)
    ensures After(scan, s) == if scan == START then START else Broken
    decreases |s|
  {
    if scan == START {
      assert Next(scan, s[0]) == START;
      if s[1..] != [] {
        AsciiScans(START, s[1..]);
      }
    } else {
      assert Next(scan, s[0]) == Broken;
      BrokenStays(s[1..]);
    }
  }

  // ----- from the text of a string to the string -----

  /** What the escapes of one letter stand for is ASCII. */
  lemma SimpleIsAscii(c: byte)
    requires SimpleEscape(c).Some?
    ensures c <= 0x7F && SimpleEscape(c).value <= 0x7F
  {
  }

  /** The digits of an accepted escape, and those of the second half of a pair, are ASCII. */
  lemma EscapeIsAscii(data: seq<byte>, pos: nat, next: nat)
    requires pos + 2 <= |data| && data[pos] == BACKSLASH && data[pos + 1] == 117
    requires ParseCodepoint(data, pos + 2).Ok? && next == ParseCodepoint(data, pos + 2).next
    ensures pos < next <= |data| && IsAscii(data[pos..next])
  {
    UnitIsAscii(data, pos + 2, 4);
    if next != pos + 6 {
      UnitIsAscii(data, pos + 8, 4);
    }
  }

  lemma {:induction false} UnitIsAscii(data: seq<byte>, pos: nat, n: nat)
    requires n <= 4 && pos + 4 <= |data| && HexPrefix(data, pos, n).Some?
    ensures forall i | pos <= i < pos + n :: data[i] <= 0x7F
  {
    if n > 0 {
      UnitIsAscii(data, pos, n - 1);
    }
  }

  /** An accepted escape is a surrogate exactly if it is a low surrogate on its own. */
  lemma SurrogateIsLone(data: seq<byte>, pos: nat)
    requires ParseCodepoint(data, pos).Ok?
    ensures Utf8.Surrogate(ParseCodepoint(data, pos).value) <==> IsLone(data, pos)
  {
  }

  /** The part of a scan that an escape takes: its text, and what it stands for. */
  lemma EscapeScans(scan: Scan, text: seq<byte>, codepoint: nat, rest: seq<byte>)
    requires IsBetween(scan) && text != [] && IsAscii(text) && codepoint <= Utf8.MAX_CODEPOINT
    ensures IsBetween(After(scan, Utf8.Emitted(codepoint)))
    ensures After(scan, text + rest) == START && !Utf8.Surrogate(codepoint)
       <==> After(After(scan, Utf8.Emitted(codepoint)), rest) == START
  {
    AfterParts(scan, text, rest);
    AsciiScans(scan, text);
    EmittedScans(scan, codepoint);
    BrokenStays(rest);
  }

  /** The string so far may end within a character; `scan` says where it is. */
  lemma {:induction false} CharsScan(data: seq<byte>, pos: nat, out: seq<byte>, scan: Scan)
    requires pos <= |data| && ParseChars(data, pos, out).Ok? && scan == After(START, out) && IsBetween(scan)
    ensures After(START, ParseChars(data, pos, out).value) == START
       <==> After(scan, data[pos..ParseChars(data, pos, out).next - 1]) == START && !HasLoneSurrogate(data, pos)
    decreases |data| - pos
  {
    hide ParseCodepoint, SimpleEscape, Utf8.Emitted;
    var end := ParseChars(data, pos, out).next - 1;
    if data[pos] == QUOTE {
      assert data[pos..end] == [];
    } else if data[pos] != BACKSLASH {
      var c := data[pos];
      AfterParts(START, out, [c]);
      AfterOne(scan, c);
      BetweenStays(scan, c);
      CharsScan(data, pos + 1, out + [c], Next(scan, c));
      assert data[pos..end][0] == c && data[pos..end][1..] == data[pos + 1..end];
    } else {
      var next, codepoint := Escape(data, pos, out);
      var emitted := Utf8.Emitted(codepoint);
      AfterParts(START, out, emitted);
      EscapeScans(scan, data[pos..next], codepoint, data[next..end]);
      CharsScan(data, next, out + emitted, After(scan, emitted));
      assert data[pos..end] == data[pos..next] + data[next..end];
    }
  }

  /** An escape of either kind as a code point. */
  lemma Escape(data: seq<byte>, pos: nat, out: seq<byte>) returns (next: nat, codepoint: nat)
    requires pos < |data| && ParseChars(data, pos, out).Ok? && data[pos] == BACKSLASH
    ensures pos < next < ParseChars(data, pos, out).next <= |data| && codepoint <= Utf8.MAX_CODEPOINT
    ensures IsAscii(data[pos..next])
    ensures ParseChars(data, pos, out) == ParseChars(data, next, out + Utf8.Emitted(codepoint))
    ensures HasLoneSurrogate(data, pos) <==> Utf8.Surrogate(codepoint) || HasLoneSurrogate(data, next)
  {
    if data[pos + 1] == 117 {
      codepoint, next := ParseCodepoint(data, pos + 2).value, ParseCodepoint(data, pos + 2).next;
      EscapeIsAscii(data, pos, next);
      SurrogateIsLone(data, pos + 2);
    } else {
      codepoint, next := SimpleEscape(data[pos + 1]).value, pos + 2;
      SimpleIsAscii(data[pos + 1]);
      assert Utf8.Emitted(codepoint) == [codepoint];
    }
  }

  /**
   * An accepted string is UTF-8 if and only if what stands between its quotes is, and no escape in it is a low
   * surrogate on its own.
   */
  lemma StringIsUtf8Iff(data: seq<byte>, pos: nat)
    requires pos <= |data| && ParseString(data, pos).Ok?
    ensures pos + 1 < ParseString(data, pos).next
    ensures IsUtf8(ParseString(data, pos).value)
       <==> IsUtf8(data[pos + 1..ParseString(data, pos).next - 1]) && !HasLoneSurrogate(data, pos + 1)
  {
    CharsScan(data, pos + 1, [], START);
    ScanIsExact(ParseString(data, pos).value);
    ScanIsExact(data[pos + 1..ParseString(data, pos).next - 1]);
  }

  /** A byte that is not UTF-8 is accepted as it stands: the three bytes 22 FF 22 (hexadecimal). */
  lemma RawByteIsAccepted(text: seq<byte>)
    requires text == [QUOTE, 0xFF, QUOTE]
    ensures Parse(text) == Ok(Str([0xFF]), 3) && !IsUtf8([0xFF])
  {
    assert Peek(text, 0) == QUOTE && !Decimal.IsSpace(text[0]) && text[1] != BACKSLASH;
    assert ParseChars(text, 2, [0xFF]) == Ok([0xFF], 3);
    assert [] + [text[1]] == [0xFF];
    assert ParseChars(text, 1, []) == ParseChars(text, 2, [0xFF]);
    assert ParseString(text, 0) == Ok([0xFF], 3);
    assert ParseValue(text, 0) == Ok(Str([0xFF]), 3);
    assert SkipWs(text, 0) == 0;
    assert SkipWs(text, 3) == 3;
    ScanIsExact([0xFF]);
    AfterOne(START, 0xFF);
  }

  // ----- what is escaped when a string is written -----

  /** The bytes that a string need not escape: all but quotes, backslashes and control characters. */
  predicate NeedsNoEscape(c: byte) { c >= 0x20 && c != QUOTE && c != BACKSLASH }

  /** Without the option for solidi, no byte is escaped without need, and so a string without such bytes is written as it is. */
  lemma {:induction false} NothingElseIsEscaped(s: seq<byte>, k: nat)
    requires k <= |s| && forall c | c in s :: NeedsNoEscape(c)
    ensures EscapedString(s, k, false) == s[k..]
    decreases |s| - k
  {
    if k < |s| {
      assert s[k] in s;
      NothingElseIsEscaped(s, k + 1);
    }
  }

  /** The bytes with an escape of their own: quote, backslash, backspace, form feed, line feed, carriage return and tab. */
  lemma ShortEscapes(escapeSolidus: bool)
    ensures EscapedString([QUOTE], 0, escapeSolidus) == Ascii("\\\"") && EscapedString([BACKSLASH], 0, escapeSolidus) == Ascii("\\\\")
    ensures EscapedString([8], 0, escapeSolidus) == Ascii("\\b") && EscapedString([12], 0, escapeSolidus) == Ascii("\\f")
    ensures EscapedString([10], 0, escapeSolidus) == Ascii("\\n") && EscapedString([13], 0, escapeSolidus) == Ascii("\\r")
    ensures EscapedString([9], 0, escapeSolidus) == Ascii("\\t") && EscapedString([SOLIDUS], 0, true) == Ascii("\\/")
  {
    hide HexDigit;
  }

  function Solidi(s: seq<byte>, k: nat): set<int> { set i | k <= i < |s| && s[i] == SOLIDUS }

  lemma SolidiFrom(s: seq<byte>, k: nat)
    requires k < |s|
    ensures |Solidi(s, k)| == |Solidi(s, k + 1)| + (if s[k] == SOLIDUS then 1 else 0)
    ensures Solidi(s, k) == {} ==> s[k] != SOLIDUS && Solidi(s, k + 1) == {}
  {
    assert Solidi(s, k) == Solidi(s, k + 1) + (if s[k] == SOLIDUS then {k} else {});
  }

  /** The option costs one byte for each solidus, and nothing else. */
  lemma {:induction false} SolidiAreEscaped(s: seq<byte>, k: nat)
    requires k <= |s|
    ensures |EscapedString(s, k, true)| == |EscapedString(s, k, false)| + |Solidi(s, k)|
    ensures Solidi(s, k) == {} ==> EscapedString(s, k, true) == EscapedString(s, k, false)
    decreases |s| - k
  {
    hide Solidi, HexDigit;
    if k < |s| {
      SolidiAreEscaped(s, k + 1);
      SolidiFrom(s, k);
    } else {
      NoSolidi(s);
    }
  }

  lemma NoSolidi(s: seq<byte>)
    ensures Solidi(s, |s|) == {}
  {
  }
}
