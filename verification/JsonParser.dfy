/** The JSON parser: what it makes of every text, and the object that does it. */
module JsonParser {
  import opened Bytes
  import opened Decimal
  import opened Json
  import Utf8

  datatype Problem =
    | TrailingCharacters
    | UnexpectedCharacter
    | InvalidLiteral
    | IncompleteUnicode
    | InvalidHex
    | MissingLowSurrogate
    | InvalidLowSurrogate
    | ExpectedQuote
    | ControlCharacter
    | UnterminatedEscape
    | InvalidEscape
    | UnterminatedString
    | InvalidNumber
    | InvalidFraction
    | InvalidExponent
    | ExpectedArrayComma
    | ExpectedColon
    | ExpectedObjectComma

  datatype JsonError = JsonError(position: nat, problem: Problem)

  datatype Parsed<+T> = Ok(value: T, next: nat) | Err(error: JsonError)

  // ----- characters -----

  /** The byte at a position, NUL at the end. */
  function Peek(data: seq<byte>, pos: nat): byte { if pos < |data| then data[pos] else 0 }

  function SkipWs(data: seq<byte>, pos: nat): (r: nat)
    requires pos <= |data|
    ensures pos <= r <= |data| && (r < |data| ==> !IsSpace(data[r]))
    decreases |data| - pos
  {
    if pos < |data| && IsSpace(data[pos]) then SkipWs(data, pos + 1) else pos
  }

  function SkipDigits(data: seq<byte>, pos: nat): (r: nat)
    requires pos <= |data|
    ensures pos <= r <= |data| && !IsDigit(Peek(data, r))
    ensures forall k | pos <= k < r :: IsDigit(data[k])
    decreases |data| - pos
  {
    if IsDigit(Peek(data, pos)) then SkipDigits(data, pos + 1) else pos
  }

  function HexValue(c: byte): int {
    if 48 <= c <= 57 then c - 48
    else if 97 <= c <= 102 then 10 + (c - 97)
    else if 65 <= c <= 70 then 10 + (c - 65)
    else -1
  }

  // ----- the parse of every text, as a function of the position -----

  /** The first `n` bytes of a literal stand at a position: `input.compare` byte by byte. */
  predicate Matches(data: seq<byte>, pos: nat, literal: seq<byte>, n: nat)
    requires n <= |literal|
  {
    n == 0 || (Matches(data, pos, literal, n - 1) && pos + n - 1 < |data| && data[pos + n - 1] == literal[n - 1])
  }

  function ParseLiteral(data: seq<byte>, pos: nat, literal: seq<byte>, value: JSON): (r: Parsed<JSON>)
    requires pos <= |data| && literal != []
    ensures r.Ok? ==> pos < r.next <= |data|
  {
    if Matches(data, pos, literal, |literal|) then Ok(value, pos + |literal|) else Err(JsonError(pos, InvalidLiteral))
  }

  /** The first `n` of four hexadecimal digits. */
  function HexPrefix(data: seq<byte>, pos: nat, n: nat): (r: Option<nat>)
    requires n <= 4 && pos + 4 <= |data|
    ensures r.Some? ==> r.value < (if n == 4 then 0x1_0000 else if n == 3 then 0x1000 else if n == 2 then 256 else if n == 1 then 16 else 1)
  {
    if n == 0 then Some(0)
    else
      var before := HexPrefix(data, pos, n - 1);
      var v := HexValue(data[pos + n - 1]);
      if before.None? || v < 0 then None else Some(16 * before.value + v)
  }

  function ParseCodeUnit(data: seq<byte>, pos: nat): (r: Parsed<nat>)
    ensures r.Ok? ==> pos + 4 == r.next <= |data| && r.value < 0x1_0000
  {
    if pos + 4 > |data| then Err(JsonError(pos, IncompleteUnicode))
    else
      match HexPrefix(data, pos, 4)
      case None => Err(JsonError(pos, InvalidHex))
      case Some(unit) => Ok(unit, pos + 4)
  }

  predicate HighSurrogate(unit: nat) { 0xD800 <= unit <= 0xDBFF }
  predicate LowSurrogate(unit: nat) { 0xDC00 <= unit <= 0xDFFF }

  /** The code point of an escape, its four digits starting at `pos`. */
  function ParseCodepoint(data: seq<byte>, pos: nat): (r: Parsed<nat>)
    ensures r.Ok? ==> pos + 4 <= r.next <= |data| && r.value <= Utf8.MAX_CODEPOINT
  {
    match ParseCodeUnit(data, pos)
    case Err(error) => Err(error)
    case Ok(unit, p) =>
      if !HighSurrogate(unit) then Ok(unit, p)
      else if p + 2 > |data| || data[p] != BACKSLASH || data[p + 1] != 117 then Err(JsonError(p, MissingLowSurrogate))
      else
        match ParseCodeUnit(data, p + 2)
        case Err(error) => Err(error)
        case Ok(low, q) =>
          if !LowSurrogate(low) then Err(JsonError(q, InvalidLowSurrogate))
          else Ok(0x1_0000 + (unit - 0xD800) * 0x400 + (low - 0xDC00), q)
  }

  /** What the escapes of one letter stand for. */
  function SimpleEscape(c: byte): Option<byte> {
    if c == QUOTE || c == BACKSLASH || c == SOLIDUS then Some(c)
    else if c == 98 then Some(8)
    else if c == 102 then Some(12)
    else if c == 110 then Some(10)
    else if c == 114 then Some(13)
    else if c == 116 then Some(9)
    else None
  }

  /** The rest of a string after its opening quote, `out` being what was read before. */
  function ParseChars(data: seq<byte>, pos: nat, out: seq<byte>): (r: Parsed<seq<byte>>)
    requires pos <= |data|
    ensures r.Ok? ==> pos < r.next <= |data|
    decreases |data| - pos
  {
    if pos == |data| then Err(JsonError(pos, UnterminatedString))
    else if data[pos] == QUOTE then Ok(out, pos + 1)
    else if data[pos] < 0x20 then Err(JsonError(pos + 1, ControlCharacter))
    else if data[pos] != BACKSLASH then ParseChars(data, pos + 1, out + [data[pos]])
    else if pos + 1 == |data| then Err(JsonError(pos + 1, UnterminatedEscape))
    else if data[pos + 1] == 117 then
      match ParseCodepoint(data, pos + 2)
      case Err(error) => Err(error)
      case Ok(codepoint, next) => ParseChars(data, next, out + Utf8.Emitted(codepoint))
    else
      match SimpleEscape(data[pos + 1])
      case None => Err(JsonError(pos + 2, InvalidEscape))
      case Some(c) => ParseChars(data, pos + 2, out + [c])
  }

  function ParseString(data: seq<byte>, pos: nat): (r: Parsed<seq<byte>>)
    requires pos <= |data|
    ensures r.Ok? ==> pos < r.next <= |data|
  {
    if Peek(data, pos) != QUOTE then Err(JsonError(pos, ExpectedQuote)) else ParseChars(data, pos + 1, [])
  }

  /** The end of the sign and the integer part. */
  function IntegerEnd(data: seq<byte>, pos: nat): (r: Parsed<()>)
    requires pos <= |data|
    ensures r.Ok? ==> pos < r.next <= |data|
  {
    var p := if Peek(data, pos) == MINUS then pos + 1 else pos;
    if Peek(data, p) == ZERO then Ok((), p + 1)
    else if IsDigit(Peek(data, p)) then Ok((), SkipDigits(data, p))
    else Err(JsonError(p, InvalidNumber))
  }

  function FractionEnd(data: seq<byte>, pos: nat): (r: Parsed<()>)
    requires pos <= |data|
    ensures r.Ok? ==> pos <= r.next <= |data|
  {
    if Peek(data, pos) != POINT then Ok((), pos)
    else if !IsDigit(Peek(data, pos + 1)) then Err(JsonError(pos + 1, InvalidFraction))
    else Ok((), SkipDigits(data, pos + 1))
  }

  function ExponentEnd(data: seq<byte>, pos: nat): (r: Parsed<()>)
    requires pos <= |data|
    ensures r.Ok? ==> pos <= r.next <= |data|
  {
    if !IsE(Peek(data, pos)) then Ok((), pos)
    else
      var signed := Peek(data, pos + 1) == PLUS || Peek(data, pos + 1) == MINUS;
      var p := if signed then pos + 2 else pos + 1;
      if !IsDigit(Peek(data, p)) then Err(JsonError(p, InvalidExponent)) else Ok((), SkipDigits(data, p))
  }

  function ParseNumber(data: seq<byte>, pos: nat): (r: Parsed<JSON>)
    requires pos <= |data|
    ensures r.Ok? ==> pos < r.next <= |data| && r.value == Number(data[pos..r.next])
  {
    match IntegerEnd(data, pos)
    case Err(error) => Err(error)
    case Ok(_, p) =>
      match FractionEnd(data, p)
      case Err(error) => Err(error)
      case Ok(_, q) =>
        match ExponentEnd(data, q)
        case Err(error) => Err(error)
        case Ok(_, end) => Ok(Number(data[pos..end]), end)
  }

  function ParseValue(data: seq<byte>, pos: nat): (r: Parsed<JSON>)
    requires pos <= |data|
    ensures r.Ok? ==> pos < r.next <= |data|
    decreases |data| - pos, 1
  {
    var c := Peek(data, pos);
    if c == 110 then ParseLiteral(data, pos, NULL_TEXT, Null)
    else if c == 116 then ParseLiteral(data, pos, TRUE_TEXT, Bool(true))
    else if c == 102 then ParseLiteral(data, pos, FALSE_TEXT, Bool(false))
    else if c == QUOTE then
      match ParseString(data, pos)
      case Err(error) => Err(error)
      case Ok(s, next) => Ok(Str(s), next)
    else if c == OPEN_BRACE then
      var p := SkipWs(data, pos + 1);
      if Peek(data, p) == CLOSE_BRACE then Ok(Object([]), p + 1) else ParseMembers(data, p, [])
    else if c == OPEN_BRACKET then
      var p := SkipWs(data, pos + 1);
      if Peek(data, p) == CLOSE_BRACKET then Ok(Array([]), p + 1) else ParseItems(data, p, [])
    else if c == MINUS || IsDigit(c) then ParseNumber(data, pos)
    else Err(JsonError(pos, UnexpectedCharacter))
  }

  /** The rest of an array from an element on, white space before it being skipped, after the elements parsed so far. */
  function ParseItems(data: seq<byte>, pos: nat, items: seq<JSON>): (r: Parsed<JSON>)
    requires pos <= |data|
    ensures r.Ok? ==> pos < r.next <= |data|
    decreases |data| - pos, 2
  {
    match ParseValue(data, pos)
    case Err(error) => Err(error)
    case Ok(value, next) =>
      var p := SkipWs(data, next);
      if Peek(data, p) == CLOSE_BRACKET then Ok(Array(items + [value]), p + 1)
      else if Peek(data, p) == COMMA then ParseItems(data, SkipWs(data, p + 1), items + [value])
      else Err(JsonError(p, ExpectedArrayComma))
  }

  function ParseMembers(data: seq<byte>, pos: nat, members: seq<Member>): (r: Parsed<JSON>)
    requires pos <= |data|
    ensures r.Ok? ==> pos < r.next <= |data|
    decreases |data| - pos, 2
  {
    match ParseMember(data, pos)
    case Err(error) => Err(error)
    case Ok(member, next) =>
      var p := SkipWs(data, next);
      if Peek(data, p) == CLOSE_BRACE then Ok(Object(members + [member]), p + 1)
      else if Peek(data, p) == COMMA then ParseMembers(data, SkipWs(data, p + 1), members + [member])
      else Err(JsonError(p, ExpectedObjectComma))
  }

  function ParseMember(data: seq<byte>, pos: nat): (r: Parsed<Member>)
    requires pos <= |data|
    ensures r.Ok? ==> pos < r.next <= |data|
    decreases |data| - pos, 0
  {
    match ParseString(data, pos)
    case Err(error) => Err(error)
    case Ok(key, afterKey) =>
      var colon := SkipWs(data, afterKey);
      if Peek(data, colon) != COLON then Err(JsonError(colon, ExpectedColon))
      else
        match ParseValue(data, SkipWs(data, colon + 1))
        case Err(error) => Err(error)
        case Ok(value, next) => Ok(Member(key, value), next)
  }

  /** A whole text: one value, with nothing but white space around it. */
  function Parse(text: seq<byte>): Parsed<JSON> {
    match ParseValue(text, SkipWs(text, 0))
    case Err(error) => Err(error)
    case Ok(value, next) =>
      var end := SkipWs(text, next);
      if end != |text| then Err(JsonError(end, TrailingCharacters)) else Ok(value, end)
  }

  // ----- one step of the parse of an array or object -----

  lemma OpenArray(data: seq<byte>, pos: nat)
    requires pos < |data| && data[pos] == OPEN_BRACKET
    ensures var p := SkipWs(data, pos + 1);
      ParseValue(data, pos) == if Peek(data, p) == CLOSE_BRACKET then Ok(Array([]), p + 1) else ParseItems(data, p, [])
  {
  }

  lemma OpenObject(data: seq<byte>, pos: nat)
    requires pos < |data| && data[pos] == OPEN_BRACE
    ensures var p := SkipWs(data, pos + 1);
      ParseValue(data, pos) == if Peek(data, p) == CLOSE_BRACE then Ok(Object([]), p + 1) else ParseMembers(data, p, [])
  {
  }

  /** The end of an array after an element that was read, or the error for want of a comma. */
  lemma LastItem(data: seq<byte>, pos: nat, items: seq<JSON>, value: JSON, next: nat)
    requires pos <= |data| && ParseValue(data, pos) == Ok(value, next)
    ensures var p := SkipWs(data, next);
      && (Peek(data, p) == CLOSE_BRACKET ==> ParseItems(data, pos, items) == Ok(Array(items + [value]), p + 1))
      && (Peek(data, p) != CLOSE_BRACKET && Peek(data, p) != COMMA ==>
            ParseItems(data, pos, items) == Err(JsonError(p, ExpectedArrayComma)))
  {
  }

  lemma LastMember(data: seq<byte>, pos: nat, members: seq<Member>, member: Member, next: nat)
    requires pos <= |data| && ParseMember(data, pos) == Ok(member, next)
    ensures var p := SkipWs(data, next);
      && (Peek(data, p) == CLOSE_BRACE ==> ParseMembers(data, pos, members) == Ok(Object(members + [member]), p + 1))
      && (Peek(data, p) != CLOSE_BRACE && Peek(data, p) != COMMA ==>
            ParseMembers(data, pos, members) == Err(JsonError(p, ExpectedObjectComma)))
  {
  }

  lemma BadItem(data: seq<byte>, pos: nat, items: seq<JSON>)
    requires pos <= |data| && ParseValue(data, pos).Err?
    ensures ParseItems(data, pos, items) == Err(ParseValue(data, pos).error)
  {
  }

  lemma BadMember(data: seq<byte>, pos: nat, members: seq<Member>)
    requires pos <= |data| && ParseMember(data, pos).Err?
    ensures ParseMembers(data, pos, members) == Err(ParseMember(data, pos).error)
  {
  }

  lemma ItemAndComma(data: seq<byte>, pos: nat, items: seq<JSON>, value: JSON, next: nat, comma: nat)
    requires pos <= |data| && ParseValue(data, pos) == Ok(value, next) && comma == SkipWs(data, next)
    requires Peek(data, comma) == COMMA
    ensures ParseItems(data, pos, items) == ParseItems(data, SkipWs(data, comma + 1), items + [value])
  {
  }

  lemma MemberAndComma(data: seq<byte>, pos: nat, members: seq<Member>, member: Member, next: nat, comma: nat)
    requires pos <= |data| && ParseMember(data, pos) == Ok(member, next) && comma == SkipWs(data, next)
    requires Peek(data, comma) == COMMA
    ensures ParseMembers(data, pos, members) == ParseMembers(data, SkipWs(data, comma + 1), members + [member])
  {
  }

  // ----- the parser object -----

  class Parser {
    const input: seq<byte>
    var pos: nat
    var error: JsonError

    constructor (text: seq<byte>)
      ensures input == text && pos == 0
    {
      input := text;
      pos, error := 0, JsonError(0, UnexpectedCharacter);
    }

    /** The object has done what the parse `p` says. */
    ghost predicate Follows<T>(r: Option<T>, p: Parsed<T>)
      reads this
    {
      match p
      case Ok(value, next) => r == Some(value) && pos == next
      case Err(e) => r == None && error == e
    }

    method Fail(problem: Problem)
      modifies this`error
      ensures error == JsonError(pos, problem)
    {
      error := JsonError(pos, problem);
    }

    method Consume(expected: byte) returns (ok: bool)
      requires pos <= |input| && expected != 0
      modifies this`pos
      ensures ok == (Peek(input, old(pos)) == expected) && pos == (if ok then old(pos) + 1 else old(pos)) && pos <= |input|
    {
      if Peek(input, pos) != expected {
        return false;
      }
      pos := pos + 1;
      return true;
    }

    method SkipWhitespace()
      requires pos <= |input|
      modifies this`pos
      ensures pos == SkipWs(input, old(pos))
    {
      while pos < |input| && IsSpace(input[pos])
        invariant pos <= |input| && SkipWs(input, pos) == SkipWs(input, old(pos))
      {
        pos := pos + 1;
      }
    }

    method SkipDigitRun()
      requires pos <= |input|
      modifies this`pos
      ensures pos == SkipDigits(input, old(pos))
    {
      while IsDigit(Peek(input, pos))
        invariant pos <= |input| && SkipDigits(input, pos) == SkipDigits(input, old(pos))
        decreases |input| - pos
      {
        pos := pos + 1;
      }
    }

    method ReadLiteral(literal: seq<byte>, value: JSON) returns (r: Option<JSON>)
      requires pos <= |input| && literal != []
      modifies this
      ensures Follows(r, ParseLiteral(input, old(pos), literal, value))
    {
      if !Matches(input, pos, literal, |literal|) {
        Fail(InvalidLiteral);
        return None;
      }
      pos := pos + |literal|;
      return Some(value);
    }

    /** The loop over four hexadecimal digits. */
    method ReadCodeUnit() returns (r: Option<nat>)
      requires pos <= |input|
      modifies this
      ensures Follows(r, ParseCodeUnit(input, old(pos)))
    {
      if pos + 4 > |input| {
        Fail(IncompleteUnicode);
        return None;
      }
      var codeUnit: nat := 0;
      for i := 0 to 4
        invariant pos == old(pos) && HexPrefix(input, pos, i) == Some(codeUnit)
      {
        var v := HexValue(input[pos + i]);
        if v < 0 {
          NoHex(input, pos, i + 1, 4);
          Fail(InvalidHex);
          return None;
        }
        codeUnit := 16 * codeUnit + v;
      }
      pos := pos + 4;
      return Some(codeUnit);
    }

    method ReadUnicodeEscape(out: seq<byte>) returns (r: Option<seq<byte>>)
      requires pos <= |input|
      modifies this
      ensures match ParseCodepoint(input, old(pos))
        case Ok(codepoint, next) => r == Some(out + Utf8.Emitted(codepoint)) && pos == next
        case Err(e) => r == None && error == e
    {
      var unit := ReadCodeUnit();
      if unit.None? {
        return None;
      }
      var codepoint := unit.value;
      if HighSurrogate(codepoint) {
        if pos + 2 > |input| || input[pos] != BACKSLASH || input[pos + 1] != 117 {
          Fail(MissingLowSurrogate);
          return None;
        }
        pos := pos + 2;
        var low := ReadCodeUnit();
        if low.None? {
          return None;
        }
        if !LowSurrogate(low.value) {
          Fail(InvalidLowSurrogate);
          return None;
        }
        codepoint := 0x1_0000 + (codepoint - 0xD800) * 0x400 + (low.value - 0xDC00);
      }
      var ok, appended := Utf8.AppendCodepoint(codepoint, out);
      assert ok;
      return Some(appended);
    }

    method ReadString() returns (r: Option<seq<byte>>)
      requires pos <= |input|
      modifies this
      ensures Follows(r, ParseString(input, old(pos)))
    {
      var quoted := Consume(QUOTE);
      if !quoted {
        Fail(ExpectedQuote);
        return None;
      }
      var out: seq<byte> := [];
      while pos < |input|
        invariant old(pos) < pos <= |input| && ParseChars(input, pos, out) == ParseChars(input, old(pos) + 1, [])
      {
        var c := input[pos];
        pos := pos + 1;
        if c == QUOTE {
          return Some(out);
        }
        if c < 0x20 {
          Fail(ControlCharacter);
          return None;
        }
        if c == BACKSLASH {
          if pos >= |input| {
            Fail(UnterminatedEscape);
            return None;
          }
          var esc := input[pos];
          pos := pos + 1;
          if esc == 117 {
            var appended := ReadUnicodeEscape(out);
            if appended.None? {
              return None;
            }
            out := appended.value;
          } else if SimpleEscape(esc).Some? {
            out := out + [SimpleEscape(esc).value];
          } else {
            Fail(InvalidEscape);
            return None;
          }
        } else {
          out := out + [c];
        }
      }
      Fail(UnterminatedString);
      return None;
    }

    method ReadInteger() returns (ok: bool)
      requires pos <= |input|
      modifies this
      ensures Follows(if ok then Some(()) else None, IntegerEnd(input, old(pos)))
    {
      if Peek(input, pos) == MINUS {
        pos := pos + 1;
      }
      if Peek(input, pos) == ZERO {
        pos := pos + 1;
      } else if IsDigit(Peek(input, pos)) {
        SkipDigitRun();
      } else {
        Fail(InvalidNumber);
        return false;
      }
      return true;
    }

    method ReadFraction() returns (ok: bool)
      requires pos <= |input|
      modifies this
      ensures Follows(if ok then Some(()) else None, FractionEnd(input, old(pos)))
    {
      if Peek(input, pos) == POINT {
        pos := pos + 1;
        if !IsDigit(Peek(input, pos)) {
          Fail(InvalidFraction);
          return false;
        }
        SkipDigitRun();
      }
      return true;
    }

    method ReadExponent() returns (ok: bool)
      requires pos <= |input|
      modifies this
      ensures Follows(if ok then Some(()) else None, ExponentEnd(input, old(pos)))
    {
      if IsE(Peek(input, pos)) {
        pos := pos + 1;
        if Peek(input, pos) == PLUS || Peek(input, pos) == MINUS {
          pos := pos + 1;
        }
        if !IsDigit(Peek(input, pos)) {
          Fail(InvalidExponent);
          return false;
        }
        SkipDigitRun();
      }
      return true;
    }

    method ReadNumber() returns (r: Option<JSON>)
      requires pos <= |input|
      modifies this
      ensures Follows(r, ParseNumber(input, old(pos)))
    {
      var start := pos;
      var ok := ReadInteger();
      if !ok {
        return None;
      }
      ok := ReadFraction();
      if !ok {
        return None;
      }
      ok := ReadExponent();
      if !ok {
        return None;
      }
      return Some(Number(input[start..pos]));
    }

    method ReadValue() returns (r: Option<JSON>)
      requires pos <= |input|
      modifies this
      ensures Follows(r, ParseValue(input, old(pos)))
      decreases |input| - pos, 1
    {
      var c := Peek(input, pos);
      if c == 110 {
        r := ReadLiteral(NULL_TEXT, Null);
      } else if c == 116 {
        r := ReadLiteral(TRUE_TEXT, Bool(true));
      } else if c == 102 {
        r := ReadLiteral(FALSE_TEXT, Bool(false));
      } else if c == QUOTE {
        var s := ReadString();
        r := if s.Some? then Some(Str(s.value)) else None;
      } else if c == OPEN_BRACE {
        r := ReadObject();
      } else if c == OPEN_BRACKET {
        r := ReadArray();
      } else if c == MINUS || IsDigit(c) {
        r := ReadNumber();
      } else {
        Fail(UnexpectedCharacter);
        r := None;
      }
    }

    method ReadArray() returns (r: Option<JSON>)
      requires pos < |input| && input[pos] == OPEN_BRACKET
      modifies this
      ensures Follows(r, ParseValue(input, old(pos)))
      decreases |input| - pos, 0
    {
      hide ParseValue, ParseItems, ParseMembers, ParseMember;
      ghost var whole := ParseValue(input, pos);
      OpenArray(input, pos);
      var consumed := Consume(OPEN_BRACKET);
      var items: seq<JSON> := [];
      SkipWhitespace();
      consumed := Consume(CLOSE_BRACKET);
      if consumed {
        return Some(Array([]));
      }
      while true
        invariant old(pos) < pos <= |input| && SkipWs(input, pos) == pos
        invariant ParseItems(input, pos, items) == whole == ParseValue(input, old(pos))
        decreases |input| - pos
      {
        SkipWhitespace();
        ghost var start, before := pos, items;
        var value := ReadValue();
        if value.None? {
          BadItem(input, start, before);
          return None;
        }
        ghost var next := pos;
        LastItem(input, start, before, value.value, next);
        items := items + [value.value];
        SkipWhitespace();
        consumed := Consume(CLOSE_BRACKET);
        if consumed {
          return Some(Array(items));
        }
        consumed := Consume(COMMA);
        if !consumed {
          Fail(ExpectedArrayComma);
          return None;
        }
        ItemAndComma(input, start, before, value.value, next, pos - 1);
        SkipWhitespace();
      }
    }

    method ReadMember() returns (r: Option<Member>)
      requires pos <= |input|
      modifies this
      ensures Follows(r, ParseMember(input, old(pos)))
      decreases |input| - pos, 2
    {
      var key := ReadString();
      if key.None? {
        return None;
      }
      SkipWhitespace();
      var consumed := Consume(COLON);
      if !consumed {
        Fail(ExpectedColon);
        return None;
      }
      SkipWhitespace();
      var value := ReadValue();
      r := if value.Some? then Some(Member(key.value, value.value)) else None;
    }

    method ReadObject() returns (r: Option<JSON>)
      requires pos < |input| && input[pos] == OPEN_BRACE
      modifies this
      ensures Follows(r, ParseValue(input, old(pos)))
      decreases |input| - pos, 0
    {
      hide ParseValue, ParseItems, ParseMembers, ParseMember;
      ghost var whole := ParseValue(input, pos);
      OpenObject(input, pos);
      var consumed := Consume(OPEN_BRACE);
      var members: seq<Member> := [];
      SkipWhitespace();
      consumed := Consume(CLOSE_BRACE);
      if consumed {
        return Some(Object([]));
      }
      while true
        invariant old(pos) < pos <= |input| && SkipWs(input, pos) == pos
        invariant ParseMembers(input, pos, members) == whole == ParseValue(input, old(pos))
        decreases |input| - pos
      {
        SkipWhitespace();
        ghost var start, before := pos, members;
        var member := ReadMember();
        if member.None? {
          BadMember(input, start, before);
          return None;
        }
        ghost var next := pos;
        LastMember(input, start, before, member.value, next);
        members := members + [member.value];
        SkipWhitespace();
        consumed := Consume(CLOSE_BRACE);
        if consumed {
          return Some(Object(members));
        }
        consumed := Consume(COMMA);
        if !consumed {
          Fail(ExpectedObjectComma);
          return None;
        }
        MemberAndComma(input, start, before, member.value, next, pos - 1);
        SkipWhitespace();
      }
    }

    method ReadText() returns (r: Option<JSON>)
      requires pos == 0
      modifies this
      ensures Follows(r, Parse(input))
    {
      SkipWhitespace();
      r := ReadValue();
      if r.None? {
        return;
      }
      SkipWhitespace();
      if pos != |input| {
        Fail(TrailingCharacters);
        return None;
      }
    }
  }

  lemma {:induction false} NoHex(data: seq<byte>, pos: nat, k: nat, n: nat)
    requires k <= n <= 4 && pos + 4 <= |data| && HexPrefix(data, pos, k).None?
    ensures HexPrefix(data, pos, n).None?
  {
    if k < n {
      NoHex(data, pos, k, n - 1);
    }
  }

  /** `JSON::parse`. */
  method ParseText(text: seq<byte>) returns (value: Option<JSON>, error: Option<JsonError>)
    ensures match Parse(text)
      case Ok(v, _) => value == Some(v) && error == None
      case Err(e) => value == None && error == Some(e)
  {
    var parser := new Parser(text);
    value := parser.ReadText();
    error := if value.Some? then None else Some(parser.error);
  }
}
