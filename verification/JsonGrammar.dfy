/** The grammar of RFC 8259, on stretches of a text, with the byte string or tree that each word stands for. */
module JsonGrammar {
  import opened Bytes
  import opened Json
  import Utf8

  /**
   * The RFC, and what the program makes of it: with vertical tabs and form feeds as white space, with any byte from 80 on
   * (hexadecimal) in strings instead of characters of UTF-8, and with any use of surrogates in escapes.
   */
  datatype Dialect = Dialect(wide: bool, bytes: bool, loose: bool)

  /** The letter of the RFC: section 7 allows any digits in an escape, section 8.1 requires UTF-8. */
  const RFC_8259 := Dialect(false, false, true)

  /** The RFC with surrogates in pairs only, for which section 8.2 leaves no doubt what a string is. */
  const PAIRED := Dialect(false, false, false)

  const PROGRAM := Dialect(true, true, false)

  // ----- strings: section 7 -----

  predicate IsUnescaped(c: byte) { c >= 0x20 && c != QUOTE && c != BACKSLASH }

  /** What a letter behind a backslash stands for. */
  predicate IsShortEscape(letter: byte, c: byte) {
    || (letter == QUOTE && c == QUOTE) || (letter == BACKSLASH && c == BACKSLASH) || (letter == SOLIDUS && c == SOLIDUS)
    || (letter == 98 && c == 8) || (letter == 102 && c == 12) || (letter == 110 && c == 10)
    || (letter == 114 && c == 13) || (letter == 116 && c == 9)
  }

  /** The value of a hexadecimal digit; negative for other bytes. */
  function HexOf(c: byte): int {
    if 48 <= c <= 57 then c - 48 else if 65 <= c <= 70 then c - 55 else if 97 <= c <= 102 then c - 87 else -1
  }

  /** Backslash, "u" and four hexadecimal digits. */
  function CodeUnit(data: seq<byte>, i: nat): Option<nat> {
    if !(i + 6 <= |data| && data[i] == BACKSLASH && data[i + 1] == 117) then None
    else
      var a, b, c, d := HexOf(data[i + 2]), HexOf(data[i + 3]), HexOf(data[i + 4]), HexOf(data[i + 5]);
      if a < 0 || b < 0 || c < 0 || d < 0 then None else Some(0x1000 * a + 0x100 * b + 16 * c + d)
  }

  predicate UnitAt(unit: nat, data: seq<byte>, i: nat) { CodeUnit(data, i) == Some(unit) && unit < 0x1_0000 }

  predicate IsHigh(unit: nat) { 0xD800 <= unit <= 0xDBFF }
  predicate IsLow(unit: nat) { 0xDC00 <= unit <= 0xDFFF }

  /**
   * An escape and the bytes it stands for. In the loose dialect any four digits will do; otherwise high surrogates come
   * only before low ones, as a pair.
   */
  ghost predicate EscapeAt(m: seq<byte>, data: seq<byte>, i: nat, j: nat, d: Dialect) {
    || (j == i + 2 <= |data| && data[i] == BACKSLASH && |m| == 1 && IsShortEscape(data[i + 1], m[0]))
    || (j == i + 6 && exists unit: nat :: UnitAt(unit, data, i) && (d.loose || !IsHigh(unit)) && m == Utf8.Emitted(unit))
    || (!d.loose && j == i + 12
        && exists high: nat, low: nat :: UnitAt(high, data, i) && UnitAt(low, data, i + 6) && IsPair(high, low, m))
  }

  predicate IsPair(high: nat, low: nat, m: seq<byte>) {
    IsHigh(high) && IsLow(low) && m == Utf8.Emitted(0x1_0000 + (high - 0xD800) * 0x400 + (low - 0xDC00))
  }

  /** A character that stands for itself: one byte, or one character of UTF-8. */
  predicate RawAt(m: seq<byte>, data: seq<byte>, i: nat, j: nat, d: Dialect) {
    && i < j <= |data| && m == data[i..j] && IsUnescaped(data[i])
    && if d.bytes then j == i + 1 else Utf8.IsCharacter(m)
  }

  ghost predicate CharAt(m: seq<byte>, data: seq<byte>, i: nat, j: nat, d: Dialect) {
    RawAt(m, data, i, j, d) || EscapeAt(m, data, i, j, d)
  }

  ghost predicate CharsAt(x: seq<byte>, data: seq<byte>, i: nat, j: nat, d: Dialect)
    decreases j - i
  {
    && i <= j <= |data|
    && if i == j then x == []
       else
         exists k: nat, m: seq<byte> :: i < k <= j && CharAt(m, data, i, k, d) && m <= x && CharsAt(x[|m|..], data, k, j, d)
  }

  ghost predicate StringAt(x: seq<byte>, data: seq<byte>, i: nat, j: nat, d: Dialect) {
    i + 2 <= j <= |data| && data[i] == QUOTE && data[j - 1] == QUOTE && CharsAt(x, data, i + 1, j - 1, d)
  }

  // ----- values: sections 2 to 6 -----

  /** White space; the wider kind has vertical tabs and form feeds, too. */
  predicate IsWs(c: byte, wide: bool) { c == 32 || c == 9 || c == 10 || c == 13 || (wide && (c == 11 || c == 12)) }

  predicate WsAt(data: seq<byte>, i: nat, j: nat, wide: bool) {
    i <= j <= |data| && forall k | i <= k < j :: IsWs(data[k], wide)
  }

  predicate WordAt(word: seq<byte>, data: seq<byte>, i: nat, j: nat) { j == i + |word| && At(data, i, word) }

  ghost predicate ValueAt(v: JSON, data: seq<byte>, i: nat, j: nat, d: Dialect)
    decreases v, 1, 0
  {
    match v
    case Null => WordAt(NULL_TEXT, data, i, j)
    case Bool(b) => WordAt(if b then TRUE_TEXT else FALSE_TEXT, data, i, j)
    case Number(repr) => IsNumber(repr) && WordAt(repr, data, i, j)
    case Str(s) => StringAt(s, data, i, j, d)
    case Array(items) =>
      && i + 2 <= j <= |data| && data[i] == OPEN_BRACKET && data[j - 1] == CLOSE_BRACKET
      && if items == [] then WsAt(data, i + 1, j - 1, d.wide) else ItemsAt(items, data, i + 1, j - 1, d)
    case Object(members) =>
      && i + 2 <= j <= |data| && data[i] == OPEN_BRACE && data[j - 1] == CLOSE_BRACE
      && if members == [] then WsAt(data, i + 1, j - 1, d.wide) else MembersAt(members, data, i + 1, j - 1, d)
  }

  /** A value with white space around it. */
  ghost predicate PaddedAt(v: JSON, data: seq<byte>, i: nat, j: nat, d: Dialect)
    decreases v, 2, 0
  {
    exists p: nat, q: nat :: WsAt(data, i, p, d.wide) && ValueAt(v, data, p, q, d) && WsAt(data, q, j, d.wide)
  }

  /** Values with commas between them. */
  ghost predicate ItemsAt(items: seq<JSON>, data: seq<byte>, i: nat, j: nat, d: Dialect)
    requires items != []
    decreases items, 0, |items|
  {
    if |items| == 1 then PaddedAt(items[0], data, i, j, d)
    else
      exists k: nat :: k < j <= |data| && data[k] == COMMA && PaddedAt(items[0], data, i, k, d)
        && ItemsAt(items[1..], data, k + 1, j, d)
  }

  /** A key, a colon and a value. */
  ghost predicate MemberAt(m: Member, data: seq<byte>, i: nat, j: nat, d: Dialect)
    decreases m, 0, 0
  {
    exists p: nat, q: nat, r: nat :: WsAt(data, i, p, d.wide) && StringAt(m.key, data, p, q, d) && WsAt(data, q, r, d.wide) && r < |data|
      && data[r] == COLON && PaddedAt(m.value, data, r + 1, j, d)
  }

  ghost predicate MembersAt(members: seq<Member>, data: seq<byte>, i: nat, j: nat, d: Dialect)
    requires members != []
    decreases members, 0, |members|
  {
    if |members| == 1 then MemberAt(members[0], data, i, j, d)
    else
      exists k: nat :: k < j <= |data| && data[k] == COMMA && MemberAt(members[0], data, i, k, d)
        && MembersAt(members[1..], data, k + 1, j, d)
  }

  /** `JSON-text = ws value ws`: the text is a word for the tree. */
  ghost predicate IsText(v: JSON, text: seq<byte>, d: Dialect) { PaddedAt(v, text, 0, |text|, d) }
}
