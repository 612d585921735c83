/** The parser accepts exactly the words of the grammar. */
module JsonAccepts {
  import opened Bytes
  import opened Decimal
  import opened Json
  import opened JsonParser
  import opened JsonGrammar
  import opened Utf8Text
  import JsonRoundTrip
  import JsonStrings
  import Utf8

  // ----- strings -----

  lemma OneMoreDigit(data: seq<byte>, pos: nat, n: nat)
    requires n < 4 && pos + 4 <= |data|
    ensures HexPrefix(data, pos, n + 1).Some? <==> HexPrefix(data, pos, n).Some? && HexOf(data[pos + n]) >= 0
    ensures HexPrefix(data, pos, n + 1).Some? ==>
      HexPrefix(data, pos, n + 1).value == 16 * HexPrefix(data, pos, n).value + HexOf(data[pos + n])
  {
  }

  lemma FirstDigit(data: seq<byte>, pos: nat)
    requires pos + 4 <= |data|
    ensures HexPrefix(data, pos, 1).Some? <==> HexOf(data[pos]) >= 0
    ensures HexPrefix(data, pos, 1).Some? ==> HexPrefix(data, pos, 1).value == HexOf(data[pos])
  {
    assert HexPrefix(data, pos, 0) == Some(0);
  }

  /** A code unit is read exactly where there is one. */
  lemma UnitIsRead(data: seq<byte>, i: nat)
    requires i + 2 <= |data| && data[i] == BACKSLASH && data[i + 1] == 117
    ensures ParseCodeUnit(data, i + 2).Ok? ==> UnitAt(ParseCodeUnit(data, i + 2).value, data, i)
    ensures forall unit: nat | UnitAt(unit, data, i) :: ParseCodeUnit(data, i + 2) == Ok(unit, i + 6)
  {
    if i + 6 <= |data| {
      hide HexPrefix, HexOf;
      OneMoreDigit(data, i + 2, 3);
      OneMoreDigit(data, i + 2, 2);
      OneMoreDigit(data, i + 2, 1);
      FirstDigit(data, i + 2);
    }
  }

  // ----- characters, as steps of the parser -----

  /** Bytes that stand for themselves. */
  lemma {:induction false} BytesAreRead(data: seq<byte>, i: nat, k: nat, out: seq<byte>)
    requires i <= k <= |data| && forall t | i <= t < k :: IsUnescaped(data[t])
    ensures ParseChars(data, i, out) == ParseChars(data, k, out + data[i..k])
    decreases k - i
  {
    if i == k {
      assert out + data[i..k] == out;
    } else {
      BytesAreRead(data, i + 1, k, out + [data[i]]);
      assert out + data[i..k] == out + [data[i]] + data[i + 1..k];
    }
  }

  /** The bytes of a character behind its first one are tail bytes. */
  lemma RawIsUnescaped(m: seq<byte>, data: seq<byte>, i: nat, k: nat, d: Dialect)
    requires RawAt(m, data, i, k, d)
    ensures forall t | i <= t < k :: IsUnescaped(data[t])
  {
    assert forall t | i <= t < k :: data[t] == m[t - i];
  }

  lemma ShortIsRead(c: byte, data: seq<byte>, i: nat, out: seq<byte>)
    requires i + 2 <= |data| && data[i] == BACKSLASH && IsShortEscape(data[i + 1], c)
    ensures ParseChars(data, i, out) == ParseChars(data, i + 2, out + [c])
  {
    assert SimpleEscape(data[i + 1]) == Some(c) && data[i + 1] != 117;
  }

  lemma CodepointIsRead(data: seq<byte>, i: nat, out: seq<byte>, codepoint: nat, k: nat)
    requires i + 2 <= |data| && data[i] == BACKSLASH && data[i + 1] == 117
    requires ParseCodepoint(data, i + 2) == Ok(codepoint, k)
    ensures ParseChars(data, i, out) == ParseChars(data, k, out + Utf8.Emitted(codepoint))
  {
    hide ParseCodepoint, Utf8.Emitted;
  }

  lemma SingleIsRead(unit: nat, data: seq<byte>, i: nat, out: seq<byte>)
    requires UnitAt(unit, data, i) && !IsHigh(unit)
    ensures ParseChars(data, i, out) == ParseChars(data, i + 6, out + Utf8.Emitted(unit))
  {
    hide ParseChars, Utf8.Emitted, ParseCodeUnit;
    UnitIsRead(data, i);
    CodepointIsRead(data, i, out, unit, i + 6);
  }

  lemma PairIsRead(high: nat, low: nat, data: seq<byte>, i: nat, out: seq<byte>, m: seq<byte>)
    requires UnitAt(high, data, i) && UnitAt(low, data, i + 6) && IsPair(high, low, m)
    ensures ParseChars(data, i, out) == ParseChars(data, i + 12, out + m)
  {
    hide ParseChars, Utf8.Emitted, ParseCodeUnit;
    UnitIsRead(data, i);
    UnitIsRead(data, i + 6);
    CodepointIsRead(data, i, out, 0x1_0000 + (high - 0xD800) * 0x400 + (low - 0xDC00), i + 12);
  }

  lemma EscapeIsRead(m: seq<byte>, data: seq<byte>, i: nat, k: nat, out: seq<byte>, d: Dialect)
    requires EscapeAt(m, data, i, k, d) && !d.loose
    ensures i < k <= |data| && ParseChars(data, i, out) == ParseChars(data, k, out + m)
  {
    hide ParseChars, CodeUnit, Utf8.Emitted, IsPair;
    if k == i + 2 {
      assert m == [m[0]];
      ShortIsRead(m[0], data, i, out);
    } else if k == i + 6 {
      var unit: nat :| UnitAt(unit, data, i) && !IsHigh(unit) && m == Utf8.Emitted(unit);
      UnitFits(unit, data, i);
      SingleIsRead(unit, data, i, out);
    } else {
      var high: nat, low: nat :| UnitAt(high, data, i) && UnitAt(low, data, i + 6) && IsPair(high, low, m);
      UnitFits(low, data, i + 6);
      PairIsRead(high, low, data, i, out, m);
    }
  }

  lemma UnitFits(unit: nat, data: seq<byte>, i: nat)
    requires UnitAt(unit, data, i)
    ensures i + 6 <= |data| && data[i] == BACKSLASH && data[i + 1] == 117
  {
  }

  lemma CharIsRead(m: seq<byte>, data: seq<byte>, i: nat, k: nat, out: seq<byte>, d: Dialect)
    requires CharAt(m, data, i, k, d) && !d.loose
    ensures i < k <= |data| && ParseChars(data, i, out) == ParseChars(data, k, out + m)
  {
    hide ParseChars, EscapeAt, RawAt;
    if RawAt(m, data, i, k, d) {
      RawIsUnescaped(m, data, i, k, d);
      RawFits(m, data, i, k, d);
      BytesAreRead(data, i, k, out);
    } else {
      EscapeIsRead(m, data, i, k, out, d);
    }
  }

  lemma RawFits(m: seq<byte>, data: seq<byte>, i: nat, k: nat, d: Dialect)
    requires RawAt(m, data, i, k, d)
    ensures i < k <= |data| && m == data[i..k]
  {
  }

  /** What the parser takes as an escape is one. */
  lemma ReadEscapeIsThere(data: seq<byte>, i: nat, out: seq<byte>, d: Dialect) returns (k: nat, m: seq<byte>)
    requires i < |data| && data[i] == BACKSLASH && ParseChars(data, i, out).Ok? && !d.loose
    ensures EscapeAt(m, data, i, k, d) && i < k <= |data| && ParseChars(data, i, out) == ParseChars(data, k, out + m)
    ensures JsonStrings.IsAscii(data[i..k])
  {
    hide CodeUnit, Utf8.Emitted;
    if data[i + 1] == 117 {
      var codepoint := ParseCodepoint(data, i + 2);
      k, m := codepoint.next, Utf8.Emitted(codepoint.value);
      JsonStrings.EscapeIsAscii(data, i, k);
      UnitIsRead(data, i);
      if HighSurrogate(ParseCodeUnit(data, i + 2).value) {
        UnitIsRead(data, i + 6);
        assert IsPair(ParseCodeUnit(data, i + 2).value, ParseCodeUnit(data, i + 8).value, m);
      }
    } else {
      k, m := i + 2, [SimpleEscape(data[i + 1]).value];
    }
  }

  // ----- UTF-8 from a place on -----

  predicate Utf8From(data: seq<byte>, i: nat)
    requires i <= |data|
  {
    After(START, data[i..]) == START
  }

  /** A text that is UTF-8 is so from every ASCII byte on. */
  lemma Utf8FromAscii(data: seq<byte>, i: nat)
    requires i < |data| && data[i] <= 0x7F && After(START, data) == START
    ensures Utf8From(data, i) && Utf8From(data, i + 1)
  {
    var scan := After(START, data[..i]);
    assert data == data[..i] + data[i..] && data[i..] == [data[i]] + data[i + 1..];
    AfterParts(START, data[..i], data[i..]);
    AfterParts(scan, [data[i]], data[i + 1..]);
    AfterOne(scan, data[i]);
    AfterOne(START, data[i]);
    AfterParts(START, [data[i]], data[i + 1..]);
    BetweenIsKept(START, data[..i]);
    BrokenStays(data[i + 1..]);
  }

  lemma {:induction false} BetweenIsKept(scan: Scan, s: seq<byte>)
    requires JsonStrings.IsBetween(scan)
    ensures JsonStrings.IsBetween(After(scan, s))
    decreases |s|
  {
    if s != [] {
      JsonStrings.BetweenStays(scan, s[0]);
      BetweenIsKept(Next(scan, s[0]), s[1..]);
    }
  }

  /** The text has no white space and no strings that the dialect does not allow. */
  predicate Suits(data: seq<byte>, d: Dialect) {
    IsPlain(data, d.wide) && (d.bytes || After(START, data) == START) && !d.loose
  }

  /** What the parser takes as a character that stands for itself is one. */
  lemma ReadRawIsThere(data: seq<byte>, i: nat, out: seq<byte>, d: Dialect) returns (k: nat)
    requires i < |data| && ParseChars(data, i, out).Ok? && data[i] != QUOTE && data[i] != BACKSLASH
    requires d.bytes || Utf8From(data, i)
    ensures i < k <= |data| && RawAt(data[i..k], data, i, k, d)
    ensures ParseChars(data, i, out) == ParseChars(data, k, out + data[i..k])
    ensures d.bytes || Utf8From(data, k)
  {
    if d.bytes {
      k := i + 1;
      assert data[i..k] == [data[i]];
    } else {
      var n := FirstCharacter(data[i..]);
      k := i + n;
      assert data[i..][..n] == data[i..k] && data[i..][n..] == data[k..];
      assert RawAt(data[i..k], data, i, k, d);
      RawIsUnescaped(data[i..k], data, i, k, d);
      BytesAreRead(data, i, k, out);
    }
  }

  // ----- strings -----

  lemma {:induction false} CharsAreRead(x: seq<byte>, data: seq<byte>, i: nat, j: nat, out: seq<byte>, d: Dialect)
    requires CharsAt(x, data, i, j, d) && !d.loose && j < |data| && data[j] == QUOTE
    ensures ParseChars(data, i, out) == Ok(out + x, j + 1)
    decreases j - i
  {
    hide CharAt;
    if i == j {
      assert out + x == out;
    } else {
      var k: nat, m: seq<byte> :| i < k <= j && CharAt(m, data, i, k, d) && m <= x && CharsAt(x[|m|..], data, k, j, d);
      CharIsRead(m, data, i, k, out, d);
      CharsAreRead(x[|m|..], data, k, j, out + m, d);
      assert out + x == out + m + x[|m|..];
    }
  }

  lemma {:induction false} ReadCharsAreThere(data: seq<byte>, i: nat, out: seq<byte>, d: Dialect) returns (x: seq<byte>)
    requires i <= |data| && ParseChars(data, i, out).Ok? && !d.loose && (d.bytes || Utf8From(data, i))
    ensures var end := ParseChars(data, i, out).next - 1;
      data[end] == QUOTE && CharsAt(x, data, i, end, d) && ParseChars(data, i, out).value == out + x
    decreases |data| - i
  {
    hide EscapeAt, RawAt, ParseCodepoint, SimpleEscape, Utf8.Emitted, After;
    var end := ParseChars(data, i, out).next - 1;
    if data[i] == QUOTE {
      x := [];
      assert out + x == out;
    } else {
      var k, m := ReadCharIsThere(data, i, out, d);
      var rest := ReadCharsAreThere(data, k, out + m, d);
      x := m + rest;
      assert m <= x && x[|m|..] == rest;
      assert CharAt(m, data, i, k, d) && CharsAt(x[|m|..], data, k, end, d);
      Assoc(out, m, rest);
    }
  }

  lemma ReadCharIsThere(data: seq<byte>, i: nat, out: seq<byte>, d: Dialect) returns (k: nat, m: seq<byte>)
    requires i < |data| && ParseChars(data, i, out).Ok? && data[i] != QUOTE && !d.loose && (d.bytes || Utf8From(data, i))
    ensures CharAt(m, data, i, k, d) && i < k <= |data| && ParseChars(data, i, out) == ParseChars(data, k, out + m)
    ensures d.bytes || Utf8From(data, k)
  {
    hide EscapeAt, RawAt, ParseChars;
    if data[i] != BACKSLASH {
      k := ReadRawIsThere(data, i, out, d);
      m := data[i..k];
    } else {
      k, m := ReadEscapeIsThere(data, i, out, d);
      if !d.bytes {
        JsonStrings.AsciiScans(START, data[i..k]);
        assert data[i..] == data[i..k] + data[k..];
        AfterParts(START, data[i..k], data[k..]);
      }
    }
  }

  lemma StringIsRead(x: seq<byte>, data: seq<byte>, i: nat, j: nat, d: Dialect)
    requires StringAt(x, data, i, j, d) && !d.loose
    ensures ParseString(data, i) == Ok(x, j)
  {
    hide ParseChars;
    CharsAreRead(x, data, i + 1, j - 1, [], d);
    assert [] + x == x;
  }

  lemma ReadStringIsThere(data: seq<byte>, i: nat, d: Dialect)
    requires i <= |data| && ParseString(data, i).Ok? && Suits(data, d)
    ensures StringAt(ParseString(data, i).value, data, i, ParseString(data, i).next, d)
  {
    hide ParseChars, CharsAt, Utf8From;
    if !d.bytes {
      Utf8FromAscii(data, i);
    }
    var x := ReadCharsAreThere(data, i + 1, [], d);
    assert [] + x == x;
  }

  // ----- white space and the ends of values -----

  lemma {:induction false} SkipsWs(data: seq<byte>, i: nat, j: nat, wide: bool)
    requires WsAt(data, i, j, wide) && (j < |data| ==> !IsSpace(data[j]))
    ensures SkipWs(data, i) == j
    decreases j - i
  {
    if i < j {
      SkipsWs(data, i + 1, j, wide);
    }
  }

  /** What was skipped is white space, and of the narrow kind if the text has no other. */
  lemma {:induction false} SkippedIsWs(data: seq<byte>, i: nat, wide: bool)
    requires i <= |data| && IsPlain(data, wide)
    ensures WsAt(data, i, SkipWs(data, i), wide)
    decreases |data| - i
  {
    if i < |data| && IsSpace(data[i]) {
      SkippedIsWs(data, i + 1, wide);
    }
  }

  /** Without the bytes 11 and 12, all white space is of the narrow kind. */
  predicate IsPlain(data: seq<byte>, wide: bool) { wide || forall k | 0 <= k < |data| :: data[k] != 11 && data[k] != 12 }

  lemma NumberBegins(repr: seq<byte>)
    requires IsNumber(repr)
    ensures repr != [] && (repr[0] == MINUS || IsDigit(repr[0]))
  {
    var sign, int_, frac, exp :| AreParts(repr, sign, int_, frac, exp);
    JsonRoundTrip.NumberStart(repr, sign, int_, frac, exp);
  }

  /** A value begins with something that is neither white space nor a closing bracket or brace. */
  lemma ValueBegins(v: JSON, data: seq<byte>, i: nat, j: nat, d: Dialect)
    requires ValueAt(v, data, i, j, d)
    ensures i < j <= |data| && !IsSpace(data[i]) && data[i] != CLOSE_BRACKET && data[i] != CLOSE_BRACE
  {
    match v {
      case Null => AtHead(data, i, NULL_TEXT);
      case Bool(b) => AtHead(data, i, if b then TRUE_TEXT else FALSE_TEXT);
      case Number(repr) =>
        NumberBegins(repr);
        AtHead(data, i, repr);
      case Str(s) =>
      case Array(items) =>
      case Object(members) =>
    }
  }

  lemma LiteralIsRead(v: JSON, word: seq<byte>, data: seq<byte>, i: nat, j: nat)
    requires WordAt(word, data, i, j)
    requires (v == Null && word == NULL_TEXT) || (v == Bool(true) && word == TRUE_TEXT) || (v == Bool(false) && word == FALSE_TEXT)
    ensures ParseValue(data, i) == Ok(v, j)
  {
    JsonRoundTrip.ReadsLiteral(data, i, word, |word|);
    AtHead(data, i, word);
  }

  // ----- what the grammar derives is accepted -----

  lemma {:induction false} ValueIsRead(v: JSON, data: seq<byte>, i: nat, j: nat, d: Dialect)
    requires !d.loose
    requires ValueAt(v, data, i, j, d) && JsonRoundTrip.Ends(data, j)
    ensures i < j <= |data| && ParseValue(data, i) == Ok(v, j)
    decreases v, 1, 0
  {
    hide ParseString, ParseItems, ParseMembers, ItemsAt, MembersAt, StringAt, IsNumber;
    ValueBegins(v, data, i, j, d);
    match v {
      case Null => LiteralIsRead(v, NULL_TEXT, data, i, j);
      case Bool(b) => LiteralIsRead(v, if b then TRUE_TEXT else FALSE_TEXT, data, i, j);
      case Number(repr) => JsonRoundTrip.ReadsNumber(data, i, repr);
      case Str(s) => StringValueIsRead(s, data, i, j, d);
      case Array(items) => ArrayIsRead(items, data, i, j, d);
      case Object(members) => ObjectIsRead(members, data, i, j, d);
    }
  }

  lemma StringValueIsRead(s: seq<byte>, data: seq<byte>, i: nat, j: nat, d: Dialect)
    requires StringAt(s, data, i, j, d) && !d.loose
    ensures ParseValue(data, i) == Ok(Str(s), j)
  {
    hide ParseString;
    StringIsRead(s, data, i, j, d);
    assert Peek(data, i) == QUOTE;
  }

  lemma {:induction false} ArrayIsRead(items: seq<JSON>, data: seq<byte>, i: nat, j: nat, d: Dialect)
    requires !d.loose
    requires ValueAt(Array(items), data, i, j, d)
    ensures ParseValue(data, i) == Ok(Array(items), j)
    decreases items, 1, 0
  {
    hide ItemsAt;
    if items == [] {
      SkipsWs(data, i + 1, j - 1, d.wide);
    } else {
      ItemsAreRead(items, data, i + 1, j - 1, [], d);
      OpenArray(data, i);
      assert [] + items == items;
    }
  }

  /** A value with white space around it, followed by a comma or a closing bracket or brace. */
  lemma {:induction false} PaddedIsRead(v: JSON, data: seq<byte>, i: nat, j: nat, d: Dialect) returns (p: nat, q: nat)
    requires !d.loose
    requires PaddedAt(v, data, i, j, d) && (j == |data| || JsonRoundTrip.IsClose(data[j]) || data[j] == COMMA)
    ensures i <= p < q <= j <= |data| && SkipWs(data, i) == p && ParseValue(data, p) == Ok(v, q) && SkipWs(data, q) == j
    ensures data[p] != CLOSE_BRACKET && data[p] != CLOSE_BRACE
    decreases v, 2, 0
  {
    hide ParseValue, ValueAt;
    p, q :| WsAt(data, i, p, d.wide) && ValueAt(v, data, p, q, d) && WsAt(data, q, j, d.wide);
    ValueBegins(v, data, p, q, d);
    SkipsWs(data, i, p, d.wide);
    SkipsWs(data, q, j, d.wide);
    ValueIsRead(v, data, p, q, d);
  }

  lemma {:induction false} ItemsAreRead(items: seq<JSON>, data: seq<byte>, i: nat, j: nat, done: seq<JSON>, d: Dialect)
    requires !d.loose
    requires items != [] && ItemsAt(items, data, i, j, d) && j < |data| && data[j] == CLOSE_BRACKET
    ensures i <= |data| && SkipWs(data, i) < |data| && data[SkipWs(data, i)] != CLOSE_BRACKET
    ensures ParseItems(data, SkipWs(data, i), done) == Ok(Array(done + items), j + 1)
    decreases items, 0, |items|
  {
    hide ParseValue, PaddedAt, ParseItems;
    if |items| == 1 {
      var p, q := PaddedIsRead(items[0], data, i, j, d);
      LastItem(data, p, done, items[0], q);
      assert items == [items[0]];
    } else {
      var k: nat :| k < j <= |data| && data[k] == COMMA && PaddedAt(items[0], data, i, k, d)
        && ItemsAt(items[1..], data, k + 1, j, d);
      var p, q := PaddedIsRead(items[0], data, i, k, d);
      var more := done + [items[0]];
      ItemsAreRead(items[1..], data, k + 1, j, more, d);
      ItemAndComma(data, p, done, items[0], q, k);
      assert done + items == more + items[1..];
    }
  }

  lemma {:induction false} ObjectIsRead(members: seq<Member>, data: seq<byte>, i: nat, j: nat, d: Dialect)
    requires !d.loose
    requires ValueAt(Object(members), data, i, j, d)
    ensures ParseValue(data, i) == Ok(Object(members), j)
    decreases members, 1, 0
  {
    hide MembersAt;
    if members == [] {
      SkipsWs(data, i + 1, j - 1, d.wide);
    } else {
      MembersAreRead(members, data, i + 1, j - 1, [], d);
      OpenObject(data, i);
      assert [] + members == members;
    }
  }

  /** The white space before the key is skipped by the loop, that after the value is skipped behind the member. */
  lemma {:induction false} MemberIsRead(m: Member, data: seq<byte>, i: nat, j: nat, d: Dialect) returns (p: nat, q: nat)
    requires !d.loose
    requires j <= |data| && MemberAt(m, data, i, j, d) && (j == |data| || JsonRoundTrip.IsClose(data[j]) || data[j] == COMMA)
    ensures i <= p < q <= j <= |data| && SkipWs(data, i) == p && data[p] == QUOTE
    ensures ParseMember(data, p) == Ok(m, q) && SkipWs(data, q) == j
    decreases m, 0, 0
  {
    hide ParseValue, ParseString, PaddedAt, CharsAt, SkipWs, WsAt;
    var k: nat, r: nat;
    p, k, r :| WsAt(data, i, p, d.wide) && StringAt(m.key, data, p, k, d) && WsAt(data, k, r, d.wide) && r < |data|
      && data[r] == COLON && PaddedAt(m.value, data, r + 1, j, d);
    SkipsWs(data, i, p, d.wide);
    SkipsWs(data, k, r, d.wide);
    StringIsRead(m.key, data, p, k, d);
    var start;
    start, q := PaddedIsRead(m.value, data, r + 1, j, d);
  }

  lemma {:induction false} MembersAreRead(members: seq<Member>, data: seq<byte>, i: nat, j: nat, done: seq<Member>, d: Dialect)
    requires !d.loose
    requires members != [] && MembersAt(members, data, i, j, d) && j < |data| && data[j] == CLOSE_BRACE
    ensures i <= |data| && SkipWs(data, i) < |data| && data[SkipWs(data, i)] != CLOSE_BRACE
    ensures ParseMembers(data, SkipWs(data, i), done) == Ok(Object(done + members), j + 1)
    decreases members, 0, |members|
  {
    hide ParseMember, MemberAt, ParseMembers;
    if |members| == 1 {
      var p, q := MemberIsRead(members[0], data, i, j, d);
      LastMember(data, p, done, members[0], q);
      assert members == [members[0]];
    } else {
      var k: nat :| k < j <= |data| && data[k] == COMMA && MemberAt(members[0], data, i, k, d)
        && MembersAt(members[1..], data, k + 1, j, d);
      var p, q := MemberIsRead(members[0], data, i, k, d);
      var more := done + [members[0]];
      MembersAreRead(members[1..], data, k + 1, j, more, d);
      MemberAndComma(data, p, done, members[0], q, k);
      assert done + members == more + members[1..];
    }
  }

  // ----- what is accepted is derived by the grammar -----

  lemma {:induction false} ReadLiteralIsThere(data: seq<byte>, pos: nat, literal: seq<byte>, n: nat)
    requires n <= |literal| && Matches(data, pos, literal, n)
    ensures pos + n <= |data| || n == 0
    ensures forall k | 0 <= k < n :: pos + k < |data| && data[pos + k] == literal[k]
  {
    if n > 0 {
      ReadLiteralIsThere(data, pos, literal, n - 1);
    }
  }

  lemma {:induction false} ReadValueIsThere(data: seq<byte>, i: nat, d: Dialect)
    requires i <= |data| && ParseValue(data, i).Ok? && Suits(data, d)
    ensures ValueAt(ParseValue(data, i).value, data, i, ParseValue(data, i).next, d)
    decreases |data| - i, 1
  {
    hide ParseString, ParseItems, ParseMembers, ParseNumber, ItemsAt, MembersAt, StringAt, IsNumber;
    var c, r := Peek(data, i), ParseValue(data, i);
    if c == 110 {
      ReadLiteralIsThere(data, i, NULL_TEXT, 4);
    } else if c == 116 {
      ReadLiteralIsThere(data, i, TRUE_TEXT, 4);
    } else if c == 102 {
      ReadLiteralIsThere(data, i, FALSE_TEXT, 5);
    } else if c == QUOTE {
      ReadStringIsThere(data, i, d);
    } else if c == OPEN_BRACE {
      var p := SkipWs(data, i + 1);
      SkippedIsWs(data, i + 1, d.wide);
      if Peek(data, p) != CLOSE_BRACE {
        var members := ReadMembersAreThere(data, i + 1, p, [], d);
        assert [] + members == members;
      }
    } else if c == OPEN_BRACKET {
      var p := SkipWs(data, i + 1);
      SkippedIsWs(data, i + 1, d.wide);
      if Peek(data, p) != CLOSE_BRACKET {
        var items := ReadItemsAreThere(data, i + 1, p, [], d);
        assert [] + items == items;
      }
    } else {
      JsonRoundTrip.NumberIsStrict(data, i);
      assert At(data, i, data[i..r.next]);
    }
  }

  /** A value that is read with the white space skipped around it. */
  lemma {:induction false} ReadPaddedIsThere(data: seq<byte>, i: nat, p: nat, d: Dialect)
    requires p <= |data| && WsAt(data, i, p, d.wide) && ParseValue(data, p).Ok? && Suits(data, d)
    ensures PaddedAt(ParseValue(data, p).value, data, i, SkipWs(data, ParseValue(data, p).next), d)
    decreases |data| - p, 2
  {
    hide ParseValue, ValueAt;
    var r := ParseValue(data, p);
    ReadValueIsThere(data, p, d);
    SkippedIsWs(data, r.next, d.wide);
    assert WsAt(data, i, p, d.wide) && ValueAt(r.value, data, p, r.next, d) && WsAt(data, r.next, SkipWs(data, r.next), d.wide);
  }

  lemma {:induction false} ReadItemsAreThere(data: seq<byte>, i: nat, p: nat, done: seq<JSON>, d: Dialect) returns (items: seq<JSON>)
    requires p <= |data| && WsAt(data, i, p, d.wide) && ParseItems(data, p, done).Ok? && Suits(data, d)
    ensures items != [] && ParseItems(data, p, done).value == Array(done + items)
    ensures var end := ParseItems(data, p, done).next - 1; data[end] == CLOSE_BRACKET && ItemsAt(items, data, i, end, d)
    decreases |data| - p, 3
  {
    hide ParseValue, PaddedAt, SkipWs, WsAt, IsPlain;
    var first := ParseValue(data, p);
    var k := SkipWs(data, first.next);
    ReadPaddedIsThere(data, i, p, d);
    if Peek(data, k) == CLOSE_BRACKET {
      items := [first.value];
    } else {
      ItemAndComma(data, p, done, first.value, first.next, k);
      SkippedIsWs(data, k + 1, d.wide);
      var more := done + [first.value];
      var rest := ReadItemsAreThere(data, k + 1, SkipWs(data, k + 1), more, d);
      items := [first.value] + rest;
      assert items[1..] == rest && done + items == more + rest;
    }
  }

  lemma {:induction false} ReadMemberIsThere(data: seq<byte>, i: nat, p: nat, d: Dialect)
    requires p <= |data| && WsAt(data, i, p, d.wide) && ParseMember(data, p).Ok? && Suits(data, d)
    ensures MemberAt(ParseMember(data, p).value, data, i, SkipWs(data, ParseMember(data, p).next), d)
    decreases |data| - p, 0
  {
    hide ParseValue, ParseString, PaddedAt, StringAt;
    var key := ParseString(data, p);
    var r := SkipWs(data, key.next);
    ReadStringIsThere(data, p, d);
    SkippedIsWs(data, key.next, d.wide);
    SkippedIsWs(data, r + 1, d.wide);
    ReadPaddedIsThere(data, r + 1, SkipWs(data, r + 1), d);
    assert WsAt(data, i, p, d.wide) && StringAt(key.value, data, p, key.next, d) && WsAt(data, key.next, r, d.wide)
      && data[r] == COLON;
  }

  lemma {:induction false} ReadMembersAreThere(data: seq<byte>, i: nat, p: nat, done: seq<Member>, d: Dialect)
    returns (members: seq<Member>)
    requires p <= |data| && WsAt(data, i, p, d.wide) && ParseMembers(data, p, done).Ok? && Suits(data, d)
    ensures members != [] && ParseMembers(data, p, done).value == Object(done + members)
    ensures var end := ParseMembers(data, p, done).next - 1; data[end] == CLOSE_BRACE && MembersAt(members, data, i, end, d)
    decreases |data| - p, 3
  {
    hide ParseMember, MemberAt, SkipWs, WsAt, IsPlain;
    var first := ParseMember(data, p);
    var k := SkipWs(data, first.next);
    ReadMemberIsThere(data, i, p, d);
    if Peek(data, k) == CLOSE_BRACE {
      members := [first.value];
    } else {
      MemberAndComma(data, p, done, first.value, first.next, k);
      SkippedIsWs(data, k + 1, d.wide);
      var more := done + [first.value];
      var rest := ReadMembersAreThere(data, k + 1, SkipWs(data, k + 1), more, d);
      members := [first.value] + rest;
      assert members[1..] == rest && done + members == more + rest;
    }
  }

  // ----- the main results -----

  lemma DerivedIsAccepted(text: seq<byte>, v: JSON, d: Dialect)
    requires IsText(v, text, d) && !d.loose
    ensures Parse(text) == Ok(v, |text|)
  {
    hide ParseValue, ValueAt;
    var p, q := PaddedIsRead(v, text, 0, |text|, d);
  }

  lemma AcceptedIsDerived(text: seq<byte>, d: Dialect)
    requires Parse(text).Ok? && Suits(text, d)
    ensures IsText(Parse(text).value, text, d) && Parse(text).next == |text|
  {
    hide ParseValue, ValueAt;
    SkippedIsWs(text, 0, d.wide);
    ReadPaddedIsThere(text, 0, SkipWs(text, 0), d);
  }

  /** A text is accepted with a tree if and only if the dialect of the program derives it for this tree. */
  lemma AcceptedIffDerived(text: seq<byte>, v: JSON)
    ensures Parse(text) == Ok(v, |text|) <==> IsText(v, text, PROGRAM)
    ensures Parse(text).Ok? ==> Parse(text).next == |text|
  {
    hide ParseValue, PaddedAt;
    if Parse(text).Ok? {
      AcceptedIsDerived(text, PROGRAM);
    }
    if IsText(v, text, PROGRAM) {
      DerivedIsAccepted(text, v, PROGRAM);
    }
  }

  /** Without single surrogates, each text is derived for one tree only. */
  lemma OneTree(text: seq<byte>, v: JSON, w: JSON, d: Dialect)
    requires IsText(v, text, d) && IsText(w, text, d) && !d.loose
    ensures v == w
  {
    DerivedIsAccepted(text, v, d);
    DerivedIsAccepted(text, w, d);
  }
}
