/** How what the parser accepts differs from RFC 8259, in both directions. */
module JsonStrict {
  import opened Bytes
  import opened Decimal
  import opened Json
  import opened JsonParser
  import opened JsonGrammar
  import opened JsonAccepts
  import opened Utf8Text
  import JsonStrings
  import Utf8

  /**
   * A scan of the bytes of a text, without a parse: from a place on, some escape of a high surrogate stands without one
   * of a low surrogate behind it.
   */
  predicate LoneHighFrom(data: seq<byte>, i: nat)
    decreases |data| - i
  {
    if i >= |data| then false
    else if data[i] != BACKSLASH then LoneHighFrom(data, i + 1)
    else if CodeUnit(data, i).None? then LoneHighFrom(data, i + 2)
    else if !IsHigh(CodeUnit(data, i).value) then LoneHighFrom(data, i + 6)
    else if CodeUnit(data, i + 6).Some? && IsLow(CodeUnit(data, i + 6).value) then LoneHighFrom(data, i + 12)
    else true
  }

  // ----- stretches of texts -----

  predicate PlainAt(data: seq<byte>, i: nat, j: nat) {
    forall k | i <= k < j && k < |data| :: data[k] != 11 && data[k] != 12
  }

  /** What a dialect keeps from every stretch: odd white space, bytes that are not UTF-8, surrogates without their pair. */
  predicate Clean(data: seq<byte>, i: nat, j: nat, d: Dialect) {
    && i <= j <= |data|
    && (d.wide || PlainAt(data, i, j))
    && (d.bytes || After(START, data[i..j]) == START)
    && (d.loose || LoneHighFrom(data, i) == LoneHighFrom(data, j))
  }

  lemma Joined(data: seq<byte>, i: nat, k: nat, j: nat, d: Dialect)
    requires Clean(data, i, k, d) && Clean(data, k, j, d)
    ensures Clean(data, i, j, d)
  {
    hide LoneHighFrom, After;
    assert data[i..j] == data[i..k] + data[k..j];
    AfterParts(START, data[i..k], data[k..j]);
  }

  predicate IsSimple(c: byte) { c <= 0x7F && c != BACKSLASH && c != 11 && c != 12 }

  lemma {:induction false} NoBackslash(data: seq<byte>, i: nat, j: nat)
    requires i <= j <= |data| && forall k | i <= k < j :: data[k] != BACKSLASH
    ensures LoneHighFrom(data, i) == LoneHighFrom(data, j)
    decreases j - i
  {
    if i < j {
      NoBackslash(data, i + 1, j);
    }
  }

  lemma AsciiIsClean(data: seq<byte>, i: nat, j: nat, d: Dialect)
    requires i <= j <= |data| && (forall k | i <= k < j :: data[k] <= 0x7F && data[k] != BACKSLASH) && (d.wide || PlainAt(data, i, j))
    ensures Clean(data, i, j, d)
  {
    hide LoneHighFrom;
    NoBackslash(data, i, j);
    if i < j {
      JsonStrings.AsciiScans(START, data[i..j]);
    }
  }

  lemma ByteIsClean(data: seq<byte>, i: nat, d: Dialect)
    requires i < |data| && IsSimple(data[i])
    ensures Clean(data, i, i + 1, d)
  {
    AsciiIsClean(data, i, i + 1, d);
  }

  lemma WsIsClean(data: seq<byte>, i: nat, j: nat, d: Dialect)
    requires WsAt(data, i, j, d.wide)
    ensures Clean(data, i, j, d)
  {
    AsciiIsClean(data, i, j, d);
  }

  lemma WordIsClean(word: seq<byte>, data: seq<byte>, i: nat, j: nat, d: Dialect)
    requires WordAt(word, data, i, j) && forall c | c in word :: IsSimple(c)
    ensures Clean(data, i, j, d)
  {
    forall k | i <= k < j ensures IsSimple(data[k]) {
      assert data[i + (k - i)] == word[k - i];
    }
    AsciiIsClean(data, i, j, d);
  }

  lemma DigitsAreSimple(digits: seq<byte>)
    ensures IsDigits(digits) || IsInteger(digits) ==> forall c | c in digits :: IsSimple(c)
  {
    assert forall c | c in digits && IsDigits(digits) :: IsDigit(c);
  }

  lemma NumberIsSimple(repr: seq<byte>)
    requires IsNumber(repr)
    ensures forall c | c in repr :: IsSimple(c)
  {
    var sign, int_, frac, exp :| AreParts(repr, sign, int_, frac, exp);
    DigitsAreSimple(int_);
    if frac != [] {
      DigitsAreSimple(frac[1..]);
      assert frac == [frac[0]] + frac[1..];
    }
    if exp != [] {
      assert exp == [exp[0]] + exp[1..];
      if IsDigits(exp[1..]) {
        DigitsAreSimple(exp[1..]);
      } else {
        DigitsAreSimple(exp[2..]);
        assert exp[1..] == [exp[1]] + exp[2..];
      }
    }
  }

  // ----- the words of a dialect are clean -----

  lemma UnitIsAscii(unit: nat, data: seq<byte>, i: nat)
    requires UnitAt(unit, data, i)
    ensures i + 6 <= |data| && PlainAt(data, i, i + 6) && forall k | i <= k < i + 6 :: data[k] <= 0x7F
  {
  }

  lemma EscapeIsAscii(m: seq<byte>, data: seq<byte>, i: nat, k: nat, d: Dialect)
    requires EscapeAt(m, data, i, k, d)
    ensures i < k <= |data| && PlainAt(data, i, k) && forall t | i <= t < k :: data[t] <= 0x7F
  {
    hide UnitAt, Utf8.Emitted, IsPair;
    if k == i + 6 {
      var unit: nat :| UnitAt(unit, data, i);
      UnitIsAscii(unit, data, i);
    } else if k == i + 12 {
      var high: nat, low: nat :| UnitAt(high, data, i) && UnitAt(low, data, i + 6);
      UnitIsAscii(high, data, i);
      UnitIsAscii(low, data, i + 6);
    }
  }

  lemma EscapeIsPaired(m: seq<byte>, data: seq<byte>, i: nat, k: nat, d: Dialect)
    requires EscapeAt(m, data, i, k, d) && !d.loose
    ensures LoneHighFrom(data, i) == LoneHighFrom(data, k)
  {
    hide Utf8.Emitted;
    if k == i + 12 {
      var high: nat, low: nat :| UnitAt(high, data, i) && UnitAt(low, data, i + 6) && IsPair(high, low, m);
    }
  }

  lemma CharIsClean(m: seq<byte>, data: seq<byte>, i: nat, k: nat, d: Dialect)
    requires CharAt(m, data, i, k, d)
    ensures i < k && Clean(data, i, k, d)
  {
    hide EscapeAt, LoneHighFrom;
    if EscapeAt(m, data, i, k, d) {
      EscapeIsAscii(m, data, i, k, d);
      JsonStrings.AsciiScans(START, data[i..k]);
      if !d.loose {
        EscapeIsPaired(m, data, i, k, d);
      }
    } else {
      RawIsUnescaped(m, data, i, k, d);
      NoBackslash(data, i, k);
      CharacterScans(m);
    }
  }

  lemma {:induction false} CharsAreClean(x: seq<byte>, data: seq<byte>, i: nat, j: nat, d: Dialect)
    requires CharsAt(x, data, i, j, d)
    ensures Clean(data, i, j, d)
    decreases j - i
  {
    hide CharAt, Clean;
    if i == j {
      NothingIsClean(data, i, d);
    } else {
      var k: nat, m: seq<byte> :| i < k <= j && CharAt(m, data, i, k, d) && m <= x && CharsAt(x[|m|..], data, k, j, d);
      CharIsClean(m, data, i, k, d);
      CharsAreClean(x[|m|..], data, k, j, d);
      Joined(data, i, k, j, d);
    }
  }

  lemma NothingIsClean(data: seq<byte>, i: nat, d: Dialect)
    requires i <= |data|
    ensures Clean(data, i, i, d)
  {
    AsciiIsClean(data, i, i, d);
  }

  lemma StringIsClean(x: seq<byte>, data: seq<byte>, i: nat, j: nat, d: Dialect)
    requires StringAt(x, data, i, j, d)
    ensures Clean(data, i, j, d)
  {
    hide Clean, CharsAt;
    CharsAreClean(x, data, i + 1, j - 1, d);
    Enclosed(data, i, j, d);
  }

  /** A stretch with one byte on both sides. */
  lemma Enclosed(data: seq<byte>, i: nat, j: nat, d: Dialect)
    requires i + 2 <= j <= |data| && IsSimple(data[i]) && IsSimple(data[j - 1]) && Clean(data, i + 1, j - 1, d)
    ensures Clean(data, i, j, d)
  {
    hide Clean;
    ByteIsClean(data, i, d);
    ByteIsClean(data, j - 1, d);
    Joined(data, i, i + 1, j - 1, d);
    Joined(data, i, j - 1, j, d);
  }

  lemma {:induction false} ValueIsClean(v: JSON, data: seq<byte>, i: nat, j: nat, d: Dialect)
    requires ValueAt(v, data, i, j, d)
    ensures Clean(data, i, j, d)
    decreases v, 1, 0
  {
    hide StringAt, ItemsAt, MembersAt, IsNumber, Clean;
    match v {
      case Null => WordIsClean(NULL_TEXT, data, i, j, d);
      case Bool(b) => WordIsClean(if b then TRUE_TEXT else FALSE_TEXT, data, i, j, d);
      case Number(repr) =>
        NumberIsSimple(repr);
        WordIsClean(repr, data, i, j, d);
      case Str(s) => StringIsClean(s, data, i, j, d);
      case Array(items) =>
        if items == [] {
          WsIsClean(data, i + 1, j - 1, d);
        } else {
          ItemsAreClean(items, data, i + 1, j - 1, d);
        }
        Enclosed(data, i, j, d);
      case Object(members) =>
        if members == [] {
          WsIsClean(data, i + 1, j - 1, d);
        } else {
          MembersAreClean(members, data, i + 1, j - 1, d);
        }
        Enclosed(data, i, j, d);
    }
  }

  lemma {:induction false} PaddedIsClean(v: JSON, data: seq<byte>, i: nat, j: nat, d: Dialect)
    requires PaddedAt(v, data, i, j, d)
    ensures Clean(data, i, j, d)
    decreases v, 2, 0
  {
    hide ValueAt, Clean;
    var p: nat, q: nat :| WsAt(data, i, p, d.wide) && ValueAt(v, data, p, q, d) && WsAt(data, q, j, d.wide);
    WsIsClean(data, i, p, d);
    ValueIsClean(v, data, p, q, d);
    WsIsClean(data, q, j, d);
    Joined(data, i, p, q, d);
    Joined(data, i, q, j, d);
  }

  /** Two stretches with a comma or a colon between them. */
  lemma Separated(data: seq<byte>, i: nat, k: nat, j: nat, d: Dialect)
    requires k < |data| && IsSimple(data[k]) && Clean(data, i, k, d) && Clean(data, k + 1, j, d)
    ensures Clean(data, i, j, d)
  {
    hide Clean;
    ByteIsClean(data, k, d);
    Joined(data, i, k, k + 1, d);
    Joined(data, i, k + 1, j, d);
  }

  lemma {:induction false} ItemsAreClean(items: seq<JSON>, data: seq<byte>, i: nat, j: nat, d: Dialect)
    requires items != [] && ItemsAt(items, data, i, j, d)
    ensures Clean(data, i, j, d)
    decreases items, 0, |items|
  {
    hide PaddedAt, Clean;
    if |items| == 1 {
      PaddedIsClean(items[0], data, i, j, d);
    } else {
      var k: nat :| k < j <= |data| && data[k] == COMMA && PaddedAt(items[0], data, i, k, d)
        && ItemsAt(items[1..], data, k + 1, j, d);
      PaddedIsClean(items[0], data, i, k, d);
      ItemsAreClean(items[1..], data, k + 1, j, d);
      Separated(data, i, k, j, d);
    }
  }

  lemma {:induction false} MemberIsClean(m: Member, data: seq<byte>, i: nat, j: nat, d: Dialect)
    requires MemberAt(m, data, i, j, d)
    ensures Clean(data, i, j, d)
    decreases m, 0, 0
  {
    hide PaddedAt, StringAt, Clean;
    var p: nat, q: nat, r: nat :| WsAt(data, i, p, d.wide) && StringAt(m.key, data, p, q, d) && WsAt(data, q, r, d.wide)
      && r < |data| && data[r] == COLON && PaddedAt(m.value, data, r + 1, j, d);
    WsIsClean(data, i, p, d);
    StringIsClean(m.key, data, p, q, d);
    WsIsClean(data, q, r, d);
    PaddedIsClean(m.value, data, r + 1, j, d);
    Joined(data, i, p, q, d);
    Joined(data, i, q, r, d);
    Separated(data, i, r, j, d);
  }

  lemma {:induction false} MembersAreClean(members: seq<Member>, data: seq<byte>, i: nat, j: nat, d: Dialect)
    requires members != [] && MembersAt(members, data, i, j, d)
    ensures Clean(data, i, j, d)
    decreases members, 0, |members|
  {
    hide MemberAt, Clean;
    if |members| == 1 {
      MemberIsClean(members[0], data, i, j, d);
    } else {
      var k: nat :| k < j <= |data| && data[k] == COMMA && MemberAt(members[0], data, i, k, d)
        && MembersAt(members[1..], data, k + 1, j, d);
      MemberIsClean(members[0], data, i, k, d);
      MembersAreClean(members[1..], data, k + 1, j, d);
      Separated(data, i, k, j, d);
    }
  }

  // ----- the same texts with pairs and with single surrogates -----

  function Turned(d: Dialect): Dialect { d.(loose := !d.loose) }

  /** No high surrogate is left alone from a place on, if the dialect allows that at all. */
  predicate NoneAlone(data: seq<byte>, i: nat, d: Dialect) { d.loose ==> !LoneHighFrom(data, i) }

  /** A character that both dialects have. */
  predicate IsCommon(data: seq<byte>, i: nat) { CodeUnit(data, i).Some? ==> !IsHigh(CodeUnit(data, i).value) }

  lemma CommonIsKept(m: seq<byte>, data: seq<byte>, i: nat, k: nat, d: Dialect)
    requires CharAt(m, data, i, k, d) && IsCommon(data, i)
    ensures i < k <= |data| && CharAt(m, data, i, k, Turned(d)) && LoneHighFrom(data, i) == LoneHighFrom(data, k)
  {
    hide Utf8.Emitted;
    if RawAt(m, data, i, k, d) {
      RawIsUnescaped(m, data, i, k, d);
      NoBackslash(data, i, k);
    } else {
      EscapeIsAscii(m, data, i, k, d);
    }
  }

  /** A high surrogate: in a loose dialect alone, otherwise with the low one behind it. */
  lemma HighIsEscape(m: seq<byte>, data: seq<byte>, i: nat, k: nat, d: Dialect)
    requires CharAt(m, data, i, k, d) && !IsCommon(data, i)
    ensures d.loose ==> k == i + 6
    ensures !d.loose ==> k == i + 12 && CodeUnit(data, i + 6).Some? && IsLow(CodeUnit(data, i + 6).value)
  {
    hide Utf8.Emitted;
  }

  lemma UnitIsRange(data: seq<byte>, i: nat)
    requires CodeUnit(data, i).Some?
    ensures UnitAt(CodeUnit(data, i).value, data, i)
  {
  }

  /** One escape of four digits as a word of the loose dialect. */
  lemma SingleIsLoose(data: seq<byte>, i: nat, d: Dialect) returns (m: seq<byte>)
    requires CodeUnit(data, i).Some? && d.loose
    ensures CharAt(m, data, i, i + 6, d)
  {
    hide CodeUnit, Utf8.Emitted;
    UnitIsRange(data, i);
    m := Utf8.Emitted(CodeUnit(data, i).value);
  }

  /** Two escapes of four digits as a pair. */
  lemma PairIsEscape(data: seq<byte>, i: nat, d: Dialect) returns (m: seq<byte>)
    requires CodeUnit(data, i).Some? && CodeUnit(data, i + 6).Some? && !d.loose
    requires IsHigh(CodeUnit(data, i).value) && IsLow(CodeUnit(data, i + 6).value)
    ensures CharAt(m, data, i, i + 12, d)
  {
    hide CodeUnit, Utf8.Emitted;
    UnitIsRange(data, i);
    UnitIsRange(data, i + 6);
    var high, low := CodeUnit(data, i).value, CodeUnit(data, i + 6).value;
    m := Utf8.Emitted(0x1_0000 + (high - 0xD800) * 0x400 + (low - 0xDC00));
    assert IsPair(high, low, m);
  }

  lemma UnitFitsIn(data: seq<byte>, i: nat)
    requires CodeUnit(data, i).Some?
    ensures i + 6 <= |data| && data[i] == BACKSLASH
  {
  }

  lemma AddChar(m: seq<byte>, rest: seq<byte>, data: seq<byte>, i: nat, k: nat, j: nat, d: Dialect)
    requires i < k <= j <= |data| && CharAt(m, data, i, k, d) && CharsAt(rest, data, k, j, d)
    ensures CharsAt(m + rest, data, i, j, d)
  {
    hide CharAt;
    assert m <= m + rest && (m + rest)[|m|..] == rest;
  }

  lemma {:induction false} CharsAreTurned(x: seq<byte>, data: seq<byte>, i: nat, j: nat, d: Dialect) returns (y: seq<byte>)
    requires CharsAt(x, data, i, j, d) && NoneAlone(data, i, d) && j < |data| && data[j] == QUOTE
    ensures CharsAt(y, data, i, j, Turned(d)) && NoneAlone(data, j, d)
    decreases j - i
  {
    hide CharAt, CodeUnit, LoneHighFrom;
    if i == j {
      y := [];
    } else {
      var k: nat, m: seq<byte> :| i < k <= j && CharAt(m, data, i, k, d) && m <= x && CharsAt(x[|m|..], data, k, j, d);
      if IsCommon(data, i) {
        CommonIsKept(m, data, i, k, d);
        var rest := CharsAreTurned(x[|m|..], data, k, j, d);
        AddChar(m, rest, data, i, k, j, Turned(d));
        y := m + rest;
      } else {
        HighIsEscape(m, data, i, k, d);
        if d.loose {
          y := HighIsPaired(x[|m|..], data, i, j, d);
        } else {
          PairPasses(data, i);
          var rest := CharsAreTurned(x[|m|..], data, k, j, d);
          var high := SingleIsLoose(data, i, Turned(d));
          var low := SingleIsLoose(data, i + 6, Turned(d));
          AddChar(low, rest, data, i + 6, k, j, Turned(d));
          AddChar(high, low + rest, data, i, i + 6, j, Turned(d));
          y := high + (low + rest);
        }
      }
    }
  }

  lemma PairPasses(data: seq<byte>, i: nat)
    requires CodeUnit(data, i).Some? && IsHigh(CodeUnit(data, i).value)
    ensures CodeUnit(data, i + 6).Some? && IsLow(CodeUnit(data, i + 6).value) ==> LoneHighFrom(data, i) == LoneHighFrom(data, i + 12)
    ensures !LoneHighFrom(data, i) ==> CodeUnit(data, i + 6).Some? && IsLow(CodeUnit(data, i + 6).value)
  {
  }

  /** Behind a high surrogate that is not alone comes a low one, and with it they are a pair. */
  lemma {:induction false} HighIsPaired(x: seq<byte>, data: seq<byte>, i: nat, j: nat, d: Dialect) returns (y: seq<byte>)
    requires d.loose && CodeUnit(data, i).Some? && IsHigh(CodeUnit(data, i).value) && !LoneHighFrom(data, i)
    requires i + 6 <= j && CharsAt(x, data, i + 6, j, d) && j < |data| && data[j] == QUOTE
    ensures CharsAt(y, data, i, j, Turned(d)) && NoneAlone(data, j, d)
    decreases j - i, 0
  {
    hide CharAt, CodeUnit, LoneHighFrom;
    PairPasses(data, i);
    UnitFitsIn(data, i + 6);
    var k: nat, m: seq<byte> :| i + 6 < k <= j && CharAt(m, data, i + 6, k, d) && m <= x && CharsAt(x[|m|..], data, k, j, d);
    LooseEscapeIsSix(m, data, i + 6, k, d);
    var pair := PairIsEscape(data, i, Turned(d));
    var rest := CharsAreTurned(x[|m|..], data, k, j, d);
    AddChar(pair, rest, data, i, k, j, Turned(d));
    y := pair + rest;
  }

  lemma LooseEscapeIsSix(m: seq<byte>, data: seq<byte>, i: nat, k: nat, d: Dialect)
    requires CharAt(m, data, i, k, d) && CodeUnit(data, i).Some? && d.loose
    ensures k == i + 6
  {
    hide Utf8.Emitted;
  }

  // The white space, the punctuation and the words between strings are the same in both dialects, and have no escapes.

  lemma WsPasses(data: seq<byte>, i: nat, j: nat, wide: bool)
    requires WsAt(data, i, j, wide)
    ensures LoneHighFrom(data, i) == LoneHighFrom(data, j)
  {
    NoBackslash(data, i, j);
  }

  lemma WordPasses(word: seq<byte>, data: seq<byte>, i: nat, j: nat)
    requires WordAt(word, data, i, j) && forall c | c in word :: IsSimple(c)
    ensures LoneHighFrom(data, i) == LoneHighFrom(data, j)
  {
    hide LoneHighFrom;
    WordIsClean(word, data, i, j, PAIRED);
  }

  lemma BytePasses(data: seq<byte>, i: nat)
    requires i < |data| && data[i] != BACKSLASH
    ensures LoneHighFrom(data, i) == LoneHighFrom(data, i + 1)
  {
  }

  lemma {:induction false} StringIsTurned(x: seq<byte>, data: seq<byte>, i: nat, j: nat, d: Dialect) returns (y: seq<byte>)
    requires StringAt(x, data, i, j, d) && NoneAlone(data, i, d)
    ensures StringAt(y, data, i, j, Turned(d)) && NoneAlone(data, j, d)
  {
    hide CharsAt, LoneHighFrom;
    BytePasses(data, i);
    y := CharsAreTurned(x, data, i + 1, j - 1, d);
    BytePasses(data, j - 1);
  }

  lemma {:induction false} ValueIsTurned(v: JSON, data: seq<byte>, i: nat, j: nat, d: Dialect) returns (w: JSON)
    requires ValueAt(v, data, i, j, d) && NoneAlone(data, i, d)
    ensures ValueAt(w, data, i, j, Turned(d)) && NoneAlone(data, j, d)
    decreases v, 1, 0
  {
    hide StringAt, ItemsAt, MembersAt, IsNumber, LoneHighFrom;
    w := v;
    match v {
      case Null => WordPasses(NULL_TEXT, data, i, j);
      case Bool(b) => WordPasses(if b then TRUE_TEXT else FALSE_TEXT, data, i, j);
      case Number(repr) =>
        NumberIsSimple(repr);
        WordPasses(repr, data, i, j);
      case Str(s) =>
        var y := StringIsTurned(s, data, i, j, d);
        w := Str(y);
      case Array(items) =>
        BytePasses(data, i);
        if items == [] {
          WsPasses(data, i + 1, j - 1, d.wide);
        } else {
          var turned := ItemsAreTurned(items, data, i + 1, j - 1, d);
          w := Array(turned);
        }
        BytePasses(data, j - 1);
      case Object(members) =>
        BytePasses(data, i);
        if members == [] {
          WsPasses(data, i + 1, j - 1, d.wide);
        } else {
          var turned := MembersAreTurned(members, data, i + 1, j - 1, d);
          w := Object(turned);
        }
        BytePasses(data, j - 1);
    }
  }

  lemma {:induction false} PaddedIsTurned(v: JSON, data: seq<byte>, i: nat, j: nat, d: Dialect) returns (w: JSON)
    requires PaddedAt(v, data, i, j, d) && NoneAlone(data, i, d)
    ensures PaddedAt(w, data, i, j, Turned(d)) && NoneAlone(data, j, d)
    decreases v, 2, 0
  {
    hide ValueAt, LoneHighFrom;
    var p: nat, q: nat :| WsAt(data, i, p, d.wide) && ValueAt(v, data, p, q, d) && WsAt(data, q, j, d.wide);
    WsPasses(data, i, p, d.wide);
    w := ValueIsTurned(v, data, p, q, d);
    WsPasses(data, q, j, d.wide);
    assert WsAt(data, i, p, Turned(d).wide) && ValueAt(w, data, p, q, Turned(d)) && WsAt(data, q, j, Turned(d).wide);
  }

  lemma {:induction false} ItemsAreTurned(items: seq<JSON>, data: seq<byte>, i: nat, j: nat, d: Dialect) returns (turned: seq<JSON>)
    requires items != [] && ItemsAt(items, data, i, j, d) && NoneAlone(data, i, d)
    ensures turned != [] && ItemsAt(turned, data, i, j, Turned(d)) && NoneAlone(data, j, d)
    decreases items, 0, |items|
  {
    hide PaddedAt, LoneHighFrom;
    if |items| == 1 {
      var w := PaddedIsTurned(items[0], data, i, j, d);
      turned := [w];
    } else {
      var k: nat :| k < j <= |data| && data[k] == COMMA && PaddedAt(items[0], data, i, k, d)
        && ItemsAt(items[1..], data, k + 1, j, d);
      var w := PaddedIsTurned(items[0], data, i, k, d);
      BytePasses(data, k);
      var rest := ItemsAreTurned(items[1..], data, k + 1, j, d);
      turned := [w] + rest;
      assert turned[1..] == rest;
    }
  }

  lemma {:induction false} MemberIsTurned(m: Member, data: seq<byte>, i: nat, j: nat, d: Dialect) returns (turned: Member)
    requires MemberAt(m, data, i, j, d) && NoneAlone(data, i, d)
    ensures MemberAt(turned, data, i, j, Turned(d)) && NoneAlone(data, j, d)
    decreases m, 0, 0
  {
    hide PaddedAt, StringAt, LoneHighFrom;
    var p: nat, q: nat, r: nat :| WsAt(data, i, p, d.wide) && StringAt(m.key, data, p, q, d) && WsAt(data, q, r, d.wide)
      && r < |data| && data[r] == COLON && PaddedAt(m.value, data, r + 1, j, d);
    WsPasses(data, i, p, d.wide);
    var key := StringIsTurned(m.key, data, p, q, d);
    WsPasses(data, q, r, d.wide);
    BytePasses(data, r);
    var value := PaddedIsTurned(m.value, data, r + 1, j, d);
    turned := Member(key, value);
    var e := Turned(d);
    assert WsAt(data, i, p, e.wide) && StringAt(key, data, p, q, e) && WsAt(data, q, r, e.wide)
      && PaddedAt(value, data, r + 1, j, e);
  }

  lemma {:induction false} MembersAreTurned(members: seq<Member>, data: seq<byte>, i: nat, j: nat, d: Dialect)
    returns (turned: seq<Member>)
    requires members != [] && MembersAt(members, data, i, j, d) && NoneAlone(data, i, d)
    ensures turned != [] && MembersAt(turned, data, i, j, Turned(d)) && NoneAlone(data, j, d)
    decreases members, 0, |members|
  {
    hide MemberAt, LoneHighFrom;
    if |members| == 1 {
      var m := MemberIsTurned(members[0], data, i, j, d);
      turned := [m];
    } else {
      var k: nat :| k < j <= |data| && data[k] == COMMA && MemberAt(members[0], data, i, k, d)
        && MembersAt(members[1..], data, k + 1, j, d);
      var m := MemberIsTurned(members[0], data, i, k, d);
      BytePasses(data, k);
      var rest := MembersAreTurned(members[1..], data, k + 1, j, d);
      turned := [m] + rest;
      assert turned[1..] == rest;
    }
  }

  // ----- the main results -----

  /**
   * A text is derived for a tree by the RFC with paired surrogates if and only if it is accepted with this tree, has no
   * bytes 11 and 12, and is UTF-8.
   */
  lemma PairedIff(text: seq<byte>, v: JSON)
    ensures IsText(v, text, PAIRED) <==> Parse(text) == Ok(v, |text|) && IsPlain(text, false) && IsUtf8(text)
  {
    hide ParseValue, ValueAt, After, LoneHighFrom;
    ScanIsExact(text);
    if IsText(v, text, PAIRED) {
      DerivedIsAccepted(text, v, PAIRED);
      PaddedIsClean(v, text, 0, |text|, PAIRED);
      assert text[0..|text|] == text;
    }
    if Parse(text) == Ok(v, |text|) && IsPlain(text, false) && IsUtf8(text) {
      AcceptedIsDerived(text, PAIRED);
    }
  }

  /** The texts of RFC 8259 to the letter, whatever they stand for. */
  ghost predicate IsRfcText(text: seq<byte>) { exists v :: IsText(v, text, RFC_8259) }

  /** An accepted text has no high surrogate alone; the scan finds none. */
  lemma AcceptedHasNoneAlone(text: seq<byte>)
    requires Parse(text).Ok?
    ensures !LoneHighFrom(text, 0)
  {
    hide ParseValue, ValueAt;
    AcceptedIsDerived(text, PROGRAM);
    PaddedIsClean(Parse(text).value, text, 0, |text|, PROGRAM);
  }

  /** A text of the RFC is accepted if and only if no high surrogate escape in it stands without a low one behind it. */
  lemma RfcTextIsAcceptedIff(text: seq<byte>)
    requires IsRfcText(text)
    ensures Parse(text).Ok? <==> !LoneHighFrom(text, 0)
  {
    hide ParseValue, ValueAt, PaddedAt;
    if Parse(text).Ok? {
      AcceptedHasNoneAlone(text);
    }
    if !LoneHighFrom(text, 0) {
      var v :| IsText(v, text, RFC_8259);
      var w := PaddedIsTurned(v, text, 0, |text|, RFC_8259);
      assert Turned(RFC_8259) == PAIRED && IsText(w, text, PAIRED);
      DerivedIsAccepted(text, w, PAIRED);
    }
  }

  /** An accepted text is one of the RFC if and only if it has no bytes 11 and 12 and is UTF-8. */
  lemma AcceptedIsRfcTextIff(text: seq<byte>)
    requires Parse(text).Ok?
    ensures IsRfcText(text) <==> IsPlain(text, false) && IsUtf8(text)
  {
    hide ParseValue, ValueAt, PaddedAt, LoneHighFrom, After;
    ScanIsExact(text);
    if IsRfcText(text) {
      var v :| IsText(v, text, RFC_8259);
      PaddedIsClean(v, text, 0, |text|, RFC_8259);
      assert text[0..|text|] == text;
    }
    if IsPlain(text, false) && IsUtf8(text) {
      AcceptedIsDerived(text, PAIRED);
      var w := PaddedIsTurned(Parse(text).value, text, 0, |text|, PAIRED);
      assert Turned(PAIRED) == RFC_8259 && IsText(w, text, RFC_8259);
    }
  }

  /** Vertical tabs and form feeds count as white space: the bytes 11, "1", 12 are accepted, and no text of the RFC. */
  lemma FormFeedIsAccepted(text: seq<byte>)
    requires text == [11, ZERO + 1, 12]
    ensures Parse(text) == Ok(Number([ZERO + 1]), 3) && !IsRfcText(text)
  {
    hide ParseValue, IsRfcText;
    var repr, none: seq<byte> := [ZERO + 1], [];
    assert IsDigits(repr) && IsInteger(repr) && repr == none + repr + none + none;
    assert AreParts(repr, none, repr, none, none);
    assert WordAt(repr, text, 1, 2);
    assert WsAt(text, 0, 1, true) && ValueAt(Number(repr), text, 1, 2, PROGRAM) && WsAt(text, 2, 3, true);
    DerivedIsAccepted(text, Number(repr), PROGRAM);
    AcceptedIsRfcTextIff(text);
  }

  /** The three bytes 22 FF 22 (hexadecimal) are accepted, and no text of the RFC. */
  lemma RawByteIsNoRfcText(text: seq<byte>)
    requires text == [QUOTE, 0xFF, QUOTE]
    ensures Parse(text) == Ok(Str([0xFF]), 3) && !IsRfcText(text)
  {
    hide ParseValue, IsRfcText;
    JsonStrings.RawByteIsAccepted(text);
    AcceptedIsRfcTextIff(text);
    ScanIsExact(text);
    assert text == [QUOTE] + ([0xFF] + [QUOTE]);
    AfterParts(START, [QUOTE], [0xFF] + [QUOTE]);
    AfterOne(START, QUOTE);
    AfterParts(START, [0xFF], [QUOTE]);
    AfterOne(START, 0xFF);
    BrokenStays([QUOTE]);
  }

  /** The text "\uD800" is one of the RFC, and is refused. */
  lemma LoneHighIsRefused(text: seq<byte>)
    requires text == [QUOTE, BACKSLASH, 117, 68, ZERO + 8, ZERO, ZERO, QUOTE]
    ensures IsRfcText(text) && Parse(text).Err?
  {
    hide ParseValue, Utf8.Emitted;
    assert CodeUnit(text, 1) == Some(0xD800) && CodeUnit(text, 7) == None;
    var m := SingleIsLoose(text, 1, RFC_8259);
    assert CharsAt([], text, 7, 7, RFC_8259);
    AddChar(m, [], text, 1, 7, 7, RFC_8259);
    assert StringAt(m + [], text, 0, 8, RFC_8259);
    assert WsAt(text, 0, 0, false) && ValueAt(Str(m + []), text, 0, 8, RFC_8259) && WsAt(text, 8, 8, false);
    assert IsText(Str(m + []), text, RFC_8259);
    assert LoneHighFrom(text, 1);
    RfcTextIsAcceptedIff(text);
  }
}
