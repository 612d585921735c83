/** What is written is read back, and what is read can be written. */
module JsonRoundTrip {
  import opened Bytes
  import opened Decimal
  import opened Json
  import opened JsonParser
  import Utf8

  lemma TakeOneMore<T>(s: seq<T>, k: nat)
    requires k <= |s|
    ensures k < |s| ==> s[..k] + [s[k]] == s[..k + 1]
    ensures s[..|s|] == s
  {
  }

  lemma SplitThree(data: seq<byte>, pos: nat, a: seq<byte>, b: seq<byte>, c: seq<byte>)
    requires At(data, pos, a + b + c)
    ensures At(data, pos, a) && At(data, pos + |a|, b) && At(data, pos + |a| + |b|, c)
  {
    AtSplit(data, pos, a + b, c);
    AtSplit(data, pos, a, b);
  }

  lemma SplitFour(data: seq<byte>, pos: nat, a: seq<byte>, b: seq<byte>, c: seq<byte>, d: seq<byte>)
    requires At(data, pos, a + b + c + d)
    ensures At(data, pos, a) && At(data, pos + |a|, b) && At(data, pos + |a| + |b|, c) && At(data, pos + |a| + |b| + |c|, d)
  {
    AtSplit(data, pos, a + b + c, d);
    SplitThree(data, pos, a, b, c);
  }

  // ----- white space -----

  lemma {:induction false} SkipsSpaces(data: seq<byte>, pos: nat, gap: seq<byte>)
    requires At(data, pos, gap) && forall k | 0 <= k < |gap| :: IsSpace(gap[k])
    requires pos + |gap| == |data| || !IsSpace(data[pos + |gap|])
    ensures SkipWs(data, pos) == pos + |gap|
    decreases |gap|
  {
    if gap != [] {
      AtHead(data, pos, gap);
      assert gap == [gap[0]] + gap[1..];
      AtSplit(data, pos, [gap[0]], gap[1..]);
      SkipsSpaces(data, pos + 1, gap[1..]);
    }
  }

  lemma GapIsSpace(o: Options, depth: nat)
    ensures forall k | 0 <= k < |Gap(o, depth)| :: IsSpace(Gap(o, depth)[k])
  {
  }

  // ----- literals -----

  lemma {:induction false} ReadsLiteral(data: seq<byte>, pos: nat, literal: seq<byte>, n: nat)
    requires At(data, pos, literal) && n <= |literal|
    ensures Matches(data, pos, literal, n)
  {
    if n > 0 {
      ReadsLiteral(data, pos, literal, n - 1);
      assert data[pos + (n - 1)] == literal[n - 1];
    }
  }

  // ----- numbers -----

  predicate IsEnd(c: byte) { c == COMMA || c == CLOSE_BRACKET || c == CLOSE_BRACE || IsSpace(c) }

  predicate IsClose(c: byte) { c == CLOSE_BRACKET || c == CLOSE_BRACE }

  /** What may follow a value in a text. */
  predicate Ends(data: seq<byte>, pos: nat) {
    pos <= |data| && (pos == |data| || IsEnd(data[pos]))
  }

  lemma {:induction false} SkipsDigits(data: seq<byte>, pos: nat, digits: seq<byte>)
    requires At(data, pos, digits) && forall k | 0 <= k < |digits| :: IsDigit(digits[k])
    requires !IsDigit(Peek(data, pos + |digits|))
    ensures SkipDigits(data, pos) == pos + |digits|
    decreases |digits|
  {
    if digits != [] {
      AtHead(data, pos, digits);
      assert digits == [digits[0]] + digits[1..];
      AtSplit(data, pos, [digits[0]], digits[1..]);
      SkipsDigits(data, pos + 1, digits[1..]);
    }
  }

  lemma ReadsInteger(data: seq<byte>, pos: nat, sign: seq<byte>, int_: seq<byte>)
    requires At(data, pos, sign) && At(data, pos + |sign|, int_) && IsSign(sign) && IsInteger(int_)
    requires !IsDigit(Peek(data, pos + |sign| + |int_|))
    ensures IntegerEnd(data, pos) == Ok((), pos + |sign| + |int_|)
  {
    AtHead(data, pos + |sign|, int_);
    if sign != [] {
      AtHead(data, pos, sign);
    }
    if int_ != [ZERO] {
      SkipsDigits(data, pos + |sign|, int_);
    }
  }

  lemma ReadsFraction(data: seq<byte>, pos: nat, frac: seq<byte>)
    requires At(data, pos, frac) && IsFraction(frac)
    requires !IsDigit(Peek(data, pos + |frac|)) && (frac == [] ==> Peek(data, pos) != POINT)
    ensures FractionEnd(data, pos) == Ok((), pos + |frac|)
  {
    if frac != [] {
      AtHead(data, pos, frac);
      assert frac == [frac[0]] + frac[1..];
      AtSplit(data, pos, [frac[0]], frac[1..]);
      AtHead(data, pos + 1, frac[1..]);
      SkipsDigits(data, pos + 1, frac[1..]);
    }
  }

  lemma ReadsExponent(data: seq<byte>, pos: nat, exp: seq<byte>)
    requires At(data, pos, exp) && IsExponent(exp)
    requires !IsDigit(Peek(data, pos + |exp|)) && (exp == [] ==> !IsE(Peek(data, pos)))
    ensures ExponentEnd(data, pos) == Ok((), pos + |exp|)
  {
    hide At, SkipDigits;
    if exp != [] {
      AtHead(data, pos, exp);
      assert exp == [exp[0]] + exp[1..];
      AtSplit(data, pos, [exp[0]], exp[1..]);
      AtHead(data, pos + 1, exp[1..]);
      if IsDigits(exp[1..]) {
        SkipsDigits(data, pos + 1, exp[1..]);
      } else {
        assert exp[1..] == [exp[1]] + exp[2..];
        AtSplit(data, pos + 1, [exp[1]], exp[2..]);
        AtHead(data, pos + 2, exp[2..]);
        SkipsDigits(data, pos + 2, exp[2..]);
      }
    }
  }

  /** The first byte of the last parts of a number, or of what follows it. */
  lemma AfterParts(data: seq<byte>, pos: nat, frac: seq<byte>, exp: seq<byte>)
    requires At(data, pos, frac) && At(data, pos + |frac|, exp) && Ends(data, pos + |frac| + |exp|)
    requires IsFraction(frac) && IsExponent(exp)
    ensures !IsDigit(Peek(data, pos)) && !IsDigit(Peek(data, pos + |frac|)) && !IsDigit(Peek(data, pos + |frac| + |exp|))
    ensures frac == [] ==> Peek(data, pos) != POINT
    ensures exp == [] ==> !IsE(Peek(data, pos + |frac|))
  {
    if exp != [] {
      AtHead(data, pos + |frac|, exp);
    }
    if frac != [] {
      AtHead(data, pos, frac);
    }
  }

  lemma ReadsNumber(data: seq<byte>, pos: nat, repr: seq<byte>)
    requires At(data, pos, repr) && IsNumber(repr) && Ends(data, pos + |repr|)
    ensures ParseValue(data, pos) == Ok(Number(repr), pos + |repr|)
  {
    var sign, int_, frac, exp :| AreParts(repr, sign, int_, frac, exp);
    var p, end := pos + |sign| + |int_|, pos + |repr|;
    ReadsParts(data, pos, repr, sign, int_, frac, exp);
    NumberStart(repr, sign, int_, frac, exp);
    AtHead(data, pos, repr);
    NumberStep(data, pos, p, p + |frac|, end);
    AtSlice(data, pos, repr);
    assert data[pos..end] == repr;
  }

  lemma ReadsParts(data: seq<byte>, pos: nat, repr: seq<byte>, sign: seq<byte>, int_: seq<byte>, frac: seq<byte>, exp: seq<byte>)
    requires At(data, pos, repr) && AreParts(repr, sign, int_, frac, exp) && Ends(data, pos + |repr|)
    ensures IntegerEnd(data, pos) == Ok((), pos + |sign| + |int_|)
    ensures pos + |sign| + |int_| + |frac| <= |data|
    ensures FractionEnd(data, pos + |sign| + |int_|) == Ok((), pos + |sign| + |int_| + |frac|)
    ensures ExponentEnd(data, pos + |sign| + |int_| + |frac|) == Ok((), pos + |repr|)
  {
    var p := pos + |sign| + |int_|;
    SplitFour(data, pos, sign, int_, frac, exp);
    AfterParts(data, p, frac, exp);
    ReadsInteger(data, pos, sign, int_);
    ReadsFraction(data, p, frac);
    ReadsExponent(data, p + |frac|, exp);
  }

  lemma NumberStep(data: seq<byte>, pos: nat, p: nat, q: nat, end: nat)
    requires pos < |data| && (data[pos] == MINUS || IsDigit(data[pos])) && p <= |data| && q <= |data|
    requires IntegerEnd(data, pos) == Ok((), p) && FractionEnd(data, p) == Ok((), q) && ExponentEnd(data, q) == Ok((), end)
    ensures pos <= end <= |data| && ParseValue(data, pos) == Ok(Number(data[pos..end]), end)
  {
  }

  lemma NumberStart(repr: seq<byte>, sign: seq<byte>, int_: seq<byte>, frac: seq<byte>, exp: seq<byte>)
    requires AreParts(repr, sign, int_, frac, exp)
    ensures repr != [] && (repr[0] == MINUS || IsDigit(repr[0]))
  {
    if sign == [] {
      assert repr[0] == int_[0];
    } else {
      assert repr[0] == sign[0];
    }
  }

  // ----- strings -----

  lemma ReadsHexPair(data: seq<byte>, pos: nat, c: byte)
    requires c < 0x20 && At(data, pos, [ZERO, ZERO, HexDigit(c / 16), HexDigit(c % 16)])
    ensures ParseCodepoint(data, pos) == Ok(c, pos + 4)
  {
    var word := [ZERO, ZERO, HexDigit(c / 16), HexDigit(c % 16)];
    AtSlice(data, pos, word);
    assert data[pos..pos + 4] == word;
    assert data[pos + 0] == word[0] && data[pos + 1] == word[1] && data[pos + 2] == word[2] && data[pos + 3] == word[3];
    assert HexPrefix(data, pos, 1) == Some(0);
    assert HexPrefix(data, pos, 2) == Some(0);
    assert HexPrefix(data, pos, 3) == Some(c / 16);
    assert HexPrefix(data, pos, 4) == Some(16 * (c / 16) + c % 16);
  }

  /** One byte of a string, escaped or not. */
  lemma ReadsByte(data: seq<byte>, pos: nat, c: byte, escapeSolidus: bool, done: seq<byte>, more: seq<byte>, result: Parsed<seq<byte>>)
    requires At(data, pos, Escaped(c, escapeSolidus)) && more == done + [c]
    requires ParseChars(data, pos + |Escaped(c, escapeSolidus)|, more) == result
    ensures ParseChars(data, pos, done) == result
  {
    var word := Escaped(c, escapeSolidus);
    AtHead(data, pos, word);
    if |word| > 1 {
      AtSlice(data, pos, word);
      assert data[pos..pos + |word|][1] == data[pos + 1] == word[1];
    }
    if |word| == 6 {
      assert word == word[..2] + word[2..];
      AtSplit(data, pos, word[..2], word[2..]);
      assert word[2..] == [ZERO, ZERO, HexDigit(c / 16), HexDigit(c % 16)];
      ReadsHexPair(data, pos + 2, c);
      assert Utf8.Emitted(c) == [c];
    }
  }

  lemma {:induction false} ReadsChars(data: seq<byte>, pos: nat, s: seq<byte>, k: nat, escapeSolidus: bool)
    requires k <= |s| && At(data, pos, EscapedString(s, k, escapeSolidus))
    requires At(data, pos + |EscapedString(s, k, escapeSolidus)|, [QUOTE])
    ensures ParseChars(data, pos, s[..k]) == Ok(s, pos + |EscapedString(s, k, escapeSolidus)| + 1)
    decreases |s| - k
  {
    TakeOneMore(s, k);
    if k == |s| {
      AtHead(data, pos, [QUOTE]);
    } else {
      var first, rest := Escaped(s[k], escapeSolidus), EscapedString(s, k + 1, escapeSolidus);
      AtSplit(data, pos, first, rest);
      ReadsChars(data, pos + |first|, s, k + 1, escapeSolidus);
      ReadsByte(data, pos, s[k], escapeSolidus, s[..k], s[..k + 1], Ok(s, pos + |first| + |rest| + 1));
    }
  }

  lemma ReadsString(data: seq<byte>, pos: nat, s: seq<byte>, o: Options)
    requires At(data, pos, Quoted(s, o))
    ensures ParseString(data, pos) == Ok(s, pos + |Quoted(s, o)|) && Peek(data, pos) == QUOTE
  {
    SplitThree(data, pos, [QUOTE], EscapedString(s, 0, o.escapeSolidus), [QUOTE]);
    AtHead(data, pos, [QUOTE]);
    ReadsChars(data, pos + 1, s, 0, o.escapeSolidus);
    assert s[..0] == [];
  }

  // ----- values -----

  /** A text starts with something that is neither white space nor a closing bracket or brace. */
  lemma TextStart(v: JSON, text: seq<byte>, o: Options, depth: nat)
    requires WellFormed(v) && text == Text(v, o, depth)
    ensures text != [] && !IsSpace(text[0]) && text[0] != CLOSE_BRACKET && text[0] != CLOSE_BRACE
  {
    match v {
      case Number(repr) =>
        var sign, int_, frac, exp :| AreParts(repr, sign, int_, frac, exp);
        NumberStart(repr, sign, int_, frac, exp);
      case _ =>
    }
  }

  lemma {:induction false} ReadsText(data: seq<byte>, pos: nat, v: JSON, text: seq<byte>, o: Options, depth: nat)
    requires WellFormed(v) && text == Text(v, o, depth) && At(data, pos, text) && Ends(data, pos + |text|)
    ensures ParseValue(data, pos) == Ok(v, pos + |text|)
    decreases v, 1, 0
  {
    match v {
      case Null =>
        AtHead(data, pos, NULL_TEXT);
        ReadsLiteral(data, pos, NULL_TEXT, 4);
      case Bool(b) =>
        AtHead(data, pos, text);
        ReadsLiteral(data, pos, text, |text|);
      case Number(repr) => ReadsNumber(data, pos, repr);
      case Str(s) => ReadsString(data, pos, s, o);
      case Array(items) =>
        if items == [] {
          ReadsEmpty(data, pos, true);
        } else {
          ReadsArray(data, pos, items, text, o, depth);
        }
      case Object(members) =>
        if members == [] {
          ReadsEmpty(data, pos, false);
        } else {
          ReadsObject(data, pos, members, text, o, depth);
        }
    }
  }

  /** An empty array or object. */
  lemma ReadsEmpty(data: seq<byte>, pos: nat, isArray: bool)
    requires At(data, pos, if isArray then [OPEN_BRACKET, CLOSE_BRACKET] else [OPEN_BRACE, CLOSE_BRACE])
    ensures ParseValue(data, pos) == Ok(if isArray then Array([]) else Object([]), pos + 2)
  {
    var word := if isArray then [OPEN_BRACKET, CLOSE_BRACKET] else [OPEN_BRACE, CLOSE_BRACE];
    AtSlice(data, pos, word);
    assert data[pos..pos + 2][0] == word[0] && data[pos..pos + 2][1] == word[1];
    assert SkipWs(data, pos + 1) == pos + 1;
  }

  // ----- lists -----

  /** The end of a list: white space and the closing sign. */
  predicate Closes(data: seq<byte>, pos: nat, o: Options, depth: nat, close: byte) {
    IsClose(close) && At(data, pos, Gap(o, depth)) && pos + |Gap(o, depth)| < |data| && data[pos + |Gap(o, depth)|] == close
  }

  lemma OpenList(data: seq<byte>, pos: nat, text: seq<byte>, open: byte, body: seq<byte>, o: Options, depth: nat, close: byte)
    requires text == [open] + body + Gap(o, depth) + [close] && At(data, pos, text) && IsClose(close)
    ensures |text| == 1 + |body| + |Gap(o, depth)| + 1
    ensures pos < |data| && data[pos] == open && At(data, pos + 1, body) && Closes(data, pos + 1 + |body|, o, depth, close)
  {
    SplitFour(data, pos, [open], body, Gap(o, depth), [close]);
    AtHead(data, pos, [open]);
    AtHead(data, pos + 1 + |body| + |Gap(o, depth)|, [close]);
  }

  lemma SkipsToClose(data: seq<byte>, pos: nat, o: Options, depth: nat, close: byte)
    requires Closes(data, pos, o, depth, close)
    ensures SkipWs(data, pos) == pos + |Gap(o, depth)| && Ends(data, pos)
  {
    GapIsSpace(o, depth);
    SkipsSpaces(data, pos, Gap(o, depth));
    if Gap(o, depth) != [] {
      AtHead(data, pos, Gap(o, depth));
    }
  }

  /** What follows an element: a comma, or the end of the list. */
  lemma AfterElement(data: seq<byte>, next: nat, last: bool, o: Options, depth: nat, close: byte)
    requires At(data, next, Comma(last)) && (last ==> Closes(data, next, o, depth, close))
    ensures Ends(data, next)
    ensures last ==> SkipWs(data, next) == next + |Gap(o, depth)| && Peek(data, next + |Gap(o, depth)|) == close
    ensures !last ==> next < |data| && SkipWs(data, next) == next && data[next] == COMMA
  {
    if last {
      SkipsToClose(data, next, o, depth, close);
    } else {
      AtHead(data, next, [COMMA]);
    }
  }

  /** The elements of a list from number `k` on stand from `pos` to `end`. */
  predicate ListAt(data: seq<byte>, pos: nat, end: nat, texts: seq<seq<byte>>, k: nat, o: Options, depth: nat) {
    k <= |texts| && At(data, pos, ListText(texts, k, o, depth)) && end == pos + |ListText(texts, k, o, depth)|
  }

  /** Where element `k` of a list stands, and what comes after it. */
  lemma FindElement(data: seq<byte>, pos: nat, end: nat, texts: seq<seq<byte>>, k: nat, o: Options, depth: nat, close: byte)
    returns (start: nat, next: nat)
    requires k < |texts| && texts[k] != [] && !IsSpace(texts[k][0])
    requires ListAt(data, pos, end, texts, k, o, depth) && Closes(data, end, o, depth, close)
    ensures start == pos + |Gap(o, depth + 1)| < |data| && SkipWs(data, pos) == start && data[start] == texts[k][0]
    ensures At(data, start, texts[k]) && next == start + |texts[k]| && Ends(data, next)
    ensures k + 1 == |texts| ==> SkipWs(data, next) == end + |Gap(o, depth)| && Peek(data, SkipWs(data, next)) == close
    ensures k + 1 < |texts| ==> next < |data| && SkipWs(data, next) == next && data[next] == COMMA
    ensures k + 1 < |texts| ==> ListAt(data, next + 1, end, texts, k + 1, o, depth)
  {
    var last, rest := k + 1 == |texts|, ListText(texts, k + 1, o, depth);
    GapIsSpace(o, depth + 1);
    start, next := FindPiece(data, pos, ListText(texts, k, o, depth), Gap(o, depth + 1), texts[k], Comma(last), rest);
    AfterElement(data, next, last, o, depth, close);
  }

  lemma FindPiece(data: seq<byte>, pos: nat, whole: seq<byte>, gap: seq<byte>, text: seq<byte>, comma: seq<byte>, rest: seq<byte>)
    returns (start: nat, next: nat)
    requires whole == gap + text + comma + rest && At(data, pos, whole)
    requires text != [] && !IsSpace(text[0]) && forall k | 0 <= k < |gap| :: IsSpace(gap[k])
    ensures start == pos + |gap| < |data| && SkipWs(data, pos) == start && data[start] == text[0]
    ensures At(data, start, text) && next == start + |text| && At(data, next, comma) && At(data, next + |comma|, rest)
    ensures next + |comma| + |rest| == pos + |whole|
  {
    SplitFour(data, pos, gap, text, comma, rest);
    start, next := pos + |gap|, pos + |gap| + |text|;
    AtHead(data, start, text);
    SkipsSpaces(data, pos, gap);
  }

  // ----- arrays -----

  lemma {:induction false} ReadsArray(data: seq<byte>, pos: nat, items: seq<JSON>, text: seq<byte>, o: Options, depth: nat)
    requires items != [] && WellFormed(Array(items)) && text == Text(Array(items), o, depth) && At(data, pos, text)
    ensures ParseValue(data, pos) == Ok(Array(items), pos + |text|)
    decreases items, 1, 0
  {
    hide ParseValue, ParseItems, Gap, ListText;
    var texts := ItemTexts(items, 0, o, depth + 1);
    var end := pos + 1 + |ListText(texts, 0, o, depth)|;
    OpenList(data, pos, text, OPEN_BRACKET, ListText(texts, 0, o, depth), o, depth, CLOSE_BRACKET);
    var start := ReadsItems(data, pos + 1, end, items, texts, 0, o, depth);
    assert end + |Gap(o, depth)| + 1 == pos + |text|;
    OpenArray(data, pos);
    assert items[..0] == [];
  }

  lemma {:induction false} ReadsItems(data: seq<byte>, pos: nat, end: nat, items: seq<JSON>, texts: seq<seq<byte>>, k: nat,
                                      o: Options, depth: nat) returns (start: nat)
    requires k < |items| && WellFormed(Array(items)) && texts == ItemTexts(items, 0, o, depth + 1)
    requires ListAt(data, pos, end, texts, k, o, depth) && Closes(data, end, o, depth, CLOSE_BRACKET)
    ensures pos <= |data| && SkipWs(data, pos) == start && Peek(data, start) != CLOSE_BRACKET
    ensures ParseItems(data, start, items[..k]) == Ok(Array(items), end + |Gap(o, depth)| + 1)
    decreases items, 0, |items| - k
  {
    hide ParseValue, ParseItems, ParseMembers, ParseMember, Text, ListText, At, SkipWs, Gap;
    var next;
    ItemTextsAt(items, 0, o, depth + 1, k);
    TextStart(items[k], texts[k], o, depth + 1);
    start, next := FindElement(data, pos, end, texts, k, o, depth, CLOSE_BRACKET);
    ReadsText(data, start, items[k], texts[k], o, depth + 1);
    TakeOneMore(items, k);
    if k + 1 < |items| {
      var start' := ReadsItems(data, next + 1, end, items, texts, k + 1, o, depth);
      ItemAndComma(data, start, items[..k], items[k], next, next);
    } else {
      LastItem(data, start, items[..k], items[k], next);
    }
  }

  // ----- objects -----

  /** The key of a member, the colon and the white space after it. */
  lemma ReadsKey(data: seq<byte>, pos: nat, key: seq<byte>, text: seq<byte>, o: Options) returns (afterKey: nat)
    requires text == KeyText(key, o) && At(data, pos, text)
    requires pos + |text| < |data| && !IsSpace(data[pos + |text|])
    ensures afterKey < |data| && ParseString(data, pos) == Ok(key, afterKey)
    ensures SkipWs(data, afterKey) == afterKey && data[afterKey] == COLON
    ensures SkipWs(data, afterKey + 1) == pos + |text|
  {
    var space := if o.pretty then [SPACE] else [];
    var quoted := Quoted(key, o);
    afterKey := pos + |quoted|;
    assert |text| == |quoted| + 1 + |space| && At(data, pos, quoted) && At(data, afterKey, [COLON]) && At(data, afterKey + 1, space) by {
      SplitThree(data, pos, quoted, [COLON], space);
    }
    ReadsColon(data, afterKey, space);
    ReadsString(data, pos, key, o);
  }

  lemma ReadsColon(data: seq<byte>, pos: nat, space: seq<byte>)
    requires At(data, pos, [COLON]) && At(data, pos + 1, space) && (space == [] || space == [SPACE])
    requires pos + 1 + |space| < |data| && !IsSpace(data[pos + 1 + |space|])
    ensures pos < |data| && data[pos] == COLON && SkipWs(data, pos) == pos && SkipWs(data, pos + 1) == pos + 1 + |space|
  {
    AtHead(data, pos, [COLON]);
    SkipsOne(data, pos + 1, space);
  }

  lemma SkipsOne(data: seq<byte>, pos: nat, space: seq<byte>)
    requires At(data, pos, space) && (space == [] || space == [SPACE])
    requires pos + |space| < |data| && !IsSpace(data[pos + |space|])
    ensures SkipWs(data, pos) == pos + |space|
  {
    SkipsSpaces(data, pos, space);
  }

  lemma KeyStep(data: seq<byte>, pos: nat, key: seq<byte>, afterKey: nat, valueAt: nat, value: JSON, next: nat)
    requires pos <= |data| && ParseString(data, pos) == Ok(key, afterKey)
    requires afterKey < |data| && SkipWs(data, afterKey) == afterKey && data[afterKey] == COLON
    requires SkipWs(data, afterKey + 1) == valueAt && ParseValue(data, valueAt) == Ok(value, next)
    ensures ParseMember(data, pos) == Ok(Member(key, value), next)
  {
  }

  /** One member: key, colon, perhaps a space, value. */
  lemma {:induction false} ReadsMember(data: seq<byte>, pos: nat, m: Member, text: seq<byte>, o: Options, depth: nat)
    requires WellFormed(m.value) && text == KeyText(m.key, o) + Text(m.value, o, depth)
    requires At(data, pos, text) && Ends(data, pos + |text|)
    ensures ParseMember(data, pos) == Ok(m, pos + |text|)
    decreases m, 0, 0, 0
  {
    var key, value := KeyText(m.key, o), Text(m.value, o, depth);
    var valueAt := pos + |key|;
    AtSplit(data, pos, key, value);
    TextStart(m.value, value, o, depth);
    AtHead(data, valueAt, value);
    var afterKey := ReadsKey(data, pos, m.key, key, o);
    ReadsText(data, valueAt, m.value, value, o, depth);
    KeyStep(data, pos, m.key, afterKey, valueAt, m.value, pos + |text|);
  }

  lemma MemberStart(m: Member, text: seq<byte>, o: Options, depth: nat)
    requires text == KeyText(m.key, o) + Text(m.value, o, depth)
    ensures text != [] && text[0] == QUOTE
  {
    assert KeyText(m.key, o)[0] == QUOTE;
  }

  lemma {:induction false} ReadsObject(data: seq<byte>, pos: nat, members: seq<Member>, text: seq<byte>, o: Options, depth: nat)
    requires members != [] && WellFormed(Object(members)) && text == Text(Object(members), o, depth) && At(data, pos, text)
    ensures ParseValue(data, pos) == Ok(Object(members), pos + |text|)
    decreases members, 1, 0
  {
    hide ParseValue, ParseMembers, Gap, ListText;
    var texts := MemberTexts(members, 0, o, depth + 1);
    var end := pos + 1 + |ListText(texts, 0, o, depth)|;
    OpenList(data, pos, text, OPEN_BRACE, ListText(texts, 0, o, depth), o, depth, CLOSE_BRACE);
    var start := ReadsMembers(data, pos + 1, end, members, texts, 0, o, depth);
    assert end + |Gap(o, depth)| + 1 == pos + |text|;
    OpenObject(data, pos);
    assert members[..0] == [];
  }

  lemma {:induction false} ReadsMembers(data: seq<byte>, pos: nat, end: nat, members: seq<Member>, texts: seq<seq<byte>>, k: nat,
                                        o: Options, depth: nat) returns (start: nat)
    requires k < |members| && WellFormed(Object(members)) && texts == MemberTexts(members, 0, o, depth + 1)
    requires ListAt(data, pos, end, texts, k, o, depth) && Closes(data, end, o, depth, CLOSE_BRACE)
    ensures pos <= |data| && SkipWs(data, pos) == start && Peek(data, start) != CLOSE_BRACE
    ensures ParseMembers(data, start, members[..k]) == Ok(Object(members), end + |Gap(o, depth)| + 1)
    decreases members, 0, |members| - k
  {
    hide ParseValue, ParseItems, ParseMembers, ParseMember, Text, ListText, At, SkipWs, Gap, MemberTexts;
    var next;
    MemberTextsAt(members, 0, o, depth + 1, k);
    MemberStart(members[k], texts[k], o, depth + 1);
    start, next := FindElement(data, pos, end, texts, k, o, depth, CLOSE_BRACE);
    ReadsMember(data, start, members[k], texts[k], o, depth + 1);
    TakeOneMore(members, k);
    if k + 1 < |members| {
      var start' := ReadsMembers(data, next + 1, end, members, texts, k + 1, o, depth);
      MemberAndComma(data, start, members[..k], members[k], next, next);
    } else {
      LastMember(data, start, members[..k], members[k], next);
    }
  }

  /** Parsing what was stringified gives back the same tree, in every form of output. */
  lemma RoundTrip(v: JSON, o: Options)
    requires WellFormed(v)
    ensures Parse(Text(v, o, 0)) == Ok(v, |Text(v, o, 0)|)
  {
    var text := Text(v, o, 0);
    TextStart(v, text, o, 0);
    assert SkipWs(text, 0) == 0 && text[0..] == text;
    ReadsText(text, 0, v, text, o, 0);
  }

  // ----- what is read is well-formed -----

  lemma DigitRun(data: seq<byte>, pos: nat)
    requires pos < |data| && IsDigit(data[pos])
    ensures IsDigits(data[pos..SkipDigits(data, pos)])
  {
    assert SkipDigits(data, pos) == SkipDigits(data, pos + 1);
  }

  lemma IntegerIsStrict(data: seq<byte>, pos: nat) returns (p: nat)
    requires pos <= |data| && IntegerEnd(data, pos).Ok?
    ensures pos <= p < IntegerEnd(data, pos).next
    ensures IsSign(data[pos..p]) && IsInteger(data[p..IntegerEnd(data, pos).next])
  {
    p := if Peek(data, pos) == MINUS then pos + 1 else pos;
    if Peek(data, p) == ZERO {
      assert data[p..p + 1] == [ZERO];
    } else {
      DigitRun(data, p);
    }
  }

  lemma FractionIsStrict(data: seq<byte>, pos: nat)
    requires pos <= |data| && FractionEnd(data, pos).Ok?
    ensures IsFraction(data[pos..FractionEnd(data, pos).next])
  {
    var end := FractionEnd(data, pos).next;
    if Peek(data, pos) == POINT {
      DigitRun(data, pos + 1);
      assert data[pos..end][1..] == data[pos + 1..end];
    }
  }

  lemma ExponentIsStrict(data: seq<byte>, pos: nat)
    requires pos <= |data| && ExponentEnd(data, pos).Ok?
    ensures IsExponent(data[pos..ExponentEnd(data, pos).next])
  {
    var end := ExponentEnd(data, pos).next;
    if IsE(Peek(data, pos)) {
      if Peek(data, pos + 1) == PLUS || Peek(data, pos + 1) == MINUS {
        DigitRun(data, pos + 2);
        assert data[pos..end][2..] == data[pos + 2..end];
      } else {
        DigitRun(data, pos + 1);
        assert data[pos..end][1..] == data[pos + 1..end];
      }
    }
  }

  /** The parser accepts no number that section 6 of RFC 8259 does not allow. */
  lemma NumberIsStrict(data: seq<byte>, pos: nat)
    requires pos <= |data| && ParseNumber(data, pos).Ok?
    ensures IsNumber(data[pos..ParseNumber(data, pos).next])
  {
    var end := ParseNumber(data, pos).next;
    var p := IntegerIsStrict(data, pos);
    var q := IntegerEnd(data, pos).next;
    FractionIsStrict(data, q);
    var r := FractionEnd(data, q).next;
    ExponentIsStrict(data, r);
    JoinFour(data, pos, p, q, r, end);
    assert AreParts(data[pos..end], data[pos..p], data[p..q], data[q..r], data[r..end]);
  }

  lemma JoinFour(data: seq<byte>, a: nat, b: nat, c: nat, d: nat, e: nat)
    requires a <= b <= c <= d <= e <= |data|
    ensures data[a..e] == data[a..b] + data[b..c] + data[c..d] + data[d..e]
  {
    assert data[a..e] == data[a..d] + data[d..e];
    assert data[a..d] == data[a..c] + data[c..d];
    assert data[a..c] == data[a..b] + data[b..c];
  }

  lemma {:induction false} ValueIsWellFormed(data: seq<byte>, pos: nat)
    requires pos <= |data| && ParseValue(data, pos).Ok?
    ensures WellFormed(ParseValue(data, pos).value)
    decreases |data| - pos, 0
  {
    var c := Peek(data, pos);
    if c == OPEN_BRACKET {
      var p := SkipWs(data, pos + 1);
      if Peek(data, p) != CLOSE_BRACKET {
        ItemsAreWellFormed(data, p, []);
      }
    } else if c == OPEN_BRACE {
      var p := SkipWs(data, pos + 1);
      if Peek(data, p) != CLOSE_BRACE {
        MembersAreWellFormed(data, p, []);
      }
    } else if c == MINUS || IsDigit(c) {
      NumberIsStrict(data, pos);
    }
  }

  lemma {:induction false} ItemsAreWellFormed(data: seq<byte>, pos: nat, items: seq<JSON>)
    requires pos <= |data| && ParseItems(data, pos, items).Ok? && WellFormed(Array(items))
    ensures WellFormed(ParseItems(data, pos, items).value)
    decreases |data| - pos, 1
  {
    ValueIsWellFormed(data, pos);
    var value := ParseValue(data, pos);
    var p := SkipWs(data, value.next);
    assert WellFormed(Array(items + [value.value]));
    if Peek(data, p) == COMMA {
      ItemsAreWellFormed(data, SkipWs(data, p + 1), items + [value.value]);
    }
  }

  lemma {:induction false} MembersAreWellFormed(data: seq<byte>, pos: nat, members: seq<Member>)
    requires pos <= |data| && ParseMembers(data, pos, members).Ok? && WellFormed(Object(members))
    ensures WellFormed(ParseMembers(data, pos, members).value)
    decreases |data| - pos, 1
  {
    var key := ParseString(data, pos);
    var valueAt := SkipWs(data, SkipWs(data, key.next) + 1);
    ValueIsWellFormed(data, valueAt);
    var member := ParseMember(data, pos);
    var p := SkipWs(data, member.next);
    assert WellFormed(Object(members + [member.value]));
    if Peek(data, p) == COMMA {
      MembersAreWellFormed(data, SkipWs(data, p + 1), members + [member.value]);
    }
  }

  /** Whatever text was accepted, its tree is the same after writing it in any form and reading it again. */
  lemma ReprintedIsSame(text: seq<byte>, o: Options)
    requires Parse(text).Ok?
    ensures var v := Parse(text).value; WellFormed(v) && Parse(Text(v, o, 0)) == Ok(v, |Text(v, o, 0)|)
  {
    ValueIsWellFormed(text, SkipWs(text, 0));
    RoundTrip(Parse(text).value, o);
  }

  // ----- unicode escapes -----

  /** An escape that is accepted stands for its code unit, or for the supplementary character of its surrogate pair;
      what is emitted is UTF-8 exactly when it is not a low surrogate on its own. */
  lemma EscapesEmitUtf8(data: seq<byte>, pos: nat)
    requires ParseCodepoint(data, pos).Ok?
    ensures var unit := ParseCodeUnit(data, pos).value; var codepoint := ParseCodepoint(data, pos).value;
      && ParseCodeUnit(data, pos).Ok?
      && (!HighSurrogate(unit) ==> codepoint == unit)
      && (HighSurrogate(unit) ==>
            0x1_0000 <= codepoint <= Utf8.MAX_CODEPOINT
            && unit == 0xD800 + (codepoint - 0x1_0000) / 0x400
            && ParseCodeUnit(data, pos + 6) == Ok(0xDC00 + (codepoint - 0x1_0000) % 0x400, pos + 10))
      && Utf8.Decoded(Utf8.Emitted(codepoint)) == codepoint
      && (Utf8.IsCharacter(Utf8.Emitted(codepoint)) <==> !LowSurrogate(unit))
  {
    var unit, codepoint := ParseCodeUnit(data, pos).value, ParseCodepoint(data, pos).value;
    Utf8.EmittedIsUtf8(codepoint);
    if HighSurrogate(unit) {
      var low := ParseCodeUnit(data, pos + 6).value;
      Quotient(unit - 0xD800, 0x400, low - 0xDC00);
    }
  }

  predicate IsLoneSurrogate(text: seq<byte>) { text == [QUOTE, BACKSLASH, 117, 68, 67, 48, 48, QUOTE] }

  lemma ReadsLoneSurrogate(text: seq<byte>)
    requires IsLoneSurrogate(text)
    ensures ParseCodepoint(text, 3) == Ok(0xDC00, 7)
  {
    assert HexPrefix(text, 3, 1) == Some(13);
    assert HexPrefix(text, 3, 2) == Some(13 * 16 + 12);
    assert HexPrefix(text, 3, 3) == Some((13 * 16 + 12) * 16);
    assert HexPrefix(text, 3, 4) == Some(0xDC00);
  }

  lemma ReadsLoneString(text: seq<byte>, bytes: seq<byte>)
    requires IsLoneSurrogate(text) && bytes == Utf8.Emitted(0xDC00)
    ensures ParseString(text, 0) == Ok(bytes, 8)
  {
    ReadsLoneSurrogate(text);
    assert [] + bytes == bytes;
    assert ParseChars(text, 7, bytes) == Ok(bytes, 8);
    assert ParseChars(text, 1, []) == ParseChars(text, 7, bytes);
  }

  /** A low surrogate on its own is accepted, and its string is not UTF-8. */
  lemma LoneSurrogateIsAccepted(text: seq<byte>)
    requires IsLoneSurrogate(text)
    ensures Parse(text) == Ok(Str([0xED, 0xB0, 0x80]), 8) && !Utf8.IsCharacter([0xED, 0xB0, 0x80])
  {
    var bytes: seq<byte> := [0xED, 0xB0, 0x80];
    ReadsLoneString(text, bytes);
    assert text[0] == QUOTE;
    assert ParseValue(text, 0) == Ok(Str(bytes), 8);
    assert SkipWs(text, 0) == 0 && SkipWs(text, 8) == 8;
  }
}
