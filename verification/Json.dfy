/** JSON values, the numbers of RFC 8259, and the text of a value in compact and pretty form. */
module Json {
  import opened Bytes
  import opened Decimal

  /** Objects keep the order of their members and may repeat keys; numbers are kept as text. */
  datatype JSON =
    | Null
    | Bool(b: bool)
    | Number(repr: seq<byte>)
    | Str(s: seq<byte>)
    | Array(items: seq<JSON>)
    | Object(members: seq<Member>)

  datatype Member = Member(key: seq<byte>, value: JSON)

  datatype Options = Options(pretty: bool, indent: nat, escapeSolidus: bool)

  // The literals "null", "true" and "false", and the characters of the syntax.
  const NULL_TEXT: seq<byte> := [110, 117, 108, 108]
  const TRUE_TEXT: seq<byte> := [116, 114, 117, 101]
  const FALSE_TEXT: seq<byte> := [102, 97, 108, 115, 101]
  const QUOTE: byte := 34
  const BACKSLASH: byte := 92
  const SOLIDUS: byte := 47
  const LF: byte := 10
  const SPACE: byte := 32
  const COMMA: byte := 44
  const COLON: byte := 58
  const OPEN_BRACKET: byte := 91
  const CLOSE_BRACKET: byte := 93
  const OPEN_BRACE: byte := 123
  const CLOSE_BRACE: byte := 125
  const POINT: byte := 46

  // ----- numbers: section 6 of RFC 8259 -----

  predicate IsDigits(s: seq<byte>) { s != [] && AllDigits(s) }

  /** `[ minus ]` */
  predicate IsSign(s: seq<byte>) { s == [] || s == [MINUS] }

  /** `int = zero / ( digit1-9 *DIGIT )` */
  predicate IsInteger(s: seq<byte>) { s == [ZERO] || (IsDigits(s) && s[0] != ZERO) }

  /** `[ frac ]`, with `frac = decimal-point 1*DIGIT` */
  predicate IsFraction(s: seq<byte>) { s == [] || (s[0] == POINT && IsDigits(s[1..])) }

  predicate IsE(c: byte) { c == 101 || c == 69 }

  /** `[ exp ]`, with `exp = e [ minus / plus ] 1*DIGIT` */
  predicate IsExponent(s: seq<byte>) {
    s == [] || (IsE(s[0]) && (IsDigits(s[1..]) || (|s| > 1 && (s[1] == PLUS || s[1] == MINUS) && IsDigits(s[2..]))))
  }

  predicate AreParts(s: seq<byte>, sign: seq<byte>, int_: seq<byte>, frac: seq<byte>, exp: seq<byte>) {
    s == sign + int_ + frac + exp && IsSign(sign) && IsInteger(int_) && IsFraction(frac) && IsExponent(exp)
  }

  /** `number = [ minus ] int [ frac ] [ exp ]` */
  ghost predicate IsNumber(s: seq<byte>) {
    exists sign, int_, frac, exp :: AreParts(s, sign, int_, frac, exp)
  }

  /** All number texts of a tree are numbers. */
  ghost predicate WellFormed(v: JSON) {
    match v
    case Number(repr) => IsNumber(repr)
    case Array(items) => forall x | x in items :: WellFormed(x)
    case Object(members) => forall m | m in members :: WellFormed(m.value)
    case _ => true
  }

  // ----- strings -----

  function HexDigit(v: nat): byte
    requires v < 16
  {
    if v < 10 then 48 + v else 65 + (v - 10)
  }

  function Escaped(c: byte, escapeSolidus: bool): (r: seq<byte>)
    ensures r != []
  {
    if c == QUOTE then [BACKSLASH, QUOTE]
    else if c == BACKSLASH then [BACKSLASH, BACKSLASH]
    else if c == 8 then [BACKSLASH, 98]
    else if c == 12 then [BACKSLASH, 102]
    else if c == 10 then [BACKSLASH, 110]
    else if c == 13 then [BACKSLASH, 114]
    else if c == 9 then [BACKSLASH, 116]
    else if c == SOLIDUS then (if escapeSolidus then [BACKSLASH, SOLIDUS] else [SOLIDUS])
    else if c < 0x20 then [BACKSLASH, 117, ZERO, ZERO, HexDigit(c / 16), HexDigit(c % 16)]
    else [c]
  }

  /** The bytes of a string from number `k` on, escaped. */
  function EscapedString(s: seq<byte>, k: nat, escapeSolidus: bool): seq<byte>
    requires k <= |s|
    decreases |s| - k
  {
    if k == |s| then [] else Escaped(s[k], escapeSolidus) + EscapedString(s, k + 1, escapeSolidus)
  }

  function Quoted(s: seq<byte>, o: Options): seq<byte> { [QUOTE] + EscapedString(s, 0, o.escapeSolidus) + [QUOTE] }

  // ----- text -----

  function Spaces(n: nat): (r: seq<byte>)
    ensures |r| == n && forall k | 0 <= k < n :: r[k] == SPACE
  {
    seq(n, _ => SPACE)
  }

  function Line(o: Options): seq<byte> { if o.pretty then [LF] else [] }

  /** The indentation of a depth, in columns. */
  function Width(indent: nat, depth: nat): nat { if depth == 0 then 0 else Width(indent, depth - 1) + indent }

  lemma {:induction false} WidthIsProduct(indent: nat, depth: nat)
    ensures Width(indent, depth) == depth * indent
  {
    if depth > 0 {
      WidthIsProduct(indent, depth - 1);
      MulStep(depth - 1, indent);
    }
  }

  function Indent(o: Options, depth: nat): seq<byte> { if o.pretty then Spaces(Width(o.indent, depth)) else [] }

  /** `out.append(depth * options.indent, ' ')` in pretty form. */
  method WriteIndent(o: Options, depth: nat, before: seq<byte>) returns (out: seq<byte>)
    ensures out == before + Indent(o, depth)
  {
    out := before;
    if o.pretty {
      WidthIsProduct(o.indent, depth);
      out := out + Spaces(depth * o.indent);
    }
  }

  /** A new line with its indentation, in pretty form. */
  function Gap(o: Options, depth: nat): seq<byte> { Line(o) + Indent(o, depth) }

  function Comma(last: bool): seq<byte> { if last then [] else [COMMA] }

  function KeyText(key: seq<byte>, o: Options): seq<byte> {
    Quoted(key, o) + [COLON] + if o.pretty then [SPACE] else []
  }

  /** The elements of a list from number `k` on, each on its line in pretty form, with commas between them. */
  function ListText(texts: seq<seq<byte>>, k: nat, o: Options, depth: nat): seq<byte>
    requires k <= |texts|
    decreases |texts| - k
  {
    if k == |texts| then []
    else Gap(o, depth + 1) + texts[k] + Comma(k + 1 == |texts|) + ListText(texts, k + 1, o, depth)
  }

  function Text(v: JSON, o: Options, depth: nat): (r: seq<byte>)
    decreases v, 1
  {
    match v
    case Null => NULL_TEXT
    case Bool(b) => if b then TRUE_TEXT else FALSE_TEXT
    case Number(repr) => repr
    case Str(s) => Quoted(s, o)
    case Array(items) =>
      if items == [] then [OPEN_BRACKET, CLOSE_BRACKET]
      else [OPEN_BRACKET] + ListText(ItemTexts(items, 0, o, depth + 1), 0, o, depth) + Gap(o, depth) + [CLOSE_BRACKET]
    case Object(members) =>
      if members == [] then [OPEN_BRACE, CLOSE_BRACE]
      else [OPEN_BRACE] + ListText(MemberTexts(members, 0, o, depth + 1), 0, o, depth) + Gap(o, depth) + [CLOSE_BRACE]
  }

  /** The texts of the elements from number `k` on. */
  function ItemTexts(items: seq<JSON>, k: nat, o: Options, depth: nat): (r: seq<seq<byte>>)
    requires k <= |items|
    ensures |r| == |items| - k
    decreases items, 0, |items| - k
  {
    if k == |items| then [] else [Text(items[k], o, depth)] + ItemTexts(items, k + 1, o, depth)
  }

  function MemberTexts(members: seq<Member>, k: nat, o: Options, depth: nat): (r: seq<seq<byte>>)
    requires k <= |members|
    ensures |r| == |members| - k
    decreases members, 0, |members| - k
  {
    if k == |members| then []
    else [KeyText(members[k].key, o) + Text(members[k].value, o, depth)] + MemberTexts(members, k + 1, o, depth)
  }

  lemma {:induction false} ItemTextsAt(items: seq<JSON>, k: nat, o: Options, depth: nat, j: nat)
    requires k + j < |items|
    ensures ItemTexts(items, k, o, depth)[j] == Text(items[k + j], o, depth)
    decreases j
  {
    if j > 0 {
      ItemTextsAt(items, k + 1, o, depth, j - 1);
    }
  }

  lemma {:induction false} MemberTextsAt(members: seq<Member>, k: nat, o: Options, depth: nat, j: nat)
    requires k + j < |members|
    ensures MemberTexts(members, k, o, depth)[j] == KeyText(members[k + j].key, o) + Text(members[k + j].value, o, depth)
    decreases j
  {
    if j > 0 {
      MemberTextsAt(members, k + 1, o, depth, j - 1);
    }
  }

  // ----- stringify -----

  method EscapeString(input: seq<byte>, escapeSolidus: bool) returns (out: seq<byte>)
    ensures out == EscapedString(input, 0, escapeSolidus)
  {
    out := [];
    for k := 0 to |input|
      invariant out + EscapedString(input, k, escapeSolidus) == EscapedString(input, 0, escapeSolidus)
    {
      var c := input[k];
      Assoc(out, Escaped(c, escapeSolidus), EscapedString(input, k + 1, escapeSolidus));
      if c == QUOTE {
        out := out + [BACKSLASH, QUOTE];
      } else if c == BACKSLASH {
        out := out + [BACKSLASH, BACKSLASH];
      } else if c == 8 {
        out := out + [BACKSLASH, 98];
      } else if c == 12 {
        out := out + [BACKSLASH, 102];
      } else if c == 10 {
        out := out + [BACKSLASH, 110];
      } else if c == 13 {
        out := out + [BACKSLASH, 114];
      } else if c == 9 {
        out := out + [BACKSLASH, 116];
      } else if c == SOLIDUS {
        out := out + (if escapeSolidus then [BACKSLASH, SOLIDUS] else [SOLIDUS]);
      } else if c < 0x20 {
        out := out + [BACKSLASH, 117, ZERO, ZERO, HexDigit(c / 16), HexDigit(c % 16)];
      } else {
        out := out + [c];
      }
    }
    assert out + [] == out;
  }

  /** `stringify_impl` appends the text of a node to what was written before. */
  method StringifyImpl(node: JSON, o: Options, before: seq<byte>, depth: nat) returns (out: seq<byte>)
    ensures out == before + Text(node, o, depth)
    decreases node, 1
  {
    match node
    case Null => out := before + NULL_TEXT;
    case Bool(b) => out := before + (if b then TRUE_TEXT else FALSE_TEXT);
    case Number(repr) => out := before + repr;
    case Str(s) => out := WriteQuoted(s, o, before);
    case Array(items) =>
      out := before + [OPEN_BRACKET];
      if items == [] {
        out := out + [CLOSE_BRACKET];
        return;
      }
      out := WriteItems(items, o, out, depth);
      out := out + Line(o);
      out := WriteIndent(o, depth, out);
      out := out + [CLOSE_BRACKET];
      Regroup(before, [OPEN_BRACKET], ListText(ItemTexts(items, 0, o, depth + 1), 0, o, depth), Line(o), Indent(o, depth), [CLOSE_BRACKET]);
    case Object(members) =>
      out := before + [OPEN_BRACE];
      if members == [] {
        out := out + [CLOSE_BRACE];
        return;
      }
      out := WriteMembers(members, o, out, depth);
      out := out + Line(o);
      out := WriteIndent(o, depth, out);
      out := out + [CLOSE_BRACE];
      Regroup(before, [OPEN_BRACE], ListText(MemberTexts(members, 0, o, depth + 1), 0, o, depth), Line(o), Indent(o, depth), [CLOSE_BRACE]);
  }

  lemma Regroup(before: seq<byte>, open: seq<byte>, body: seq<byte>, line: seq<byte>, indent: seq<byte>, close: seq<byte>)
    ensures before + open + body + line + indent + close == before + (open + body + (line + indent) + close)
  {
  }

  method WriteQuoted(s: seq<byte>, o: Options, before: seq<byte>) returns (out: seq<byte>)
    ensures out == before + Quoted(s, o)
  {
    out := before + [QUOTE];
    var escaped := EscapeString(s, o.escapeSolidus);
    out := out + escaped;
    out := out + [QUOTE];
  }

  method WriteItems(items: seq<JSON>, o: Options, before: seq<byte>, depth: nat) returns (out: seq<byte>)
    requires items != []
    ensures out == before + ListText(ItemTexts(items, 0, o, depth + 1), 0, o, depth)
    decreases items, 0
  {
    hide Text, Indent, Line, ItemTexts;
    out := before;
    out := out + Line(o);
    ghost var complete, texts := before, ItemTexts(items, 0, o, depth + 1);
    for k := 0 to |items|
      invariant out == complete + (if k < |items| then Line(o) else [])
      invariant complete + ListText(texts, k, o, depth) == before + ListText(texts, 0, o, depth)
    {
      out := WriteIndent(o, depth + 1, out);
      out := StringifyImpl(items[k], o, out, depth + 1);
      if k + 1 < |items| {
        out := out + [COMMA];
        out := out + Line(o);
      }
      ItemTextsAt(items, 0, o, depth + 1, k);
      ghost var piece := Gap(o, depth + 1) + texts[k] + Comma(k + 1 == |items|);
      ItemWritten(complete, Line(o), Indent(o, depth + 1), Text(items[k], o, depth + 1), [COMMA]);
      Assoc(complete, piece, ListText(texts, k + 1, o, depth));
      complete := complete + piece;
    }
    assert complete + [] == complete;
  }

  lemma ItemWritten(complete: seq<byte>, line: seq<byte>, indent: seq<byte>, text: seq<byte>, comma: seq<byte>)
    ensures complete + line + indent + text == complete + (line + indent + text + [])
    ensures complete + line + indent + text + comma + line == complete + (line + indent + text + comma) + line
  {
  }

  method WriteMembers(members: seq<Member>, o: Options, before: seq<byte>, depth: nat) returns (out: seq<byte>)
    requires members != []
    ensures out == before + ListText(MemberTexts(members, 0, o, depth + 1), 0, o, depth)
    decreases members, 0
  {
    hide Text, Quoted, Indent, Line, MemberTexts;
    out := before;
    out := out + Line(o);
    ghost var complete, texts := before, MemberTexts(members, 0, o, depth + 1);
    for k := 0 to |members|
      invariant out == complete + (if k < |members| then Line(o) else [])
      invariant complete + ListText(texts, k, o, depth) == before + ListText(texts, 0, o, depth)
    {
      out := WriteIndent(o, depth + 1, out);
      out := WriteQuoted(members[k].key, o, out);
      out := out + ([COLON] + if o.pretty then [SPACE] else []);
      out := StringifyImpl(members[k].value, o, out, depth + 1);
      if k + 1 < |members| {
        out := out + [COMMA];
        out := out + Line(o);
      }
      MemberTextsAt(members, 0, o, depth + 1, k);
      ghost var piece := Gap(o, depth + 1) + texts[k] + Comma(k + 1 == |members|);
      MemberWritten(complete, Line(o), Indent(o, depth + 1), Quoted(members[k].key, o), [COLON],
                    if o.pretty then [SPACE] else [], Text(members[k].value, o, depth + 1), [COMMA]);
      Assoc(complete, piece, ListText(texts, k + 1, o, depth));
      complete := complete + piece;
    }
    assert complete + [] == complete;
  }

  lemma MemberWritten(complete: seq<byte>, line: seq<byte>, indent: seq<byte>, key: seq<byte>, colon: seq<byte>,
                      space: seq<byte>, text: seq<byte>, comma: seq<byte>)
    ensures complete + line + indent + key + (colon + space) + text
         == complete + (line + indent + (key + colon + space + text) + [])
    ensures complete + line + indent + key + (colon + space) + text + comma + line
         == complete + (line + indent + (key + colon + space + text) + comma) + line
  {
  }

  method Stringify(v: JSON, o: Options) returns (out: seq<byte>)
    ensures out == Text(v, o, 0)
  {
    out := StringifyImpl(v, o, [], 0);
    assert [] + Text(v, o, 0) == Text(v, o, 0);
  }
}
