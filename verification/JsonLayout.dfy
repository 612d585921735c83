/** How an object with an array is laid out, pretty and compact. */
module JsonLayout {
  import opened Bytes
  import opened Json

  /** The object with one member "a", an array of the numbers 1 and 2. */
  function Sample(): JSON { Object([Member(Ascii("a"), Array([Number(Ascii("1")), Number(Ascii("2"))]))]) }

  lemma KeyOfSample(o: Options)
    ensures KeyText(Ascii("a"), o) == Ascii("\"a\":") + if o.pretty then Ascii(" ") else []
  {
    assert EscapedString(Ascii("a"), 1, o.escapeSolidus) == [];
    assert EscapedString(Ascii("a"), 0, o.escapeSolidus) == [97];
  }

  lemma ArrayOfSample(o: Options)
    ensures var items := Array([Number(Ascii("1")), Number(Ascii("2"))]);
      Text(items, o, 1) == Ascii("[") + Gap(o, 2) + Ascii("1,") + Gap(o, 2) + Ascii("2") + Gap(o, 1) + Ascii("]")
  {
    hide Gap;
    var items := [Number(Ascii("1")), Number(Ascii("2"))];
    var texts := ItemTexts(items, 0, o, 2);
    assert texts[0] == Ascii("1") by {
      ItemTextsAt(items, 0, o, 2, 0);
    }
    assert texts[1] == Ascii("2") by {
      ItemTextsAt(items, 0, o, 2, 1);
    }
    assert ListText(texts, 2, o, 1) == [];
    assert ListText(texts, 1, o, 1) == Gap(o, 2) + Ascii("2");
    assert ListText(texts, 0, o, 1) == Gap(o, 2) + Ascii("1") + [COMMA] + (Gap(o, 2) + Ascii("2"));
    assert Ascii("1,") == Ascii("1") + [COMMA];
  }

  /** In pretty form a line feed and the indentation of the depth, in compact form nothing. */
  function NewLine(o: Options, depth: nat): seq<byte> { if o.pretty then [10] + Spaces(depth * o.indent) else [] }

  lemma GapIsNewLine(o: Options, depth: nat)
    ensures Gap(o, depth) == NewLine(o, depth)
  {
    WidthIsProduct(o.indent, depth);
  }

  /** In compact form nothing stands between the tokens; in pretty form each element has a line, indented by its depth. */
  lemma SampleText(o: Options)
    ensures Text(Sample(), o, 0)
         == Ascii("{") + NewLine(o, 1)
            + (Ascii("\"a\":") + (if o.pretty then Ascii(" ") else [])
               + (Ascii("[") + NewLine(o, 2) + Ascii("1,") + NewLine(o, 2) + Ascii("2") + NewLine(o, 1) + Ascii("]")))
            + NewLine(o, 0) + Ascii("}")
  {
    hide Text, KeyText, ListText, Gap, NewLine, Ascii;
    WholeSample(o);
    KeyOfSample(o);
    ArrayOfSample(o);
    GapIsNewLine(o, 0);
    GapIsNewLine(o, 1);
    GapIsNewLine(o, 2);
  }

  lemma WholeSample(o: Options)
    ensures Text(Sample(), o, 0)
         == Ascii("{") + Gap(o, 1) + (KeyText(Ascii("a"), o) + Text(Sample().members[0].value, o, 1)) + Gap(o, 0) + Ascii("}")
  {
    hide Gap, KeyText;
    var members := Sample().members;
    var texts := MemberTexts(members, 0, o, 1);
    MemberTextsAt(members, 0, o, 1, 0);
    assert ListText(texts, 1, o, 0) == [];
    assert ListText(texts, 0, o, 0) == Gap(o, 1) + texts[0];
  }
}
