/** Byte strings that are UTF-8: sequences of characters, and how they are recognised byte by byte. */
module Utf8Text {
  import opened Bytes
  import opened Utf8

  function Joined(words: seq<seq<byte>>): seq<byte> {
    if words == [] then [] else words[0] + Joined(words[1..])
  }

  /** UTF8-octets of section 4 of RFC 3629: characters one after the other. */
  ghost predicate IsUtf8(s: seq<byte>) {
    exists words: seq<seq<byte>> :: (forall w | w in words :: IsCharacter(w)) && Joined(words) == s
  }

  // ----- byte by byte -----

  /** How many tail bytes are awaited, and the range of the next one; or no UTF-8 any more. */
  datatype Scan = Broken | Await(tails: nat, low: byte, high: byte)

  const START: Scan := Await(0, 0, 0)

  function Lead(b: byte): Scan {
    if b <= 0x7F then START
    else if 0xC2 <= b <= 0xDF then Await(1, 0x80, 0xBF)
    else if b == 0xE0 then Await(2, 0xA0, 0xBF)
    else if b == 0xED then Await(2, 0x80, 0x9F)
    else if 0xE1 <= b <= 0xEF then Await(2, 0x80, 0xBF)
    else if b == 0xF0 then Await(3, 0x90, 0xBF)
    else if 0xF1 <= b <= 0xF3 then Await(3, 0x80, 0xBF)
    else if b == 0xF4 then Await(3, 0x80, 0x8F)
    else Broken
  }

  function Next(scan: Scan, b: byte): Scan {
    match scan
    case Broken => Broken
    case Await(tails, low, high) =>
      if tails == 0 then Lead(b)
      else if !(low <= b <= high) then Broken
      else if tails == 1 then START else Await(tails - 1, 0x80, 0xBF)
  }

  function After(scan: Scan, s: seq<byte>): Scan
    decreases |s|
  {
    if s == [] then scan else After(Next(scan, s[0]), s[1..])
  }

  lemma {:induction false} AfterParts(scan: Scan, a: seq<byte>, b: seq<byte>)
    ensures After(scan, a + b) == After(After(scan, a), b)
    decreases |a|
  {
    if a == [] {
      assert a + b == b;
    } else {
      assert (a + b)[1..] == a[1..] + b;
      AfterParts(Next(scan, a[0]), a[1..], b);
    }
  }

  lemma {:induction false} BrokenStays(s: seq<byte>)
    ensures After(Broken, s) == Broken
    decreases |s|
  {
    if s != [] {
      BrokenStays(s[1..]);
    }
  }

  lemma AfterOne(scan: Scan, a: byte)
    ensures After(scan, [a]) == Next(scan, a)
  {
    assert [a][1..] == [];
  }

  lemma AfterTwo(scan: Scan, a: byte, b: byte)
    ensures After(scan, [a, b]) == Next(Next(scan, a), b)
  {
    assert [a, b] == [a] + [b];
    AfterParts(scan, [a], [b]);
    AfterOne(scan, a);
    AfterOne(Next(scan, a), b);
  }

  lemma AfterFour(scan: Scan, s: seq<byte>)
    ensures |s| == 1 ==> After(scan, s) == Next(scan, s[0])
    ensures |s| == 2 ==> After(scan, s) == Next(Next(scan, s[0]), s[1])
    ensures |s| == 3 ==> After(scan, s) == Next(Next(Next(scan, s[0]), s[1]), s[2])
    ensures |s| == 4 ==> After(scan, s) == Next(Next(Next(Next(scan, s[0]), s[1]), s[2]), s[3])
  {
    if |s| == 1 {
      assert s == [s[0]];
      AfterOne(scan, s[0]);
    } else if |s| == 2 {
      assert s == [s[0], s[1]];
      AfterTwo(scan, s[0], s[1]);
    } else if |s| == 3 {
      assert s == [s[0]] + [s[1], s[2]];
      AfterParts(scan, [s[0]], [s[1], s[2]]);
      AfterOne(scan, s[0]);
      AfterTwo(Next(scan, s[0]), s[1], s[2]);
    } else if |s| == 4 {
      assert s == [s[0], s[1]] + [s[2], s[3]];
      AfterParts(scan, [s[0], s[1]], [s[2], s[3]]);
      AfterTwo(scan, s[0], s[1]);
      AfterTwo(Next(Next(scan, s[0]), s[1]), s[2], s[3]);
    }
  }

  /** From the start, up to four bytes lead back to it for the first time at their end exactly if they are a character. */
  lemma CharacterScans(w: seq<byte>)
    ensures IsCharacter(w) ==> After(START, w) == START
  {
    hide After;
    AfterFour(START, w);
  }

  /** What is accepted begins with a character. */
  lemma FirstCharacter(s: seq<byte>) returns (k: nat)
    requires s != [] && After(START, s) == START
    ensures 0 < k <= |s| && IsCharacter(s[..k]) && After(START, s[k..]) == START
  {
    var lead := Lead(s[0]);
    k := if lead.Await? then lead.tails + 1 else 1;
    assert After(START, s) == After(lead, s[1..]);
    if lead == Broken {
      BrokenStays(s[1..]);
    } else {
      TailsFollow(lead, s[1..]);
      assert s[1..][k - 1..] == s[k..];
      assert forall i | 0 < i < k :: s[i] == s[1..][i - 1];
    }
  }

  lemma TailsFollow(scan: Scan, s: seq<byte>)
    requires scan.Await? && scan.tails <= 3 && (scan.tails == 0 ==> scan == START) && After(scan, s) == START
    ensures scan.tails <= |s| && After(START, s[scan.tails..]) == START
    ensures scan.tails > 0 ==> scan.low <= s[0] <= scan.high
    ensures forall i | 0 < i < scan.tails :: Tail(s[i])
    decreases scan.tails
  {
    if scan.tails == 0 {
      assert s[0..] == s;
    } else if s != [] {
      BrokenStays(s[1..]);
      var rest := Next(scan, s[0]);
      TailsFollow(rest, s[1..]);
      assert s[1..][rest.tails..] == s[scan.tails..];
      assert forall i | 0 < i < scan.tails :: s[i] == s[1..][i - 1];
    }
  }

  /** The scan accepts exactly the sequences of characters. */
  lemma ScanIsExact(s: seq<byte>)
    ensures After(START, s) == START <==> IsUtf8(s)
  {
    if After(START, s) == START {
      var words := Words(s);
    }
    forall words: seq<seq<byte>> | (forall w | w in words :: IsCharacter(w)) && Joined(words) == s
      ensures After(START, s) == START
    {
      WordsScan(words);
    }
  }

  lemma {:induction false} Words(s: seq<byte>) returns (words: seq<seq<byte>>)
    requires After(START, s) == START
    ensures (forall w | w in words :: IsCharacter(w)) && Joined(words) == s
    decreases |s|
  {
    if s == [] {
      words := [];
    } else {
      var k := FirstCharacter(s);
      var rest := Words(s[k..]);
      words := [s[..k]] + rest;
      assert words[1..] == rest && s[..k] + s[k..] == s;
    }
  }

  lemma {:induction false} WordsScan(words: seq<seq<byte>>)
    requires forall w | w in words :: IsCharacter(w)
    ensures After(START, Joined(words)) == START
  {
    if words != [] {
      CharacterScans(words[0]);
      AfterParts(START, words[0], Joined(words[1..]));
      WordsScan(words[1..]);
    }
  }
}
