/** UTF-8: the emission of code points, and the encoding form of RFC 3629. */
module Utf8 {
  import opened Bytes

  const MAX_CODEPOINT: nat := 0x10_FFFF

  /** `append_codepoint` for code points in range: leading bits or-ed to zero bits are added. */
  function Emitted(codepoint: nat): seq<byte>
    requires codepoint <= MAX_CODEPOINT
  {
    if codepoint <= 0x7F then [codepoint]
    else if codepoint <= 0x7FF then [0xC0 + codepoint / 64 % 32, 0x80 + codepoint % 64]
    else if codepoint <= 0xFFFF then [0xE0 + codepoint / 0x1000 % 16, 0x80 + codepoint / 64 % 64, 0x80 + codepoint % 64]
    else [0xF0 + codepoint / 0x4_0000 % 8, 0x80 + codepoint / 0x1000 % 64, 0x80 + codepoint / 64 % 64, 0x80 + codepoint % 64]
  }

  method AppendCodepoint(codepoint: nat, out: seq<byte>) returns (ok: bool, r: seq<byte>)
    ensures ok <==> codepoint <= MAX_CODEPOINT
    ensures r == if codepoint <= MAX_CODEPOINT then out + Emitted(codepoint) else out
  {
    r := out;
    if codepoint <= 0x7F {
      r := r + [codepoint];
      return true, r;
    }
    if codepoint <= 0x7FF {
      r := r + [0xC0 + codepoint / 64 % 32];
      r := r + [0x80 + codepoint % 64];
      return true, r;
    }
    if codepoint <= 0xFFFF {
      r := r + [0xE0 + codepoint / 0x1000 % 16];
      r := r + [0x80 + codepoint / 64 % 64];
      r := r + [0x80 + codepoint % 64];
      return true, r;
    }
    if codepoint <= MAX_CODEPOINT {
      r := r + [0xF0 + codepoint / 0x4_0000 % 8];
      r := r + [0x80 + codepoint / 0x1000 % 64];
      r := r + [0x80 + codepoint / 64 % 64];
      r := r + [0x80 + codepoint % 64];
      return true, r;
    }
    ok := false;
  }

  // ----- RFC 3629 -----

  predicate Tail(b: byte) { 0x80 <= b <= 0xBF }

  /** UTF8-char of section 4 of RFC 3629. */
  predicate IsCharacter(s: seq<byte>) {
    match |s|
    case 1 => s[0] <= 0x7F
    case 2 => 0xC2 <= s[0] <= 0xDF && Tail(s[1])
    case 3 =>
      && Tail(s[1]) && Tail(s[2])
      && ((s[0] == 0xE0 && s[1] >= 0xA0) || 0xE1 <= s[0] <= 0xEC || (s[0] == 0xED && s[1] <= 0x9F) || 0xEE <= s[0] <= 0xEF)
    case 4 =>
      && Tail(s[1]) && Tail(s[2]) && Tail(s[3])
      && ((s[0] == 0xF0 && s[1] >= 0x90) || 0xF1 <= s[0] <= 0xF3 || (s[0] == 0xF4 && s[1] <= 0x8F))
    case _ => false
  }

  /** The number that the payload bits of a character make up (section 3). */
  function Decoded(s: seq<byte>): int
    requires 1 <= |s| <= 4
  {
    match |s|
    case 1 => s[0]
    case 2 => var a: int, b: int := s[0], s[1]; (a - 0xC0) * 64 + (b - 0x80)
    case 3 => var a: int, b: int, c: int := s[0], s[1], s[2]; (a - 0xE0) * 0x1000 + (b - 0x80) * 64 + (c - 0x80)
    case _ =>
      var a: int, b: int, c: int, d: int := s[0], s[1], s[2], s[3];
      (a - 0xF0) * 0x4_0000 + (b - 0x80) * 0x1000 + (c - 0x80) * 64 + (d - 0x80)
  }

  predicate Surrogate(codepoint: nat) { 0xD800 <= codepoint <= 0xDFFF }

  /** The payload is the code point, and the bytes are a character exactly for code points that are no surrogates. */
  lemma EmittedIsUtf8(codepoint: nat)
    requires codepoint <= MAX_CODEPOINT
    ensures 1 <= |Emitted(codepoint)| <= 4 && Decoded(Emitted(codepoint)) == codepoint
    ensures IsCharacter(Emitted(codepoint)) <==> !Surrogate(codepoint)
  {
    if codepoint <= 0x7FF {
    } else if codepoint <= 0xFFFF {
      ThreeBytes(codepoint);
    } else {
      FourBytes(codepoint);
    }
  }

  lemma ThreeBytes(codepoint: nat)
    requires 0x800 <= codepoint <= 0xFFFF
    ensures Decoded(Emitted(codepoint)) == codepoint
    ensures IsCharacter(Emitted(codepoint)) <==> !Surrogate(codepoint)
  {
    var a, b, c := codepoint / 0x1000, codepoint / 64 % 64, codepoint % 64;
    assert codepoint == 0x1000 * a + 64 * b + c;
    assert a < 16 && Emitted(codepoint) == [0xE0 + a, 0x80 + b, 0x80 + c];
  }

  lemma FourBytes(codepoint: nat)
    requires 0x1_0000 <= codepoint <= MAX_CODEPOINT
    ensures Decoded(Emitted(codepoint)) == codepoint && IsCharacter(Emitted(codepoint))
  {
    var a, b, c, d := codepoint / 0x4_0000, codepoint / 0x1000 % 64, codepoint / 64 % 64, codepoint % 64;
    FourPayloads(codepoint);
    assert Emitted(codepoint) == [0xF0 + a, 0x80 + b, 0x80 + c, 0x80 + d];
  }

  lemma FourPayloads(n: nat)
    requires 0x1_0000 <= n <= MAX_CODEPOINT
    ensures n == 0x4_0000 * (n / 0x4_0000) + 0x1000 * (n / 0x1000 % 64) + 64 * (n / 64 % 64) + n % 64
    ensures n / 0x4_0000 <= 4 && (n / 0x4_0000 == 0 ==> n / 0x1000 % 64 >= 16) && (n / 0x4_0000 == 4 ==> n / 0x1000 % 64 <= 15)
  {
    var x, y := n / 64, n / 0x1000;
    assert x / 64 == y && y / 64 == n / 0x4_0000;
  }

  /** No other character has the same number, so the emitted form is the only one. */
  lemma CharactersDecodeUniquely(s: seq<byte>)
    requires IsCharacter(s)
    ensures 0 <= Decoded(s) <= MAX_CODEPOINT && Emitted(Decoded(s)) == s
  {
    if |s| == 2 {
      var a: int, b: int := s[0], s[1];
      Quotient(a - 0xC0, 64, b - 0x80);
    } else if |s| == 3 {
      ThreeUnique(s);
    } else if |s| == 4 {
      FourUnique(s);
    }
  }

  lemma ThreeUnique(s: seq<byte>)
    requires IsCharacter(s) && |s| == 3
    ensures 0 <= Decoded(s) <= MAX_CODEPOINT && Emitted(Decoded(s)) == s
  {
    var x: int, y: int, z: int := s[0], s[1], s[2];
    var a, b, c := x - 0xE0, y - 0x80, z - 0x80;
    Quotient(a, 0x1000, b * 64 + c);
    Quotient(a * 64 + b, 64, c);
    Quotient(a, 64, b);
    assert Decoded(s) == a * 0x1000 + (b * 64 + c) == (a * 64 + b) * 64 + c;
  }

  lemma FourUnique(s: seq<byte>)
    requires IsCharacter(s) && |s| == 4
    ensures 0 <= Decoded(s) <= MAX_CODEPOINT && Emitted(Decoded(s)) == s
  {
    var w: int, x: int, y: int, z: int := s[0], s[1], s[2], s[3];
    var a, b, c, d := w - 0xF0, x - 0x80, y - 0x80, z - 0x80;
    Quotient(a, 0x4_0000, b * 0x1000 + c * 64 + d);
    Quotient(a * 64 + b, 0x1000, c * 64 + d);
    Quotient((a * 64 + b) * 64 + c, 64, d);
    Quotient(a, 64, b);
    Quotient(a * 64 + b, 64, c);
    assert Decoded(s) == ((a * 64 + b) * 64 + c) * 64 + d;
  }
}
