/** Numbers as big-endian bytes. */
module Endian {
  import opened Bytes
  import opened Bits

  /** `n` as `count` big-endian bytes, modulo 256^count. */
  function BigEndian(n: nat, count: nat): (r: seq<byte>)
    ensures |r| == count
  {
    if count == 0 then [] else BigEndian(n / 256, count - 1) + [n % 256]
  }

  function FromBigEndian(s: seq<byte>): nat {
    if s == [] then 0 else 256 * FromBigEndian(s[..|s| - 1]) + s[|s| - 1]
  }

  function Pow256(n: nat): (r: nat)
    ensures r > 0
  {
    if n == 0 then 1 else 256 * Pow256(n - 1)
  }

  lemma {:induction false} BigEndianValue(n: nat, count: nat)
    requires n < Pow256(count)
    ensures FromBigEndian(BigEndian(n, count)) == n
  {
    if count > 0 {
      BigEndianValue(n / 256, count - 1);
      var r := BigEndian(n, count);
      assert r[..|r| - 1] == BigEndian(n / 256, count - 1);
    }
  }

  /** `n >> 8 * count`. */
  function ShiftBytes(n: nat, count: nat): nat {
    if count == 0 then n else ShiftBytes(n / 256, count - 1)
  }

  lemma {:induction false} BigEndianAt(n: nat, count: nat, j: nat)
    requires j < count
    ensures BigEndian(n, count)[j] == ShiftBytes(n, count - 1 - j) % 256
  {
    if j < count - 1 {
      BigEndianAt(n / 256, count - 1, j);
    }
  }

  lemma {:induction false} BigEndianWraps(n: nat, q: nat, count: nat)
    ensures BigEndian(n + Pow256(count) * q, count) == BigEndian(n, count)
  {
    if count > 0 {
      var x := Pow256(count - 1) * q;
      assert Pow256(count) * q == 256 * x;
      assert (n + 256 * x) / 256 == n / 256 + x && (n + 256 * x) % 256 == n % 256;
      BigEndianWraps(n / 256, q, count - 1);
    }
  }

  // ----- the value of bytes, from the front -----

  lemma {:induction false} ValueBound(s: seq<byte>)
    ensures FromBigEndian(s) < Pow256(|s|)
  {
    if s != [] {
      ValueBound(s[..|s| - 1]);
    }
  }

  lemma {:induction false} ValueOfFirst(s: seq<byte>)
    requires s != []
    ensures FromBigEndian(s) == s[0] * Pow256(|s| - 1) + FromBigEndian(s[1..])
  {
    var init := s[..|s| - 1];
    if |s| == 1 {
      assert init == [] && s[1..] == [];
    } else {
      ValueOfFirst(init);
      assert init[1..] == s[1..][..|s| - 2];
      var p := Pow256(|s| - 2);
      assert 256 * (s[0] * p) == s[0] * (256 * p);
    }
  }

  /** The byte order of equally long strings is the order of their values. */
  lemma {:induction false} LexIsNumeric(a: seq<byte>, b: seq<byte>)
    requires |a| == |b|
    ensures LexLess(a, b) <==> FromBigEndian(a) < FromBigEndian(b)
  {
    if a != [] {
      var p := Pow256(|a| - 1);
      ValueOfFirst(a);
      ValueOfFirst(b);
      ValueBound(a[1..]);
      ValueBound(b[1..]);
      LexIsNumeric(a[1..], b[1..]);
      if a[0] < b[0] {
        MulStep(a[0], p);
        MulMonotone(a[0] + 1, b[0], p);
      } else if b[0] < a[0] {
        MulStep(b[0], p);
        MulMonotone(b[0] + 1, a[0], p);
      }
    }
  }

  lemma ValueInjective(a: seq<byte>, b: seq<byte>)
    requires |a| == |b| && FromBigEndian(a) == FromBigEndian(b)
    ensures a == b
  {
    LexIsNumeric(a, b);
    LexIsNumeric(b, a);
    LexTotal(a, b);
  }

  // ----- the highest bit -----

  /** The position of the highest bit; 0 for 0. */
  function Log2(n: nat): nat { if n < 2 then 0 else 1 + Log2(n / 2) }

  lemma {:induction false} Log2Bounds(n: nat)
    requires n > 0
    ensures Power2(Log2(n)) <= n < Power2(Log2(n) + 1)
  {
    if n >= 2 {
      Log2Bounds(n / 2);
    }
  }

  lemma {:induction false} Log2Unique(n: nat, b: nat)
    requires Power2(b) <= n < Power2(b + 1)
    ensures Log2(n) == b
  {
    if n >= 2 {
      if b > 0 {
        Log2Unique(n / 2, b - 1);
      }
    }
  }

  /** The highest bit of a number is that of its upper part. */
  lemma {:induction false} Log2Upper(upper: nat, lower: nat, bits: nat)
    requires upper > 0 && lower < Power2(bits)
    ensures Log2(upper * Power2(bits) + lower) == bits + Log2(upper)
  {
    if bits > 0 {
      Log2Upper(upper, lower / 2, bits - 1);
      var p := upper * Power2(bits - 1);
      assert upper * Power2(bits) == 2 * p;
      assert (2 * p + lower) / 2 == p + lower / 2;
      MulMonotone(1, upper, Power2(bits - 1));
    }
  }

  lemma {:induction false} Pow256IsPower2(n: nat)
    ensures Pow256(n) == Power2(8 * n)
  {
    if n > 0 {
      Pow256IsPower2(n - 1);
      var k := 8 * (n - 1);
      assert Power2(k + 2) == 4 * Power2(k);
      assert Power2(k + 4) == 4 * Power2(k + 2);
      assert Power2(k + 6) == 4 * Power2(k + 4);
      assert Power2(k + 8) == 4 * Power2(k + 6);
    }
  }
}
