/** 160-bit node identifiers, their XOR distance and the bucket of a distance. */
module NodeId {
  import opened Bytes
  import opened Bits
  import opened Endian

  predicate IsId(s: seq<byte>) { |s| == 20 }

  type Id = s: seq<byte> | IsId(s) witness seq(20, _ => 0)

  function Distance(a: Id, b: Id): (d: Id) { seq(20, i requires 0 <= i < 20 => XorByte(a[i], b[i])) }

  /** An identifier as a 160-bit number. */
  function Value(a: Id): nat { FromBigEndian(a) }

  lemma DistanceLaws(a: Id, b: Id)
    ensures Distance(a, b) == Distance(b, a)
    ensures Value(Distance(a, b)) == 0 <==> a == b
  {
    forall i | 0 <= i < 20 ensures XorByte(a[i], b[i]) == XorByte(b[i], a[i]) && (XorByte(a[i], b[i]) == 0 <==> a[i] == b[i]) {
      XorSymmetric(a[i], b[i]);
    }
    var zero: Id := seq(20, _ => 0);
    ZeroValue(20);
    if a == b {
      assert Distance(a, b) == zero;
    }
    if Value(Distance(a, b)) == 0 {
      ValueInjective(Distance(a, b), zero);
      forall i | 0 <= i < 20 ensures a[i] == b[i] {
        assert Distance(a, b)[i] == zero[i];
      }
    }
  }

  lemma {:induction false} ZeroValue(n: nat)
    ensures FromBigEndian(seq(n, _ => 0)) == 0
  {
    if n > 0 {
      ZeroValue(n - 1);
      assert (seq(n, _ => 0))[..n - 1] == seq(n - 1, _ => 0);
    }
  }

  /** XOR to a fixed target is injective, so different nodes are at different distances. */
  lemma DistanceInjective(a: Id, b: Id, target: Id)
    requires Distance(a, target) == Distance(b, target)
    ensures a == b
  {
    forall i | 0 <= i < 20 ensures a[i] == b[i] {
      assert Distance(a, target)[i] == Distance(b, target)[i];
      XorInjective(a[i], b[i], target[i]);
    }
  }

  /** `operator<` of distances is the order of 160-bit numbers. */
  lemma OrderIsNumeric(a: Id, b: Id)
    ensures LexLess(a, b) <==> Value(a) < Value(b)
  {
    LexIsNumeric(a, b);
  }

  /** The bucket of a distance: the position of its highest bit, 0 for distance 0. */
  function BucketOf(d: Id): nat { Log2(Value(d)) }

  lemma BucketBounds(d: Id)
    requires Value(d) > 0
    ensures Power2(BucketOf(d)) <= Value(d) < Power2(BucketOf(d) + 1)
    ensures BucketOf(d) < 160
  {
    hide FromBigEndian, Log2, Power2;
    Log2Bounds(Value(d));
    ValueBound(d);
    Pow256IsPower2(20);
    if BucketOf(d) >= 160 {
      Power2Monotone(160, BucketOf(d));
    }
  }

  lemma {:induction false} Power2Monotone(m: nat, n: nat)
    requires m <= n
    ensures Power2(m) <= Power2(n)
  {
    if m < n {
      Power2Monotone(m, n - 1);
    }
  }

  // ----- bucket_index -----

  /** The loop over the bits of a byte, from the highest. */
  method LeadingZeros(b: byte) returns (leadingZeros: nat)
    requires b != 0
    ensures leadingZeros < 8 && Log2(b) == 7 - leadingZeros
  {
    leadingZeros := 0;
    var bit := 7;
    assert Power2(8) == 256;
    while bit >= 0 && b / Power2(bit) % 2 == 0
      invariant -1 <= bit <= 7 && leadingZeros == 7 - bit
      invariant b < Power2(bit + 1)
      decreases bit
    {
      HalfClear(b, Power2(bit));
      leadingZeros := leadingZeros + 1;
      bit := bit - 1;
    }
    HalfSet(b, Power2(bit));
    Log2Unique(b, bit);
  }

  lemma HalfClear(b: nat, p: nat)
    requires p > 0 && b < 2 * p && b / p % 2 == 0
    ensures b < p
  {
    if b >= p {
      Quotient(1, p, b - p);
    }
  }

  lemma HalfSet(b: nat, p: nat)
    requires p > 0 && b / p % 2 == 1
    ensures b >= p
  {
    if b < p {
      Quotient(0, p, b);
    }
  }

  method BucketIndex(d: Id) returns (index: nat)
    ensures index == BucketOf(d)
  {
    for i := 0 to 20
      invariant Value(d) == FromBigEndian(d[i..])
    {
      ValueOfFirst(d[i..]);
      assert d[i..][1..] == d[i + 1..];
      if d[i] != 0 {
        var leadingZeros := LeadingZeros(d[i]);
        ValueBound(d[i + 1..]);
        Pow256IsPower2(19 - i);
        Log2Upper(d[i], FromBigEndian(d[i + 1..]), 8 * (19 - i));
        return 159 - (i * 8 + leadingZeros);
      }
    }
    assert d[20..] == [];
    return 0;
  }
}
