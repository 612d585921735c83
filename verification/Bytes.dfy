/** Bytes, text literals as bytes, and the order of byte strings. */
module Bytes {

  type byte = x: int | 0 <= x < 256

  // The exclusive upper bounds of the fixed-width integers of the program.
  const TWO_32: int := 0x1_0000_0000
  const TWO_63: int := 0x8000_0000_0000_0000
  const TWO_64: int := 0x1_0000_0000_0000_0000

  datatype Option<+T> = None | Some(value: T)

  /** The value of an exception-throwing operation. */
  datatype Result<+T, +E> = Success(value: T) | Failure(error: E) {
    predicate IsFailure() { Failure? }
    function PropagateFailure<U>(): Result<U, E> requires Failure? { Failure(error) }
    function Extract(): T requires Success? { value }
  }

  /** A text literal as the bytes the program writes; the literals have no other characters than those of ASCII. */
  function Ascii(s: string): (r: seq<byte>)
    ensures |r| == |s|
  {
    seq(|s|, i requires 0 <= i < |s| => if s[i] as int < 128 then s[i] as int else 0)
  }

  lemma Assoc<T>(a: seq<T>, b: seq<T>, c: seq<T>)
    ensures a + b + c == a + (b + c)
  {
  }

  /** `word` stands in `data` at position `pos`. */
  predicate At(data: seq<byte>, pos: nat, word: seq<byte>) {
    pos + |word| <= |data| && forall i | 0 <= i < |word| :: data[pos + i] == word[i]
  }

  lemma AtSplit(data: seq<byte>, pos: nat, left: seq<byte>, right: seq<byte>)
    requires At(data, pos, left + right)
    ensures At(data, pos, left) && At(data, pos + |left|, right)
  {
    forall i | 0 <= i < |left| ensures data[pos + i] == left[i] {
      assert (left + right)[i] == left[i];
    }
    forall i | 0 <= i < |right| ensures data[pos + |left| + i] == right[i] {
      assert (left + right)[|left| + i] == right[i];
    }
  }

  lemma AtHead(data: seq<byte>, pos: nat, word: seq<byte>)
    requires At(data, pos, word) && word != []
    ensures pos < |data| && data[pos] == word[0]
  {
    assert data[pos + 0] == word[0];
  }

  lemma AtSlice(data: seq<byte>, pos: nat, word: seq<byte>)
    requires At(data, pos, word)
    ensures data[pos..pos + |word|] == word
  {
  }

  /** The position of the first `b` at or after `pos`; `|data|` when there is none. */
  function Find(data: seq<byte>, pos: nat, b: byte): (r: nat)
    ensures pos <= |data| ==> pos <= r <= |data|
    ensures r < |data| ==> pos <= r && data[r] == b
    ensures forall i | pos <= i < r && i < |data| :: data[i] != b
    decreases |data| - pos
  {
    if pos >= |data| then |data| else if data[pos] == b then pos else Find(data, pos + 1, b)
  }

  lemma FindAfter(data: seq<byte>, pos: nat, word: seq<byte>, b: byte)
    requires At(data, pos, word + [b]) && b !in word
    ensures Find(data, pos, b) == pos + |word|
  {
    AtSplit(data, pos, word, [b]);
    AtHead(data, pos + |word|, [b]);
    forall i | pos <= i < pos + |word| ensures data[i] != b {
      assert data[pos + (i - pos)] == word[i - pos];
    }
  }

  /** The order of `std::string` and `std::array<uint8_t, N>`: byte by byte, a proper prefix first. */
  predicate LexLess(a: seq<byte>, b: seq<byte>) {
    b != [] && (a == [] || a[0] < b[0] || (a[0] == b[0] && LexLess(a[1..], b[1..])))
  }

  lemma LexTotal(a: seq<byte>, b: seq<byte>)
    ensures LexLess(a, b) || a == b || LexLess(b, a)
    ensures !(LexLess(a, b) && LexLess(b, a)) && !LexLess(a, a)
  {
    if a != [] && b != [] {
      LexTotal(a[1..], b[1..]);
      assert a == [a[0]] + a[1..] && b == [b[0]] + b[1..];
    }
  }

  lemma LexTransitive(a: seq<byte>, b: seq<byte>, c: seq<byte>)
    requires LexLess(a, b) && LexLess(b, c)
    ensures LexLess(a, c)
  {
  }

  // ----- multiplication by a variable -----

  lemma MulStep(p: nat, d: nat)
    ensures (p + 1) * d == p * d + d
  {
  }

  lemma MulMonotone(p: nat, q: nat, d: nat)
    requires p <= q
    ensures p * d <= q * d
  {
    assert q * d == p * d + (q - p) * d;
  }

  /** Quotient and remainder are unique. */
  lemma Quotient(q: nat, d: nat, r: nat)
    requires r < d
    ensures (q * d + r) / d == q && (q * d + r) % d == r
  {
    var n := q * d + r;
    var q', r' := n / d, n % d;
    assert n == d * q' + r';
    MulStep(q, d);
    MulStep(q', d);
    if q < q' {
      MulMonotone(q + 1, q', d);
    } else if q' < q {
      MulMonotone(q' + 1, q, d);
    }
  }
}
