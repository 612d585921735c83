/** Bitwise operations on unsigned numbers, bit by bit from the lowest. */
module Bits {
  import opened Bytes

  function Xor(a: nat, b: nat): nat
    decreases a + b
  {
    if a == 0 && b == 0 then 0 else 2 * Xor(a / 2, b / 2) + (a % 2 + b % 2) % 2
  }

  function And(a: nat, b: nat): nat
    decreases a + b
  {
    if a == 0 && b == 0 then 0 else 2 * And(a / 2, b / 2) + (if a % 2 + b % 2 == 2 then 1 else 0)
  }

  function Or(a: nat, b: nat): nat
    decreases a + b
  {
    if a == 0 && b == 0 then 0 else 2 * Or(a / 2, b / 2) + (if a % 2 + b % 2 == 0 then 0 else 1)
  }

  function Power2(n: nat): (r: nat)
    ensures r > 0
  {
    if n == 0 then 1 else 2 * Power2(n - 1)
  }

  // ----- one bit at a time -----

  lemma XorStep(a: nat, b: nat)
    ensures Xor(a, b) % 2 == (if a % 2 == b % 2 then 0 else 1) && Xor(a, b) / 2 == Xor(a / 2, b / 2)
  {
  }

  lemma AndStep(a: nat, b: nat)
    ensures And(a, b) % 2 == (if a % 2 == 1 && b % 2 == 1 then 1 else 0) && And(a, b) / 2 == And(a / 2, b / 2)
  {
  }

  lemma OrStep(a: nat, b: nat)
    ensures Or(a, b) % 2 == (if a % 2 == 1 || b % 2 == 1 then 1 else 0) && Or(a, b) / 2 == Or(a / 2, b / 2)
  {
  }

  lemma {:induction false} Range(a: nat, b: nat, n: nat)
    requires a < Power2(n) && b < Power2(n)
    ensures Xor(a, b) < Power2(n) && And(a, b) < Power2(n) && Or(a, b) < Power2(n)
  {
    if n > 0 {
      Range(a / 2, b / 2, n - 1);
      XorStep(a, b);
      AndStep(a, b);
      OrStep(a, b);
    }
  }

  lemma {:induction false} XorUndo(a: nat, b: nat)
    ensures Xor(Xor(a, b), b) == a
    decreases a + b
  {
    if a != 0 || b != 0 {
      XorStep(a, b);
      XorStep(Xor(a, b), b);
      XorUndo(a / 2, b / 2);
    }
  }

  lemma {:induction false} XorSymmetric(a: nat, b: nat)
    ensures Xor(a, b) == Xor(b, a)
    ensures Xor(a, b) == 0 <==> a == b
    decreases a + b
  {
    if a != 0 || b != 0 {
      XorStep(a, b);
      XorStep(b, a);
      XorSymmetric(a / 2, b / 2);
    }
  }

  lemma XorInjective(a: nat, b: nat, c: nat)
    requires Xor(a, c) == Xor(b, c)
    ensures a == b
  {
    XorUndo(a, c);
    XorUndo(b, c);
  }

  // ----- bytes -----

  lemma ByteRange(a: byte, b: byte)
    ensures Xor(a, b) < 256
  {
    assert Power2(8) == 256;
    Range(a, b, 8);
  }

  /** `a ^ b` on bytes. */
  function XorByte(a: byte, b: byte): byte {
    ByteRange(a, b);
    Xor(a, b)
  }

  // ----- 32-bit words -----

  type word = x: int | 0 <= x < TWO_32

  lemma WordPower()
    ensures Power2(32) == TWO_32
  {
    assert Power2(12) == 0x1000;
    assert Power2(22) == 0x40_0000;
  }

  lemma WordRange(a: word, b: word)
    ensures Xor(a, b) < TWO_32 && And(a, b) < TWO_32 && Or(a, b) < TWO_32
  {
    WordPower();
    Range(a, b, 32);
  }

  function XorWord(a: word, b: word): word {
    WordRange(a, b);
    Xor(a, b)
  }

  function AndWord(a: word, b: word): word {
    WordRange(a, b);
    And(a, b)
  }

  function OrWord(a: word, b: word): word {
    WordRange(a, b);
    Or(a, b)
  }

  function NotWord(a: word): word { TWO_32 - 1 - a }

  function AddWord(a: word, b: word): word { if a + b < TWO_32 then a + b else a + b - TWO_32 }

  /** The choice of two operands by the bits of a third needs no exclusive or. */
  lemma {:induction false} ChoiceForms(x: nat, y: nat, z: nat, n: nat)
    requires x < Power2(n) && y < Power2(n) && z < Power2(n)
    ensures var notX := Power2(n) - 1 - x;
      Or(And(x, y), And(notX, z)) == Xor(And(x, y), And(notX, z))
  {
    var notX := Power2(n) - 1 - x;
    if n > 0 {
      assert Power2(n) == 2 * Power2(n - 1);
      assert notX % 2 == 1 - x % 2 && notX / 2 == Power2(n - 1) - 1 - x / 2;
      ChoiceForms(x / 2, y / 2, z / 2, n - 1);
      AndStep(x, y);
      AndStep(notX, z);
      OrStep(And(x, y), And(notX, z));
      XorStep(And(x, y), And(notX, z));
    }
  }

  /** Nor does the majority of three. */
  lemma {:induction false} MajorityForms(x: nat, y: nat, z: nat)
    ensures Or(Or(And(x, y), And(x, z)), And(y, z)) == Xor(Xor(And(x, y), And(x, z)), And(y, z))
    decreases x + y + z
  {
    if x + y + z > 0 {
      MajorityForms(x / 2, y / 2, z / 2);
      AndStep(x, y);
      AndStep(x, z);
      AndStep(y, z);
      OrStep(And(x, y), And(x, z));
      XorStep(And(x, y), And(x, z));
      OrStep(Or(And(x, y), And(x, z)), And(y, z));
      XorStep(Xor(And(x, y), And(x, z)), And(y, z));
    }
  }
}
