/** Bitwise operators on 8-bit numbers, by their binary digits. */
module Bits {
  import opened Base

  function Pow2(n: nat): nat { if n == 0 then 1 else 2 * Pow2(n - 1) }

  function XorN(a: nat, b: nat, n: nat): (r: nat)
    ensures r < Pow2(n)
  {
    if n == 0 then 0 else 2 * XorN(a / 2, b / 2, n - 1) + (a % 2 + b % 2) % 2
  }

  function AndN(a: nat, b: nat, n: nat): (r: nat)
    ensures r < Pow2(n)
  {
    if n == 0 then 0 else 2 * AndN(a / 2, b / 2, n - 1) + (a % 2) * (b % 2)
  }

  function OrN(a: nat, b: nat, n: nat): (r: nat)
    ensures r < Pow2(n)
  {
    if n == 0 then 0 else 2 * OrN(a / 2, b / 2, n - 1) + (if a % 2 == 1 || b % 2 == 1 then 1 else 0)
  }

  lemma LowDigit(q: nat, d: nat)
    requires d < 2
    ensures (2 * q + d) % 2 == d && (2 * q + d) / 2 == q
  {
  }

  /** The lowest digit of an exclusive or, and the rest. */
  lemma XorDigits(a: nat, b: nat, n: nat)
    requires n > 0
    ensures XorN(a, b, n) % 2 == (a % 2 + b % 2) % 2
    ensures XorN(a, b, n) / 2 == XorN(a / 2, b / 2, n - 1)
  {
    LowDigit(XorN(a / 2, b / 2, n - 1), (a % 2 + b % 2) % 2);
  }

  /** Equal lowest digits and equal halves make equal numbers. */
  lemma SameDigits(a: nat, b: nat)
    requires a % 2 == b % 2 && a / 2 == b / 2
    ensures a == b
  {
  }

  lemma {:induction false} XorNSym(a: nat, b: nat, n: nat)
    ensures XorN(a, b, n) == XorN(b, a, n)
  {
    if n > 0 { XorNSym(a / 2, b / 2, n - 1); }
  }

  lemma ThreeDigits(x: nat, y: nat)
    requires x < 2 && y < 2
    ensures ((x + y) % 2 + y) % 2 == x
  {
  }

  lemma {:induction false} XorUndo(a: nat, b: nat, n: nat)
    requires a < Pow2(n) && b < Pow2(n)
    ensures XorN(XorN(a, b, n), b, n) == a
  {
    hide XorN;
    if n > 0 {
      var x := XorN(a, b, n);
      XorDigits(a, b, n);
      XorDigits(x, b, n);
      XorUndo(a / 2, b / 2, n - 1);
      ThreeDigits(a % 2, b % 2);
      SameDigits(XorN(x, b, n), a);
    }
  }

  lemma {:induction false} XorZero(a: nat, b: nat, n: nat)
    requires a < Pow2(n) && b < Pow2(n)
    ensures XorN(a, b, n) == 0 <==> a == b
  {
    if n > 0 {
      XorZero(a / 2, b / 2, n - 1);
      XorDigits(a, b, n);
      hide XorN;
      if a % 2 == b % 2 && a / 2 == b / 2 { SameDigits(a, b); }
    }
  }

  lemma {:induction false} XorUnit(a: nat, n: nat)
    requires a < Pow2(n)
    ensures XorN(a, 0, n) == a
  {
    if n > 0 {
      XorUnit(a / 2, n - 1);
      XorDigits(a, 0, n);
      hide XorN;
      SameDigits(XorN(a, 0, n), a);
    }
  }

  lemma {:induction false} MaskLaws(a: nat, n: nat)
    requires a < Pow2(n)
    ensures AndN(a, Pow2(n) - 1, n) == a
    ensures AndN(a, 0, n) == 0
    ensures OrN(a, 0, n) == a
    ensures OrN(0, a, n) == a
  {
    if n > 0 {
      MaskLaws(a / 2, n - 1);
      assert (Pow2(n) - 1) / 2 == Pow2(n - 1) - 1;
    }
  }

  lemma {:induction false} OrZero(a: nat, b: nat, n: nat)
    requires a < Pow2(n) && b < Pow2(n)
    ensures OrN(a, b, n) == 0 <==> a == 0 && b == 0
  {
    if n > 0 { OrZero(a / 2, b / 2, n - 1); }
  }

  lemma EightBits()
    ensures Pow2(8) == 256
  {
    assert Pow2(4) == 16;
  }

  function Xor(a: u8, b: u8): u8 { EightBits(); XorN(a, b, 8) }

  function And(a: u8, b: u8): u8 { EightBits(); AndN(a, b, 8) }

  function Or(a: u8, b: u8): u8 { EightBits(); OrN(a, b, 8) }

  /** Exclusive or cancels itself and is zero only on equal bytes. */
  lemma XorByte(a: u8, b: u8)
    ensures Xor(Xor(a, b), b) == a && Xor(Xor(a, b), a) == b
    ensures Xor(a, b) == 0 <==> a == b
    ensures Xor(a, 0) == a
  {
    EightBits();
    XorUndo(a, b, 8);
    XorUndo(b, a, 8);
    XorNSym(a, b, 8);
    XorZero(a, b, 8);
    XorUnit(a, 8);
  }

  /** A full mask keeps a byte and an empty one clears it. */
  lemma MaskByte(a: u8)
    ensures And(a, 255) == a && And(a, 0) == 0 && Or(a, 0) == a && Or(0, a) == a
  {
    EightBits();
    MaskLaws(a, 8);
  }

  lemma OrByte(a: u8, b: u8)
    ensures Or(a, b) == 0 <==> a == 0 && b == 0
  {
    EightBits();
    OrZero(a, b, 8);
  }
}
