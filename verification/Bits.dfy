/**
 Bitwise operators on non-negative integers. A 32-bit pattern is represented by its unsigned value;
 the source's `>>> 0` picks exactly that representative, and `===` on two signed results agrees with
 equality of the unsigned ones.
 */
module Bits {

  type Byte = i: int | 0 <= i < 256

  function Pow2(n: nat): (p: nat)
    ensures p > 0
  {
    if n == 0 then 1 else 2 * Pow2(n - 1)
  }

  lemma Pow2Byte(n: nat)
    ensures Pow2(n + 8) == 256 * Pow2(n)
  {
    assert Pow2(n + 2) == 4 * Pow2(n);
    assert Pow2(n + 4) == 4 * Pow2(n + 2);
    assert Pow2(n + 6) == 4 * Pow2(n + 4);
  }

  lemma WordIsPow2()
    ensures Pow2(32) == 0x1_0000_0000 && Pow2(31) == 0x8000_0000
  {
    assert Pow2(8) == 256;
    assert Pow2(16) == 0x1_0000;
    assert Pow2(24) == 0x100_0000;
  }

  lemma {:induction false} PowMonotone(a: nat, b: nat)
    requires a <= b
    ensures Pow2(a) <= Pow2(b)
    decreases b
  {
    if a < b { PowMonotone(a, b - 1); }
  }

  function Bit(a: nat, j: nat): bool
    decreases j
  {
    if j == 0 then a % 2 == 1 else Bit(a / 2, j - 1)
  }

  function Xor(a: nat, b: nat): nat {
    if a == 0 then b else 2 * Xor(a / 2, b / 2) + (if a % 2 == b % 2 then 0 else 1)
  }

  function And(a: nat, b: nat): nat {
    if a == 0 then 0 else 2 * And(a / 2, b / 2) + (a % 2) * (b % 2)
  }

  lemma XorUnfold(a: nat, b: nat)
    ensures Xor(a, b) % 2 == if a % 2 == b % 2 then 0 else 1
    ensures Xor(a, b) / 2 == Xor(a / 2, b / 2)
  {
    if a > 0 {
      HalfOfDouble(Xor(a / 2, b / 2), if a % 2 == b % 2 then 0 else 1);
    }
  }

  lemma HalfOfDouble(h: nat, bit: nat)
    requires bit < 2
    ensures (2 * h + bit) / 2 == h && (2 * h + bit) % 2 == bit
  {
  }

  lemma {:induction false} XorZero(a: nat)
    ensures Xor(a, 0) == a && Xor(0, a) == a
  {
    if a > 0 { XorZero(a / 2); }
  }

  lemma {:induction false} XorCommutes(a: nat, b: nat)
    ensures Xor(a, b) == Xor(b, a)
  {
    XorZero(a);
    XorZero(b);
    if a > 0 && b > 0 { XorCommutes(a / 2, b / 2); }
  }

  lemma SameHalves(a: nat, b: nat)
    requires a / 2 == b / 2 && a % 2 == b % 2
    ensures a == b
  {
  }

  lemma {:induction false} XorAssociates(a: nat, b: nat, c: nat)
    ensures Xor(Xor(a, b), c) == Xor(a, Xor(b, c))
    decreases a + b
  {
    if a > 0 {
      var left, right := Xor(Xor(a, b), c), Xor(a, Xor(b, c));
      assert left / 2 == right / 2 && left % 2 == right % 2 by {
        XorUnfold(a, b);
        XorUnfold(b, c);
        XorUnfold(Xor(a, b), c);
        XorUnfold(a, Xor(b, c));
        XorAssociates(a / 2, b / 2, c / 2);
        hide Xor;
      }
      SameHalves(left, right);
    }
  }

  lemma {:induction false} XorSelf(a: nat)
    ensures Xor(a, a) == 0
  {
    if a > 0 { XorSelf(a / 2); }
  }

  /** Applying the same mask twice restores the word, so equal masked words were equal. */
  lemma XorCancels(a: nat, b: nat)
    ensures Xor(Xor(a, b), b) == a && Xor(b, Xor(b, a)) == a
  {
    XorAssociates(a, b, b);
    XorSelf(b);
    XorZero(a);
    XorAssociates(b, b, a);
  }

  lemma {:induction false} BitOfXor(a: nat, b: nat, j: nat)
    ensures Bit(Xor(a, b), j) == (Bit(a, j) != Bit(b, j))
    decreases j
  {
    XorUnfold(a, b);
    if j > 0 { BitOfXor(a / 2, b / 2, j - 1); }
  }

  lemma {:induction false} NoHighBits(a: nat, n: nat, j: nat)
    requires a < Pow2(n) && n <= j
    ensures !Bit(a, j)
    decreases j
  {
    if n > 0 { NoHighBits(a / 2, n - 1, j - 1); }
    else if j > 0 { NoHighBits(a / 2, 0, j - 1); }
  }

  lemma {:induction false} XorBound(a: nat, b: nat, n: nat)
    requires a < Pow2(n) && b < Pow2(n)
    ensures Xor(a, b) < Pow2(n)
  {
    if n > 0 { XorBound(a / 2, b / 2, n - 1); }
  }

  /** The top bit of an exclusive or is the exclusive or of the top bits. */
  lemma {:induction false} XorTop(a: nat, b: nat, n: nat)
    requires a < Pow2(n + 1) && b < Pow2(n + 1)
    ensures Xor(a, b) >= Pow2(n) <==> (a >= Pow2(n) <==> b < Pow2(n))
    ensures Xor(a, b) < Pow2(n + 1)
  {
    XorBound(a, b, n + 1);
    XorUnfold(a, b);
    if n > 0 {
      XorTop(a / 2, b / 2, n - 1);
    }
  }
}
