/**
 Binary64 numbers by their bit layout (section 3.4 of IEEE 754-2019): one sign bit, eleven exponent
 bits, 52 fraction bits.  `Scaled` is the number's exact value times 2^1074, an integer, so that
 comparing numbers is comparing integers.
 */
module Floats {
  const TWO52: int := 0x10_0000_0000_0000
  const TWO63: int := 0x8000_0000_0000_0000
  const TWO64: int := 0x1_0000_0000_0000_0000

  type Bits = b: int | 0 <= b < TWO64

  const NEGATIVE_ZERO: Bits := TWO63

  function Pow2(n: nat): (p: int)
    ensures p >= 1
  {
    if n == 0 then 1 else 2 * Pow2(n - 1)
  }

  function Exponent(b: Bits): (e: int)
    ensures 0 <= e < 2048
  {
    b % TWO63 / TWO52
  }

  function Fraction(b: Bits): (f: int)
    ensures 0 <= f < TWO52
  {
    b % TWO52
  }

  predicate IsNaN(b: Bits) {
    Exponent(b) == 2047 && Fraction(b) != 0
  }

  /** Subnormal numbers have no implicit leading bit; infinity counts as the next number up. */
  function Magnitude(b: Bits): (m: int)
    ensures m >= 0
  {
    if Exponent(b) == 0 then Fraction(b) else Product(TWO52 + Fraction(b), Pow2(Exponent(b) - 1))
  }

  function Product(a: int, b: int): (p: int)
    ensures a >= 0 && b >= 0 ==> p >= 0
  {
    a * b
  }

  function Scaled(b: Bits): int {
    if b < TWO63 then Magnitude(b) else -Magnitude(b)
  }

  /** Comparison of two numbers; no order with a NaN. */
  predicate FloatLess(a: Bits, b: Bits) {
    !IsNaN(a) && !IsNaN(b) && Scaled(a) < Scaled(b)
  }

  /** Numbers whose order the index keeps. */
  predicate Plain(b: Bits) {
    !IsNaN(b) && b != NEGATIVE_ZERO
  }

  // ---- the magnitude grows with the bits below the sign ----

  lemma {:induction false} PowGrows(a: nat, b: nat)
    requires a <= b
    ensures Pow2(a) <= Pow2(b)
    decreases b
  {
    if a < b {
      PowGrows(a, b - 1);
    }
  }

  lemma ProductGrows(a: int, b: int, p: int, q: int)
    requires 0 <= a < b && 0 < p <= q
    ensures Product(a, p) < Product(b, q)
  {
    assert a * p < b * p <= b * q;
  }

  lemma Split(b: Bits)
    ensures b % TWO63 == Exponent(b) * TWO52 + Fraction(b)
  {
    assert b % TWO63 % TWO52 == b % TWO52;
  }

  lemma MagnitudeGrows(a: Bits, b: Bits)
    requires a % TWO63 < b % TWO63
    ensures Magnitude(a) < Magnitude(b)
  {
    Split(a);
    Split(b);
    var e, f := Exponent(a), Exponent(b);
    assert e <= f;
    if e == f {
      if e > 0 {
        ProductGrows(TWO52 + Fraction(a), TWO52 + Fraction(b), Pow2(e - 1), Pow2(e - 1));
      }
    } else if e == 0 {
      PowGrows(0, f - 1);
      ProductGrows(Fraction(a), TWO52 + Fraction(b), 1, Pow2(f - 1));
      assert Product(Fraction(a), 1) == Fraction(a);
    } else {
      PowGrows(e, f - 1);
      assert Pow2(e) == 2 * Pow2(e - 1);
      ProductGrows(TWO52 + Fraction(a), 2 * TWO52, Pow2(e - 1), Pow2(e - 1));
      DoubleIt(TWO52, Pow2(e - 1));
      assert Product(TWO52, Pow2(e)) <= Product(TWO52 + Fraction(b), Pow2(f - 1)) by {
        if Fraction(b) == 0 {
          WeaklyGrows(TWO52, Pow2(e), Pow2(f - 1));
        } else {
          ProductGrows(TWO52, TWO52 + Fraction(b), Pow2(e), Pow2(f - 1));
        }
      }
    }
  }

  lemma DoubleIt(a: int, p: int)
    ensures Product(2 * a, p) == Product(a, 2 * p)
  {
  }

  lemma WeaklyGrows(a: int, p: int, q: int)
    requires 0 <= a && p <= q
    ensures Product(a, p) <= Product(a, q)
  {
    assert a * (q - p) >= 0;
  }

  // ---- the order-preserving bits ----

  /** The test f >= 0 of the program: true of both zeros, false of every NaN. */
  predicate AtLeastZero(b: Bits) {
    !IsNaN(b) && Scaled(b) >= 0
  }

  function FlipSign(b: Bits): Bits {
    if b < TWO63 then b + TWO63 else b - TWO63
  }

  function OrderBits(b: Bits): Bits {
    if AtLeastZero(b) then FlipSign(b) else TWO64 - 1 - b
  }

  function BitsInOrder(b: Bits): Bits {
    if b < TWO63 then b + TWO63 else TWO64 - 1 - b
  }

  lemma SignOf(b: Bits)
    requires Plain(b)
    ensures OrderBits(b) == BitsInOrder(b)
    ensures Scaled(b) < 0 <==> b >= TWO63
  {
    if b >= TWO63 {
      assert b % TWO63 == b - TWO63 > 0;
      var zero: Bits := 0;
      MagnitudeGrows(zero, b);
    }
  }

  /** The bits written into keys are ordered as the numbers are. */
  lemma OrderBitsOrder(a: Bits, b: Bits)
    requires Plain(a) && Plain(b)
    ensures OrderBits(a) < OrderBits(b) <==> FloatLess(a, b)
    ensures OrderBits(a) == OrderBits(b) <==> a == b
  {
    SignOf(a);
    SignOf(b);
    BitsOrder(a, b, Scaled(a), Scaled(b), Magnitude(a), Magnitude(b));
    if (a < TWO63) == (b < TWO63) {
      SameSign(a, b);
      SameSign(b, a);
    }
  }

  lemma BitsOrder(a: Bits, b: Bits, s: int, t: int, m: int, n: int)
    requires s == if a < TWO63 then m else -m
    requires t == if b < TWO63 then n else -n
    requires (s < 0 <==> a >= TWO63) && (t < 0 <==> b >= TWO63)
    ensures (a < TWO63 <==> b < TWO63) && (m < n <==> a < b) && (n < m <==> b < a) ==>
              (BitsInOrder(a) < BitsInOrder(b) <==> s < t)
    ensures (a < TWO63) != (b < TWO63) ==> (BitsInOrder(a) < BitsInOrder(b) <==> s < t)
    ensures BitsInOrder(a) == BitsInOrder(b) <==> a == b
  {
  }

  lemma SameSign(a: Bits, b: Bits)
    requires a < TWO63 <==> b < TWO63
    ensures Magnitude(a) < Magnitude(b) <==> a < b
  {
    if a < b {
      MagnitudeGrows(a, b);
    } else if b < a {
      MagnitudeGrows(b, a);
    }
  }

  /** Plain numbers that compare equal are the same number. */
  lemma EqualOrLess(a: Bits, b: Bits)
    requires Plain(a) && Plain(b)
    ensures FloatLess(a, b) || a == b || FloatLess(b, a)
  {
    OrderBitsOrder(a, b);
    OrderBitsOrder(b, a);
  }

  /** Negative zero equals zero, but is ordered before every other number, the negative ones too. */
  lemma NegativeZeroSortsFirst(b: Bits)
    ensures OrderBits(NEGATIVE_ZERO) == 0 <= OrderBits(b)
    ensures !IsNaN(b) && b != NEGATIVE_ZERO ==> 0 < OrderBits(b)
    ensures Scaled(NEGATIVE_ZERO) == Scaled(0) == 0
  {
    assert Exponent(NEGATIVE_ZERO) == 0 && Fraction(NEGATIVE_ZERO) == 0;
    assert IsNaN(TWO64 - 1);
  }

  lemma OnlyZerosAreZero(b: Bits)
    ensures Scaled(b) == 0 <==> b == 0 || b == NEGATIVE_ZERO
  {
    NegativeZeroSortsFirst(b);
    if b % TWO63 != 0 {
      var zero: Bits := 0;
      MagnitudeGrows(zero, b);
    }
  }

  /** One of two numbers is negative zero, the other is not, and is not greater than zero. */
  predicate ZeroInTheWay(a: Bits, b: Bits) {
    a == NEGATIVE_ZERO && b != NEGATIVE_ZERO && Scaled(b) <= 0
  }

  /**
   For any two numbers, the bits are ordered as the numbers are unless the first is negative zero and
   the second is zero or below, or the second is negative zero and the first is below zero; equal
   numbers have equal bits unless they are the two zeros.
   */
  lemma OrderBitsOrderIff(a: Bits, b: Bits)
    requires !IsNaN(a) && !IsNaN(b)
    ensures (OrderBits(a) < OrderBits(b) <==> FloatLess(a, b))
            <==> !ZeroInTheWay(a, b) && !(ZeroInTheWay(b, a) && Scaled(a) < 0)
    ensures (OrderBits(a) == OrderBits(b) <==> Scaled(a) == Scaled(b))
            <==> !(a == NEGATIVE_ZERO && b == 0) && !(b == NEGATIVE_ZERO && a == 0)
  {
    NegativeZeroSortsFirst(a);
    NegativeZeroSortsFirst(b);
    OnlyZerosAreZero(a);
    OnlyZerosAreZero(b);
    if a != NEGATIVE_ZERO && b != NEGATIVE_ZERO {
      OrderBitsOrder(a, b);
      OrderBitsOrder(b, a);
    }
  }
}
