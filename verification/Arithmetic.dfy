// Checked signed 64-bit arithmetic shared by the interpreter and by compiled code
// (crates/fidan-runtime/src/integer.rs).

module Arithmetic {

  const MIN64: int := -0x8000_0000_0000_0000
  const MAX64: int := 0x7fff_ffff_ffff_ffff

  predicate InI64(n: int) {
    MIN64 <= n <= MAX64
  }

  type i64 = n: int | MIN64 <= n <= MAX64

  /** Diagnostic codes a Fidan program can observe. */
  datatype Code = R0001 | R1001 | R2001 | R2003

  datatype Checked = Exact(n: i64) | Fails(code: Code)

  function Fit(n: int): Checked {
    if InI64(n) then Exact(n) else Fails(R2003)
  }

  // Rust's `/` and `%` truncate toward zero; Dafny's are Euclidean.

  function Abs(x: int): (r: int)
    ensures r >= 0
  {
    if x < 0 then -x else x
  }

  function TruncDiv(a: int, b: int): int
    requires b != 0
  {
    var q := Abs(a) / Abs(b);
    if (a < 0) == (b < 0) then q else -q
  }

  function TruncRem(a: int, b: int): int
    requires b != 0
  {
    var r := Abs(a) % Abs(b);
    if a < 0 then -r else r
  }

  function CheckedDiv(a: i64, b: i64): Checked {
    if b == 0 then Fails(R2001) else Fit(TruncDiv(a, b))
  }

  // `checked_rem` refuses MIN % -1 although the mathematical remainder is 0.
  function CheckedRem(a: i64, b: i64): Checked {
    if b == 0 then Fails(R2001)
    else if a == MIN64 && b == -1 then Fails(R2003)
    else Fit(TruncRem(a, b))
  }

  lemma MulSigns(x: int, y: int)
    ensures (-x) * y == -(x * y)
    ensures x * (-y) == -(x * y)
    ensures (-x) * (-y) == x * y
  {
  }

  lemma DivMod(x: nat, y: nat)
    requires y > 0
    ensures x == (x / y) * y + x % y && 0 <= x % y < y
  {
  }

  lemma SignedRecombine(x: int, y: int, q: int, r: int)
    requires x == q * y + r
    ensures x == (-q) * (-y) + r
    ensures -x == (-q) * y + (-r)
    ensures -x == q * (-y) + (-r)
  {
    MulSigns(q, y);
  }

  /** Quotient and remainder recombine, the remainder is smaller than the divisor and carries the
      dividend's sign: truncation toward zero. */
  lemma TruncationLaw(a: int, b: int)
    requires b != 0
    ensures a == TruncDiv(a, b) * b + TruncRem(a, b)
    ensures Abs(TruncRem(a, b)) < Abs(b)
    ensures TruncRem(a, b) == 0 || (TruncRem(a, b) < 0 <==> a < 0)
  {
    var x, y := Abs(a), Abs(b);
    DivMod(x, y);
    SignedRecombine(x, y, x / y, x % y);
  }

  /** Division is refused exactly for a zero divisor (R2001) and for MIN / -1 (R2003). */
  lemma DivisionFailsExactly(a: i64, b: i64)
    ensures CheckedDiv(a, b) == Fails(R2001) <==> b == 0
    ensures CheckedDiv(a, b) == Fails(R2003) <==> a == MIN64 && b == -1
    ensures CheckedRem(a, b).Fails? <==> CheckedDiv(a, b).Fails?
    ensures CheckedRem(a, b).Fails? ==> CheckedRem(a, b) == CheckedDiv(a, b)
  {
    if b != 0 {
      TruncationLaw(a, b);
      assert InI64(a);
      var q := Abs(a) / Abs(b);
      QuotientBound(Abs(a), Abs(b));
      assert TruncDiv(a, b) == if (a < 0) == (b < 0) then q else -q;
      if Abs(b) > 1 {
        assert 2 * q <= Abs(a) <= MAX64 + 1;
        assert InI64(TruncDiv(a, b));
      } else {
        assert q == Abs(a);
        assert InI64(TruncDiv(a, b)) <==> !(a == MIN64 && b == -1);
      }
    }
  }

  lemma QuotientBound(x: nat, y: nat)
    requires y > 0
    ensures 0 <= x / y
    ensures y > 1 ==> 2 * (x / y) <= x
    ensures y == 1 ==> x / y == x
  {
    var q: nat := x / y;
    DivMod(x, y);
    if y > 1 {
      AtLeastTwice(q, y);
    }
  }

  lemma {:induction false} AtLeastTwice(q: nat, y: nat)
    requires y > 1
    ensures q * y >= 2 * q
  {
    if q > 0 {
      AtLeastTwice(q - 1, y);
      assert q * y == (q - 1) * y + y;
    }
  }

  // ----- integer powers -----

  function Power(b: int, e: nat): int {
    if e == 0 then 1 else b * Power(b, e - 1)
  }

  lemma {:induction false} PowerSquare(b: int, k: nat)
    ensures Power(b, 2 * k) == Power(b * b, k)
  {
    if k > 0 {
      PowerSquare(b, k - 1);
      assert Power(b, 2 * k) == b * (b * Power(b, 2 * k - 2));
      assert b * (b * Power(b, 2 * k - 2)) == (b * b) * Power(b, 2 * k - 2);
      assert 2 * k - 2 == 2 * (k - 1);
    }
  }

  lemma {:induction false} PowerAtLeast(b: int, k: nat)
    requires b >= 1
    ensures Power(b, k) >= 1
    ensures k >= 1 ==> Power(b, k) >= b
  {
    if k > 0 {
      PowerAtLeast(b, k - 1);
      assert b * Power(b, k - 1) >= b * 1;
    }
  }

  lemma {:induction false} PowerOne(e: nat)
    ensures Power(1, e) == 1
    ensures Power(-1, e) == if e % 2 == 0 then 1 else -1
  {
    if e > 0 {
      PowerOne(e - 1);
    }
  }

  lemma SquareMonotone(x: nat, y: nat)
    ensures x <= y ==> x * x <= y * y
  {
    if x <= y {
      assert y * y == x * x + (y - x) * (y + x);
    }
  }

  // 2^63 is not a perfect square, so an overflowing square is strictly above it.
  lemma OverflowingSquare(b: int)
    requires !InI64(b * b)
    ensures b * b > MAX64 + 1
  {
    var x := Abs(b);
    assert x * x == b * b;
    SquareMonotone(x, 3037000499);
    SquareMonotone(3037000500, x);
  }

  lemma ScaledOutside(x: int, p: int)
    requires p >= 1
    ensures x > 0 ==> x * p >= x
    ensures x < 0 ==> x * p <= x
    ensures !InI64(x) ==> !InI64(x * p)
  {
  }

  lemma ProductNonZero(x: int, y: int)
    requires x != 0 && y != 0
    ensures x * y != 0
  {
  }

  /** What `pow` must compute for an exponent `e`: the exact power where it is representable. */
  function CheckedPow(b: i64, e: i64): Checked {
    if e < 0 then
      if b == 1 then Exact(1)
      else if b == -1 then Exact(if e % 2 == 0 then 1 else -1)
      else Fails(R0001)
    else
      Fit(Power(b, e))
  }

  // One iteration's bookkeeping: the remaining factor after consuming the lowest exponent bit.
  lemma PowerStep(result: int, base: int, exponent: nat, total: int)
    requires exponent != 0
    requires result * Power(base, exponent) == total
    ensures exponent % 2 == 1 ==> (result * base) * Power(base * base, exponent / 2) == total
    ensures exponent % 2 == 0 ==> result * Power(base * base, exponent / 2) == total
  {
    PowerSquare(base, exponent / 2);
    if exponent % 2 == 1 {
      assert exponent == 2 * (exponent / 2) + 1;
      assert Power(base, exponent) == base * Power(base, 2 * (exponent / 2));
      assert result * (base * Power(base * base, exponent / 2)) == (result * base) * Power(base * base, exponent / 2);
    } else {
      assert exponent == 2 * (exponent / 2);
    }
  }

  // An intermediate product that overflows dooms the final result.
  lemma DoomedProduct(x: int, base: int, k: nat, total: int)
    requires x * Power(base * base, k) == total
    requires base != 0
    requires !InI64(x)
    ensures !InI64(total)
  {
    assert base * base >= 1;
    PowerAtLeast(base * base, k);
    ScaledOutside(x, Power(base * base, k));
  }

  // A square that overflows while exponent bits remain dooms the final result.
  lemma DoomedSquare(result: int, base: int, k: nat, total: int)
    requires result * Power(base * base, k) == total
    requires k != 0 && result != 0
    requires !InI64(base * base)
    ensures !InI64(total)
  {
    OverflowingSquare(base);
    PowerAtLeast(base * base, k);
    var p := Power(base * base, k);
    if result > 0 {
      assert result * p >= p;
    } else {
      assert result * p <= -p;
    }
  }

  /** Square-and-multiply with a checked multiplication at every step reports an overflow exactly
      when the true power does not fit in 64 bits. */
  method Pow(b: i64, e: i64) returns (r: Checked)
    ensures r == CheckedPow(b, e)
  {
    if e < 0 {
      if b == 1 {
        return Exact(1);
      }
      if b == -1 {
        return Exact(if e % 2 == 0 then 1 else -1);
      }
      return Fails(R0001);
    }
    var base: int, exponent: nat, result: int := b, e, 1;
    ghost var total := Power(b, e);
    while exponent != 0
      invariant 0 <= exponent && InI64(base) && InI64(result)
      invariant exponent != 0 ==> result * Power(base, exponent) == total
      invariant exponent == 0 ==> result == total
      invariant b != 0 ==> result != 0 && (exponent != 0 ==> base != 0)
      invariant b == 0 ==> base == 0
      decreases exponent
    {
      PowerStep(result, base, exponent, total);
      var odd := exponent % 2 != 0;
      exponent := exponent / 2;
      if odd {
        if !InI64(result * base) {
          DoomedProduct(result * base, base, exponent, total);
          return Fails(R2003);
        }
        if b != 0 {
          ProductNonZero(result, base);
        }
        result := result * base;
      }
      if exponent != 0 {
        if !InI64(base * base) {
          DoomedSquare(result, base, exponent, total);
          return Fails(R2003);
        }
        if b != 0 {
          ProductNonZero(base, base);
        }
        base := base * base;
      }
    }
    return Exact(result);
  }
}
