/** Python's decimal arithmetic in its default context: 28 significant digits,
    ROUND_HALF_EVEN, as the General Decimal Arithmetic specification defines
    multiply, add, divide and quantize. A number is coef * 10^exp. */
module Decimals {
  import opened Prelude
  import opened Arith

  const PRECISION := 28

  datatype Dec = Dec(coef: int, exp: int)

  /** a followed by k zeros. */
  function Shift(a: int, k: nat): (r: int)
    ensures a >= 0 ==> r >= a
  {
    if k == 0 then a else 10 * Shift(a, k - 1)
  }

  function Pow10(k: nat): (r: int)
    ensures r >= 1
  {
    Shift(1, k)
  }

  /** Length of the decimal numeral; zero has one digit. */
  function Digits(n: nat): (d: nat)
    ensures d >= 1
  {
    if n < 10 then 1 else 1 + Digits(n / 10)
  }

  // ----- rounding a quotient of integers -----

  function HalfUpNat(n: nat, d: int): nat
    requires d > 0
  {
    Quot(2 * n + d, 2 * d)
  }

  /** ROUND_HALF_UP of n / d: ties go away from zero. */
  function HalfUp(n: int, d: int): int
    requires d > 0
  {
    if n >= 0 then HalfUpNat(n, d) else -(HalfUpNat(-n, d) as int)
  }

  function HalfEvenNat(n: nat, d: int): nat
    requires d > 0
  {
    var q, r := Quot(n, d), Rem(n, d);
    if 2 * r > d || (2 * r == d && q % 2 == 1) then q + 1 else q
  }

  // ----- the operations -----

  /** Rounds a coefficient that is too long for the context; a carry out of the top digit
      leaves 28 digits and one more exponent. */
  function FixNat(c: nat, e: int): (x: Dec)
    ensures x.coef >= 0
  {
    var len := Digits(c);
    if len <= PRECISION then Dec(c, e)
    else
      var k := len - PRECISION;
      var h := HalfEvenNat(c, Pow10(k));
      if h == Pow10(PRECISION) then Dec(Pow10(PRECISION - 1), e + k + 1) else Dec(h, e + k)
  }

  function Negate(x: Dec): Dec {
    Dec(-x.coef, x.exp)
  }

  function Fix(x: Dec): Dec {
    if x.coef >= 0 then FixNat(x.coef, x.exp) else Negate(FixNat(-x.coef, x.exp))
  }

  function Mul(x: Dec, y: Dec): Dec {
    Fix(Dec(x.coef * y.coef, x.exp + y.exp))
  }

  /** The coefficient of x when written with the smaller exponent e. */
  function AtExp(x: Dec, e: int): int
    requires e <= x.exp
  {
    Shift(x.coef, x.exp - e)
  }

  function MinExp(x: Dec, y: Dec): int {
    if x.exp <= y.exp then x.exp else y.exp
  }

  function Add(x: Dec, y: Dec): Dec {
    var e := MinExp(x, y);
    Fix(Dec(AtExp(x, e) + AtExp(y, e), e))
  }

  predicate GreaterOrEqual(x: Dec, y: Dec) {
    var e := MinExp(x, y);
    AtExp(x, e) >= AtExp(y, e)
  }

  /** A floor quotient whose last digit remembers a remainder: a 0 or 5 there is bumped,
      so that the final rounding sees which side of a tie it is on. */
  function StickyQuotient(num: nat, den: int): nat
    requires den > 0
  {
    var q := Quot(num, den);
    if Rem(num, den) != 0 && q % 5 == 0 then q + 1 else q
  }

  /** The quotient of a * 10^shift by b. */
  function LongQuotient(a: nat, b: nat, shift: int): nat
    requires b > 0
  {
    if shift >= 0 then StickyQuotient(Shift(a, shift), b)
    else
      assert Shift(b, -shift) > 0;
      StickyQuotient(a, Shift(b, -shift))
  }

  function DivShift(a: nat, b: nat): int {
    Digits(b) - Digits(a) + PRECISION + 1
  }

  /** Long division to one digit more than the context holds. */
  function DivNat(a: nat, b: nat, ideal: int): (x: Dec)
    requires a > 0 && b > 0
    ensures x.coef >= 0
  {
    FixNat(LongQuotient(a, b, DivShift(a, b)), ideal - DivShift(a, b))
  }

  function Div(x: Dec, y: Dec): Dec
    requires y.coef != 0
  {
    var ideal := x.exp - y.exp;
    if x.coef == 0 then Dec(0, ideal)
    else
      var q := DivNat(Abs(x.coef), Abs(y.coef), ideal);
      if (x.coef > 0) == (y.coef > 0) then q else Negate(q)
  }

  /** Brings x to exactly `places` decimals, half up; an over-long result is an invalid operation. */
  function Quantize(x: Dec, places: nat): (r: Result<Dec>)
    ensures r.Ok? ==> r.value.exp == 0 - places
    ensures r.Err? ==> r.error == InvalidDecimalOperation
  {
    var c := if x.exp + places >= 0 then Shift(x.coef, x.exp + places)
             else HalfUp(x.coef, Pow10(0 - places - x.exp));
    if Digits(Abs(c)) > PRECISION then Err(InvalidDecimalOperation) else Ok(Dec(c, 0 - places))
  }

  // ----- shifting -----

  lemma {:induction false} ShiftTwice(a: int, i: nat, j: nat)
    ensures Shift(Shift(a, i), j) == Shift(a, i + j)
  {
    if j > 0 {
      ShiftTwice(a, i, j - 1);
    }
  }

  lemma {:induction false} ShiftTimes(a: int, k: nat)
    ensures Shift(a, k) == a * Pow10(k)
  {
    if k > 0 {
      ShiftTimes(a, k - 1);
      TimesConstant(a, 10, Pow10(k - 1));
    }
  }

  lemma {:induction false} ShiftMonotone(a: int, b: int, k: nat)
    requires a <= b
    ensures Shift(a, k) <= Shift(b, k)
    ensures a < b ==> Shift(a, k) < Shift(b, k)
  {
    if k > 0 {
      ShiftMonotone(a, b, k - 1);
    }
  }

  lemma {:induction false} ShiftNegative(a: int, k: nat)
    ensures Shift(-a, k) == -Shift(a, k)
  {
    if k > 0 {
      ShiftNegative(a, k - 1);
    }
  }

  lemma {:induction false} ShiftSum(a: int, b: int, k: nat)
    ensures Shift(a + b, k) == Shift(a, k) + Shift(b, k)
  {
    if k > 0 {
      ShiftSum(a, b, k - 1);
    }
  }

  lemma PowMonotone(i: nat, j: nat)
    requires i <= j
    ensures Pow10(i) <= Pow10(j)
  {
    ShiftTwice(1, j - i, i);
    ShiftMonotone(1, Pow10(j - i), i);
  }

  /** The powers too large for the verifier to compute by unfolding. */
  lemma LargePowers()
    ensures Pow10(14) == 100_000_000_000_000
    ensures Pow10(20) == 100_000_000_000_000_000_000
    ensures Pow10(27) == 1_000_000_000_000_000_000_000_000_000
    ensures Pow10(15) == 1_000_000_000_000_000 && Pow10(13) == 10_000_000_000_000 && Pow10(10) == 10_000_000_000
    ensures Pow10(28) == 10_000_000_000_000_000_000_000_000_000
    ensures Pow10(29) == 100_000_000_000_000_000_000_000_000_000
    ensures Pow10(30) == 1_000_000_000_000_000_000_000_000_000_000
    ensures Pow10(33) == 1_000_000_000_000_000_000_000_000_000_000_000
    ensures Pow10(34) == 10_000_000_000_000_000_000_000_000_000_000_000
  {
    assert Pow10(7) == 10_000_000;
    ShiftTwice(1, 7, 7);
    assert Shift(10_000_000, 7) == 100_000_000_000_000;
    ShiftTwice(1, 14, 6);
    assert Shift(100_000_000_000_000, 6) == 100_000_000_000_000_000_000;
    ShiftTwice(1, 14, 7);
    assert Shift(100_000_000_000_000, 7) == 1_000_000_000_000_000_000_000;
    ShiftTwice(1, 21, 6);
    ShiftTwice(1, 27, 6);
    assert Shift(1_000_000_000_000_000_000_000, 6) == 1_000_000_000_000_000_000_000_000_000;
    assert Shift(1_000_000_000_000_000_000_000_000_000, 6) == 1_000_000_000_000_000_000_000_000_000_000_000;
  }

  lemma {:induction false} DigitsBracket(n: nat)
    requires n > 0
    ensures Pow10(Digits(n) - 1) <= n < Pow10(Digits(n))
  {
    if n >= 10 {
      DigitsBracket(n / 10);
    }
  }

  /** A number below 10^k has at most k digits, and conversely. */
  lemma DigitsAtMost(n: nat, k: nat)
    requires k >= 1
    ensures Digits(n) <= k <==> n < Pow10(k)
  {
    if n > 0 {
      DigitsBracket(n);
      if Digits(n) <= k {
        PowMonotone(Digits(n), k);
      } else {
        PowMonotone(k, Digits(n) - 1);
      }
    } else {
      PowMonotone(0, k);
    }
  }

  lemma DigitsMonotone(m: nat, n: nat)
    requires m <= n
    ensures Digits(m) <= Digits(n)
  {
    DigitsAtMost(n, Digits(n));
    DigitsAtMost(m, Digits(n));
  }

  // ----- what half-up rounding means -----

  /** r is the half-up rounding of n / d exactly when n / d lies in [r - 1/2, r + 1/2). */
  lemma HalfUpMeans(n: nat, d: int, r: int)
    requires d > 0
    ensures r == HalfUpNat(n, d) <==> 2 * (r * d) - d <= 2 * n < 2 * (r * d) + d
  {
    FloorAtLeast(2 * n + d, 2 * d, r);
    FloorAtLeast(2 * n + d, 2 * d, r + 1);
    TwiceTimes(r, d);
  }

  /** Shifting numerator and denominator alike changes nothing. */
  lemma {:induction false} HalfUpShift(n: nat, d: int, k: nat)
    requires d > 0
    ensures HalfUpNat(Shift(n, k), Shift(d, k)) == HalfUpNat(n, d)
  {
    if k > 0 {
      HalfUpShift(n, d, k - 1);
      QuotTen(2 * Shift(n, k - 1) + Shift(d, k - 1), 2 * Shift(d, k - 1));
    }
  }

  lemma HalfUpExact(q: int, d: int)
    requires d > 0
    ensures HalfUp(q * d, d) == q
  {
    var a := Abs(q);
    MulMonotone(0, a, d);
    HalfUpMeans(a * d, d, a);
    if q < 0 {
      MulMonotone(1, a, d);
      MinusTimes(a, d);
    }
  }

  lemma HalfUpMonotone(m: nat, n: nat, d: int)
    requires d > 0 && m <= n
    ensures HalfUpNat(m, d) <= HalfUpNat(n, d)
  {
    FloorAtLeast(2 * m + d, 2 * d, HalfUpNat(m, d));
    FloorAtLeast(2 * n + d, 2 * d, HalfUpNat(m, d));
  }

  lemma HalfUpAtMost(n: nat, d: int)
    requires d > 0
    ensures HalfUpNat(n, d) <= n
  {
    FloorAtLeast(2 * n + d, 2 * d, n + 1);
    Spread(n, 1, 2 * d);
    MulMonotone(2, 2 * d, n);
  }

  /** Rounding is symmetric about zero. */
  lemma HalfUpOpposite(n: nat, d: int)
    requires d > 0
    ensures HalfUp(0 - n, d) == 0 - HalfUpNat(n, d)
  {
  }

  /** Half-even rounding moves a number by at most half a unit and never below its floor. */
  lemma HalfEvenMeans(n: nat, d: int)
    requires d > 0
    ensures Quot(n, d) <= HalfEvenNat(n, d)
    ensures 2 * n - d <= 2 * (HalfEvenNat(n, d) * d) <= 2 * n + d
  {
    QuotRem(n, d);
    Spread(Quot(n, d), 1, d);
  }

  /** h is the half-even rounding of n / d exactly when it is nearest, and even where two
      integers are. */
  lemma HalfEvenExactly(n: nat, d: int, h: nat)
    requires d > 0
    ensures h == HalfEvenNat(n, d)
        <==> 2 * (h * d) - d <= 2 * n <= 2 * (h * d) + d && (Abs(2 * n - 2 * (h * d)) == d ==> h % 2 == 0)
  {
    var q := Quot(n, d);
    QuotRem(n, d);
    Spread(q, 1, d);
    if h < q {
      MulMonotone(h + 1, q, d);
      Spread(h, 1, d);
    } else if h > q + 1 {
      MulMonotone(q + 2, h, d);
      Spread(q, 2, d);
    } else {
      Nearest(q * d, d, Rem(n, d), q, h, h * d);
    }
  }

  /** The choice between the floor q and q + 1, as sums and comparisons. */
  lemma Nearest(qd: int, d: int, rem: int, q: nat, h: nat, hd: int)
    requires 0 <= rem < d && ((h == q && hd == qd) || (h == q + 1 && hd == qd + d))
    ensures (h == if 2 * rem > d || (2 * rem == d && q % 2 == 1) then q + 1 else q)
        <==> 2 * hd - d <= 2 * (qd + rem) <= 2 * hd + d && (Abs(2 * (qd + rem) - 2 * hd) == d ==> h % 2 == 0)
  {
  }

  lemma HalfEvenUp(n: nat, d: int, q: nat)
    requires d > 0 && q * d <= n < q * d + d && 2 * (n - q * d) > d
    ensures HalfEvenNat(n, d) == q + 1
  {
    QuotIs(n, d, q);
  }

  // ----- what quantizing means -----

  lemma HalfUpRescaled(c: int, i: nat, j: nat)
    ensures HalfUp(Shift(c, j), Pow10(i + j)) == HalfUp(c, Pow10(i))
  {
    ShiftTwice(1, i, j);
    if c >= 0 {
      ShiftMonotone(0, c, j);
      HalfUpShift(c, Pow10(i), j);
    } else {
      ShiftNegative(0 - c, j);
      ShiftMonotone(0, 0 - c, j);
      HalfUpShift(0 - c, Pow10(i), j);
      HalfUpOpposite(Shift(0 - c, j), Pow10(i + j));
      HalfUpOpposite(0 - c, Pow10(i));
    }
  }

  lemma HalfUpWhole(c: int, i: nat, j: nat)
    ensures HalfUp(Shift(c, i + j), Pow10(j)) == Shift(c, i)
  {
    ShiftTwice(c, i, j);
    ShiftTimes(Shift(c, i), j);
    HalfUpExact(Shift(c, i), Pow10(j));
  }

  /** Bringing c / 10^s to p decimals is one half-up rounding of c * 10^p / 10^s, if that has at
      most 28 digits, and an invalid operation otherwise. */
  lemma QuantizeMeans(c: int, s: nat, p: nat, z: int)
    requires z == HalfUp(Shift(c, p), Pow10(s))
    ensures Quantize(Dec(c, 0 - s), p) == if Digits(Abs(z)) <= PRECISION then Ok(Dec(z, 0 - p)) else Err(InvalidDecimalOperation)
  {
    if s <= p {
      HalfUpWhole(c, p - s, s);
    } else {
      HalfUpRescaled(c, s - p, p);
    }
  }

  // ----- what fixing a long coefficient does -----

  /** The value of a rounded coefficient: the half-even multiple of the dropped power. */
  lemma FixValue(c: nat, e: int, k: nat)
    requires k >= 1 && Digits(c) == PRECISION + k
    ensures e < FixNat(c, e).exp <= e + k + 1
    ensures AtExp(FixNat(c, e), e) == Shift(HalfEvenNat(c, Pow10(k)), k)
  {
    Carry(PRECISION, k);
  }

  lemma Carry(top: nat, k: nat)
    requires top >= 1
    ensures Shift(Pow10(top - 1), k + 1) == Shift(Pow10(top), k)
  {
    ShiftTwice(1, top - 1, k + 1);
    ShiftTwice(1, top, k);
  }

  /** Rounding at most 30 digits to 28 leaves the number alone or rounds it, half even,
      to a multiple of 10 or of 100. */
  lemma FixUpTo30(c: nat, e: int)
    requires Digits(c) <= PRECISION + 2
    ensures e <= FixNat(c, e).exp <= e + 3
    ensures var v := AtExp(FixNat(c, e), e);
      v == if Digits(c) <= PRECISION then c
           else if Digits(c) == PRECISION + 1 then HalfEvenNat(c, 10) * 10
           else HalfEvenNat(c, 100) * 100
  {
    if Digits(c) == PRECISION + 1 {
      assert Pow10(1) == 10;
      FixValue(c, e, 1);
    } else if Digits(c) == PRECISION + 2 {
      assert Pow10(2) == 100;
      FixValue(c, e, 2);
    }
  }

  /** Whatever is rounded, at most 28 digits are left. */
  lemma FixFits(c: nat, e: int)
    ensures Digits(FixNat(c, e).coef) <= PRECISION
  {
    PowMonotone(PRECISION - 1, PRECISION);
    if Digits(c) > PRECISION {
      RoundedBelow(c, PRECISION, Digits(c) - PRECISION);
      CarryFits(PRECISION);
      var h := HalfEvenNat(c, Pow10(Digits(c) - PRECISION));
      if h != Pow10(PRECISION) {
        DigitsAtMost(h, PRECISION);
      }
    }
  }

  lemma CarryFits(top: nat)
    requires top >= 1
    ensures Digits(Pow10(top - 1)) <= top
  {
    assert Pow10(top) == 10 * Pow10(top - 1);
    DigitsAtMost(Pow10(top - 1), top);
  }

  lemma RoundedBelow(c: nat, top: nat, k: nat)
    requires c > 0 && Digits(c) == top + k
    ensures HalfEvenNat(c, Pow10(k)) <= Pow10(top)
  {
    DigitsBracket(c);
    ShiftTwice(1, top, k);
    ShiftTimes(Pow10(top), k);
    HalfEvenMeans(c, Pow10(k));
    var h := HalfEvenNat(c, Pow10(k));
    if h > Pow10(top) {
      MulMonotone(Pow10(top) + 1, h, Pow10(k));
      Spread(Pow10(top), 1, Pow10(k));
    }
  }

  /** A longer coefficient becomes one of 28 digits with a larger exponent. */
  lemma FixLong(c: nat, e: int)
    requires Digits(c) > PRECISION
    ensures FixNat(c, e).coef >= Pow10(PRECISION - 1) && FixNat(c, e).exp > e
  {
    DropKeeps(c, PRECISION - 1, Digits(c) - PRECISION);
  }

  lemma DropKeeps(c: nat, keep: nat, k: nat)
    requires c > 0 && Digits(c) == keep + k + 1
    ensures HalfEvenNat(c, Pow10(k)) >= Pow10(keep)
  {
    DigitsBracket(c);
    HalfEvenMeans(c, Pow10(k));
    ShiftTwice(1, keep, k);
    ShiftTimes(Pow10(keep), k);
    FloorAtLeast(c, Pow10(k), Pow10(keep));
  }

  // ----- rounding to 28 digits is monotone -----

  lemma HalfEvenMonotone(m: nat, n: nat, d: int)
    requires d > 0 && m <= n
    ensures HalfEvenNat(m, d) <= HalfEvenNat(n, d)
  {
    var g, h := HalfEvenNat(m, d), HalfEvenNat(n, d);
    HalfEvenExactly(m, d, g);
    HalfEvenExactly(n, d, h);
    if g > h {
      MulMonotone(h + 1, g, d);
      Spread(h, 1, d);
    }
  }

  /** What is left of a number with exponent e, in units of 10^e. */
  function Blurred(n: nat, e: int): (r: int)
    ensures r >= 0
  {
    if FixNat(n, e).exp >= e then AtExp(FixNat(n, e), e) else 0
  }

  lemma BlurredValue(n: nat, e: int, k: nat)
    requires k >= 1 && Digits(n) == PRECISION + k
    ensures Blurred(n, e) == Shift(HalfEvenNat(n, Pow10(k)), k)
    ensures Pow10(PRECISION - 1 + k) <= Blurred(n, e) <= Pow10(PRECISION + k)
  {
    FixValue(n, e, k);
    DropKeeps(n, PRECISION - 1, k);
    RoundedBelow(n, PRECISION, k);
    ShiftMonotone(Pow10(PRECISION - 1), HalfEvenNat(n, Pow10(k)), k);
    ShiftMonotone(HalfEvenNat(n, Pow10(k)), Pow10(PRECISION), k);
    ShiftTwice(1, PRECISION - 1, k);
    ShiftTwice(1, PRECISION, k);
  }

  lemma FixKeepsExponent(n: nat, e: int)
    ensures FixNat(n, e).exp >= e
  {
    if Digits(n) > PRECISION {
      FixLong(n, e);
    }
  }

  lemma BlurredShort(n: nat, e: int)
    requires Digits(n) <= PRECISION
    ensures Blurred(n, e) == n
  {
  }

  lemma BlurredMonotone(m: nat, n: nat, e: int)
    requires m <= n
    ensures Blurred(m, e) <= Blurred(n, e)
  {
    DigitsMonotone(m, n);
    var i, j := Digits(m) - PRECISION, Digits(n) - PRECISION;
    if j <= 0 {
      BlurredShort(m, e);
      BlurredShort(n, e);
    } else if i <= 0 {
      BlurredShort(m, e);
      BlurredValue(n, e, j);
      DigitsAtMost(m, PRECISION);
      PowMonotone(PRECISION, PRECISION - 1 + j);
    } else {
      LongBlurredMonotone(m, n, e, i, j);
    }
  }

  lemma LongBlurredMonotone(m: nat, n: nat, e: int, i: nat, j: nat)
    requires m <= n && 1 <= i <= j && Digits(m) == PRECISION + i && Digits(n) == PRECISION + j
    ensures Blurred(m, e) <= Blurred(n, e)
  {
    BlurredValue(m, e, i);
    BlurredValue(n, e, j);
    if i == j {
      HalfEvenMonotone(m, n, Pow10(i));
      ShiftMonotone(HalfEvenNat(m, Pow10(i)), HalfEvenNat(n, Pow10(i)), i);
    } else {
      PowMonotone(PRECISION + i, PRECISION - 1 + j);
    }
  }

  lemma FixMagnitude(x: Dec)
    ensures Abs(Fix(x).coef) == FixNat(Abs(x.coef), x.exp).coef && Fix(x).exp == FixNat(Abs(x.coef), x.exp).exp
  {
  }
}
