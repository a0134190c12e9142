/** What conversion computes on the amounts and rates the columns can hold: amounts of
    NUMERIC(14, 4), that is below 10^10 with at most four decimals, and positive rates of
    NUMERIC(20, 10). An amount is given as a coefficient a and its number s of decimals. */
module Conversion {
  import opened Prelude
  import opened Arith
  import opened Decimals
  import opened Currency

  const MONEY_SCALE := 4
  const MONEY_DIGITS := 14

  predicate MoneyColumn(a: int, s: nat) {
    s <= MONEY_SCALE && Digits(Abs(a)) <= MONEY_DIGITS - MONEY_SCALE + s
  }

  predicate RateColumn(r: int) {
    r > 0 && Digits(r) <= RATE_DIGITS
  }

  /** A refreshed rate that is positive is one the theorems below speak about. */
  lemma RefreshedRateIsColumn(rate: Dec)
    requires StoredRate(rate).Ok? && StoredRate(rate).value.coef > 0
    ensures RateColumn(StoredRate(rate).value.coef) && StoredRate(rate).value.exp == -10
  {
  }

  // ----- the inverse branch: divide at 28 digits, then quantize -----

  /** c lies in [z - 1/2, z + 1/2) in units of 2 * w, and by some margin below the upper end. */
  ghost predicate BetweenTies(c: int, z: int, w: int, margin: int) {
    2 * (z * w) - w <= c && c + margin <= 2 * (z * w) + w
  }

  /** Half a target unit, in units of the quotient's last digit. */
  function HalfUnit(k: nat): int {
    50 * Pow10(k)
  }

  /** What the quotient n / r is short of the tie above z, in units of 1 / (2 * r). */
  function Gap(n: int, r: int, z: int): int {
    2 * (z * r) + r - 2 * n
  }

  /** z is the half-up rounding of n / r, a number of at most d digits before the point, and the
      tie above z is farther away than half a unit of the 28th digit. */
  ghost predicate ClearOfTie(n: int, r: int, z: int, d: nat) {
    d <= PRECISION && 2 * (z * r) - r <= 2 * n && n < Pow10(d) * r
    && 10 * r < Pow10(PRECISION + 1 - d) * Gap(n, r, z)
  }

  lemma BelowUpperTie(n: int, r: int, z: int, w: int, step: int, u: int, q: int)
    requires r > 0 && w > 0 && step > 0 && u > 0
    requires 10 * r < step * Gap(n, r, z) && u * step <= 2 * w
    requires q * r <= 2 * (n * w)
    ensures q + 5 * u < 2 * (z * w) + w
  {
    var hi := 2 * (z * w) + w;
    GapTimes(n, r, z, w);
    EnoughRoom(w, Gap(n, r, z), u, step, r);
    Spread(q, 5 * u, r);
    TimesConstant(u, 5, r);
    assert (q + 5 * u) * r < hi * r;
    Compare(q + 5 * u, hi, r);
  }

  lemma EnoughRoom(w: int, gap: int, u: int, step: int, r: int)
    requires r > 0 && step > 0 && u > 0 && 10 * r < step * gap && u * step <= 2 * w
    ensures 5 * (u * r) < gap * w
  {
    if gap < 0 {
      MulMonotone(gap, 0, step);
    }
    MulMonotone(u * step, 2 * w, gap);
    MulMonotone(10 * r + 1, step * gap, u);
    Spread(10 * r, 1, u);
    Swap(u, step, gap);
    TimesConstant(r, 10, u);
    TimesConstant(w, 2, gap);
  }

  lemma Cancel(a: int, b: int, d: int)
    requires d > 0 && a * d <= b * d
    ensures a <= b
  {
    if b + 1 <= a {
      MulMonotone(b + 1, a, d);
      Spread(b, 1, d);
    }
  }

  lemma Compare(a: int, b: int, d: int)
    requires d > 0
    ensures a < b <==> a * d < b * d
  {
    if a < b {
      MulMonotone(a + 1, b, d);
      Spread(a, 1, d);
    } else {
      MulMonotone(b, a, d);
    }
  }

  /** The gap, in units of the quotient's last digit times the divisor. */
  lemma GapTimes(n: int, r: int, z: int, w: int)
    ensures Gap(n, r, z) * w == (2 * (z * w) + w) * r - 2 * (n * w)
  {
    Expand(z * w, w, r);
    Swap(z, w, r);
    Spread(2 * (z * r) + r, -2 * n, w);
    Spread(2 * (z * r), r, w);
    TimesConstant(z * r, 2, w);
    TimesConstant(n, -2, w);
  }

  lemma AboveLowerTie(n: int, r: int, z: int, w: int)
    requires w > 0 && 2 * (z * r) - r <= 2 * n
    ensures (2 * (z * w) - w) * r <= 2 * (n * w)
  {
    MulMonotone(2 * (z * r) - r, 2 * n, w);
    TimesConstant(n, 2, w);
    Expand(z * r, r, w);
    Expand(z * w, w, r);
    Swap(z, w, r);
  }

  /** The floor quotient between the ties, more than 5 * u units below the upper one. */
  lemma FloorBetweenTies(n: nat, r: int, z: int, w: int, step: int, u: int, q: nat)
    requires r > 0 && w > 0 && step > 0 && u > 0 && 2 * (z * r) - r <= 2 * n
    requires 10 * r < step * Gap(n, r, z) && u * step <= 2 * w
    requires n * w >= 0 && q == Quot(2 * (n * w), r)
    ensures BetweenTies(q, z, w, 5 * u + 1)
  {
    AboveLowerTie(n, r, z, w);
    FloorAtLeast(2 * (n * w), r, 2 * (z * w) - w);
    FloorAtLeast(2 * (n * w), r, q);
    BelowUpperTie(n, r, z, w, step, u, q);
  }

  /** The sticky digit costs no margin: only a quotient that ends in 0 or 5 is bumped, and one
      directly at the margin below a multiple of 5 ends in 4 or 9. */
  lemma StickyKeepsMargin(num: nat, den: int, z: int, w: int, u: int)
    requires den > 0 && BetweenTies(Quot(num, den), z, w, 5 * u + 1) && (2 * (z * w) + w) % 5 == 0
    ensures BetweenTies(StickyQuotient(num, den), z, w, 5 * u + 1)
  {
    if Quot(num, den) % 5 == 0 {
      EndsBelow(Quot(num, den), 2 * (z * w) + w, u);
    }
  }

  lemma EndsBelow(q: int, hi: int, u: int)
    requires hi % 5 == 0 && q % 5 == 0 && q + 5 * u + 1 <= hi
    ensures q + 5 * u + 2 <= hi
  {
    assert (hi - q) % 5 == 0;
  }

  /** A long quotient of a number with few digits before the point has many behind it. */
  lemma StepFits(n: nat, r: int, j: nat, d: nat, top: nat)
    requires r > 0 && n < Pow10(d) * r && Quot(Shift(n, j), r) >= Pow10(top)
    ensures top < d + j
  {
    ShiftTimes(n, j);
    ShiftTimes(Pow10(d), j);
    ShiftTwice(1, d, j);
    MulMonotone(n + 1, Pow10(d) * r, Pow10(j));
    Spread(n, 1, Pow10(j));
    Swap(Pow10(d), r, Pow10(j));
    QuotBelow(Shift(n, j), r, Pow10(d + j));
    if top >= d + j {
      PowMonotone(d + j, top);
    }
  }

  /** The sticky digit never lengthens a quotient. */
  lemma StickyKeepsLength(num: nat, den: int, k: nat)
    requires den > 0 && k >= 1
    ensures StickyQuotient(num, den) >= Pow10(k) ==> Quot(num, den) >= Pow10(k)
  {
    assert Pow10(k) == 10 * Pow10(k - 1);
  }

  /** Rounding from 29 or 30 digits to 28 does not cross a tie that lies clear of the number. */
  lemma FixKeepsSide(c: nat, e: int, lo: int, hi: int)
    requires Digits(c) <= PRECISION + 2 && lo % 100 == 0 && lo <= c && c + 6 <= hi
    requires Digits(c) == PRECISION + 2 ==> c + 51 <= hi
    ensures e <= FixNat(c, e).exp <= e + 3 && lo <= AtExp(FixNat(c, e), e) < hi
  {
    var t := lo / 100;
    FixUpTo30(c, e);
    RoundingKeepsSide(c, 10, 10 * t);
    RoundingKeepsSide(c, 100, t);
  }

  lemma RoundingKeepsSide(c: nat, d: nat, k: int)
    requires 0 < d && k * d <= c
    ensures k * d <= HalfEvenNat(c, d) * d && 2 * (HalfEvenNat(c, d) * d) <= 2 * c + d
  {
    HalfEvenMeans(c, d);
    FloorAtLeast(c, d, k);
    MulMonotone(k, HalfEvenNat(c, d), d);
  }

  lemma HundredTimes(n: nat, k: nat)
    ensures Shift(n, k + 2) == 2 * (n * HalfUnit(k))
  {
    assert Shift(n, k + 2) == 10 * Shift(n, k + 1);
    ShiftTimes(n, k);
    TimesConstant(n, 50, Pow10(k));
  }

  lemma WholeHundreds(y: int, k: nat)
    requires k >= 1
    ensures (2 * (y * HalfUnit(k)) - HalfUnit(k)) % 100 == 0
    ensures (2 * (y * HalfUnit(k)) + HalfUnit(k)) % 5 == 0
  {
    assert HalfUnit(k) == 100 * (5 * Pow10(k - 1));
    TimesConstant(y, 100, 5 * Pow10(k - 1));
    HundredsSum(y * (5 * Pow10(k - 1)), 5 * Pow10(k - 1));
  }

  lemma HundredsSum(t: int, v: int)
    ensures (2 * (100 * t) - 100 * v) % 100 == 0
    ensures (2 * (100 * t) + 100 * v) % 5 == 0
  {
    assert 2 * (100 * t) - 100 * v == 100 * (2 * t - v);
    assert 2 * (100 * t) + 100 * v == 5 * (40 * t + 20 * v);
  }

  /** Where the sticky quotient lies: clear of the upper tie even after it is cut to 28 digits. */
  lemma StickyBetweenTies(n: nat, r: int, z: int, d: nat, k: nat, c: nat)
    requires r > 0 && k >= 1 && ClearOfTie(n, r, z, d) && c == StickyQuotient(Shift(n, k + 2), r)
    requires Quot(Shift(n, k + 2), r) >= Pow10(PRECISION) && Digits(c) <= PRECISION + 2
    ensures BetweenTies(c, z, HalfUnit(k), if Digits(c) == PRECISION + 2 then 51 else 6)
  {
    HundredTimes(n, k);
    HundredTimes(1, k);
    WholeHundreds(z, k);
    StepFits(n, r, k + 2, d, PRECISION);
    PowMonotone(PRECISION + 1 - d, k + 2);
    FloorBetweenTies(n, r, z, HalfUnit(k), Pow10(PRECISION + 1 - d), 1, Quot(Shift(n, k + 2), r));
    StickyKeepsMargin(Shift(n, k + 2), r, z, HalfUnit(k), 1);
    if Digits(c) == PRECISION + 2 {
      LongStickyBetweenTies(n, r, z, d, k, c);
    }
  }

  lemma LongStickyBetweenTies(n: nat, r: int, z: int, d: nat, k: nat, c: nat)
    requires r > 0 && k >= 1 && ClearOfTie(n, r, z, d) && c == StickyQuotient(Shift(n, k + 2), r)
    requires Digits(c) == PRECISION + 2
    ensures BetweenTies(c, z, HalfUnit(k), 51)
  {
    HundredTimes(n, k);
    HundredTimes(1, k);
    WholeHundreds(z, k);
    DigitsAtMost(c, PRECISION + 1);
    StickyKeepsLength(Shift(n, k + 2), r, PRECISION + 1);
    StepFits(n, r, k + 2, d, PRECISION + 1);
    TenTimes(PRECISION + 1 - d);
    PowMonotone(PRECISION + 2 - d, k + 2);
    FloorBetweenTies(n, r, z, HalfUnit(k), Pow10(PRECISION + 1 - d), 10, Quot(Shift(n, k + 2), r));
    StickyKeepsMargin(Shift(n, k + 2), r, z, HalfUnit(k), 10);
  }

  lemma TenTimes(k: nat)
    ensures Pow10(k + 1) == 10 * Pow10(k)
  {
  }

  /** A coefficient between the ties around z quantizes to z after it was cut to 28 digits. */
  lemma RoundBetweenTies(c: nat, e: int, z: nat, p: nat, k: nat)
    requires Digits(c) <= PRECISION + 2 && k >= 2 && e + k + 2 + p == 0 && Digits(z) <= PRECISION
    requires BetweenTies(c, z, HalfUnit(k), if Digits(c) == PRECISION + 2 then 51 else 6)
    ensures Quantize(FixNat(c, e), p) == Ok(Dec(z, 0 - p))
  {
    var w := HalfUnit(k);
    WholeHundreds(z, k);
    FixKeepsSide(c, e, 2 * (z * w) - w, 2 * (z * w) + w);
    QuantizeBetweenTies(FixNat(c, e), e, z, p, k);
  }

  lemma QuantizeBetweenTies(x: Dec, e: int, z: nat, p: nat, k: nat)
    requires x.coef >= 0 && e <= x.exp <= e + 3 && k >= 2 && e + k + 2 + p == 0 && Digits(z) <= PRECISION
    requires 2 * (z * HalfUnit(k)) - HalfUnit(k) <= AtExp(x, e) < 2 * (z * HalfUnit(k)) + HalfUnit(k)
    ensures Quantize(x, p) == Ok(Dec(z, 0 - p))
  {
    UnscaledRounding(x, e, k, z);
  }

  /** A number between the ties around y, given with any exponent from e to e + 3, rounds to y. */
  lemma UnscaledRounding(x: Dec, e: int, k: nat, y: int)
    requires x.coef >= 0 && e <= x.exp <= e + 3 && k >= 1
    requires 2 * (y * HalfUnit(k)) - HalfUnit(k) <= AtExp(x, e) < 2 * (y * HalfUnit(k)) + HalfUnit(k)
    ensures HalfUpNat(x.coef, Pow10(k + 2 - (x.exp - e))) == y
  {
    var w := HalfUnit(k);
    var j := x.exp - e;
    assert Pow10(k + 2) == 10 * Pow10(k + 1) == 2 * w;
    TwiceTimes(y, w);
    HalfUpMeans(AtExp(x, e), 2 * w, y);
    ShiftTwice(1, k + 2 - j, j);
    HalfUpShift(x.coef, Pow10(k + 2 - j), j);
  }

  /** A quotient that is clear of its upper tie is divided at 28 significant digits and then
      quantized as if it were rounded once. */
  lemma DivisionRounds(a: nat, s: nat, r: nat, p: nat, n: nat, z: nat, d: nat)
    requires a > 0 && r > 0 && s <= 4 && p <= 4 && n == Shift(a, 10 - s + p)
    requires Digits(n) <= Digits(r) + 25 && Digits(z) <= PRECISION && ClearOfTie(n, r, z, d)
    ensures Quantize(DivNat(a, r, RATE_SCALE - s), p) == Ok(Dec(z, 0 - p))
  {
    ShiftDigits(a, 10 - s + p);
    var k := DivShift(a, r) - (10 - s + p) - 2;
    SameShift(a, 10 - s + p, n, k, DivShift(a, r));
    DivisionScaled(a, r, 10 - s, p, n, z, d, DivShift(a, r), k);
  }

  lemma SameShift(a: nat, g: nat, n: nat, k: nat, shift: nat)
    requires n == Shift(a, g) && shift == g + k + 2
    ensures Shift(a, shift) == Shift(n, k + 2)
  {
    ShiftTwice(a, g, k + 2);
  }

  lemma DivisionScaled(a: nat, r: nat, ideal: int, p: nat, n: nat, z: nat, d: nat, shift: nat, k: nat)
    requires a > 0 && r > 0 && Digits(z) <= PRECISION && ClearOfTie(n, r, z, d)
    requires k >= 2 && shift == DivShift(a, r) && Shift(a, shift) == Shift(n, k + 2) && ideal - shift == 0 - p - k - 2
    ensures Quantize(DivNat(a, r, ideal), p) == Ok(Dec(z, 0 - p))
  {
    LongDivision(a, r, ideal, shift);
    QuotientRounds(a, r, p, n, z, d, shift, k);
  }

  lemma LongDivision(a: nat, r: nat, ideal: int, shift: nat)
    requires a > 0 && r > 0 && shift == DivShift(a, r)
    ensures DivNat(a, r, ideal) == FixNat(StickyQuotient(Shift(a, shift), r), ideal - shift)
  {
    WholeShift(a, r, shift);
  }

  lemma WholeShift(a: nat, r: nat, shift: nat)
    requires r > 0
    ensures LongQuotient(a, r, shift) == StickyQuotient(Shift(a, shift), r)
  {
  }

  lemma QuotientRounds(a: nat, r: nat, p: nat, n: nat, z: nat, d: nat, shift: nat, k: nat)
    requires a > 0 && r > 0 && Digits(z) <= PRECISION && ClearOfTie(n, r, z, d)
    requires shift == DivShift(a, r) && k >= 2 && Shift(a, shift) == Shift(n, k + 2)
    ensures Quantize(FixNat(StickyQuotient(Shift(a, shift), r), 0 - p - k - 2), p) == Ok(Dec(z, 0 - p))
  {
    QuotientSize(a, r, shift);
    StickyRounds(n, r, p, z, d, k, StickyQuotient(Shift(a, shift), r));
  }

  lemma QuotientSize(a: nat, r: nat, shift: nat)
    requires a > 0 && r > 0 && shift == DivShift(a, r)
    ensures Quot(Shift(a, shift), r) >= Pow10(PRECISION)
    ensures Digits(StickyQuotient(Shift(a, shift), r)) <= PRECISION + 2
  {
    StickyDigits(a, r, shift);
    QuotientAtLeast(a, r, shift, PRECISION);
  }

  lemma StickyRounds(n: nat, r: nat, p: nat, z: nat, d: nat, k: nat, c: nat)
    requires r > 0 && k >= 2 && Digits(z) <= PRECISION && ClearOfTie(n, r, z, d)
    requires c == StickyQuotient(Shift(n, k + 2), r)
    requires Quot(Shift(n, k + 2), r) >= Pow10(PRECISION) && Digits(c) <= PRECISION + 2
    ensures Quantize(FixNat(c, 0 - p - k - 2), p) == Ok(Dec(z, 0 - p))
  {
    StickyBetweenTies(n, r, z, d, k, c);
    RoundBetweenTies(c, 0 - p - k - 2, z, p, k);
  }

  /** The quotient, sticky digit included, has at most 30 digits. */
  lemma StickyDigits(a: nat, r: int, shift: nat)
    requires a > 0 && r > 0 && shift == Digits(r) - Digits(a) + PRECISION + 1
    ensures Digits(StickyQuotient(Shift(a, shift), r)) <= PRECISION + 2
  {
    QuotientDigits(a, r, shift, PRECISION + 2);
    assert Pow10(PRECISION + 2) == 10 * Pow10(PRECISION + 1);
    DigitsAtMost(StickyQuotient(Shift(a, shift), r), PRECISION + 2);
  }

  lemma QuotientDigits(a: nat, r: int, shift: nat, top: nat)
    requires a > 0 && r > 0 && shift == Digits(r) - Digits(a) + top - 1
    ensures Quot(Shift(a, shift), r) < Pow10(top)
  {
    ShiftedBelow(a, r, shift, top);
    ShiftTimes(r, top);
    QuotBelow(Shift(a, shift), r, Pow10(top));
  }

  lemma ShiftedBelow(a: nat, r: nat, shift: nat, top: nat)
    requires a > 0 && r > 0 && shift == Digits(r) - Digits(a) + top - 1
    ensures Shift(a, shift) < Shift(r, top)
  {
    DigitsBracket(a);
    DigitsBracket(r);
    ShiftMonotone(a, Pow10(Digits(a)), shift);
    ShiftTwice(1, Digits(a), shift);
    ShiftTwice(1, Digits(r) - 1, top);
    ShiftMonotone(Pow10(Digits(r) - 1), r, top);
  }

  lemma QuotientAtLeast(a: nat, r: nat, shift: nat, top: nat)
    requires a > 0 && r > 0 && shift == Digits(r) - Digits(a) + top + 1
    ensures Quot(Shift(a, shift), r) >= Pow10(top)
  {
    ShiftedAbove(a, r, shift, top);
    ShiftTimes(r, top);
    QuotReaches(Shift(a, shift), r, Pow10(top));
  }

  lemma QuotReaches(n: nat, d: int, h: int)
    requires d > 0 && n >= d * h
    ensures Quot(n, d) >= h
  {
    FloorAtLeast(n, d, h);
  }

  lemma ShiftedAbove(a: nat, r: nat, shift: nat, top: nat)
    requires a > 0 && r > 0 && shift == Digits(r) - Digits(a) + top + 1
    ensures Shift(r, top) <= Shift(a, shift)
  {
    DigitsBracket(a);
    DigitsBracket(r);
    ShiftMonotone(Pow10(Digits(a) - 1), a, shift);
    ShiftTwice(1, Digits(a) - 1, shift);
    ShiftMonotone(r, Pow10(Digits(r)), top);
    ShiftTwice(1, Digits(r), top);
  }

  /** The digits of an amount in units of 10^-k. */
  lemma {:induction false} ShiftDigits(a: nat, k: nat)
    requires a > 0
    ensures Shift(a, k) > 0 && Digits(Shift(a, k)) == Digits(a) + k
  {
    if k > 0 {
      ShiftDigits(a, k - 1);
    }
  }

  lemma ResultDigits(n: nat, r: int, k: nat)
    requires r > 0 && Digits(n) <= k
    ensures Digits(HalfUpNat(n, r)) <= k
  {
    HalfUpAtMost(n, r);
    DigitsMonotone(HalfUpNat(n, r), n);
  }

  /** Up to 26 digits of dividend, no rate brings a quotient close to a tie without reaching it. */
  lemma ShortIsClear(n: nat, r: int, z: nat) returns (d: nat)
    requires n > 0 && r > 0 && Digits(n) <= 26 && Digits(r) <= 20 && z == HalfUpNat(n, r)
    ensures ClearOfTie(n, r, z, d)
  {
    HalfUpMeans(n, r, z);
    d := if Digits(n) >= Digits(r) then Digits(n) - Digits(r) + 1 else 0;
    PlacesBefore(n, r, d);
    RoomBehind(r, PRECISION + 1 - d);
    MulMonotone(1, Gap(n, r, z), Pow10(PRECISION + 1 - d));
  }

  lemma PlacesBefore(n: nat, r: nat, d: nat)
    requires n > 0 && r > 0 && d == if Digits(n) >= Digits(r) then Digits(n) - Digits(r) + 1 else 0
    ensures n < Pow10(d) * r
  {
    BelowShifted(n, r, d);
    ShiftTimes(r, d);
  }

  lemma BelowShifted(n: nat, r: nat, d: nat)
    requires n > 0 && r > 0 && Digits(n) + 1 <= Digits(r) + d
    ensures n < Shift(r, d)
  {
    DigitsBracket(n);
    DigitsBracket(r);
    ShiftTwice(1, Digits(r) - 1, d);
    ShiftMonotone(Pow10(Digits(r) - 1), r, d);
    PowMonotone(Digits(n), Digits(r) - 1 + d);
  }

  lemma RoomBehind(r: nat, k: nat)
    requires r > 0 && Digits(r) + 2 <= k
    ensures 10 * r < Pow10(k)
  {
    DigitsBracket(r);
    TenTimes(Digits(r));
    TenTimes(Digits(r) + 1);
    PowMonotone(Digits(r) + 2, k);
  }

  /** On a positive amount: dividing at 28 significant digits and then quantizing gives
      the single half-up rounding of the exact rational quotient. */
  lemma InverseExactNat(a: nat, s: nat, r: nat, p: nat)
    requires a > 0 && RateColumn(r) && s <= 4 && p <= 4 && Digits(a) + 10 - s + p <= 26
    ensures Quantize(DivNat(a, r, RATE_SCALE - s), p) == Ok(Dec(HalfUpNat(Shift(a, 10 - s + p), r), 0 - p))
  {
    var n := Shift(a, 10 - s + p);
    ShiftDigits(a, 10 - s + p);
    ResultDigits(n, r, 26);
    var d := ShortIsClear(n, r, HalfUpNat(n, r));
    DivisionRounds(a, s, r, p, n, HalfUpNat(n, r), d);
  }

  /** The inverse branch is exact for every amount and rate the columns can hold. */
  lemma InverseBranchExact(a: int, s: nat, r: int, p: nat)
    requires MoneyColumn(a, s) && RateColumn(r) && p <= 4
    ensures Quantize(Div(Dec(a, 0 - s), Dec(r, -10)), p) == Ok(Dec(HalfUp(Shift(a, 10 - s + p), r), 0 - p))
  {
    if a == 0 {
      InverseZero(s, r, p);
    } else {
      InverseExactNat(Abs(a), s, r, p);
      InverseSigned(a, s, r, p, HalfUpNat(Shift(Abs(a), 10 - s + p), r));
    }
  }

  lemma InverseZero(s: nat, r: int, p: nat)
    requires r > 0 && s <= 4
    ensures Quantize(Div(Dec(0, 0 - s), Dec(r, -10)), p) == Ok(Dec(HalfUp(Shift(0, 10 - s + p), r), 0 - p))
  {
    ShiftZero(10 - s + p);
    HalfUpMeans(0, r, 0);
    assert Div(Dec(0, 0 - s), Dec(r, -10)) == Dec(0, 10 - s);
  }

  lemma InverseSigned(a: int, s: nat, r: nat, p: nat, y: nat)
    requires a != 0 && r > 0 && s <= 4 && y == HalfUpNat(Shift(Abs(a), 10 - s + p), r)
    requires Quantize(DivNat(Abs(a), r, 10 - s), p) == Ok(Dec(y, 0 - p))
    ensures Quantize(Div(Dec(a, 0 - s), Dec(r, -10)), p) == Ok(Dec(HalfUp(Shift(a, 10 - s + p), r), 0 - p))
  {
    if a > 0 {
      assert Div(Dec(a, 0 - s), Dec(r, -10)) == DivNat(a, r, 10 - s);
    } else {
      OppositeRounding(Abs(a), 10 - s + p, r);
      NegativeQuotient(Abs(a), s, r, p, y);
    }
  }

  lemma OppositeRounding(m: nat, k: nat, r: int)
    requires r > 0
    ensures HalfUp(Shift(0 - m, k), r) == 0 - HalfUpNat(Shift(m, k), r)
  {
    ShiftNegative(m, k);
    HalfUpOpposite(Shift(m, k), r);
  }

  lemma NegativeQuotient(m: nat, s: nat, r: nat, p: nat, y: nat)
    requires m > 0 && r > 0 && Quantize(DivNat(m, r, 10 - s), p) == Ok(Dec(y, 0 - p))
    ensures Quantize(Div(Dec(0 - m, 0 - s), Dec(r, -10)), p) == Ok(Dec(0 - y, 0 - p))
  {
    assert Div(Dec(0 - m, 0 - s), Dec(r, -10)) == Negate(DivNat(m, r, 10 - s));
    NegatedQuantize(DivNat(m, r, 10 - s), p);
  }

  lemma ShiftZero(k: nat)
    ensures Shift(0, k) == 0
  {
    ShiftTimes(0, k);
  }

  lemma NegatedQuantize(q: Dec, p: nat)
    requires q.coef >= 0 && Quantize(q, p).Ok?
    ensures Quantize(Negate(q), p) == Ok(Dec(-Quantize(q, p).value.coef, 0 - p))
  {
    if q.exp + p >= 0 {
      ShiftNegative(q.coef, q.exp + p);
    } else {
      HalfUpOpposite(q.coef, Pow10(0 - p - q.exp));
    }
  }

  // ----- amounts that a money column can hold -----

  predicate FitsMoneyColumn(x: Dec) {
    var stored := Quantize(x, MONEY_SCALE);
    stored.Ok? && Digits(Abs(stored.value.coef)) <= MONEY_DIGITS
  }

  /** The money column holds an amount of p decimals exactly when it is below 10^10 in size. */
  lemma ColumnHolds(y: int, p: nat)
    requires p <= 4
    ensures FitsMoneyColumn(Dec(y, 0 - p)) <==> Abs(y) < Pow10(10 + p)
  {
    FitsExactly(y, p);
    DigitsAtMost(Abs(y), 10 + p);
  }

  /** In digits: ten before the point. */
  lemma FitsExactly(y: int, p: nat)
    requires p <= 4
    ensures FitsMoneyColumn(Dec(y, 0 - p)) <==> MoneyColumn(y, p)
  {
    var stored := Shift(y, 4 - p);
    ShiftedAbs(y, 4 - p);
    if MoneyColumn(y, p) && y != 0 {
      ShiftDigits(Abs(y), 4 - p);
    } else if y == 0 {
      ShiftZero(4 - p);
    }
    if FitsMoneyColumn(Dec(y, 0 - p)) {
      FitsScaled(Abs(y), 10 + p, 4 - p);
    }
  }

  lemma FitsScaled(y: nat, i: nat, j: nat)
    requires i >= 1 && Digits(Shift(y, j)) <= i + j
    ensures Digits(y) <= i
  {
    DigitsAtMost(y, i);
    DigitsAtMost(Shift(y, j), i + j);
    ShiftTwice(1, i, j);
    if y >= Pow10(i) {
      ShiftMonotone(Pow10(i), y, j);
    }
  }
  // ----- the direct branch: multiply at 28 digits, then quantize -----

  /** n has more than 28 digits, and n / m lies below a tie by no more than half a unit of the
      last digit that is kept. */
  predicate JustBelowTie(n: nat, m: int)
    requires m > 0
  {
    Digits(n) > PRECISION && m - Pow10(Digits(n) - PRECISION) <= 2 * Rem(n, m) < m
  }

  /** The same in terms of the half-up rounding. */
  lemma BelowTieAbove(n: nat, m: int, unit: int, y: nat)
    requires 0 < unit <= m && y == HalfUpNat(n, m)
    ensures m - unit <= 2 * Rem(n, m) < m <==> 2 * n >= 2 * (y * m) + m - unit
  {
    var q := Quot(n, m);
    QuotRem(n, m);
    Spread(q, 1, m);
    HalfUpMeans(n, m, q);
    HalfUpMeans(n, m, q + 1);
  }

  /** Half-even rounding to a multiple of `unit` stays below a tie, which is an even multiple of
      it, exactly for numbers below by more than half a unit. */
  lemma HalfEvenBelow(n: nat, unit: int, even: nat)
    requires unit > 0 && even % 2 == 0
    ensures HalfEvenNat(n, unit) < even <==> 2 * n < 2 * (even * unit) - unit
  {
    var q := Quot(n, unit);
    QuotRem(n, unit);
    FloorAtLeast(n, unit, even);
    if q < even - 1 {
      MulMonotone(q + 2, even, unit);
      Spread(q, 2, unit);
    } else if q == even - 1 {
      Spread(q, 1, unit);
    }
  }

  /** The tie above y, and the tie below it, as multiples of `unit`. */
  lemma TieMultiples(y: int, unit: int, half: int, m: int)
    requires m == 2 * (half * unit)
    ensures 2 * ((2 * (y * half) + half) * unit) == 2 * (y * m) + m
    ensures 2 * ((2 * (y * half) - half) * unit) == 2 * (y * m) - m
  {
    Expand(y * half, half, unit);
    Swap(y, half, unit);
    TimesConstant(y, 2, half * unit);
    assert y * half * unit == y * (half * unit);
  }

  lemma EvenMultiple(y: int, half: nat)
    requires half % 2 == 0
    ensures (2 * (y * half) + half) % 2 == 0
  {
  }

  /** Rounding to a multiple of `unit` first changes the half-up rounding exactly when it carries
      the number onto the tie above. */
  lemma TwoStepRounding(n: nat, unit: int, half: nat, m: int, y: nat)
    requires unit > 0 && half > 0 && half % 2 == 0 && m == 2 * (half * unit) && y == HalfUpNat(n, m)
    requires m > 0 && HalfEvenNat(n, unit) * unit >= 0
    ensures HalfUpNat(HalfEvenNat(n, unit) * unit, m) == y <==> 2 * n < 2 * (y * m) + m - unit
  {
    var h := HalfEvenNat(n, unit);
    var lo, hi := 2 * (y * half) - half, 2 * (y * half) + half;
    HalfUpMeans(n, m, y);
    HalfUpMeans(h * unit, m, y);
    TieMultiples(y, unit, half, m);
    EvenMultiple(y, half);
    StaysAbove(n, unit, lo);
    MulMonotone(0, y, half);
    HalfEvenBelow(n, unit, hi);
    Compare(h, hi, unit);
  }

  lemma StaysAbove(n: nat, unit: int, lo: int)
    requires unit > 0 && lo * unit <= n
    ensures lo * unit <= HalfEvenNat(n, unit) * unit
  {
    RoundingKeepsSide(n, unit, lo);
  }

  /** What a product of 28 + k digits becomes: its half-even rounding to a multiple of 10^k,
      rounded half up to a multiple of m. */
  lemma LongProductRounds(n: nat, scale: nat, p: nat, k: nat)
    requires k >= 1 && Digits(n) == PRECISION + k && scale >= p + k + 2
    ensures Quantize(FixNat(n, 0 - scale), p)
         == Ok(Dec(HalfUpNat(Shift(HalfEvenNat(n, Pow10(k)), k), Pow10(scale - p)), 0 - p))
  {
    CutProduct(n, scale, p, k);
    QuantizeByValue(FixNat(n, 0 - scale), scale, p, Shift(HalfEvenNat(n, Pow10(k)), k));
  }

  lemma CutProduct(n: nat, scale: nat, p: nat, k: nat)
    requires k >= 1 && Digits(n) == PRECISION + k && scale >= p + k + 2
    ensures 0 - scale <= FixNat(n, 0 - scale).exp < 0 - p && Digits(FixNat(n, 0 - scale).coef) <= PRECISION
    ensures AtExp(FixNat(n, 0 - scale), 0 - scale) == Shift(HalfEvenNat(n, Pow10(k)), k)
  {
    FixValue(n, 0 - scale, k);
    FixFits(n, 0 - scale);
  }

  /** Quantizing depends on the value alone, whatever exponent it is given with. */
  lemma QuantizeByValue(x: Dec, scale: nat, p: nat, v: nat)
    requires x.coef >= 0 && 0 - scale <= x.exp < 0 - p && Digits(x.coef) <= PRECISION && v == AtExp(x, 0 - scale)
    ensures Quantize(x, p) == Ok(Dec(HalfUpNat(v, Pow10(scale - p)), 0 - p))
  {
    var j := x.exp + scale;
    var d := Pow10(scale - p - j);
    ResultDigits(x.coef, d, PRECISION);
    ShiftTwice(1, scale - p - j, j);
    HalfUpShift(x.coef, d, j);
  }

  lemma UnitsOfTie(k: nat, j: nat)
    requires j >= 2
    ensures Pow10(k + j) == 2 * (50 * Pow10(j - 2) * Pow10(k)) && Pow10(k) < Pow10(k + j)
  {
    ShiftTwice(1, j, k);
    ShiftTimes(Pow10(j), k);
    TenTimes(j - 1);
    TenTimes(j - 2);
    TimesConstant(Pow10(j - 2), 50, Pow10(k));
    TimesConstant(Pow10(j - 2), 100, Pow10(k));
    MulMonotone(100, Pow10(j), Pow10(k));
  }

  /** A product that is cut to 28 digits and quantized is its single rounding if and only if it
      does not lie just below a tie. */
  lemma ProductExactIff(n: nat, scale: nat, p: nat, m: int)
    requires 10 <= scale <= 14 && p <= 4 && m == Pow10(scale - p)
    requires Digits(n) <= PRECISION + scale - p - 2
    ensures Quantize(FixNat(n, 0 - scale), p).Ok?
    ensures Quantize(FixNat(n, 0 - scale), p) == Ok(Dec(HalfUpNat(n, m), 0 - p)) <==> !JustBelowTie(n, m)
  {
    var y := HalfUpNat(n, m);
    if Digits(n) > PRECISION {
      var k := Digits(n) - PRECISION;
      LongProductRounds(n, scale, p, k);
      LongExactIff(n, k, scale - p - k, m, y);
    } else {
      ShortProductRounds(n, scale, p, m);
    }
  }

  lemma ShortProductRounds(n: nat, scale: nat, p: nat, m: int)
    requires scale > p && m == Pow10(scale - p) && Digits(n) <= PRECISION
    ensures Quantize(FixNat(n, 0 - scale), p) == Ok(Dec(HalfUpNat(n, m), 0 - p))
  {
    assert FixNat(n, 0 - scale) == Dec(n, 0 - scale);
    ResultDigits(n, m, PRECISION);
  }

  lemma LongExactIff(n: nat, k: nat, j: nat, m: int, y: nat)
    requires k >= 1 && j >= 2 && m == Pow10(k + j) && Digits(n) == PRECISION + k && y == HalfUpNat(n, m)
    ensures HalfUpNat(Shift(HalfEvenNat(n, Pow10(k)), k), m) == y <==> !JustBelowTie(n, m)
  {
    UnitsOfTie(k, j);
    ShiftTimes(HalfEvenNat(n, Pow10(k)), k);
    TieIff(n, Pow10(k), 50 * Pow10(j - 2), m, y);
  }

  lemma TieIff(n: nat, unit: int, half: nat, m: int, y: nat)
    requires 0 < unit <= m && half > 0 && half % 2 == 0 && m == 2 * (half * unit) && y == HalfUpNat(n, m)
    ensures HalfEvenNat(n, unit) * unit >= 0
    ensures HalfUpNat(HalfEvenNat(n, unit) * unit, m) == y <==> !(m - unit <= 2 * Rem(n, m) < m)
  {
    MulMonotone(0, HalfEvenNat(n, unit), unit);
    TwoStepRounding(n, unit, half, m, y);
    BelowTieAbove(n, m, unit, y);
  }

  /** The direct branch never fails, and is the single half-up rounding of the exact product if
      and only if the product does not lie just below a tie. */
  lemma DirectBranchExactIff(a: int, s: nat, r: int, p: nat)
    requires MoneyColumn(a, s) && RateColumn(r) && p <= 4
    ensures Quantize(Mul(Dec(a, 0 - s), Dec(r, -10)), p).Ok?
    ensures Quantize(Mul(Dec(a, 0 - s), Dec(r, -10)), p) == Ok(Dec(HalfUp(a * r, Pow10(10 + s - p)), 0 - p))
        <==> !JustBelowTie(Abs(a * r), Pow10(10 + s - p))
  {
    ProductOfColumns(a, s, r);
    MulFixes(a, s, r, a * r);
    SignedExactIff(a * r, 10 + s, p, Pow10(10 + s - p));
  }

  lemma MulFixes(a: int, s: nat, r: int, n: int)
    requires n == a * r
    ensures Mul(Dec(a, 0 - s), Dec(r, -10)) == Fix(Dec(n, 0 - (10 + s)))
  {
  }

  lemma SignedExactIff(n: int, scale: nat, p: nat, m: int)
    requires 10 <= scale <= 14 && p <= 4 && m == Pow10(scale - p)
    requires Digits(Abs(n)) <= PRECISION + scale - p - 2
    ensures Quantize(Fix(Dec(n, 0 - scale)), p).Ok?
    ensures Quantize(Fix(Dec(n, 0 - scale)), p) == Ok(Dec(HalfUp(n, m), 0 - p)) <==> !JustBelowTie(Abs(n), m)
  {
    ProductExactIff(Abs(n), scale, p, m);
    SignedProduct(n, scale, p, HalfUpNat(Abs(n), m));
  }

  lemma ProductOfColumns(a: int, s: nat, r: int)
    requires MoneyColumn(a, s) && RateColumn(r)
    ensures Abs(a * r) == Abs(a) * r && Digits(Abs(a * r)) <= 30 + s
  {
    ProductSign(a, r);
    ProductDigits(Abs(a), r, 10 + s, 20);
  }

  lemma ProductSign(a: int, r: nat)
    ensures Abs(a * r) == Abs(a) * r
  {
    if a >= 0 {
      MulMonotone(0, a, r);
    } else {
      MulMonotone(a, 0, r);
      MinusTimes(a, r);
    }
  }

  /** Products of numbers of i and of j digits have at most i + j. */
  lemma ProductDigits(x: nat, y: nat, i: nat, j: nat)
    requires i >= 1 && j >= 1 && Digits(x) <= i && Digits(y) <= j
    ensures x * y >= 0 && Digits(x * y) <= i + j
  {
    DigitsAtMost(x, i);
    DigitsAtMost(y, j);
    MulMonotone(0, x, y);
    MulMonotone(x, Pow10(i), y);
    ShiftTimes(y, i);
    ShiftMonotone(y, Pow10(j), i);
    ShiftTwice(1, j, i);
    DigitsAtMost(x * y, i + j);
  }

  /** Signs go through both roundings unchanged. */
  lemma SignedProduct(n: int, scale: nat, p: nat, y: nat)
    requires Quantize(FixNat(Abs(n), 0 - scale), p).Ok? && scale >= p && y == HalfUpNat(Abs(n), Pow10(scale - p))
    ensures Quantize(Fix(Dec(n, 0 - scale)), p).Ok?
    ensures Quantize(Fix(Dec(n, 0 - scale)), p) == Ok(Dec(HalfUp(n, Pow10(scale - p)), 0 - p))
        <==> Quantize(FixNat(Abs(n), 0 - scale), p) == Ok(Dec(y, 0 - p))
  {
    if n < 0 {
      assert Fix(Dec(n, 0 - scale)) == Negate(FixNat(0 - n, 0 - scale));
      NegatedQuantize(FixNat(0 - n, 0 - scale), p);
      HalfUpOpposite(0 - n, Pow10(scale - p));
    }
  }

  /** An amount whose exact conversion fits the money column is converted to it, and a converted
      amount that fits is the exact one. */
  lemma DirectBranchExact(a: int, s: nat, r: int, p: nat, y: int)
    requires MoneyColumn(a, s) && RateColumn(r) && p <= 4 && y == HalfUp(a * r, Pow10(10 + s - p))
    ensures MoneyColumn(y, p) ==> Quantize(Mul(Dec(a, 0 - s), Dec(r, -10)), p) == Ok(Dec(y, 0 - p))
    ensures forall z :: Quantize(Mul(Dec(a, 0 - s), Dec(r, -10)), p) == Ok(z) && FitsMoneyColumn(z) ==> z == Dec(y, 0 - p)
  {
    DirectBranchExactIff(a, s, r, p);
    if Digits(Abs(a * r)) > PRECISION {
      ResultDoesNotFit(a * r, 10 + s, p, y);
      LongProductDoesNotFit(a * r, 10 + s, p);
    }
  }

  lemma ResultDoesNotFit(n: int, scale: nat, p: nat, y: int)
    requires 10 <= scale <= 14 && p <= 4 && y == HalfUp(n, Pow10(scale - p)) && Digits(Abs(n)) > PRECISION
    ensures !MoneyColumn(y, p)
  {
    if MoneyColumn(y, p) {
      FittingProductIsShort(Abs(n), scale, p, HalfUpNat(Abs(n), Pow10(scale - p)));
    }
  }

  /** A product whose rounding fits the column has at most 24 digits. */
  lemma FittingProductIsShort(n: nat, scale: nat, p: nat, y: nat)
    requires 10 <= scale <= 14 && p <= 4 && y == HalfUpNat(n, Pow10(scale - p)) && MoneyColumn(y, p)
    ensures Digits(n) <= PRECISION
  {
    DigitsAtMost(y, 10 + p);
    ShiftTwice(1, 10 + p, scale - p);
    ShiftTimes(Pow10(10 + p), scale - p);
    BelowProduct(n, Pow10(scale - p), y, Pow10(10 + p));
    DigitsAtMost(n, 10 + scale);
  }

  lemma BelowProduct(n: nat, m: int, y: nat, top: int)
    requires m > 0 && y == HalfUpNat(n, m) && y < top
    ensures n < top * m
  {
    HalfUpMeans(n, m, y);
    MulMonotone(y + 1, top, m);
    Spread(y, 1, m);
  }

  /** A product of more than 28 digits converts to at least 10^14 units of currency. */
  lemma LongProductDoesNotFit(n: int, scale: nat, p: nat)
    requires Digits(Abs(n)) > PRECISION && scale <= 14 && p <= 4
    requires Quantize(Fix(Dec(n, 0 - scale)), p).Ok?
    ensures !FitsMoneyColumn(Quantize(Fix(Dec(n, 0 - scale)), p).value)
  {
    FixLong(Abs(n), 0 - scale);
    FixMagnitude(Dec(n, 0 - scale));
    LargeQuantize(Fix(Dec(n, 0 - scale)), p, 14, 13);
    LargeStaysLarge(Quantize(Fix(Dec(n, 0 - scale)), p).value, p);
  }

  lemma LargeQuantize(x: Dec, p: nat, i: nat, j: nat)
    requires Abs(x.coef) >= Pow10(i + j) && x.exp + p + j >= 0 && Quantize(x, p).Ok?
    ensures Abs(Quantize(x, p).value.coef) >= Pow10(i)
  {
    PowMonotone(i, i + j);
    if x.exp + p >= 0 {
      ShiftedAbs(x.coef, x.exp + p);
    } else {
      PowMonotone(0 - p - x.exp, j);
      LargeHalfUp(Abs(x.coef), Pow10(0 - p - x.exp), i, j);
    }
  }

  lemma ShiftedAbs(x: int, k: nat)
    ensures Abs(Shift(x, k)) == Shift(Abs(x), k) >= Abs(x)
  {
    ShiftNegative(Abs(x), k);
  }

  lemma LargeHalfUp(m: nat, d: int, i: nat, j: nat)
    requires m >= Pow10(i + j) && 0 < d <= Pow10(j)
    ensures HalfUpNat(m, d) >= Pow10(i)
  {
    FloorAtLeast(2 * m + d, 2 * d, Pow10(i));
    ShiftTwice(1, i, j);
    ShiftTimes(Pow10(i), j);
    MulMonotone(d, Pow10(j), Pow10(i));
    TimesConstant(Pow10(i), 2, d);
  }

  lemma LargeStaysLarge(y: Dec, p: nat)
    requires y.exp == 0 - p && p <= 4 && Abs(y.coef) >= Pow10(14)
    ensures !FitsMoneyColumn(y)
  {
    ShiftedAbs(y.coef, 4 - p);
    DigitsAtMost(Abs(Shift(y.coef, 4 - p)), 14);
  }

  predicate RoundsTwice(a: int, r: int) {
    MoneyColumn(a, 4) && RateColumn(r)
    && Quantize(Mul(Dec(a, -4), Dec(r, -10)), 4).Ok?
    && Quantize(Mul(Dec(a, -4), Dec(r, -10)), 4).value.coef != HalfUp(a * r, Pow10(10))
  }

  /** The exception exists: an amount and a rate the columns hold, whose product is too long
      for 28 digits and is rounded twice, one unit away from its single rounding. */
  lemma DirectBranchCanRoundTwice()
    ensures exists a, r :: RoundsTwice(a, r)
  {
    var a, r := 99_999_999_999_999, 99_999_999_995_000_000_001;
    assert a * r == EXAMPLE;
    LongExampleDigits();
    LongExampleRounds();
    LongExampleColumns(a, r);
    assert RoundsTwice(a, r);
  }

  lemma LongExampleColumns(a: nat, r: nat)
    requires a == 99_999_999_999_999 && r == 99_999_999_995_000_000_001
    ensures MoneyColumn(a, 4) && RateColumn(r)
  {
    LargePowers();
    DigitsAtMost(a, 14);
    DigitsAtMost(r, 20);
  }

  const EXAMPLE := 9_999_999_999_499_900_000_100_004_999_999_999

  lemma LongExampleDigits()
    ensures Digits(EXAMPLE) == 34
  {
    LargePowers();
    DigitsAtMost(EXAMPLE, 33);
    DigitsAtMost(EXAMPLE, 34);
  }

  /** The two roundings of n, whose digits are q 999999 and then z 5000 after the first. */
  lemma TwoRoundings(n: nat, q: nat, z: nat)
    requires Digits(n) == 34 && q + 1 < Pow10(28) && Digits(z + 1) <= 28
    requires n == 1_000_000 * q + 999_999 && q + 1 == 10_000 * z + 5_000
    ensures Quantize(Fix(Dec(n, -14)), 4) == Ok(Dec(z + 1, -4))
    ensures HalfUp(n, Pow10(10)) == z
  {
    assert Pow10(6) == 1_000_000 && Pow10(4) == 10_000 && Pow10(10) == 10_000_000_000;
    HalfEvenUp(n, 1_000_000, q);
    assert Fix(Dec(n, -14)) == Dec(q + 1, -8);
    HalfUpMeans(q + 1, 10_000, z + 1);
    HalfUpMeans(n, 10_000_000_000, z);
  }

  lemma LongExampleRounds()
    requires Digits(EXAMPLE) == 34
    ensures Quantize(Fix(Dec(EXAMPLE, -14)), 4) == Ok(Dec(999_999_999_949_990_000_010_001, -4))
    ensures HalfUp(EXAMPLE, Pow10(10)) == 999_999_999_949_990_000_010_000
  {
    LargePowers();
    DigitsAtMost(999_999_999_949_990_000_010_001, 27);
    TwoRoundings(EXAMPLE, 9_999_999_999_499_900_000_100_004_999, 999_999_999_949_990_000_010_000);
  }

  // ----- what `convert` returns for stored amounts and rates -----

  /** Within one currency: the amount itself, rounded half up to its decimals. */
  lemma ConvertWithinCurrency(book: Book, a: int, s: nat, fromCode: string, toCode: string, p: nat)
    requires Upper(fromCode) == Upper(toCode) && MoneyColumn(a, s) && p == DecimalPlaces(book, toCode) <= 4
    ensures Convert(book, Dec(a, 0 - s), fromCode, toCode) == Ok(Dec(HalfUp(Shift(a, p), Pow10(s)), 0 - p))
  {
    UpperTwice(toCode);
    StoredAmountRounds(a, s, p);
  }

  /** A stored amount can be rounded to any decimals of a currency. */
  lemma StoredAmountRounds(a: int, s: nat, p: nat)
    requires MoneyColumn(a, s) && p <= 4
    ensures Quantize(Dec(a, 0 - s), p) == Ok(Dec(HalfUp(Shift(a, p), Pow10(s)), 0 - p))
  {
    var z := HalfUp(Shift(a, p), Pow10(s));
    QuantizeMeans(a, s, p, z);
    ShiftedAbs(a, p);
    HalfUpAbs(Shift(a, p), Pow10(s));
    if a != 0 {
      ShiftDigits(Abs(a), p);
    } else {
      ShiftZero(p);
    }
    ResultDigits(Abs(Shift(a, p)), Pow10(s), 18);
  }

  lemma HalfUpAbs(n: int, d: int)
    requires d > 0
    ensures Abs(HalfUp(n, d)) == HalfUpNat(Abs(n), d)
  {
  }

  /** With a stored direct rate: the exact product rounded half up once, if and only if that
      product does not lie just below a tie; always when the exact result fits the column. */
  lemma ConvertAtDirectRate(book: Book, a: int, s: nat, fromCode: string, toCode: string, r: int, p: nat, m: int, exact: int)
    requires Upper(fromCode) != Upper(toCode) && (Upper(fromCode), Upper(toCode)) in book.rates
    requires book.rates[(Upper(fromCode), Upper(toCode))] == Dec(r, -10) && RateColumn(r)
    requires MoneyColumn(a, s) && p == DecimalPlaces(book, toCode) <= 4
    requires m == Pow10(10 + s - p) && exact == HalfUp(a * r, m)
    ensures var converted := Convert(book, Dec(a, 0 - s), fromCode, toCode);
      && converted.Ok?
      && (converted == Ok(Dec(exact, 0 - p)) <==> !JustBelowTie(Abs(a * r), m))
      && (MoneyColumn(exact, p) ==> converted == Ok(Dec(exact, 0 - p)))
  {
    ConvertDirectly(book, Dec(a, 0 - s), fromCode, toCode);
    DirectBranchExactIff(a, s, r, p);
    DirectBranchExact(a, s, r, p, exact);
  }

  /** With only the opposite rate stored: always the exact quotient rounded half up once. */
  lemma ConvertAtInverseRate(book: Book, a: int, s: nat, fromCode: string, toCode: string, r: int, p: nat)
    requires Upper(fromCode) != Upper(toCode) && (Upper(fromCode), Upper(toCode)) !in book.rates
    requires (Upper(toCode), Upper(fromCode)) in book.rates
    requires book.rates[(Upper(toCode), Upper(fromCode))] == Dec(r, -10) && RateColumn(r)
    requires MoneyColumn(a, s) && p == DecimalPlaces(book, toCode) <= 4
    ensures Convert(book, Dec(a, 0 - s), fromCode, toCode) == Ok(Dec(HalfUp(Shift(a, 10 - s + p), r), 0 - p))
  {
    ConvertInversely(book, Dec(a, 0 - s), fromCode, toCode);
    InverseBranchExact(a, s, r, p);
  }
}
