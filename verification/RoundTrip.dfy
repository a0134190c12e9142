/** Converting there and back: base minor units to quote and back again, when only the rate from
    base to quote is stored. */
module RoundTrip {
  import opened Prelude
  import opened Arith
  import opened Decimals
  import opened Currency
  import opened Conversion

  /** Only base -> quote is stored, at a rate of r / 10^10; the currencies have pb and pq decimals. */
  predicate OneWay(book: Book, base: string, quote: string, r: int, pb: nat, pq: nat) {
    Upper(base) != Upper(quote)
    && (Upper(base), Upper(quote)) in book.rates && (Upper(quote), Upper(base)) !in book.rates
    && book.rates[(Upper(base), Upper(quote))] == Dec(r, -10) && RateColumn(r)
    && pb == DecimalPlaces(book, base) <= 4 && pq == DecimalPlaces(book, quote) <= 4
  }

  /** The rate, in units of 10^-10, at which a quote unit is worth exactly a base unit. */
  function EvenRate(pb: nat, pq: nat): int
    requires pb <= 4 && pq <= 4
  {
    Pow10(10 + pb - pq)
  }

  /** Converting x base units to quote and back gives z base units. */
  predicate ComesBackAs(book: Book, base: string, quote: string, x: nat, pb: nat, z: nat) {
    var there := Convert(book, Dec(x, 0 - pb), base, quote);
    there.Ok? && Convert(book, there.value, quote, base) == Ok(Dec(z, 0 - pb))
  }

  predicate ComesBack(book: Book, base: string, quote: string, x: nat, pb: nat) {
    ComesBackAs(book, base, quote, x, pb, x)
  }

  /** Whether the converted amount fits the money column. */
  predicate Storable(book: Book, base: string, quote: string, x: nat, pb: nat) {
    var there := Convert(book, Dec(x, 0 - pb), base, quote);
    there.Ok? && FitsMoneyColumn(there.value)
  }

  /** The one trip that goes wrong from the even rate on: with four decimals against none, at the
      rate just above the even one, the amount that converts to a tie. */
  predicate Lost(x: nat, r: int, pb: nat, pq: nat) {
    pb == 4 && pq == 0 && r == EvenRate(4, 0) + 1 && 2 * x == EvenRate(4, 0)
  }

  // ----- both legs in minor units -----

  /** Minor units of quote for x minor units of base, each leg rounded once, with m the even rate. */
  function There(x: nat, r: nat, m: nat): nat
    requires m > 0
  {
    HalfUpNat(x * r, m)
  }

  function Back(y: nat, r: nat, m: nat): nat
    requires r > 0
  {
    HalfUpNat(y * m, r)
  }

  /** The round trip is off by at most half a base unit plus half a quote unit divided by the
      rate, and not at all when a quote unit is worth no more than a base unit. */
  lemma RoundTripUnits(x: nat, r: nat, m: nat)
    requires m > 0 && r > 0
    ensures 2 * Abs(Back(There(x, r, m), r, m) * r - x * r) <= r + m
    ensures r >= m ==> Back(There(x, r, m), r, m) == x
  {
    var y := There(x, r, m);
    HalfUpMeans(x * r, m, y);
    HalfUpMeans(y * m, r, Back(y, r, m));
    if r == m {
      HalfUpExact(x, m);
    }
    HalfUpMeans(y * m, r, x);
  }

  // ----- where amounts below the even rate collide -----

  /** Below the even rate, the amounts q and q + 1 convert to the same amount q. */
  function Collision(r: int, m: int): nat
    requires 0 < r < m
  {
    Quot(m, 2 * (m - r))
  }

  lemma Collide(r: nat, m: nat)
    requires 0 < r < m
    ensures var q := Collision(r, m);
      There(q, r, m) == q && There(q + 1, r, m) == q && 2 * q <= m
  {
    var q, d := Collision(r, m), m - r;
    QuotRem(m, 2 * d);
    TimesConstant(q, 2, d);
    Difference(q, r, m);
    MulMonotone(1, d, q);
    CollideAt(q, r, m, q * d);
  }

  lemma Difference(x: nat, r: nat, m: nat)
    requires r <= m
    ensures x * m == x * r + x * (m - r) && 0 <= x * (m - r)
  {
    Spread(r, m - r, x);
    MulMonotone(0, m - r, x);
  }

  lemma CollideAt(q: nat, r: nat, m: nat, qd: int)
    requires 0 < r < m && q * m == q * r + qd && 0 <= 2 * qd <= m < 2 * qd + 2 * (m - r)
    ensures There(q, r, m) == q && There(q + 1, r, m) == q
  {
    HalfUpMeans(q * r, m, q);
    Spread(q, 1, r);
    HalfUpMeans((q + 1) * r, m, q);
  }

  /** Every smaller amount comes back. */
  lemma BelowCollision(x: nat, r: nat, m: nat)
    requires 0 < r < m && x < Collision(r, m)
    ensures There(x, r, m) == x && Back(x, r, m) == x
  {
    var q, d := Collision(r, m), m - r;
    QuotRem(m, 2 * d);
    MulMonotone(x + 1, q, 2 * d);
    Spread(x, 1, 2 * d);
    TimesConstant(x, 2, d);
    Difference(x, r, m);
    BelowAt(x, r, m, x * d);
  }

  lemma BelowAt(x: nat, r: nat, m: nat, xd: int)
    requires 0 < r < m && x * m == x * r + xd && 0 <= xd && 2 * xd + 2 * (m - r) <= m
    ensures There(x, r, m) == x && Back(x, r, m) == x
  {
    HalfUpMeans(x * r, m, x);
    HalfUpMeans(x * m, r, x);
  }

  lemma ThereGrows(x: nat, z: nat, r: nat, m: nat)
    requires m > 0 && x <= z
    ensures There(x, r, m) <= There(z, r, m)
  {
    MulMonotone(x, z, r);
    HalfUpMonotone(x * r, z * r, m);
  }

  /** Below the even rate no amount grows. */
  lemma ThereShrinks(x: nat, r: nat, m: nat)
    requires 0 < r <= m
    ensures There(x, r, m) <= x
  {
    MulMonotone(r, m, x);
    HalfUpMonotone(x * r, x * m, m);
    HalfUpExact(x, m);
  }

  // ----- the two legs as `convert` computes them -----

  lemma ThereBySingleRounding(book: Book, base: string, quote: string, x: nat, r: nat, pb: nat, pq: nat, y: nat)
    requires OneWay(book, base, quote, r, pb, pq) && MoneyColumn(x, pb)
    requires y == There(x, r, EvenRate(pb, pq)) && (Digits(x * r) <= PRECISION || MoneyColumn(y, pq))
    ensures Convert(book, Dec(x, 0 - pb), base, quote) == Ok(Dec(y, 0 - pq))
  {
    ProductRounded(x, r, EvenRate(pb, pq), y);
    ConvertAtDirectRate(book, x, pb, base, quote, r, pq, EvenRate(pb, pq), y);
  }

  lemma ProductRounded(x: nat, r: nat, m: nat, y: nat)
    requires m > 0 && y == There(x, r, m)
    ensures 0 <= x * r == Abs(x * r) && HalfUp(x * r, m) == y
    ensures Digits(x * r) <= PRECISION ==> !JustBelowTie(Abs(x * r), m)
  {
    MulMonotone(0, x, r);
  }

  /** A converted amount that fits is the single rounding. */
  lemma StoredThere(book: Book, base: string, quote: string, x: nat, r: nat, pb: nat, pq: nat, y: nat)
    requires OneWay(book, base, quote, r, pb, pq) && MoneyColumn(x, pb)
    requires y == There(x, r, EvenRate(pb, pq))
    ensures Storable(book, base, quote, x, pb) <==> MoneyColumn(y, pq)
  {
    FitsExactly(y, pq);
    if MoneyColumn(y, pq) {
      ThereBySingleRounding(book, base, quote, x, r, pb, pq, y);
    }
    if Storable(book, base, quote, x, pb) {
      StoredIsExact(book, base, quote, x, r, pb, pq, y);
    }
  }

  lemma StoredIsExact(book: Book, base: string, quote: string, x: nat, r: nat, pb: nat, pq: nat, y: nat)
    requires OneWay(book, base, quote, r, pb, pq) && MoneyColumn(x, pb) && Storable(book, base, quote, x, pb)
    requires y == There(x, r, EvenRate(pb, pq))
    ensures Convert(book, Dec(x, 0 - pb), base, quote) == Ok(Dec(y, 0 - pq))
  {
    ConvertDirectly(book, Dec(x, 0 - pb), base, quote);
    FittingIsExact(x, pb, r, pq, y, Convert(book, Dec(x, 0 - pb), base, quote).value);
  }

  lemma FittingIsExact(x: nat, pb: nat, r: nat, pq: nat, y: nat, z: Dec)
    requires MoneyColumn(x, pb) && RateColumn(r) && pb <= 4 && pq <= 4 && y == There(x, r, EvenRate(pb, pq))
    requires Quantize(Mul(Dec(x, 0 - pb), Dec(r, -10)), pq) == Ok(z) && FitsMoneyColumn(z)
    ensures z == Dec(y, 0 - pq)
  {
    MulMonotone(0, x, r);
    DirectBranchExact(x, pb, r, pq, y);
  }

  lemma BackDivides(book: Book, base: string, quote: string, y: nat, r: nat, pb: nat, pq: nat, z: nat)
    requires OneWay(book, base, quote, r, pb, pq)
    requires if y == 0 then z == 0 else Quantize(DivNat(y, r, 10 - pq), pb) == Ok(Dec(z, 0 - pb))
    ensures Convert(book, Dec(y, 0 - pq), quote, base) == Ok(Dec(z, 0 - pb))
  {
    ConvertInversely(book, Dec(y, 0 - pq), quote, base);
    if y == 0 {
      InverseZero(pq, r, pb);
      ShiftZero(10 - pq + pb);
      HalfUpMeans(0, r, 0);
    } else {
      assert Div(Dec(y, 0 - pq), Dec(r, -10)) == DivNat(y, r, 10 - pq);
    }
  }

  lemma BackBySingleRounding(book: Book, base: string, quote: string, y: nat, r: nat, pb: nat, pq: nat, z: nat)
    requires OneWay(book, base, quote, r, pb, pq) && Digits(y) + 10 + pb - pq <= 26
    requires z == Back(y, r, EvenRate(pb, pq))
    ensures Convert(book, Dec(y, 0 - pq), quote, base) == Ok(Dec(z, 0 - pb))
  {
    BackInUnits(y, r, pb, pq, z);
    BackDivides(book, base, quote, y, r, pb, pq, z);
  }

  lemma BackInUnits(y: nat, r: nat, pb: nat, pq: nat, z: nat)
    requires RateColumn(r) && pb <= 4 && pq <= 4 && Digits(y) + 10 + pb - pq <= 26
    requires z == Back(y, r, EvenRate(pb, pq))
    ensures if y == 0 then z == 0 else Quantize(DivNat(y, r, 10 - pq), pb) == Ok(Dec(z, 0 - pb))
  {
    if y == 0 {
      NothingBack(r, EvenRate(pb, pq));
    } else {
      UnitsBack(y, r, pb, pq);
      InverseExactNat(y, pq, r, pb);
    }
  }

  lemma NothingBack(r: nat, m: nat)
    requires r > 0
    ensures Back(0, r, m) == 0
  {
    HalfUpMeans(0, r, 0);
  }

  lemma UnitsBack(y: nat, r: nat, pb: nat, pq: nat)
    requires r > 0 && pb <= 4 && pq <= 4
    ensures HalfUpNat(Shift(y, 10 - pq + pb), r) == Back(y, r, EvenRate(pb, pq))
  {
    ShiftTimes(y, 10 - pq + pb);
  }

  // ----- below the even rate: both legs are single roundings -----

  lemma BelowEven(book: Book, base: string, quote: string, x: nat, r: nat, pb: nat, pq: nat, m: nat, y: nat)
    requires OneWay(book, base, quote, r, pb, pq) && MoneyColumn(x, pb)
    requires r < m == EvenRate(pb, pq) && y == There(x, r, m)
    ensures Convert(book, Dec(x, 0 - pb), base, quote) == Ok(Dec(y, 0 - pq))
    ensures Convert(book, Dec(y, 0 - pq), quote, base) == Ok(Dec(Back(y, r, m), 0 - pb))
  {
    ShortProduct(x, r, m, 10 + pb - pq);
    ThereBySingleRounding(book, base, quote, x, r, pb, pq, y);
    BackBelowEven(x, r, pb, pq, m, y, Back(y, r, m));
    BackDivides(book, base, quote, y, r, pb, pq, Back(y, r, m));
  }

  lemma BackBelowEven(x: nat, r: nat, pb: nat, pq: nat, m: nat, y: nat, z: nat)
    requires pb <= 4 && pq <= 4 && MoneyColumn(x, pb)
    requires 0 < r < m == EvenRate(pb, pq) && y == There(x, r, m) && z == Back(y, r, m)
    ensures if y == 0 then z == 0 else Quantize(DivNat(y, r, 10 - pq), pb) == Ok(Dec(z, 0 - pb))
  {
    if y == 0 {
      NothingBack(r, m);
    } else {
      ThereShrinks(x, r, m);
      DigitsMonotone(y, x);
      ShortProduct(y, m, m, 10 + pb - pq);
      ResultDigits(y * m, r, PRECISION);
      EvenRateSize(pb, pq, m);
      var d := BelowIsClear(x, r, m, y, z);
      ClearIsShort(y * m, r, z, d);
      ShiftTimes(y, 10 - pq + pb);
      DivisionRounds(y, pq, r, pb, y * m, z, d);
    }
  }

  lemma EvenRateSize(pb: nat, pq: nat, m: nat)
    requires pb <= 4 && pq <= 4 && m == EvenRate(pb, pq)
    ensures m <= Pow10(13) || (m == Pow10(14) && pb == 4 && pq == 0)
    ensures Pow10(1) <= m <= Pow10(14) && Pow10(1) == 10
  {
    PowMonotone(10 + pb - pq, 14);
    PowMonotone(1, 10 + pb - pq);
    if pb < 4 || pq > 0 {
      PowMonotone(10 + pb - pq, 13);
    }
  }

  /** Below the even rate no amount of the column is close to a tie on its way back. */
  lemma BelowIsClear(x: nat, r: nat, m: nat, y: nat, z: nat) returns (d: nat)
    requires 0 < r < m && (m <= Pow10(13) || m == Pow10(14))
    requires Digits(x) <= 14 && y == There(x, r, m) && z == Back(y, r, m)
    ensures y * m >= 0 && d <= 15 && ClearOfTie(y * m, r, z, d)
  {
    DigitsAtMost(x, 14);
    TenTimes(13);
    TenTimes(14);
    ProductBelow(x, Pow10(14), r);
    MulMonotone(0, y, m);
    HalfUpMeans(x * r, m, y);
    HalfUpMeans(y * m, r, z);
    if y * m < Pow10(14) * r {
      d := 14;
      SmallRate(r, Gap(y * m, r, z), Pow10(15));
    } else {
      d := 15;
      TenfoldProduct(r, 14);
      if m == Pow10(14) {
        TopOfColumn(x, r, m, y, z);
      } else {
        SmallRate(r, Gap(y * m, r, z), Pow10(14));
      }
    }
  }

  lemma SmallRate(r: nat, gap: int, step: int)
    requires gap >= 1 && 10 * r < step
    ensures 10 * r < step * gap
  {
    MulMonotone(1, gap, step);
  }

  /** An amount that comes back at the very top of the column comes back exactly. */
  lemma TopOfColumn(x: nat, r: nat, m: nat, y: nat, z: nat)
    requires 0 < r < m && 10 < m && x < m && y == There(x, r, m) && z == Back(y, r, m)
    requires y * m >= m * r
    ensures Gap(y * m, r, z) == r && 10 * r < m * Gap(y * m, r, z)
  {
    AtMostRate(x, r, m);
    Cancel(r, y, m);
    assert y == r;
    HalfUpExact(m, r);
    MulMonotone(11, m, r);
  }

  lemma AtMostRate(x: nat, r: nat, m: nat)
    requires m > 0 && x < m
    ensures There(x, r, m) <= r
  {
    MulMonotone(x, m, r);
    MulMonotone(0, x, r);
    HalfUpMonotone(x * r, r * m, m);
    HalfUpExact(r, m);
  }

  lemma ShortProduct(x: nat, r: nat, m: nat, k: nat)
    requires r <= m == Pow10(k)
    ensures 0 <= x * r <= x * m && Digits(x * r) <= Digits(x * m) <= Digits(x) + k
  {
    MulMonotone(r, m, x);
    MulMonotone(0, x, r);
    ShiftTimes(x, k);
    if x > 0 {
      ShiftDigits(x, k);
    } else {
      ShiftZero(k);
    }
    DigitsMonotone(x * r, x * m);
  }

  // ----- from the even rate on: the way back is clear of ties -----

  lemma TenfoldProduct(r: nat, k: nat)
    requires r > 0
    ensures Pow10(k + 1) * r == 10 * (Pow10(k) * r) && Pow10(k) <= Pow10(k) * r
  {
    TenTimes(k);
    TimesConstant(r, 10, Pow10(k));
    MulMonotone(1, r, Pow10(k));
  }

  lemma ProductBelow(x: nat, top: int, r: nat)
    requires x < top
    ensures 0 <= x * r && x * r + r <= top * r
  {
    MulMonotone(x + 1, top, r);
    Spread(x, 1, r);
    MulMonotone(0, x, r);
  }

  /** A gap of two or more outweighs any rate that is not much farther above the even one. */
  lemma RoomForGap(r: nat, m: nat, gap: int, slack: int, step: int)
    requires 10 * m <= step && gap >= 2 && r <= m + gap + slack
    requires slack <= 1_000_000 && step >= 100_000_000
    ensures 10 * r < step * gap
  {
    MulMonotone(100, step, gap - 2);
    Spread(gap - 2, 2, step);
  }

  lemma StepIsLarge()
    ensures Pow10(15) >= 100_000_000 && Pow10(15) == 10 * Pow10(14) == 100 * Pow10(13)
  {
    assert Pow10(8) == 100_000_000;
    PowMonotone(8, 15);
    TenTimes(13);
    TenTimes(14);
  }

  /** Among the amounts below m, only half of it comes as close to a tie as m + 1 allows. */
  lemma OnlyHalf(x: nat, m: nat, y: nat)
    requires 1 < m && x < m && y == There(x, m + 1, m) && Gap(y * m, m + 1, x) == 1
    ensures 2 * x == m
  {
    Spread(m, 1, x);
    Spread(x, 1, m);
    if 2 * x < m {
      HalfUpMeans(x * (m + 1), m, x);
    } else {
      HalfUpMeans(x * (m + 1), m, x + 1);
    }
  }

  /** A first leg rounded once, from the even rate on. */
  lemma ShortIsClearAbove(x: nat, r: nat, m: nat, y: nat)
    requires 10 <= m <= r && (m <= Pow10(13) || m == Pow10(14)) && Digits(x) <= 14 && y == There(x, r, m)
    requires m == Pow10(14) && r == m + 1 ==> 2 * x != m
    ensures y * m >= 0 && ClearOfTie(y * m, r, x, 14)
  {
    DigitsAtMost(x, 14);
    ProductBelow(x, Pow10(14), r);
    MulMonotone(0, y, m);
    HalfUpMeans(x * r, m, y);
    StepIsLarge();
    var gap := Gap(y * m, r, x);
    if r == m {
      HalfUpExact(x, m);
      RoomForGap(r, m, gap, 0, Pow10(15));
    } else if gap >= 2 {
      RoomForGap(r, m, gap, 0, Pow10(15));
    } else {
      if m == Pow10(14) {
        OnlyHalf(x, m, y);
      }
      SmallRate(r, gap, Pow10(15));
    }
  }

  /** A product of more than 28 digits: what its two roundings can add up to. */
  lemma LongLeg(n: nat, scale: nat, p: nat, m: int, k: nat) returns (y: nat)
    requires k >= 1 && Digits(n) == PRECISION + k && scale >= p + k + 2 && m == Pow10(scale - p)
    ensures Quantize(FixNat(n, 0 - scale), p) == Ok(Dec(y, 0 - p))
    ensures 2 * Abs(y * m - n) <= m + Pow10(k)
  {
    var v := Shift(HalfEvenNat(n, Pow10(k)), k);
    LongProductRounds(n, scale, p, k);
    ShiftTimes(HalfEvenNat(n, Pow10(k)), k);
    HalfEvenMeans(n, Pow10(k));
    y := HalfUpNat(v, m);
    HalfUpMeans(v, m, y);
  }

  /** A product of 28 + k digits has a rate of at least 10^(13 + k). */
  lemma LongNeedsRate(x: nat, r: nat, n: nat, k: nat)
    requires n == x * r && k >= 1 && Digits(n) == PRECISION + k && Digits(x) <= 14 && r > 0
    ensures Pow10(13 + k) <= r
  {
    DigitsBracket(n);
    DigitsAtMost(x, 14);
    MulMonotone(x, Pow10(14), r);
    ShiftTwice(1, 13 + k, 14);
    ShiftTimes(Pow10(13 + k), 14);
    Cancel(Pow10(13 + k), r, Pow10(14));
  }

  /** From 30 digits on, that leaves room for both roundings of the first leg. */
  lemma RoomForBoth(k: nat)
    requires 2 <= k <= 6
    ensures Pow10(14) + Pow10(k) + 2 <= Pow10(13 + k) && Pow10(k) <= 1_000_000
  {
    TenTimes(12 + k);
    PowMonotone(14, 12 + k);
    PowMonotone(k, 12 + k);
    PowMonotone(k, 6);
    assert Pow10(6) == 1_000_000;
  }

  lemma ClearIsShort(n: nat, r: nat, z: nat, d: nat)
    requires r > 0 && ClearOfTie(n, r, z, d)
    ensures Digits(n) <= Digits(r) + d
  {
    ShiftTimes(r, d);
    ShiftDigits(r, d);
    DigitsMonotone(n, Shift(r, d));
  }

  /** The way back from a first leg that is clear of ties. */
  lemma BackFromClear(x: nat, y: nat, r: nat, pb: nat, pq: nat, m: nat)
    requires r > 0 && pb <= 4 && pq <= 4 && m == EvenRate(pb, pq)
    requires 0 < x && Digits(x) <= 14 && y * m >= 0 && ClearOfTie(y * m, r, x, 14)
    ensures y > 0 && Quantize(DivNat(y, r, 10 - pq), pb) == Ok(Dec(x, 0 - pb))
  {
    MulMonotone(1, x, r);
    ClearIsShort(y * m, r, x, 14);
    ShiftTimes(y, 10 - pq + pb);
    DivisionRounds(y, pq, r, pb, y * m, x, 14);
  }

  lemma ProductIsFixed(x: nat, s: nat, r: nat, n: nat)
    requires n == x * r
    ensures Mul(Dec(x, 0 - s), Dec(r, -10)) == FixNat(n, 0 - (10 + s))
  {
  }

  /** The first leg at or above the even rate, however long its product. */
  lemma ThereAboveEven(x: nat, r: nat, pb: nat, pq: nat, m: nat) returns (y: nat)
    requires pb <= 4 && pq <= 4 && MoneyColumn(x, pb) && RateColumn(r) && r >= m == EvenRate(pb, pq)
    requires !Lost(x, r, pb, pq)
    ensures Quantize(Mul(Dec(x, 0 - pb), Dec(r, -10)), pq) == Ok(Dec(y, 0 - pq))
    ensures y * m >= 0 && ClearOfTie(y * m, r, x, 14)
  {
    var n := x * r;
    ProductOfColumns(x, pb, r);
    ProductIsFixed(x, pb, r, n);
    EvenRateSize(pb, pq, m);
    y := LegAboveEven(x, r, n, 10 + pb, pq, m);
  }

  lemma LegAboveEven(x: nat, r: nat, n: nat, scale: nat, p: nat, m: nat) returns (y: nat)
    requires n == x * r && Digits(n) <= PRECISION + 6 && Digits(n) <= PRECISION + scale - p - 2
    requires 10 <= scale <= 14 && p <= 4 && m == Pow10(scale - p) && Digits(x) <= 14
    requires 10 <= m <= r && (m <= Pow10(13) || m == Pow10(14))
    requires m == Pow10(14) && r == m + 1 ==> 2 * x != m
    ensures Quantize(FixNat(n, 0 - scale), p) == Ok(Dec(y, 0 - p))
    ensures y * m >= 0 && ClearOfTie(y * m, r, x, 14)
  {
    if Digits(n) <= PRECISION {
      y := There(x, r, m);
      ShortProductRounds(n, scale, p, m);
      ShortIsClearAbove(x, r, m, y);
    } else {
      y := LongAboveEven(x, r, n, scale, p, m, Digits(n) - PRECISION);
    }
  }

  lemma LongAboveEven(x: nat, r: nat, n: nat, scale: nat, p: nat, m: nat, k: nat) returns (y: nat)
    requires n == x * r && 1 <= k <= 6 && Digits(n) == PRECISION + k && Digits(x) <= 14 && r >= m
    requires 10 <= scale <= 14 && p <= 4 && scale >= p + k + 2 && m == Pow10(scale - p)
    requires 10 <= m && (m <= Pow10(13) || m == Pow10(14))
    ensures Quantize(FixNat(n, 0 - scale), p) == Ok(Dec(y, 0 - p))
    ensures y * m >= 0 && ClearOfTie(y * m, r, x, 14)
  {
    if k == 1 && r < m + 12 {
      y := There(x, r, m);
      LongNearEven(x, r, n, m);
      ProductExactIff(n, scale, p, m);
      ShortIsClearAbove(x, r, m, y);
    } else {
      y := LongLeg(n, scale, p, m, k);
      MulMonotone(0, y, m);
      LongIsClear(x, r, n, k, m, y * m);
    }
  }

  lemma LongIsClear(x: nat, r: nat, n: nat, k: nat, m: int, ym: nat)
    requires n == x * r && 1 <= k <= 6 && Digits(n) == PRECISION + k && Digits(x) <= 14 && r > 0
    requires 0 < m <= Pow10(14) && 2 * Abs(ym - n) <= m + Pow10(k) && (k == 1 ==> r >= m + 12)
    ensures ClearOfTie(ym, r, x, 14)
  {
    DigitsAtMost(x, 14);
    ProductBelow(x, Pow10(14), r);
    LongNeedsRate(x, r, n, k);
    StepIsLarge();
    if k == 1 {
      assert Pow10(1) == 10;
    } else {
      RoomForBoth(k);
    }
    RoomForGap(r, m, Gap(ym, r, x), Pow10(k), Pow10(15));
  }

  /** A product of 29 digits at a rate next to the even one is not just below a tie: it falls short
      of a multiple of m by less than 144. */
  lemma LongNearEven(x: nat, r: nat, n: nat, m: nat)
    requires n == x * r && Digits(n) == PRECISION + 1 && Digits(x) <= 14
    requires 0 < m <= r < m + 12 && (m <= Pow10(13) || m == Pow10(14))
    ensures !JustBelowTie(n, m) && r != m + 1
  {
    LongNeedsRate(x, r, n, 1);
    TopIsLarge();
    LongIsSquare(n);
    DigitsAtMost(x, 14);
    NearSquare(x, m, r - m, n);
  }

  lemma TopIsLarge()
    ensures 1000 <= Pow10(13) && Pow10(14) == 10 * Pow10(13)
  {
    assert Pow10(3) == 1000;
    PowMonotone(3, 13);
    TenTimes(13);
  }

  lemma LongIsSquare(n: nat)
    requires Digits(n) == PRECISION + 1
    ensures n >= Pow10(14) * Pow10(14)
  {
    DigitsBracket(n);
    ShiftTwice(1, 14, 14);
    ShiftTimes(Pow10(14), 14);
  }

  lemma NearSquare(x: nat, m: nat, above: nat, n: nat)
    requires x < m && 1000 <= m && above < 12 && n == x * (m + above) && n >= m * m
    ensures 2 * Rem(n, m) >= m && above != 1
  {
    var c := m - x;
    ShortOfSquare(m, c, above);
    NearerThanAbove(m, c, above, c * above);
    SmallProduct(c, above);
    Spread(m + above - c, -1, m);
    Spread(m, above - c, m);
    QuotIs(n, m, m + above - c - 1);
  }

  lemma ShortOfSquare(m: nat, c: nat, above: nat)
    ensures (m - c) * (m + above) == m * m + (above - c) * m - c * above
  {
    Spread(m, above, m - c);
    Spread(m, 0 - c, m);
    Spread(m, 0 - c, above);
    Spread(above, 0 - c, m);
  }

  lemma NearerThanAbove(m: nat, c: nat, above: nat, product: int)
    requires 0 < c && product == c * above && (above - c) * m - product >= 0 && m > 0
    ensures c < above
  {
    MulMonotone(0, c, above);
    if above <= c {
      MulMonotone(above - c, 0, m);
      if above == 0 {
        MulMonotone(above - c, -1, m);
      } else {
        MulMonotone(1, c, above);
      }
    }
  }

  lemma SmallProduct(c: nat, above: nat)
    requires 0 < c < above < 12
    ensures 0 < c * above < 144
  {
    MulMonotone(1, c, above);
    MulMonotone(c, 12, above);
  }

  lemma AboveEven(book: Book, base: string, quote: string, x: nat, r: nat, pb: nat, pq: nat, m: nat)
    requires OneWay(book, base, quote, r, pb, pq) && MoneyColumn(x, pb) && r >= m == EvenRate(pb, pq)
    requires !Lost(x, r, pb, pq)
    ensures ComesBack(book, base, quote, x, pb)
  {
    if x == 0 {
      HalfUpMeans(0, m, 0);
      ThereBySingleRounding(book, base, quote, 0, r, pb, pq, 0);
      BackDivides(book, base, quote, 0, r, pb, pq, 0);
    } else {
      var y := ThereAboveEven(x, r, pb, pq, m);
      ConvertDirectly(book, Dec(x, 0 - pb), base, quote);
      BackFromClear(x, y, r, pb, pq, m);
      BackDivides(book, base, quote, y, r, pb, pq, x);
    }
  }

  // ----- the round trip -----

  /** The error, in base units, is at most (1 + m / r) / 2, and none from the even rate on. */
  predicate Near(x: nat, back: nat, r: nat, m: nat) {
    2 * Abs(back * r - x * r) <= r + m && (r >= m ==> back == x)
  }

  /** A trip whose first leg fits the column: both legs are rounded once. */
  lemma StoredTrip(book: Book, base: string, quote: string, x: nat, r: nat, pb: nat, pq: nat, m: nat, y: nat)
    requires OneWay(book, base, quote, r, pb, pq) && MoneyColumn(x, pb) && Storable(book, base, quote, x, pb)
    requires m == EvenRate(pb, pq) && y == There(x, r, m)
    ensures MoneyColumn(y, pq)
    ensures Convert(book, Dec(x, 0 - pb), base, quote) == Ok(Dec(y, 0 - pq))
    ensures Convert(book, Dec(y, 0 - pq), quote, base) == Ok(Dec(Back(y, r, m), 0 - pb))
  {
    StoredThere(book, base, quote, x, r, pb, pq, y);
    StoredIsExact(book, base, quote, x, r, pb, pq, y);
    BackBySingleRounding(book, base, quote, y, r, pb, pq, Back(y, r, m));
  }

  /** Converting there and back is off by at most half a base unit plus half a quote unit divided
      by the rate, and not at all from the even rate on, if and only if the amount is not lost. */
  lemma ConvertRoundTrip(book: Book, base: string, quote: string, x: nat, r: nat, pb: nat, pq: nat, m: nat)
    requires OneWay(book, base, quote, r, pb, pq) && MoneyColumn(x, pb) && m == EvenRate(pb, pq)
    ensures !Lost(x, r, pb, pq)
        <==> exists back: nat :: ComesBackAs(book, base, quote, x, pb, back) && Near(x, back, r, m)
  {
    if Lost(x, r, pb, pq) {
      LostFails(book, base, quote, x, r, pb, pq);
      assert !Near(x, x + 1, r, m);
    } else if r < m {
      RoundTripUnits(x, r, m);
      BelowEven(book, base, quote, x, r, pb, pq, m, There(x, r, m));
      assert ComesBackAs(book, base, quote, x, pb, Back(There(x, r, m), r, m));
    } else {
      AboveEven(book, base, quote, x, r, pb, pq, m);
      assert ComesBackAs(book, base, quote, x, pb, x);
    }
  }

  /** Two amounts that convert to the same one cannot both come back. */
  lemma TwinsFail(book: Book, base: string, quote: string, x: nat, pb: nat)
    requires Convert(book, Dec(x, 0 - pb), base, quote) == Convert(book, Dec(x + 1, 0 - pb), base, quote)
    ensures !ComesBack(book, base, quote, x, pb) || !ComesBack(book, base, quote, x + 1, pb)
  {
  }

  lemma CollisionInColumn(r: nat, pb: nat, pq: nat, m: nat)
    requires pb <= 4 && pq <= 4 && 0 < r < m == EvenRate(pb, pq)
    ensures MoneyColumn(Collision(r, m), pb) && MoneyColumn(Collision(r, m) + 1, pb)
  {
    Collide(r, m);
    PowMonotone(10 + pb - pq, 10 + pb);
    PowMonotone(1, 10 + pb - pq);
    assert Pow10(1) == 10;
    InColumn(Collision(r, m), pb, Pow10(10 + pb));
  }

  lemma InColumn(q: nat, pb: nat, top: int)
    requires pb <= 4 && top == Pow10(10 + pb) && q + 1 < top
    ensures MoneyColumn(q, pb) && MoneyColumn(q + 1, pb)
  {
    DigitsAtMost(q, 10 + pb);
    DigitsAtMost(q + 1, 10 + pb);
  }

  /** From the even rate on, an amount of the base column comes back if and only if it is not lost. */
  lemma ComesBackIff(book: Book, base: string, quote: string, x: nat, r: nat, pb: nat, pq: nat, m: nat)
    requires OneWay(book, base, quote, r, pb, pq) && MoneyColumn(x, pb) && r >= m == EvenRate(pb, pq)
    ensures ComesBack(book, base, quote, x, pb) <==> !Lost(x, r, pb, pq)
  {
    if Lost(x, r, pb, pq) {
      LostFails(book, base, quote, x, r, pb, pq);
    } else {
      AboveEven(book, base, quote, x, r, pb, pq, m);
    }
  }

  lemma CollisionFails(book: Book, base: string, quote: string, r: nat, pb: nat, pq: nat, m: nat)
    requires OneWay(book, base, quote, r, pb, pq) && r < m == EvenRate(pb, pq)
    ensures exists x: nat :: MoneyColumn(x, pb) && !ComesBack(book, base, quote, x, pb)
  {
    var q := Collision(r, m);
    Collide(r, m);
    CollisionInColumn(r, pb, pq, m);
    BelowEven(book, base, quote, q, r, pb, pq, m, q);
    BelowEven(book, base, quote, q + 1, r, pb, pq, m, q);
    TwinsFail(book, base, quote, q, pb);
  }

  /** Every amount of the base column comes back if and only if a quote unit is worth no more than
      a base unit, except at one rate for four decimals against none. */
  lemma RoundTripExactIff(book: Book, base: string, quote: string, r: nat, pb: nat, pq: nat, m: nat)
    requires OneWay(book, base, quote, r, pb, pq) && m == EvenRate(pb, pq)
    ensures (forall x: nat :: MoneyColumn(x, pb) ==> ComesBack(book, base, quote, x, pb))
        <==> r >= m && !(pb == 4 && pq == 0 && r == m + 1)
  {
    if r < m {
      CollisionFails(book, base, quote, r, pb, pq, m);
    } else {
      forall x: nat | MoneyColumn(x, pb)
        ensures ComesBack(book, base, quote, x, pb) <==> !Lost(x, r, pb, pq)
      {
        ComesBackIff(book, base, quote, x, r, pb, pq, m);
      }
      if pb == 4 && pq == 0 && r == m + 1 {
        LostInColumn();
      }
    }
  }

  lemma StoredComesBack(book: Book, base: string, quote: string, x: nat, r: nat, pb: nat, pq: nat, m: nat)
    requires OneWay(book, base, quote, r, pb, pq) && MoneyColumn(x, pb) && Storable(book, base, quote, x, pb)
    requires m == EvenRate(pb, pq) && (r >= m || Pow10(10 + pq) <= Collision(r, m))
    ensures ComesBack(book, base, quote, x, pb)
  {
    var y := There(x, r, m);
    StoredTrip(book, base, quote, x, r, pb, pq, m, y);
    if r >= m {
      RoundTripUnits(x, r, m);
    } else {
      DigitsAtMost(y, 10 + pq);
      Collide(r, m);
      if x >= Collision(r, m) {
        ThereGrows(Collision(r, m), x, r, m);
        assert false;
      }
      BelowCollision(x, r, m);
    }
  }

  lemma StoredCollision(book: Book, base: string, quote: string, x: nat, r: nat, pb: nat, pq: nat, m: nat, q: nat)
    requires OneWay(book, base, quote, r, pb, pq) && MoneyColumn(x, pb) && m == EvenRate(pb, pq)
    requires q == There(x, r, m) && q < Pow10(10 + pq)
    ensures Storable(book, base, quote, x, pb)
    ensures Convert(book, Dec(x, 0 - pb), base, quote) == Ok(Dec(q, 0 - pq))
  {
    DigitsAtMost(q, 10 + pq);
    StoredThere(book, base, quote, x, r, pb, pq, q);
    StoredIsExact(book, base, quote, x, r, pb, pq, q);
  }

  /** Every amount whose conversion can be stored comes back if and only if a quote unit is worth
      no more than a base unit, or the first amounts that collide convert out of the column. */
  lemma StoredRoundTripExactIff(book: Book, base: string, quote: string, r: nat, pb: nat, pq: nat, m: nat)
    requires OneWay(book, base, quote, r, pb, pq) && m == EvenRate(pb, pq)
    ensures (forall x: nat :: MoneyColumn(x, pb) && Storable(book, base, quote, x, pb) ==> ComesBack(book, base, quote, x, pb))
        <==> r >= m || Pow10(10 + pq) <= Collision(r, m)
  {
    if r >= m || Pow10(10 + pq) <= Collision(r, m) {
      forall x: nat | MoneyColumn(x, pb) && Storable(book, base, quote, x, pb)
        ensures ComesBack(book, base, quote, x, pb)
      {
        StoredComesBack(book, base, quote, x, r, pb, pq, m);
      }
    } else {
      var q := Collision(r, m);
      Collide(r, m);
      CollisionInColumn(r, pb, pq, m);
      StoredCollision(book, base, quote, q, r, pb, pq, m, q);
      StoredCollision(book, base, quote, q + 1, r, pb, pq, m, q);
      TwinsFail(book, base, quote, q, pb);
    }
  }

  // ----- four decimals against none -----

  /** c = 499999999999995 followed by 50 and a sticky 1, cut to 28 digits, lands on the tie. */
  lemma LargeQuotientRounds(c: nat, q: nat, z: nat)
    requires c == 100 * q + 51 && q + 1 == 100_000_000_000_000 * z + 50_000_000_000_000
    requires Digits(c) == PRECISION + 2 && Digits(z + 1) <= PRECISION && q + 1 < Pow10(PRECISION)
    ensures Quantize(FixNat(c, -20), 4) == Ok(Dec(z + 1, -4))
  {
    LargePowers();
    assert Pow10(2) == 100;
    HalfEvenUp(c, 100, q);
    assert FixNat(c, -20) == Dec(q + 1, -18);
    HalfUpMeans(q + 1, 100_000_000_000_000, z + 1);
  }

  lemma LargeDigits(y: nat, r: nat, c: nat)
    requires y == 50_000_000_000_001 && r == 100_000_000_000_001
    requires c == 500_000_000_000_004_999_999_999_999_951
    ensures DivShift(y, r) == 30 && Digits(c) == 30
  {
    LargePowers();
    DigitsAtMost(y, 13);
    DigitsAtMost(y, 14);
    DigitsAtMost(r, 14);
    DigitsAtMost(r, 15);
    DigitsAtMost(c, 29);
    DigitsAtMost(c, 30);
  }

  lemma LargeSticky(y: nat, r: nat, c: nat)
    requires y == 50_000_000_000_001 && r == 100_000_000_000_001
    requires c == 500_000_000_000_004_999_999_999_999_951
    ensures StickyQuotient(Shift(y, 30), r) == c
  {
    LargePowers();
    ShiftTimes(y, 30);
    QuotIs(y * Pow10(30), r, c - 1);
  }

  lemma LargeBack(y: nat, r: nat)
    requires y == 50_000_000_000_001 && r == 100_000_000_000_001
    ensures Quantize(DivNat(y, r, 10), 4) == Ok(Dec(50_000_000_000_001, -4))
  {
    var c := 500_000_000_000_004_999_999_999_999_951;
    LargeDigits(y, r, c);
    LongDivision(y, r, 10, 30);
    LargeSticky(y, r, c);
    LargeResult();
    LargeQuotientRounds(c, 5_000_000_000_000_049_999_999_999_999, 50_000_000_000_000);
  }

  lemma LargeResult()
    ensures Digits(50_000_000_000_001) <= PRECISION && 5_000_000_000_000_050_000_000_000_000 < Pow10(PRECISION)
  {
    LargePowers();
    DigitsAtMost(50_000_000_000_001, PRECISION);
  }

  lemma LargeThere(x: nat, r: nat, n: nat, y: nat)
    requires n == x * r == 5_000_000_000_000_050_000_000_000_000 && y == 50_000_000_000_001
    ensures Digits(x * r) <= PRECISION && There(x, r, Pow10(14)) == y
  {
    LargePowers();
    DigitsAtMost(n, PRECISION);
    HalfUpMeans(n, 100_000_000_000_000, y);
  }

  lemma LargeAmount(x: nat, r: nat)
    requires x == 50_000_000_000_000 && r == 100_000_000_000_001
    ensures MoneyColumn(x, 4) && RateColumn(r) && EvenRate(4, 0) == Pow10(14) == 100_000_000_000_000 && Lost(x, r, 4, 0)
  {
    LargePowers();
    DigitsAtMost(x, 14);
    DigitsAtMost(r, 20);
  }

  /** The numbers of a trip that comes back one unit too high. */
  predicate FailingTrip(x: nat, r: nat, pb: nat, pq: nat, y: nat) {
    pb <= 4 && pq <= 4 && r > 0 && y == x + 1 && MoneyColumn(x, pb)
    && y == There(x, r, EvenRate(pb, pq)) && Digits(x * r) <= PRECISION
    && Quantize(DivNat(y, r, 10 - pq), pb) == Ok(Dec(y, 0 - pb))
  }

  /** Half the base column, at the rate just above the even one. */
  lemma LargeTrip(x: nat, r: nat)
    requires x == 50_000_000_000_000 && r == 100_000_000_000_001
    ensures FailingTrip(x, r, 4, 0, x + 1)
  {
    LargeAmount(x, r);
    LargeThere(x, r, 5_000_000_000_000_050_000_000_000_000, x + 1);
    LargeBack(x + 1, r);
  }

  lemma LostIsFailing(x: nat, r: nat)
    requires Lost(x, r, 4, 0)
    ensures FailingTrip(x, r, 4, 0, x + 1)
  {
    var a, b := 50_000_000_000_000, 100_000_000_000_001;
    LargeAmount(a, b);
    LargeTrip(a, b);
    assert x == a && r == b;
  }

  lemma FailingTripFails(book: Book, base: string, quote: string, x: nat, r: nat, pb: nat, pq: nat, y: nat)
    requires OneWay(book, base, quote, r, pb, pq) && FailingTrip(x, r, pb, pq, y)
    ensures MoneyColumn(x, pb) && y == x + 1 && ComesBackAs(book, base, quote, x, pb, y)
  {
    LostTrip(book, base, quote, x, r, pb, pq, y);
  }

  lemma LostTrip(book: Book, base: string, quote: string, x: nat, r: nat, pb: nat, pq: nat, y: nat)
    requires OneWay(book, base, quote, r, pb, pq) && MoneyColumn(x, pb) && y == x + 1
    requires y == There(x, r, EvenRate(pb, pq)) && Digits(x * r) <= PRECISION
    requires Quantize(DivNat(y, r, 10 - pq), pb) == Ok(Dec(y, 0 - pb))
    ensures ComesBackAs(book, base, quote, x, pb, y)
  {
    ThereBySingleRounding(book, base, quote, x, r, pb, pq, y);
    BackDivides(book, base, quote, y, r, pb, pq, y);
  }

  lemma LostFails(book: Book, base: string, quote: string, x: nat, r: nat, pb: nat, pq: nat)
    requires OneWay(book, base, quote, r, pb, pq) && Lost(x, r, pb, pq)
    ensures MoneyColumn(x, pb) && ComesBackAs(book, base, quote, x, pb, x + 1)
  {
    LostIsFailing(x, r);
    FailingTripFails(book, base, quote, x, r, pb, pq, x + 1);
  }

  lemma LostInColumn()
    ensures exists x: nat :: MoneyColumn(x, 4) && Lost(x, EvenRate(4, 0) + 1, 4, 0)
  {
    LargeAmount(50_000_000_000_000, 100_000_000_000_001);
  }

  ghost predicate LostIn(book: Book, base: string, quote: string, x: nat, r: nat, pb: nat, pq: nat) {
    OneWay(book, base, quote, r, pb, pq) && Lost(x, r, pb, pq) && !ComesBack(book, base, quote, x, pb)
  }

  lemma LostBook(book: Book, base: string, quote: string, r: nat)
    requires base == "UYW" && quote == "CLP" && RateColumn(r)
    requires book == Book(map[base := 4, quote := 0], map[(base, quote) := Dec(r, -10)])
    ensures OneWay(book, base, quote, r, 4, 0)
  {
    assert Upper("UYW") == "UYW" && Upper("CLP") == "CLP";
  }

  lemma LostInBook(book: Book, base: string, quote: string, x: nat, r: nat, pb: nat, pq: nat)
    requires OneWay(book, base, quote, r, pb, pq) && Lost(x, r, pb, pq)
    ensures LostIn(book, base, quote, x, r, pb, pq)
  {
    LostFails(book, base, quote, x, r, pb, pq);
  }

  lemma LostSomewhere(x: nat, r: nat) returns (book: Book, base: string, quote: string)
    requires Lost(x, r, 4, 0) && RateColumn(r)
    ensures LostIn(book, base, quote, x, r, 4, 0)
  {
    base, quote := "UYW", "CLP";
    book := Book(map[base := 4, quote := 0], map[(base, quote) := Dec(r, -10)]);
    LostBook(book, base, quote, r);
    LostInBook(book, base, quote, x, r, 4, 0);
  }

  /** The exception is real: a book that stores such a rate, and an amount that does not come back. */
  lemma SomeTripIsLost()
    ensures exists book: Book, base: string, quote: string, x: nat, r: nat :: LostIn(book, base, quote, x, r, 4, 0)
  {
    LargeAmount(50_000_000_000_000, 100_000_000_000_001);
    var book, base, quote := LostSomewhere(50_000_000_000_000, 100_000_000_000_001);
  }
}
