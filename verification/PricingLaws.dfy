/** What the calculated amounts are, in whole minor units of the currency, and how they
    depend on the basket. */
module PricingLaws {
  import opened Prelude
  import opened Arith
  import opened Decimals
  import opened Currency
  import opened Conversion
  import opened Lines
  import opened Pricing

  // ----- what the reference data guarantees -----

  predicate NonNegative(x: Dec) {
    x.coef >= 0
  }

  /** Prices, tax rates and exchange rates as the columns hold them: prices and tax are not
      negative, rates are positive, and a currency has at most four decimals. */
  ghost predicate SoundCatalog(catalog: Catalog) {
    (forall code: string :: DecimalPlaces(catalog.book, code) <= 4) &&
    (forall p :: p in catalog.book.rates ==> catalog.book.rates[p].coef > 0) &&
    (forall v :: v in catalog.variants ==> SoundVariant(catalog.variants[v])) &&
    (forall code :: code in catalog.regions ==> SoundRegion(catalog.regions[code])) &&
    (catalog.fallback.Some? ==> SoundRegion(catalog.fallback.value))
  }

  predicate SoundVariant(v: Variant) {
    NonNegative(v.basePrice) && forall code :: code in v.prices ==> NonNegative(v.prices[code])
  }

  /** A tax rate is a NUMERIC(6, 4). */
  predicate SoundRegion(r: Region) {
    r.taxRate.coef >= 0 && r.taxRate.exp == -4 && Digits(r.taxRate.coef) <= 6
  }

  lemma QuantizeNonNegative(x: Dec, p: nat)
    requires NonNegative(x) && Quantize(x, p).Ok?
    ensures NonNegative(Quantize(x, p).value)
  {
  }

  /** Rounding a rounded amount again changes nothing. */
  lemma QuantizeTwice(x: Dec, p: nat)
    requires Quantize(x, p).Ok?
    ensures Quantize(Quantize(x, p).value, p) == Quantize(x, p)
  {
    var y := Quantize(x, p).value;
    assert Shift(y.coef, y.exp + p) == y.coef;
  }

  lemma ConvertNonNegative(book: Book, amount: Dec, fromCode: string, toCode: string)
    requires NonNegative(amount) && forall p :: p in book.rates ==> book.rates[p].coef > 0
    requires Convert(book, amount, fromCode, toCode).Ok?
    ensures NonNegative(Convert(book, amount, fromCode, toCode).value)
  {
    var source, target := Upper(fromCode), Upper(toCode);
    if source != target && (source, target) in book.rates {
      MulMonotone(0, amount.coef, book.rates[(source, target)].coef);
      assert NonNegative(Mul(amount, book.rates[(source, target)]));
    }
  }

  /** A unit price is a whole number of minor units, not negative; the second rounding in
      its computation changes nothing. */
  lemma UnitPriceWhole(catalog: Catalog, variant: Variant, currency: string)
    requires SoundCatalog(catalog) && SoundVariant(variant)
    requires UnitPrice(catalog, variant, currency).Ok?
    ensures NonNegative(UnitPrice(catalog, variant, currency).value)
    ensures UnitPrice(catalog, variant, currency).value.exp == 0 - DecimalPlaces(catalog.book, currency)
    ensures Upper(currency) !in variant.prices ==>
      UnitPrice(catalog, variant, currency) == Convert(catalog.book, variant.basePrice, variant.baseCurrency, currency)
  {
    if Upper(currency) in variant.prices {
      QuantizeNonNegative(variant.prices[Upper(currency)], DecimalPlaces(catalog.book, currency));
    } else {
      ConvertNonNegative(catalog.book, variant.basePrice, variant.baseCurrency, currency);
      ConvertWhole(catalog.book, variant.basePrice, variant.baseCurrency, currency);
      QuantizeFixed(Convert(catalog.book, variant.basePrice, variant.baseCurrency, currency).value, DecimalPlaces(catalog.book, currency));
    }
  }

  /** An explicit price is the unit price, rounded half up to the currency's decimals, whatever the
      base price and the rates. */
  lemma ExplicitPrice(catalog: Catalog, variant: Variant, currency: string, c: int, s: nat, p: nat)
    requires Upper(currency) in variant.prices && variant.prices[Upper(currency)] == Dec(c, 0 - s) && MoneyColumn(c, s)
    requires p == DecimalPlaces(catalog.book, currency) <= 4
    ensures UnitPrice(catalog, variant, currency) == Ok(Dec(HalfUp(Shift(c, p), Pow10(s)), 0 - p))
  {
    StoredAmountRounds(c, s, p);
  }

  /** Without one, the unit price is the converted base price: its second rounding is idle, and
      what cannot be converted has no price. */
  lemma ConvertedPrice(catalog: Catalog, variant: Variant, currency: string)
    requires Upper(currency) !in variant.prices
    ensures UnitPrice(catalog, variant, currency) == Convert(catalog.book, variant.basePrice, variant.baseCurrency, currency)
  {
    if Convert(catalog.book, variant.basePrice, variant.baseCurrency, currency).Ok? {
      ConvertWhole(catalog.book, variant.basePrice, variant.baseCurrency, currency);
      QuantizeFixed(Convert(catalog.book, variant.basePrice, variant.baseCurrency, currency).value, DecimalPlaces(catalog.book, currency));
    }
  }

  /** The bill counts a unit with an explicit price at exactly that price. */
  lemma ExplicitPriceIsBilled(catalog: Catalog, currency: string, v: VariantId, c: int, s: nat, p: nat)
    requires v in catalog.variants && Upper(currency) in catalog.variants[v].prices
    requires catalog.variants[v].prices[Upper(currency)] == Dec(c, 0 - s) && MoneyColumn(c, s)
    requires p == DecimalPlaces(catalog.book, currency) <= 4
    ensures Price(catalog, currency, v) == HalfUp(Shift(c, p), Pow10(s))
  {
    ExplicitPrice(catalog, catalog.variants[v], currency, c, s, p);
  }

  lemma ConvertWhole(book: Book, amount: Dec, fromCode: string, toCode: string)
    requires Convert(book, amount, fromCode, toCode).Ok?
    ensures var y := Convert(book, amount, fromCode, toCode).value;
      y.exp == 0 - DecimalPlaces(book, toCode) && Digits(Abs(y.coef)) <= PRECISION
  {
    UpperTwice(toCode);
  }

  lemma QuantizeFixed(y: Dec, p: nat)
    requires y.exp == 0 - p && Digits(Abs(y.coef)) <= PRECISION
    ensures Quantize(y, p) == Ok(y)
  {
    assert Shift(y.coef, y.exp + p) == y.coef;
  }

  // ----- exact worth of a basket -----

  /** Minor units per unit of v; a variant without a price counts as free. */
  function Price(catalog: Catalog, currency: string, v: VariantId): int {
    if v in catalog.variants && UnitPrice(catalog, catalog.variants[v], currency).Ok?
    then UnitPrice(catalog, catalog.variants[v], currency).value.coef else 0
  }

  function PriceList(catalog: Catalog, currency: string): VariantId -> int {
    (v: VariantId) => Price(catalog, currency, v)
  }

  function Worth(catalog: Catalog, currency: string, lines: seq<LineInput>): int {
    Weigh(PriceList(catalog, currency), lines)
  }

  /** The running sum is exactly w minor units while w has at most 28 digits; from then on it is
      at least 10^28 minor units, which no rounding to minor units accepts. */
  ghost predicate Sums(acc: Dec, w: int, p: nat) {
    w >= 0 && if Digits(w) <= PRECISION then acc == Dec(w, 0 - p) || (w == 0 && acc == ZERO) else Huge(acc, p)
  }

  ghost predicate Huge(acc: Dec, p: nat) {
    acc.coef >= 0 && acc.exp >= 0 - p && Shift(acc.coef, acc.exp + p) >= Pow10(PRECISION)
  }

  lemma FixedAmount(n: nat, p: nat)
    ensures Sums(Fix(Dec(n, 0 - p)), n, p)
  {
    if Digits(n) > PRECISION {
      LongIsHuge(n, 0 - p, p);
    }
  }

  lemma LongIsHuge(n: nat, e: int, p: nat)
    requires e >= 0 - p && Digits(n) > PRECISION
    ensures Huge(FixNat(n, e), p)
  {
    FixLong(n, e);
    LargeShift(FixNat(n, e).coef, PRECISION - 1, FixNat(n, e).exp + p);
  }

  lemma LargeShift(c: int, top: nat, k: nat)
    requires c >= Pow10(top) && k >= 1
    ensures Shift(c, k) >= Pow10(top + 1)
  {
    ShiftMonotone(Pow10(top), c, k);
    ShiftTwice(1, top, k);
    PowMonotone(top + 1, top + k);
  }

  /** Adding to a huge sum leaves it huge. */
  lemma HugeStays(acc: Dec, y: Dec, p: nat)
    requires NonNegative(acc) && NonNegative(y) && acc.exp >= 0 - p && y.exp >= 0 - p
    requires Huge(acc, p) || Huge(y, p)
    ensures Huge(Add(acc, y), p)
  {
    var e := MinExp(acc, y);
    var n := AtExp(acc, e) + AtExp(y, e);
    SumValue(acc, y, p, e);
    if Digits(n) > PRECISION {
      LongIsHuge(n, e, p);
    } else {
      assert Add(acc, y) == Dec(n, e);
    }
  }

  /** A sum in minor units is the sum of the addends in minor units. */
  lemma SumValue(acc: Dec, y: Dec, p: nat, e: int)
    requires NonNegative(acc) && NonNegative(y) && acc.exp >= e && y.exp >= e && e >= 0 - p
    ensures Shift(AtExp(acc, e) + AtExp(y, e), e + p) == Shift(acc.coef, acc.exp + p) + Shift(y.coef, y.exp + p)
    ensures Shift(acc.coef, acc.exp + p) >= 0 && Shift(y.coef, y.exp + p) >= 0
  {
    ShiftSum(AtExp(acc, e), AtExp(y, e), e + p);
    ShiftTwice(acc.coef, acc.exp - e, e + p);
    ShiftTwice(y.coef, y.exp - e, e + p);
  }

  lemma AddSums(acc: Dec, w: nat, y: Dec, n: nat, p: nat)
    requires Sums(acc, w, p) && Sums(y, n, p)
    ensures Sums(Add(acc, y), w + n, p)
  {
    DigitsMonotone(w, w + n);
    DigitsMonotone(n, w + n);
    if Digits(w) > PRECISION || Digits(n) > PRECISION {
      HugeStays(acc, y, p);
    } else {
      AddExact(acc, w, y, n, p);
    }
  }

  lemma AddExact(acc: Dec, w: nat, y: Dec, n: nat, p: nat)
    requires acc == Dec(w, 0 - p) || (w == 0 && acc == ZERO)
    requires y == Dec(n, 0 - p) || (n == 0 && y == ZERO)
    ensures Sums(Add(acc, y), w + n, p)
  {
    ShiftZero(p);
    assert Shift(w, 0) == w && Shift(n, 0) == n;
    FixedAmount(w + n, p);
  }

  lemma LineSums(unit: Dec, quantity: nat, p: nat)
    requires NonNegative(unit) && unit.exp == 0 - p
    ensures unit.coef * quantity >= 0
    ensures Sums(Mul(unit, Dec(quantity, 0)), unit.coef * quantity, p)
  {
    MulMonotone(0, unit.coef, quantity);
    FixedAmount(unit.coef * quantity, p);
    assert Mul(unit, Dec(quantity, 0)) == Fix(Dec(unit.coef * quantity, 0 - p));
  }

  lemma {:induction false} SubtotalSums(catalog: Catalog, lines: seq<LineInput>, currency: string, sum: Dec)
    requires SoundCatalog(catalog) && AllPositive(lines) && Subtotal(catalog, lines, currency) == Ok(sum)
    ensures Worth(catalog, currency, lines) >= 0
    ensures Sums(sum, Worth(catalog, currency, lines), DecimalPlaces(catalog.book, currency))
  {
    if lines != [] {
      var n := |lines| - 1;
      var before := Subtotal(catalog, lines[..n], currency).value;
      SubtotalSums(catalog, lines[..n], currency, before);
      if lines[n].variantId in catalog.variants {
        SubtotalStep(catalog, lines[n], currency, before, Worth(catalog, currency, lines[..n]));
      }
    }
  }

  lemma SubtotalStep(catalog: Catalog, l: LineInput, currency: string, before: Dec, w: nat)
    requires SoundCatalog(catalog) && l.quantity > 0 && l.variantId in catalog.variants
    requires UnitPrice(catalog, catalog.variants[l.variantId], currency).Ok?
    requires Sums(before, w, DecimalPlaces(catalog.book, currency))
    ensures var unit := UnitPrice(catalog, catalog.variants[l.variantId], currency).value;
            var worth := LineWeight(PriceList(catalog, currency), l);
      worth >= 0 && Sums(Add(before, Mul(unit, Dec(l.quantity, 0))), w + worth, DecimalPlaces(catalog.book, currency))
  {
    UnitPriceWhole(catalog, catalog.variants[l.variantId], currency);
    var unit := UnitPrice(catalog, catalog.variants[l.variantId], currency).value;
    LineSums(unit, l.quantity, DecimalPlaces(catalog.book, currency));
    AddSums(before, w, Mul(unit, Dec(l.quantity, 0)), unit.coef * l.quantity, DecimalPlaces(catalog.book, currency));
  }

  /** A sum that can be rounded to minor units is exact, and rounding it changes nothing. */
  lemma RoundedSubtotal(acc: Dec, w: nat, p: nat, s: Dec)
    requires Sums(acc, w, p) && Quantize(acc, p) == Ok(s)
    ensures s == Dec(w, 0 - p) && Digits(w) <= PRECISION
  {
    if Digits(w) > PRECISION {
      DigitsAtMost(Shift(acc.coef, acc.exp + p), PRECISION);
    } else {
      ShiftZero(p);
      assert Shift(w, 0) == w;
    }
  }

  lemma ExactSubtotal(acc: Dec, w: nat, p: nat)
    requires Sums(acc, w, p) && Digits(w) <= PRECISION
    ensures Quantize(acc, p) == Ok(Dec(w, 0 - p))
  {
    ShiftZero(p);
    assert Shift(w, 0) == w;
  }

  // ----- the bill in minor units -----

  datatype Bill = Bill(subtotal: nat, fee: nat, tax: nat, total: nat)

  function FreeShippingFrom(jpy: bool, p: nat): nat {
    Shift(if jpy then 10000 else 100, p)
  }

  function FlatFee(jpy: bool, p: nat): nat {
    if jpy then Shift(990, p) else HalfUpNat(Shift(990, p), 100)
  }

  function Fee(w: nat, jpy: bool, p: nat): nat {
    if w >= FreeShippingFrom(jpy, p) then 0 else FlatFee(jpy, p)
  }

  /** Tax on w minor units at a rate of t ten-thousandths. */
  function TaxOn(w: nat, t: nat): nat {
    HalfUpNat(Times(w, t), 10000)
  }

  function BillFor(w: nat, t: nat, jpy: bool, p: nat): Bill {
    var fee := Fee(w, jpy, p);
    var tax := TaxOn(w + fee, t);
    Bill(w, fee, tax, w + fee + tax)
  }

  function BreakdownOf(currency: string, bill: Bill, p: nat): Breakdown {
    Breakdown(currency, Dec(bill.subtotal, 0 - p), Dec(bill.fee, 0 - p), Dec(bill.tax, 0 - p), Dec(bill.total, 0 - p))
  }

  lemma FlatFeeSmall(jpy: bool, p: nat)
    requires p <= 4
    ensures FlatFee(jpy, p) <= 9900000 && Digits(FlatFee(jpy, p)) <= 7
  {
    ShiftTwice(990, p, 4 - p);
    assert Shift(990, 4) == 9900000 by { ShiftTwice(990, 2, 2); assert Shift(990, 2) == 99000; assert Shift(99000, 2) == 9900000; }
    HalfUpAtMost(Shift(990, p), 100);
    assert Pow10(7) == 10000000;
    DigitsAtMost(FlatFee(jpy, p), 7);
  }

  lemma WholeHundred(m: nat)
    ensures HalfUpNat(Shift(m, 2), 100) == m
  {
    assert Shift(m, 1) == 10 * m;
    assert Shift(m, 2) == m * 100;
    HalfUpMeans(m * 100, 100, m);
  }

  /** The flat fee 9.90 of an ordinary currency, in minor units. */
  lemma OrdinaryFee(p: nat)
    requires p <= 4
    ensures Quantize(Dec(990, -2), p) == Ok(Dec(FlatFee(false, p), 0 - p))
  {
    FlatFeeSmall(false, p);
    assert Pow10(2) == 100;
    if p >= 2 {
      ShiftTwice(990, p - 2, 2);
      WholeHundred(Shift(990, p - 2));
    } else {
      ShiftTwice(1, 2 - p, p);
      HalfUpShift(990, Pow10(2 - p), p);
    }
  }

  /** The flat fee 990 of the yen. */
  lemma YenFee(p: nat)
    requires p <= 4
    ensures Quantize(Dec(990, 0), p) == Ok(Dec(FlatFee(true, p), 0 - p))
  {
    FlatFeeSmall(true, p);
  }

  lemma AgainstThreshold(w: nat, threshold: nat, p: nat)
    ensures GreaterOrEqual(Dec(w, 0 - p), Dec(threshold, 0)) <==> w >= Shift(threshold, p)
  {
    assert MinExp(Dec(w, 0 - p), Dec(threshold, 0)) == 0 - p;
    assert AtExp(Dec(w, 0 - p), 0 - p) == w;
  }

  lemma FeeRounded(w: nat, currency: string, p: nat)
    requires p <= 4
    ensures Quantize(ShippingFee(Dec(w, 0 - p), currency), p) == Ok(Dec(Fee(w, Upper(currency) == "JPY", p), 0 - p))
  {
    AgainstThreshold(w, 100, p);
    AgainstThreshold(w, 10000, p);
    OrdinaryFee(p);
    YenFee(p);
    ShiftZero(p);
    assert Quantize(ZERO, p) == Ok(Dec(0, 0 - p));
  }

  lemma SmallSum(a: nat, b: nat, p: nat)
    requires Digits(a + b) <= PRECISION
    ensures Add(Dec(a, 0 - p), Dec(b, 0 - p)) == Dec(a + b, 0 - p)
  {
    assert Shift(a, 0) == a && Shift(b, 0) == b;
  }

  /** Tax of a taxable amount below 10^15 is one half-up rounding of the exact product. */
  lemma TaxRounded(w: nat, t: nat, p: nat)
    requires Digits(w) <= 15 && Digits(t) <= 6
    ensures Quantize(Mul(Dec(w, 0 - p), Dec(t, -4)), p) == Ok(Dec(TaxOn(w, t), 0 - p))
    ensures Digits(TaxOn(w, t)) <= 21
  {
    ProductDigits(w, t, 15, 6);
    TimesIs(w, t);
    assert Mul(Dec(w, 0 - p), Dec(t, -4)) == Dec(w * t, 0 - p - 4);
    assert Pow10(4) == 10000;
    HalfUpAtMost(w * t, 10000);
    DigitsMonotone(TaxOn(w, t), w * t);
  }

  lemma SumDigits(x: nat, y: nat, k: nat)
    requires k >= 1 && Digits(x) <= k && Digits(y) <= k
    ensures Digits(x + y) <= k + 1
  {
    DigitsAtMost(x, k);
    DigitsAtMost(y, k);
    DigitsAtMost(x + y, k + 1);
  }

  lemma TaxedTotal(x: nat, t: nat, p: nat, tax: nat)
    requires Digits(x) <= 15 && Digits(t) <= 6 && tax == TaxOn(x, t)
    ensures Quantize(Mul(Dec(x, 0 - p), Dec(t, -4)), p) == Ok(Dec(tax, 0 - p))
    ensures Quantize(Add(Dec(x, 0 - p), Dec(tax, 0 - p)), p) == Ok(Dec(x + tax, 0 - p))
  {
    TaxRounded(x, t, p);
    WholeTotal(x, tax, p);
  }

  lemma WholeTotal(x: nat, tax: nat, p: nat)
    requires Digits(x) <= 15 && Digits(tax) <= 21
    ensures Quantize(Add(Dec(x, 0 - p), Dec(tax, 0 - p)), p) == Ok(Dec(x + tax, 0 - p))
  {
    SumDigits(x, tax, 21);
    SmallSum(x, tax, p);
    QuantizeFixed(Dec(x + tax, 0 - p), p);
  }

  lemma FeeFacts(w: nat, currency: string, jpy: bool, p: nat, fee: nat)
    requires Digits(w) <= 14 && p <= 4 && (jpy <==> Upper(currency) == "JPY") && fee == Fee(w, jpy, p)
    ensures Quantize(ShippingFee(Dec(w, 0 - p), currency), p) == Ok(Dec(fee, 0 - p))
    ensures Digits(w + fee) <= 15 && Add(Dec(w, 0 - p), Dec(fee, 0 - p)) == Dec(w + fee, 0 - p)
  {
    FeeRounded(w, currency, p);
    FlatFeeSmall(jpy, p);
    SumDigits(w, fee, 14);
    SmallSum(w, fee, p);
  }

  lemma TotalsFrom(s: Dec, region: Region, currency: string, p: nat, fee: Dec, taxable: Dec, tax: Dec, total: Dec)
    requires Quantize(ShippingFee(s, currency), p) == Ok(fee) && Add(s, fee) == taxable
    requires Quantize(Mul(taxable, region.taxRate), p) == Ok(tax)
    requires Quantize(Add(taxable, tax), p) == Ok(total)
    ensures Totals(s, region, currency, p) == Ok(Breakdown(Upper(currency), s, fee, tax, total))
  {
  }

  /** From a subtotal that fits its column on, every amount is exact: the outer roundings of
      subtotal and total change nothing. */
  lemma TotalsExact(w: nat, region: Region, currency: string, jpy: bool, p: nat, t: nat, fee: nat, x: nat, tax: nat)
    requires Digits(w) <= 14 && p <= 4 && region.taxRate == Dec(t, -4) && Digits(t) <= 6
    requires (jpy <==> Upper(currency) == "JPY") && fee == Fee(w, jpy, p) && x == w + fee && tax == TaxOn(x, t)
    ensures Totals(Dec(w, 0 - p), region, currency, p)
         == Ok(Breakdown(Upper(currency), Dec(w, 0 - p), Dec(fee, 0 - p), Dec(tax, 0 - p), Dec(x + tax, 0 - p)))
  {
    FeeFacts(w, currency, jpy, p, fee);
    BilledTotals(w, fee, x, region, currency, p, t, tax);
  }

  lemma BilledTotals(w: nat, fee: nat, x: nat, region: Region, currency: string, p: nat, t: nat, tax: nat)
    requires x == w + fee && Digits(x) <= 15 && region.taxRate == Dec(t, -4) && Digits(t) <= 6 && tax == TaxOn(x, t)
    requires Quantize(ShippingFee(Dec(w, 0 - p), currency), p) == Ok(Dec(fee, 0 - p))
    requires Add(Dec(w, 0 - p), Dec(fee, 0 - p)) == Dec(x, 0 - p)
    ensures Totals(Dec(w, 0 - p), region, currency, p)
         == Ok(Breakdown(Upper(currency), Dec(w, 0 - p), Dec(fee, 0 - p), Dec(tax, 0 - p), Dec(x + tax, 0 - p)))
  {
    TaxedTotal(x, t, p, tax);
    TotalsFrom(Dec(w, 0 - p), region, currency, p, Dec(fee, 0 - p), Dec(x, 0 - p), Dec(tax, 0 - p), Dec(x + tax, 0 - p));
  }

  lemma BillAsBreakdown(w: nat, t: nat, jpy: bool, p: nat, currency: string, fee: nat, x: nat, tax: nat)
    requires fee == Fee(w, jpy, p) && x == w + fee && tax == TaxOn(x, t)
    ensures BreakdownOf(currency, BillFor(w, t, jpy, p), p)
         == Breakdown(currency, Dec(w, 0 - p), Dec(fee, 0 - p), Dec(tax, 0 - p), Dec(x + tax, 0 - p))
  {
  }

  /** The bill of a subtotal that fits its column. */
  lemma TotalsAreBilled(w: nat, region: Region, currency: string, jpy: bool, p: nat, t: nat)
    requires Digits(w) <= 14 && p <= 4 && region.taxRate == Dec(t, -4) && Digits(t) <= 6
    requires jpy <==> Upper(currency) == "JPY"
    ensures Totals(Dec(w, 0 - p), region, currency, p) == Ok(BreakdownOf(Upper(currency), BillFor(w, t, jpy, p), p))
  {
    var fee := Fee(w, jpy, p);
    var x := w + fee;
    var tax := TaxOn(x, t);
    BillAsBreakdown(w, t, jpy, p, Upper(currency), fee, x, tax);
    TotalsExact(w, region, currency, jpy, p, t, fee, x, tax);
  }

  /** What a request is billed for a basket, in minor units. */
  function BillOf(catalog: Catalog, lines: seq<LineInput>, region: Region, currency: string): Bill {
    BillFor(Max(0, Worth(catalog, currency, lines)), Max(0, region.taxRate.coef), Upper(currency) == "JPY",
            DecimalPlaces(catalog.book, currency))
  }

  /** The two halves of a successful calculation. */
  lemma CalculationParts(catalog: Catalog, lines: seq<LineInput>, region: Region, currency: string, b: Breakdown)
    returns (acc: Dec)
    requires Calculated(catalog, lines, region, currency) == Ok(b)
    ensures Subtotal(catalog, lines, currency) == Ok(acc)
    ensures Quantize(acc, DecimalPlaces(catalog.book, currency)) == Ok(b.subtotal)
    ensures Totals(b.subtotal, region, currency, DecimalPlaces(catalog.book, currency)) == Ok(b)
  {
    acc := Subtotal(catalog, lines, currency).value;
  }

  /** Whenever a calculation succeeds, its subtotal is the exact worth of the basket. */
  lemma SubtotalExact(catalog: Catalog, lines: seq<LineInput>, region: Region, currency: string, b: Breakdown)
    requires SoundCatalog(catalog) && AllPositive(lines)
    requires Calculated(catalog, lines, region, currency) == Ok(b)
    ensures Worth(catalog, currency, lines) >= 0 && Digits(Worth(catalog, currency, lines)) <= PRECISION
    ensures b.subtotal == Dec(Worth(catalog, currency, lines), 0 - DecimalPlaces(catalog.book, currency))
    ensures Totals(b.subtotal, region, currency, DecimalPlaces(catalog.book, currency)) == Ok(b)
  {
    var acc := CalculationParts(catalog, lines, region, currency, b);
    SubtotalSums(catalog, lines, currency, acc);
    RoundedSubtotal(acc, Worth(catalog, currency, lines), DecimalPlaces(catalog.book, currency), b.subtotal);
  }

  /** A calculation whose subtotal fits its column is the exact bill of the basket's worth. */
  lemma CalculationExact(catalog: Catalog, lines: seq<LineInput>, region: Region, currency: string, b: Breakdown)
    requires SoundCatalog(catalog) && SoundRegion(region) && AllPositive(lines)
    requires Calculated(catalog, lines, region, currency) == Ok(b) && FitsMoneyColumn(b.subtotal)
    ensures Worth(catalog, currency, lines) >= 0 && Digits(Worth(catalog, currency, lines)) <= 14
    ensures b == BreakdownOf(Upper(currency), BillOf(catalog, lines, region, currency), DecimalPlaces(catalog.book, currency))
  {
    SubtotalExact(catalog, lines, region, currency, b);
    ExactFromSubtotal(Worth(catalog, currency, lines), region, currency, DecimalPlaces(catalog.book, currency), b);
  }

  lemma ExactFromSubtotal(w: nat, region: Region, currency: string, p: nat, b: Breakdown)
    requires p <= 4 && SoundRegion(region) && b.subtotal == Dec(w, 0 - p) && FitsMoneyColumn(b.subtotal)
    requires Totals(b.subtotal, region, currency, p) == Ok(b)
    ensures Digits(w) <= 14
    ensures b == BreakdownOf(Upper(currency), BillFor(w, region.taxRate.coef, Upper(currency) == "JPY", p), p)
  {
    FitsExactly(w, p);
    TotalsAreBilled(w, region, currency, Upper(currency) == "JPY", p, region.taxRate.coef);
  }

  /** Conversely, a basket of priced variants whose worth has at most 14 digits is calculated, and
      billed exactly. */
  lemma CalculationSucceeds(catalog: Catalog, lines: seq<LineInput>, region: Region, currency: string, w: int, p: nat)
    requires SoundCatalog(catalog) && SoundRegion(region) && AllPositive(lines)
    requires forall i :: 0 <= i < |lines| ==> Priced(catalog, currency, lines[i].variantId)
    requires w == Worth(catalog, currency, lines) && Digits(Abs(w)) <= 14 && p == DecimalPlaces(catalog.book, currency)
    ensures w >= 0
    ensures Calculated(catalog, lines, region, currency)
         == Ok(BreakdownOf(Upper(currency), BillFor(w, region.taxRate.coef, Upper(currency) == "JPY", p), p))
  {
    SubtotalPriced(catalog, lines, currency);
    var acc := Subtotal(catalog, lines, currency).value;
    SubtotalSums(catalog, lines, currency, acc);
    ExactSubtotal(acc, w, p);
    TotalsAreBilled(w, region, currency, Upper(currency) == "JPY", p, region.taxRate.coef);
  }

  /** A bill of w minor units: shipping is free from 100 on, and from 10000 on in yen, and otherwise
      costs 9.90, or 990 yen, half up to minor units; tax is the rate, in ten-thousandths, times
      subtotal and fee, half up; the total is their sum. */
  lemma BillMeans(w: nat, t: nat, jpy: bool, p: nat)
    ensures var bill, one := BillFor(w, t, jpy, p), Pow10(p);
      && bill.subtotal == w && bill.total == w + bill.fee + bill.tax
      && (w >= (if jpy then 10000 else 100) * one ==> bill.fee == 0)
      && (w < 10000 * one && jpy ==> bill.fee == 990 * one)
      && (w < 100 * one && !jpy ==> -100 <= 2 * (990 * one - 100 * bill.fee) < 100)
      && -10000 <= 2 * ((w + bill.fee) * t - 10000 * bill.tax) < 10000
  {
    ShiftTimes(if jpy then 10000 else 100, p);
    ShiftTimes(990, p);
    if !jpy {
      HalfUpMeans(Shift(990, p), 100, FlatFee(jpy, p));
    }
    TaxRounding(w + Fee(w, jpy, p), t);
  }

  lemma TaxRounding(x: nat, t: nat)
    ensures -10000 <= 2 * (x * t - 10000 * TaxOn(x, t)) < 10000
  {
    TimesIs(x, t);
    HalfUpMeans(x * t, 10000, TaxOn(x, t));
  }

 // ----- only the demand per variant matters -----

  predicate Priced(catalog: Catalog, currency: string, v: VariantId) {
    v in catalog.variants ==> UnitPrice(catalog, catalog.variants[v], currency).Ok?
  }

  lemma {:induction false} SubtotalPriced(catalog: Catalog, lines: seq<LineInput>, currency: string)
    ensures Subtotal(catalog, lines, currency).Ok?
        <==> forall i :: 0 <= i < |lines| ==> Priced(catalog, currency, lines[i].variantId)
  {
    if lines != [] {
      var n := |lines| - 1;
      SubtotalPriced(catalog, lines[..n], currency);
      assert forall i :: 0 <= i < n ==> lines[i] == lines[..n][i];
    }
  }

  /** Every calculation that succeeds depends on the basket only through the demand per variant. */
  lemma CalculationByDemand(catalog: Catalog, a: seq<LineInput>, b: seq<LineInput>, region: Region, currency: string, r: Breakdown)
    requires SoundCatalog(catalog) && AllPositive(a) && AllPositive(b) && SameDemand(a, b)
    requires Calculated(catalog, a, region, currency) == Ok(r)
    ensures Calculated(catalog, b, region, currency) == Ok(r)
  {
    SubtotalExact(catalog, a, region, currency, r);
    WeighByDemand(PriceList(catalog, currency), a, b);
    SameVariantsPriced(catalog, a, b, currency);
    SubtotalByWorth(catalog, b, currency, Worth(catalog, currency, b));
  }

  lemma SameVariantsPriced(catalog: Catalog, a: seq<LineInput>, b: seq<LineInput>, currency: string)
    requires AllPositive(a) && AllPositive(b) && SameDemand(a, b) && Subtotal(catalog, a, currency).Ok?
    ensures Subtotal(catalog, b, currency).Ok?
  {
    SubtotalPriced(catalog, a, currency);
    SubtotalPriced(catalog, b, currency);
    forall i | 0 <= i < |b|
      ensures Priced(catalog, currency, b[i].variantId)
    {
      var v := b[i].variantId;
      assert Mentions(b, v);
      DemandMentioned(b, v);
      assert Demand(a, v) == Demand(b, v);
      DemandMentioned(a, v);
    }
  }

  lemma SubtotalByWorth(catalog: Catalog, lines: seq<LineInput>, currency: string, w: nat)
    requires SoundCatalog(catalog) && AllPositive(lines) && Subtotal(catalog, lines, currency).Ok?
    requires w == Worth(catalog, currency, lines) && Digits(w) <= PRECISION
    ensures var p := DecimalPlaces(catalog.book, currency);
            Quantize(Subtotal(catalog, lines, currency).value, p) == Ok(Dec(w, 0 - p))
  {
    SubtotalSums(catalog, lines, currency, Subtotal(catalog, lines, currency).value);
    ExactSubtotal(Subtotal(catalog, lines, currency).value, w, DecimalPlaces(catalog.book, currency));
  }

  // ----- growing baskets -----

  lemma HalfUpOfSum(a: nat, b: nat, d: nat)
    requires d > 0
    ensures HalfUpNat(a + b, d) <= HalfUpNat(a, d) + HalfUpNat(b, d) + 1
  {
    var x, y, z := HalfUpNat(a, d), HalfUpNat(b, d), HalfUpNat(a + b, d);
    HalfUpMeans(a, d, x);
    HalfUpMeans(b, d, y);
    HalfUpMeans(a + b, d, z);
    Spread(x, y, d);
    Spread(x + y, 2, d);
    if z >= x + y + 2 {
      MulMonotone(x + y + 2, z, d);
    }
  }

  lemma TaxFromProduct(n: nat, p: nat, tax: Dec)
    requires Quantize(FixNat(n, 0 - p - 4), p) == Ok(tax)
    ensures tax == Dec(HalfUpNat(Blurred(n, 0 - p - 4), 10000), 0 - p)
  {
    var y := FixNat(n, 0 - p - 4);
    FixKeepsExponent(n, 0 - p - 4);
    assert Pow10(4) == 10000;
    if y.exp + p >= 0 {
      ShiftTwice(y.coef, y.exp + p, 4);
      ShiftTimes(Shift(y.coef, y.exp + p), 4);
      HalfUpExact(Shift(y.coef, y.exp + p), 10000);
    } else {
      FixFits(n, 0 - p - 4);
      QuantizeByValue(y, p + 4, p, Blurred(n, 0 - p - 4));
    }
  }

  lemma BelowLine(w: nat, jpy: bool, p: nat)
    requires p <= 4 && w < FreeShippingFrom(jpy, p)
    ensures Digits(w) <= 14
  {
    ShiftTwice(100, p, 4 - p);
    ShiftTwice(10000, p, 4 - p);
    ShiftTwice(1, 4, 4);
    assert Pow10(4) == 10000 && Pow10(2) == 100;
    ShiftTwice(1, 2, 4);
    PowMonotone(6, 14);
    PowMonotone(8, 14);
    DigitsAtMost(w, 14);
  }

  lemma TaxableSum(w: nat, currency: string, jpy: bool, p: nat, fee: nat)
    requires Digits(w) <= PRECISION && p <= 4 && (jpy <==> Upper(currency) == "JPY") && fee == Fee(w, jpy, p)
    ensures Quantize(ShippingFee(Dec(w, 0 - p), currency), p) == Ok(Dec(fee, 0 - p))
    ensures Add(Dec(w, 0 - p), Dec(fee, 0 - p)) == Dec(w + fee, 0 - p)
  {
    if w < FreeShippingFrom(jpy, p) {
      BelowLine(w, jpy, p);
      FeeFacts(w, currency, jpy, p, fee);
    } else {
      FreeFrom(w, currency, jpy, p);
    }
  }

  lemma FreeFrom(w: nat, currency: string, jpy: bool, p: nat)
    requires Digits(w) <= PRECISION && p <= 4 && (jpy <==> Upper(currency) == "JPY") && w >= FreeShippingFrom(jpy, p)
    ensures Quantize(ShippingFee(Dec(w, 0 - p), currency), p) == Ok(Dec(0, 0 - p))
    ensures Add(Dec(w, 0 - p), Dec(0, 0 - p)) == Dec(w, 0 - p)
  {
    FeeRounded(w, currency, p);
    SmallSum(w, 0, p);
  }

  lemma SumOfUnits(x: nat, y: nat, p: nat)
    ensures Add(Dec(x, 0 - p), Dec(y, 0 - p)) == Fix(Dec(x + y, 0 - p))
  {
    assert Shift(x, 0) == x && Shift(y, 0) == y;
  }

  /** The tax and the total of a taxable amount, as they are computed. */
  predicate TaxedFrom(r: Breakdown, taxable: Dec, rate: Dec, p: nat) {
    Quantize(Mul(taxable, rate), p) == Ok(r.tax) && Quantize(Add(taxable, r.tax), p) == Ok(r.total)
  }

  lemma TotalsParts(s: Dec, region: Region, currency: string, p: nat, fee: Dec, taxable: Dec, r: Breakdown)
    requires Totals(s, region, currency, p) == Ok(r)
    requires Quantize(ShippingFee(s, currency), p) == Ok(fee) && Add(s, fee) == taxable
    ensures TaxedFrom(r, taxable, region.taxRate, p)
  {
  }

  /** The tax whose exact product is n, as it is computed: cut to 28 digits, then rounded. */
  function CutTax(n: nat, p: nat): nat {
    HalfUpNat(Blurred(n, 0 - p - 4), 10000)
  }

  lemma CutTaxMonotone(m: nat, n: nat, p: nat)
    requires m <= n
    ensures CutTax(m, p) <= CutTax(n, p)
  {
    BlurredMonotone(m, n, 0 - p - 4);
    HalfUpMonotone(Blurred(m, 0 - p - 4), Blurred(n, 0 - p - 4), 10000);
  }

  lemma ShortCutTax(n: nat, p: nat)
    requires Digits(n) <= PRECISION
    ensures CutTax(n, p) == HalfUpNat(n, 10000)
  {
    BlurredShort(n, 0 - p - 4);
  }

  lemma TaxIs(x: nat, t: nat, p: nat, r: Breakdown)
    requires TaxedFrom(r, Dec(x, 0 - p), Dec(t, -4), p)
    ensures r.tax == Dec(CutTax(Times(x, t), p), 0 - p)
  {
    TimesIs(x, t);
    assert Mul(Dec(x, 0 - p), Dec(t, -4)) == FixNat(Times(x, t), 0 - p - 4);
    TaxFromProduct(Times(x, t), p, r.tax);
  }

  lemma ExactSum(x: nat, tax: nat, p: nat, total: Dec)
    requires Quantize(Add(Dec(x, 0 - p), Dec(tax, 0 - p)), p) == Ok(total)
    ensures total == Dec(x + tax, 0 - p)
  {
    SumOfUnits(x, tax, p);
    FixedAmount(x + tax, p);
    RoundedSubtotal(Add(Dec(x, 0 - p), Dec(tax, 0 - p)), x + tax, p, total);
  }

  lemma TimesMonotone(x: nat, y: nat, t: nat)
    requires x <= y
    ensures Times(x, t) <= Times(y, t)
  {
    TimesIs(x, t);
    TimesIs(y, t);
    MulMonotone(x, y, t);
  }

  lemma ShortTimes(x: nat, t: nat)
    requires Digits(x) <= 15 && Digits(t) <= 6
    ensures Digits(Times(x, t)) <= PRECISION
  {
    TimesIs(x, t);
    ProductDigits(x, t, 15, 6);
  }

  /** Rounding the tax of two parts separately loses at most one minor unit. */
  lemma TaxOfSum(w: nat, f: nat, t: nat)
    ensures TaxOn(w + f, t) <= TaxOn(w, t) + TaxOn(f, t) + 1
  {
    TimesIs(w, t);
    TimesIs(f, t);
    TimesIs(w + f, t);
    Spread(w, f, t);
    HalfUpOfSum(Times(w, t), Times(f, t), 10000);
  }

  /** How totals compare when the subtotal grows from w to x: they grow, unless the line is
      crossed; then they drop by less than the bound. */
  predicate GrowsUpToLine(before: int, after: int, w: int, x: int, line: int, bound: int) {
    if w < line <= x then before < after + bound else before <= after
  }

  /** The fee that line and flat fee prescribe. */
  predicate Taxable(w: nat, taxable: nat, line: int, flat: nat) {
    taxable == w + if w >= line then 0 else flat
  }

  /** A way of taxing, as far as totals depend on it: it grows with the taxable amount and is the
      exact rounding on all but huge amounts. */
  ghost predicate TaxRule(rule: nat -> nat, t: nat) {
    (forall m: nat, n: nat :: m <= n ==> rule(m) <= rule(n))
    && forall n: nat :: Digits(n) <= 15 ==> rule(n) == TaxOn(n, t)
  }

  /** Every total of p decimals that is calculated at this rate follows the rule. */
  ghost predicate Follows(rule: nat -> nat, rate: Dec, p: nat) {
    forall x: nat, r: Breakdown :: TaxedFrom(r, Dec(x, 0 - p), rate, p) ==> r.total.coef == x + rule(x)
  }

  function ComputedTax(t: nat, p: nat): nat -> nat {
    (x: nat) => CutTax(Times(x, t), p)
  }

  lemma ComputedTaxIsRule(t: nat, p: nat)
    requires Digits(t) <= 6
    ensures TaxRule(ComputedTax(t, p), t)
  {
    forall m: nat, n: nat | m <= n
      ensures ComputedTax(t, p)(m) <= ComputedTax(t, p)(n)
    {
      TimesMonotone(m, n, t);
      CutTaxMonotone(Times(m, t), Times(n, t), p);
    }
    forall n: nat | Digits(n) <= 15
      ensures ComputedTax(t, p)(n) == TaxOn(n, t)
    {
      ShortTimes(n, t);
      ShortCutTax(Times(n, t), p);
    }
  }

  lemma TotalsFollowRule(t: nat, p: nat)
    ensures Follows(ComputedTax(t, p), Dec(t, -4), p)
  {
    forall x: nat, r: Breakdown | TaxedFrom(r, Dec(x, 0 - p), Dec(t, -4), p)
      ensures r.total.coef == x + ComputedTax(t, p)(x)
    {
      TaxIs(x, t, p, r);
      ExactSum(x, r.tax.coef, p, r.total);
    }
  }

  lemma SomeTaxRule(t: nat, p: nat) returns (rule: nat -> nat)
    requires Digits(t) <= 6
    ensures TaxRule(rule, t) && Follows(rule, Dec(t, -4), p)
  {
    rule := ComputedTax(t, p);
    ComputedTaxIsRule(t, p);
    TotalsFollowRule(t, p);
  }

  /** A larger subtotal never lowers the total, unless it crosses the free-shipping line; then
      the total drops by less than the flat fee, its tax and one minor unit. */
  lemma ChargesGrow(w: nat, x: nat, line: int, flat: nat, taxable: nat, later: nat, t: nat, rule: nat -> nat)
    requires w <= x && TaxRule(rule, t) && Digits(flat) <= 7 && (w < line ==> Digits(w) <= 14)
    requires Taxable(w, taxable, line, flat) && Taxable(x, later, line, flat)
    ensures GrowsUpToLine(taxable + rule(taxable), later + rule(later), w, x, line, flat + TaxOn(flat, t) + 1)
  {
    if w < line <= x {
      SumDigits(w, flat, 14);
      TaxOfSum(w, flat, t);
      assert rule(w) <= rule(x);
    }
  }

  /** More of everything is worth at least as much. */
  lemma WorthGrows(catalog: Catalog, currency: string, a: seq<LineInput>, b: seq<LineInput>)
    requires SoundCatalog(catalog) && AllPositive(a) && AllPositive(b)
    requires forall v: VariantId :: Demand(a, v) <= Demand(b, v)
    ensures Worth(catalog, currency, a) <= Worth(catalog, currency, b)
  {
    forall v: VariantId
      ensures PriceList(catalog, currency)(v) >= 0
    {
      PriceNonNegative(catalog, currency, v);
    }
    WeighGrows(PriceList(catalog, currency), a, b);
  }

  lemma WorthNonNegative(catalog: Catalog, currency: string, lines: seq<LineInput>)
    requires SoundCatalog(catalog) && AllPositive(lines)
    ensures Worth(catalog, currency, lines) >= 0
  {
    WorthGrows(catalog, currency, [], lines);
  }

  lemma PriceNonNegative(catalog: Catalog, currency: string, v: VariantId)
    requires SoundCatalog(catalog)
    ensures Price(catalog, currency, v) >= 0
  {
    if v in catalog.variants && UnitPrice(catalog, catalog.variants[v], currency).Ok? {
      UnitPriceWhole(catalog, catalog.variants[v], currency);
    }
  }

  /** Increasing quantities never lowers what `calculate` charges, except across the
      free-shipping line, and then by less than the flat fee, its tax and one minor unit. */
  lemma CalculationGrows(catalog: Catalog, a: seq<LineInput>, b: seq<LineInput>, region: Region, currency: string, r: Breakdown, s: Breakdown)
    requires SoundCatalog(catalog) && SoundRegion(region) && AllPositive(a) && AllPositive(b)
    requires forall v: VariantId :: Demand(a, v) <= Demand(b, v)
    requires Calculated(catalog, a, region, currency) == Ok(r) && Calculated(catalog, b, region, currency) == Ok(s)
    ensures var p, jpy := DecimalPlaces(catalog.book, currency), Upper(currency) == "JPY";
            var flat := FlatFee(jpy, p);
      GrowsUpToLine(r.total.coef, s.total.coef, r.subtotal.coef, s.subtotal.coef,
                    FreeShippingFrom(jpy, p), flat + TaxOn(flat, region.taxRate.coef) + 1)
  {
    var p, jpy, t := DecimalPlaces(catalog.book, currency), Upper(currency) == "JPY", region.taxRate.coef;
    var line, flat := FreeShippingFrom(jpy, p), FlatFee(jpy, p);
    WorthGrows(catalog, currency, a, b);
    var rule := SomeTaxRule(t, p);
    var taxable := BasketCharged(catalog, a, region, currency, r, jpy, p, line, flat, rule);
    var later := BasketCharged(catalog, b, region, currency, s, jpy, p, line, flat, rule);
    ChargesGrow(r.subtotal.coef, s.subtotal.coef, line, flat, taxable, later, t, rule);
  }

  /** What a basket is charged, in terms of its taxable amount. */
  lemma BasketCharged(catalog: Catalog, lines: seq<LineInput>, region: Region, currency: string, b: Breakdown,
                      jpy: bool, p: nat, line: int, flat: nat, rule: nat -> nat)
    returns (taxable: nat)
    requires SoundCatalog(catalog) && AllPositive(lines) && Calculated(catalog, lines, region, currency) == Ok(b)
    requires (jpy <==> Upper(currency) == "JPY") && p == DecimalPlaces(catalog.book, currency)
    requires line == FreeShippingFrom(jpy, p) && flat == FlatFee(jpy, p) && Follows(rule, region.taxRate, p)
    ensures b.subtotal.coef == Worth(catalog, currency, lines) >= 0
    ensures Taxable(b.subtotal.coef, taxable, line, flat) && b.total.coef == taxable + rule(taxable)
    ensures Digits(flat) <= 7 && (b.subtotal.coef < line ==> Digits(b.subtotal.coef) <= 14)
  {
    var w := Worth(catalog, currency, lines);
    WorthNonNegative(catalog, currency, lines);
    var fee := TariffFacts(w, jpy, p, line, flat);
    taxable := w + fee;
    BasketTaxed(catalog, lines, region, currency, b, jpy, p, w, fee, taxable, rule);
  }

  lemma BasketTaxed(catalog: Catalog, lines: seq<LineInput>, region: Region, currency: string, b: Breakdown,
                    jpy: bool, p: nat, w: nat, fee: nat, taxable: nat, rule: nat -> nat)
    requires SoundCatalog(catalog) && AllPositive(lines) && Calculated(catalog, lines, region, currency) == Ok(b)
    requires (jpy <==> Upper(currency) == "JPY") && p == DecimalPlaces(catalog.book, currency)
    requires w == Worth(catalog, currency, lines) && fee == Fee(w, jpy, p) && taxable == w + fee
    requires Follows(rule, region.taxRate, p)
    ensures b.subtotal == Dec(w, 0 - p) && b.total.coef == taxable + rule(taxable)
  {
    SubtotalExact(catalog, lines, region, currency, b);
    TotalsFollow(w, region, currency, jpy, p, fee, taxable, rule, b);
  }

  lemma TotalsFollow(w: nat, region: Region, currency: string, jpy: bool, p: nat, fee: nat, taxable: nat, rule: nat -> nat, r: Breakdown)
    requires Digits(w) <= PRECISION && p <= 4 && (jpy <==> Upper(currency) == "JPY")
    requires fee == Fee(w, jpy, p) && taxable == w + fee && Follows(rule, region.taxRate, p)
    requires Totals(Dec(w, 0 - p), region, currency, p) == Ok(r)
    ensures r.total.coef == taxable + rule(taxable)
  {
    TaxableSum(w, currency, jpy, p, fee);
    PartsFollow(Dec(w, 0 - p), region, currency, p, Dec(fee, 0 - p), taxable, rule, r);
  }

  lemma PartsFollow(s: Dec, region: Region, currency: string, p: nat, fee: Dec, x: nat, rule: nat -> nat, r: Breakdown)
    requires Totals(s, region, currency, p) == Ok(r) && Follows(rule, region.taxRate, p)
    requires Quantize(ShippingFee(s, currency), p) == Ok(fee) && Add(s, fee) == Dec(x, 0 - p)
    ensures r.total.coef == x + rule(x)
  {
    TotalsParts(s, region, currency, p, fee, Dec(x, 0 - p), r);
    RuleApplies(rule, region.taxRate, p, x, r);
  }

  lemma RuleApplies(rule: nat -> nat, rate: Dec, p: nat, x: nat, r: Breakdown)
    requires Follows(rule, rate, p) && TaxedFrom(r, Dec(x, 0 - p), rate, p)
    ensures r.total.coef == x + rule(x)
  {
  }

  lemma TariffFacts(w: nat, jpy: bool, p: nat, line: int, flat: nat) returns (fee: nat)
    requires p <= 4 && line == FreeShippingFrom(jpy, p) && flat == FlatFee(jpy, p)
    ensures fee == Fee(w, jpy, p) && Taxable(w, w + fee, line, flat)
    ensures Digits(flat) <= 7 && (w < line ==> Digits(w) <= 14)
  {
    fee := Fee(w, jpy, p);
    FlatFeeSmall(jpy, p);
    if w < line {
      BelowLine(w, jpy, p);
    }
  }
}
