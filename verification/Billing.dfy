/** Which region and which prices a cart is billed with, from its quote to the stored order. */
module Billing {
  import opened Prelude
  import opened Arith
  import opened Decimals
  import opened Currency
  import opened Conversion
  import opened Lines
  import opened Stock
  import opened Orders
  import opened Pricing
  import opened PricingLaws
  import opened Tables
  import opened Carts
  import opened Checkout
  import opened Api
  import opened Invariant
  import opened CheckoutLaws
  import opened Amounts

  // ----- the region that rules a cart -----

  /** The four amounts of the bill, at the region's tax rate, in a currency with p decimals. */
  ghost predicate BilledIn(region: Region, worth: nat, currency: string, p: nat, b: Breakdown) {
    && region.taxRate.coef >= 0
    && var bill := BillFor(worth, region.taxRate.coef, Upper(currency) == "JPY", p);
    && b.subtotal == Dec(worth, 0 - p) && b.shippingFee == Dec(bill.fee, 0 - p)
    && b.tax == Dec(bill.tax, 0 - p) && b.total == Dec(bill.total, 0 - p)
  }

  lemma CalculatedIsBilled(catalog: Catalog, lines: seq<LineInput>, region: Region, currency: string, b: Breakdown)
    requires SoundCatalog(catalog) && SoundRegion(region) && AllPositive(lines)
    requires Calculated(catalog, lines, region, currency) == Ok(b) && FitsMoneyColumn(b.subtotal)
    ensures Worth(catalog, currency, lines) >= 0
    ensures BilledIn(region, Worth(catalog, currency, lines), currency, DecimalPlaces(catalog.book, currency), b)
  {
    CalculationExact(catalog, lines, region, currency, b);
  }

  function Charged(head: OrderHead): Breakdown {
    Breakdown(head.currency, head.subtotal, head.shippingFee, head.tax, head.total)
  }

  lemma DraftIsRuled(db: Database, a: CheckoutArgs, cart: CartRow, draft: OrderRow) returns (region: Region)
    requires SoundCatalog(a.catalog) && AllPositive(CartInputs(cart.lines))
    requires DraftOrder(db, a, cart) == Ok(draft) && FitsMoneyColumn(draft.head.subtotal)
    ensures Rules(a.catalog, cart.region, region) && draft.head.region == region.code
    ensures Worth(a.catalog, cart.currency, CartInputs(cart.lines)) >= 0
    ensures BilledIn(region, Worth(a.catalog, cart.currency, CartInputs(cart.lines)), cart.currency,
                     DecimalPlaces(a.catalog.book, cart.currency), Charged(draft.head))
  {
    DraftParts(db, a, cart, draft);
    region := ResolveRegion(a.catalog, cart.region).value;
    ResolvedRegionSound(a.catalog, cart.region);
    CalculatedIsBilled(a.catalog, CartInputs(cart.lines), region, cart.currency,
                       Calculated(a.catalog, CartInputs(cart.lines), region, cart.currency).value);
  }

  /** Every placed order records the region its cart names, when that is configured, and otherwise
      the fallback, and is charged the exact bill at that region's tax rate. */
  lemma OrderIsTaxedInItsRegion(st: State, a: CheckoutArgs) returns (region: Region)
    requires Inv(st) && SoundCatalog(a.catalog) && !IsReplay(st.db, a) && CheckedOut(st, a).1.Ok?
    ensures a.token in st.db.carts && |CheckedOut(st, a).0.db.orders| == |st.db.orders| + 1
    ensures var cart, head := st.db.carts[a.token], CheckedOut(st, a).0.db.orders[|st.db.orders|].head;
            var worth := Worth(a.catalog, cart.currency, CartInputs(cart.lines));
      && Rules(a.catalog, cart.region, region) && head.region == region.code
      && worth >= 0 && BilledIn(region, worth, cart.currency, DecimalPlaces(a.catalog.book, cart.currency), Charged(head))
  {
    var cart, draft := PlacingGives(st, a);
    region := DraftIsRuled(st.db, a, cart, draft);
  }

  /** The cart page quotes the same bill in the same region. */
  lemma QuoteIsTaxedInItsRegion(st: State, catalog: Catalog, token: string, now: int, quote: Breakdown) returns (region: Region)
    requires Inv(st) && SoundCatalog(catalog)
    requires CartTotals(st.db.carts, catalog, token, now) == Ok(quote) && FitsMoneyColumn(quote.subtotal)
    ensures token in st.db.carts
    ensures var cart := st.db.carts[token];
            var worth := Worth(catalog, cart.currency, CartInputs(cart.lines));
      && Rules(catalog, cart.region, region)
      && worth >= 0 && BilledIn(region, worth, cart.currency, DecimalPlaces(catalog.book, cart.currency), quote)
  {
    var cart := st.db.carts[token];
    region := ResolveRegion(catalog, cart.region).value;
    ResolvedRegionSound(catalog, cart.region);
    DemandIsContent(cart, 0);
    CalculatedIsBilled(catalog, CartInputs(cart.lines), region, cart.currency, quote);
  }

  /** An open cart is priced in the region that rules it. */
  lemma CartIsPricedInItsRegion(carts: map<string, CartRow>, catalog: Catalog, token: string, now: int, region: Region)
    requires ActiveCart(carts, token, now).Ok? && Rules(catalog, carts[token].region, region)
    ensures CartTotals(carts, catalog, token, now)
         == Calculated(catalog, CartInputs(carts[token].lines), region, carts[token].currency)
  {
  }

  // ----- which requests fail for want of a region -----

  lemma {:induction false} SubtotalNeedsNoRegion(catalog: Catalog, lines: seq<LineInput>, currency: string)
    ensures Subtotal(catalog, lines, currency).Err? ==>
      Subtotal(catalog, lines, currency).error in {ExchangeRateUnavailable, InvalidDecimalOperation}
  {
    if lines != [] {
      SubtotalNeedsNoRegion(catalog, lines[..|lines| - 1], currency);
    }
  }

  lemma CalculatedNeedsNoRegion(catalog: Catalog, lines: seq<LineInput>, region: Region, currency: string)
    ensures Calculated(catalog, lines, region, currency).Err? ==>
      Calculated(catalog, lines, region, currency).error in {ExchangeRateUnavailable, InvalidDecimalOperation}
  {
    SubtotalNeedsNoRegion(catalog, lines, currency);
  }

  lemma {:induction false} SnapshotNeedsNoRegion(catalog: Catalog, lines: seq<CartLine>, currency: string)
    ensures SnapshotLines(catalog, lines, currency).Err? ==>
      SnapshotLines(catalog, lines, currency).error in {VariantNotFound, ExchangeRateUnavailable, InvalidDecimalOperation}
  {
    if lines != [] {
      SnapshotNeedsNoRegion(catalog, lines[..|lines| - 1], currency);
    }
  }

  lemma DraftErrors(db: Database, a: CheckoutArgs, cart: CartRow)
    ensures DraftOrder(db, a, cart).Err? ==>
      if Ungoverned(a.catalog, cart.region) then DraftOrder(db, a, cart).error == NoRegionConfigured
      else DraftOrder(db, a, cart).error in {VariantNotFound, ExchangeRateUnavailable, InvalidDecimalOperation}
    ensures Ungoverned(a.catalog, cart.region) ==> DraftOrder(db, a, cart).Err?
  {
    if !Ungoverned(a.catalog, cart.region) {
      var region := ResolveRegion(a.catalog, cart.region).value;
      CalculatedNeedsNoRegion(a.catalog, CartInputs(cart.lines), region, cart.currency);
      SnapshotNeedsNoRegion(a.catalog, cart.lines, cart.currency);
    }
  }

  /** Only a cart that nothing rules is refused for want of a region, on the cart page and at
      checkout. */
  lemma NoRegionIff(st: State, catalog: Catalog, token: string, now: int, a: CheckoutArgs)
    requires ActiveCart(st.db.carts, token, now).Ok?
    requires a.token == token && a.now == now && a.catalog == catalog && !IsReplay(st.db, a) && st.db.carts[token].lines != []
    ensures CartTotals(st.db.carts, catalog, token, now) == Err(NoRegionConfigured) <==> Ungoverned(catalog, st.db.carts[token].region)
    ensures CheckedOut(st, a).1 == Err(NoRegionConfigured) <==> Ungoverned(catalog, st.db.carts[token].region)
  {
    var cart := st.db.carts[token];
    DraftErrors(st.db, a, cart);
    ReserveAllExact(st.db.rows, CartInputs(cart.lines));
    if !Ungoverned(catalog, cart.region) {
      CalculatedNeedsNoRegion(catalog, CartInputs(cart.lines), ResolveRegion(catalog, cart.region).value, cart.currency);
    }
  }

  lemma {:induction false} OnlyStockRefuses(rows: Rows, lines: seq<LineInput>)
    requires AllPositive(lines)
    ensures ApplyAll(rows, ReserveOps(lines)).Err? ==> ApplyAll(rows, ReserveOps(lines)).error == InsufficientStock
  {
    if lines != [] {
      var n := |lines| - 1;
      OnlyStockRefuses(rows, lines[..n]);
      assert ReserveOps(lines)[..n] == ReserveOps(lines[..n]);
    }
  }

  lemma ReservingFails(db: Database, a: CheckoutArgs, cart: CartRow)
    requires SoundCart(cart) && SoundCatalog(a.catalog) && ActiveCart(db.carts, a.token, a.now) == Ok(cart)
    requires cart.lines != [] && Payable(a.catalog, cart)
    ensures !ContentAvailableIn(db.rows, cart.lines) ==> Reserving(db, a) == Err(InsufficientStock)
    ensures ContentAvailableIn(db.rows, cart.lines) && !NamesAreFree(db.orders, a) ==> Reserving(db, a) == Err(IntegrityError)
    ensures ContentAvailableIn(db.rows, cart.lines) && NamesAreFree(db.orders, a) && a.provider != "mock" ==>
      Reserving(db, a) == Err(UnknownPaymentProvider)
  {
    DemandIsContent(cart, 0);
    OnlyStockRefuses(db.rows, CartInputs(cart.lines));
    ReserveAllExact(db.rows, CartInputs(cart.lines));
    ReservableIff(db.rows, cart);
    PayableDrafts(db, a, cart, DecimalPlaces(a.catalog.book, cart.currency));
    DraftNames(db, a, cart);
    NamesAreFreeIff(db.orders, a, DraftOrder(db, a, cart).value);
  }

  lemma ClosedCartFails(st: State, a: CheckoutArgs)
    requires !IsReplay(st.db, a)
    ensures ActiveCart(st.db.carts, a.token, a.now).Err? ==>
      CheckedOut(st, a).1 == Err(ActiveCart(st.db.carts, a.token, a.now).error)
    ensures ActiveCart(st.db.carts, a.token, a.now).Ok? && st.db.carts[a.token].lines == [] ==> CheckedOut(st, a).1 == Err(CartEmpty)
  {
  }

  /** The guards of a checkout in the order in which they refuse it, each with its error. */
  lemma CheckoutRefusals(st: State, a: CheckoutArgs)
    requires Inv(st) && SoundCatalog(a.catalog) && !IsReplay(st.db, a)
    ensures var r, open := CheckedOut(st, a).1, ActiveCart(st.db.carts, a.token, a.now);
      if open.Err? then r == Err(open.error)
      else
        var cart := open.value;
        if cart.lines == [] then r == Err(CartEmpty)
        else if Ungoverned(a.catalog, cart.region) then r == Err(NoRegionConfigured)
        else if !AllSellable(a.catalog, cart.currency, cart.lines) then
          r.Err? && r.error in {VariantNotFound, ExchangeRateUnavailable, InvalidDecimalOperation}
        else if !Payable(a.catalog, cart) then
          r.Err? && r.error in {InvalidDecimalOperation, InsufficientStock, IntegrityError, ColumnOverflow}
        else if !ContentAvailableIn(st.db.rows, cart.lines) then r == Err(InsufficientStock)
        else if !NamesAreFree(st.db.orders, a) then r == Err(IntegrityError)
        else if a.provider != "mock" then r == Err(UnknownPaymentProvider)
        else r == Ok(|st.db.orders|)
  {
    ClosedCartFails(st, a);
    if ActiveCart(st.db.carts, a.token, a.now).Ok? && st.db.carts[a.token].lines != [] {
      OpenCartFails(st, a, st.db.carts[a.token]);
    }
  }

  lemma OpenCartFails(st: State, a: CheckoutArgs, cart: CartRow)
    requires Inv(st) && SoundCatalog(a.catalog) && !IsReplay(st.db, a)
    requires ActiveCart(st.db.carts, a.token, a.now) == Ok(cart) && cart.lines != []
    ensures var r := CheckedOut(st, a).1;
      if Ungoverned(a.catalog, cart.region) then r == Err(NoRegionConfigured)
      else if !AllSellable(a.catalog, cart.currency, cart.lines) then
        r.Err? && r.error in {VariantNotFound, ExchangeRateUnavailable, InvalidDecimalOperation}
      else if !Payable(a.catalog, cart) then
        r.Err? && r.error in {InvalidDecimalOperation, InsufficientStock, IntegrityError, ColumnOverflow}
      else if !ContentAvailableIn(st.db.rows, cart.lines) then r == Err(InsufficientStock)
      else if !NamesAreFree(st.db.orders, a) then r == Err(IntegrityError)
      else if a.provider != "mock" then r == Err(UnknownPaymentProvider)
      else r == Ok(|st.db.orders|)
  {
    CheckoutAcceptedIff(st, a);
    DraftErrors(st.db, a, cart);
    SellableDrafts(st.db, a, cart);
    if Payable(a.catalog, cart) {
      ReservingFails(st.db, a, cart);
    } else {
      UnpayableFails(st.db, a, cart);
    }
  }

  lemma SellableDrafts(db: Database, a: CheckoutArgs, cart: CartRow)
    ensures DraftOrder(db, a, cart).Ok? ==> AllSellable(a.catalog, cart.currency, cart.lines)
    ensures AllSellable(a.catalog, cart.currency, cart.lines) && DraftOrder(db, a, cart).Err? && !Ungoverned(a.catalog, cart.region) ==>
      DraftOrder(db, a, cart).error == InvalidDecimalOperation
  {
    SnapshotSucceeds(a.catalog, cart.lines, cart.currency);
    if AllSellable(a.catalog, cart.currency, cart.lines) && !Ungoverned(a.catalog, cart.region) {
      SellableCalculates(a.catalog, cart, ResolveRegion(a.catalog, cart.region).value);
    }
  }

  lemma SellableCalculates(catalog: Catalog, cart: CartRow, region: Region)
    requires AllSellable(catalog, cart.currency, cart.lines)
    ensures Calculated(catalog, CartInputs(cart.lines), region, cart.currency).Err? ==>
      Calculated(catalog, CartInputs(cart.lines), region, cart.currency).error == InvalidDecimalOperation
  {
    var lines := CartInputs(cart.lines);
    forall i | 0 <= i < |lines|
      ensures Priced(catalog, cart.currency, lines[i].variantId)
    {
      assert Sellable(catalog, cart.currency, cart.lines[i].variantId);
    }
    SubtotalPriced(catalog, lines, cart.currency);
  }

  lemma UnpayableFails(db: Database, a: CheckoutArgs, cart: CartRow)
    requires SoundCart(cart) && ActiveCart(db.carts, a.token, a.now) == Ok(cart)
    requires cart.lines != [] && SoundCatalog(a.catalog) && !Payable(a.catalog, cart)
    ensures Reserving(db, a).Err?
    ensures DraftOrder(db, a, cart).Ok? ==> Reserving(db, a).error in {InsufficientStock, IntegrityError, ColumnOverflow}
    ensures DraftOrder(db, a, cart).Err? ==> Reserving(db, a).error == DraftOrder(db, a, cart).error
  {
    DemandIsContent(cart, 0);
    OnlyStockRefuses(db.rows, CartInputs(cart.lines));
    if DraftOrder(db, a, cart).Ok? && HeadFits(DraftOrder(db, a, cart).value.head) {
      DraftIsPayable(db, a, cart);
    }
  }

  // ----- explicit prices, from the catalog to the order -----

  lemma RecordedPrice(catalog: Catalog, snapshot: OrderLine, line: CartLine, currency: string, c: int, s: nat, p: nat)
    requires Records(snapshot, line, catalog, currency) && ExactLine(snapshot, p)
    requires Upper(currency) in catalog.variants[line.variantId].prices
    requires catalog.variants[line.variantId].prices[Upper(currency)] == Dec(c, 0 - s) && MoneyColumn(c, s)
    requires p == DecimalPlaces(catalog.book, currency) <= 4
    ensures var unit := HalfUp(Shift(c, p), Pow10(s));
      snapshot.unitPrice == Dec(unit, 0 - p) && snapshot.lineTotal == Dec(unit * line.quantity, 0 - p)
  {
    ExplicitPrice(catalog, catalog.variants[line.variantId], currency, c, s, p);
  }

  /** A placed order records a variant's explicit price in its currency, rounded half up to the
      currency's decimals, and charges exactly that for every unit, whatever the base price and the
      rates. */
  lemma ExplicitPriceIsFrozen(st: State, a: CheckoutArgs, i: nat, c: int, s: nat, p: nat)
    requires Inv(st) && SoundCatalog(a.catalog) && !IsReplay(st.db, a) && CheckedOut(st, a).1.Ok?
    requires a.token in st.db.carts && i < |st.db.carts[a.token].lines|
    requires var cart := st.db.carts[a.token];
      && cart.lines[i].variantId in a.catalog.variants && p == DecimalPlaces(a.catalog.book, cart.currency) <= 4
      && var prices := a.catalog.variants[cart.lines[i].variantId].prices;
         Upper(cart.currency) in prices && prices[Upper(cart.currency)] == Dec(c, 0 - s) && MoneyColumn(c, s)
    ensures |CheckedOut(st, a).0.db.orders| == |st.db.orders| + 1
    ensures var line, lines := st.db.carts[a.token].lines[i], CheckedOut(st, a).0.db.orders[|st.db.orders|].lines;
            var unit := HalfUp(Shift(c, p), Pow10(s));
      i < |lines| && lines[i].unitPrice == Dec(unit, 0 - p) && lines[i].lineTotal == Dec(unit * line.quantity, 0 - p)
  {
    var cart, draft := PlacingGives(st, a);
    DraftParts(st.db, a, cart, draft);
    SnapshotRecords(a.catalog, cart.lines, cart.currency, draft.lines, i);
    SnapshotExact(a.catalog, cart.lines, cart.currency, draft.lines);
    RecordedPrice(a.catalog, draft.lines[i], cart.lines[i], cart.currency, c, s, p);
  }
}
