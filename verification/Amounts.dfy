/** The amounts of stored orders add up exactly, in whole minor units of their currency. */
module Amounts {
  import opened Prelude
  import opened Arith
  import opened Decimals
  import opened Currency
  import opened Conversion
  import opened Lines
  import opened Stock
  import opened Orders
  import opened Pricing
  import opened PricingLaws
  import opened Tables
  import opened Carts
  import opened Checkout
  import opened Api
  import opened Invariant
  import opened Runs

  // ----- the snapshotted lines -----

  function LineTotals(lines: seq<OrderLine>): int {
    if lines == [] then 0 else LineTotals(lines[..|lines| - 1]) + lines[|lines| - 1].lineTotal.coef
  }

  /** A line's total is its unit price times its quantity, in whole minor units. */
  predicate ExactLine(line: OrderLine, p: nat) {
    line.unitPrice.exp == 0 - p && line.unitPrice.coef >= 0
    && line.lineTotal == Dec(line.unitPrice.coef * line.quantity, 0 - p)
  }

  lemma StoredProductExact(unit: Dec, quantity: nat, p: nat)
    requires NonNegative(unit) && unit.exp == 0 - p && p <= 4
    requires FitsMoneyColumn(Mul(unit, Dec(quantity, 0)))
    ensures Mul(unit, Dec(quantity, 0)) == Dec(unit.coef * quantity, 0 - p)
  {
    LineSums(unit, quantity, p);
    var n := unit.coef * quantity;
    if Digits(n) > PRECISION {
      HugeDoesNotFit(Mul(unit, Dec(quantity, 0)), p);
    } else if n == 0 {
      assert Mul(unit, Dec(quantity, 0)) == Fix(Dec(n, 0 - p));
    }
  }

  lemma HugeDoesNotFit(x: Dec, p: nat)
    requires Huge(x, p) && p <= 4
    ensures !FitsMoneyColumn(x)
  {
    HugeInScale(x, p);
    DigitsAtMost(Shift(x.coef, x.exp + 4), MONEY_DIGITS);
  }

  lemma HugeInScale(x: Dec, p: nat)
    requires Huge(x, p) && p <= 4
    ensures Shift(x.coef, x.exp + 4) >= Pow10(MONEY_DIGITS)
  {
    ShiftTwice(x.coef, x.exp + p, 4 - p);
    ShiftMonotone(0, x.coef, x.exp + p);
    PowMonotone(MONEY_DIGITS, PRECISION);
  }

  lemma SnapshotLineExact(catalog: Catalog, line: CartLine, currency: string, snapshot: OrderLine)
    requires SoundCatalog(catalog) && line.quantity > 0
    requires SnapshotLine(catalog, line, currency) == Ok(snapshot) && FitsMoneyColumn(snapshot.lineTotal)
    ensures ExactLine(snapshot, DecimalPlaces(catalog.book, currency))
    ensures snapshot.lineTotal.coef == LineWeight(PriceList(catalog, currency), LineInput(line.variantId, line.quantity))
  {
    UnitPriceWhole(catalog, catalog.variants[line.variantId], currency);
    StoredProductExact(snapshot.unitPrice, line.quantity, DecimalPlaces(catalog.book, currency));
  }

  lemma SnapshotParts(catalog: Catalog, lines: seq<CartLine>, currency: string, snapshot: seq<OrderLine>)
    returns (before: seq<OrderLine>, last: OrderLine)
    requires lines != [] && SnapshotLines(catalog, lines, currency) == Ok(snapshot)
    ensures snapshot == before + [last] && |before| == |lines| - 1
    ensures SnapshotLines(catalog, lines[..|lines| - 1], currency) == Ok(before)
    ensures SnapshotLine(catalog, lines[|lines| - 1], currency) == Ok(last)
  {
    before := SnapshotLines(catalog, lines[..|lines| - 1], currency).value;
    last := SnapshotLine(catalog, lines[|lines| - 1], currency).value;
  }

  lemma LineTotalsSnoc(lines: seq<OrderLine>, l: OrderLine)
    ensures LineTotals(lines + [l]) == LineTotals(lines) + l.lineTotal.coef
  {
    assert (lines + [l])[..|lines|] == lines;
  }

  predicate AllExact(lines: seq<OrderLine>, p: nat) {
    forall i :: 0 <= i < |lines| ==> ExactLine(lines[i], p)
  }

  lemma PositiveParts(lines: seq<CartLine>)
    requires lines != [] && AllPositive(CartInputs(lines))
    ensures var n := |lines| - 1;
      AllPositive(CartInputs(lines[..n])) && lines[n].quantity > 0
      && CartInputs(lines) == CartInputs(lines[..n]) + [LineInput(lines[n].variantId, lines[n].quantity)]
  {
    var n := |lines| - 1;
    assert CartInputs(lines)[n].quantity > 0;
    assert forall i :: 0 <= i < n ==> CartInputs(lines[..n])[i] == CartInputs(lines)[i];
  }

  lemma FitParts(before: seq<OrderLine>, last: OrderLine)
    requires LinesFit(before + [last])
    ensures LinesFit(before) && FitsMoneyColumn(last.lineTotal)
  {
    assert (before + [last])[|before|] == last;
    assert forall i :: 0 <= i < |before| ==> (before + [last])[i] == before[i];
  }

  /** The line totals of a snapshot add up to the worth of the cart. */
  lemma {:induction false} SnapshotExact(catalog: Catalog, lines: seq<CartLine>, currency: string, snapshot: seq<OrderLine>)
    requires SoundCatalog(catalog) && AllPositive(CartInputs(lines))
    requires SnapshotLines(catalog, lines, currency) == Ok(snapshot) && LinesFit(snapshot)
    ensures AllExact(snapshot, DecimalPlaces(catalog.book, currency))
    ensures LineTotals(snapshot) == Worth(catalog, currency, CartInputs(lines))
  {
    if lines != [] {
      var n := |lines| - 1;
      var before, last := SnapshotParts(catalog, lines, currency, snapshot);
      PositiveParts(lines);
      FitParts(before, last);
      SnapshotExact(catalog, lines[..n], currency, before);
      SnapshotLineExact(catalog, lines[n], currency, last);
      LineTotalsSnoc(before, last);
      WeighSnoc(PriceList(catalog, currency), CartInputs(lines[..n]), LineInput(lines[n].variantId, lines[n].quantity));
    }
  }

  // ----- the amounts of an order -----

  /** Subtotal is the sum of the line totals, total is subtotal plus fee plus tax, and all are
      whole minor units of a currency with p decimals. */
  predicate AddsUp(row: OrderRow, p: nat) {
    var h := row.head;
    && h.subtotal == Dec(LineTotals(row.lines), 0 - p)
    && h.shippingFee.exp == h.tax.exp == h.total.exp == 0 - p
    && h.total.coef == h.subtotal.coef + h.shippingFee.coef + h.tax.coef
    && 0 <= h.subtotal.coef && 0 <= h.shippingFee.coef && 0 <= h.tax.coef
    && AllExact(row.lines, p)
  }

  ghost predicate ExactAmounts(row: OrderRow) {
    exists p: nat :: p <= 4 && AddsUp(row, p)
  }

  lemma ResolvedRegionSound(catalog: Catalog, code: string)
    requires SoundCatalog(catalog) && ResolveRegion(catalog, code).Ok?
    ensures SoundRegion(ResolveRegion(catalog, code).value)
  {
  }

  /** What a stored draft was charged: the exact bill of its cart in its region. */
  lemma DraftAddsUp(db: Database, a: CheckoutArgs, cart: CartRow, draft: OrderRow)
    requires SoundCatalog(a.catalog) && AllPositive(CartInputs(cart.lines))
    requires DraftOrder(db, a, cart) == Ok(draft) && HeadFits(draft.head) && LinesFit(draft.lines)
    ensures AddsUp(draft, DecimalPlaces(a.catalog.book, cart.currency))
    ensures var bill := BillOf(a.catalog, CartInputs(cart.lines), ResolveRegion(a.catalog, cart.region).value, cart.currency);
      draft.head.subtotal.coef == bill.subtotal && draft.head.shippingFee.coef == bill.fee
      && draft.head.tax.coef == bill.tax && draft.head.total.coef == bill.total
  {
    var region := ResolveRegion(a.catalog, cart.region).value;
    var b := Calculated(a.catalog, CartInputs(cart.lines), region, cart.currency).value;
    ResolvedRegionSound(a.catalog, cart.region);
    assert draft.head.subtotal == b.subtotal && draft.head.total == b.total;
    CalculationExact(a.catalog, CartInputs(cart.lines), region, cart.currency, b);
    SnapshotExact(a.catalog, cart.lines, cart.currency, draft.lines);
  }

  // ----- which carts can be ordered -----

  predicate Sellable(catalog: Catalog, currency: string, v: VariantId) {
    v in catalog.variants && UnitPrice(catalog, catalog.variants[v], currency).Ok?
  }

  predicate AllSellable(catalog: Catalog, currency: string, lines: seq<CartLine>) {
    forall i :: 0 <= i < |lines| ==> Sellable(catalog, currency, lines[i].variantId)
  }

  lemma {:induction false} SnapshotSucceeds(catalog: Catalog, lines: seq<CartLine>, currency: string)
    ensures SnapshotLines(catalog, lines, currency).Ok? <==> AllSellable(catalog, currency, lines)
  {
    if lines != [] {
      var n := |lines| - 1;
      SnapshotSucceeds(catalog, lines[..n], currency);
      assert forall i :: 0 <= i < n ==> lines[i] == lines[..n][i];
    }
  }

  lemma DraftFollows(db: Database, a: CheckoutArgs, cart: CartRow, w: nat, p: nat)
    requires SoundCatalog(a.catalog) && AllPositive(CartInputs(cart.lines))
    requires w == Worth(a.catalog, cart.currency, CartInputs(cart.lines)) && p == DecimalPlaces(a.catalog.book, cart.currency)
    requires ResolveRegion(a.catalog, cart.region).Ok? && AllSellable(a.catalog, cart.currency, cart.lines)
    requires FitsMoneyColumn(Dec(w, 0 - p))
    ensures DraftOrder(db, a, cart).Ok? && DraftOrder(db, a, cart).value.head.subtotal == Dec(w, 0 - p)
  {
    var region := ResolveRegion(a.catalog, cart.region).value;
    var lines := CartInputs(cart.lines);
    ResolvedRegionSound(a.catalog, cart.region);
    FitsExactly(w, p);
    SnapshotSucceeds(a.catalog, cart.lines, cart.currency);
    forall i | 0 <= i < |lines|
      ensures Priced(a.catalog, cart.currency, lines[i].variantId)
    {
      assert Sellable(a.catalog, cart.currency, cart.lines[i].variantId);
    }
    CalculationSucceeds(a.catalog, lines, region, cart.currency, w, p);
  }

  /** A cart becomes an order whose subtotal can be stored if and only if a region is configured,
      every line's variant exists and has a price, and the exact worth fits the money column. */
  lemma DraftSucceedsExactly(db: Database, a: CheckoutArgs, cart: CartRow, w: int, p: nat)
    requires SoundCatalog(a.catalog) && AllPositive(CartInputs(cart.lines))
    requires w == Worth(a.catalog, cart.currency, CartInputs(cart.lines)) && p == DecimalPlaces(a.catalog.book, cart.currency)
    ensures DraftOrder(db, a, cart).Ok? && FitsMoneyColumn(DraftOrder(db, a, cart).value.head.subtotal)
        <==> ResolveRegion(a.catalog, cart.region).Ok? && AllSellable(a.catalog, cart.currency, cart.lines)
             && FitsMoneyColumn(Dec(w, 0 - p))
  {
    WorthNonNegative(a.catalog, cart.currency, CartInputs(cart.lines));
    if DraftOrder(db, a, cart).Ok? && FitsMoneyColumn(DraftOrder(db, a, cart).value.head.subtotal) {
      DraftGives(db, a, cart, w, p);
    }
    if ResolveRegion(a.catalog, cart.region).Ok? && AllSellable(a.catalog, cart.currency, cart.lines) && FitsMoneyColumn(Dec(w, 0 - p)) {
      DraftFollows(db, a, cart, w, p);
    }
  }

  lemma DraftGives(db: Database, a: CheckoutArgs, cart: CartRow, w: int, p: nat)
    requires SoundCatalog(a.catalog) && AllPositive(CartInputs(cart.lines))
    requires w == Worth(a.catalog, cart.currency, CartInputs(cart.lines)) && p == DecimalPlaces(a.catalog.book, cart.currency)
    requires DraftOrder(db, a, cart).Ok? && FitsMoneyColumn(DraftOrder(db, a, cart).value.head.subtotal)
    ensures ResolveRegion(a.catalog, cart.region).Ok? && AllSellable(a.catalog, cart.currency, cart.lines)
    ensures DraftOrder(db, a, cart).value.head.subtotal == Dec(w, 0 - p)
  {
    var region := ResolveRegion(a.catalog, cart.region).value;
    var b := Calculated(a.catalog, CartInputs(cart.lines), region, cart.currency).value;
    ResolvedRegionSound(a.catalog, cart.region);
    CalculationExact(a.catalog, CartInputs(cart.lines), region, cart.currency, b);
    SnapshotSucceeds(a.catalog, cart.lines, cart.currency);
  }

  // ----- which checkouts are accepted -----

  /** No line weighs more than all lines together. */
  lemma {:induction false} WeighAtLeast(price: VariantId -> int, lines: seq<LineInput>, i: nat)
    requires i < |lines| && AllPositive(lines) && forall v: VariantId :: price(v) >= 0
    ensures 0 <= LineWeight(price, lines[i]) <= Weigh(price, lines)
  {
    var n := |lines| - 1;
    MulMonotone(0, price(lines[n].variantId), lines[n].quantity);
    if i < n {
      WeighAtLeast(price, lines[..n], i);
    } else {
      WeighNonNegative(price, lines[..n]);
    }
  }

  lemma {:induction false} WeighNonNegative(price: VariantId -> int, lines: seq<LineInput>)
    requires AllPositive(lines) && forall v: VariantId :: price(v) >= 0
    ensures Weigh(price, lines) >= 0
  {
    if lines != [] {
      var n := |lines| - 1;
      MulMonotone(0, price(lines[n].variantId), lines[n].quantity);
      WeighNonNegative(price, lines[..n]);
    }
  }

  lemma LessFits(n: nat, w: nat, p: nat)
    requires n <= w && p <= 4 && MoneyColumn(w, p)
    ensures FitsMoneyColumn(Dec(n, 0 - p)) && Digits(n) <= 14
  {
    DigitsMonotone(n, w);
    FitsExactly(n, p);
  }

  lemma ZeroFits()
    ensures FitsMoneyColumn(ZERO)
  {
    ShiftZero(4);
  }

  lemma SnapshotLineFits(catalog: Catalog, line: CartLine, currency: string, snapshot: OrderLine, p: nat, w: nat)
    requires SoundCatalog(catalog) && line.quantity > 0 && SnapshotLine(catalog, line, currency) == Ok(snapshot)
    requires p == DecimalPlaces(catalog.book, currency) && MoneyColumn(w, p)
    requires LineWeight(PriceList(catalog, currency), LineInput(line.variantId, line.quantity)) <= w
    ensures FitsMoneyColumn(snapshot.unitPrice) && FitsMoneyColumn(snapshot.lineTotal)
  {
    UnitPriceWhole(catalog, catalog.variants[line.variantId], currency);
    ProductFits(snapshot.unitPrice, line.quantity, p, w);
  }

  lemma ProductFits(unit: Dec, quantity: nat, p: nat, w: nat)
    requires NonNegative(unit) && unit.exp == 0 - p && quantity > 0 && p <= 4
    requires MoneyColumn(w, p) && unit.coef * quantity <= w
    ensures FitsMoneyColumn(unit) && FitsMoneyColumn(Mul(unit, Dec(quantity, 0)))
  {
    LineSums(unit, quantity, p);
    MulMonotone(1, quantity, unit.coef);
    LessFits(unit.coef, w, p);
    LessFits(unit.coef * quantity, w, p);
    ZeroFits();
  }

  lemma {:induction false} SnapshotFits(catalog: Catalog, lines: seq<CartLine>, currency: string, snapshot: seq<OrderLine>, p: nat, w: nat)
    requires SoundCatalog(catalog) && SnapshotLines(catalog, lines, currency) == Ok(snapshot)
    requires p == DecimalPlaces(catalog.book, currency) && MoneyColumn(w, p) && AllPositive(CartInputs(lines))
    requires forall i :: 0 <= i < |lines| ==> LineWeight(PriceList(catalog, currency), CartInputs(lines)[i]) <= w
    ensures LinesFit(snapshot)
  {
    if lines != [] {
      var n := |lines| - 1;
      var before, last := SnapshotParts(catalog, lines, currency, snapshot);
      PositiveParts(lines);
      assert forall i :: 0 <= i < n ==> CartInputs(lines[..n])[i] == CartInputs(lines)[i];
      assert CartInputs(lines)[n] == LineInput(lines[n].variantId, lines[n].quantity);
      SnapshotFits(catalog, lines[..n], currency, before, p, w);
      SnapshotLineFits(catalog, lines[n], currency, last, p, w);
    }
  }

  /** The bill of a cart in its region. */
  function CartBill(catalog: Catalog, cart: CartRow): Bill
    requires ResolveRegion(catalog, cart.region).Ok?
  {
    BillOf(catalog, CartInputs(cart.lines), ResolveRegion(catalog, cart.region).value, cart.currency)
  }

  /** The cart can be priced, and its total fits the column. */
  predicate Payable(catalog: Catalog, cart: CartRow) {
    && ResolveRegion(catalog, cart.region).Ok?
    && AllSellable(catalog, cart.currency, cart.lines)
    && MoneyColumn(CartBill(catalog, cart).total, DecimalPlaces(catalog.book, cart.currency))
  }

  /** Identifier, number and key of the request are not in use. */
  predicate NamesAreFree(orders: seq<OrderRow>, a: CheckoutArgs) {
    forall i :: 0 <= i < |orders| ==>
      orders[i].head.id != a.orderId
      && orders[i].head.number != NextNumber(orders, a.candidates, a.fallback)
      && (a.key.Some? ==> orders[i].head.key != a.key)
  }

  lemma NamesAreFreeIff(orders: seq<OrderRow>, a: CheckoutArgs, draft: OrderRow)
    requires draft.head.id == a.orderId && draft.head.key == a.key
    requires draft.head.number == NextNumber(orders, a.candidates, a.fallback)
    ensures NamesAreFree(orders, a) && HeadFits(draft.head) && LinesFit(draft.lines) <==> Storable(orders, draft).Ok?
  {
  }

  lemma BillParts(w: nat, t: nat, jpy: bool, p: nat)
    ensures var bill := BillFor(w, t, jpy, p);
      bill.subtotal == w && bill.subtotal <= bill.total && bill.fee <= bill.total && bill.tax <= bill.total
  {
  }

  /** A payable cart becomes a draft that fits its columns. */
  lemma PayableDrafts(db: Database, a: CheckoutArgs, cart: CartRow, p: nat)
    requires SoundCatalog(a.catalog) && AllPositive(CartInputs(cart.lines)) && Payable(a.catalog, cart)
    requires p == DecimalPlaces(a.catalog.book, cart.currency)
    ensures DraftOrder(db, a, cart).Ok?
    ensures HeadFits(DraftOrder(db, a, cart).value.head) && LinesFit(DraftOrder(db, a, cart).value.lines)
  {
    var lines := CartInputs(cart.lines);
    var w := Worth(a.catalog, cart.currency, lines);
    var region := ResolveRegion(a.catalog, cart.region).value;
    WorthNonNegative(a.catalog, cart.currency, lines);
    ResolvedRegionSound(a.catalog, cart.region);
    var bill := CartBill(a.catalog, cart);
    BillParts(w, region.taxRate.coef, Upper(cart.currency) == "JPY", p);
    LessFits(w, bill.total, p);
    LessFits(bill.fee, bill.total, p);
    LessFits(bill.tax, bill.total, p);
    LessFits(bill.total, bill.total, p);
    DraftFollows(db, a, cart, w, p);
    DraftIsBilled(db, a, cart, p);
    LinesAreWorth(a.catalog, cart, bill.total, w);
    SnapshotFits(a.catalog, cart.lines, cart.currency, DraftOrder(db, a, cart).value.lines, p, bill.total);
  }

  lemma DraftIsBilled(db: Database, a: CheckoutArgs, cart: CartRow, p: nat)
    requires SoundCatalog(a.catalog) && AllPositive(CartInputs(cart.lines)) && DraftOrder(db, a, cart).Ok?
    requires FitsMoneyColumn(DraftOrder(db, a, cart).value.head.subtotal) && p == DecimalPlaces(a.catalog.book, cart.currency)
    ensures ResolveRegion(a.catalog, cart.region).Ok?
    ensures var draft, bill := DraftOrder(db, a, cart).value, CartBill(a.catalog, cart);
      && draft.head.subtotal == Dec(bill.subtotal, 0 - p) && draft.head.shippingFee == Dec(bill.fee, 0 - p)
      && draft.head.tax == Dec(bill.tax, 0 - p) && draft.head.total == Dec(bill.total, 0 - p)
      && SnapshotLines(a.catalog, cart.lines, cart.currency) == Ok(draft.lines)
  {
    var region := ResolveRegion(a.catalog, cart.region).value;
    var b := Calculated(a.catalog, CartInputs(cart.lines), region, cart.currency).value;
    ResolvedRegionSound(a.catalog, cart.region);
    CalculationExact(a.catalog, CartInputs(cart.lines), region, cart.currency, b);
  }

  lemma LinesAreWorth(catalog: Catalog, cart: CartRow, top: nat, w: int)
    requires SoundCatalog(catalog) && AllPositive(CartInputs(cart.lines))
    requires w == Worth(catalog, cart.currency, CartInputs(cart.lines)) <= top
    ensures forall i :: 0 <= i < |cart.lines| ==> LineWeight(PriceList(catalog, cart.currency), CartInputs(cart.lines)[i]) <= top
  {
    forall i | 0 <= i < |cart.lines|
      ensures LineWeight(PriceList(catalog, cart.currency), CartInputs(cart.lines)[i]) <= top
    {
      forall v: VariantId
        ensures PriceList(catalog, cart.currency)(v) >= 0
      {
        PriceNonNegative(catalog, cart.currency, v);
      }
      WeighAtLeast(PriceList(catalog, cart.currency), CartInputs(cart.lines), i);
    }
  }

  /** A draft that fits its columns comes from a payable cart. */
  lemma DraftIsPayable(db: Database, a: CheckoutArgs, cart: CartRow)
    requires SoundCatalog(a.catalog) && AllPositive(CartInputs(cart.lines)) && DraftOrder(db, a, cart).Ok?
    requires HeadFits(DraftOrder(db, a, cart).value.head)
    ensures Payable(a.catalog, cart)
  {
    var p := DecimalPlaces(a.catalog.book, cart.currency);
    WorthNonNegative(a.catalog, cart.currency, CartInputs(cart.lines));
    DraftGives(db, a, cart, Worth(a.catalog, cart.currency, CartInputs(cart.lines)), p);
    DraftIsBilled(db, a, cart, p);
    FitsExactly(CartBill(a.catalog, cart).total, p);
  }

  predicate ContentAvailableIn(rows: Rows, lines: seq<CartLine>) {
    forall i :: 0 <= i < |lines| ==>
      lines[i].variantId in rows && lines[i].quantity <= rows[lines[i].variantId].Available()
  }

  /** Everything a checkout request can be refused for, in terms of the request, its reference data
      and the tables. */
  predicate Acceptable(db: Database, a: CheckoutArgs) {
    && ActiveCart(db.carts, a.token, a.now).Ok?
    && var cart := db.carts[a.token];
    && cart.lines != []
    && Payable(a.catalog, cart)
    && NamesAreFree(db.orders, a)
    && ContentAvailableIn(db.rows, cart.lines)
    && a.provider == MOCK
  }

  lemma ReservableIff(rows: Rows, cart: CartRow)
    requires SoundCart(cart)
    ensures CanReserve(rows, CartInputs(cart.lines)) <==> ContentAvailableIn(rows, cart.lines)
  {
    var lines := CartInputs(cart.lines);
    CartDemand(cart);
    forall i | 0 <= i < |lines|
      ensures Demand(lines, lines[i].variantId) == cart.lines[i].quantity == lines[i].quantity
    {
      ContentAt(cart, i);
    }
    assert forall i :: 0 <= i < |lines| ==> lines[i].variantId == cart.lines[i].variantId;
  }

  lemma DraftNames(db: Database, a: CheckoutArgs, cart: CartRow)
    requires DraftOrder(db, a, cart).Ok?
    ensures var head := DraftOrder(db, a, cart).value.head;
      head.id == a.orderId && head.key == a.key && head.number == NextNumber(db.orders, a.candidates, a.fallback)
  {
  }

  lemma ProceedsIff(db: Database, a: CheckoutArgs, cart: CartRow)
    requires SoundCart(cart) && SoundCatalog(a.catalog) && ActiveCart(db.carts, a.token, a.now) == Ok(cart)
    ensures Reserving(db, a).Ok? <==> Acceptable(db, a)
  {
    DemandIsContent(cart, 0);
    ReserveAllExact(db.rows, CartInputs(cart.lines));
    ReservableIff(db.rows, cart);
    if Payable(a.catalog, cart) {
      PayableDrafts(db, a, cart, DecimalPlaces(a.catalog.book, cart.currency));
    }
    if DraftOrder(db, a, cart).Ok? {
      DraftNames(db, a, cart);
      NamesAreFreeIff(db.orders, a, DraftOrder(db, a, cart).value);
      if HeadFits(DraftOrder(db, a, cart).value.head) {
        DraftIsPayable(db, a, cart);
      }
    }
  }

  /** A checkout that is no replay is accepted if and only if its cart is open and not empty, a
      region is configured, every line has a price, the total fits its column, the identifier, the
      drawn number and the key are free, every line is in stock and the provider is known. */
  lemma CheckoutAcceptedIff(st: State, a: CheckoutArgs)
    requires Inv(st) && SoundCatalog(a.catalog) && !IsReplay(st.db, a)
    ensures CheckedOut(st, a).1.Ok? <==> Acceptable(st.db, a)
  {
    if ActiveCart(st.db.carts, a.token, a.now).Ok? {
      ProceedsIff(st.db, a, st.db.carts[a.token]);
    }
  }

  // ----- over runs -----

  /** Reference data as the columns hold it, at the time of a checkout. */
  ghost predicate SoundData(call: Call) {
    call.PlaceOrder? ==> SoundCatalog(call.args.catalog)
  }

  ghost predicate AllAddUp(orders: seq<OrderRow>) {
    forall i :: 0 <= i < |orders| ==> ExactAmounts(orders[i])
  }

  lemma SubmittedAddsUp(draft: OrderRow, ref: string, p: nat)
    requires AddsUp(draft, p) && p <= 4
    ensures ExactAmounts(Submitted(draft, ref))
  {
    assert AddsUp(Submitted(draft, ref), p);
  }

  lemma KeptAddUp(before: seq<OrderRow>, after: seq<OrderRow>)
    requires OrdersKept(before, after) && AllAddUp(before)
    ensures forall i :: 0 <= i < |before| ==> ExactAmounts(after[i])
  {
    forall i | 0 <= i < |before|
      ensures ExactAmounts(after[i])
    {
      var p: nat :| p <= 4 && AddsUp(before[i], p);
      assert Frozen(before[i], after[i]);
      assert AddsUp(after[i], p);
    }
  }

  lemma CheckoutAddsUp(st: State, a: CheckoutArgs)
    requires Inv(st) && SoundCatalog(a.catalog) && AllAddUp(st.db.orders)
    ensures AllAddUp(CheckedOut(st, a).0.db.orders)
  {
    if Proceeds(st.db, a) {
      var cart, draft := PlacingGives(st, a);
      DraftAddsUp(st.db, a, cart, draft);
      SubmittedAddsUp(draft, a.intentRef, DecimalPlaces(a.catalog.book, cart.currency));
    } else {
      StandsStill(st, a);
    }
  }

  lemma OnlyCheckoutAddsOrders(st: State, call: Call)
    requires !call.PlaceOrder?
    ensures |Step(st, call).0.db.orders| == |st.db.orders|
  {
  }

  lemma StepAddsUp(st: State, call: Call)
    requires Inv(st) && SoundData(call) && AllAddUp(st.db.orders)
    ensures AllAddUp(Step(st, call).0.db.orders)
  {
    if call.PlaceOrder? {
      CheckoutAddsUp(st, call.args);
    } else {
      StepKeepsOrders(st, call);
      OnlyCheckoutAddsOrders(st, call);
      KeptAddUp(st.db.orders, Step(st, call).0.db.orders);
    }
  }

  /** In every reachable state, the amounts of every order add up exactly. */
  lemma {:induction false} AmountsAddUp(calls: seq<Call>)
    requires RunOk(EMPTY, calls) && forall i :: 0 <= i < |calls| ==> SoundData(calls[i])
    ensures AllAddUp(Run(EMPTY, calls).db.orders)
  {
    if calls != [] {
      var n := |calls| - 1;
      LastCall(EMPTY, calls);
      RunKeepsInv(EMPTY, calls[..n]);
      AmountsAddUp(calls[..n]);
      StepAddsUp(Run(EMPTY, calls[..n]), calls[n]);
    }
  }
}
