/** One small run, told step by step: stock is opened, a cart is filled and ordered, the order is
    cancelled, and a late payment captures its intent. It shows that the theorems speak about
    runs that exist, and that a captured intent does not mean a paid order. */
module Example {
  import opened Prelude
  import opened Decimals
  import opened Currency
  import opened Conversion
  import opened Lines
  import opened Stock
  import opened Orders
  import opened Pricing
  import opened PricingLaws
  import opened Tables
  import opened Carts
  import opened Checkout
  import opened Api
  import opened Invariant
  import opened Runs
  import opened CheckoutLaws
  import opened Captures
  import opened Amounts

  const SHIRT := Variant("shirt", None, None, Dec(500, -2), "USD", map[])

  const SHOP := Catalog(Book(map[], map[]), map[0 := SHIRT], map[], Some(Region("us", Dec(0, -4))))

  const BASKET := [CartLine(7, 0, 2, Dec(500, -2), "USD", 0)]

  const CART := CartRow("cart", "us", "USD", Active, Some(2_592_000), None, BASKET)

  const READY := State(Database(map[0 := Row(5, 0)], [], [], map["cart" := CART]), map[])

  const ORDERING :=
    CheckoutArgs("cart", "ann@example.org", "1 Main Street", None, MOCK, 0, 1, ["N1", "N2", "N3", "N4", "N5"], "N6", "ref", SHOP)

  const OPEN := OpenStock(0, 5)
  const CREATE := CreateCart("cart", "us", "USD", 0)
  const ADD := AddLine("cart", SHOP, 0, 2, 7, 0)
  const ORDER := PlaceOrder(ORDERING)
  const CANCEL := ChangeStatus(Ref(Some(1), ""), OrderStatus.Cancelled, None)
  const PAY := PayOrder(Ref(Some(1), ""))

  lemma ShirtPrice()
    ensures Upper("USD") == "USD" && DecimalPlaces(SHOP.book, "USD") == 2
    ensures UnitPrice(SHOP, SHIRT, "USD") == Ok(Dec(500, -2))
  {
    assert Upper("USD") == "USD";
    assert Shift(500, 0) == 500 && Digits(500) == 3;
    assert Quantize(Dec(500, -2), 2) == Ok(Dec(500, -2));
  }

  /** Any run, and one more call. */
  lemma OneMore(calls: seq<Call>, call: Call)
    requires RunOk(EMPTY, calls) && Admissible(Run(EMPTY, calls), call)
    ensures RunOk(EMPTY, calls + [call])
    ensures Run(EMPTY, calls + [call]) == Step(Run(EMPTY, calls), call).0
  {
    assert (calls + [call])[..|calls|] == calls;
    forall i | 0 <= i < |calls + [call]|
      ensures Admissible(Run(EMPTY, (calls + [call])[..i]), (calls + [call])[i])
    {
      assert i < |calls| ==> (calls + [call])[..i] == calls[..i];
    }
  }

  lemma Added(st: State)
    requires st == State(Database(map[0 := Row(5, 0)], [], [], map["cart" := CART.(lines := [])]), map[])
    ensures Step(st, ADD).0 == READY
  {
    ShirtPrice();
    SmallFits(500);
    assert FindVariant([], 0) == None;
    assert [] + BASKET == BASKET;
  }

  lemma ReachReady()
    ensures RunOk(EMPTY, [OPEN, CREATE, ADD]) && Run(EMPTY, [OPEN, CREATE, ADD]) == READY
  {
    ShirtPrice();
    OneMore([], OPEN);
    assert [] + [OPEN] == [OPEN];
    OneMore([OPEN], CREATE);
    assert [OPEN] + [CREATE] == [OPEN, CREATE];
    Added(Run(EMPTY, [OPEN, CREATE]));
    OneMore([OPEN, CREATE], ADD);
    assert [OPEN, CREATE] + [ADD] == [OPEN, CREATE, ADD];
  }

  lemma SmallFits(n: nat)
    requires n < 10000
    ensures FitsMoneyColumn(Dec(n, -2))
  {
    assert Shift(n, 2) == 10 * Shift(n, 1) == 100 * n;
    assert Pow10(6) == 1000000;
    DigitsAtMost(100 * n, 6);
  }

  lemma BasketWorth()
    ensures AllPositive(CartInputs(BASKET)) && CartInputs(BASKET) == [LineInput(0, 2)]
    ensures Worth(SHOP, "USD", CartInputs(BASKET)) == 1000
  {
    ShirtPrice();
    assert CartInputs(BASKET) == [LineInput(0, 2)];
    assert [LineInput(0, 2)][..0] == [];
  }

  lemma ShirtBill()
    ensures BillFor(1000, 0, false, 2) == Bill(1000, 990, 0, 1990)
  {
    assert FreeShippingFrom(false, 2) == 10 * Shift(100, 1) == 10000;
    WholeHundred(990);
    HalfUpMeans(0, 10000, 0);
  }

  lemma ShopIsSound()
    ensures SoundCatalog(SHOP)
  {
    assert Digits(0) == 1;
  }

  lemma BasketDraft() returns (draft: OrderRow)
    ensures DraftOrder(READY.db, ORDERING, CART) == Ok(draft) && Storable([], draft).Ok?
  {
    BasketWorth();
    ShirtPrice();
    ShopIsSound();
    SmallFits(1000);
    DraftFollows(READY.db, ORDERING, CART, 1000, 2);
    draft := DraftOrder(READY.db, ORDERING, CART).value;
    DraftFits(draft);
  }

  lemma DraftFits(draft: OrderRow)
    requires DraftOrder(READY.db, ORDERING, CART) == Ok(draft)
    ensures HeadFits(draft.head) && LinesFit(draft.lines)
  {
    DraftParts(READY.db, ORDERING, CART, draft);
    BasketPriced(ResolveRegion(SHOP, "us").value);
    BasketSnapshot(draft.lines);
  }

  lemma BasketPriced(region: Region)
    requires region == Region("us", Dec(0, -4))
    ensures var priced := Calculated(SHOP, CartInputs(BASKET), region, "USD");
      priced.Ok? && FitsMoneyColumn(priced.value.subtotal) && FitsMoneyColumn(priced.value.shippingFee)
      && FitsMoneyColumn(priced.value.tax) && FitsMoneyColumn(priced.value.total)
  {
    BasketWorth();
    ShirtPrice();
    ShirtBill();
    ShopIsSound();
    SmallFits(1000);
    SmallFits(990);
    SmallFits(0);
    SmallFits(1990);
    FitsExactly(1000, 2);
    CalculationSucceeds(SHOP, CartInputs(BASKET), region, "USD", 1000, 2);
  }

  lemma BasketSnapshot(lines: seq<OrderLine>)
    requires SnapshotLines(SHOP, BASKET, "USD") == Ok(lines)
    ensures LinesFit(lines)
  {
    ShirtPrice();
    SmallFits(500);
    SmallFits(1000);
    assert BASKET[..0] == [];
    assert Digits(1000) == 4;
    assert Mul(Dec(500, -2), Dec(2, 0)) == Dec(1000, -2);
  }

  lemma BasketReserved()
    ensures StockSteps(READY.db, ReserveOps(CartInputs(BASKET))).Ok?
  {
    BasketWorth();
    assert [Reserve(0, 2)][..0] == [];
    assert ReserveOps(CartInputs(BASKET)) == [Reserve(0, 2)];
  }

  lemma ReadyProceeds()
    ensures Proceeds(READY.db, ORDERING)
  {
    var draft := BasketDraft();
    BasketReserved();
  }

  ghost predicate CapturedButUnpaid(calls: seq<Call>, i: nat) {
    && RunOk(EMPTY, calls)
    && var st := Run(EMPTY, calls);
    && i < |st.db.orders|
    && st.db.orders[i].status == OrderStatus.Cancelled
    && !WasPaid(st.db.orders[i])
    && st.db.orders[i].events != [] && IsCaptured(st, OwnIntent(st.db.orders[i]))
  }

  lemma Ordered() returns (calls: seq<Call>, row: OrderRow)
    ensures RunOk(EMPTY, calls) && Run(EMPTY, calls).db.orders == [row]
    ensures row.head.id == 1 && row.status == AwaitingPayment
    ensures row.events == [OrderEvent(Some(Draft), AwaitingPayment, Some(INTENT + "ref"))]
  {
    ReachReady();
    RunKeepsInv(EMPTY, [OPEN, CREATE, ADD]);
    ReadyProceeds();
    OneMore([OPEN, CREATE, ADD], ORDER);
    calls := [OPEN, CREATE, ADD] + [ORDER];
    row := CheckoutRecords(READY, ORDERING);
    assert [] + [row] == [row];
  }

  lemma CancelledBefore(st: State, row: OrderRow, after: OrderRow)
    requires Inv(st) && st.db.orders == [row] && row.head.id == 1 && row.status == AwaitingPayment
    requires Transitioned(row, OrderStatus.Cancelled, None) == Ok(after)
    ensures Step(st, CANCEL).0.db.orders == [after]
  {
    assert FindRef(st.db.orders, Ref(Some(1), "")) == Some(0);
    CancelAwaiting(st, 0, None);
    assert [row][0 := after] == [after];
  }

  lemma CancelledRow(row: OrderRow) returns (after: OrderRow)
    requires row.head.id == 1 && row.status == AwaitingPayment
    requires row.events == [OrderEvent(Some(Draft), AwaitingPayment, Some(INTENT + "ref"))]
    ensures Transitioned(row, OrderStatus.Cancelled, None) == Ok(after)
    ensures after.head.id == 1 && after.status == OrderStatus.Cancelled && NotesStayPlain(after) && !WasPaid(after)
  {
    after := Transitioned(row, OrderStatus.Cancelled, None).value;
  }

  lemma Cancelling(calls: seq<Call>, row: OrderRow, after: OrderRow)
    requires RunOk(EMPTY, calls) && Run(EMPTY, calls).db.orders == [row]
    requires row.head.id == 1 && row.status == AwaitingPayment
    requires Transitioned(row, OrderStatus.Cancelled, None) == Ok(after)
    ensures RunOk(EMPTY, calls + [CANCEL]) && Run(EMPTY, calls + [CANCEL]).db.orders == [after]
  {
    RunKeepsInv(EMPTY, calls);
    CancelledBefore(Run(EMPTY, calls), row, after);
    OneMore(calls, CANCEL);
  }

  lemma LatePayment(calls: seq<Call>, row: OrderRow)
    requires RunOk(EMPTY, calls) && Run(EMPTY, calls).db.orders == [row]
    requires row.head.id == 1 && row.status == OrderStatus.Cancelled && NotesStayPlain(row) && !WasPaid(row)
    ensures CapturedButUnpaid(calls + [PAY], 0)
  {
    var st := Run(EMPTY, calls);
    assert FindRef(st.db.orders, Ref(Some(1), "")) == Some(0);
    RefusedPaymentCaptures(calls, st, 0, Ref(Some(1), ""));
    OneMore(calls, PAY);
  }

  /** A captured intent does not mean a paid order: this order was cancelled unpaid. */
  lemma CapturedDoesNotMeanPaid()
    ensures exists calls, i :: CapturedButUnpaid(calls, i)
  {
    var calls, row := Ordered();
    var after := CancelledRow(row);
    Cancelling(calls, row, after);
    LatePayment(calls + [CANCEL], after);
  }
}
