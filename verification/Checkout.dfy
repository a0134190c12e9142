/** What the order service computes (order/service.py): checkout, payment and the operator's
    transitions, as functions of the state. */
module Checkout {
  import opened Prelude
  import opened Decimals
  import opened Conversion
  import opened Stock
  import opened Orders
  import opened Pricing
  import opened Tables
  import opened Carts

  const NUMBER_ATTEMPTS := 5

  /** The random numbers a request draws. */
  type Candidates = s: seq<string> | |s| == NUMBER_ATTEMPTS witness ["", "", "", "", ""]

  /** A checkout request, with the clock, the fresh identifiers and the reference data it meets. */
  datatype CheckoutArgs = CheckoutArgs(
    token: string, email: string, address: string, key: Option<string>, provider: string,
    now: int, orderId: Uuid, candidates: Candidates, fallback: string, intentRef: string, catalog: Catalog)

  /** An order reference: its text, and the identifier the text parses to, if it does. */
  datatype Ref = Ref(uuid: Option<Uuid>, text: string)

  const MOCK := "mock"
  const INTENT := "intent:"
  const CONFIRMED := "confirmed:"

  // ----- finding orders -----

  function Find(orders: seq<OrderRow>, wanted: OrderHead -> bool): (r: Option<nat>)
    ensures r.Some? ==> r.value < |orders| && wanted(orders[r.value].head)
    ensures r.None? ==> forall i :: 0 <= i < |orders| ==> !wanted(orders[i].head)
  {
    if orders == [] then None
    else if wanted(orders[|orders| - 1].head) then Some(|orders| - 1)
    else Find(orders[..|orders| - 1], wanted)
  }

  function FindId(orders: seq<OrderRow>, id: Uuid): (r: Option<nat>)
    ensures r.Some? ==> r.value < |orders| && orders[r.value].head.id == id
    ensures r.None? ==> forall i :: 0 <= i < |orders| ==> orders[i].head.id != id
  {
    Find(orders, (head: OrderHead) => head.id == id)
  }

  function FindNumber(orders: seq<OrderRow>, number: string): (r: Option<nat>)
    ensures r.Some? ==> r.value < |orders| && orders[r.value].head.number == number
    ensures r.None? ==> forall i :: 0 <= i < |orders| ==> orders[i].head.number != number
  {
    Find(orders, (head: OrderHead) => head.number == number)
  }

  function FindKey(orders: seq<OrderRow>, key: string): (r: Option<nat>)
    ensures r.Some? ==> r.value < |orders| && orders[r.value].head.key == Some(key)
    ensures r.None? ==> forall i :: 0 <= i < |orders| ==> orders[i].head.key != Some(key)
  {
    Find(orders, (head: OrderHead) => head.key == Some(key))
  }

  function FindRef(orders: seq<OrderRow>, ref: Ref): (r: Option<nat>)
    ensures r.Some? ==> r.value < |orders|
  {
    var byId := if ref.uuid.Some? then FindId(orders, ref.uuid.value) else None;
    if byId.Some? then byId else FindNumber(orders, ref.text)
  }

  // ----- checkout -----

  /** The first drawn number not in use; after five failures a longer one, unchecked. */
  function NextNumber(orders: seq<OrderRow>, candidates: seq<string>, fallback: string): string {
    if candidates == [] then fallback
    else if FindNumber(orders, candidates[0]).None? then candidates[0]
    else NextNumber(orders, candidates[1..], fallback)
  }

  function SnapshotLine(catalog: Catalog, line: CartLine, currency: string): Result<OrderLine> {
    if line.variantId !in catalog.variants then Err(VariantNotFound)
    else
      var variant := catalog.variants[line.variantId];
      var unitPrice :- UnitPrice(catalog, variant, currency);
      Ok(OrderLine(Some(line.variantId), if variant.name.Some? then variant.name.value else variant.sku,
                   variant.optionLabel, variant.sku, unitPrice, line.quantity,
                   Mul(unitPrice, Dec(line.quantity, 0)), currency))
  }

  function SnapshotLines(catalog: Catalog, lines: seq<CartLine>, currency: string): (r: Result<seq<OrderLine>>)
    ensures r.Ok? ==> |r.value| == |lines|
  {
    if lines == [] then Ok([])
    else
      var before :- SnapshotLines(catalog, lines[..|lines| - 1], currency);
      var last :- SnapshotLine(catalog, lines[|lines| - 1], currency);
      Ok(before + [last])
  }

  function DraftHead(db: Database, a: CheckoutArgs, cart: CartRow, region: Region, b: Breakdown): OrderHead {
    OrderHead(a.orderId, NextNumber(db.orders, a.candidates, a.fallback), region.code, cart.currency, a.email, a.address,
              b.subtotal, b.shippingFee, b.tax, b.total, a.key)
  }

  /** The priced order, before any stock is reserved. */
  function DraftOrder(db: Database, a: CheckoutArgs, cart: CartRow): Result<OrderRow> {
    var region :- ResolveRegion(a.catalog, cart.region);
    var b :- Calculated(a.catalog, CartInputs(cart.lines), region, cart.currency);
    var lines :- SnapshotLines(a.catalog, cart.lines, cart.currency);
    Ok(OrderRow(DraftHead(db, a, cart, region, b), lines, Draft, []))
  }

  /** What the database enforces when the order is flushed: unique identifier, number and key,
      and amounts that fit their columns. */
  function Storable(orders: seq<OrderRow>, row: OrderRow): Result<()> {
    if FindId(orders, row.head.id).Some? || FindNumber(orders, row.head.number).Some?
       || (row.head.key.Some? && FindKey(orders, row.head.key.value).Some?) then Err(IntegrityError)
    else if !HeadFits(row.head) || !LinesFit(row.lines) then Err(ColumnOverflow)
    else Ok(())
  }

  predicate HeadFits(head: OrderHead) {
    FitsMoneyColumn(head.subtotal) && FitsMoneyColumn(head.shippingFee)
    && FitsMoneyColumn(head.tax) && FitsMoneyColumn(head.total)
  }

  predicate LinesFit(lines: seq<OrderLine>) {
    forall i :: 0 <= i < |lines| ==> FitsMoneyColumn(lines[i].unitPrice) && FitsMoneyColumn(lines[i].lineTotal)
  }

  /** A key is looked up only when it is given and not empty. */
  predicate KeyGiven(key: Option<string>) {
    key.Some? && key.value != ""
  }

  predicate IsReplay(db: Database, a: CheckoutArgs) {
    KeyGiven(a.key) && FindKey(db.orders, a.key.value).Some?
  }

  /** The steps after the replay check, up to the payment intent: the tables with the stock
      reserved, and the draft that was flushed. */
  function Reserving(db: Database, a: CheckoutArgs): Result<(CartRow, OrderRow, Database)> {
    var cart :- ActiveCart(db.carts, a.token, a.now);
    if cart.lines == [] then Err(CartEmpty)
    else
      var draft :- DraftOrder(db, a, cart);
      var reserved :- StockSteps(db, ReserveOps(CartInputs(cart.lines)));
      var _ :- Storable(db.orders, draft);
      if a.provider != MOCK then Err(UnknownPaymentProvider)
      else Ok((cart, draft, reserved))
  }

  /** The guards a request has passed when it reaches the payment intent. */
  lemma ReservingGives(db: Database, a: CheckoutArgs) returns (cart: CartRow, draft: OrderRow, reserved: Database)
    requires Reserving(db, a).Ok?
    ensures Reserving(db, a) == Ok((cart, draft, reserved))
    ensures ActiveCart(db.carts, a.token, a.now) == Ok(cart) && DraftOrder(db, a, cart) == Ok(draft)
    ensures StockSteps(db, ReserveOps(CartInputs(cart.lines))) == Ok(reserved) && Storable(db.orders, draft).Ok?
  {
    var (c, d, r) := Reserving(db, a).value;
    cart, draft, reserved := c, d, r;
  }

  lemma DraftIsDraft(db: Database, a: CheckoutArgs, cart: CartRow)
    requires DraftOrder(db, a, cart).Ok?
    ensures var draft := DraftOrder(db, a, cart).value;
      draft.status == Draft && draft.events == [] && draft.head.key == a.key
      && SnapshotLines(a.catalog, cart.lines, cart.currency) == Ok(draft.lines)
  {
  }

  function Submitted(draft: OrderRow, intentRef: string): OrderRow {
    draft.(status := AwaitingPayment,
           events := draft.events + [OrderEvent(Some(draft.status), AwaitingPayment, Some(INTENT + intentRef))])
  }

  function ConvertedCart(cart: CartRow, email: string): CartRow {
    cart.(email := Some(email), status := Converted)
  }

  function NewIntent(head: OrderHead): Intent {
    Intent(head.number, head.total, head.currency, false)
  }

  /** The outcome of a checkout request: the index of the order returned. */
  function CheckedOut(st: State, a: CheckoutArgs): (State, Result<nat>) {
    if IsReplay(st.db, a) then (st, Ok(FindKey(st.db.orders, a.key.value).value))
    else
      match Reserving(st.db, a)
      case Err(e) => (st, Err(e))
      case Ok((cart, draft, reserved)) =>
        (State(reserved.(orders := st.db.orders + [Submitted(draft, a.intentRef)],
                         carts := st.db.carts[a.token := ConvertedCart(cart, a.email)]),
               st.intents[a.intentRef := NewIntent(draft.head)]),
         Ok(|st.db.orders|))
  }

  // ----- payment -----

  /** The reference in the latest note that records an intent. */
  function IntentRef(events: seq<OrderEvent>): Option<string> {
    if events == [] then None
    else
      var note := events[|events| - 1].note;
      if note.Some? && INTENT <= note.value then Some(note.value[|INTENT|..])
      else IntentRef(events[..|events| - 1])
  }

  function Captured(intents: map<string, Intent>, ref: string): map<string, Intent>
    requires ref in intents
  {
    intents[ref := intents[ref].(captured := true)]
  }

  /** Moving an order and running its stock loop, all or nothing. */
  function MovedWithStock(db: Database, i: nat, target: OrderStatus, note: Option<string>, ops: seq<Op>): Result<Database>
    requires i < |db.orders|
  {
    var row :- Transitioned(db.orders[i], target, note);
    var stocked :- StockSteps(db, ops);
    Ok(stocked.(orders := db.orders[i := row]))
  }

  /** The outcome of confirming the payment of an order. A captured intent stays captured even
      when the order is then refused. */
  function PaidOrder(st: State, ref: Ref): (State, Result<nat>) {
    var found := FindRef(st.db.orders, ref);
    if found.None? then (st, Err(OrderNotFound))
    else
      var i := found.value;
      var reference := IntentRef(st.db.orders[i].events);
      if reference.None? || reference.value !in st.intents then (st, Err(PaymentFailed))
      else
        var intents := Captured(st.intents, reference.value);
        match MovedWithStock(st.db, i, Paid, Some(CONFIRMED + reference.value), CommitOps(Inputs(st.db.orders[i].lines)))
        case Err(e) => (State(st.db, intents), Err(e))
        case Ok(db) => (State(db, intents), Ok(i))
  }

  /** The outcome of an operator's status change. */
  function TransitionedOrder(st: State, ref: Ref, target: OrderStatus, note: Option<string>): (State, Result<nat>) {
    if target == Paid then PaidOrder(st, ref)
    else
      var found := FindRef(st.db.orders, ref);
      if found.None? then (st, Err(OrderNotFound))
      else
        var i := found.value;
        var ops := if target == OrderStatus.Cancelled then ReleaseOps(Inputs(st.db.orders[i].lines)) else [];
        match MovedWithStock(st.db, i, target, note, ops)
        case Err(e) => (st, Err(e))
        case Ok(db) => (st.(db := db), Ok(i))
  }
}
