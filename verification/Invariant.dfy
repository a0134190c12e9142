/** The invariant of the shop: the agreements between tables that no column or constraint
    enforces, kept by every call whether it succeeds or fails. */
module Invariant {
  import opened Prelude
  import opened Lines
  import opened Stock
  import opened Orders
  import opened Pricing
  import opened Tables
  import opened Carts
  import opened Checkout
  import opened Api

  // ----- units held by orders -----

  function UnitsOf(row: OrderRow, v: VariantId, statuses: set<OrderStatus>): nat {
    if row.status in statuses then Demand(Inputs(row.lines), v) else 0
  }

  /** Units of v in the lines of orders whose status is one of these. */
  function UnitsIn(orders: seq<OrderRow>, v: VariantId, statuses: set<OrderStatus>): nat {
    if orders == [] then 0
    else UnitsIn(orders[..|orders| - 1], v, statuses) + UnitsOf(orders[|orders| - 1], v, statuses)
  }

  const UNPAID := {AwaitingPayment}

  lemma UnitsSnoc(orders: seq<OrderRow>, row: OrderRow, v: VariantId, statuses: set<OrderStatus>)
    ensures UnitsIn(orders + [row], v, statuses) == UnitsIn(orders, v, statuses) + UnitsOf(row, v, statuses)
  {
    assert (orders + [row])[..|orders|] == orders;
  }

  lemma {:induction false} UnitsUpdate(orders: seq<OrderRow>, i: nat, row: OrderRow, v: VariantId, statuses: set<OrderStatus>)
    requires i < |orders|
    ensures UnitsIn(orders, v, statuses) >= UnitsOf(orders[i], v, statuses)
    ensures UnitsIn(orders[i := row], v, statuses)
         == UnitsIn(orders, v, statuses) - UnitsOf(orders[i], v, statuses) + UnitsOf(row, v, statuses)
  {
    var n := |orders| - 1;
    if i < n {
      UnitsUpdate(orders[..n], i, row, v, statuses);
      assert orders[i := row][..n] == orders[..n][i := row];
    } else {
      assert orders[i := row][..n] == orders[..n];
    }
  }

  // ----- the parts of the invariant -----

  /** `reserved` is exactly what unpaid orders hold, and never exceeds what exists. */
  ghost predicate StockAgrees(rows: Rows, orders: seq<OrderRow>) {
    && SoundRows(rows)
    && (forall v :: v in rows ==> rows[v].reserved == UnitsIn(orders, v, UNPAID))
    && (forall v: VariantId :: v !in rows ==> UnitsIn(orders, v, UNPAID) == 0)
  }

  ghost predicate SoundOrder(row: OrderRow) {
    TrueHistory(row) && AllPositive(Inputs(row.lines))
  }

  /** Identifiers, numbers and keys each own at most one order. */
  ghost predicate UniqueOrders(orders: seq<OrderRow>) {
    forall i, j :: 0 <= i < j < |orders| ==>
      orders[i].head.id != orders[j].head.id
      && orders[i].head.number != orders[j].head.number
      && (orders[i].head.key.Some? ==> orders[i].head.key != orders[j].head.key)
  }

  ghost predicate SoundCarts(carts: map<string, CartRow>) {
    forall t :: t in carts ==> carts[t].token == t && SoundCart(carts[t])
  }

  /** The reference recorded at the order's own checkout. */
  function OwnIntent(row: OrderRow): string
    requires row.events != []
  {
    var note := row.events[0].note;
    if note.Some? && INTENT <= note.value then note.value[|INTENT|..] else ""
  }

  /** The order's first event names an intent for its number, amount and currency, which is
      captured once the order was paid. */
  ghost predicate Linked(row: OrderRow, intents: map<string, Intent>) {
    && row.events != []
    && row.events[0].note == Some(INTENT + OwnIntent(row))
    && OwnIntent(row) in intents
    && intents[OwnIntent(row)].orderNumber == row.head.number
    && intents[OwnIntent(row)].amount == row.head.total
    && intents[OwnIntent(row)].currency == row.head.currency
    && (row.status in SETTLED ==> intents[OwnIntent(row)].captured)
  }

  ghost predicate Inv(st: State) {
    && StockAgrees(st.db.rows, st.db.orders)
    && (forall i :: 0 <= i < |st.db.orders| ==> SoundOrder(st.db.orders[i]))
    && UniqueOrders(st.db.orders)
    && SoundCarts(st.db.carts)
    && (forall i :: 0 <= i < |st.db.orders| ==> Linked(st.db.orders[i], st.intents))
  }

  lemma InvHoldsInitially()
    ensures Inv(EMPTY)
  {
  }

  // ----- stock -----

  /** An unpaid order's units are covered by the rows of its variants. */
  lemma PromiseCovered(db: Database, i: nat)
    requires StockAgrees(db.rows, db.orders) && i < |db.orders| && db.orders[i].status == AwaitingPayment
    ensures AllStocked(db.rows, Inputs(db.orders[i].lines))
    ensures forall v :: v in db.rows ==> Demand(Inputs(db.orders[i].lines), v) <= db.rows[v].reserved <= db.rows[v].quantity
  {
    var lines := Inputs(db.orders[i].lines);
    forall v: VariantId
      ensures Demand(lines, v) <= UnitsIn(db.orders, v, UNPAID)
    {
      UnitsUpdate(db.orders, i, db.orders[i], v, UNPAID);
    }
    forall k | 0 <= k < |lines| && lines[k].quantity > 0
      ensures lines[k].variantId in db.rows
    {
      DemandAtLeast(lines, k);
    }
  }

  /** Moving an unpaid order to a settled or cancelled status, with the stock it held. */
  lemma PromiseKept(db: Database, i: nat, row: OrderRow, rows: Rows)
    requires StockAgrees(db.rows, db.orders) && i < |db.orders| && db.orders[i].status == AwaitingPayment
    requires row.lines == db.orders[i].lines && row.status != AwaitingPayment
    requires rows == Committed(db.rows, Inputs(row.lines)) || rows == Released(db.rows, Inputs(row.lines))
    ensures StockAgrees(rows, db.orders[i := row])
  {
    PromiseCovered(db, i);
    PromiseLeaves(db.orders, i, row);
    if rows == Committed(db.rows, Inputs(row.lines)) {
      CommittedCovered(db.rows, Inputs(row.lines));
    } else {
      ReleasedCovered(db.rows, Inputs(row.lines));
    }
  }

  /** Committing or releasing units that are covered clamps nothing. */
  lemma CommittedCovered(rows: Rows, lines: seq<LineInput>)
    requires forall v :: v in rows ==> Demand(lines, v) <= rows[v].reserved <= rows[v].quantity
    ensures Committed(rows, lines)
         == map v | v in rows :: Row(rows[v].quantity - Demand(lines, v), rows[v].reserved - Demand(lines, v))
  {
  }

  lemma ReleasedCovered(rows: Rows, lines: seq<LineInput>)
    requires forall v :: v in rows ==> Demand(lines, v) <= rows[v].reserved
    ensures Released(rows, lines) == map v | v in rows :: Row(rows[v].quantity, rows[v].reserved - Demand(lines, v))
  {
  }

  lemma PromiseLeaves(orders: seq<OrderRow>, i: nat, row: OrderRow)
    requires i < |orders| && orders[i].status == AwaitingPayment
    requires row.lines == orders[i].lines && row.status != AwaitingPayment
    ensures forall v: VariantId ::
      UnitsIn(orders[i := row], v, UNPAID) == UnitsIn(orders, v, UNPAID) - Demand(Inputs(row.lines), v)
  {
    forall v: VariantId
      ensures UnitsIn(orders[i := row], v, UNPAID) == UnitsIn(orders, v, UNPAID) - Demand(Inputs(row.lines), v)
    {
      UnitsUpdate(orders, i, row, v, UNPAID);
    }
  }

  /** A status change of an order that holds no stock. */
  lemma SettledMove(db: Database, i: nat, row: OrderRow)
    requires StockAgrees(db.rows, db.orders) && i < |db.orders|
    requires db.orders[i].status != AwaitingPayment && row.status != AwaitingPayment
    ensures StockAgrees(db.rows, db.orders[i := row])
  {
    forall v: VariantId
      ensures UnitsIn(db.orders[i := row], v, UNPAID) == UnitsIn(db.orders, v, UNPAID)
    {
      UnitsUpdate(db.orders, i, row, v, UNPAID);
    }
  }

  lemma PromiseMade(db: Database, row: OrderRow, lines: seq<LineInput>)
    requires StockAgrees(db.rows, db.orders) && CanReserve(db.rows, lines)
    requires row.status == AwaitingPayment && Inputs(row.lines) == lines
    ensures StockAgrees(Reserved(db.rows, lines), db.orders + [row])
  {
    forall v: VariantId
      ensures UnitsIn(db.orders + [row], v, UNPAID) == UnitsIn(db.orders, v, UNPAID) + Demand(lines, v)
      ensures v !in db.rows ==> Demand(lines, v) == 0
      ensures v in db.rows ==> Demand(lines, v) == 0 || Demand(lines, v) <= db.rows[v].Available()
    {
      UnitsSnoc(db.orders, row, v, UNPAID);
      DemandMentioned(lines, v);
    }
  }

  // ----- what an order line snapshot asks for -----

  lemma {:induction false} SnapshotAsks(catalog: Catalog, lines: seq<CartLine>, currency: string)
    requires SnapshotLines(catalog, lines, currency).Ok?
    ensures Inputs(SnapshotLines(catalog, lines, currency).value) == CartInputs(lines)
  {
    if lines != [] {
      var n := |lines| - 1;
      SnapshotAsks(catalog, lines[..n], currency);
      InputsSnoc(SnapshotLines(catalog, lines[..n], currency).value, SnapshotLine(catalog, lines[n], currency).value);
      assert CartInputs(lines) == CartInputs(lines[..n]) + [LineInput(lines[n].variantId, lines[n].quantity)];
    }
  }

  // ----- the calls, one by one -----

  lemma IntentPrefix(ref: string)
    ensures INTENT <= INTENT + ref && (INTENT + ref)[|INTENT|..] == ref
  {
  }

  lemma SubmittedIsSound(draft: OrderRow, ref: string)
    requires draft.status == Draft && draft.events == [] && AllPositive(Inputs(draft.lines))
    ensures SoundOrder(Submitted(draft, ref)) && OwnIntent(Submitted(draft, ref)) == ref
    ensures Submitted(draft, ref).events[0].note == Some(INTENT + ref)
  {
    IntentPrefix(ref);
  }

  /** Whether a checkout request gets past every guard. */
  predicate Proceeds(db: Database, a: CheckoutArgs) {
    !IsReplay(db, a) && Reserving(db, a).Ok?
  }

  lemma StandsStill(st: State, a: CheckoutArgs)
    requires !Proceeds(st.db, a)
    ensures CheckedOut(st, a).0 == st
  {
  }

  /** What a checkout that proceeds has established, and the state it leaves. */
  lemma PlacingGives(st: State, a: CheckoutArgs) returns (cart: CartRow, draft: OrderRow)
    requires SoundCarts(st.db.carts) && Proceeds(st.db, a)
    ensures a.token in st.db.carts && cart == st.db.carts[a.token] && cart.status == Active
    ensures DraftOrder(st.db, a, cart) == Ok(draft) && draft.status == Draft && draft.events == [] && draft.head.key == a.key
    ensures Inputs(draft.lines) == CartInputs(cart.lines) && AllPositive(CartInputs(cart.lines))
    ensures CanReserve(st.db.rows, CartInputs(cart.lines)) && Storable(st.db.orders, draft).Ok?
    ensures CheckedOut(st, a) == (PlacedState(st, a, cart, draft), Ok(|st.db.orders|))
  {
    var reserved;
    cart, draft, reserved := ReservingGives(st.db, a);
    SnapshotAsks(a.catalog, cart.lines, cart.currency);
    ReserveAllExact(st.db.rows, CartInputs(cart.lines));
    DemandIsContent(cart, 0);
    DraftIsDraft(st.db, a, cart);
  }

  function PlacedState(st: State, a: CheckoutArgs, cart: CartRow, draft: OrderRow): State {
    State(Database(Reserved(st.db.rows, CartInputs(cart.lines)),
                   st.db.ledger + EntriesOfAll(ReserveOps(CartInputs(cart.lines))),
                   st.db.orders + [Submitted(draft, a.intentRef)],
                   st.db.carts[a.token := ConvertedCart(cart, a.email)]),
          st.intents[a.intentRef := NewIntent(draft.head)])
  }

  lemma StorableStaysUnique(orders: seq<OrderRow>, row: OrderRow)
    requires UniqueOrders(orders) && Storable(orders, row).Ok?
    ensures UniqueOrders(orders + [row])
  {
  }

  lemma CheckoutKeepsInv(st: State, a: CheckoutArgs)
    requires Inv(st) && a.intentRef !in st.intents
    ensures Inv(CheckedOut(st, a).0)
  {
    if Proceeds(st.db, a) {
      var cart, draft := PlacingGives(st, a);
      PlacedKeepsInv(st, a, cart, draft);
    } else {
      StandsStill(st, a);
    }
  }

  lemma PlacedKeepsInv(st: State, a: CheckoutArgs, cart: CartRow, draft: OrderRow)
    requires Inv(st) && a.intentRef !in st.intents
    requires a.token in st.db.carts && cart == st.db.carts[a.token]
    requires draft.status == Draft && draft.events == [] && Storable(st.db.orders, draft).Ok?
    requires Inputs(draft.lines) == CartInputs(cart.lines) && AllPositive(CartInputs(cart.lines))
    requires CanReserve(st.db.rows, CartInputs(cart.lines))
    ensures Inv(PlacedState(st, a, cart, draft))
  {
    NewOrderSound(st.db.orders, draft, a.intentRef);
    PromiseMade(st.db, Submitted(draft, a.intentRef), CartInputs(cart.lines));
    NewOrderLinked(st, draft, a.intentRef);
    ConvertedStaysSound(st.db.carts, a.token, a.email);
  }

  lemma NewOrderSound(orders: seq<OrderRow>, draft: OrderRow, ref: string)
    requires UniqueOrders(orders) && Storable(orders, draft).Ok?
    requires forall i :: 0 <= i < |orders| ==> SoundOrder(orders[i])
    requires draft.status == Draft && draft.events == [] && AllPositive(Inputs(draft.lines))
    ensures var after := orders + [Submitted(draft, ref)];
      UniqueOrders(after) && forall i :: 0 <= i < |after| ==> SoundOrder(after[i])
  {
    SubmittedIsSound(draft, ref);
    StorableStaysUnique(orders, Submitted(draft, ref));
  }

  lemma ConvertedStaysSound(carts: map<string, CartRow>, token: string, email: string)
    requires SoundCarts(carts) && token in carts
    ensures SoundCarts(carts[token := ConvertedCart(carts[token], email)])
  {
    assert SoundCart(ConvertedCart(carts[token], email));
  }

  lemma NewOrderLinked(st: State, draft: OrderRow, ref: string)
    requires forall i :: 0 <= i < |st.db.orders| ==> Linked(st.db.orders[i], st.intents)
    requires ref !in st.intents && draft.status == Draft && draft.events == []
    ensures var orders, intents := st.db.orders + [Submitted(draft, ref)], st.intents[ref := NewIntent(draft.head)];
      forall i :: 0 <= i < |orders| ==> Linked(orders[i], intents)
  {
    IntentPrefix(ref);
  }

  /** Capturing an intent only ever adds to what is captured. */
  lemma CaptureKeepsLinks(orders: seq<OrderRow>, intents: map<string, Intent>, ref: string)
    requires ref in intents && forall i :: 0 <= i < |orders| ==> Linked(orders[i], intents)
    ensures forall i :: 0 <= i < |orders| ==> Linked(orders[i], Captured(intents, ref))
  {
  }

  /** The reversed search in `pay` finds the reference issued at the order's own checkout. */
  lemma PaymentFindsOwnIntent(row: OrderRow, intents: map<string, Intent>)
    requires SoundOrder(row) && row.status == AwaitingPayment && Linked(row, intents)
    ensures IntentRef(row.events) == Some(OwnIntent(row))
  {
    AwaitingHasOneEvent(row);
    IntentPrefix(OwnIntent(row));
  }

  /** Moving an order along keeps heads, lines and first events, and so uniqueness. */
  lemma MoveKeepsUnique(orders: seq<OrderRow>, i: nat, row: OrderRow)
    requires UniqueOrders(orders) && i < |orders| && row.head == orders[i].head
    ensures UniqueOrders(orders[i := row])
  {
  }

  lemma MoveKeepsSound(orders: seq<OrderRow>, i: nat, target: OrderStatus, note: Option<string>)
    requires i < |orders| && Transitioned(orders[i], target, note).Ok?
    requires forall k :: 0 <= k < |orders| ==> SoundOrder(orders[k])
    ensures var moved := orders[i := Transitioned(orders[i], target, note).value];
      forall k :: 0 <= k < |moved| ==> SoundOrder(moved[k])
  {
    TransitionKeepsHistory(orders[i], target, note);
  }

  lemma MoveKeepsLinks(orders: seq<OrderRow>, intents: map<string, Intent>, i: nat, target: OrderStatus, note: Option<string>)
    requires i < |orders| && Transitioned(orders[i], target, note).Ok?
    requires forall k :: 0 <= k < |orders| ==> Linked(orders[k], intents)
    requires Linked(orders[i], intents)
    requires target in SETTLED ==> orders[i].status in SETTLED || intents[OwnIntent(orders[i])].captured
    ensures var moved := orders[i := Transitioned(orders[i], target, note).value];
      forall k :: 0 <= k < |moved| ==> Linked(moved[k], intents)
  {
    var row := Transitioned(orders[i], target, note).value;
    assert row.events[0] == orders[i].events[0];
  }

  /** Paying an unpaid order succeeds, captures its own intent and keeps the invariant. */
  lemma PayAwaiting(st: State, i: nat, ref: string)
    requires Inv(st) && i < |st.db.orders| && st.db.orders[i].status == AwaitingPayment
    requires IntentRef(st.db.orders[i].events) == Some(ref)
    ensures ref == OwnIntent(st.db.orders[i]) && ref in st.intents
    ensures var lines := Inputs(st.db.orders[i].lines);
            var moved := MovedWithStock(st.db, i, Paid, Some(CONFIRMED + ref), CommitOps(lines));
      moved.Ok? && moved.value.rows == Committed(st.db.rows, lines)
      && Inv(State(moved.value, Captured(st.intents, ref)))
  {
    var lines := Inputs(st.db.orders[i].lines);
    var note := Some(CONFIRMED + ref);
    PaymentFindsOwnIntent(st.db.orders[i], st.intents);
    PromiseCovered(st.db, i);
    CommitAllExact(st.db.rows, lines);
    var row := Transitioned(st.db.orders[i], Paid, note).value;
    PromiseKept(st.db, i, row, Committed(st.db.rows, lines));
    CaptureKeepsLinks(st.db.orders, st.intents, ref);
    MoveKeepsSound(st.db.orders, i, Paid, note);
    MoveKeepsUnique(st.db.orders, i, row);
    MoveKeepsLinks(st.db.orders, Captured(st.intents, ref), i, Paid, note);
  }

  /** Cancelling an unpaid order succeeds and keeps the invariant. */
  lemma CancelAwaiting(st: State, i: nat, note: Option<string>)
    requires Inv(st) && i < |st.db.orders| && st.db.orders[i].status == AwaitingPayment
    ensures var lines := Inputs(st.db.orders[i].lines);
            var moved := MovedWithStock(st.db, i, OrderStatus.Cancelled, note, ReleaseOps(lines));
      moved.Ok? && moved.value.rows == Released(st.db.rows, lines)
      && Inv(State(moved.value, st.intents))
  {
    var lines := Inputs(st.db.orders[i].lines);
    PromiseCovered(st.db, i);
    ReleaseAllExact(st.db.rows, lines);
    var row := Transitioned(st.db.orders[i], OrderStatus.Cancelled, note).value;
    PromiseKept(st.db, i, row, Released(st.db.rows, lines));
    MoveKeepsSound(st.db.orders, i, OrderStatus.Cancelled, note);
    MoveKeepsUnique(st.db.orders, i, row);
    MoveKeepsLinks(st.db.orders, st.intents, i, OrderStatus.Cancelled, note);
  }

  lemma PayKeepsInv(st: State, ref: Ref)
    requires Inv(st)
    ensures Inv(PaidOrder(st, ref).0)
  {
    var found := FindRef(st.db.orders, ref);
    if found.Some? {
      var i := found.value;
      var reference := IntentRef(st.db.orders[i].events);
      if reference.Some? && reference.value in st.intents {
        if st.db.orders[i].status == AwaitingPayment {
          PayAwaiting(st, i, reference.value);
        } else {
          CaptureKeepsLinks(st.db.orders, st.intents, reference.value);
          OnlyUnpaidIsPaid(st.db.orders[i], Some(CONFIRMED + reference.value));
        }
      }
    }
  }

  lemma OnlyUnpaidIsPaid(row: OrderRow, note: Option<string>)
    ensures Transitioned(row, Paid, note).Ok? <==> row.status == AwaitingPayment
  {
  }

  /** Among the orders that exist, none is a draft. */
  lemma NoDrafts(row: OrderRow)
    requires TrueHistory(row)
    ensures row.status != Draft
  {
  }

  lemma SettledMoveKeepsInv(st: State, i: nat, target: OrderStatus, note: Option<string>)
    requires Inv(st) && i < |st.db.orders| && Transitioned(st.db.orders[i], target, note).Ok?
    requires target != Paid && target != OrderStatus.Cancelled
    ensures var moved := MovedWithStock(st.db, i, target, note, []);
      moved.Ok? && moved.value.rows == st.db.rows && Inv(st.(db := moved.value))
  {
    var row := Transitioned(st.db.orders[i], target, note).value;
    NoDrafts(st.db.orders[i]);
    SettledMove(st.db, i, row);
    MoveKeepsSound(st.db.orders, i, target, note);
    MoveKeepsUnique(st.db.orders, i, row);
    MoveKeepsLinks(st.db.orders, st.intents, i, target, note);
    assert st.db.ledger + [] == st.db.ledger;
  }

  lemma ChangeKeepsInv(st: State, ref: Ref, target: OrderStatus, note: Option<string>)
    requires Inv(st)
    ensures Inv(TransitionedOrder(st, ref, target, note).0)
  {
    var found := FindRef(st.db.orders, ref);
    if target == Paid {
      PayKeepsInv(st, ref);
    } else if found.Some? && Transitioned(st.db.orders[found.value], target, note).Ok? {
      if target == OrderStatus.Cancelled {
        NoDrafts(st.db.orders[found.value]);
        CancelAwaiting(st, found.value, note);
      } else {
        SettledMoveKeepsInv(st, found.value, target, note);
      }
    }
  }

  lemma AdjustKeepsInv(st: State, op: Op)
    requires Inv(st) && op.Adjust? && StockStep(st.db, op).Ok?
    ensures Inv(st.(db := StockStep(st.db, op).value))
  {
  }

  /** Opening stock keeps the invariant exactly when it creates no row below zero. */
  lemma OpenKeepsInvIff(st: State, v: VariantId, quantity: int)
    requires Inv(st)
    ensures Inv(Step(st, OpenStock(v, quantity)).0) <==> v in st.db.rows || quantity >= 0
  {
    if v !in st.db.rows && quantity < 0 {
      assert Step(st, OpenStock(v, quantity)).0.db.rows[v] == Row(quantity, 0);
      assert !Row(quantity, 0).Sound();
    }
  }

  lemma LineAddedKeepsSound(carts: map<string, CartRow>, call: Call)
    requires SoundCarts(carts) && call.AddLine?
    requires LineAdded(carts, call.catalog, call.token, call.variantId, call.quantity, call.lineId, call.now).Ok?
    ensures SoundCarts(LineAdded(carts, call.catalog, call.token, call.variantId, call.quantity, call.lineId, call.now).value)
  {
    var cart := carts[call.token];
    var price := UnitPrice(call.catalog, call.catalog.variants[call.variantId], cart.currency).value;
    AddIsAddition(cart, call.variantId, call.quantity, price, call.lineId, call.variantId);
  }

  lemma LineUpdatedKeepsSound(carts: map<string, CartRow>, token: string, lineId: Uuid, quantity: int, now: int)
    requires SoundCarts(carts) && LineUpdated(carts, token, lineId, quantity, now).Ok?
    ensures SoundCarts(LineUpdated(carts, token, lineId, quantity, now).value)
  {
    var cart := carts[token];
    UpdateIsAssignment(cart, FindLine(cart.lines, lineId).value, quantity, 0);
  }

  lemma CartCallKeepsInv(st: State, call: Call)
    requires Inv(st) && (call.CreateCart? || call.AddLine? || call.UpdateLine?)
    ensures Inv(Step(st, call).0)
  {
    match call
    case AddLine(token, catalog, v, quantity, lineId, now) =>
      if LineAdded(st.db.carts, catalog, token, v, quantity, lineId, now).Ok? {
        LineAddedKeepsSound(st.db.carts, call);
      }
    case UpdateLine(token, lineId, quantity, now) =>
      if LineUpdated(st.db.carts, token, lineId, quantity, now).Ok? {
        LineUpdatedKeepsSound(st.db.carts, token, lineId, quantity, now);
      }
    case _ =>
  }

  /** Every admissible call keeps the invariant, whether it succeeds or fails. */
  lemma StepKeepsInv(st: State, call: Call)
    requires Inv(st) && Admissible(st, call)
    ensures Inv(Step(st, call).0)
  {
    match call
    case PlaceOrder(args) => CheckoutKeepsInv(st, args);
    case PayOrder(ref) => PayKeepsInv(st, ref);
    case ChangeStatus(ref, target, note) => ChangeKeepsInv(st, ref, target, note);
    case AdjustStock(v, delta, reason, note) =>
      if StockStep(st.db, Adjust(v, delta, reason, note)).Ok? {
        AdjustKeepsInv(st, Adjust(v, delta, reason, note));
      }
    case OpenStock(v, quantity) => OpenKeepsInvIff(st, v, quantity);
    case _ => CartCallKeepsInv(st, call);
  }
}
