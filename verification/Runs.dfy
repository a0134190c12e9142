/** Theorems over whole runs: any sequence of calls, any number of carts, orders and
    operators, with reference data that may change from call to call. */
module Runs {
  import opened Prelude
  import opened Lines
  import opened Stock
  import opened Orders
  import opened Tables
  import opened Carts
  import opened Checkout
  import opened Api
  import opened Invariant

  function Run(st: State, calls: seq<Call>): State {
    if calls == [] then st else Step(Run(st, calls[..|calls| - 1]), calls[|calls| - 1]).0
  }

  ghost predicate RunOk(st: State, calls: seq<Call>) {
    forall i :: 0 <= i < |calls| ==> Admissible(Run(st, calls[..i]), calls[i])
  }

  /** One call less, and the state it was made in. */
  lemma LastCall(st: State, calls: seq<Call>)
    requires calls != [] && RunOk(st, calls)
    ensures RunOk(st, calls[..|calls| - 1])
    ensures Admissible(Run(st, calls[..|calls| - 1]), calls[|calls| - 1])
  {
    RunPrefix(st, calls, |calls| - 1);
  }

  lemma RunPrefix(st: State, calls: seq<Call>, i: nat)
    requires RunOk(st, calls) && i <= |calls|
    ensures RunOk(st, calls[..i])
  {
    forall j | 0 <= j < i
      ensures Admissible(Run(st, calls[..i][..j]), calls[..i][j])
    {
      assert calls[..i][..j] == calls[..j];
    }
  }

  /** The invariant holds in every reachable state. */
  lemma {:induction false} RunKeepsInv(st: State, calls: seq<Call>)
    requires Inv(st) && RunOk(st, calls)
    ensures Inv(Run(st, calls))
  {
    if calls != [] {
      LastCall(st, calls);
      RunKeepsInv(st, calls[..|calls| - 1]);
      StepKeepsInv(Run(st, calls[..|calls| - 1]), calls[|calls| - 1]);
    }
  }

  /** In every state reached from an empty shop, `reserved` counts exactly the units of unpaid
      orders, within what exists. */
  lemma ReservedIsUnpaid(calls: seq<Call>, v: VariantId)
    requires RunOk(EMPTY, calls)
    ensures var db := Run(EMPTY, calls).db;
      if v in db.rows then UnitsIn(db.orders, v, UNPAID) == db.rows[v].reserved <= db.rows[v].quantity
      else UnitsIn(db.orders, v, UNPAID) == 0
  {
    RunKeepsInv(EMPTY, calls);
  }

  // ----- a promise can always be kept -----

  /** An order answers to its identifier and, where the text parses to no identifier, to its number. */
  lemma RefFindsOrder(orders: seq<OrderRow>, i: nat, text: string)
    requires UniqueOrders(orders) && i < |orders|
    ensures FindRef(orders, Ref(Some(orders[i].head.id), text)) == Some(i)
    ensures FindRef(orders, Ref(None, orders[i].head.number)) == Some(i)
  {
  }

  lemma PromiseAt(st: State, i: nat, ref: Ref, note: Option<string>)
    requires Inv(st) && i < |st.db.orders| && st.db.orders[i].status == AwaitingPayment && FindRef(st.db.orders, ref) == Some(i)
    ensures PaidOrder(st, ref).1 == Ok(i)
    ensures TransitionedOrder(st, ref, OrderStatus.Cancelled, note).1 == Ok(i)
  {
    PaymentFindsOwnIntent(st.db.orders[i], st.intents);
    PayAwaiting(st, i, OwnIntent(st.db.orders[i]));
    CancelAwaiting(st, i, note);
  }

  lemma OrderResponses(st: State, ref: Ref, target: OrderStatus, note: Option<string>)
    ensures Step(st, PayOrder(ref)).1 == OrderResponse(PaidOrder(st, ref).1)
    ensures Step(st, ChangeStatus(ref, target, note)).1 == OrderResponse(TransitionedOrder(st, ref, target, note).1)
    ensures target == Paid ==> TransitionedOrder(st, ref, target, note) == PaidOrder(st, ref)
  {
  }

  /** From every reachable state, an unpaid order can be paid and can be cancelled. */
  lemma PromiseCanBeKept(calls: seq<Call>, st: State, i: nat, ref: Ref, note: Option<string>)
    requires RunOk(EMPTY, calls) && st == Run(EMPTY, calls)
    requires i < |st.db.orders| && st.db.orders[i].status == AwaitingPayment && FindRef(st.db.orders, ref) == Some(i)
    ensures Step(st, PayOrder(ref)).1 == Ok(Some(i))
    ensures Step(st, ChangeStatus(ref, Paid, note)).1 == Ok(Some(i))
    ensures Step(st, ChangeStatus(ref, OrderStatus.Cancelled, note)).1 == Ok(Some(i))
  {
    RunKeepsInv(EMPTY, calls);
    PromiseAt(st, i, ref, note);
    OrderResponses(st, ref, Paid, note);
    OrderResponses(st, ref, OrderStatus.Cancelled, note);
  }

  /** While it is paid or cancelled, no line of an unpaid order meets a clamp. */
  lemma ClampsNeverAct(calls: seq<Call>, i: nat, k: nat)
    requires RunOk(EMPTY, calls)
    requires var orders := Run(EMPTY, calls).db.orders;
      i < |orders| && orders[i].status == AwaitingPayment && k < |Inputs(orders[i].lines)|
    ensures var db := Run(EMPTY, calls).db;
            var lines := Inputs(db.orders[i].lines);
            var line := lines[k];
            var releasing, committing := ApplyAll(db.rows, ReleaseOps(lines[..k])), ApplyAll(db.rows, CommitOps(lines[..k]));
      && releasing.Ok? && line.variantId in releasing.value
      && releasing.value[line.variantId].reserved - line.quantity >= 0
      && committing.Ok? && line.variantId in committing.value
      && committing.value[line.variantId].reserved - line.quantity >= 0
      && committing.value[line.variantId].quantity - line.quantity >= 0
  {
    RunKeepsInv(EMPTY, calls);
    var db := Run(EMPTY, calls).db;
    PromiseCovered(db, i);
    ReleaseNeverClamps(db.rows, Inputs(db.orders[i].lines), k);
    CommitNeverClamps(db.rows, Inputs(db.orders[i].lines), k);
  }

  lemma AdjustAt(rows: Rows, op: Op, before: Row)
    requires SoundRows(rows) && op.Adjust?
    requires before == if op.variantId in rows then rows[op.variantId] else Row(0, 0)
    ensures if before.quantity + op.delta >= before.reserved
            then Apply(rows, op) == Ok(rows[op.variantId := Row(before.quantity + op.delta, before.reserved)])
            else Apply(rows, op) == Err(InsufficientStock)
  {
  }

  /** In every reachable state, an adjustment is accepted exactly when it leaves what is
      reserved, and then changes the quantity by exactly its delta. */
  lemma AdjustmentIsExact(calls: seq<Call>, rows: Rows, op: Op, before: Row)
    requires RunOk(EMPTY, calls) && rows == Run(EMPTY, calls).db.rows && op.Adjust?
    requires before == if op.variantId in rows then rows[op.variantId] else Row(0, 0)
    ensures if before.quantity + op.delta >= before.reserved
            then Apply(rows, op) == Ok(rows[op.variantId := Row(before.quantity + op.delta, before.reserved)])
            else Apply(rows, op) == Err(InsufficientStock)
  {
    RunKeepsInv(EMPTY, calls);
    AdjustAt(rows, op, before);
  }

  // ----- stock conservation -----

  function Existing(rows: Rows, v: VariantId): int {
    if v in rows then rows[v].quantity else 0
  }

  /** Units that a call brings into the shop. */
  function Intake(st: State, call: Call, v: VariantId): int {
    match call
    case OpenStock(u, quantity) => if u == v && v !in st.db.rows then quantity else 0
    case AdjustStock(u, delta, reason, note) =>
      if u == v && StockStep(st.db, Adjust(u, delta, reason, note)).Ok? then delta else 0
    case _ => 0
  }

  function TotalIntake(st: State, calls: seq<Call>, v: VariantId): int {
    if calls == [] then 0
    else TotalIntake(st, calls[..|calls| - 1], v) + Intake(Run(st, calls[..|calls| - 1]), calls[|calls| - 1], v)
  }

  function Sold(db: Database, v: VariantId): nat {
    UnitsIn(db.orders, v, SETTLED)
  }

  lemma MoveConserves(st: State, i: nat, row: OrderRow, rows: Rows, v: VariantId)
    requires Inv(st) && i < |st.db.orders|
    requires row.lines == st.db.orders[i].lines
    requires if st.db.orders[i].status == AwaitingPayment && row.status == Paid
             then rows == Committed(st.db.rows, Inputs(row.lines))
             else Existing(rows, v) == Existing(st.db.rows, v) && (row.status in SETTLED <==> st.db.orders[i].status in SETTLED)
    ensures Existing(rows, v) + UnitsIn(st.db.orders[i := row], v, SETTLED) == Existing(st.db.rows, v) + Sold(st.db, v)
  {
    UnitsUpdate(st.db.orders, i, row, v, SETTLED);
    if st.db.orders[i].status == AwaitingPayment && row.status == Paid {
      PromiseCovered(st.db, i);
      DemandMentioned(Inputs(row.lines), v);
    }
  }

  lemma PayConserves(st: State, ref: Ref, v: VariantId)
    requires Inv(st)
    ensures var after := PaidOrder(st, ref).0;
      Existing(after.db.rows, v) + Sold(after.db, v) == Existing(st.db.rows, v) + Sold(st.db, v)
  {
    var after := PaidOrder(st, ref).0;
    if after.db != st.db {
      var i := FindRef(st.db.orders, ref).value;
      var own := IntentRef(st.db.orders[i].events).value;
      OnlyUnpaidIsPaid(st.db.orders[i], Some(CONFIRMED + own));
      PayAwaiting(st, i, own);
      MoveConserves(st, i, Transitioned(st.db.orders[i], Paid, Some(CONFIRMED + own)).value, after.db.rows, v);
    }
  }

  lemma CancelConserves(st: State, i: nat, note: Option<string>, v: VariantId)
    requires Inv(st) && i < |st.db.orders| && st.db.orders[i].status == AwaitingPayment
    ensures var moved := MovedWithStock(st.db, i, OrderStatus.Cancelled, note, ReleaseOps(Inputs(st.db.orders[i].lines)));
      moved.Ok? && Existing(moved.value.rows, v) + Sold(moved.value, v) == Existing(st.db.rows, v) + Sold(st.db, v)
  {
    CancelAwaiting(st, i, note);
    var row := Transitioned(st.db.orders[i], OrderStatus.Cancelled, note).value;
    MoveConserves(st, i, row, Released(st.db.rows, Inputs(row.lines)), v);
  }

  lemma SettledConserves(st: State, i: nat, target: OrderStatus, note: Option<string>, v: VariantId)
    requires Inv(st) && i < |st.db.orders| && Transitioned(st.db.orders[i], target, note).Ok?
    requires target != Paid && target != OrderStatus.Cancelled
    ensures var moved := MovedWithStock(st.db, i, target, note, []);
      moved.Ok? && Existing(moved.value.rows, v) + Sold(moved.value, v) == Existing(st.db.rows, v) + Sold(st.db, v)
  {
    NoDrafts(st.db.orders[i]);
    SettledMoveKeepsInv(st, i, target, note);
    MoveConserves(st, i, Transitioned(st.db.orders[i], target, note).value, st.db.rows, v);
  }

  lemma ChangeConserves(st: State, ref: Ref, target: OrderStatus, note: Option<string>, v: VariantId)
    requires Inv(st)
    ensures var after := TransitionedOrder(st, ref, target, note).0;
      Existing(after.db.rows, v) + Sold(after.db, v) == Existing(st.db.rows, v) + Sold(st.db, v)
  {
    var found := FindRef(st.db.orders, ref);
    if target == Paid {
      PayConserves(st, ref, v);
    } else if found.Some? && Transitioned(st.db.orders[found.value], target, note).Ok? {
      if target == OrderStatus.Cancelled {
        NoDrafts(st.db.orders[found.value]);
        CancelConserves(st, found.value, note, v);
      } else {
        SettledConserves(st, found.value, target, note, v);
      }
    }
  }

  lemma PlacedConserves(st: State, a: CheckoutArgs, cart: CartRow, draft: OrderRow, v: VariantId)
    ensures var after := PlacedState(st, a, cart, draft);
      Existing(after.db.rows, v) == Existing(st.db.rows, v) && Sold(after.db, v) == Sold(st.db, v)
  {
    UnitsSnoc(st.db.orders, Submitted(draft, a.intentRef), v, SETTLED);
  }

  lemma CheckoutConserves(st: State, a: CheckoutArgs, v: VariantId)
    requires Inv(st)
    ensures var after := CheckedOut(st, a).0;
      Existing(after.db.rows, v) == Existing(st.db.rows, v) && Sold(after.db, v) == Sold(st.db, v)
  {
    if Proceeds(st.db, a) {
      var cart, draft := PlacingGives(st, a);
      PlacedConserves(st, a, cart, draft, v);
    } else {
      StandsStill(st, a);
    }
  }

  lemma StockCallConserves(st: State, call: Call, v: VariantId)
    requires Inv(st) && (call.AdjustStock? || call.OpenStock?)
    ensures var after := Step(st, call).0;
      Existing(after.db.rows, v) == Existing(st.db.rows, v) + Intake(st, call, v) && Sold(after.db, v) == Sold(st.db, v)
  {
  }

  lemma StepConserves(st: State, call: Call, v: VariantId)
    requires Inv(st) && Admissible(st, call)
    ensures var after := Step(st, call).0;
      Existing(after.db.rows, v) + Sold(after.db, v) == Existing(st.db.rows, v) + Sold(st.db, v) + Intake(st, call, v)
  {
    match call
    case PayOrder(ref) => PayConserves(st, ref, v);
    case ChangeStatus(ref, target, note) => ChangeConserves(st, ref, target, note, v);
    case PlaceOrder(args) => CheckoutConserves(st, args, v);
    case AdjustStock(_, _, _, _) => StockCallConserves(st, call, v);
    case OpenStock(_, _) => StockCallConserves(st, call, v);
    case _ => assert Step(st, call).0.db.rows == st.db.rows && Step(st, call).0.db.orders == st.db.orders;
  }

  /** Over any run: what exists, plus what paid orders took, is what was there plus everything
      opened and adjusted. Refunds do not restock. */
  lemma {:induction false} StockIsConserved(st: State, calls: seq<Call>, v: VariantId)
    requires Inv(st) && RunOk(st, calls)
    ensures var after := Run(st, calls).db;
      Existing(after.rows, v) + Sold(after, v) == Existing(st.db.rows, v) + Sold(st.db, v) + TotalIntake(st, calls, v)
  {
    if calls != [] {
      var n := |calls| - 1;
      LastCall(st, calls);
      RunKeepsInv(st, calls[..n]);
      StockIsConserved(st, calls[..n], v);
      StepConserves(Run(st, calls[..n]), calls[n], v);
    }
  }

  // ----- the ledger explains the row -----

  /** The row of v is what it was opened with plus what the ledger records about it. */
  predicate Explained(db: Database, v: VariantId, opening: int) {
    if v in db.rows then
      db.rows[v].reserved == LedgerReserved(db.ledger, v) && db.rows[v].quantity == opening + LedgerQuantity(db.ledger, v)
    else
      LedgerReserved(db.ledger, v) == 0 && opening + LedgerQuantity(db.ledger, v) == 0
  }

  /** An adjustment is not recorded under a reason of the order lifecycle. */
  predicate HonestReason(call: Call) {
    call.AdjustStock? ==> call.reason !in LIFECYCLE_REASONS
  }

  function Opening(st: State, call: Call, v: VariantId): int {
    if call.OpenStock? && call.variantId == v && v !in st.db.rows then call.quantity else 0
  }

  function TotalOpening(st: State, calls: seq<Call>, v: VariantId): int {
    if calls == [] then 0
    else TotalOpening(st, calls[..|calls| - 1], v) + Opening(Run(st, calls[..|calls| - 1]), calls[|calls| - 1], v)
  }

  /** An accepted adjustment stays explained exactly when its reason is honest or its delta 0. */
  lemma AdjustExplainedIff(db: Database, v: VariantId, delta: int, reason: string, note: Option<string>, opening: int)
    requires StockAgrees(db.rows, db.orders) && Explained(db, v, opening)
    requires StockStep(db, Adjust(v, delta, reason, note)).Ok?
    ensures Explained(StockStep(db, Adjust(v, delta, reason, note)).value, v, opening)
        <==> reason !in LIFECYCLE_REASONS || delta == 0
  {
    var op := Adjust(v, delta, reason, note);
    LedgerConcat(db.ledger, Entries(op), v);
    assert Entries(op)[..0] == [];
  }

  lemma AdjustElsewhere(db: Database, op: Op, v: VariantId, opening: int)
    requires op.Adjust? && op.variantId != v && StockStep(db, op).Ok? && Explained(db, v, opening)
    ensures Explained(StockStep(db, op).value, v, opening)
  {
    LedgerConcat(db.ledger, Entries(op), v);
    assert Entries(op)[..0] == [];
  }

  lemma CommittedRow(rows: Rows, lines: seq<LineInput>, v: VariantId)
    requires SoundRows(rows) && v in rows && Demand(lines, v) <= rows[v].reserved
    ensures Committed(rows, lines)[v] == Row(rows[v].quantity - Demand(lines, v), rows[v].reserved - Demand(lines, v))
  {
  }

  lemma CommitExplained(db: Database, lines: seq<LineInput>, after: Database, v: VariantId, opening: int)
    requires SoundRows(db.rows) && Explained(db, v, opening) && AllPositive(lines)
    requires if v in db.rows then Demand(lines, v) <= db.rows[v].reserved else Demand(lines, v) == 0
    requires after.rows == Committed(db.rows, lines) && after.ledger == db.ledger + EntriesOfAll(CommitOps(lines))
    ensures Explained(after, v, opening)
  {
    LedgerConcat(db.ledger, EntriesOfAll(CommitOps(lines)), v);
    LedgerOfCommit(lines, v);
    if v in db.rows {
      CommittedRow(db.rows, lines, v);
    }
  }

  lemma ReleasedRow(rows: Rows, lines: seq<LineInput>, v: VariantId)
    requires SoundRows(rows) && v in rows && Demand(lines, v) <= rows[v].reserved
    ensures Released(rows, lines)[v] == Row(rows[v].quantity, rows[v].reserved - Demand(lines, v))
  {
  }

  lemma ReleaseExplained(db: Database, lines: seq<LineInput>, after: Database, v: VariantId, opening: int)
    requires SoundRows(db.rows) && Explained(db, v, opening) && AllPositive(lines)
    requires if v in db.rows then Demand(lines, v) <= db.rows[v].reserved else Demand(lines, v) == 0
    requires after.rows == Released(db.rows, lines) && after.ledger == db.ledger + EntriesOfAll(ReleaseOps(lines))
    ensures Explained(after, v, opening)
  {
    LedgerConcat(db.ledger, EntriesOfAll(ReleaseOps(lines)), v);
    LedgerOfRelease(lines, v);
    if v in db.rows {
      ReleasedRow(db.rows, lines, v);
    }
  }

  lemma MovedLedger(db: Database, i: nat, target: OrderStatus, note: Option<string>, ops: seq<Op>)
    requires i < |db.orders| && MovedWithStock(db, i, target, note, ops).Ok?
    ensures MovedWithStock(db, i, target, note, ops).value.ledger == db.ledger + EntriesOfAll(ops)
  {
  }

  lemma PayExplained(st: State, ref: Ref, v: VariantId, opening: int)
    requires Inv(st) && Explained(st.db, v, opening)
    ensures Explained(PaidOrder(st, ref).0.db, v, opening)
  {
    var after := PaidOrder(st, ref).0;
    if after.db != st.db {
      var i := FindRef(st.db.orders, ref).value;
      var own := IntentRef(st.db.orders[i].events).value;
      var lines := Inputs(st.db.orders[i].lines);
      OnlyUnpaidIsPaid(st.db.orders[i], Some(CONFIRMED + own));
      PayAwaiting(st, i, own);
      MovedLedger(st.db, i, Paid, Some(CONFIRMED + own), CommitOps(lines));
      PromiseCovered(st.db, i);
      DemandMentioned(lines, v);
      CommitExplained(st.db, lines, after.db, v, opening);
    }
  }

  lemma CancelExplained(st: State, i: nat, note: Option<string>, v: VariantId, opening: int)
    requires Inv(st) && Explained(st.db, v, opening) && i < |st.db.orders| && st.db.orders[i].status == AwaitingPayment
    ensures var moved := MovedWithStock(st.db, i, OrderStatus.Cancelled, note, ReleaseOps(Inputs(st.db.orders[i].lines)));
      moved.Ok? && Explained(moved.value, v, opening)
  {
    var lines := Inputs(st.db.orders[i].lines);
    CancelAwaiting(st, i, note);
    MovedLedger(st.db, i, OrderStatus.Cancelled, note, ReleaseOps(lines));
    PromiseCovered(st.db, i);
    DemandMentioned(lines, v);
    ReleaseExplained(st.db, lines, MovedWithStock(st.db, i, OrderStatus.Cancelled, note, ReleaseOps(lines)).value, v, opening);
  }

  lemma ChangeExplained(st: State, ref: Ref, target: OrderStatus, note: Option<string>, v: VariantId, opening: int)
    requires Inv(st) && Explained(st.db, v, opening)
    ensures Explained(TransitionedOrder(st, ref, target, note).0.db, v, opening)
  {
    var after := TransitionedOrder(st, ref, target, note).0;
    if target == Paid {
      PayExplained(st, ref, v, opening);
    } else if after.db != st.db {
      var i := FindRef(st.db.orders, ref).value;
      NoDrafts(st.db.orders[i]);
      if target == OrderStatus.Cancelled {
        CancelExplained(st, i, note, v, opening);
      } else {
        MovedLedger(st.db, i, target, note, []);
        assert st.db.ledger + [] == st.db.ledger;
      }
    }
  }

  lemma PlacedExplained(st: State, a: CheckoutArgs, cart: CartRow, draft: OrderRow, v: VariantId, opening: int)
    requires Explained(st.db, v, opening)
    requires AllPositive(CartInputs(cart.lines)) && CanReserve(st.db.rows, CartInputs(cart.lines))
    ensures Explained(PlacedState(st, a, cart, draft).db, v, opening)
  {
    var lines := CartInputs(cart.lines);
    DemandMentioned(lines, v);
    LedgerConcat(st.db.ledger, EntriesOfAll(ReserveOps(lines)), v);
    LedgerOfReserve(lines, v);
  }

  lemma CheckoutExplained(st: State, a: CheckoutArgs, v: VariantId, opening: int)
    requires Inv(st) && Explained(st.db, v, opening)
    ensures Explained(CheckedOut(st, a).0.db, v, opening)
  {
    if Proceeds(st.db, a) {
      var cart, draft := PlacingGives(st, a);
      PlacedExplained(st, a, cart, draft, v, opening);
    } else {
      StandsStill(st, a);
    }
  }

  lemma AdjustExplained(db: Database, op: Op, v: VariantId, opening: int)
    requires StockAgrees(db.rows, db.orders) && Explained(db, v, opening)
    requires op.Adjust? && op.reason !in LIFECYCLE_REASONS && StockStep(db, op).Ok?
    ensures Explained(StockStep(db, op).value, v, opening)
  {
    if op.variantId == v {
      AdjustExplainedIff(db, v, op.delta, op.reason, op.note, opening);
    } else {
      AdjustElsewhere(db, op, v, opening);
    }
  }

  lemma StepExplained(st: State, call: Call, v: VariantId, opening: int)
    requires Inv(st) && HonestReason(call) && Explained(st.db, v, opening)
    ensures Explained(Step(st, call).0.db, v, opening + Opening(st, call, v))
  {
    match call
    case PayOrder(ref) => PayExplained(st, ref, v, opening);
    case ChangeStatus(ref, target, note) => ChangeExplained(st, ref, target, note, v, opening);
    case PlaceOrder(args) => CheckoutExplained(st, args, v, opening);
    case AdjustStock(u, delta, reason, note) =>
      if StockStep(st.db, Adjust(u, delta, reason, note)).Ok? {
        AdjustExplained(st.db, Adjust(u, delta, reason, note), v, opening);
      }
    case _ =>
  }

  /** Over any run with honest reasons, the ledger explains every row. */
  lemma {:induction false} LedgerExplainsRows(calls: seq<Call>, v: VariantId)
    requires RunOk(EMPTY, calls) && forall i :: 0 <= i < |calls| ==> HonestReason(calls[i])
    ensures Explained(Run(EMPTY, calls).db, v, TotalOpening(EMPTY, calls, v))
  {
    if calls != [] {
      var n := |calls| - 1;
      LastCall(EMPTY, calls);
      RunKeepsInv(EMPTY, calls[..n]);
      LedgerExplainsRows(calls[..n], v);
      StepExplained(Run(EMPTY, calls[..n]), calls[n], v, TotalOpening(EMPTY, calls[..n], v));
    }
  }

  // ----- orders are records -----

  /** What checkout froze stays frozen, and the event log only grows. */
  predicate Frozen(before: OrderRow, after: OrderRow) {
    before.head == after.head && before.lines == after.lines && before.events <= after.events
  }

  ghost predicate OrdersKept(before: seq<OrderRow>, after: seq<OrderRow>) {
    |before| <= |after| && forall i :: 0 <= i < |before| ==> Frozen(before[i], after[i])
  }

  lemma StepKeepsOrders(st: State, call: Call)
    ensures OrdersKept(st.db.orders, Step(st, call).0.db.orders)
  {
  }

  /** No call, price change or other order ever rewrites what a customer bought. */
  lemma {:induction false} RunKeepsOrders(st: State, calls: seq<Call>)
    ensures OrdersKept(st.db.orders, Run(st, calls).db.orders)
  {
    if calls != [] {
      RunKeepsOrders(st, calls[..|calls| - 1]);
      StepKeepsOrders(Run(st, calls[..|calls| - 1]), calls[|calls| - 1]);
    }
  }

  /** Only a payment or status change that names an order moves it. */
  lemma OnlyNamedOrderMoves(st: State, call: Call, i: nat)
    requires i < |st.db.orders|
    requires call.PayOrder? || call.ChangeStatus? ==> FindRef(st.db.orders, call.ref) != Some(i)
    ensures Step(st, call).0.db.orders[i] == st.db.orders[i]
  {
  }

  /** In every reachable state, an identifier, a number or a given key owns at most one order. */
  lemma NamesOwnOneOrder(calls: seq<Call>, i: nat, j: nat)
    requires RunOk(EMPTY, calls)
    requires i < |Run(EMPTY, calls).db.orders| && j < |Run(EMPTY, calls).db.orders|
    ensures var a, b := Run(EMPTY, calls).db.orders[i].head, Run(EMPTY, calls).db.orders[j].head;
      a.id == b.id || a.number == b.number || (a.key.Some? && a.key == b.key) ==> i == j
  {
    RunKeepsInv(EMPTY, calls);
  }

  // ----- replays -----

  predicate IsReplayCall(st: State, call: Call) {
    call.PlaceOrder? && IsReplay(st.db, call.args)
  }

  lemma ReplayAt(st: State, i: nat, a: CheckoutArgs)
    requires UniqueOrders(st.db.orders) && i < |st.db.orders|
    requires a.key.Some? && a.key.value != "" && st.db.orders[i].head.key == a.key
    ensures Step(st, PlaceOrder(a)) == (st, Ok(Some(i)))
  {
    var j := FindKey(st.db.orders, a.key.value).value;
    assert st.db.orders[j].head.key == st.db.orders[i].head.key;
  }

  /** Once a key owns an order, every later checkout with that key returns that order and
      changes nothing, whatever happened to the cart or the order in between. */
  lemma ReplayReturnsOwner(st: State, calls: seq<Call>, i: nat, a: CheckoutArgs)
    requires Inv(st) && RunOk(st, calls) && i < |st.db.orders|
    requires a.key.Some? && a.key.value != "" && st.db.orders[i].head.key == a.key
    ensures Step(Run(st, calls), PlaceOrder(a)) == (Run(st, calls), Ok(Some(i)))
  {
    RunKeepsInv(st, calls);
    RunKeepsOrders(st, calls);
    assert Frozen(st.db.orders[i], Run(st, calls).db.orders[i]);
    ReplayAt(Run(st, calls), i, a);
  }

  /** The run without its replays. */
  function WithoutReplays(st: State, calls: seq<Call>): seq<Call> {
    if calls == [] then []
    else
      var n := |calls| - 1;
      if IsReplayCall(Run(st, calls[..n]), calls[n]) then WithoutReplays(st, calls[..n])
      else WithoutReplays(st, calls[..n]) + [calls[n]]
  }

  lemma {:induction false} ReplaysCanBeErased(st: State, calls: seq<Call>)
    ensures Run(st, WithoutReplays(st, calls)) == Run(st, calls)
  {
    if calls != [] {
      var n := |calls| - 1;
      ReplaysCanBeErased(st, calls[..n]);
      if !IsReplayCall(Run(st, calls[..n]), calls[n]) {
        var kept := WithoutReplays(st, calls[..n]);
        assert (kept + [calls[n]])[..|kept|] == kept;
      }
    }
  }

  ghost predicate Places(st: State, call: Call) {
    call.PlaceOrder? && |Step(st, call).0.db.orders| > |st.db.orders|
  }

  /** Some call of the run placed an order under this key. */
  ghost predicate PlacedUnder(calls: seq<Call>, key: string) {
    calls != [] &&
    var n := |calls| - 1;
    PlacedUnder(calls[..n], key)
    || (Places(Run(EMPTY, calls[..n]), calls[n]) && calls[n].args.key == Some(key))
  }

  lemma {:induction false} OwnedIffPlaced(calls: seq<Call>, key: string)
    ensures OwnsKey(Run(EMPTY, calls).db.orders, key) <==> PlacedUnder(calls, key)
  {
    if calls != [] {
      var n := |calls| - 1;
      OwnedIffPlaced(calls[..n], key);
      StepKeysExactly(Run(EMPTY, calls[..n]), calls[n], key);
    }
  }

  /** A checkout is a replay exactly when it has a key, the key is not empty, and an earlier request
      placed an order under it. */
  lemma ReplayIffPlacedBefore(calls: seq<Call>, a: CheckoutArgs)
    ensures IsReplay(Run(EMPTY, calls).db, a)
        <==> a.key.Some? && a.key.value != "" && PlacedUnder(calls, a.key.value)
  {
    if a.key.Some? {
      OwnedIffPlaced(calls, a.key.value);
    }
  }

  predicate OwnsKey(orders: seq<OrderRow>, key: string) {
    FindKey(orders, key).Some?
  }

  lemma KeysOfKept(before: seq<OrderRow>, after: seq<OrderRow>, key: string)
    requires OrdersKept(before, after)
    ensures OwnsKey(before, key) ==> OwnsKey(after, key)
    ensures |before| == |after| && OwnsKey(after, key) ==> OwnsKey(before, key)
  {
    if OwnsKey(before, key) {
      assert Frozen(before[FindKey(before, key).value], after[FindKey(before, key).value]);
    }
    if |before| == |after| && OwnsKey(after, key) {
      assert Frozen(before[FindKey(after, key).value], after[FindKey(after, key).value]);
    }
  }

  /** One step adds an owner of a key exactly when it places an order under it. */
  lemma StepKeysExactly(st: State, call: Call, key: string)
    ensures OwnsKey(Step(st, call).0.db.orders, key)
        <==> OwnsKey(st.db.orders, key) || (Places(st, call) && call.args.key == Some(key))
  {
    StepKeepsOrders(st, call);
    KeysOfKept(st.db.orders, Step(st, call).0.db.orders, key);
    if Places(st, call) {
      CheckoutKeysExactly(st, call.args, key);
    }
  }

  /** The order a checkout appends carries the key of the request. */
  lemma CheckoutAppends(st: State, a: CheckoutArgs) returns (row: OrderRow)
    requires |CheckedOut(st, a).0.db.orders| > |st.db.orders|
    ensures CheckedOut(st, a).0.db.orders == st.db.orders + [row] && row.head.key == a.key
  {
    var (cart, draft, reserved) := Reserving(st.db, a).value;
    row := Submitted(draft, a.intentRef);
  }

  lemma CheckoutKeysExactly(st: State, a: CheckoutArgs, key: string)
    requires |CheckedOut(st, a).0.db.orders| > |st.db.orders|
    ensures OwnsKey(CheckedOut(st, a).0.db.orders, key) <==> OwnsKey(st.db.orders, key) || a.key == Some(key)
  {
    var row := CheckoutAppends(st, a);
    OwnsKeySnoc(st.db.orders, row, key);
  }

  lemma OwnsKeySnoc(orders: seq<OrderRow>, row: OrderRow, key: string)
    ensures OwnsKey(orders + [row], key) <==> OwnsKey(orders, key) || row.head.key == Some(key)
  {
    assert (orders + [row])[..|orders|] == orders;
  }

  // ----- carts -----

  /** The cart a call may change. */
  function CartOf(call: Call): Option<string> {
    match call
    case CreateCart(token, _, _, _) => Some(token)
    case AddLine(token, _, _, _, _, _) => Some(token)
    case UpdateLine(token, _, _, _) => Some(token)
    case PlaceOrder(args) => Some(args.token)
    case _ => None
  }

  /** No call through one token touches another cart. */
  lemma CartsAreIsolated(st: State, call: Call, token: string)
    requires CartOf(call) != Some(token)
    ensures token in Step(st, call).0.db.carts <==> token in st.db.carts
    ensures token in st.db.carts ==> Step(st, call).0.db.carts[token] == st.db.carts[token]
  {
  }

  predicate IsConverted(st: State, token: string) {
    token in st.db.carts && st.db.carts[token].status == Converted
  }

  lemma StepKeepsConverted(st: State, call: Call, token: string)
    requires IsConverted(st, token)
    ensures IsConverted(Step(st, call).0, token)
  {
    if CartOf(call) != Some(token) {
      CartsAreIsolated(st, call, token);
    }
  }

  lemma {:induction false} ConvertedForever(st: State, calls: seq<Call>, i: nat, token: string)
    requires i <= |calls| && IsConverted(Run(st, calls[..i]), token)
    ensures IsConverted(Run(st, calls), token)
  {
    if i < |calls| {
      var n := |calls| - 1;
      assert calls[..n][..i] == calls[..i];
      ConvertedForever(st, calls[..n], i, token);
      StepKeepsConverted(Run(st, calls[..n]), calls[n], token);
    } else {
      assert calls[..i] == calls;
    }
  }

  lemma PlacingConverts(st: State, call: Call)
    requires Places(st, call)
    ensures IsConverted(Step(st, call).0, call.args.token) && !IsConverted(st, call.args.token)
  {
    var (cart, draft, reserved) := Reserving(st.db, call.args).value;
  }

  /** Each cart yields at most one order. */
  lemma CartYieldsOneOrder(st: State, calls: seq<Call>, i: nat, j: nat)
    requires i < j < |calls|
    requires Places(Run(st, calls[..i]), calls[i]) && Places(Run(st, calls[..j]), calls[j])
    ensures calls[i].args.token != calls[j].args.token
  {
    assert calls[..i + 1][..i] == calls[..i];
    PlacingConverts(Run(st, calls[..i]), calls[i]);
    assert calls[..j][..i + 1] == calls[..i + 1];
    ConvertedForever(st, calls[..j], i + 1, calls[i].args.token);
    PlacingConverts(Run(st, calls[..j]), calls[j]);
  }

  // ----- checkout, all or nothing -----

  /** With its other guards satisfied, checkout succeeds exactly when every variant's content of
      the cart is available and the provider exists; it then promises exactly that content. */
  lemma CheckoutSucceedsExactly(st: State, a: CheckoutArgs)
    requires Inv(st) && !IsReplay(st.db, a)
    requires ActiveCart(st.db.carts, a.token, a.now).Ok? && st.db.carts[a.token].lines != []
    requires DraftOrder(st.db, a, st.db.carts[a.token]).Ok?
    requires Storable(st.db.orders, DraftOrder(st.db, a, st.db.carts[a.token]).value).Ok?
    ensures var cart := st.db.carts[a.token];
            var (after, r) := CheckedOut(st, a);
      && (r.Ok? <==> a.provider == MOCK && forall v: VariantId :: Content(cart.lines, v) > 0 ==>
                       v in st.db.rows && Content(cart.lines, v) <= st.db.rows[v].Available())
      && (r.Err? ==> after == st)
      && (r.Ok? ==> after.db.rows.Keys == st.db.rows.Keys && forall v :: v in st.db.rows ==>
                       after.db.rows[v] == st.db.rows[v].(reserved := st.db.rows[v].reserved + Content(cart.lines, v)))
  {
    var cart := st.db.carts[a.token];
    var lines := CartInputs(cart.lines);
    ReserveAllExact(st.db.rows, lines);
    CartDemand(cart);
    ContentAvailable(st.db.rows, cart);
  }

  lemma CartDemand(cart: CartRow)
    requires SoundCart(cart)
    ensures AllPositive(CartInputs(cart.lines))
    ensures forall v: VariantId :: Demand(CartInputs(cart.lines), v) == Content(cart.lines, v)
  {
    DemandIsContent(cart, 0);
    forall v: VariantId
      ensures Demand(CartInputs(cart.lines), v) == Content(cart.lines, v)
    {
      DemandIsContent(cart, v);
    }
  }

  lemma ContentAvailable(rows: Rows, cart: CartRow)
    requires SoundCart(cart)
    ensures CanReserve(rows, CartInputs(cart.lines)) <==>
      forall v: VariantId :: Content(cart.lines, v) > 0 ==> v in rows && Content(cart.lines, v) <= rows[v].Available()
  {
    var lines := CartInputs(cart.lines);
    CartDemand(cart);
    forall v: VariantId
      ensures Demand(lines, v) > 0 <==> Mentions(lines, v)
    {
      DemandMentioned(lines, v);
    }
    if CanReserve(rows, lines) {
      forall v: VariantId | Content(cart.lines, v) > 0
        ensures v in rows && Content(cart.lines, v) <= rows[v].Available()
      {
        assert Mentions(lines, v);
        var i :| 0 <= i < |lines| && lines[i].variantId == v;
      }
    }
    if forall v: VariantId :: Content(cart.lines, v) > 0 ==> v in rows && Content(cart.lines, v) <= rows[v].Available() {
      forall i | 0 <= i < |lines|
        ensures lines[i].variantId in rows && Demand(lines, lines[i].variantId) <= rows[lines[i].variantId].Available()
      {
        assert Mentions(lines, lines[i].variantId);
      }
    }
  }

  // ----- payment -----

  lemma PaysExactlyAt(st: State, ref: Ref)
    requires Inv(st)
    ensures var found := FindRef(st.db.orders, ref);
      PaidOrder(st, ref).1.Ok? <==> found.Some? && st.db.orders[found.value].status == AwaitingPayment
  {
    var found := FindRef(st.db.orders, ref);
    if found.Some? {
      if st.db.orders[found.value].status == AwaitingPayment {
        PromiseAt(st, found.value, ref, None);
      }
    }
  }

  /** In every reachable state, paying succeeds exactly for an unpaid order. */
  lemma PaysExactlyUnpaid(calls: seq<Call>, st: State, ref: Ref)
    requires RunOk(EMPTY, calls) && st == Run(EMPTY, calls)
    ensures var found := FindRef(st.db.orders, ref);
      Step(st, PayOrder(ref)).1.Ok? <==> found.Some? && st.db.orders[found.value].status == AwaitingPayment
  {
    RunKeepsInv(EMPTY, calls);
    PaysExactlyAt(st, ref);
    OrderResponses(st, ref, Paid, None);
  }

  /** Orders whose status an operator may change this way; payments are requests of their own. */
  ghost predicate OperatorMay(from: OrderStatus, target: OrderStatus) {
    (target == OrderStatus.Cancelled && from == AwaitingPayment)
    || (target == Fulfilled && from == Paid)
    || (target == Completed && from == Fulfilled)
    || (target == Refunded && from in {Paid, Fulfilled, Completed})
  }

  /** The row with its status changed and one event appended. */
  ghost predicate Moved(before: OrderRow, after: OrderRow, target: OrderStatus, note: Option<string>) {
    after.head == before.head && after.lines == before.lines && after.status == target
    && after.events == before.events + [OrderEvent(Some(before.status), target, note)]
  }

  /** Only order i moved, carts stayed, and each row lost these units of quantity and of reserved. */
  ghost predicate OnlyMoved(db: Database, after: Database, i: nat, target: OrderStatus, note: Option<string>,
                            gone: VariantId -> nat, freed: VariantId -> nat)
  {
    && i < |db.orders| && |after.orders| == |db.orders| && after.carts == db.carts
    && Moved(db.orders[i], after.orders[i], target, note)
    && (forall k :: 0 <= k < |db.orders| && k != i ==> after.orders[k] == db.orders[k])
    && after.rows.Keys == db.rows.Keys
    && (forall v :: v in db.rows ==> after.rows[v] == Row(db.rows[v].quantity - gone(v), db.rows[v].reserved - freed(v)))
  }

  function UnitsAsked(row: OrderRow): VariantId -> nat {
    (v: VariantId) => Demand(Inputs(row.lines), v)
  }

  function NoUnits(): VariantId -> nat {
    (v: VariantId) => 0
  }

  lemma CancelledMeans(st: State, i: nat, note: Option<string>)
    requires Inv(st) && i < |st.db.orders| && st.db.orders[i].status == AwaitingPayment
    ensures var row := st.db.orders[i];
            var moved := MovedWithStock(st.db, i, OrderStatus.Cancelled, note, ReleaseOps(Inputs(row.lines)));
      moved.Ok? && OnlyMoved(st.db, moved.value, i, OrderStatus.Cancelled, note, NoUnits(), UnitsAsked(row))
  {
    CancelAwaiting(st, i, note);
    PromiseCovered(st.db, i);
    ReleasedCovered(st.db.rows, Inputs(st.db.orders[i].lines));
    TransitionMeans(st.db.orders[i], OrderStatus.Cancelled, note);
  }

  lemma SettledMeans(st: State, i: nat, target: OrderStatus, note: Option<string>)
    requires Inv(st) && i < |st.db.orders| && OperatorMay(st.db.orders[i].status, target) && target != OrderStatus.Cancelled
    ensures var moved := MovedWithStock(st.db, i, target, note, []);
      moved.Ok? && OnlyMoved(st.db, moved.value, i, target, note, NoUnits(), NoUnits())
  {
    TransitionMeans(st.db.orders[i], target, note);
    SettledMoveKeepsInv(st, i, target, note);
  }

  /** The effect of an operator's change: the order moves, and a cancelled one gives its units back. */
  ghost predicate Changed(st: State, after: State, i: nat, target: OrderStatus, note: Option<string>) {
    && i < |st.db.orders| && after.intents == st.intents
    && OnlyMoved(st.db, after.db, i, target, note, NoUnits(),
                 if target == OrderStatus.Cancelled then UnitsAsked(st.db.orders[i]) else NoUnits())
  }

  lemma ChangeMeans(st: State, ref: Ref, target: OrderStatus, note: Option<string>)
    requires Inv(st) && target != Paid
    ensures var found := FindRef(st.db.orders, ref);
            var (after, r) := TransitionedOrder(st, ref, target, note);
      && (r.Ok? <==> found.Some? && OperatorMay(st.db.orders[found.value].status, target))
      && (r.Ok? ==> r == Ok(found.value) && Changed(st, after, found.value, target, note))
      && (r.Err? ==> after == st && r.error == if found.None? then OrderNotFound else InvalidStatusTransition)
  {
    var found := FindRef(st.db.orders, ref);
    if found.Some? {
      var i := found.value;
      assert SoundOrder(st.db.orders[i]);
      NoDrafts(st.db.orders[i]);
      TransitionMeans(st.db.orders[i], target, note);
      if OperatorMay(st.db.orders[i].status, target) {
        if target == OrderStatus.Cancelled {
          CancelledMeans(st, i, note);
        } else {
          SettledMeans(st, i, target, note);
        }
      }
    }
  }

  /** In every reachable state, an operator's change of status other than to paid succeeds exactly
      along the life cycle of the order it finds. It appends one event with the note; a cancelled
      order gives its units back, and nothing else changes. */
  lemma ChangeSucceedsExactly(calls: seq<Call>, st: State, ref: Ref, target: OrderStatus, note: Option<string>)
    requires RunOk(EMPTY, calls) && st == Run(EMPTY, calls) && target != Paid
    ensures var found := FindRef(st.db.orders, ref);
            var (after, r) := Step(st, ChangeStatus(ref, target, note));
      && (r.Ok? <==> found.Some? && OperatorMay(st.db.orders[found.value].status, target))
      && (r.Ok? ==> r == Ok(Some(found.value)) && Changed(st, after, found.value, target, note))
      && (r.Err? ==> after == st && r.error == if found.None? then OrderNotFound else InvalidStatusTransition)
  {
    RunKeepsInv(EMPTY, calls);
    ChangeMeans(st, ref, target, note);
    ChangingStep(st, ref, target, note);
  }

  lemma ChangingStep(st: State, ref: Ref, target: OrderStatus, note: Option<string>)
    ensures Step(st, ChangeStatus(ref, target, note))
         == (TransitionedOrder(st, ref, target, note).0, OrderResponse(TransitionedOrder(st, ref, target, note).1))
  {
  }

  lemma PaidMeans(st: State, i: nat)
    requires Inv(st) && i < |st.db.orders| && st.db.orders[i].status == AwaitingPayment
    ensures var row := st.db.orders[i];
            var own := OwnIntent(row);
            var moved := MovedWithStock(st.db, i, Paid, Some(CONFIRMED + own), CommitOps(Inputs(row.lines)));
      && IntentRef(row.events) == Some(own) && own in st.intents && moved.Ok?
      && OnlyMoved(st.db, moved.value, i, Paid, Some("confirmed:" + own), UnitsAsked(row), UnitsAsked(row))
  {
    var row := st.db.orders[i];
    var own := OwnIntent(row);
    PaymentFindsOwnIntent(row, st.intents);
    PayAwaiting(st, i, own);
    PromiseCovered(st.db, i);
    CommittedCovered(st.db.rows, Inputs(row.lines));
    TransitionMeans(row, Paid, Some("confirmed:" + own));
  }

  lemma PaymentMeans(st: State, ref: Ref, i: nat)
    requires Inv(st) && FindRef(st.db.orders, ref) == Some(i) && st.db.orders[i].status == AwaitingPayment
    ensures var row := st.db.orders[i];
            var own := OwnIntent(row);
            var (after, r) := PaidOrder(st, ref);
      && r == Ok(i) && own in st.intents
      && OnlyMoved(st.db, after.db, i, Paid, Some("confirmed:" + own), UnitsAsked(row), UnitsAsked(row))
      && after.intents == st.intents[own := st.intents[own].(captured := true)]
  {
    PaidMeans(st, i);
  }

  /** In every reachable state, paying an unpaid order deducts its units, captures its own intent,
      and appends one event that names it; nothing else changes. */
  lemma PaymentRecords(calls: seq<Call>, st: State, ref: Ref, i: nat)
    requires RunOk(EMPTY, calls) && st == Run(EMPTY, calls)
    requires FindRef(st.db.orders, ref) == Some(i) && st.db.orders[i].status == AwaitingPayment
    ensures var row := st.db.orders[i];
            var (after, r) := Step(st, PayOrder(ref));
      && r == Ok(Some(i)) && row.events != [] && OwnIntent(row) in st.intents
      && OnlyMoved(st.db, after.db, i, Paid, Some("confirmed:" + OwnIntent(row)), UnitsAsked(row), UnitsAsked(row))
      && after.intents == st.intents[OwnIntent(row) := st.intents[OwnIntent(row)].(captured := true)]
  {
    RunKeepsInv(EMPTY, calls);
    PaymentMeans(st, ref, i);
    PayingStepIs(st, ref);
  }

  lemma PayingStepIs(st: State, ref: Ref)
    ensures Step(st, PayOrder(ref)) == (PaidOrder(st, ref).0, OrderResponse(PaidOrder(st, ref).1))
  {
  }

  /** The error of every payment that is refused in a reachable state. */
  lemma PaymentRefusals(st: State, ref: Ref)
    requires Inv(st)
    ensures var found, r := FindRef(st.db.orders, ref), PaidOrder(st, ref).1;
      && (found.None? ==> r == Err(OrderNotFound))
      && (found.Some? && st.db.orders[found.value].status != AwaitingPayment ==>
            (var reference := IntentRef(st.db.orders[found.value].events);
             r == Err(if reference.Some? && reference.value in st.intents then InvalidStatusTransition else PaymentFailed)))
  {
    var found := FindRef(st.db.orders, ref);
    if found.Some? {
      TransitionMeans(st.db.orders[found.value], Paid, None);
    }
  }

  ghost predicate WasPaid(row: OrderRow) {
    exists k :: 0 <= k < |row.events| && row.events[k].to == Paid
  }

  ghost predicate HasCapturedIntent(row: OrderRow, intents: map<string, Intent>) {
    exists ref :: ref in intents && row.events != [] && row.events[0].note == Some(INTENT + ref)
      && intents[ref] == Intent(row.head.number, row.head.total, row.head.currency, true)
  }

  lemma CapturedOncePaid(row: OrderRow, intents: map<string, Intent>)
    requires TrueHistory(row) && Linked(row, intents) && WasPaid(row)
    ensures HasCapturedIntent(row, intents)
  {
    var k :| 0 <= k < |row.events| && row.events[k].to == Paid;
    PaidStaysSettled(row, k, |row.events| - 1);
    assert OwnIntent(row) in intents;
  }

  /** In every reachable state, an order that is or was paid has a captured intent, issued at its
      own checkout, for its number, amount and currency. */
  lemma PaidIsCaptured(calls: seq<Call>, st: State, i: nat)
    requires RunOk(EMPTY, calls) && st == Run(EMPTY, calls)
    requires i < |st.db.orders| && WasPaid(st.db.orders[i])
    ensures HasCapturedIntent(st.db.orders[i], st.intents)
  {
    RunKeepsInv(EMPTY, calls);
    assert SoundOrder(st.db.orders[i]) && Linked(st.db.orders[i], st.intents);
    CapturedOncePaid(st.db.orders[i], st.intents);
  }

  lemma {:induction false} PaidStaysSettled(row: OrderRow, k: nat, n: nat)
    requires TrueHistory(row) && k <= n < |row.events| && row.events[k].to == Paid
    ensures row.events[n].to in SETTLED
  {
    if k < n {
      PaidStaysSettled(row, k, n - 1);
    }
  }

  /** The event log of every reachable order is a true, short history. */
  lemma EventLogIsTrueHistory(calls: seq<Call>, i: nat)
    requires RunOk(EMPTY, calls) && i < |Run(EMPTY, calls).db.orders|
    ensures var row := Run(EMPTY, calls).db.orders[i];
      && TrueHistory(row) && 1 <= |row.events| <= 5
      && forall j, k :: 0 <= j < k < |row.events| ==> row.events[j].to != row.events[k].to
  {
    RunKeepsInv(EMPTY, calls);
    HistoryIsShort(Run(EMPTY, calls).db.orders[i]);
  }
}
