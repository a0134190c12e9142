/** What the stock ledger says under each reason, over whole runs. */
module Ledger {
  import opened Prelude
  import opened Lines
  import opened Stock
  import opened Orders
  import opened Tables
  import opened Carts
  import opened Checkout
  import opened Api
  import opened Invariant
  import opened Runs

  /** What the ledger records about v under one reason. */
  function ReasonSum(ledger: seq<Movement>, v: VariantId, reason: string): int {
    if ledger == [] then 0
    else
      var m := ledger[|ledger| - 1];
      ReasonSum(ledger[..|ledger| - 1], v, reason) + if m.variantId == v && m.reason == reason then m.delta else 0
  }

  lemma {:induction false} ReasonConcat(a: seq<Movement>, b: seq<Movement>, v: VariantId, reason: string)
    ensures ReasonSum(a + b, v, reason) == ReasonSum(a, v, reason) + ReasonSum(b, v, reason)
  {
    if b == [] {
      assert a + b == a;
    } else {
      var n := |b| - 1;
      assert (a + b)[..|a + b| - 1] == a + b[..n];
      ReasonConcat(a, b[..n], v, reason);
    }
  }

  lemma ReasonOne(m: Movement, v: VariantId, reason: string)
    ensures ReasonSum([m], v, reason) == if m.variantId == v && m.reason == reason then m.delta else 0
  {
    assert [m][..0] == [];
  }

  /** The reason under which an operation is recorded. */
  function ReasonOf(op: Op): string {
    match op
    case Reserve(_, _) => "reserve"
    case Release(_, _) => "release"
    case Commit(_, _) => "commit"
    case Adjust(_, _, reason, _) => reason
  }

  /** One more operation of an order, of a positive quantity. */
  lemma ReasonSnoc(ops: seq<Op>, op: Op, v: VariantId, reason: string)
    requires !op.Adjust? && op.quantity > 0
    ensures ReasonSum(EntriesOfAll(ops + [op]), v, reason)
         == ReasonSum(EntriesOfAll(ops), v, reason)
            + if op.variantId != v || ReasonOf(op) != reason then 0 else if op.Reserve? then op.quantity else 0 - op.quantity
  {
    assert (ops + [op])[..|ops|] == ops;
    ReasonConcat(EntriesOfAll(ops), Entries(op), v, reason);
    assert |Entries(op)| == 1 && Entries(op)[..0] == [];
  }

  // ----- the three loops -----

  lemma {:induction false} ReasonOfReserve(lines: seq<LineInput>, v: VariantId, reason: string)
    requires AllPositive(lines)
    ensures ReasonSum(EntriesOfAll(ReserveOps(lines)), v, reason) == if reason == "reserve" then Demand(lines, v) else 0
  {
    if lines != [] {
      var n := |lines| - 1;
      var op := Reserve(lines[n].variantId, lines[n].quantity);
      assert ReserveOps(lines) == ReserveOps(lines[..n]) + [op];
      ReasonOfReserve(lines[..n], v, reason);
      ReasonSnoc(ReserveOps(lines[..n]), op, v, reason);
    }
  }

  lemma {:induction false} ReasonOfRelease(lines: seq<LineInput>, v: VariantId, reason: string)
    requires AllPositive(lines)
    ensures ReasonSum(EntriesOfAll(ReleaseOps(lines)), v, reason) == if reason == "release" then 0 - Demand(lines, v) else 0
  {
    if lines != [] {
      var n := |lines| - 1;
      var op := Release(lines[n].variantId, lines[n].quantity);
      assert ReleaseOps(lines) == ReleaseOps(lines[..n]) + [op];
      ReasonOfRelease(lines[..n], v, reason);
      ReasonSnoc(ReleaseOps(lines[..n]), op, v, reason);
    }
  }

  lemma {:induction false} ReasonOfCommit(lines: seq<LineInput>, v: VariantId, reason: string)
    requires AllPositive(lines)
    ensures ReasonSum(EntriesOfAll(CommitOps(lines)), v, reason) == if reason == "commit" then 0 - Demand(lines, v) else 0
  {
    if lines != [] {
      var n := |lines| - 1;
      var op := Commit(lines[n].variantId, lines[n].quantity);
      assert CommitOps(lines) == CommitOps(lines[..n]) + [op];
      ReasonOfCommit(lines[..n], v, reason);
      ReasonSnoc(CommitOps(lines[..n]), op, v, reason);
    }
  }

  // ----- the requests -----

  const EVER_PLACED := {Draft, AwaitingPayment, Paid, Fulfilled, Completed, OrderStatus.Cancelled, Refunded}

  /** What is recorded about v under a reason of the order lifecycle, from what orders hold: "reserve" what
      all of them ever asked for, "release" minus what cancelled ones did, "commit" minus what paid
      ones did. */
  function Due(orders: seq<OrderRow>, v: VariantId, reason: string): int {
    if reason == "reserve" then UnitsIn(orders, v, EVER_PLACED)
    else if reason == "release" then 0 - UnitsIn(orders, v, {OrderStatus.Cancelled})
    else if reason == "commit" then 0 - UnitsIn(orders, v, {Paid, Fulfilled, Completed, Refunded})
    else 0
  }

  ghost predicate Accounted(db: Database, v: VariantId, reason: string, adjusted: int) {
    ReasonSum(db.ledger, v, reason) == Due(db.orders, v, reason) + adjusted
  }

  lemma PaidIsDue(orders: seq<OrderRow>, i: nat, row: OrderRow, v: VariantId, reason: string)
    requires i < |orders| && row.lines == orders[i].lines && orders[i].status == AwaitingPayment && row.status == Paid
    ensures Due(orders[i := row], v, reason)
         == Due(orders, v, reason) + if reason == "commit" then 0 - Demand(Inputs(row.lines), v) else 0
  {
    UnitsUpdate(orders, i, row, v, EVER_PLACED);
    UnitsUpdate(orders, i, row, v, {OrderStatus.Cancelled});
    UnitsUpdate(orders, i, row, v, {Paid, Fulfilled, Completed, Refunded});
  }

  lemma CancelledIsDue(orders: seq<OrderRow>, i: nat, row: OrderRow, v: VariantId, reason: string)
    requires i < |orders| && row.lines == orders[i].lines && orders[i].status == AwaitingPayment && row.status == OrderStatus.Cancelled
    ensures Due(orders[i := row], v, reason)
         == Due(orders, v, reason) + if reason == "release" then 0 - Demand(Inputs(row.lines), v) else 0
  {
    UnitsUpdate(orders, i, row, v, EVER_PLACED);
    UnitsUpdate(orders, i, row, v, {OrderStatus.Cancelled});
    UnitsUpdate(orders, i, row, v, {Paid, Fulfilled, Completed, Refunded});
  }

  lemma SettledIsDue(orders: seq<OrderRow>, i: nat, row: OrderRow, v: VariantId, reason: string)
    requires i < |orders| && row.lines == orders[i].lines && orders[i].status in SETTLED && row.status in SETTLED
    ensures Due(orders[i := row], v, reason) == Due(orders, v, reason)
  {
    UnitsUpdate(orders, i, row, v, EVER_PLACED);
    UnitsUpdate(orders, i, row, v, {OrderStatus.Cancelled});
    UnitsUpdate(orders, i, row, v, {Paid, Fulfilled, Completed, Refunded});
  }

  lemma MoveAccounted(db: Database, i: nat, row: OrderRow, ops: seq<Op>, v: VariantId, reason: string, adjusted: int)
    requires i < |db.orders| && Accounted(db, v, reason, adjusted)
    requires Due(db.orders[i := row], v, reason) == Due(db.orders, v, reason) + ReasonSum(EntriesOfAll(ops), v, reason)
    ensures Accounted(db.(orders := db.orders[i := row], ledger := db.ledger + EntriesOfAll(ops)), v, reason, adjusted)
  {
    ReasonConcat(db.ledger, EntriesOfAll(ops), v, reason);
  }

  lemma MoveIsDue(before: OrderRow, target: OrderStatus, row: OrderRow, orders: seq<OrderRow>, i: nat, ops: seq<Op>, v: VariantId, reason: string)
    requires i < |orders| && orders[i] == before && row.lines == before.lines && row.status == target
    requires MayBecome(before.status, target) && before.status != Draft && AllPositive(Inputs(before.lines))
    requires ops == (if target == Paid then CommitOps(Inputs(before.lines))
                     else if target == OrderStatus.Cancelled then ReleaseOps(Inputs(before.lines)) else [])
    ensures Due(orders[i := row], v, reason) == Due(orders, v, reason) + ReasonSum(EntriesOfAll(ops), v, reason)
  {
    if target == Paid {
      PaidIsDue(orders, i, row, v, reason);
      ReasonOfCommit(Inputs(row.lines), v, reason);
    } else if target == OrderStatus.Cancelled {
      CancelledIsDue(orders, i, row, v, reason);
      ReasonOfRelease(Inputs(row.lines), v, reason);
    } else {
      SettledIsDue(orders, i, row, v, reason);
    }
  }

  lemma MovedIsAccounted(st: State, i: nat, target: OrderStatus, note: Option<string>, ops: seq<Op>, v: VariantId, reason: string, adjusted: int)
    requires Inv(st) && i < |st.db.orders| && Accounted(st.db, v, reason, adjusted)
    requires MovedWithStock(st.db, i, target, note, ops).Ok?
    requires ops == (if target == Paid then CommitOps(Inputs(st.db.orders[i].lines))
                     else if target == OrderStatus.Cancelled then ReleaseOps(Inputs(st.db.orders[i].lines)) else [])
    ensures Accounted(MovedWithStock(st.db, i, target, note, ops).value, v, reason, adjusted)
  {
    var row := Transitioned(st.db.orders[i], target, note).value;
    TransitionMeans(st.db.orders[i], target, note);
    assert SoundOrder(st.db.orders[i]);
    NoDrafts(st.db.orders[i]);
    MovedLedger(st.db, i, target, note, ops);
    MoveIsDue(st.db.orders[i], target, row, st.db.orders, i, ops, v, reason);
    MoveAccounted(st.db, i, row, ops, v, reason, adjusted);
  }

  lemma PayAccounted(st: State, ref: Ref, v: VariantId, reason: string, adjusted: int)
    requires Inv(st) && Accounted(st.db, v, reason, adjusted)
    ensures Accounted(PaidOrder(st, ref).0.db, v, reason, adjusted)
  {
    var after := PaidOrder(st, ref).0;
    if after.db != st.db {
      var i := FindRef(st.db.orders, ref).value;
      var own := IntentRef(st.db.orders[i].events).value;
      MovedIsAccounted(st, i, Paid, Some(CONFIRMED + own), CommitOps(Inputs(st.db.orders[i].lines)), v, reason, adjusted);
    }
  }

  lemma ChangeAccounted(st: State, ref: Ref, target: OrderStatus, note: Option<string>, v: VariantId, reason: string, adjusted: int)
    requires Inv(st) && Accounted(st.db, v, reason, adjusted)
    ensures Accounted(TransitionedOrder(st, ref, target, note).0.db, v, reason, adjusted)
  {
    var after := TransitionedOrder(st, ref, target, note).0;
    if target == Paid {
      PayAccounted(st, ref, v, reason, adjusted);
    } else if after.db != st.db {
      var i := FindRef(st.db.orders, ref).value;
      var ops := if target == OrderStatus.Cancelled then ReleaseOps(Inputs(st.db.orders[i].lines)) else [];
      MovedIsAccounted(st, i, target, note, ops, v, reason, adjusted);
    }
  }

  lemma PlacedAccounted(st: State, a: CheckoutArgs, cart: CartRow, draft: OrderRow, v: VariantId, reason: string, adjusted: int)
    requires Accounted(st.db, v, reason, adjusted)
    requires Inputs(draft.lines) == CartInputs(cart.lines) && AllPositive(CartInputs(cart.lines))
    ensures Accounted(PlacedState(st, a, cart, draft).db, v, reason, adjusted)
  {
    var row := Submitted(draft, a.intentRef);
    UnitsSnoc(st.db.orders, row, v, EVER_PLACED);
    UnitsSnoc(st.db.orders, row, v, {OrderStatus.Cancelled});
    UnitsSnoc(st.db.orders, row, v, {Paid, Fulfilled, Completed, Refunded});
    ReasonConcat(st.db.ledger, EntriesOfAll(ReserveOps(CartInputs(cart.lines))), v, reason);
    ReasonOfReserve(CartInputs(cart.lines), v, reason);
  }

  lemma CheckoutAccounted(st: State, a: CheckoutArgs, v: VariantId, reason: string, adjusted: int)
    requires Inv(st) && Accounted(st.db, v, reason, adjusted)
    ensures Accounted(CheckedOut(st, a).0.db, v, reason, adjusted)
  {
    if Proceeds(st.db, a) {
      var cart, draft := PlacingGives(st, a);
      PlacedAccounted(st, a, cart, draft, v, reason, adjusted);
    } else {
      StandsStill(st, a);
    }
  }

  /** What an accepted adjustment adds under its reason. */
  function Adjusted(st: State, call: Call, v: VariantId, reason: string): int {
    if call.AdjustStock? && call.variantId == v && call.reason == reason && Step(st, call).1.Ok? then call.delta else 0
  }

  lemma AdjustAccounted(db: Database, op: Op, v: VariantId, reason: string, adjusted: int)
    requires op.Adjust? && StockStep(db, op).Ok? && Accounted(db, v, reason, adjusted)
    ensures Accounted(StockStep(db, op).value, v, reason,
                      adjusted + if op.variantId == v && op.reason == reason then op.delta else 0)
  {
    ReasonConcat(db.ledger, Entries(op), v, reason);
    ReasonOne(Movement(op.variantId, op.delta, op.reason, op.note), v, reason);
  }

  lemma StepAccounted(st: State, call: Call, v: VariantId, reason: string, adjusted: int)
    requires Inv(st) && Accounted(st.db, v, reason, adjusted)
    ensures Accounted(Step(st, call).0.db, v, reason, adjusted + Adjusted(st, call, v, reason))
  {
    match call
    case PayOrder(ref) => PayAccounted(st, ref, v, reason, adjusted);
    case ChangeStatus(ref, target, note) => ChangeAccounted(st, ref, target, note, v, reason, adjusted);
    case PlaceOrder(args) => CheckoutAccounted(st, args, v, reason, adjusted);
    case AdjustStock(u, delta, why, note) => AdjustStepAccounted(st, call, v, reason, adjusted);
    case _ => OtherCallsRecordNothing(st, call);
  }

  lemma AdjustStepAccounted(st: State, call: Call, v: VariantId, reason: string, adjusted: int)
    requires call.AdjustStock? && Accounted(st.db, v, reason, adjusted)
    ensures Accounted(Step(st, call).0.db, v, reason, adjusted + Adjusted(st, call, v, reason))
  {
    var op := Adjust(call.variantId, call.delta, call.reason, call.note);
    if StockStep(st.db, op).Ok? {
      AdjustAccounted(st.db, op, v, reason, adjusted);
    }
  }

  lemma OtherCallsRecordNothing(st: State, call: Call)
    requires call.CreateCart? || call.AddLine? || call.UpdateLine? || call.OpenStock?
    ensures Step(st, call).0.db.ledger == st.db.ledger && Step(st, call).0.db.orders == st.db.orders
  {
  }

  /** What all accepted adjustments of a run add under a reason. */
  function TotalAdjusted(st: State, calls: seq<Call>, v: VariantId, reason: string): int {
    if calls == [] then 0
    else TotalAdjusted(st, calls[..|calls| - 1], v, reason) + Adjusted(Run(st, calls[..|calls| - 1]), calls[|calls| - 1], v, reason)
  }

  /** Over any run, what the ledger records about v under any reason is what the orders account for
      plus what was adjusted under that reason. */
  lemma {:induction false} LedgerIsAccounted(calls: seq<Call>, v: VariantId, reason: string)
    requires RunOk(EMPTY, calls)
    ensures Accounted(Run(EMPTY, calls).db, v, reason, TotalAdjusted(EMPTY, calls, v, reason))
  {
    if calls != [] {
      var n := |calls| - 1;
      LastCall(EMPTY, calls);
      RunKeepsInv(EMPTY, calls[..n]);
      LedgerIsAccounted(calls[..n], v, reason);
      StepAccounted(Run(EMPTY, calls[..n]), calls[n], v, reason, TotalAdjusted(EMPTY, calls[..n], v, reason));
    }
  }

  lemma {:induction false} HonestAdjustsElsewhere(calls: seq<Call>, v: VariantId, reason: string)
    requires reason in LIFECYCLE_REASONS && forall i :: 0 <= i < |calls| ==> HonestReason(calls[i])
    ensures TotalAdjusted(EMPTY, calls, v, reason) == 0
  {
    if calls != [] {
      HonestAdjustsElsewhere(calls[..|calls| - 1], v, reason);
    }
  }

  /** Over any run with honest reasons, "reserve" records the units of every order ever placed,
      "release" those of the cancelled ones and "commit" those of the ones that were paid. */
  lemma ReasonsExplainOrders(calls: seq<Call>, v: VariantId)
    requires RunOk(EMPTY, calls) && forall i :: 0 <= i < |calls| ==> HonestReason(calls[i])
    ensures var db := Run(EMPTY, calls).db;
      && ReasonSum(db.ledger, v, "reserve") == UnitsIn(db.orders, v, EVER_PLACED)
      && ReasonSum(db.ledger, v, "release") == 0 - UnitsIn(db.orders, v, {OrderStatus.Cancelled})
      && ReasonSum(db.ledger, v, "commit") == 0 - UnitsIn(db.orders, v, {Paid, Fulfilled, Completed, Refunded})
  {
    LedgerIsAccounted(calls, v, "reserve");
    LedgerIsAccounted(calls, v, "release");
    LedgerIsAccounted(calls, v, "commit");
    HonestAdjustsElsewhere(calls, v, "reserve");
    HonestAdjustsElsewhere(calls, v, "release");
    HonestAdjustsElsewhere(calls, v, "commit");
  }

  // ----- the entries themselves -----

  /** One entry a line, in the order of the lines. */
  function EntriesFor(lines: seq<LineInput>, sign: int, reason: string): seq<Movement> {
    seq(|lines|, i requires 0 <= i < |lines| => Movement(lines[i].variantId, sign * lines[i].quantity, reason, None))
  }

  lemma EntriesSnoc(ops: seq<Op>, op: Op, lines: seq<LineInput>, sign: int, reason: string)
    requires lines != [] && EntriesOfAll(ops) == EntriesFor(lines[..|lines| - 1], sign, reason)
    requires var last := lines[|lines| - 1];
      Entries(op) == [Movement(last.variantId, sign * last.quantity, reason, None)]
    ensures EntriesOfAll(ops + [op]) == EntriesFor(lines, sign, reason)
  {
    assert (ops + [op])[..|ops|] == ops;
  }

  lemma {:induction false} ReserveEntries(lines: seq<LineInput>)
    ensures EntriesOfAll(ReserveOps(lines)) == EntriesFor(lines, 1, "reserve")
  {
    if lines != [] {
      var n := |lines| - 1;
      var op := Reserve(lines[n].variantId, lines[n].quantity);
      assert ReserveOps(lines) == ReserveOps(lines[..n]) + [op];
      ReserveEntries(lines[..n]);
      EntriesSnoc(ReserveOps(lines[..n]), op, lines, 1, "reserve");
    }
  }

  lemma {:induction false} ReleaseEntries(lines: seq<LineInput>)
    requires AllPositive(lines)
    ensures EntriesOfAll(ReleaseOps(lines)) == EntriesFor(lines, -1, "release")
  {
    if lines != [] {
      var n := |lines| - 1;
      var op := Release(lines[n].variantId, lines[n].quantity);
      assert ReleaseOps(lines) == ReleaseOps(lines[..n]) + [op];
      ReleaseEntries(lines[..n]);
      EntriesSnoc(ReleaseOps(lines[..n]), op, lines, -1, "release");
    }
  }

  lemma {:induction false} CommitEntries(lines: seq<LineInput>)
    requires AllPositive(lines)
    ensures EntriesOfAll(CommitOps(lines)) == EntriesFor(lines, -1, "commit")
  {
    if lines != [] {
      var n := |lines| - 1;
      var op := Commit(lines[n].variantId, lines[n].quantity);
      assert CommitOps(lines) == CommitOps(lines[..n]) + [op];
      CommitEntries(lines[..n]);
      EntriesSnoc(CommitOps(lines[..n]), op, lines, -1, "commit");
    }
  }

  /** A placed order is recorded line by line as reserved. */
  lemma CheckoutWrites(st: State, a: CheckoutArgs)
    requires Inv(st) && !IsReplay(st.db, a) && CheckedOut(st, a).1.Ok?
    ensures a.token in st.db.carts
    ensures CheckedOut(st, a).0.db.ledger == st.db.ledger + EntriesFor(CartInputs(st.db.carts[a.token].lines), 1, "reserve")
  {
    var cart, draft := PlacingGives(st, a);
    ReserveEntries(CartInputs(cart.lines));
  }

  lemma MoveWrites(st: State, i: nat, target: OrderStatus, note: Option<string>, ops: seq<Op>)
    requires Inv(st) && i < |st.db.orders| && MovedWithStock(st.db, i, target, note, ops).Ok?
    requires ops == (if target == Paid then CommitOps(Inputs(st.db.orders[i].lines))
                     else if target == OrderStatus.Cancelled then ReleaseOps(Inputs(st.db.orders[i].lines)) else [])
    ensures var lines := Inputs(st.db.orders[i].lines);
      MovedWithStock(st.db, i, target, note, ops).value.ledger
      == st.db.ledger + (if target == Paid then EntriesFor(lines, -1, "commit")
                         else if target == OrderStatus.Cancelled then EntriesFor(lines, -1, "release") else [])
  {
    assert SoundOrder(st.db.orders[i]);
    MovedLedger(st.db, i, target, note, ops);
    ReleaseEntries(Inputs(st.db.orders[i].lines));
    CommitEntries(Inputs(st.db.orders[i].lines));
  }

  /** A paid order is recorded line by line as committed, a cancelled one as released, and any other
      change not at all. */
  lemma ChangeWrites(st: State, ref: Ref, target: OrderStatus, note: Option<string>)
    requires Inv(st) && TransitionedOrder(st, ref, target, note).1.Ok?
    ensures FindRef(st.db.orders, ref).Some?
    ensures var lines := Inputs(st.db.orders[FindRef(st.db.orders, ref).value].lines);
      TransitionedOrder(st, ref, target, note).0.db.ledger
      == st.db.ledger + (if target == Paid then EntriesFor(lines, -1, "commit")
                         else if target == OrderStatus.Cancelled then EntriesFor(lines, -1, "release") else [])
  {
    var i := FindRef(st.db.orders, ref).value;
    if target == Paid {
      var own := IntentRef(st.db.orders[i].events).value;
      MoveWrites(st, i, Paid, Some(CONFIRMED + own), CommitOps(Inputs(st.db.orders[i].lines)));
    } else {
      var ops := if target == OrderStatus.Cancelled then ReleaseOps(Inputs(st.db.orders[i].lines)) else [];
      MoveWrites(st, i, target, note, ops);
    }
  }

  /** An adjustment is recorded as it was requested, and changes one row; opening stock creates a row
      and records nothing. */
  lemma StockCallsWrite(st: State, v: VariantId, delta: int, reason: string, note: Option<string>, quantity: int)
    requires Inv(st)
    ensures var before := if v in st.db.rows then st.db.rows[v] else Row(0, 0);
            var (after, r) := Step(st, AdjustStock(v, delta, reason, note));
      if before.quantity + delta >= before.reserved
      then r == Ok(None) && after == st.(db := st.db.(rows := st.db.rows[v := Row(before.quantity + delta, before.reserved)],
                                                      ledger := st.db.ledger + [Movement(v, delta, reason, note)]))
      else r == Err(InsufficientStock) && after == st
    ensures Step(st, OpenStock(v, quantity))
         == (if v in st.db.rows then st else st.(db := st.db.(rows := st.db.rows[v := Row(quantity, 0)])), Ok(None))
  {
    AdjustAt(st.db.rows, Adjust(v, delta, reason, note), if v in st.db.rows then st.db.rows[v] else Row(0, 0));
  }
}
