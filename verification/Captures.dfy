/** Captured intents and paid orders: `pay` confirms an intent before it looks at the status. */
module Captures {
  import opened Prelude
  import opened Orders
  import opened Tables
  import opened Checkout
  import opened Api
  import opened Invariant
  import opened Runs
  import opened CheckoutLaws

  // ----- when an intent is captured -----

  predicate IsCaptured(st: State, ref: string) {
    ref in st.intents && st.intents[ref].captured
  }

  /** A payment request, by the customer or an operator, whose order's notes lead to this intent. */
  predicate Attempts(st: State, call: Call, ref: string) {
    (call.PayOrder? || (call.ChangeStatus? && call.target == Paid))
    && var found := FindRef(st.db.orders, call.ref);
       found.Some? && IntentRef(st.db.orders[found.value].events) == Some(ref) && ref in st.intents
  }

  /** Some call of the run was such a request. */
  predicate Attempted(calls: seq<Call>, ref: string) {
    calls != [] &&
    var n := |calls| - 1;
    Attempted(calls[..n], ref) || Attempts(Run(EMPTY, calls[..n]), calls[n], ref)
  }

  lemma PayCaptures(st: State, order: Ref, ref: string)
    ensures IsCaptured(PaidOrder(st, order).0, ref) <==> IsCaptured(st, ref) || Attempts(st, PayOrder(order), ref)
  {
  }

  lemma StepCaptures(st: State, call: Call, ref: string)
    requires Admissible(st, call)
    ensures IsCaptured(Step(st, call).0, ref) <==> IsCaptured(st, ref) || Attempts(st, call, ref)
  {
    match call
    case PayOrder(order) => PayCaptures(st, order, ref);
    case ChangeStatus(order, target, _) =>
      if target == Paid {
        PayCaptures(st, order, ref);
      }
    case _ =>
  }

  /** Over any run an intent is captured if and only if some payment request reached it, whether
      that request then succeeded or was refused. */
  lemma {:induction false} CapturedIffAttempted(calls: seq<Call>, ref: string)
    requires RunOk(EMPTY, calls)
    ensures IsCaptured(Run(EMPTY, calls), ref) <==> Attempted(calls, ref)
  {
    if calls != [] {
      var n := |calls| - 1;
      LastCall(EMPTY, calls);
      CapturedIffAttempted(calls[..n], ref);
      StepCaptures(Run(EMPTY, calls[..n]), calls[n], ref);
    }
  }

  // ----- what a payment request finds -----

  /** No later event repeats the prefix that marks an intent. */
  predicate NotesStayPlain(row: OrderRow) {
    forall k :: 0 < k < |row.events| && row.events[k].note.Some? ==> !(INTENT <= row.events[k].note.value)
  }

  lemma {:induction false} SearchReachesFirst(row: OrderRow, n: nat)
    requires 1 <= n <= |row.events| && NotesStayPlain(row)
    ensures IntentRef(row.events[..n]) == IntentRef(row.events[..1])
  {
    if n > 1 {
      SearchReachesFirst(row, n - 1);
      assert row.events[..n][..n - 1] == row.events[..n - 1];
    }
  }

  /** Unless a later note repeats the prefix, the search ends at the order's own intent. */
  lemma PlainFindsOwn(row: OrderRow, intents: map<string, Intent>)
    requires Linked(row, intents) && NotesStayPlain(row)
    ensures IntentRef(row.events) == Some(OwnIntent(row))
  {
    SearchReachesFirst(row, |row.events|);
    assert row.events[..|row.events|] == row.events && row.events[..1][..0] == [];
    IntentPrefix(OwnIntent(row));
  }

  lemma RefusedAt(st: State, i: nat, ref: Ref)
    requires Inv(st) && i < |st.db.orders| && FindRef(st.db.orders, ref) == Some(i)
    requires st.db.orders[i].status != AwaitingPayment
    ensures PaidOrder(st, ref).1.Err? && PaidOrder(st, ref).0.db == st.db
  {
  }

  /** A payment of an order that is not unpaid any more is refused and changes no table. It
      captures the order's own intent if and only if the search over the notes ends there; with
      plain notes it does, also for an order that was cancelled and never paid. */
  lemma RefusedPaymentCaptures(calls: seq<Call>, st: State, i: nat, ref: Ref)
    requires RunOk(EMPTY, calls) && st == Run(EMPTY, calls)
    requires i < |st.db.orders| && FindRef(st.db.orders, ref) == Some(i) && st.db.orders[i].status != AwaitingPayment
    ensures st.db.orders[i].events != []
    ensures var (after, r) := Step(st, PayOrder(ref));
            var row, own := st.db.orders[i], OwnIntent(st.db.orders[i]);
      && r.Err? && after.db == st.db
      && (IsCaptured(after, own) <==> IsCaptured(st, own) || IntentRef(row.events) == Some(own))
      && (NotesStayPlain(row) ==> IsCaptured(after, own))
  {
    RunKeepsInv(EMPTY, calls);
    assert Linked(st.db.orders[i], st.intents);
    RefusedAt(st, i, ref);
    PayingStepIs(st, ref);
    PayCaptures(st, ref, OwnIntent(st.db.orders[i]));
    if NotesStayPlain(st.db.orders[i]) {
      PlainFindsOwn(st.db.orders[i], st.intents);
    }
  }

  // ----- when a captured intent means a paid order -----

  lemma PaidByStatus(row: OrderRow)
    requires TrueHistory(row)
    ensures WasPaid(row) <==> row.status in SETTLED
  {
    if row.status in SETTLED {
      SettledWasPaid(row, |row.events| - 1);
    }
    if WasPaid(row) {
      var k :| 0 <= k < |row.events| && row.events[k].to == Paid;
      PaidStaysSettled(row, k, |row.events| - 1);
    }
  }

  /** A payment request that captures an intent leaves its order paid, now or before, if and only
      if the order was not cancelled. */
  lemma CaptureMeansPaidIff(st: State, ref: Ref, i: nat, own: string)
    requires Inv(st) && FindRef(st.db.orders, ref) == Some(i)
    requires IntentRef(st.db.orders[i].events) == Some(own) && own in st.intents
    ensures var after := PaidOrder(st, ref).0;
      IsCaptured(after, own) && i < |after.db.orders|
      && (WasPaid(after.db.orders[i]) <==> st.db.orders[i].status != OrderStatus.Cancelled)
  {
    var row := st.db.orders[i];
    assert SoundOrder(row);
    NoDrafts(row);
    PayCaptures(st, ref, own);
    PayKeepsInv(st, ref);
    if row.status == AwaitingPayment {
      PaysInto(st, ref, i, own);
    } else {
      RefusedAt(st, i, ref);
    }
    PaidByStatus(PaidOrder(st, ref).0.db.orders[i]);
  }

  lemma PaysInto(st: State, ref: Ref, i: nat, own: string)
    requires Inv(st) && FindRef(st.db.orders, ref) == Some(i) && st.db.orders[i].status == AwaitingPayment
    requires IntentRef(st.db.orders[i].events) == Some(own) && own in st.intents
    ensures PaidOrder(st, ref).0.db.orders == st.db.orders[i := Transitioned(st.db.orders[i], Paid, Some(CONFIRMED + own)).value]
    ensures PaidOrder(st, ref).0.intents == Captured(st.intents, own)
  {
    PayAwaiting(st, i, own);
  }

  // ----- over runs whose operators leave the prefix alone -----

  predicate PlainNote(note: Option<string>) {
    note.Some? ==> !(INTENT <= note.value)
  }

  predicate PlainCall(call: Call) {
    call.ChangeStatus? ==> PlainNote(call.note)
  }

  /** Notes stay plain, no two orders share an intent, and an unpaid order's intent is not captured. */
  ghost predicate Plain(orders: seq<OrderRow>, intents: map<string, Intent>) {
    && (forall i :: 0 <= i < |orders| ==> orders[i].events != [] && NotesStayPlain(orders[i]))
    && (forall i, j :: 0 <= i < j < |orders| ==> OwnIntent(orders[i]) != OwnIntent(orders[j]))
    && (forall i :: 0 <= i < |orders| && orders[i].status == AwaitingPayment && OwnIntent(orders[i]) in intents ==>
          !intents[OwnIntent(orders[i])].captured)
  }

  lemma PlacingStaysPlain(st: State, a: CheckoutArgs)
    requires Inv(st) && Plain(st.db.orders, st.intents) && a.intentRef !in st.intents
    ensures Plain(CheckedOut(st, a).0.db.orders, CheckedOut(st, a).0.intents)
  {
    if Proceeds(st.db, a) {
      var row := CheckoutRecords(st, a);
      IntentPrefix(a.intentRef);
      assert OwnIntent(row) == a.intentRef;
      assert forall i :: 0 <= i < |st.db.orders| ==> Linked(st.db.orders[i], st.intents);
      PlainAppended(st.db.orders, st.intents, row, a.intentRef);
    } else {
      StandsStill(st, a);
    }
  }

  lemma PlainAppended(orders: seq<OrderRow>, intents: map<string, Intent>, row: OrderRow, ref: string)
    requires Plain(orders, intents) && forall i :: 0 <= i < |orders| ==> Linked(orders[i], intents)
    requires |row.events| == 1 && OwnIntent(row) == ref && ref !in intents
    ensures Plain(orders + [row], intents[ref := NewIntent(row.head)])
  {
    var all := orders + [row];
    forall i, j | 0 <= i < j < |all|
      ensures OwnIntent(all[i]) != OwnIntent(all[j])
    {
      assert Linked(orders[i], intents);
    }
  }

  lemma PlainMoved(orders: seq<OrderRow>, intents: map<string, Intent>, i: nat, target: OrderStatus, note: Option<string>)
    requires Plain(orders, intents) && i < |orders| && Transitioned(orders[i], target, note).Ok?
    requires PlainNote(note) && target != AwaitingPayment
    ensures Plain(orders[i := Transitioned(orders[i], target, note).value], intents)
  {
    var row := Transitioned(orders[i], target, note).value;
    assert row.events[0] == orders[i].events[0];
  }

  lemma PlainCaptured(orders: seq<OrderRow>, intents: map<string, Intent>, i: nat)
    requires Plain(orders, intents) && i < |orders| && orders[i].status != AwaitingPayment
    requires OwnIntent(orders[i]) in intents
    ensures Plain(orders, Captured(intents, OwnIntent(orders[i])))
  {
  }

  lemma ConfirmedIsPlain(own: string)
    ensures PlainNote(Some(CONFIRMED + own))
  {
    assert (CONFIRMED + own)[0] == 'c' && INTENT[0] == 'i';
  }

  lemma PayingStaysPlain(st: State, ref: Ref)
    requires Inv(st) && Plain(st.db.orders, st.intents)
    ensures Plain(PaidOrder(st, ref).0.db.orders, PaidOrder(st, ref).0.intents)
  {
    var found := FindRef(st.db.orders, ref);
    if found.Some? {
      var i := found.value;
      var row := st.db.orders[i];
      var own := OwnIntent(row);
      assert Linked(row, st.intents);
      PlainFindsOwn(row, st.intents);
      if row.status == AwaitingPayment {
        PaysInto(st, ref, i, own);
        ConfirmedIsPlain(own);
        PlainMoved(st.db.orders, st.intents, i, Paid, Some(CONFIRMED + own));
        var moved := st.db.orders[i := Transitioned(row, Paid, Some(CONFIRMED + own)).value];
        assert moved[i].events[0] == row.events[0];
        PlainCaptured(moved, st.intents, i);
      } else {
        RefusedAt(st, i, ref);
        PlainCaptured(st.db.orders, st.intents, i);
      }
    }
  }

  lemma ChangingStaysPlain(st: State, ref: Ref, target: OrderStatus, note: Option<string>)
    requires Inv(st) && Plain(st.db.orders, st.intents) && PlainNote(note)
    ensures Plain(TransitionedOrder(st, ref, target, note).0.db.orders, TransitionedOrder(st, ref, target, note).0.intents)
  {
    var found := FindRef(st.db.orders, ref);
    if target == Paid {
      PayingStaysPlain(st, ref);
    } else if found.Some? && Transitioned(st.db.orders[found.value], target, note).Ok? {
      assert SoundOrder(st.db.orders[found.value]);
      NoDrafts(st.db.orders[found.value]);
      PlainMoved(st.db.orders, st.intents, found.value, target, note);
    }
  }

  lemma StepStaysPlain(st: State, call: Call)
    requires Inv(st) && Admissible(st, call) && PlainCall(call) && Plain(st.db.orders, st.intents)
    ensures Plain(Step(st, call).0.db.orders, Step(st, call).0.intents)
  {
    match call
    case PlaceOrder(args) => PlacingStaysPlain(st, args);
    case PayOrder(ref) => PayingStaysPlain(st, ref);
    case ChangeStatus(ref, target, note) => ChangingStaysPlain(st, ref, target, note);
    case _ =>
  }

  lemma {:induction false} RunStaysPlain(calls: seq<Call>)
    requires RunOk(EMPTY, calls) && forall k :: 0 <= k < |calls| ==> PlainCall(calls[k])
    ensures Plain(Run(EMPTY, calls).db.orders, Run(EMPTY, calls).intents)
  {
    if calls != [] {
      var n := |calls| - 1;
      LastCall(EMPTY, calls);
      RunKeepsInv(EMPTY, calls[..n]);
      RunStaysPlain(calls[..n]);
      StepStaysPlain(Run(EMPTY, calls[..n]), calls[n]);
    }
  }

  lemma PlainIsPaid(st: State, i: nat)
    requires Inv(st) && Plain(st.db.orders, st.intents)
    requires i < |st.db.orders| && st.db.orders[i].events != [] && IsCaptured(st, OwnIntent(st.db.orders[i]))
    ensures WasPaid(st.db.orders[i]) <==> st.db.orders[i].status != OrderStatus.Cancelled
  {
    assert SoundOrder(st.db.orders[i]);
    NoDrafts(st.db.orders[i]);
    PaidByStatus(st.db.orders[i]);
  }

  /** As long as no operator's note starts with the intent prefix: in every reachable state an
      order whose own intent is captured was paid, if and only if it is not cancelled. */
  lemma CapturedIsPaidUnlessCancelled(calls: seq<Call>, st: State, i: nat)
    requires RunOk(EMPTY, calls) && st == Run(EMPTY, calls)
    requires forall k :: 0 <= k < |calls| ==> PlainCall(calls[k])
    requires i < |st.db.orders| && st.db.orders[i].events != [] && IsCaptured(st, OwnIntent(st.db.orders[i]))
    ensures WasPaid(st.db.orders[i]) <==> st.db.orders[i].status != OrderStatus.Cancelled
  {
    RunKeepsInv(EMPTY, calls);
    RunStaysPlain(calls);
    PlainIsPaid(st, i);
  }

  // ----- captured and unpaid, whatever the notes say -----

  /** A payment request for another order than the one of this identifier reaches the intent. */
  predicate AttemptsElsewhere(st: State, call: Call, ref: string, id: Uuid) {
    Attempts(st, call, ref) && st.db.orders[FindRef(st.db.orders, call.ref).value].head.id != id
  }

  predicate AttemptedElsewhere(calls: seq<Call>, ref: string, id: Uuid) {
    calls != [] &&
    var n := |calls| - 1;
    AttemptedElsewhere(calls[..n], ref, id) || AttemptsElsewhere(Run(EMPTY, calls[..n]), calls[n], ref, id)
  }

  lemma {:induction false} ElsewhereIsAttempted(calls: seq<Call>, ref: string, id: Uuid)
    requires AttemptedElsewhere(calls, ref, id)
    ensures Attempted(calls, ref)
  {
    var n := |calls| - 1;
    if AttemptedElsewhere(calls[..n], ref, id) {
      ElsewhereIsAttempted(calls[..n], ref, id);
    }
  }

  /** An order that is unpaid now was unpaid before, with the same first event. */
  lemma UnpaidBefore(before: OrderRow, after: OrderRow)
    requires TrueHistory(before) && TrueHistory(after) && Frozen(before, after) && after.status == AwaitingPayment
    ensures before == after
  {
    AwaitingHasOneEvent(after);
  }

  /** A payment request for an unpaid order leaves it paid. */
  lemma OwnAttemptPays(st: State, call: Call, i: nat, own: string)
    requires Inv(st) && i < |st.db.orders| && st.db.orders[i].status == AwaitingPayment
    requires Attempts(st, call, own) && FindRef(st.db.orders, call.ref) == Some(i)
    ensures i < |Step(st, call).0.db.orders| && Step(st, call).0.db.orders[i].status == Paid
  {
    PaysInto(st, call.ref, i, own);
  }

  lemma UnpaidStays(st: State, call: Call, i: nat)
    requires Inv(st) && Admissible(st, call) && i < |st.db.orders| && i < |Step(st, call).0.db.orders|
    requires Step(st, call).0.db.orders[i].status == AwaitingPayment
    ensures Step(st, call).0.db.orders[i] == st.db.orders[i] && st.db.orders[i].events != []
  {
    StepKeepsInv(st, call);
    StepKeepsOrders(st, call);
    assert SoundOrder(st.db.orders[i]) && SoundOrder(Step(st, call).0.db.orders[i]);
    UnpaidBefore(st.db.orders[i], Step(st, call).0.db.orders[i]);
  }

  lemma UnpaidStep(st: State, call: Call, i: nat)
    requires Inv(st) && Admissible(st, call) && i < |st.db.orders| && i < |Step(st, call).0.db.orders|
    requires Step(st, call).0.db.orders[i].status == AwaitingPayment
    ensures Step(st, call).0.db.orders[i] == st.db.orders[i] && st.db.orders[i].events != []
    ensures var row := st.db.orders[i];
      Attempts(st, call, OwnIntent(row)) <==> AttemptsElsewhere(st, call, OwnIntent(row), row.head.id)
  {
    var row := st.db.orders[i];
    UnpaidStays(st, call, i);
    if Attempts(st, call, OwnIntent(row)) && FindRef(st.db.orders, call.ref) == Some(i) {
      OwnAttemptPays(st, call, i, OwnIntent(row));
    }
  }

  lemma OnlyCheckoutAdds(st: State, call: Call)
    requires !call.PlaceOrder?
    ensures |Step(st, call).0.db.orders| == |st.db.orders|
  {
  }

  /** The intent of an order just placed is new. */
  lemma NewOrderStep(st: State, call: Call, i: nat)
    requires Inv(st) && Admissible(st, call) && |st.db.orders| <= i < |Step(st, call).0.db.orders|
    ensures call.PlaceOrder?
    ensures var row := Step(st, call).0.db.orders[i];
      row.events != [] && OwnIntent(row) !in st.intents
  {
    if !call.PlaceOrder? {
      OnlyCheckoutAdds(st, call);
    } else {
      NewOrderIntent(st, call.args, i);
    }
  }

  lemma NewOrderIntent(st: State, a: CheckoutArgs, i: nat)
    requires Inv(st) && a.intentRef !in st.intents && |st.db.orders| <= i < |CheckedOut(st, a).0.db.orders|
    ensures var row := CheckedOut(st, a).0.db.orders[i];
      row.events != [] && OwnIntent(row) !in st.intents
  {
    if Proceeds(st.db, a) {
      var row := CheckoutRecords(st, a);
      IntentPrefix(a.intentRef);
    } else {
      StandsStill(st, a);
    }
  }

  /** Over any run, the own intent of an order that is still unpaid is captured if and only if a
      payment request for another order reached it, redirected by a note. */
  lemma {:induction false} UnpaidCapturedIff(calls: seq<Call>, i: nat)
    requires RunOk(EMPTY, calls) && i < |Run(EMPTY, calls).db.orders|
    requires Run(EMPTY, calls).db.orders[i].status == AwaitingPayment
    ensures var row := Run(EMPTY, calls).db.orders[i];
      row.events != [] && (IsCaptured(Run(EMPTY, calls), OwnIntent(row)) <==> AttemptedElsewhere(calls, OwnIntent(row), row.head.id))
  {
    if calls != [] {
      var n := |calls| - 1;
      var st := Run(EMPTY, calls[..n]);
      LastCall(EMPTY, calls);
      RunKeepsInv(EMPTY, calls[..n]);
      var row := Step(st, calls[n]).0.db.orders[i];
      if i < |st.db.orders| {
        UnpaidStep(st, calls[n], i);
        UnpaidCapturedIff(calls[..n], i);
      } else {
        NewOrderStep(st, calls[n], i);
        CapturedIffAttempted(calls[..n], OwnIntent(row));
        if AttemptedElsewhere(calls[..n], OwnIntent(row), row.head.id) {
          ElsewhereIsAttempted(calls[..n], OwnIntent(row), row.head.id);
        }
      }
      StepCaptures(st, calls[n], OwnIntent(row));
    }
  }

  /** In every reachable state, whatever notes operators wrote, an order's own intent is captured
      although the order was never paid in exactly two cases: a payment request reached it and the
      order is cancelled, or one for another order reached it and the order is still unpaid. */
  lemma CapturedUnpaidIff(calls: seq<Call>, st: State, i: nat, row: OrderRow)
    requires RunOk(EMPTY, calls) && st == Run(EMPTY, calls) && i < |st.db.orders| && row == st.db.orders[i]
    ensures row.events != []
    ensures IsCaptured(st, OwnIntent(row)) && !WasPaid(row) <==>
      ((row.status == OrderStatus.Cancelled && Attempted(calls, OwnIntent(row)))
       || (row.status == AwaitingPayment && AttemptedElsewhere(calls, OwnIntent(row), row.head.id)))
  {
    RunKeepsInv(EMPTY, calls);
    StatusTellsPaid(st, i);
    CapturedIffAttempted(calls, OwnIntent(row));
    if row.status == AwaitingPayment {
      UnpaidCapturedIff(calls, i);
    }
  }

  lemma StatusTellsPaid(st: State, i: nat)
    requires Inv(st) && i < |st.db.orders|
    ensures var row := st.db.orders[i];
      row.events != [] && (WasPaid(row) <==> row.status != AwaitingPayment && row.status != OrderStatus.Cancelled)
  {
    assert SoundOrder(st.db.orders[i]);
    NoDrafts(st.db.orders[i]);
    PaidByStatus(st.db.orders[i]);
  }
}
