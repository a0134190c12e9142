/** The order service at work on a session (order/service.py): checkout reserves line by line,
    payment commits line by line, cancellation releases line by line. */
module OrderService {
  import opened Prelude
  import opened Decimals
  import opened Lines
  import opened Stock
  import opened Orders
  import opened Pricing
  import opened Tables
  import opened Carts
  import opened Checkout
  import opened Inventory
  import opened Payment
  import opened CartService

  class OrderService {
    const session: Session
    const provider: MockPaymentProvider
    const catalog: Catalog
    const inventory: InventoryService
    const carts: CartService

    constructor (session: Session, provider: MockPaymentProvider, catalog: Catalog)
      ensures this.session == session && this.provider == provider && this.catalog == catalog && Wired()
    {
      this.session, this.provider, this.catalog := session, provider, catalog;
      inventory := new InventoryService(session);
      carts := new CartService(session, catalog);
    }

    ghost predicate Wired() {
      inventory.session == session && carts.session == session && carts.catalog == catalog
    }

    method DrawNumber(candidates: Candidates, fallback: string) returns (number: string)
      ensures number == NextNumber(session.db.orders, candidates, fallback)
    {
      for i := 0 to NUMBER_ATTEMPTS
        invariant NextNumber(session.db.orders, candidates, fallback) == NextNumber(session.db.orders, candidates[i..], fallback)
      {
        if FindNumber(session.db.orders, candidates[i]).None? {
          return candidates[i];
        }
        assert candidates[i..][1..] == candidates[i + 1..];
      }
      return fallback;
    }

    /** Freezes every cart line into the order. */
    method SnapshotCart(order: Order, lines: seq<CartLine>, currency: string) returns (r: Result<()>)
      requires order.lines == []
      modifies order`lines
      ensures match SnapshotLines(catalog, lines, currency)
              case Ok(snapshot) => r == Ok(()) && order.lines == snapshot
              case Err(e) => r == Err(e)
    {
      for i := 0 to |lines|
        invariant SnapshotLines(catalog, lines[..i], currency) == Ok(order.lines)
      {
        SnapshotNext(catalog, lines, i, currency);
        var line := lines[i];
        if line.variantId !in catalog.variants {
          SnapshotStops(catalog, lines, i + 1, currency);
          return Err(VariantNotFound);
        }
        var variant := catalog.variants[line.variantId];
        var price := UnitPrice(catalog, variant, currency);
        if price.Err? {
          SnapshotStops(catalog, lines, i + 1, currency);
          return Err(price.error);
        }
        order.AppendLine(
          OrderLine(Some(line.variantId), if variant.name.Some? then variant.name.value else variant.sku,
                    variant.optionLabel, variant.sku, price.value, line.quantity,
                    Mul(price.value, Dec(line.quantity, 0)), currency));
      }
      assert lines[..|lines|] == lines;
      return Ok(());
    }

    method ReserveLines(lines: seq<LineInput>) returns (r: Result<()>)
      requires Wired()
      modifies session
      ensures match StockSteps(old(session.db), ReserveOps(lines))
              case Ok(db) => r == Ok(()) && session.db == db
              case Err(e) => r == Err(e)
    {
      ghost var ops := ReserveOps(lines);
      ghost var db := session.db;
      NoSteps(db);
      for i := 0 to |lines|
        invariant StockSteps(db, ops[..i]) == Ok(session.db)
      {
        StockStepsSnoc(db, ops[..i], ops[i]);
        assert ops[..i] + [ops[i]] == ops[..i + 1];
        var done := inventory.Reserve(lines[i].variantId, lines[i].quantity);
        if done.Err? {
          StockStepsStop(db, ops, i + 1);
          return done;
        }
      }
      assert ops[..|lines|] == ops;
      return Ok(());
    }

    method CommitLines(lines: seq<OrderLine>) returns (r: Result<()>)
      requires Wired()
      modifies session
      ensures match StockSteps(old(session.db), CommitOps(Inputs(lines)))
              case Ok(db) => r == Ok(()) && session.db == db
              case Err(e) => r == Err(e)
    {
      ghost var db := session.db;
      NoSteps(db);
      for i := 0 to |lines|
        invariant StockSteps(db, CommitOps(Inputs(lines[..i]))) == Ok(session.db)
      {
        NextCommit(db, lines, i);
        if lines[i].variantId.Some? {
          var done := inventory.CommitReservation(lines[i].variantId.value, lines[i].quantity);
          if done.Err? {
            CommitStops(db, lines, i + 1);
            return done;
          }
        }
      }
      assert lines[..|lines|] == lines;
      return Ok(());
    }

    method ReleaseLines(lines: seq<OrderLine>) returns (r: Result<()>)
      requires Wired()
      modifies session
      ensures match StockSteps(old(session.db), ReleaseOps(Inputs(lines)))
              case Ok(db) => r == Ok(()) && session.db == db
              case Err(e) => r == Err(e)
    {
      ghost var db := session.db;
      NoSteps(db);
      for i := 0 to |lines|
        invariant StockSteps(db, ReleaseOps(Inputs(lines[..i]))) == Ok(session.db)
      {
        NextRelease(db, lines, i);
        if lines[i].variantId.Some? {
          var done := inventory.Release(lines[i].variantId.value, lines[i].quantity);
          if done.Err? {
            ReleaseStops(db, lines, i + 1);
            return done;
          }
        }
      }
      assert lines[..|lines|] == lines;
      return Ok(());
    }

    /** The priced order of a cart, as a new object. */
    method Draft(cart: Cart, a: CheckoutArgs) returns (r: Result<Order>)
      requires a.catalog == catalog
      ensures match DraftOrder(session.db, a, cart.AsRow())
              case Ok(row) => r.Ok? && fresh(r.value) && r.value.Row() == row
              case Err(e) => r == Err(e)
    {
      var region := ResolveRegion(catalog, cart.region);
      if region.Err? {
        return Err(region.error);
      }
      var pricing := new PricingService(catalog);
      var breakdown := pricing.Calculate(CartInputs(cart.lines), region.value, cart.currency);
      if breakdown.Err? {
        return Err(breakdown.error);
      }
      var b := breakdown.value;
      var number := DrawNumber(a.candidates, a.fallback);
      var order := new Order(OrderHead(a.orderId, number, region.value.code, cart.currency, a.email, a.address,
                                       b.subtotal, b.shippingFee, b.tax, b.total, a.key));
      var done := SnapshotCart(order, cart.lines, cart.currency);
      if done.Err? {
        return Err(done.error);
      }
      return Ok(order);
    }

    /** Everything up to the payment intent: guards, prices, the draft, the reservations and the
        flush of the order. */
    method Reserve(a: CheckoutArgs) returns (r: Result<(Cart, Order)>)
      requires Wired() && a.catalog == catalog
      modifies session
      ensures match Reserving(old(session.db), a)
              case Ok((cart, draft, reserved)) =>
                r.Ok? && fresh(r.value.0) && fresh(r.value.1)
                && r.value.0.AsRow() == cart && r.value.1.Row() == draft && session.db == reserved
              case Err(e) => r == Err(e)
    {
      var found := carts.GetByToken(a.token, a.now);
      if found.Err? {
        return Err(found.error);
      }
      var cart := found.value;
      if cart.lines == [] {
        return Err(CartEmpty);
      }
      var drafted := Draft(cart, a);
      if drafted.Err? {
        return Err(drafted.error);
      }
      var order := drafted.value;
      ghost var row := order.Row();
      var reserved := ReserveLines(CartInputs(cart.lines));
      if reserved.Err? {
        return Err(reserved.error);
      }
      var stored := Storable(session.db.orders, order.Row());
      if stored.Err? {
        return Err(stored.error);
      }
      if a.provider != MOCK {
        return Err(UnknownPaymentProvider);
      }
      return Ok((cart, order));
    }

    /** The payment intent, the order's first event, and the end of the cart. */
    method Submit(a: CheckoutArgs, cart: Cart, order: Order) returns (index: nat)
      requires Wired() && order.status == OrderStatus.Draft
      modifies session, provider, cart, order
      ensures index == |old(session.db.orders)|
      ensures session.db == old(session.db).(
        orders := old(session.db.orders) + [Submitted(old(order.Row()), a.intentRef)],
        carts := old(session.db.carts)[a.token := ConvertedCart(old(cart.AsRow()), a.email)])
      ensures provider.intents == old(provider.intents)[a.intentRef := NewIntent(order.head)]
    {
      provider.CreateIntent(order, a.intentRef);
      var marked := order.Transition(AwaitingPayment, Some(INTENT + a.intentRef));
      index := |session.db.orders|;
      session.db := session.db.(orders := session.db.orders + [order.Row()]);
      carts.SetEmail(a.token, cart, a.email);
      carts.MarkConverted(a.token, cart);
    }

    /** Turns a cart into an order. On success the session and the provider hold exactly the
        state that `CheckedOut` describes; on failure the provider is untouched. */
    method Checkout(a: CheckoutArgs) returns (r: Result<nat>)
      requires Wired() && a.catalog == catalog
      modifies session, provider
      ensures var (after, expected) := CheckedOut(State(old(session.db), old(provider.intents)), a);
              r == expected && provider.intents == after.intents && (r.Ok? ==> session.db == after.db)
    {
      if KeyGiven(a.key) {
        var existing := FindKey(session.db.orders, a.key.value);
        if existing.Some? {
          return Ok(existing.value);
        }
      }
      var reserved := Reserve(a);
      if reserved.Err? {
        return Err(reserved.error);
      }
      var (cart, order) := reserved.value;
      ReservingShape(old(session.db), a);
      var index := Submit(a, cart, order);
      return Ok(index);
    }

    /** The latest recorded intent, searching the events from the end. */
    method FindIntent(order: Order) returns (reference: Option<string>)
      ensures reference == IntentRef(order.events)
    {
      var i := |order.events|;
      assert order.events[..i] == order.events;
      while i > 0
        invariant 0 <= i <= |order.events|
        invariant IntentRef(order.events) == IntentRef(order.events[..i])
      {
        assert order.events[..i][..i - 1] == order.events[..i - 1];
        i := i - 1;
        var note := order.events[i].note;
        if note.Some? && INTENT <= note.value {
          return Some(note.value[|INTENT|..]);
        }
      }
      return None;
    }

    /** Confirms the payment and commits the reserved stock. */
    method Pay(ref: Ref) returns (r: Result<nat>)
      requires Wired()
      modifies session, provider
      ensures var (after, expected) := PaidOrder(State(old(session.db), old(provider.intents)), ref);
              r == expected && provider.intents == after.intents && (r.Ok? ==> session.db == after.db)
    {
      var found := FindRef(session.db.orders, ref);
      if found.None? {
        return Err(OrderNotFound);
      }
      var i := found.value;
      var order := new Order.Load(session.db.orders[i]);
      var reference := FindIntent(order);
      if reference.None? {
        return Err(PaymentFailed);
      }
      var success := provider.Confirm(reference.value);
      if !success {
        return Err(PaymentFailed);
      }
      var marked := order.Transition(Paid, Some(CONFIRMED + reference.value));
      if marked.Err? {
        return Err(marked.error);
      }
      var committed := CommitLines(order.lines);
      if committed.Err? {
        return Err(committed.error);
      }
      session.db := session.db.(orders := session.db.orders[i := order.Row()]);
      return Ok(i);
    }

    /** An operator's status change. */
    method ChangeStatus(ref: Ref, target: OrderStatus, note: Option<string>) returns (r: Result<nat>)
      requires Wired()
      modifies session, provider
      ensures var (after, expected) := TransitionedOrder(State(old(session.db), old(provider.intents)), ref, target, note);
              r == expected && provider.intents == after.intents && (r.Ok? ==> session.db == after.db)
    {
      if target == Paid {
        r := Pay(ref);
        return;
      }
      var found := FindRef(session.db.orders, ref);
      if found.None? {
        return Err(OrderNotFound);
      }
      var i := found.value;
      var order := new Order.Load(session.db.orders[i]);
      var marked := order.Transition(target, note);
      if marked.Err? {
        return Err(marked.error);
      }
      if target == OrderStatus.Cancelled {
        var released := ReleaseLines(order.lines);
        if released.Err? {
          return Err(released.error);
        }
      } else {
        NoSteps(session.db);
      }
      session.db := session.db.(orders := session.db.orders[i := order.Row()]);
      return Ok(i);
    }
  }

  lemma NoSteps(db: Database)
    ensures StockSteps(db, []) == Ok(db)
  {
    assert db.ledger + [] == db.ledger;
  }

  lemma SnapshotNext(catalog: Catalog, lines: seq<CartLine>, i: nat, currency: string)
    requires i < |lines| && SnapshotLines(catalog, lines[..i], currency).Ok?
    ensures SnapshotLines(catalog, lines[..i + 1], currency)
         == match SnapshotLine(catalog, lines[i], currency)
            case Err(e) => Err(e)
            case Ok(last) => Ok(SnapshotLines(catalog, lines[..i], currency).value + [last])
  {
    assert lines[..i + 1][..i] == lines[..i];
  }

  lemma {:induction false} SnapshotStops(catalog: Catalog, lines: seq<CartLine>, i: nat, currency: string)
    requires i <= |lines| && SnapshotLines(catalog, lines[..i], currency).Err?
    ensures SnapshotLines(catalog, lines, currency) == Err(SnapshotLines(catalog, lines[..i], currency).error)
  {
    if i < |lines| {
      assert lines[..|lines| - 1][..i] == lines[..i];
      SnapshotStops(catalog, lines[..|lines| - 1], i, currency);
    } else {
      assert lines[..i] == lines;
    }
  }

  lemma {:induction false} InputsPrefix(lines: seq<OrderLine>, i: nat)
    requires i <= |lines|
    ensures |Inputs(lines[..i])| <= |Inputs(lines)|
    ensures Inputs(lines)[..|Inputs(lines[..i])|] == Inputs(lines[..i])
  {
    if i < |lines| {
      InputsPrefix(lines[..|lines| - 1], i);
      assert lines[..|lines| - 1][..i] == lines[..i];
    } else {
      assert lines[..i] == lines;
    }
  }

  /** What one more order line does to the stock loop: nothing, when its variant is gone. */
  lemma NextCommit(db: Database, lines: seq<OrderLine>, i: nat)
    requires i < |lines|
    ensures lines[i].variantId.None? ==> Inputs(lines[..i + 1]) == Inputs(lines[..i])
    ensures lines[i].variantId.Some? ==>
      StockSteps(db, CommitOps(Inputs(lines[..i + 1])))
      == match StockSteps(db, CommitOps(Inputs(lines[..i])))
         case Err(e) => Err(e)
         case Ok(before) => StockStep(before, Commit(lines[i].variantId.value, lines[i].quantity))
  {
    assert lines[..i + 1] == lines[..i] + [lines[i]];
    InputsSnoc(lines[..i], lines[i]);
    if lines[i].variantId.Some? {
      var op := Commit(lines[i].variantId.value, lines[i].quantity);
      assert CommitOps(Inputs(lines[..i + 1])) == CommitOps(Inputs(lines[..i])) + [op];
      StockStepsSnoc(db, CommitOps(Inputs(lines[..i])), op);
    }
  }

  lemma CommitStops(db: Database, lines: seq<OrderLine>, i: nat)
    requires i <= |lines| && StockSteps(db, CommitOps(Inputs(lines[..i]))).Err?
    ensures StockSteps(db, CommitOps(Inputs(lines))) == Err(StockSteps(db, CommitOps(Inputs(lines[..i]))).error)
  {
    InputsPrefix(lines, i);
    var k := |Inputs(lines[..i])|;
    OpsPrefix(Inputs(lines), k);
    StockStepsStop(db, CommitOps(Inputs(lines)), k);
  }

  lemma OpsPrefix(inputs: seq<LineInput>, k: nat)
    requires k <= |inputs|
    ensures CommitOps(inputs)[..k] == CommitOps(inputs[..k])
    ensures ReleaseOps(inputs)[..k] == ReleaseOps(inputs[..k])
  {
  }

  lemma StockStepsTouchStockOnly(db: Database, ops: seq<Op>)
    requires StockSteps(db, ops).Ok?
    ensures StockSteps(db, ops).value.orders == db.orders && StockSteps(db, ops).value.carts == db.carts
  {
  }

  /** A draft that reaches the payment step leaves orders and carts as they were. */
  lemma ReservingShape(db: Database, a: CheckoutArgs)
    requires Reserving(db, a).Ok?
    ensures var (cart, draft, reserved) := Reserving(db, a).value;
      draft.status == OrderStatus.Draft && reserved.orders == db.orders && reserved.carts == db.carts
  {
    var cart, draft, reserved := ReservingGives(db, a);
    DraftIsDraft(db, a, cart);
    StockStepsTouchStockOnly(db, ReserveOps(CartInputs(cart.lines)));
  }

  /** What one more order line does to the stock loop: nothing, when its variant is gone. */
  lemma NextRelease(db: Database, lines: seq<OrderLine>, i: nat)
    requires i < |lines|
    ensures lines[i].variantId.None? ==> Inputs(lines[..i + 1]) == Inputs(lines[..i])
    ensures lines[i].variantId.Some? ==>
      StockSteps(db, ReleaseOps(Inputs(lines[..i + 1])))
      == match StockSteps(db, ReleaseOps(Inputs(lines[..i])))
         case Err(e) => Err(e)
         case Ok(before) => StockStep(before, Release(lines[i].variantId.value, lines[i].quantity))
  {
    assert lines[..i + 1] == lines[..i] + [lines[i]];
    InputsSnoc(lines[..i], lines[i]);
    if lines[i].variantId.Some? {
      var op := Release(lines[i].variantId.value, lines[i].quantity);
      assert ReleaseOps(Inputs(lines[..i + 1])) == ReleaseOps(Inputs(lines[..i])) + [op];
      StockStepsSnoc(db, ReleaseOps(Inputs(lines[..i])), op);
    }
  }

  lemma ReleaseStops(db: Database, lines: seq<OrderLine>, i: nat)
    requires i <= |lines| && StockSteps(db, ReleaseOps(Inputs(lines[..i]))).Err?
    ensures StockSteps(db, ReleaseOps(Inputs(lines))) == Err(StockSteps(db, ReleaseOps(Inputs(lines[..i]))).error)
  {
    InputsPrefix(lines, i);
    var k := |Inputs(lines[..i])|;
    OpsPrefix(Inputs(lines), k);
    StockStepsStop(db, ReleaseOps(Inputs(lines)), k);
  }
}
