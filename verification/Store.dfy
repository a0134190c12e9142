/** The shop as the outside sees it: committed tables, the provider, and one method per request.
    A request works on a session of its own; only a successful one is committed. */
module Store {
  import opened Prelude
  import opened Lines
  import opened Stock
  import opened Orders
  import Currency
  import opened Pricing
  import opened Tables
  import opened Checkout
  import opened Inventory
  import opened Payment
  import opened CartService
  import opened OrderService
  import opened Api
  import opened Invariant
  import opened Runs
  import opened CheckoutLaws

  class Store {
    var db: Database
    const provider: MockPaymentProvider

    constructor ()
      ensures Valid() && fresh(provider) && View() == EMPTY
    {
      db := Database(map[], [], [], map[]);
      provider := new MockPaymentProvider();
      new;
      InvHoldsInitially();
    }

    function View(): State
      reads this, provider
    {
      State(db, provider.intents)
    }

    ghost predicate Valid()
      reads this, provider
    {
      Inv(View())
    }

    /** The session's tables become the committed ones. */
    method Commit(session: Session)
      modifies this`db
      ensures db == session.db
    {
      db := session.db;
    }

    method PlaceOrder(a: CheckoutArgs) returns (r: Result<nat>)
      requires Valid() && Admissible(View(), Call.PlaceOrder(a))
      modifies this`db, provider
      ensures Valid() && (View(), r) == CheckedOut(old(View()), a)
      ensures (View(), OrderResponse(r)) == Step(old(View()), Call.PlaceOrder(a))
      ensures r.Ok? && !IsReplay(old(db), a) ==>
        r.value == |old(db.orders)| && |db.orders| == r.value + 1 && Placed(old(View()), a, View(), db.orders[r.value])
    {
      StepKeepsInv(View(), Call.PlaceOrder(a));
      if !IsReplay(db, a) {
        CheckoutPlaces(View(), a);
      }
      var session := new Session(db);
      var orders := new OrderService(session, provider, a.catalog);
      r := orders.Checkout(a);
      FailureKeepsTables(old(View()), Call.PlaceOrder(a));
      if r.Ok? {
        Commit(session);
      }
    }

    method PayOrder(ref: Ref) returns (r: Result<nat>)
      requires Valid()
      modifies this`db, provider
      ensures Valid() && (View(), OrderResponse(r)) == Step(old(View()), Call.PayOrder(ref))
      ensures r.Ok? <==> FindRef(old(db.orders), ref).Some? && old(db.orders)[FindRef(old(db.orders), ref).value].status == AwaitingPayment
    {
      PaysExactlyAt(View(), ref);
      StepKeepsInv(View(), Call.PayOrder(ref));
      var session := new Session(db);
      var orders := new OrderService(session, provider, NO_CATALOG);
      r := orders.Pay(ref);
      FailureKeepsTables(old(View()), Call.PayOrder(ref));
      if r.Ok? {
        Commit(session);
      }
    }

    method ChangeStatus(ref: Ref, target: OrderStatus, note: Option<string>) returns (r: Result<nat>)
      requires Valid()
      modifies this`db, provider
      ensures Valid() && (View(), OrderResponse(r)) == Step(old(View()), Call.ChangeStatus(ref, target, note))
      ensures target != Paid ==>
        var found := FindRef(old(db.orders), ref);
        && (r.Ok? <==> found.Some? && OperatorMay(old(db.orders)[found.value].status, target))
        && (r.Ok? ==> r == Ok(found.value) && Changed(old(View()), View(), found.value, target, note))
    {
      if target != Paid {
        ChangeMeans(View(), ref, target, note);
      }
      StepKeepsInv(View(), Call.ChangeStatus(ref, target, note));
      var session := new Session(db);
      var orders := new OrderService(session, provider, NO_CATALOG);
      r := orders.ChangeStatus(ref, target, note);
      FailureKeepsTables(old(View()), Call.ChangeStatus(ref, target, note));
      if r.Ok? {
        Commit(session);
      }
    }

    method AdjustStock(variantId: VariantId, delta: int, reason: string, note: Option<string>) returns (r: Result<()>)
      requires Valid()
      modifies this`db
      ensures Valid() && View() == Step(old(View()), Call.AdjustStock(variantId, delta, reason, note)).0
      ensures r.Ok? <==> Step(old(View()), Call.AdjustStock(variantId, delta, reason, note)).1.Ok?
    {
      StepKeepsInv(View(), Call.AdjustStock(variantId, delta, reason, note));
      var session := new Session(db);
      var inventory := new InventoryService(session);
      r := inventory.Adjust(variantId, delta, reason, note);
      if r.Ok? {
        Commit(session);
      }
    }

    /** Opens the stock row of a new variant; the shop stays valid unless that row is below zero. */
    method OpenStock(variantId: VariantId, quantity: int)
      requires Valid()
      modifies this`db
      ensures View() == Step(old(View()), Call.OpenStock(variantId, quantity)).0
      ensures Valid() <==> variantId in old(db.rows) || quantity >= 0
    {
      OpenKeepsInvIff(View(), variantId, quantity);
      var session := new Session(db);
      var inventory := new InventoryService(session);
      var item := inventory.EnsureItem(variantId, quantity);
      Commit(session);
    }

    method CreateCart(token: string, region: string, currency: string, now: int) returns (r: Result<()>)
      requires Valid()
      modifies this`db
      ensures Valid() && View() == Step(old(View()), Call.CreateCart(token, region, currency, now)).0
      ensures r.Ok? <==> Step(old(View()), Call.CreateCart(token, region, currency, now)).1.Ok?
    {
      StepKeepsInv(View(), Call.CreateCart(token, region, currency, now));
      var session := new Session(db);
      var carts := new CartService(session, NO_CATALOG);
      r := carts.Create(token, region, currency, now);
      if r.Ok? {
        Commit(session);
      }
    }

    method AddLine(token: string, catalog: Catalog, variantId: VariantId, quantity: int, lineId: Uuid, now: int) returns (r: Result<()>)
      requires Valid()
      modifies this`db
      ensures Valid() && View() == Step(old(View()), Call.AddLine(token, catalog, variantId, quantity, lineId, now)).0
      ensures r.Ok? <==> Step(old(View()), Call.AddLine(token, catalog, variantId, quantity, lineId, now)).1.Ok?
    {
      StepKeepsInv(View(), Call.AddLine(token, catalog, variantId, quantity, lineId, now));
      var session := new Session(db);
      var carts := new CartService(session, catalog);
      r := carts.AddLine(token, variantId, quantity, lineId, now);
      if r.Ok? {
        Commit(session);
      }
    }

    method UpdateLine(token: string, lineId: Uuid, quantity: int, now: int) returns (r: Result<()>)
      requires Valid()
      modifies this`db
      ensures Valid() && View() == Step(old(View()), Call.UpdateLine(token, lineId, quantity, now)).0
      ensures r.Ok? <==> Step(old(View()), Call.UpdateLine(token, lineId, quantity, now)).1.Ok?
    {
      StepKeepsInv(View(), Call.UpdateLine(token, lineId, quantity, now));
      var session := new Session(db);
      var carts := new CartService(session, NO_CATALOG);
      r := carts.UpdateLine(token, lineId, quantity, now);
      if r.Ok? {
        Commit(session);
      }
    }
  }

  /** Payments, status changes, creating a cart and updating a line read no prices. */
  const NO_CATALOG := Catalog(Currency.Book(map[], map[]), map[], map[], None)

  /** A call that fails leaves every table as it was; only a payment attempt may have captured
      an intent meanwhile. */
  lemma FailureKeepsTables(st: State, call: Call)
    ensures Step(st, call).1.Err? ==> Step(st, call).0.db == st.db
    ensures Step(st, call).1.Err? && !call.PayOrder? && !call.ChangeStatus? ==> Step(st, call).0 == st
  {
  }
}
