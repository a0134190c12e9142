/** The state-changing requests of the shop, each an atomic step on the state. */
module Api {
  import opened Prelude
  import opened Lines
  import opened Stock
  import opened Orders
  import opened Pricing
  import opened Tables
  import opened Carts
  import opened Checkout

  datatype Call =
    | CreateCart(token: string, region: string, currency: string, now: int)
    | AddLine(token: string, catalog: Catalog, variantId: VariantId, quantity: int, lineId: Uuid, now: int)
    | UpdateLine(token: string, lineId: Uuid, quantity: int, now: int)
    | PlaceOrder(args: CheckoutArgs)
    | PayOrder(ref: Ref)
    | ChangeStatus(ref: Ref, target: OrderStatus, note: Option<string>)
    | AdjustStock(variantId: VariantId, delta: int, reason: string, note: Option<string>)
    | OpenStock(variantId: VariantId, quantity: int)

  /** A response names the order it returns, if it returns one. */
  type Response = Result<Option<nat>>

  function OrderResponse(r: Result<nat>): Response {
    match r case Err(e) => Err(e) case Ok(i) => Ok(Some(i))
  }

  function WithCarts(st: State, carts: Result<map<string, CartRow>>): (State, Response) {
    match carts
    case Err(e) => (st, Err(e))
    case Ok(c) => (st.(db := st.db.(carts := c)), Ok(None))
  }

  function Step(st: State, call: Call): (State, Response) {
    match call
    case CreateCart(token, region, currency, now) =>
      WithCarts(st, Created(st.db.carts, token, region, currency, now))
    case AddLine(token, catalog, v, quantity, lineId, now) =>
      WithCarts(st, LineAdded(st.db.carts, catalog, token, v, quantity, lineId, now))
    case UpdateLine(token, lineId, quantity, now) =>
      WithCarts(st, LineUpdated(st.db.carts, token, lineId, quantity, now))
    case PlaceOrder(args) =>
      var (after, r) := CheckedOut(st, args);
      (after, OrderResponse(r))
    case PayOrder(ref) =>
      var (after, r) := PaidOrder(st, ref);
      (after, OrderResponse(r))
    case ChangeStatus(ref, target, note) =>
      var (after, r) := TransitionedOrder(st, ref, target, note);
      (after, OrderResponse(r))
    case AdjustStock(v, delta, reason, note) =>
      (match StockStep(st.db, Adjust(v, delta, reason, note))
       case Err(e) => (st, Err(e))
       case Ok(db) => (st.(db := db), Ok(None)))
    case OpenStock(v, quantity) =>
      (st.(db := st.db.(rows := Ensured(st.db.rows, v, quantity))), Ok(None))
  }

  /** What the environment guarantees about a call: a fresh intent reference, and a new stock row
      that is not opened below zero. */
  predicate Admissible(st: State, call: Call) {
    match call
    case PlaceOrder(args) => args.intentRef !in st.intents
    case OpenStock(v, quantity) => v in st.db.rows || quantity >= 0
    case _ => true
  }

  const EMPTY := State(Database(map[], [], [], map[]), map[])
}
