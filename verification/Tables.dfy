/** The committed tables, the payment provider's memory beside them, and the session a
    request works on. */
module Tables {
  import opened Prelude
  import opened Decimals
  import opened Lines
  import opened Stock
  import opened Orders

  datatype CartStatus = Active | Converted | Abandoned

  datatype CartLine = CartLine(
    id: Uuid, variantId: VariantId, quantity: int, unitPrice: Dec, currency: string, position: nat)

  datatype CartRow = CartRow(
    token: string, region: string, currency: string, status: CartStatus, expiresAt: Option<int>,
    email: Option<string>, lines: seq<CartLine>)

  datatype Intent = Intent(orderNumber: string, amount: Dec, currency: string, captured: bool)

  /** Orders are kept in the order of their insertion. */
  datatype Database = Database(
    rows: Rows, ledger: seq<Movement>, orders: seq<OrderRow>, carts: map<string, CartRow>)

  /** The provider's intents are not part of the database: no rollback undoes them. */
  datatype State = State(db: Database, intents: map<string, Intent>)

  // ----- stock operations on the tables -----

  function StockStep(db: Database, op: Op): Result<Database> {
    var rows :- Apply(db.rows, op);
    Ok(db.(rows := rows, ledger := db.ledger + Entries(op)))
  }

  function StockSteps(db: Database, ops: seq<Op>): Result<Database> {
    var rows :- ApplyAll(db.rows, ops);
    Ok(db.(rows := rows, ledger := db.ledger + EntriesOfAll(ops)))
  }

  /** One more operation of a loop. */
  lemma StockStepsSnoc(db: Database, ops: seq<Op>, op: Op)
    ensures StockSteps(db, ops + [op])
         == match StockSteps(db, ops) case Err(e) => Err(e) case Ok(before) => StockStep(before, op)
  {
    assert (ops + [op])[..|ops|] == ops;
    assert db.ledger + (EntriesOfAll(ops) + Entries(op)) == (db.ledger + EntriesOfAll(ops)) + Entries(op);
  }

  lemma StockStepsStop(db: Database, ops: seq<Op>, i: nat)
    requires i <= |ops| && StockSteps(db, ops[..i]).Err?
    ensures StockSteps(db, ops) == Err(StockSteps(db, ops[..i]).error)
  {
    ApplyAllStops(db.rows, ops, i);
  }

  function Ensured(rows: Rows, v: VariantId, quantity: int): Rows {
    if v in rows then rows else rows[v := Row(quantity, 0)]
  }

  /** A request's pending copy of the tables. Committing it replaces the committed tables;
      dropping it leaves them as they were. */
  class Session {
    var db: Database

    constructor (db: Database)
      ensures this.db == db
    {
      this.db := db;
    }
  }
}
