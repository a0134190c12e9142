/** The inventory service at work on a session (inventory/service.py, inventory/repository.py):
    a row is loaded, changed in place and flushed back. */
module Inventory {
  import opened Prelude
  import opened Lines
  import opened Stock
  import opened Tables

  class InventoryItem {
    const variantId: VariantId
    var quantity: int
    var reserved: int

    constructor (variantId: VariantId, quantity: int, reserved: int)
      ensures this.variantId == variantId && AsRow() == Row(quantity, reserved)
    {
      this.variantId, this.quantity, this.reserved := variantId, quantity, reserved;
    }

    function AsRow(): Row
      reads this
    {
      Row(quantity, reserved)
    }

    function Available(): int
      reads this
    {
      quantity - reserved
    }
  }

  class InventoryService {
    const session: Session

    constructor (session: Session)
      ensures this.session == session
    {
      this.session := session;
    }

    method Get(variantId: VariantId) returns (item: InventoryItem?)
      ensures item == null <==> variantId !in session.db.rows
      ensures item != null ==> fresh(item) && item.variantId == variantId && item.AsRow() == session.db.rows[variantId]
    {
      if variantId !in session.db.rows {
        return null;
      }
      var row := session.db.rows[variantId];
      item := new InventoryItem(variantId, row.quantity, row.reserved);
    }

    method Flush(item: InventoryItem)
      modifies session
      ensures session.db == old(session.db).(rows := old(session.db.rows)[item.variantId := item.AsRow()])
    {
      session.db := session.db.(rows := session.db.rows[item.variantId := item.AsRow()]);
    }

    method Record(variantId: VariantId, delta: int, reason: string, note: Option<string>)
      modifies session
      ensures session.db == old(session.db).(ledger := old(session.db.ledger) + [Movement(variantId, delta, reason, note)])
    {
      session.db := session.db.(ledger := session.db.ledger + [Movement(variantId, delta, reason, note)]);
    }

    method EnsureItem(variantId: VariantId, quantity: int) returns (item: InventoryItem)
      modifies session
      ensures session.db == old(session.db).(rows := Ensured(old(session.db.rows), variantId, quantity))
      ensures fresh(item) && item.variantId == variantId && item.AsRow() == session.db.rows[variantId]
    {
      var found := Get(variantId);
      if found == null {
        item := new InventoryItem(variantId, quantity, 0);
        Flush(item);
      } else {
        item := found;
      }
    }

    method Reserve(variantId: VariantId, quantity: int) returns (r: Result<()>)
      modifies session
      ensures match StockStep(old(session.db), Op.Reserve(variantId, quantity))
              case Ok(db) => r == Ok(()) && session.db == db
              case Err(e) => r == Err(e) && session.db == old(session.db)
      ensures r == if quantity <= 0 then Err(InvalidQuantity)
                   else if variantId in old(session.db.rows) && quantity <= old(session.db.rows)[variantId].Available() then Ok(())
                   else Err(InsufficientStock)
      ensures r.Ok? ==>
        && session.db.ledger == old(session.db.ledger) + [Movement(variantId, quantity, "reserve", None)]
        && var before := old(session.db.rows)[variantId];
           session.db.rows == old(session.db.rows)[variantId := Row(before.quantity, before.reserved + quantity)]
    {
      if quantity <= 0 {
        return Err(InvalidQuantity);
      }
      var item := Get(variantId);
      if item == null {
        return Err(InsufficientStock);
      }
      if item.Available() < quantity {
        return Err(InsufficientStock);
      }
      item.reserved := item.reserved + quantity;
      Record(variantId, quantity, "reserve", None);
      Flush(item);
      return Ok(());
    }

    method Release(variantId: VariantId, quantity: int) returns (r: Result<()>)
      modifies session
      ensures match StockStep(old(session.db), Op.Release(variantId, quantity))
              case Ok(db) => r == Ok(()) && session.db == db
              case Err(e) => r == Err(e) && session.db == old(session.db)
      ensures r == if quantity <= 0 || variantId in old(session.db.rows) then Ok(()) else Err(NoStockRecord)
      ensures quantity <= 0 ==> session.db == old(session.db)
      ensures quantity > 0 && r.Ok? ==>
        && session.db.ledger == old(session.db.ledger) + [Movement(variantId, -quantity, "release", None)]
        && var before := old(session.db.rows)[variantId];
           session.db.rows == old(session.db.rows)[variantId := Row(before.quantity, Max(0, before.reserved - quantity))]
    {
      if quantity <= 0 {
        NothingToDo(session.db, Op.Release(variantId, quantity));
        return Ok(());
      }
      var item := Get(variantId);
      if item == null {
        return Err(NoStockRecord);
      }
      item.reserved := Max(0, item.reserved - quantity);
      Record(variantId, -quantity, "release", None);
      Flush(item);
      return Ok(());
    }

    method CommitReservation(variantId: VariantId, quantity: int) returns (r: Result<()>)
      modifies session
      ensures match StockStep(old(session.db), Op.Commit(variantId, quantity))
              case Ok(db) => r == Ok(()) && session.db == db
              case Err(e) => r == Err(e) && session.db == old(session.db)
      ensures r == if quantity <= 0 || variantId in old(session.db.rows) then Ok(()) else Err(NoStockRecord)
      ensures quantity <= 0 ==> session.db == old(session.db)
      ensures quantity > 0 && r.Ok? ==>
        && session.db.ledger == old(session.db.ledger) + [Movement(variantId, -quantity, "commit", None)]
        && var before := old(session.db.rows)[variantId];
           session.db.rows == old(session.db.rows)[variantId := Row(Max(0, before.quantity - quantity), Max(0, before.reserved - quantity))]
    {
      if quantity <= 0 {
        NothingToDo(session.db, Op.Commit(variantId, quantity));
        return Ok(());
      }
      var item := Get(variantId);
      if item == null {
        return Err(NoStockRecord);
      }
      item.reserved := Max(0, item.reserved - quantity);
      item.quantity := Max(0, item.quantity - quantity);
      Record(variantId, -quantity, "commit", None);
      Flush(item);
      return Ok(());
    }

    /** On refusal, a row created for a variant without one stays behind in the session; the
        caller drops the session. */
    method Adjust(variantId: VariantId, delta: int, reason: string, note: Option<string>) returns (r: Result<()>)
      modifies session
      ensures match StockStep(old(session.db), Op.Adjust(variantId, delta, reason, note))
              case Ok(db) => r == Ok(()) && session.db == db
              case Err(e) => r == Err(e) && session.db == old(session.db).(rows := Ensured(old(session.db.rows), variantId, 0))
      ensures var before := if variantId in old(session.db.rows) then old(session.db.rows)[variantId] else Row(0, 0);
        && r == (if before.quantity + delta < before.reserved then Err(InsufficientStock) else Ok(()))
        && (r.Ok? ==>
              session.db.ledger == old(session.db.ledger) + [Movement(variantId, delta, reason, note)]
              && session.db.rows == old(session.db.rows)[variantId := Row(Max(0, before.quantity + delta), before.reserved)])
    {
      var item := EnsureItem(variantId, 0);
      var newQuantity := item.quantity + delta;
      if newQuantity < item.reserved {
        return Err(InsufficientStock);
      }
      item.quantity := Max(0, newQuantity);
      Record(variantId, delta, reason, note);
      Flush(item);
      return Ok(());
    }
  }

  lemma NothingToDo(db: Database, op: Op)
    requires (op.Release? || op.Commit?) && op.quantity <= 0
    ensures StockStep(db, op) == Ok(db)
  {
    assert db.ledger + [] == db.ledger;
    assert op.variantId in db.rows ==> db.rows[op.variantId := db.rows[op.variantId]] == db.rows;
  }
}
