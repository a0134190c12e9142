/** What a checkout leaves behind, and what becomes of its cart. */
module CheckoutLaws {
  import opened Prelude
  import opened Currency
  import opened Conversion
  import opened Lines
  import opened Orders
  import opened Pricing
  import opened Tables
  import opened Carts
  import opened Checkout
  import opened Api
  import opened Invariant
  import opened Runs

  // ----- order numbers -----

  predicate Taken(orders: seq<OrderRow>, number: string) {
    exists i :: 0 <= i < |orders| && orders[i].head.number == number
  }

  /** The number is the first candidate that belongs to no order, or the fallback when all do. */
  ghost predicate FirstFree(orders: seq<OrderRow>, candidates: seq<string>, fallback: string, number: string) {
    || (exists k :: 0 <= k < |candidates| && number == candidates[k] && !Taken(orders, number)
                    && forall j :: 0 <= j < k ==> Taken(orders, candidates[j]))
    || (number == fallback && forall j :: 0 <= j < |candidates| ==> Taken(orders, candidates[j]))
  }

  lemma {:induction false} NumberIsFree(orders: seq<OrderRow>, candidates: seq<string>, fallback: string)
    ensures FirstFree(orders, candidates, fallback, NextNumber(orders, candidates, fallback))
  {
    if candidates != [] {
      var found := FindNumber(orders, candidates[0]);
      if found.Some? {
        assert orders[found.value].head.number == candidates[0];
        NumberIsFree(orders, candidates[1..], fallback);
        FirstFreeLater(orders, candidates, fallback, NextNumber(orders, candidates, fallback));
      }
    }
  }

  lemma FirstFreeLater(orders: seq<OrderRow>, candidates: seq<string>, fallback: string, number: string)
    requires candidates != [] && Taken(orders, candidates[0]) && FirstFree(orders, candidates[1..], fallback, number)
    ensures FirstFree(orders, candidates, fallback, number)
  {
    var rest := candidates[1..];
    assert forall j :: 0 < j < |candidates| ==> candidates[j] == rest[j - 1];
    if k :| 0 <= k < |rest| && number == rest[k] && !Taken(orders, number) && forall j :: 0 <= j < k ==> Taken(orders, rest[j]) {
      assert number == candidates[k + 1];
    }
  }

  // ----- finding an order again -----

  /** An order answers to its identifier; to its number where the text parses to no identifier in
      use; and to nothing else. */
  lemma RefMeans(orders: seq<OrderRow>, ref: Ref, i: nat)
    requires UniqueOrders(orders) && i < |orders|
    ensures FindRef(orders, ref) == Some(i) <==>
      if ref.uuid.Some? && exists k :: 0 <= k < |orders| && orders[k].head.id == ref.uuid.value
      then orders[i].head.id == ref.uuid.value
      else orders[i].head.number == ref.text
  {
    var found := FindRef(orders, ref);
    if found.Some? && found.value != i {
      assert orders[found.value].head.id != orders[i].head.id;
    }
  }

  /** A checkout is a replay exactly when it has a key, not empty, that an order carries. */
  lemma ReplayMeans(db: Database, a: CheckoutArgs)
    ensures IsReplay(db, a) <==>
      a.key.Some? && a.key.value != "" && exists i :: 0 <= i < |db.orders| && db.orders[i].head.key == a.key
  {
    if a.key.Some? {
      var found := FindKey(db.orders, a.key.value);
      if found.Some? {
        assert db.orders[found.value].head.key == a.key;
      }
    }
  }

  /** The event's note marks an intent. */
  predicate Marks(event: OrderEvent) {
    event.note.Some? && "intent:" <= event.note.value
  }

  /** Event k marks this intent, and no later event marks any. */
  ghost predicate LastMark(events: seq<OrderEvent>, k: nat, ref: string) {
    k < |events| && events[k].note == Some("intent:" + ref) && forall l :: k < l < |events| ==> !Marks(events[l])
  }

  /** Some event is the last one that marks an intent, and it marks this one. */
  ghost predicate MarkedLast(events: seq<OrderEvent>, ref: string) {
    exists k :: LastMark(events, k, ref)
  }

  /** The reference found in an event log is the one in the last note that marks an intent. */
  lemma {:induction false} LatestIntentWins(events: seq<OrderEvent>, ref: string)
    ensures IntentRef(events) == Some(ref) <==> MarkedLast(events, ref)
    ensures IntentRef(events) == None <==> forall k :: 0 <= k < |events| ==> !Marks(events[k])
  {
    if events != [] {
      var n := |events| - 1;
      LatestIntentWins(events[..n], ref);
      if Marks(events[n]) {
        MarkAtEnd(events, ref);
      } else {
        MarkBefore(events, ref);
      }
    }
  }

  lemma MarkAtEnd(events: seq<OrderEvent>, ref: string)
    requires events != [] && Marks(events[|events| - 1])
    ensures IntentRef(events) == Some(ref) <==> MarkedLast(events, ref)
    ensures IntentRef(events).Some?
  {
    var n := |events| - 1;
    var note := events[n].note.value;
    assert note == "intent:" + note[|INTENT|..];
    if k :| LastMark(events, k, ref) {
      assert k == n && ("intent:" + ref)[|INTENT|..] == ref;
    }
    if IntentRef(events) == Some(ref) {
      assert LastMark(events, n, ref);
    }
  }

  lemma MarkBefore(events: seq<OrderEvent>, ref: string)
    requires events != [] && !Marks(events[|events| - 1])
    ensures MarkedLast(events, ref) <==> MarkedLast(events[..|events| - 1], ref)
  {
    if MarkedLast(events, ref) {
      var k :| LastMark(events, k, ref);
      NotMarked(events[|events| - 1], ref);
      MarkOfPrefix(events, k, ref);
    }
    if MarkedLast(events[..|events| - 1], ref) {
      var k :| LastMark(events[..|events| - 1], k, ref);
      MarkOfPrefix(events, k, ref);
    }
  }

  lemma MarkOfPrefix(events: seq<OrderEvent>, k: nat, ref: string)
    requires k < |events| - 1 && !Marks(events[|events| - 1])
    ensures LastMark(events, k, ref) <==> LastMark(events[..|events| - 1], k, ref)
  {
  }

  lemma NotMarked(event: OrderEvent, ref: string)
    requires !Marks(event)
    ensures event.note != Some("intent:" + ref)
  {
    assert "intent:" <= "intent:" + ref;
  }

  // ----- the snapshot -----

  /** An order line that records a cart line as the catalog shows it now. */
  predicate Records(snapshot: OrderLine, line: CartLine, catalog: Catalog, currency: string) {
    && line.variantId in catalog.variants
    && var variant := catalog.variants[line.variantId];
    && snapshot.variantId == Some(line.variantId)
    && snapshot.quantity == line.quantity
    && snapshot.sku == variant.sku
    && snapshot.variantLabel == variant.optionLabel
    && snapshot.productName == (match variant.name case Some(name) => name case None => variant.sku)
    && UnitPrice(catalog, variant, currency) == Ok(snapshot.unitPrice)
    && snapshot.currency == currency
  }

  /** A snapshot records every cart line, at its place. */
  lemma {:induction false} SnapshotRecords(catalog: Catalog, lines: seq<CartLine>, currency: string, snapshot: seq<OrderLine>, i: nat)
    requires SnapshotLines(catalog, lines, currency) == Ok(snapshot) && i < |lines|
    ensures |snapshot| == |lines| && Records(snapshot[i], lines[i], catalog, currency)
  {
    var n := |lines| - 1;
    if i < n {
      SnapshotRecords(catalog, lines[..n], currency, SnapshotLines(catalog, lines[..n], currency).value, i);
    }
  }

  lemma AllRecorded(catalog: Catalog, lines: seq<CartLine>, currency: string, snapshot: seq<OrderLine>)
    requires SnapshotLines(catalog, lines, currency) == Ok(snapshot)
    ensures |snapshot| == |lines|
    ensures forall i :: 0 <= i < |lines| ==> Records(snapshot[i], lines[i], catalog, currency)
  {
    forall i | 0 <= i < |lines|
      ensures Records(snapshot[i], lines[i], catalog, currency)
    {
      SnapshotRecords(catalog, lines, currency, snapshot, i);
    }
  }

  // ----- the placed order -----

  lemma DraftParts(db: Database, a: CheckoutArgs, cart: CartRow, draft: OrderRow)
    requires DraftOrder(db, a, cart) == Ok(draft)
    ensures ResolveRegion(a.catalog, cart.region).Ok?
    ensures var region := ResolveRegion(a.catalog, cart.region).value;
            var priced := Calculated(a.catalog, CartInputs(cart.lines), region, cart.currency);
      priced.Ok? && draft.head == DraftHead(db, a, cart, region, priced.value)
    ensures SnapshotLines(a.catalog, cart.lines, cart.currency) == Ok(draft.lines)
  {
  }

  /** The amounts an order is charged are those its cart page quoted with the same data. */
  lemma QuoteIsCharged(st: State, a: CheckoutArgs, quote: Breakdown)
    requires SoundCarts(st.db.carts) && Proceeds(st.db, a)
    requires CartTotals(st.db.carts, a.catalog, a.token, a.now) == Ok(quote)
    ensures CheckedOut(st, a).1 == Ok(|st.db.orders|)
    ensures var orders := CheckedOut(st, a).0.db.orders;
      |orders| == |st.db.orders| + 1
      && var head := orders[|st.db.orders|].head;
         head.subtotal == quote.subtotal && head.shippingFee == quote.shippingFee
         && head.tax == quote.tax && head.total == quote.total
  {
    var cart, draft := PlacingGives(st, a);
    DraftParts(st.db, a, cart, draft);
  }

  /** The region of an order is the one its cart names, when that is configured, and otherwise the
      fallback. */
  ghost predicate RegionRecorded(head: OrderHead, catalog: Catalog, code: string) {
    if code != "" && code in catalog.regions then head.region == catalog.regions[code].code
    else catalog.fallback.Some? && head.region == catalog.fallback.value.code
  }

  /** What a placed order leaves behind: one more unpaid order that records the customer, its region, every
      cart line and a free number; an uncaptured intent over its total, named in its first event;
      and the cart, closed with the email. No other order, cart or intent changes. */
  ghost predicate Placed(st: State, a: CheckoutArgs, after: State, row: OrderRow) {
    && a.token in st.db.carts
    && var cart := st.db.carts[a.token];
    && after.db.orders == st.db.orders + [row]
    && row.head.email == a.email && row.head.address == a.address && row.head.key == a.key && row.head.id == a.orderId
    && row.head.currency == cart.currency && RegionRecorded(row.head, a.catalog, cart.region)
    && !Taken(st.db.orders, row.head.number)
    && row.status == AwaitingPayment
    && row.events == [OrderEvent(Some(Draft), AwaitingPayment, Some(INTENT + a.intentRef))]
    && |row.lines| == |cart.lines|
    && (forall i :: 0 <= i < |row.lines| ==> Records(row.lines[i], cart.lines[i], a.catalog, cart.currency))
    && after.db.carts == st.db.carts[a.token := cart.(email := Some(a.email), status := Converted)]
    && after.intents == st.intents[a.intentRef := Intent(row.head.number, row.head.total, row.head.currency, false)]
  }

  lemma PlacedRecords(st: State, a: CheckoutArgs, cart: CartRow, draft: OrderRow)
    requires a.token in st.db.carts && cart == st.db.carts[a.token]
    requires DraftOrder(st.db, a, cart) == Ok(draft) && draft.status == Draft && draft.events == []
    requires Storable(st.db.orders, draft).Ok?
    ensures Placed(st, a, PlacedState(st, a, cart, draft), Submitted(draft, a.intentRef))
  {
    DraftParts(st.db, a, cart, draft);
    AllRecorded(a.catalog, cart.lines, cart.currency, draft.lines);
    assert FindNumber(st.db.orders, draft.head.number).None?;
  }

  /** A checkout that gets past every guard places an order. */
  lemma CheckoutRecords(st: State, a: CheckoutArgs) returns (row: OrderRow)
    requires Inv(st) && Proceeds(st.db, a)
    ensures Placed(st, a, CheckedOut(st, a).0, row)
  {
    var cart, draft := PlacingGives(st, a);
    PlacedRecords(st, a, cart, draft);
    row := Submitted(draft, a.intentRef);
  }

  /** Every checkout that succeeds without being a replay places an order. */
  lemma CheckoutPlaces(st: State, a: CheckoutArgs)
    requires Inv(st) && !IsReplay(st.db, a)
    ensures var (after, r) := CheckedOut(st, a);
      r.Ok? ==> r.value == |st.db.orders| && |after.db.orders| == r.value + 1 && Placed(st, a, after, after.db.orders[r.value])
  {
    if Proceeds(st.db, a) {
      var row := CheckoutRecords(st, a);
      var cart, draft := PlacingGives(st, a);
    }
  }

  // ----- after the order -----

  /** From the moment a cart became an order it stays converted, whatever else happens. */
  lemma OrderedCartStaysConverted(st: State, calls: seq<Call>, i: nat)
    requires i < |calls| && Places(Run(st, calls[..i]), calls[i])
    ensures IsConverted(Run(st, calls), calls[i].args.token)
  {
    OrderConverts(st, calls, i);
    ConvertedForever(st, calls, i + 1, calls[i].args.token);
  }

  /** Every attempt to change a converted cart, or to check it out again, is refused. */
  lemma ConvertedCartIsClosed(st: State, token: string, catalog: Catalog, v: VariantId, quantity: int, lineId: Uuid, now: int, a: CheckoutArgs)
    requires IsConverted(st, token) && a.token == token && !IsReplay(st.db, a)
    ensures Step(st, AddLine(token, catalog, v, quantity, lineId, now)).1 == Err(if quantity <= 0 then InvalidQuantity else CartExpired)
    ensures Step(st, UpdateLine(token, lineId, quantity, now)).1 == Err(CartExpired)
    ensures Step(st, PlaceOrder(a)) == (st, Err(CartExpired))
  {
  }

  lemma OrderConverts(st: State, calls: seq<Call>, i: nat)
    requires i < |calls| && Places(Run(st, calls[..i]), calls[i])
    ensures IsConverted(Run(st, calls[..i + 1]), calls[i].args.token)
  {
    assert calls[..i + 1][..i] == calls[..i];
    PlacingConverts(Run(st, calls[..i]), calls[i]);
  }

  // ----- the cart requests -----

  /** Creating a cart succeeds exactly under a fresh token; the cart is empty, has the region as given
      and the currency in upper case, and is open for the next thirty days. */
  lemma CreateCartExactly(st: State, token: string, region: string, currency: string, now: int)
    ensures var (after, r) := Step(st, CreateCart(token, region, currency, now));
      if token in st.db.carts then r == Err(IntegrityError) && after == st
      else
        && r == Ok(None)
        && after == st.(db := st.db.(carts := st.db.carts[token :=
                     CartRow(token, region, Upper(currency), Active, Some(now + 2_592_000), None, [])]))
        && forall later :: ActiveCart(after.db.carts, token, later).Ok? <==> later < now + 2_592_000
  {
  }

  /** What becomes of a request to add to a cart: the first guard that fails, with its error, or the
      cart with that line added at the unit price of the cart's currency, and nothing else changed. */
  lemma AddLineExactly(st: State, token: string, catalog: Catalog, v: VariantId, quantity: int, lineId: Uuid, now: int, u: VariantId)
    requires Inv(st)
    ensures var (after, r) := Step(st, AddLine(token, catalog, v, quantity, lineId, now));
            var open := ActiveCart(st.db.carts, token, now);
      if quantity <= 0 then r == Err(InvalidQuantity) && after == st
      else if open.Err? then r == Err(open.error) && after == st
      else if v !in catalog.variants then r == Err(VariantNotFound) && after == st
      else
        var price := UnitPrice(catalog, catalog.variants[v], open.value.currency);
        if price.Err? then r == Err(price.error) && after == st
        else if !FitsMoneyColumn(price.value) then r == Err(ColumnOverflow) && after == st
        else
          && r == Ok(None)
          && after == st.(db := st.db.(carts := st.db.carts[token := WithLine(open.value, v, quantity, price.value, lineId)]))
          && Content(after.db.carts[token].lines, u) == Content(open.value.lines, u) + if u == v then quantity else 0
  {
    var open := ActiveCart(st.db.carts, token, now);
    if quantity > 0 && open.Ok? && v in catalog.variants && Priceable(catalog, v, open.value.currency) {
      AddIsAddition(open.value, v, quantity, UnitPrice(catalog, catalog.variants[v], open.value.currency).value, lineId, u);
    }
  }

  /** A variant has a price in the currency, and the money column holds it. */
  predicate Priceable(catalog: Catalog, v: VariantId, currency: string)
    requires v in catalog.variants
  {
    var price := UnitPrice(catalog, catalog.variants[v], currency);
    price.Ok? && FitsMoneyColumn(price.value)
  }

  /** Line i of the cart, of this identifier, was given a quantity; zero or less removed it. */
  ghost predicate Assigned(st: State, after: State, token: string, lineId: Uuid, quantity: int, i: nat) {
    && token in st.db.carts
    && var cart := st.db.carts[token];
    && i < |cart.lines| && cart.lines[i].id == lineId
    && after == st.(db := st.db.(carts := st.db.carts[token := WithQuantity(cart, i, quantity)]))
  }

  /** Updating an open cart succeeds exactly for an identifier among its lines; it then assigns
      the content of that line's variant, zero or less removing it, and changes nothing else. */
  lemma UpdateLineExactly(st: State, token: string, lineId: Uuid, quantity: int, now: int, u: VariantId) returns (i: nat)
    requires Inv(st)
    ensures var (after, r) := Step(st, UpdateLine(token, lineId, quantity, now));
            var open := ActiveCart(st.db.carts, token, now);
      if open.Err? then r == Err(open.error) && after == st
      else if forall k :: 0 <= k < |open.value.lines| ==> open.value.lines[k].id != lineId then
        r == Err(CartLineNotFound) && after == st
      else
        && r == Ok(None) && Assigned(st, after, token, lineId, quantity, i)
        && Content(after.db.carts[token].lines, u) == NewContent(open.value.lines, i, quantity, u)
  {
    i := 0;
    var open := ActiveCart(st.db.carts, token, now);
    if open.Ok? && FindLine(open.value.lines, lineId).Some? {
      i := FindLine(open.value.lines, lineId).value;
      UpdateIsAssignment(open.value, i, quantity, u);
      assert open.value.lines[i].id == lineId;
    }
  }

  function NewContent(before: seq<CartLine>, i: nat, quantity: int, u: VariantId): int
    requires i < |before|
  {
    if u != before[i].variantId then Content(before, u) else if quantity > 0 then quantity else 0
  }
}
