/** Carts as table rows: the rules of cart/service.py. */
module Carts {
  import opened Prelude
  import opened Decimals
  import opened Currency
  import opened Conversion
  import opened Lines
  import opened Orders
  import opened Pricing
  import opened Tables

  predicate IsExpired(expiresAt: Option<int>, now: int) {
    expiresAt.Some? && expiresAt.value <= now
  }

  /** The cart a request may still change. */
  function ActiveCart(carts: map<string, CartRow>, token: string, now: int): Result<CartRow> {
    if token !in carts then Err(CartNotFound)
    else if carts[token].status != Active then Err(CartExpired)
    else if IsExpired(carts[token].expiresAt, now) then Err(CartExpired)
    else Ok(carts[token])
  }

  function CartInputs(lines: seq<CartLine>): (inputs: seq<LineInput>)
    ensures |inputs| == |lines|
  {
    seq(|lines|, i requires 0 <= i < |lines| => LineInput(lines[i].variantId, lines[i].quantity))
  }

  function FindVariant(lines: seq<CartLine>, v: VariantId): (r: Option<nat>)
    ensures r.Some? ==> r.value < |lines| && lines[r.value].variantId == v
    ensures r.None? ==> forall i :: 0 <= i < |lines| ==> lines[i].variantId != v
  {
    if lines == [] then None
    else if lines[|lines| - 1].variantId == v then Some(|lines| - 1)
    else FindVariant(lines[..|lines| - 1], v)
  }

  function FindLine(lines: seq<CartLine>, id: Uuid): (r: Option<nat>)
    ensures r.Some? ==> r.value < |lines| && lines[r.value].id == id
    ensures r.None? ==> forall i :: 0 <= i < |lines| ==> lines[i].id != id
  {
    if lines == [] then None
    else if lines[|lines| - 1].id == id then Some(|lines| - 1)
    else FindLine(lines[..|lines| - 1], id)
  }

  const DEFAULT_TTL_DAYS := 30
  const SECONDS_A_DAY := 86_400

  function Created(carts: map<string, CartRow>, token: string, region: string, currency: string, now: int): Result<map<string, CartRow>> {
    if token in carts then Err(IntegrityError)
    else Ok(carts[token := CartRow(token, region, Upper(currency), Active, Some(now + DEFAULT_TTL_DAYS * SECONDS_A_DAY), None, [])])
  }

  /** Adding a variant that is already in the cart raises that line's quantity. */
  function WithLine(cart: CartRow, v: VariantId, quantity: int, unitPrice: Dec, lineId: Uuid): CartRow {
    var found := FindVariant(cart.lines, v);
    if found.Some? then
      var line := cart.lines[found.value];
      cart.(lines := cart.lines[found.value := line.(quantity := line.quantity + quantity, unitPrice := unitPrice)])
    else
      cart.(lines := cart.lines + [CartLine(lineId, v, quantity, unitPrice, cart.currency, |cart.lines|)])
  }

  /** The line's price is flushed to a money column, which refuses one that does not fit. */
  function LineAdded(carts: map<string, CartRow>, catalog: Catalog, token: string, v: VariantId, quantity: int, lineId: Uuid, now: int)
    : Result<map<string, CartRow>>
  {
    if quantity <= 0 then Err(InvalidQuantity)
    else
      var cart :- ActiveCart(carts, token, now);
      if v !in catalog.variants then Err(VariantNotFound)
      else
        var unitPrice :- UnitPrice(catalog, catalog.variants[v], cart.currency);
        if !FitsMoneyColumn(unitPrice) then Err(ColumnOverflow)
        else Ok(carts[token := WithLine(cart, v, quantity, unitPrice, lineId)])
  }

  /** A quantity of zero or less removes the line. */
  function WithQuantity(cart: CartRow, i: nat, quantity: int): CartRow
    requires i < |cart.lines|
  {
    if quantity <= 0 then cart.(lines := cart.lines[..i] + cart.lines[i + 1..])
    else cart.(lines := cart.lines[i := cart.lines[i].(quantity := quantity)])
  }

  function LineUpdated(carts: map<string, CartRow>, token: string, lineId: Uuid, quantity: int, now: int): Result<map<string, CartRow>> {
    var cart :- ActiveCart(carts, token, now);
    var found := FindLine(cart.lines, lineId);
    if found.None? then Err(CartLineNotFound)
    else Ok(carts[token := WithQuantity(cart, found.value, quantity)])
  }

  /** Prices the cart with its own region. */
  function CartTotals(carts: map<string, CartRow>, catalog: Catalog, token: string, now: int): Result<Breakdown> {
    var cart :- ActiveCart(carts, token, now);
    var region :- ResolveRegion(catalog, cart.region);
    Calculated(catalog, CartInputs(cart.lines), region, cart.currency)
  }

  // ----- when a cart is open -----

  /** A cart is open while it is active and its expiry lies ahead; the error of every other case. */
  lemma CartIsOpen(carts: map<string, CartRow>, token: string, now: int)
    ensures ActiveCart(carts, token, now)
         == if token !in carts then Err(CartNotFound)
            else if carts[token].status == Active && (carts[token].expiresAt.Some? ==> now < carts[token].expiresAt.value)
            then Ok(carts[token])
            else Err(CartExpired)
  {
  }

  // ----- what a change leaves alone -----

  /** Adding reprices the variant's line, or appends one at the end with the cart's currency; every
      other line, and everything else about the cart, stays. */
  lemma AddKeepsRest(cart: CartRow, v: VariantId, quantity: int, unitPrice: Dec, lineId: Uuid, i: nat)
    requires SoundCart(cart)
    requires i < |WithLine(cart, v, quantity, unitPrice, lineId).lines|
    ensures var after := WithLine(cart, v, quantity, unitPrice, lineId);
      && after == cart.(lines := after.lines)
      && |after.lines| == |cart.lines| + (if exists k :: 0 <= k < |cart.lines| && cart.lines[k].variantId == v then 0 else 1)
      && (i < |cart.lines| && cart.lines[i].variantId != v ==> after.lines[i] == cart.lines[i])
      && (i < |cart.lines| && cart.lines[i].variantId == v ==>
            after.lines[i] == cart.lines[i].(quantity := cart.lines[i].quantity + quantity, unitPrice := unitPrice))
      && (i == |cart.lines| ==> after.lines[i] == CartLine(lineId, v, quantity, unitPrice, cart.currency, i))
  {
    var found := FindVariant(cart.lines, v);
    if found.Some? {
      assert cart.lines[found.value].variantId == v;
    }
  }

  /** Updating keeps every other line, and all of the line but its quantity; removing closes the gap. */
  lemma UpdateKeepsRest(cart: CartRow, i: nat, quantity: int, k: nat)
    requires i < |cart.lines| && k < |cart.lines|
    ensures var after := WithQuantity(cart, i, quantity);
      && after == cart.(lines := after.lines)
      && |after.lines| == |cart.lines| - (if quantity > 0 then 0 else 1)
      && (quantity > 0 ==> after.lines[k] == if k == i then cart.lines[i].(quantity := quantity) else cart.lines[k])
      && (quantity <= 0 && k < i ==> after.lines[k] == cart.lines[k])
      && (quantity <= 0 && k > i ==> after.lines[k - 1] == cart.lines[k])
  {
  }

  // ----- a cart is a map from variants to positive quantities -----

  /** Lines have distinct variants, positive quantities and the cart's currency. */
  ghost predicate SoundCart(cart: CartRow) {
    && (forall i :: 0 <= i < |cart.lines| ==> cart.lines[i].quantity > 0 && cart.lines[i].currency == cart.currency)
    && (forall i, j :: 0 <= i < j < |cart.lines| ==> cart.lines[i].variantId != cart.lines[j].variantId)
  }

  /** Units of v in the cart. */
  function Content(lines: seq<CartLine>, v: VariantId): int {
    var found := FindVariant(lines, v);
    if found.Some? then lines[found.value].quantity else 0
  }

  /** In a sound cart, the line of a variant holds its content. */
  lemma ContentAt(cart: CartRow, i: nat)
    requires SoundCart(cart) && i < |cart.lines|
    ensures Content(cart.lines, cart.lines[i].variantId) == cart.lines[i].quantity
    ensures FindVariant(cart.lines, cart.lines[i].variantId) == Some(i)
  {
    var j := FindVariant(cart.lines, cart.lines[i].variantId).value;
    assert cart.lines[j].variantId == cart.lines[i].variantId;
  }

  lemma ContentAbsent(lines: seq<CartLine>, v: VariantId)
    requires forall i :: 0 <= i < |lines| ==> lines[i].variantId != v
    ensures Content(lines, v) == 0 && FindVariant(lines, v) == None
  {
  }

  /** Adding a line is addition on the content, and touches no other variant. */
  lemma AddIsAddition(cart: CartRow, v: VariantId, quantity: int, unitPrice: Dec, lineId: Uuid, u: VariantId)
    requires SoundCart(cart) && quantity > 0
    ensures var after := WithLine(cart, v, quantity, unitPrice, lineId);
      SoundCart(after)
      && Content(after.lines, u) == Content(cart.lines, u) + if u == v then quantity else 0
  {
    var after := WithLine(cart, v, quantity, unitPrice, lineId);
    assert SoundCart(after);
    forall i | 0 <= i < |cart.lines| && cart.lines[i].variantId != v
      ensures cart.lines[i] in after.lines
    {
      assert after.lines[i] == cart.lines[i];
    }
    SameContentElsewhere(cart, after, v, u);
    if u == v {
      var found := FindVariant(cart.lines, v);
      ContentAt(after, if found.Some? then found.value else |cart.lines|);
    }
  }

  /** Two sound carts with the same lines but for variant v agree on every other variant. */
  lemma SameContentElsewhere(a: CartRow, b: CartRow, v: VariantId, u: VariantId)
    requires SoundCart(a) && SoundCart(b)
    requires forall i :: 0 <= i < |a.lines| && a.lines[i].variantId != v ==> a.lines[i] in b.lines
    requires forall i :: 0 <= i < |b.lines| && b.lines[i].variantId != v ==> b.lines[i] in a.lines
    ensures u != v ==> Content(a.lines, u) == Content(b.lines, u)
  {
    if u != v {
      var i, j := FindVariant(a.lines, u), FindVariant(b.lines, u);
      if i.Some? {
        var k :| 0 <= k < |b.lines| && b.lines[k] == a.lines[i.value];
        ContentAt(b, k);
      }
      if j.Some? {
        var k :| 0 <= k < |a.lines| && a.lines[k] == b.lines[j.value];
        ContentAt(a, k);
      }
    }
  }

  /** Updating a line is assignment on the content of its variant; zero or less removes it. */
  lemma UpdateIsAssignment(cart: CartRow, i: nat, quantity: int, u: VariantId)
    requires SoundCart(cart) && i < |cart.lines|
    ensures var after := WithQuantity(cart, i, quantity);
      SoundCart(after)
      && Content(after.lines, u) == if u == cart.lines[i].variantId then (if quantity > 0 then quantity else 0) else Content(cart.lines, u)
  {
    var v := cart.lines[i].variantId;
    var after := WithQuantity(cart, i, quantity);
    assert SoundCart(after);
    if quantity > 0 {
      forall k | 0 <= k < |cart.lines| && cart.lines[k].variantId != v
        ensures cart.lines[k] in after.lines
      {
        assert after.lines[k] == cart.lines[k];
      }
      SameContentElsewhere(cart, after, v, u);
      ContentAt(after, i);
    } else {
      forall k | 0 <= k < |cart.lines| && cart.lines[k].variantId != v
        ensures cart.lines[k] in after.lines
      {
        assert after.lines[if k < i then k else k - 1] == cart.lines[k];
      }
      SameContentElsewhere(cart, after, v, u);
      ContentAbsent(after.lines, v);
    }
  }

  /** What a sound cart asks for at checkout is its content. */
  lemma {:induction false} DemandIsContent(cart: CartRow, v: VariantId)
    requires SoundCart(cart)
    ensures AllPositive(CartInputs(cart.lines))
    ensures Demand(CartInputs(cart.lines), v) == Content(cart.lines, v)
    decreases |cart.lines|
  {
    if cart.lines != [] {
      var n := |cart.lines| - 1;
      var shorter := cart.(lines := cart.lines[..n]);
      DemandIsContent(shorter, v);
      assert CartInputs(cart.lines)[..n] == CartInputs(shorter.lines);
      if cart.lines[n].variantId == v {
        ContentAbsent(shorter.lines, v);
      }
    }
  }
}
