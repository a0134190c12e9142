/** The cart service at work on a session (cart/service.py). */
module CartService {
  import opened Prelude
  import opened Currency
  import opened Conversion
  import opened Lines
  import opened Orders
  import opened Pricing
  import opened Tables
  import opened Carts

  class Cart {
    const token: string
    const region: string
    const currency: string
    const expiresAt: Option<int>
    var status: CartStatus
    var email: Option<string>
    var lines: seq<CartLine>

    constructor Load(row: CartRow)
      ensures AsRow() == row
    {
      token, region, currency, expiresAt := row.token, row.region, row.currency, row.expiresAt;
      status, email, lines := row.status, row.email, row.lines;
    }

    function AsRow(): CartRow
      reads this
    {
      CartRow(token, region, currency, status, expiresAt, email, lines)
    }
  }

  class CartService {
    const session: Session
    const catalog: Catalog

    constructor (session: Session, catalog: Catalog)
      ensures this.session == session && this.catalog == catalog
    {
      this.session, this.catalog := session, catalog;
    }

    method Flush(token: string, cart: Cart)
      modifies session
      ensures session.db == old(session.db).(carts := old(session.db.carts)[token := cart.AsRow()])
    {
      session.db := session.db.(carts := session.db.carts[token := cart.AsRow()]);
    }

    method Create(token: string, region: string, currency: string, now: int) returns (r: Result<()>)
      modifies session
      ensures match Created(old(session.db.carts), token, region, currency, now)
              case Ok(carts) => r == Ok(()) && session.db == old(session.db).(carts := carts)
              case Err(e) => r == Err(e) && session.db == old(session.db)
    {
      var cart := new Cart.Load(CartRow(token, region, Upper(currency), Active, Some(now + DEFAULT_TTL_DAYS * SECONDS_A_DAY), None, []));
      if token in session.db.carts {
        return Err(IntegrityError);
      }
      Flush(token, cart);
      return Ok(());
    }

    method GetByToken(token: string, now: int) returns (r: Result<Cart>)
      ensures match ActiveCart(session.db.carts, token, now)
              case Ok(row) => r.Ok? && fresh(r.value) && r.value.AsRow() == row
              case Err(e) => r == Err(e)
    {
      if token !in session.db.carts {
        return Err(CartNotFound);
      }
      var cart := new Cart.Load(session.db.carts[token]);
      if cart.status != Active {
        return Err(CartExpired);
      }
      if IsExpired(cart.expiresAt, now) {
        return Err(CartExpired);
      }
      return Ok(cart);
    }

    method AddLine(token: string, variantId: VariantId, quantity: int, lineId: Uuid, now: int) returns (r: Result<()>)
      modifies session
      ensures match LineAdded(old(session.db.carts), catalog, token, variantId, quantity, lineId, now)
              case Ok(carts) => r == Ok(()) && session.db == old(session.db).(carts := carts)
              case Err(e) => r == Err(e) && session.db == old(session.db)
    {
      if quantity <= 0 {
        return Err(InvalidQuantity);
      }
      var found := GetByToken(token, now);
      if found.Err? {
        return Err(found.error);
      }
      var cart := found.value;
      if variantId !in catalog.variants {
        return Err(VariantNotFound);
      }
      var price := UnitPrice(catalog, catalog.variants[variantId], cart.currency);
      if price.Err? {
        return Err(price.error);
      }
      var existing := FindVariant(cart.lines, variantId);
      if existing.Some? {
        var line := cart.lines[existing.value];
        cart.lines := cart.lines[existing.value := line.(quantity := line.quantity + quantity, unitPrice := price.value)];
      } else {
        cart.lines := cart.lines + [CartLine(lineId, variantId, quantity, price.value, cart.currency, |cart.lines|)];
      }
      if !FitsMoneyColumn(price.value) {
        return Err(ColumnOverflow);
      }
      Flush(token, cart);
      return Ok(());
    }

    method UpdateLine(token: string, lineId: Uuid, quantity: int, now: int) returns (r: Result<()>)
      modifies session
      ensures match LineUpdated(old(session.db.carts), token, lineId, quantity, now)
              case Ok(carts) => r == Ok(()) && session.db == old(session.db).(carts := carts)
              case Err(e) => r == Err(e) && session.db == old(session.db)
    {
      var found := GetByToken(token, now);
      if found.Err? {
        return Err(found.error);
      }
      var cart := found.value;
      var line := FindLine(cart.lines, lineId);
      if line.None? {
        return Err(CartLineNotFound);
      }
      var i := line.value;
      if quantity <= 0 {
        cart.lines := cart.lines[..i] + cart.lines[i + 1..];
      } else {
        cart.lines := cart.lines[i := cart.lines[i].(quantity := quantity)];
      }
      Flush(token, cart);
      return Ok(());
    }

    method RemoveLine(token: string, lineId: Uuid, now: int) returns (r: Result<()>)
      modifies session
      ensures match LineUpdated(old(session.db.carts), token, lineId, 0, now)
              case Ok(carts) => r == Ok(()) && session.db == old(session.db).(carts := carts)
              case Err(e) => r == Err(e) && session.db == old(session.db)
    {
      r := UpdateLine(token, lineId, 0, now);
    }

    method SetEmail(token: string, cart: Cart, email: string)
      modifies session, cart
      ensures cart.AsRow() == old(cart.AsRow()).(email := Some(email))
      ensures session.db == old(session.db).(carts := old(session.db.carts)[token := cart.AsRow()])
    {
      cart.email := Some(email);
      Flush(token, cart);
    }

    method MarkConverted(token: string, cart: Cart)
      modifies session, cart
      ensures cart.AsRow() == old(cart.AsRow()).(status := Converted)
      ensures session.db == old(session.db).(carts := old(session.db.carts)[token := cart.AsRow()])
    {
      cart.status := Converted;
      Flush(token, cart);
    }

    method Totals(token: string, now: int) returns (r: Result<Breakdown>)
      ensures r == CartTotals(session.db.carts, catalog, token, now)
      ensures match ActiveCart(session.db.carts, token, now)
              case Err(e) => r == Err(e)
              case Ok(cart) =>
                (Ungoverned(catalog, cart.region) ==> r == Err(NoRegionConfigured))
                && forall region :: Rules(catalog, cart.region, region) ==>
                     r == Calculated(catalog, CartInputs(cart.lines), region, cart.currency)
    {
      var found := GetByToken(token, now);
      if found.Err? {
        return Err(found.error);
      }
      var cart := found.value;
      var region := ResolveRegion(catalog, cart.region);
      if region.Err? {
        return Err(region.error);
      }
      var pricing := new PricingService(catalog);
      r := pricing.Calculate(CartInputs(cart.lines), region.value, cart.currency);
    }
  }
}
