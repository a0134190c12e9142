/** The single place where money is calculated (pricing/service.py). */
module Pricing {
  import opened Prelude
  import opened Decimals
  import opened Currency
  import opened Lines

  datatype Variant = Variant(
    sku: string, name: Option<string>, optionLabel: Option<string>,
    basePrice: Dec, baseCurrency: string, prices: map<string, Dec>)

  datatype Region = Region(code: string, taxRate: Dec)

  /** The reference data a request reads: currencies, variants with their names in the
      request's locale, and regions with the one an unknown code degrades to. */
  datatype Catalog = Catalog(
    book: Book, variants: map<VariantId, Variant>, regions: map<string, Region>, fallback: Option<Region>)

  datatype Breakdown = Breakdown(currency: string, subtotal: Dec, shippingFee: Dec, tax: Dec, total: Dec)

  const ZERO := Dec(0, 0)

  function ResolveRegion(catalog: Catalog, code: string): Result<Region> {
    if code != "" && code in catalog.regions then Ok(catalog.regions[code])
    else if catalog.fallback.Some? then Ok(catalog.fallback.value)
    else Err(NoRegionConfigured)
  }

  // ----- which region rules a cart -----

  /** The region a code names, when it is configured, and otherwise the fallback. */
  ghost predicate Rules(catalog: Catalog, code: string, region: Region) {
    if code != "" && code in catalog.regions then region == catalog.regions[code] else catalog.fallback == Some(region)
  }

  /** Neither the code's region nor a fallback is configured. */
  ghost predicate Ungoverned(catalog: Catalog, code: string) {
    (code == "" || code !in catalog.regions) && catalog.fallback == None
  }

  /** Pricing resolves a code to the region that rules it, and fails exactly without one. */
  lemma RegionOf(catalog: Catalog, code: string)
    ensures ResolveRegion(catalog, code).Ok? ==> Rules(catalog, code, ResolveRegion(catalog, code).value)
    ensures ResolveRegion(catalog, code).Err? <==> Ungoverned(catalog, code)
    ensures ResolveRegion(catalog, code).Err? ==> ResolveRegion(catalog, code).error == NoRegionConfigured
    ensures forall region :: Rules(catalog, code, region) ==> ResolveRegion(catalog, code) == Ok(region)
  {
  }

  // ----- prices and totals -----

  /** An explicit price wins; otherwise the base price is converted. */
  function UnitPrice(catalog: Catalog, variant: Variant, currency: string): Result<Dec> {
    var places := DecimalPlaces(catalog.book, currency);
    if Upper(currency) in variant.prices then
      RoundMoney(variant.prices[Upper(currency)], currency, Some(places))
    else
      var converted :- Convert(catalog.book, variant.basePrice, variant.baseCurrency, currency);
      RoundMoney(converted, currency, Some(places))
  }

  /** The running subtotal; a line whose variant is unknown is skipped. */
  function Subtotal(catalog: Catalog, lines: seq<LineInput>, currency: string): Result<Dec> {
    if lines == [] then Ok(ZERO)
    else
      var last := lines[|lines| - 1];
      var sum :- Subtotal(catalog, lines[..|lines| - 1], currency);
      if last.variantId !in catalog.variants then Ok(sum)
      else
        var unit :- UnitPrice(catalog, catalog.variants[last.variantId], currency);
        Ok(Add(sum, Mul(unit, Dec(last.quantity, 0))))
  }

  /** Flat shipping, waived from a threshold on. */
  function ShippingFee(subtotal: Dec, currency: string): Dec {
    var threshold := if Upper(currency) != "JPY" then Dec(100, 0) else Dec(10000, 0);
    var flat := if Upper(currency) != "JPY" then Dec(990, -2) else Dec(990, 0);
    if GreaterOrEqual(subtotal, threshold) then ZERO else flat
  }

  /** What follows from the rounded subtotal. */
  function Totals(subtotal: Dec, region: Region, currency: string, places: nat): Result<Breakdown> {
    var fee :- RoundMoney(ShippingFee(subtotal, currency), currency, Some(places));
    var taxable := Add(subtotal, fee);
    var tax :- RoundMoney(Mul(taxable, region.taxRate), currency, Some(places));
    var total :- RoundMoney(Add(Add(subtotal, fee), tax), currency, Some(places));
    Ok(Breakdown(Upper(currency), subtotal, fee, tax, total))
  }

  function Calculated(catalog: Catalog, lines: seq<LineInput>, region: Region, currency: string): Result<Breakdown> {
    var places := DecimalPlaces(catalog.book, currency);
    var sum :- Subtotal(catalog, lines, currency);
    var subtotal :- RoundMoney(sum, currency, Some(places));
    Totals(subtotal, region, currency, places)
  }

  class PricingService {
    const catalog: Catalog

    constructor (catalog: Catalog)
      ensures this.catalog == catalog
    {
      this.catalog := catalog;
    }

    method Calculate(lines: seq<LineInput>, region: Region, currency: string) returns (r: Result<Breakdown>)
      ensures r == Calculated(catalog, lines, region, currency)
    {
      var places := DecimalPlaces(catalog.book, currency);
      var subtotal := ZERO;
      for i := 0 to |lines|
        invariant Subtotal(catalog, lines[..i], currency) == Ok(subtotal)
      {
        assert lines[..i + 1][..i] == lines[..i];
        var line := lines[i];
        if line.variantId in catalog.variants {
          var unit := UnitPrice(catalog, catalog.variants[line.variantId], currency);
          if unit.Err? {
            SubtotalStops(catalog, lines, i + 1, currency);
            return Err(unit.error);
          }
          subtotal := Add(subtotal, Mul(unit.value, Dec(line.quantity, 0)));
        }
      }
      assert lines[..|lines|] == lines;
      var rounded := RoundMoney(subtotal, currency, Some(places));
      if rounded.Err? {
        return Err(rounded.error);
      }
      r := Totals(rounded.value, region, currency, places);
    }
  }

  /** Once a line cannot be priced, no longer list of lines can. */
  lemma {:induction false} SubtotalStops(catalog: Catalog, lines: seq<LineInput>, i: nat, currency: string)
    requires i <= |lines| && Subtotal(catalog, lines[..i], currency).Err?
    ensures Subtotal(catalog, lines, currency) == Err(Subtotal(catalog, lines[..i], currency).error)
  {
    if i < |lines| {
      assert lines[..|lines| - 1][..i] == lines[..i];
      SubtotalStops(catalog, lines[..|lines| - 1], i, currency);
    } else {
      assert lines[..i] == lines;
    }
  }
}
