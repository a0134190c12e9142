/** Currency rounding and conversion (money.py and currency/service.py). */
module Currency {
  import opened Prelude
  import opened Decimals

  // ----- codes -----

  function UpperChar(c: char): char {
    if 'a' <= c <= 'z' then c - 'a' + 'A' else c
  }

  function Upper(s: string): string {
    seq(|s|, i requires 0 <= i < |s| => UpperChar(s[i]))
  }

  const ZERO_DECIMAL_CURRENCIES := {"JPY", "KRW", "VND", "CLP", "ISK", "HUF"}
  const THREE_DECIMAL_CURRENCIES := {"BHD", "JOD", "KWD", "OMR", "TND"}
  const DEFAULT_DECIMAL_PLACES := 2

  function DefaultDecimalPlaces(code: string): nat {
    var upper := Upper(code);
    if upper in ZERO_DECIMAL_CURRENCIES then 0
    else if upper in THREE_DECIMAL_CURRENCIES then 3
    else DEFAULT_DECIMAL_PLACES
  }

  function RoundMoney(amount: Dec, code: string, decimalPlaces: Option<nat>): Result<Dec> {
    Quantize(amount, if decimalPlaces.None? then DefaultDecimalPlaces(code) else decimalPlaces.value)
  }

  // ----- the stored reference data -----

  type Pair = (string, string)

  /** The `currency` table (code to decimal places) and the `exchange_rate` table. */
  datatype Book = Book(places: map<string, nat>, rates: map<Pair, Dec>)

  function DecimalPlaces(book: Book, code: string): nat {
    if Upper(code) in book.places then book.places[Upper(code)] else DefaultDecimalPlaces(code)
  }

  function Convert(book: Book, amount: Dec, fromCode: string, toCode: string): Result<Dec> {
    var source, target := Upper(fromCode), Upper(toCode);
    var places := DecimalPlaces(book, target);
    if source == target then
      RoundMoney(amount, target, Some(places))
    else if (source, target) in book.rates then
      RoundMoney(Mul(amount, book.rates[(source, target)]), target, Some(places))
    else if (target, source) in book.rates && book.rates[(target, source)].coef != 0 then
      RoundMoney(Div(amount, book.rates[(target, source)]), target, Some(places))
    else
      Err(ExchangeRateUnavailable)
  }

  // ----- what codes mean -----

  /** Upper case, letter by letter: ASCII letters lose their case, everything else stays. */
  lemma UpperMeans(s: string, i: nat)
    requires i < |s|
    ensures |Upper(s)| == |s|
    ensures 'a' <= s[i] <= 'z' ==> 'A' <= Upper(s)[i] <= 'Z' && Upper(s)[i] - 'A' == s[i] - 'a'
    ensures !('a' <= s[i] <= 'z') ==> Upper(s)[i] == s[i]
  {
  }

  /** Codes that differ in case only mean the same currency. */
  lemma CaseIsIgnored(book: Book, amount: Dec, a: string, b: string, c: string)
    requires Upper(a) == Upper(b)
    ensures DefaultDecimalPlaces(a) == DefaultDecimalPlaces(b) && DecimalPlaces(book, a) == DecimalPlaces(book, b)
    ensures Convert(book, amount, a, c) == Convert(book, amount, b, c) && Convert(book, amount, c, a) == Convert(book, amount, c, b)
  {
  }

  /** The decimals of a currency: those of its row, or none for six codes, three for five, and two
      for any other. */
  lemma PlacesMean(book: Book, code: string)
    ensures var upper, places := Upper(code), DecimalPlaces(book, code);
      if upper in book.places then places == book.places[upper]
      else if upper == "JPY" || upper == "KRW" || upper == "VND" || upper == "CLP" || upper == "ISK" || upper == "HUF" then places == 0
      else if upper == "BHD" || upper == "JOD" || upper == "KWD" || upper == "OMR" || upper == "TND" then places == 3
      else places == 2
  {
    UpperTwice(code);
  }

  /** No rate is available exactly between different currencies without a direct rate and without
      an opposite rate other than zero. */
  lemma ConvertUnavailableIff(book: Book, amount: Dec, fromCode: string, toCode: string)
    ensures Convert(book, amount, fromCode, toCode) == Err(ExchangeRateUnavailable) <==>
      (var source, target := Upper(fromCode), Upper(toCode);
       source != target && (source, target) !in book.rates
       && ((target, source) in book.rates ==> book.rates[(target, source)].coef == 0))
  {
  }

  /** Rounding without given decimals uses the currency's default. */
  lemma RoundsToDefault(amount: Dec, code: string)
    ensures RoundMoney(amount, code, None) == RoundMoney(amount, Upper(code), Some(DefaultDecimalPlaces(code)))
  {
  }

  lemma UpperTwice(s: string)
    ensures Upper(Upper(s)) == Upper(s)
  {
  }

  /** Which arithmetic a conversion performs: a stored direct rate multiplies, and only in its
      absence a stored opposite rate divides. */
  lemma ConvertDirectly(book: Book, amount: Dec, fromCode: string, toCode: string)
    requires Upper(fromCode) != Upper(toCode) && (Upper(fromCode), Upper(toCode)) in book.rates
    ensures Convert(book, amount, fromCode, toCode)
         == Quantize(Mul(amount, book.rates[(Upper(fromCode), Upper(toCode))]), DecimalPlaces(book, toCode))
  {
    UpperTwice(toCode);
  }

  lemma ConvertInversely(book: Book, amount: Dec, fromCode: string, toCode: string)
    requires Upper(fromCode) != Upper(toCode) && (Upper(fromCode), Upper(toCode)) !in book.rates
    requires (Upper(toCode), Upper(fromCode)) in book.rates
    requires book.rates[(Upper(toCode), Upper(fromCode))].coef != 0
    ensures Convert(book, amount, fromCode, toCode)
         == Quantize(Div(amount, book.rates[(Upper(toCode), Upper(fromCode))]), DecimalPlaces(book, toCode))
  {
    UpperTwice(toCode);
  }

  // ----- refreshing rates -----

  /** Whether a fetched quote is written: a tracked currency other than the base. */
  predicate Tracked(places: map<string, nat>, base: string, quote: string) {
    Upper(quote) != Upper(base) && Upper(quote) in places
  }

  /** Position of the last fetched entry for this currency, if any. */
  function LastFetched(fetched: seq<(string, Dec)>, quote: string): (r: Option<nat>)
    ensures r.Some? ==> r.value < |fetched| && Upper(fetched[r.value].0) == quote
                        && forall j :: r.value < j < |fetched| ==> Upper(fetched[j].0) != quote
    ensures r.None? ==> forall j :: 0 <= j < |fetched| ==> Upper(fetched[j].0) != quote
  {
    if fetched == [] then None
    else if Upper(fetched[|fetched| - 1].0) == quote then Some(|fetched| - 1)
    else LastFetched(fetched[..|fetched| - 1], quote)
  }

  const RATE_SCALE := 10
  const RATE_DIGITS := 20

  /** A rate as its NUMERIC(20, 10) column stores it. */
  function StoredRate(rate: Dec): (r: Result<Dec>)
    ensures r.Ok? ==> r.value.exp == 0 - RATE_SCALE && Digits(Abs(r.value.coef)) <= RATE_DIGITS
  {
    var rounded := Quantize(rate, RATE_SCALE);
    if rounded.Ok? && Digits(Abs(rounded.value.coef)) <= RATE_DIGITS then rounded else Err(ColumnOverflow)
  }

  /** The half-up rounding of a rate, in units of 10^-10. */
  ghost function InRateUnits(rate: Dec): int {
    if rate.exp <= 0 then HalfUp(Shift(rate.coef, 10), Pow10(0 - rate.exp)) else Shift(rate.coef, 10 + rate.exp)
  }

  /** A rate is stored as that rounding, unless it has more than 20 digits. */
  lemma StoredRateMeans(rate: Dec)
    ensures StoredRate(rate)
         == if Digits(Abs(InRateUnits(rate))) <= 20 then Ok(Dec(InRateUnits(rate), -10)) else Err(ColumnOverflow)
  {
    if rate.exp <= 0 {
      QuantizeMeans(rate.coef, 0 - rate.exp, 10, InRateUnits(rate));
    }
  }

  /** A rate of at most ten decimals is stored unchanged. */
  lemma ShortRateIsKept(c: int, s: nat)
    requires s <= 10
    ensures InRateUnits(Dec(c, 0 - s)) == Shift(c, 10 - s)
  {
    HalfUpWhole(c, 10 - s, s);
  }

  ghost predicate AllStorable(places: map<string, nat>, base: string, fetched: seq<(string, Dec)>) {
    forall i :: 0 <= i < |fetched| && Tracked(places, base, fetched[i].0) ==> Digits(Abs(InRateUnits(fetched[i].1))) <= 20
  }

  /** The rates after a refresh: the last fetched value of every pair of the base with another
      currency of the table, half up in units of 10^-10, and the old value of every other pair. */
  ghost predicate Refreshed(places: map<string, nat>, base: string, fetched: seq<(string, Dec)>, before: map<Pair, Dec>, after: map<Pair, Dec>) {
    forall p: Pair ::
      var hit := if p.0 == Upper(base) && p.1 != Upper(base) && p.1 in places then LastFetched(fetched, p.1) else None;
      (p in after <==> hit.Some? || p in before) &&
      (hit.Some? ==> after[p] == Dec(InRateUnits(fetched[hit.value].1), -10)) &&
      (hit.None? && p in before ==> after[p] == before[p])
  }

  ghost function TrackedEntries(places: map<string, nat>, base: string, fetched: seq<(string, Dec)>): set<int> {
    set i | 0 <= i < |fetched| && Upper(fetched[i].0) != Upper(base) && Upper(fetched[i].0) in places
  }

  lemma TrackedEntriesNext(places: map<string, nat>, base: string, rows: seq<(string, Dec)>, i: nat)
    requires i < |rows|
    ensures |TrackedEntries(places, base, rows[..i + 1])|
         == |TrackedEntries(places, base, rows[..i])| + if Tracked(places, base, rows[i].0) then 1 else 0
  {
    EntriesGrow(places, base, rows, i);
    assert i !in TrackedEntries(places, base, rows[..i]);
  }

  lemma EntriesGrow(places: map<string, nat>, base: string, rows: seq<(string, Dec)>, i: nat)
    requires i < |rows|
    ensures TrackedEntries(places, base, rows[..i + 1])
         == TrackedEntries(places, base, rows[..i]) + if Tracked(places, base, rows[i].0) then {i as int} else {}
  {
    forall j: int
      ensures j in TrackedEntries(places, base, rows[..i + 1])
          <==> j in TrackedEntries(places, base, rows[..i]) || (j == i && Tracked(places, base, rows[i].0))
    {
      assert 0 <= j <= i ==> rows[..i + 1][j] == rows[j];
      assert 0 <= j < i ==> rows[..i][j] == rows[j];
    }
  }

  lemma LastFetchedNext(rows: seq<(string, Dec)>, i: nat, quote: string)
    requires i < |rows|
    ensures LastFetched(rows[..i + 1], quote) == if Upper(rows[i].0) == quote then Some(i) else LastFetched(rows[..i], quote)
  {
    assert rows[..i + 1][..i] == rows[..i];
  }

  /** An entry that is not tracked changes nothing. */
  lemma RefreshSkips(places: map<string, nat>, base: string, rows: seq<(string, Dec)>, i: nat, before: map<Pair, Dec>, after: map<Pair, Dec>)
    requires i < |rows| && Refreshed(places, base, rows[..i], before, after) && !Tracked(places, base, rows[i].0)
    ensures Refreshed(places, base, rows[..i + 1], before, after)
  {
    forall quote: string
      ensures quote != Upper(rows[i].0) ==> LastFetched(rows[..i + 1], quote) == LastFetched(rows[..i], quote)
    {
      LastFetchedNext(rows, i, quote);
    }
  }

  /** A tracked one sets its pair. */
  lemma RefreshWrites(places: map<string, nat>, base: string, rows: seq<(string, Dec)>, i: nat, before: map<Pair, Dec>, after: map<Pair, Dec>)
    requires i < |rows| && Refreshed(places, base, rows[..i], before, after) && Tracked(places, base, rows[i].0)
    ensures Refreshed(places, base, rows[..i + 1], before, after[(Upper(base), Upper(rows[i].0)) := Dec(InRateUnits(rows[i].1), -10)])
  {
    forall quote: string
      ensures LastFetched(rows[..i + 1], quote) == if Upper(rows[i].0) == quote then Some(i) else LastFetched(rows[..i], quote)
    {
      LastFetchedNext(rows, i, quote);
    }
  }

  class CurrencyService {
    const places: map<string, nat>
    var rates: map<Pair, Dec>

    constructor (book: Book)
      ensures places == book.places && rates == book.rates
    {
      places, rates := book.places, book.rates;
    }

    /** Writes every tracked pair a successful fetch produced, as the column rounds it, and nothing
        else. A failed fetch (None), or a rate too large for its column, raises and leaves every
        stored rate as it was. */
    method RefreshRates(base: string, fetched: Option<seq<(string, Dec)>>) returns (r: Result<nat>)
      modifies this
      ensures fetched.None? ==> r == Err(ExchangeRateUnavailable) && rates == old(rates)
      ensures fetched.Some? && !AllStorable(places, base, fetched.value) ==> r == Err(ColumnOverflow) && rates == old(rates)
      ensures fetched.Some? && AllStorable(places, base, fetched.value) ==>
        r == Ok(|TrackedEntries(places, base, fetched.value)|) && Refreshed(places, base, fetched.value, old(rates), rates)
    {
      if fetched.None? {
        return Err(ExchangeRateUnavailable);
      }
      var rows := fetched.value;
      var pending := rates;
      var updated := 0;
      for i := 0 to |rows|
        invariant rates == old(rates)
        invariant AllStorable(places, base, rows[..i]) && updated == |TrackedEntries(places, base, rows[..i])|
        invariant Refreshed(places, base, rows[..i], rates, pending)
      {
        TrackedEntriesNext(places, base, rows, i);
        StoredRateMeans(rows[i].1);
        var quote := Upper(rows[i].0);
        if quote == Upper(base) {
          RefreshSkips(places, base, rows, i, rates, pending);
          continue;
        }
        if quote !in places {
          RefreshSkips(places, base, rows, i, rates, pending);
          continue;
        }
        var stored := StoredRate(rows[i].1);
        if stored.Err? {
          return Err(ColumnOverflow);
        }
        RefreshWrites(places, base, rows, i, rates, pending);
        pending := pending[(Upper(base), quote) := stored.value];
        updated := updated + 1;
      }
      assert rows[..|rows|] == rows;
      rates := pending;
      return Ok(updated);
    }
  }
}
