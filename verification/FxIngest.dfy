/**
 * app/services/fx/ingest.py: a provider payload becomes rates per USD, rates are upserted per
 * (currency, date), and a date range is backfilled one date at a time.
 */
module FxIngest {
  import opened Prelude
  import opened Decimal
  import opened Converter

  const RATE_SCALE: real := 100000000.0

  /** A Decimal of the payload; NonFinite stands for its NaN and infinities. */
  datatype Quote = Finite(value: real) | NonFinite

  type Payload = map<Currency, Quote>

  /** The normalized table, or the InvalidOperation of a rate that needs more than 28 digits. */
  datatype Normalized = Table(rates: map<Currency, real>) | Invalid

  predicate Positive(q: Quote) { q.Finite? && q.value > 0.0 }

  predicate HasPivot(values: Payload) { USD in values && Positive(values[USD]) }

  function Divide(q: Quote, divisor: real): Quote
    requires divisor != 0.0
  {
    match q
    case NonFinite => NonFinite
    case Finite(v) => Finite(Round28(v / divisor))
  }

  function Candidates(base: Currency, values: Payload): Payload {
    if base == USD then values
    else if !HasPivot(values) then map[]
    else map code | code in values :: Divide(values[code], values[USD].value)
  }

  /** The eight-place form of a positive quote, if it fits the 28 digits of the context. */
  function Storable(q: Quote): Option<real> {
    if Positive(q) then Quantize(q.value, RATE_SCALE) else None
  }

  predicate Blocks(q: Quote) { Positive(q) && Storable(q).None? }

  function Accepted(candidates: Payload): map<Currency, real> {
    map code | code in candidates && Storable(candidates[code]).Some? :: Storable(candidates[code]).value
  }

  function Normalize(base: Currency, values: Payload): Normalized {
    var candidates := Candidates(base, values);
    if exists code | code in candidates :: Blocks(candidates[code]) then Invalid
    else Table(Accepted(candidates)[USD := 1.0])
  }

  /** normalize_to_usd_pivot: the items may come in any order, the outcome is the same. */
  method NormalizeToUsdPivot(base: Currency, values: Payload) returns (r: Normalized)
    ensures r == Normalize(base, values)
  {
    var candidates: Payload;
    if base == USD {
      candidates := values;
    } else if USD !in values || !values[USD].Finite? || values[USD].value <= 0.0 {
      candidates := map[];
    } else {
      candidates := map code | code in values :: Divide(values[code], values[USD].value);
    }
    var normalized: map<Currency, real> := map[];
    var todo := candidates.Keys;
    while todo != {}
      invariant todo <= candidates.Keys
      invariant forall code | code in candidates && code !in todo :: !Blocks(candidates[code])
      invariant forall code ::
                  code in normalized <==> code in candidates && code !in todo && Storable(candidates[code]).Some?
      invariant forall code | code in normalized :: Storable(candidates[code]) == Some(normalized[code])
      decreases todo
    {
      var code :| code in todo;
      todo := todo - {code};
      var q := candidates[code];
      if !q.Finite? || q.value <= 0.0 { continue; }
      var rate := Quantize(q.value, RATE_SCALE);
      if rate.None? { return Invalid; }
      normalized := normalized[code := rate.value];
    }
    assert normalized == Accepted(candidates);
    normalized := normalized[USD := 1.0];
    return Table(normalized);
  }

  // ----- what normalization means -------------------------------------------------------------

  function ScaledQuote(q: Quote, k: real): Quote {
    match q
    case NonFinite => NonFinite
    case Finite(v) => Finite(k * v)
  }

  function Scaled(values: Payload, k: real): Payload {
    map code | code in values :: ScaledQuote(values[code], k)
  }

  lemma RatioOfScaled(v: real, u: real, k: real)
    requires u > 0.0 && k > 0.0
    ensures k * u > 0.0 && (k * v) / (k * u) == v / u
  {
    MulMonotone(k, 0.0, u);
    var q := v / u;
    assert q * u == v;
    assert q * (k * u) == k * (q * u);
    CancelFactor((k * v) / (k * u), q, k * u);
  }

  lemma SignOfScaled(v: real, k: real)
    requires k > 0.0
    ensures k * v > 0.0 <==> v > 0.0
  {
    if v >= 0.0 { MulMonotone(k, 0.0, v); } else { MulMonotone(k, v, 0.0); }
  }

  lemma DivideScaled(q: Quote, u: real, k: real)
    requires u > 0.0 && k > 0.0
    ensures k * u > 0.0
    ensures Divide(ScaledQuote(q, k), k * u) == Divide(q, u)
  {
    MulMonotone(k, 0.0, u);
    match q
    case NonFinite =>
    case Finite(v) =>
      RatioOfScaled(v, u, k);
      assert ScaledQuote(q, k) == Finite(k * v);
  }

  lemma PivotOfScaled(values: Payload, k: real)
    requires k > 0.0
    ensures HasPivot(Scaled(values, k)) <==> HasPivot(values)
  {
    if USD in values && values[USD].Finite? { SignOfScaled(values[USD].value, k); }
  }

  lemma CandidatesOfScaled(base: Currency, values: Payload, k: real)
    requires base != USD && k > 0.0
    ensures Candidates(base, Scaled(values, k)) == Candidates(base, values)
  {
    PivotOfScaled(values, k);
    if HasPivot(values) {
      var u, scaled := values[USD].value, Scaled(values, k);
      assert scaled[USD].value == k * u;
      forall code | code in values
        ensures k * u > 0.0 && Divide(scaled[code], k * u) == Divide(values[code], u)
      {
        DivideScaled(values[code], u, k);
      }
      assert Candidates(base, scaled).Keys == Candidates(base, values).Keys;
    }
  }

  /** Quoting the whole payload in another unit of a non-USD base changes nothing. */
  lemma ScaleInvariance(base: Currency, values: Payload, k: real)
    requires base != USD && k > 0.0
    ensures Normalize(base, Scaled(values, k)) == Normalize(base, values)
  {
    CandidatesOfScaled(base, values, k);
  }

  /** A non-USD base is the USD base applied to the quoted ratios. */
  lemma PivotIsRatios(base: Currency, values: Payload)
    requires base != USD && HasPivot(values)
    ensures Normalize(base, values)
            == Normalize(USD, map code | code in values :: Divide(values[code], values[USD].value))
  {
  }

  /** What the payload says a dollar is worth in this currency: directly, or through its quote of the dollar. */
  ghost function Quoted(base: Currency, values: Payload, code: Currency): Option<real> {
    if code !in values || !Positive(values[code]) then None
    else if base == USD then Some(values[code].value)
    else if USD in values && Positive(values[USD]) then Some(values[code].value / values[USD].value)
    else None
  }

  lemma CandidateOfQuote(base: Currency, values: Payload, code: Currency)
    ensures var candidates, quoted := Candidates(base, values), Quoted(base, values, code);
            && (code in candidates && Positive(candidates[code]) <==> quoted.Some?)
            && (quoted.Some? ==> candidates[code].value == if base == USD then quoted.value else Round28(quoted.value))
  {
    if base != USD && code in values && values[code].Finite? && HasPivot(values) {
      var v, u := values[code].value, values[USD].value;
      Round28Error(v / u);
      if v > 0.0 { DivisionPositive(v, u); }
      if v <= 0.0 { DivisionNotPositive(v, u); }
    }
  }

  lemma DivisionNotPositive(a: real, b: real)
    requires a <= 0.0 && b > 0.0
    ensures a / b <= 0.0
  {
  }

  /**
   * USD is always exactly 1; any other code is present exactly when the payload gives a positive
   * rate for it, and then within half of the eighth place of that, plus the context's rounding of a ratio.
   */
  lemma NormalizedEntries(base: Currency, values: Payload, code: Currency)
    requires Normalize(base, values).Table?
    ensures var t, quoted := Normalize(base, values).rates, Quoted(base, values, code);
            && USD in t && t[USD] == 1.0
            && (code != USD ==>
                 && (code in t <==> quoted.Some?)
                 && (code in t ==> Abs(t[code] - quoted.value)
                                   <= 0.000000005 + if base == USD then 0.0 else HALF_ULP * quoted.value))
  {
    var candidates := Candidates(base, values);
    CandidateOfQuote(base, values, code);
    if code in candidates && Positive(candidates[code]) {
      assert !Blocks(candidates[code]);
      QuantizeError(candidates[code].value, RATE_SCALE);
      Round28Error(Quoted(base, values, code).value);
    }
  }

  /** One currency's quote, good or bad, never shows in another currency's rate. */
  lemma OneQuoteAffectsOnlyItself(base: Currency, values: Payload, bad: Currency, quote: Quote, other: Currency)
    requires bad != USD && other != bad
    requires Normalize(base, values).Table? && Normalize(base, values[bad := quote]).Table?
    ensures var t, t' := Normalize(base, values).rates, Normalize(base, values[bad := quote]).rates;
            && (other in t <==> other in t')
            && (other in t ==> t[other] == t'[other])
  {
  }

  /**
   * The documentation promises that one bad entry never blocks the payload. It does not hold of a
   * positive candidate whose eight-place form needs more than 28 digits: exactly then nothing is
   * produced at all.
   */
  lemma BlockedIff(base: Currency, values: Payload)
    ensures Normalize(base, values).Invalid? <==>
            exists code :: code in Candidates(base, values) && NeedsTooManyDigits(Candidates(base, values)[code])
  {
    var candidates := Candidates(base, values);
    forall code | code in candidates
      ensures Blocks(candidates[code]) <==> NeedsTooManyDigits(candidates[code])
    {
      if Positive(candidates[code]) {
        var x := candidates[code].value * RATE_SCALE;
        HalfEvenIsNearest(x, 0);
        HalfEvenIsNearest(x, COEFFICIENT_LIMIT);
        HalfEvenIsNearest(x, COEFFICIENT_LIMIT - 1);
      }
    }
  }

  /** A quote of at least 10^20 less half of the eighth place. */
  ghost predicate NeedsTooManyDigits(q: Quote) {
    q.Finite? && q.value * 100000000.0 >= P28 - 0.5
  }

  lemma BlockedExample()
    ensures Normalize("USD", map["EUR" := Finite(0.9), "XXX" := Finite(100000000000000000000.0)]) == Invalid
  {
    var values: Payload := map["EUR" := Finite(0.9), "XXX" := Finite(100000000000000000000.0)];
    BlockedIff("USD", values);
    assert NeedsTooManyDigits(values["XXX"]);
  }

  /** A stored rate is positive exactly when its candidate exceeds half of the eighth decimal place. */
  lemma PositiveIff(base: Currency, values: Payload, code: Currency)
    requires Normalize(base, values).Table? && code != USD && code in Normalize(base, values).rates
    ensures Normalize(base, values).rates[code] > 0.0 <==> Candidates(base, values)[code].value > 0.000000005
    ensures Normalize(base, values).rates[code] >= 0.0
  {
    var x := Candidates(base, values)[code].value * RATE_SCALE;
    assert !Blocks(Candidates(base, values)[code]);
    HalfEvenIsNearest(x, 0);
    HalfEvenIsNearest(x, 1);
  }

  // ----- storing rates --------------------------------------------------------------------------

  /** The upsert of one date's rates: ON CONFLICT (currency_code, rate_date) DO UPDATE. */
  function Upserted(fx: FxTable, rates: map<Currency, real>, date: Date, source: string): FxTable {
    fx + map code | code in rates :: (code, date) := FxRate(rates[code], source)
  }

  /** The rates are stored under the date; every other key is as it was. */
  ghost predicate WritesExactly(fx: FxTable, fx': FxTable, rates: map<Currency, real>, date: Date, source: string) {
    && (forall code | code in rates :: (code, date) in fx' && fx'[(code, date)] == FxRate(rates[code], source))
    && (forall code, d | d != date || code !in rates :: AgreeAt(fx, fx', code, d))
  }

  lemma UpsertWritesExactly(fx: FxTable, rates: map<Currency, real>, date: Date, source: string)
    ensures WritesExactly(fx, Upserted(fx, rates, date, source), rates, date, source)
  {
    forall code | code in rates
      ensures var fx' := Upserted(fx, rates, date, source);
              (code, date) in fx' && fx'[(code, date)] == FxRate(rates[code], source)
    {
      UpsertedAt(fx, rates, date, source, (code, date));
    }
    forall code, d | d != date || code !in rates
      ensures AgreeAt(fx, Upserted(fx, rates, date, source), code, d)
    {
      UpsertedAt(fx, rates, date, source, (code, d));
    }
  }

  lemma UpsertNothing(fx: FxTable, rates: map<Currency, real>, date: Date, source: string)
    requires |rates| == 0
    ensures Upserted(fx, rates, date, source) == fx
  {
    assert rates == map[];
  }

  datatype IngestResult = IngestResult(rateDate: Date, currenciesWritten: nat, skipped: set<Currency>)

  function Ingested(fx: FxTable, base: Currency, source: string, values: Payload,
                    date: Date): Option<(FxTable, IngestResult)>
  {
    match Normalize(base, values)
    case Invalid => None
    case Table(rates) =>
      Some((Upserted(fx, rates, date, source), IngestResult(date, |rates|, values.Keys - rates.Keys)))
  }

  /** The payload's codes besides the dollar that it gives a positive rate for. */
  ghost function QuotedCodes(base: Currency, values: Payload): set<Currency> {
    set code | code in values && code != USD && Quoted(base, values, code).Some?
  }

  /** The date, how many codes got a rate, the dollar among them, and which of the payload's did not. */
  ghost predicate Reports(r: IngestResult, base: Currency, values: Payload, date: Date) {
    && r.rateDate == date && r.currenciesWritten == |QuotedCodes(base, values)| + 1
    && r.skipped == values.Keys - QuotedCodes(base, values) - {USD}
  }

  lemma NormalizedCodes(base: Currency, values: Payload)
    requires Normalize(base, values).Table?
    ensures Normalize(base, values).rates.Keys == QuotedCodes(base, values) + {USD}
  {
    forall code
      ensures code in Normalize(base, values).rates.Keys <==> code in QuotedCodes(base, values) + {USD}
    {
      NormalizedEntries(base, values, code);
    }
  }

  lemma IngestReports(fx: FxTable, base: Currency, source: string, values: Payload, date: Date)
    requires Ingested(fx, base, source, values, date).Some?
    ensures Reports(Ingested(fx, base, source, values, date).value.1, base, values, date)
  {
    NormalizedCodes(base, values);
    KeysAreCounted(Normalize(base, values).rates, QuotedCodes(base, values));
  }

  lemma KeysAreCounted(rates: map<Currency, real>, codes: set<Currency>)
    requires rates.Keys == codes + {USD} && USD !in codes
    ensures |rates| == |codes| + 1
  {
    assert |rates| == |rates.Keys|;
  }

  /** The provider's answer per date; None is a fetch that failed. */
  type Provider = Date -> Option<Payload>

  /** What a backfill leaves behind: the table, the results, and whether it ran to the end. */
  datatype Backfill = Backfill(fx: FxTable, results: seq<IngestResult>, completed: bool)

  /** One date of a backfill: no data, an ingest that raised, or rates stored. */
  datatype DayOutcome = NoData | Raised | Stored(fx: FxTable, result: IngestResult)

  type Day = (FxTable, Date) -> DayOutcome

  function DayOf(base: Currency, source: string, fetch: Provider): Day {
    (fx, date) =>
      match fetch(date)
      case None => NoData
      case Some(values) =>
        match Ingested(fx, base, source, values, date)
        case None => Raised
        case Some(step) => Stored(step.0, step.1)
  }

  /** One more date after a backfill, unless it already stopped. */
  function NextDay(before: Backfill, day: Day, date: Date): Backfill {
    if !before.completed then before
    else match day(before.fx, date)
      case NoData => before
      case Raised => before.(completed := false)
      case Stored(fx, result) => Backfill(fx, before.results + [result], true)
  }

  /** The dates start..end in order, skipping those without data, stopping at one that raises. */
  function Backfilled(fx: FxTable, day: Day, start: Date, end: Date): Backfill
    decreases end - start
  {
    if start > end then Backfill(fx, [], true)
    else NextDay(Backfilled(fx, day, start, end - 1), day, end)
  }

  /** The fx_rates table and the operations that write it. */
  class RateStore {
    var fx: FxTable

    constructor ()
      ensures fx == map[]
    {
      fx := map[];
    }

    method UpsertRates(rates: map<Currency, real>, date: Date, source: string) returns (written: nat)
      modifies this
      ensures fx == Upserted(old(fx), rates, date, source) && written == |rates|
      ensures WritesExactly(old(fx), fx, rates, date, source)
    {
      UpsertWritesExactly(fx, rates, date, source);
      if |rates| == 0 {
        UpsertNothing(fx, rates, date, source);
        return 0;
      }
      fx := Upserted(fx, rates, date, source);
      return |rates|;
    }

    method IngestSnapshot(base: Currency, source: string, values: Payload, date: Date) returns (r: Option<IngestResult>)
      modifies this
      ensures match Ingested(old(fx), base, source, values, date)
              case None => r == None && fx == old(fx)
              case Some(step) => r == Some(step.1) && fx == step.0
      ensures r.Some? ==> Reports(r.value, base, values, date)
    {
      if Ingested(fx, base, source, values, date).Some? { IngestReports(fx, base, source, values, date); }
      var normalized := NormalizeToUsdPivot(base, values);
      if normalized.Invalid? { return None; }
      var skipped := values.Keys - normalized.rates.Keys;
      var written := UpsertRates(normalized.rates, date, source);
      return Some(IngestResult(date, written, skipped));
    }

    method BackfillRange(base: Currency, source: string, fetch: Provider, start: Date, end: Date)
      returns (results: seq<IngestResult>, completed: bool)
      modifies this
      ensures Backfill(fx, results, completed) == Backfilled(old(fx), DayOf(base, source, fetch), start, end)
    {
      ghost var day := DayOf(base, source, fetch);
      results, completed := [], true;
      var current := start;
      while current <= end
        invariant start <= current <= Max(start, end + 1)
        invariant Backfilled(old(fx), day, start, current - 1) == Backfill(fx, results, true)
        decreases end - current
      {
        var values := fetch(current);
        if values.None? {
          current := current + 1;
          continue;
        }
        var r := IngestSnapshot(base, source, values.value, current);
        if r.None? {
          BackfillStops(old(fx), day, start, current, end);
          return results, false;
        }
        results := results + [r.value];
        current := current + 1;
      }
      assert if start <= end then current - 1 == end else current == start;
    }
  }

  // ----- what a backfill means ---------------------------------------------------------------------

  /** A backfill that stopped at some date stays as it was. */
  lemma {:induction false} BackfillStops(fx: FxTable, day: Day, start: Date, stop: Date, end: Date)
    requires stop <= end && !Backfilled(fx, day, start, stop).completed
    ensures Backfilled(fx, day, start, end) == Backfilled(fx, day, start, stop)
    decreases end - stop
  {
    if stop < end { BackfillStops(fx, day, start, stop, end - 1); }
  }

  /** A backfill followed, if it completed, by that of a further range. */
  ghost function Continued(first: Backfill, day: Day, start: Date, end: Date): Backfill {
    if !first.completed then first
    else
      var second := Backfilled(first.fx, day, start, end);
      second.(results := first.results + second.results)
  }

  /** Backfilling [a, b] and then [b + 1, c] is backfilling [a, c]. */
  lemma {:induction false} BackfillComposes(fx: FxTable, day: Day, a: Date, b: Date, c: Date)
    requires a <= b + 1 && b <= c
    ensures Continued(Backfilled(fx, day, a, b), day, b + 1, c) == Backfilled(fx, day, a, c)
    decreases c - b
  {
    var first := Backfilled(fx, day, a, b);
    if b == c {
      assert first.results + [] == first.results;
    } else {
      BackfillComposes(fx, day, a, b, c - 1);
      if first.completed {
        var second := Backfilled(first.fx, day, b + 1, c - 1);
        if second.completed && day(second.fx, c).Stored? {
          var result := day(second.fx, c).result;
          assert first.results + (second.results + [result]) == (first.results + second.results) + [result];
        }
      }
    }
  }

  /** The rate a completed backfill writes at a key, if it writes one. */
  ghost function WrittenAt(base: Currency, fetch: Provider, start: Date, end: Date, key: (Currency, Date)): Option<real>
  {
    if !(start <= key.1 <= end) || fetch(key.1).None? || Normalize(base, fetch(key.1).value).Invalid? then None
    else
      var rates := Normalize(base, fetch(key.1).value).rates;
      if key.0 in rates then Some(rates[key.0]) else None
  }

  ghost predicate HoldsOrKeeps(before: FxTable, after: FxTable, key: (Currency, Date), written: Option<real>,
                               source: string)
  {
    if written.Some? then key in after && after[key] == FxRate(written.value, source)
    else (key in after <==> key in before) && (key in before ==> after[key] == before[key])
  }

  /** The payload of this date blocks the normalization. */
  ghost predicate DateBlocked(base: Currency, fetch: Provider, d: Date) {
    fetch(d).Some? && Normalize(base, fetch(d).value).Invalid?
  }

  lemma RaisedIff(fx: FxTable, base: Currency, source: string, fetch: Provider, d: Date)
    ensures DayOf(base, source, fetch)(fx, d).Raised? <==> DateBlocked(base, fetch, d)
  {
  }

  /** The last date a backfill gets through: the end, or the one before the first blocked date. */
  ghost function LastReached(base: Currency, fetch: Provider, start: Date, end: Date): (last: Date)
    ensures last <= end && (start <= end + 1 ==> start - 1 <= last)
    ensures forall d | start <= d <= last :: !DateBlocked(base, fetch, d)
    ensures last < end ==> DateBlocked(base, fetch, last + 1)
    decreases end - start
  {
    if start > end then end
    else
      var before := LastReached(base, fetch, start, end - 1);
      if before == end - 1 && !DateBlocked(base, fetch, end) then end else before
  }

  lemma {:induction false} ReachedIff(fx: FxTable, base: Currency, source: string, fetch: Provider, start: Date,
                                      end: Date)
    ensures Backfilled(fx, DayOf(base, source, fetch), start, end).completed
            <==> LastReached(base, fetch, start, end) == end
    decreases end - start
  {
    if start <= end {
      ReachedIff(fx, base, source, fetch, start, end - 1);
      RaisedIff(Backfilled(fx, DayOf(base, source, fetch), start, end - 1).fx, base, source, fetch, end);
    }
  }

  /**
   * A backfill, completed or not, stores exactly the normalized rates of the fetched dates it gets
   * through and keeps every other key.
   */
  lemma {:induction false} BackfillContents(fx: FxTable, base: Currency, source: string, fetch: Provider, start: Date,
                                            end: Date, key: (Currency, Date))
    ensures HoldsOrKeeps(fx, Backfilled(fx, DayOf(base, source, fetch), start, end).fx, key,
                         WrittenAt(base, fetch, start, LastReached(base, fetch, start, end), key), source)
    decreases end - start
  {
    if start <= end {
      BackfillContents(fx, base, source, fetch, start, end - 1, key);
      var before := Backfilled(fx, DayOf(base, source, fetch), start, end - 1);
      ReachedIff(fx, base, source, fetch, start, end - 1);
      RaisedIff(before.fx, base, source, fetch, end);
      if before.completed && !DateBlocked(base, fetch, end) {
        DayContents(before.fx, base, source, fetch, end, key);
      }
    }
  }

  /** The results so far are those of the dates with data, one each, in ascending order. */
  ghost predicate ResultsOf(results: seq<IngestResult>, base: Currency, fetch: Provider, start: Date, last: Date) {
    && (forall k | 0 <= k < |results| ::
          && start <= results[k].rateDate <= last && fetch(results[k].rateDate).Some?
          && Reports(results[k], base, fetch(results[k].rateDate).value, results[k].rateDate))
    && (forall k, l | 0 <= k < l < |results| :: results[k].rateDate < results[l].rateDate)
    && (forall d | start <= d <= last && fetch(d).Some? :: exists k :: 0 <= k < |results| && results[k].rateDate == d)
  }

  lemma NextResult(results: seq<IngestResult>, base: Currency, fetch: Provider, start: Date, d: Date, r: IngestResult)
    requires start <= d && ResultsOf(results, base, fetch, start, d - 1)
    requires fetch(d).Some? && Reports(r, base, fetch(d).value, d)
    ensures ResultsOf(results + [r], base, fetch, start, d)
  {
    var longer := results + [r];
    assert longer[|results|].rateDate == d;
    forall e | start <= e <= d && fetch(e).Some?
      ensures exists k :: 0 <= k < |longer| && longer[k].rateDate == e
    {
      if e < d {
        var k :| 0 <= k < |results| && results[k].rateDate == e;
        assert longer[k].rateDate == e;
      }
    }
  }

  lemma DayIsStored(before: Backfill, base: Currency, source: string, fetch: Provider, d: Date)
    requires before.completed
    ensures var day, after := DayOf(base, source, fetch), NextDay(before, DayOf(base, source, fetch), d);
            if fetch(d).Some? && !DateBlocked(base, fetch, d) then
              && day(before.fx, d).Stored? && after.results == before.results + [day(before.fx, d).result]
              && Reports(day(before.fx, d).result, base, fetch(d).value, d)
            else after.results == before.results
  {
    if fetch(d).Some? && !DateBlocked(base, fetch, d) { IngestReports(before.fx, base, source, fetch(d).value, d); }
  }

  lemma NoResult(results: seq<IngestResult>, base: Currency, fetch: Provider, start: Date, d: Date)
    requires ResultsOf(results, base, fetch, start, d - 1) && fetch(d).None?
    ensures ResultsOf(results, base, fetch, start, d)
  {
  }

  lemma DayReports(before: Backfill, base: Currency, source: string, fetch: Provider, start: Date, d: Date)
    requires start <= d && ResultsOf(before.results, base, fetch, start, d - 1) && before.completed
    ensures ResultsOf(NextDay(before, DayOf(base, source, fetch), d).results, base, fetch, start,
                      if DateBlocked(base, fetch, d) then d - 1 else d)
  {
    DayIsStored(before, base, source, fetch, d);
    if fetch(d).None? {
      NoResult(before.results, base, fetch, start, d);
    } else if !DateBlocked(base, fetch, d) {
      NextResult(before.results, base, fetch, start, d, DayOf(base, source, fetch)(before.fx, d).result);
    }
  }

  /** A backfill reports each date with data that it gets through, once and in order. */
  lemma {:induction false} BackfillReports(fx: FxTable, base: Currency, source: string, fetch: Provider, start: Date,
                                           end: Date)
    ensures ResultsOf(Backfilled(fx, DayOf(base, source, fetch), start, end).results, base, fetch, start,
                      LastReached(base, fetch, start, end))
    decreases end - start
  {
    if start <= end {
      BackfillReports(fx, base, source, fetch, start, end - 1);
      ReachedIff(fx, base, source, fetch, start, end - 1);
      var before := Backfilled(fx, DayOf(base, source, fetch), start, end - 1);
      if before.completed { DayReports(before, base, source, fetch, start, end); }
    }
  }

  lemma DayContents(fx: FxTable, base: Currency, source: string, fetch: Provider, d: Date, key: (Currency, Date))
    requires !DayOf(base, source, fetch)(fx, d).Raised?
    ensures var day := DayOf(base, source, fetch)(fx, d);
            HoldsOrKeeps(fx, if day.Stored? then day.fx else fx, key, WrittenAt(base, fetch, d, d, key), source)
  {
    if fetch(d).Some? { UpsertedAt(fx, Normalize(base, fetch(d).value).rates, d, source, key); }
  }

  lemma UpsertedAt(fx: FxTable, rates: map<Currency, real>, date: Date, source: string, key: (Currency, Date))
    ensures HoldsOrKeeps(fx, Upserted(fx, rates, date, source), key,
                         if key.1 == date && key.0 in rates then Some(rates[key.0]) else None, source)
  {
    assert (key.0, key.1) == key;
  }

  /** No stored key ever disappears, whether or not the backfill completes. */
  lemma {:induction false} BackfillKeepsKeys(fx: FxTable, base: Currency, source: string, fetch: Provider, start: Date,
                                             end: Date)
    ensures fx.Keys <= Backfilled(fx, DayOf(base, source, fetch), start, end).fx.Keys
    decreases end - start
  {
    if start <= end {
      BackfillKeepsKeys(fx, base, source, fetch, start, end - 1);
      DayKeepsKeys(Backfilled(fx, DayOf(base, source, fetch), start, end - 1).fx, base, source, fetch, end);
    }
  }

  lemma DayKeepsKeys(fx: FxTable, base: Currency, source: string, fetch: Provider, d: Date)
    ensures var day := DayOf(base, source, fetch)(fx, d);
            day.Stored? ==> fx.Keys <= day.fx.Keys
  {
    if fetch(d).Some? {
      match Normalize(base, fetch(d).value)
      case Invalid =>
      case Table(rates) => assert fx.Keys <= Upserted(fx, rates, d, source).Keys;
    }
  }

  /** A backfill completes exactly when no date of its range has a payload that blocks the normalization. */
  lemma CompletesIff(fx: FxTable, base: Currency, source: string, fetch: Provider, start: Date, end: Date)
    ensures Backfilled(fx, DayOf(base, source, fetch), start, end).completed
            <==> (forall d | start <= d <= end :: !DateBlocked(base, fetch, d))
  {
    ReachedIff(fx, base, source, fetch, start, end);
  }

  /**
   * Running a backfill again, with the provider answering as before, changes no rate, whether it
   * had completed or stopped at a date that blocks.
   */
  lemma BackfillIdempotent(fx: FxTable, base: Currency, source: string, fetch: Provider, start: Date, end: Date)
    ensures var once := Backfilled(fx, DayOf(base, source, fetch), start, end).fx;
            Backfilled(once, DayOf(base, source, fetch), start, end).fx == once
  {
    var once := Backfilled(fx, DayOf(base, source, fetch), start, end).fx;
    var twice := Backfilled(once, DayOf(base, source, fetch), start, end).fx;
    forall key: (Currency, Date)
      ensures key in twice <==> key in once
      ensures key in once ==> twice[key] == once[key]
    {
      BackfillContents(fx, base, source, fetch, start, end, key);
      BackfillContents(once, base, source, fetch, start, end, key);
    }
  }

  // ----- positive rates keep the converter away from its division by zero ---------------------------

  ghost predicate AllPositive(fx: FxTable) { forall key | key in fx :: fx[key].ratePerUsd > 0.0 }

  /** Some positive candidate of the payload is at most half of the eighth decimal place. */
  ghost predicate TinyRate(base: Currency, values: Payload) {
    var candidates := Candidates(base, values);
    exists code :: code in candidates && Positive(candidates[code]) && candidates[code].value <= 0.000000005
  }

  ghost predicate DateHasTinyRate(base: Currency, fetch: Provider, d: Date) {
    fetch(d).Some? && TinyRate(base, fetch(d).value)
  }

  /** Without tiny candidates every rate a backfill stores is positive. */
  lemma {:induction false} BackfillKeepsPositive(fx: FxTable, base: Currency, source: string, fetch: Provider,
                                                 start: Date, end: Date)
    requires AllPositive(fx)
    requires forall d | start <= d <= end :: !DateHasTinyRate(base, fetch, d)
    ensures AllPositive(Backfilled(fx, DayOf(base, source, fetch), start, end).fx)
    decreases end - start
  {
    if start <= end {
      BackfillKeepsPositive(fx, base, source, fetch, start, end - 1);
      DayKeepsPositive(Backfilled(fx, DayOf(base, source, fetch), start, end - 1).fx, base, source, fetch, end);
    }
  }

  lemma DayKeepsPositive(fx: FxTable, base: Currency, source: string, fetch: Provider, d: Date)
    requires AllPositive(fx) && !DateHasTinyRate(base, fetch, d)
    ensures var day := DayOf(base, source, fetch)(fx, d);
            day.Stored? ==> AllPositive(day.fx)
  {
    if fetch(d).Some? && Normalize(base, fetch(d).value).Table? {
      PayloadKeepsPositive(fx, base, source, fetch(d).value, d);
    }
  }

  lemma PayloadKeepsPositive(fx: FxTable, base: Currency, source: string, values: Payload, date: Date)
    requires AllPositive(fx) && !TinyRate(base, values) && Normalize(base, values).Table?
    ensures AllPositive(Upserted(fx, Normalize(base, values).rates, date, source))
  {
    var rates := Normalize(base, values).rates;
    forall code | code in rates
      ensures rates[code] > 0.0
    {
      if code != USD { PositiveIff(base, values, code); }
    }
  }

  /** With positive rates the only thing a conversion can raise is a result of too many digits. */
  lemma PositiveRatesNeverDivideByZero(fx: FxTable, amount: real, from: Currency, to: Currency, asOf: Date)
    requires AllPositive(fx)
    ensures Convert(fx, amount, from, to, asOf).Raises? ==>
            exists rateFrom, rateTo ::
              rateFrom > 0.0 && Rated(fx, from, to, asOf, rateFrom, rateTo) && Exceeds(amount, rateTo / rateFrom)
  {
    RaisesIff(fx, amount, from, to, asOf);
    if Convert(fx, amount, from, to, asOf).Raises? {
      var rateFrom, rateTo :| Rated(fx, from, to, asOf, rateFrom, rateTo)
        && (rateFrom == 0.0 || Exceeds(amount, rateTo / rateFrom));
      assert rateFrom > 0.0 && Rated(fx, from, to, asOf, rateFrom, rateTo);
    }
  }

  /** A positive rate of 4e-9 is stored as zero, and every conversion from that currency raises from then on. */
  lemma TinyRateExample(amount: real, asOf: Date)
    requires asOf >= 0
    ensures var values: Payload := map["XXX" := Finite(0.000000004)];
            && Normalize(USD, values).Table? && "XXX" in Normalize(USD, values).rates
            && Normalize(USD, values).rates["XXX"] == 0.0
            && Convert(Upserted(map[], Normalize(USD, values).rates, 0, ""), amount, "XXX", USD, asOf).Raises?
  {
    var values: Payload := map["XXX" := Finite(0.000000004)];
    HalfEvenIsNearest(0.4, 0);
    assert HalfEven(0.4) == 0;
    assert Storable(values["XXX"]) == Some(0.0);
    var rates := Normalize(USD, values).rates;
    var fx := Upserted(map[], rates, 0, "");
    UpsertedAt(map[], rates, 0, "", ("XXX", 0));
    forall e | ("XXX", e) in fx
      ensures e == 0
    {
      UpsertedAt(map[], rates, 0, "", ("XXX", e));
    }
    assert LatestOn(fx, "XXX", asOf, 0);
    ConvertIsCross(fx, amount, "XXX", USD, asOf, 0.0, 1.0);
  }
}
