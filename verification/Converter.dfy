/**
 * app/services/currency/converter.py: conversion through the USD pivot, with the latest rate
 * known on or before a date. A date is a day number.
 */
module Converter {
  import opened Prelude
  import opened Decimal

  type Currency = string
  type Date = int

  datatype FxRate = FxRate(ratePerUsd: real, source: string)

  /** The fx_rates table: one row per (currency_code, rate_date). */
  type FxTable = map<(Currency, Date), FxRate>

  const USD: Currency := "USD"
  const AMOUNT_SCALE: real := 10000.0

  /** Missing is the source's None; Raises is decimal's DivisionByZero or InvalidOperation. */
  datatype Conversion = Missing | Value(amount: real) | Raises

  function RateDates(fx: FxTable, code: Currency, asOf: Date): set<Date> {
    set key | key in fx.Keys && key.0 == code && key.1 <= asOf :: key.1
  }

  function RatePerUsd(fx: FxTable, code: Currency, asOf: Date): Option<real> {
    if code == USD then Some(1.0)
    else
      var dates := RateDates(fx, code, asOf);
      if dates == {} then None else Some(fx[(code, MaxOf(dates))].ratePerUsd)
  }

  function Convert(fx: FxTable, amount: real, from: Currency, to: Currency, asOf: Date): Conversion {
    if from == to then Value(amount)
    else match RatePerUsd(fx, from, asOf)
      case None => Missing
      case Some(rateFrom) =>
        match RatePerUsd(fx, to, asOf)
        case None => Missing
        case Some(rateTo) => Cross(amount, rateFrom, rateTo)
  }

  /** amount * (rate_to / rate_from) in the default context, quantized to four places. */
  function Cross(amount: real, rateFrom: real, rateTo: real): Conversion {
    if rateFrom == 0.0 then Raises else Apply(amount, rateTo / rateFrom)
  }

  function Apply(amount: real, ratio: real): Conversion { Multiply(amount, Round28(ratio)) }

  function Multiply(amount: real, ratio: real): Conversion {
    match Quantize(Round28(amount * ratio), AMOUNT_SCALE)
    case None => Raises
    case Some(v) => Value(v)
  }

  // ----- the as-of lookup ------------------------------------------------------------------

  /** No rate of the currency is dated on or before asOf. The dollar needs none. */
  ghost predicate Unrated(fx: FxTable, code: Currency, asOf: Date) {
    code != USD && forall e | (code, e) in fx :: asOf < e
  }

  /** The latest date of the currency's rates that is not after asOf. */
  ghost predicate LatestOn(fx: FxTable, code: Currency, asOf: Date, d: Date) {
    (code, d) in fx && d <= asOf && forall e | (code, e) in fx && e <= asOf :: e <= d
  }

  /** The rate of that date, and one for the dollar. */
  ghost predicate IsLatestRate(fx: FxTable, code: Currency, asOf: Date, rate: real) {
    if code == USD then rate == 1.0
    else exists d :: LatestOn(fx, code, asOf, d) && fx[(code, d)].ratePerUsd == rate
  }

  lemma DatesOf(fx: FxTable, code: Currency, asOf: Date, e: Date)
    ensures e in RateDates(fx, code, asOf) <==> (code, e) in fx && e <= asOf
  {
    if (code, e) in fx && e <= asOf { assert (code, e) in fx.Keys && (code, e).1 == e; }
  }

  /** The lookup finds the rate of the latest stored date that is not after asOf, and none when there is none. */
  lemma RateIsLatestOnOrBefore(fx: FxTable, code: Currency, asOf: Date)
    ensures RatePerUsd(fx, code, asOf).None? <==> Unrated(fx, code, asOf)
    ensures forall rate :: RatePerUsd(fx, code, asOf) == Some(rate) <==> IsLatestRate(fx, code, asOf, rate)
  {
    var dates := RateDates(fx, code, asOf);
    forall e
      ensures e in dates <==> (code, e) in fx && e <= asOf
    {
      DatesOf(fx, code, asOf, e);
    }
    if code != USD && dates != {} { assert LatestOn(fx, code, asOf, MaxOf(dates)); }
  }

  lemma LatestIsFound(fx: FxTable, code: Currency, asOf: Date, d: Date)
    requires code != USD && LatestOn(fx, code, asOf, d)
    ensures RatePerUsd(fx, code, asOf) == Some(fx[(code, d)].ratePerUsd)
  {
    RateIsLatestOnOrBefore(fx, code, asOf);
    assert IsLatestRate(fx, code, asOf, fx[(code, d)].ratePerUsd);
  }

  /**
   * A conversion is not known exactly when the currencies differ and one of them has no rate by
   * then; between equal ones the amount stands as it is.
   */
  lemma MissingIff(fx: FxTable, amount: real, from: Currency, to: Currency, asOf: Date)
    ensures Convert(fx, amount, from, to, asOf).Missing?
            <==> from != to && (Unrated(fx, from, asOf) || Unrated(fx, to, asOf))
    ensures from == to ==> Convert(fx, amount, from, to, asOf) == Value(amount)
  {
    RateIsLatestOnOrBefore(fx, from, asOf);
    RateIsLatestOnOrBefore(fx, to, asOf);
  }

  ghost predicate AgreeAt(fx: FxTable, fx': FxTable, code: Currency, e: Date) {
    ((code, e) in fx <==> (code, e) in fx') && ((code, e) in fx ==> fx[(code, e)] == fx'[(code, e)])
  }

  /** Some rate of this currency is dated after d but not after asOf, so d is out of the lookup's sight. */
  ghost predicate Shadowed(fx: FxTable, code: Currency, d: Date, asOf: Date) {
    code == USD || asOf < d || exists later: Date :: d < later <= asOf && (code, later) in fx
  }

  /** This currency's rates are the same at all dates, or at all but d, which asOf does not reach. */
  ghost predicate Unaffected(fx: FxTable, fx': FxTable, code: Currency, d: Date, asOf: Date) {
    || (forall e :: AgreeAt(fx, fx', code, e))
    || ((forall e | e != d :: AgreeAt(fx, fx', code, e)) && Shadowed(fx, code, d, asOf))
  }

  lemma LookupAgrees(fx: FxTable, fx': FxTable, code: Currency, asOf: Date)
    requires forall e | e <= asOf :: AgreeAt(fx, fx', code, e)
    ensures RatePerUsd(fx, code, asOf) == RatePerUsd(fx', code, asOf)
  {
    forall e
      ensures e in RateDates(fx, code, asOf) <==> e in RateDates(fx', code, asOf)
    {
      DatesOf(fx, code, asOf, e);
      DatesOf(fx', code, asOf, e);
      if e <= asOf { assert AgreeAt(fx, fx', code, e); }
    }
    assert RateDates(fx, code, asOf) == RateDates(fx', code, asOf);
    var dates := RateDates(fx, code, asOf);
    if code != USD && dates != {} { assert AgreeAt(fx, fx', code, MaxOf(dates)); }
  }

  lemma LookupShadowed(fx: FxTable, fx': FxTable, code: Currency, d: Date, later: Date, asOf: Date)
    requires forall e | e != d :: AgreeAt(fx, fx', code, e)
    requires code != USD && d < later <= asOf && (code, later) in fx
    ensures RatePerUsd(fx, code, asOf) == RatePerUsd(fx', code, asOf)
  {
    var dates, dates' := RateDates(fx, code, asOf), RateDates(fx', code, asOf);
    assert AgreeAt(fx, fx', code, later);
    DatesOf(fx, code, asOf, later);
    DatesOf(fx', code, asOf, later);
    var top, top' := MaxOf(dates), MaxOf(dates');
    assert AgreeAt(fx, fx', code, top) && AgreeAt(fx, fx', code, top');
    DatesOf(fx, code, asOf, top');
    DatesOf(fx', code, asOf, top);
    DatesOf(fx, code, asOf, top);
    DatesOf(fx', code, asOf, top');
  }

  lemma LookupIsLocal(fx: FxTable, fx': FxTable, code: Currency, d: Date, asOf: Date)
    requires Unaffected(fx, fx', code, d, asOf)
    ensures RatePerUsd(fx, code, asOf) == RatePerUsd(fx', code, asOf)
  {
    if code != USD {
      if later: Date :| (forall e | e != d :: AgreeAt(fx, fx', code, e)) && d < later <= asOf && (code, later) in fx {
        LookupShadowed(fx, fx', code, d, later, asOf);
      } else {
        LookupAgrees(fx, fx', code, asOf);
      }
    }
  }

  /**
   * Whatever is written, replaced or removed at date d, a conversion can change only through a
   * currency that was touched at d, and only for an asOf from d up to that currency's next date.
   */
  lemma ConversionIsLocal(fx: FxTable, fx': FxTable, amount: real, from: Currency, to: Currency, d: Date, asOf: Date)
    requires Unaffected(fx, fx', from, d, asOf) && Unaffected(fx, fx', to, d, asOf)
    ensures Convert(fx, amount, from, to, asOf) == Convert(fx', amount, from, to, asOf)
  {
    LookupIsLocal(fx, fx', from, d, asOf);
    LookupIsLocal(fx, fx', to, d, asOf);
  }

  /** One rate written at (code, d) changes no conversion outside the dates from d up to the code's next one. */
  lemma OneWriteIsLocal(fx: FxTable, code: Currency, d: Date, rate: FxRate, amount: real, from: Currency, to: Currency,
                        asOf: Date)
    requires Shadowed(fx, code, d, asOf)
    ensures Convert(fx[(code, d) := rate], amount, from, to, asOf) == Convert(fx, amount, from, to, asOf)
  {
    OneWriteUnaffects(fx, code, d, rate, from, asOf);
    OneWriteUnaffects(fx, code, d, rate, to, asOf);
    ConversionIsLocal(fx, fx[(code, d) := rate], amount, from, to, d, asOf);
  }

  lemma OtherKeyAgrees(fx: FxTable, code: Currency, d: Date, rate: FxRate, other: Currency, e: Date)
    requires e != d || other != code
    ensures AgreeAt(fx, fx[(code, d) := rate], other, e)
  {
    assert (other, e) != (code, d);
  }

  lemma OneWriteUnaffects(fx: FxTable, code: Currency, d: Date, rate: FxRate, other: Currency, asOf: Date)
    requires Shadowed(fx, code, d, asOf)
    ensures Unaffected(fx, fx[(code, d) := rate], other, d, asOf)
  {
    var fx' := fx[(code, d) := rate];
    if other == code {
      forall e | e != d ensures AgreeAt(fx, fx', other, e) { OtherKeyAgrees(fx, code, d, rate, other, e); }
    } else {
      forall e ensures AgreeAt(fx, fx', other, e) { OtherKeyAgrees(fx, code, d, rate, other, e); }
    }
  }

  /** And inside those dates it is exactly what the lookup finds. */
  lemma LookupAfterWrite(fx: FxTable, code: Currency, d: Date, rate: FxRate, asOf: Date)
    ensures RatePerUsd(fx[(code, d) := rate], code, asOf)
            == (if Shadowed(fx, code, d, asOf) then RatePerUsd(fx, code, asOf) else Some(rate.ratePerUsd))
  {
    var fx' := fx[(code, d) := rate];
    if Shadowed(fx, code, d, asOf) {
      OneWriteUnaffects(fx, code, d, rate, code, asOf);
      LookupIsLocal(fx, fx', code, d, asOf);
    } else {
      forall e | (code, e) in fx' && e <= asOf
        ensures e <= d
      {
        assert e == d || (code, e) in fx;
      }
      LatestIsFound(fx', code, asOf, d);
    }
  }

  // ----- error bounds ----------------------------------------------------------------------

  const HALF_PLACE: real := 0.00005
  const RELATIVE: real := 0.000000000000000000000000002

  /** v is within half of the last stored place, plus a relative 2e-27, of the exact value. */
  ghost predicate Near(v: real, exact: real) {
    Abs(v - exact) <= HALF_PLACE + RELATIVE * Abs(exact)
  }

  lemma AbsOfProduct(a: real, b: real)
    ensures Abs(a * b) == Abs(a) * Abs(b)
  {
    if a >= 0.0 && b >= 0.0 { assert a * b >= 0.0; }
    else if a >= 0.0 { assert a * (-b) >= 0.0; }
    else if b >= 0.0 { assert (-a) * b >= 0.0; }
    else { assert (-a) * (-b) >= 0.0; }
  }

  /** Multiplying by k multiplies an absolute error and a relative one alike. */
  lemma ScaledError(k: real, approx: real, x: real, absolute: real, relative: real)
    requires Abs(approx - x) <= absolute + relative * Abs(x)
    ensures Abs(k * approx - k * x) <= absolute * Abs(k) + relative * Abs(k * x)
  {
    AbsOfProduct(k, approx - x);
    AbsOfProduct(k, x);
    assert k * (approx - x) == k * approx - k * x;
    MulMonotone(Abs(k), Abs(approx - x), absolute + relative * Abs(x));
    Distributes(Abs(k), absolute, relative, Abs(x));
  }

  lemma Distributes(k: real, a: real, r: real, x: real)
    ensures k * (a + r * x) == a * k + r * (k * x)
  {
  }

  /** The two roundings of the 28-digit context cost at most a relative 2e-27 together. */
  lemma TwoRoundings(amount: real, exactRatio: real, ratio: real)
    requires Abs(ratio - exactRatio) <= HALF_ULP * Abs(exactRatio)
    ensures Abs(Round28(amount * ratio) - amount * exactRatio) <= RELATIVE * Abs(amount * exactRatio)
  {
    Round28Error(amount * ratio);
    RelativeScaled(amount, ratio, exactRatio);
    RelativeErrorsAdd(Round28(amount * ratio), amount * ratio, amount * exactRatio);
  }

  lemma RelativeScaled(k: real, approx: real, x: real)
    requires Abs(approx - x) <= HALF_ULP * Abs(x)
    ensures Abs(k * approx - k * x) <= HALF_ULP * Abs(k * x)
  {
    ScaledError(k, approx, x, 0.0, HALF_ULP);
  }

  lemma RelativeErrorsAdd(result: real, middle: real, exact: real)
    requires Abs(middle - exact) <= HALF_ULP * Abs(exact)
    requires Abs(result - middle) <= HALF_ULP * Abs(middle)
    ensures Abs(result - exact) <= RELATIVE * Abs(exact)
  {
    assert Abs(middle) <= 2.0 * Abs(exact);
  }

  /** The currencies differ, and these are their latest rates by then. */
  ghost predicate Rated(fx: FxTable, from: Currency, to: Currency, asOf: Date, rateFrom: real, rateTo: real) {
    from != to && IsLatestRate(fx, from, asOf, rateFrom) && IsLatestRate(fx, to, asOf, rateTo)
  }

  /** amount * rate_to / rate_from in exact arithmetic. */
  function Exact(amount: real, rateFrom: real, rateTo: real): real
    requires rateFrom != 0.0
  {
    amount * (rateTo / rateFrom)
  }

  lemma MultiplyError(amount: real, exactRatio: real, ratio: real)
    requires Abs(ratio - exactRatio) <= HALF_ULP * Abs(exactRatio)
    ensures var c := Multiply(amount, ratio);
            && (c.Value? ==> Near(c.amount, amount * exactRatio))
            && (Abs(amount * exactRatio) < 100000000000000.0 ==> c.Value?)
  {
    TwoRoundings(amount, exactRatio, ratio);
    QuantizeNear(Round28(amount * ratio), amount * exactRatio);
  }

  lemma ApplyError(amount: real, ratio: real)
    ensures var c := Apply(amount, ratio);
            && (c.Value? ==> Near(c.amount, amount * ratio))
            && (Abs(amount * ratio) < 100000000000000.0 ==> c.Value?)
  {
    Round28Error(ratio);
    MultiplyError(amount, ratio, Round28(ratio));
  }

  lemma QuantizeNear(x: real, exact: real)
    requires Abs(x - exact) <= RELATIVE * Abs(exact)
    ensures var q := Quantize(x, AMOUNT_SCALE);
            && (q.Some? ==> Near(q.value, exact))
            && (Abs(exact) < 100000000000000.0 ==> q.Some?)
  {
    QuantizeError(x, AMOUNT_SCALE);
    assert RELATIVE * Abs(exact) <= Abs(exact);
    if Abs(exact) < 100000000000000.0 {
      assert Abs(x) < 1000000000000000.0;
    }
  }

  lemma ConvertIsCross(fx: FxTable, amount: real, from: Currency, to: Currency, asOf: Date, rateFrom: real,
                       rateTo: real)
    requires Rated(fx, from, to, asOf, rateFrom, rateTo)
    ensures Convert(fx, amount, from, to, asOf) == Cross(amount, rateFrom, rateTo)
  {
    RateIsLatestOnOrBefore(fx, from, asOf);
    RateIsLatestOnOrBefore(fx, to, asOf);
  }

  lemma CrossErrorAt(amount: real, ratio: real, c: Conversion, exact: real)
    requires c == Apply(amount, ratio) && exact == amount * ratio
    ensures WithinBound(c, exact)
  {
    ApplyError(amount, ratio);
  }

  lemma CrossError(amount: real, rateFrom: real, rateTo: real)
    requires rateFrom > 0.0
    ensures WithinBound(Cross(amount, rateFrom, rateTo), Exact(amount, rateFrom, rateTo))
  {
    CrossErrorAt(amount, rateTo / rateFrom, Cross(amount, rateFrom, rateTo), Exact(amount, rateFrom, rateTo));
  }

  /** The conversion is defined within range, and off by half a place plus a relative 2e-27. */
  ghost predicate WithinBound(c: Conversion, exact: real) {
    && !c.Missing?
    && (c.Value? ==> Near(c.amount, exact))
    && (Abs(exact) < 100000000000000.0 ==> c.Value?)
  }

  lemma ConversionErrorBound(fx: FxTable, amount: real, from: Currency, to: Currency, asOf: Date, rateFrom: real,
                             rateTo: real)
    requires Rated(fx, from, to, asOf, rateFrom, rateTo) && rateFrom > 0.0
    ensures WithinBound(Convert(fx, amount, from, to, asOf), Exact(amount, rateFrom, rateTo))
  {
    ConvertIsCross(fx, amount, from, to, asOf, rateFrom, rateTo);
    CrossError(amount, rateFrom, rateTo);
  }

  /** The exact value to 28 significant digits. */
  ghost predicate InContext(y: real, exact: real) { Has28Digits(y) && Abs(y - exact) <= HALF_ULP * Abs(exact) }

  /** n ten-thousandths are nearest to x, and n is even if so are n - 1 or n + 1. */
  ghost predicate NearestFourPlaces(n: int, x: real) {
    var error := Abs(n as real - x * 10000.0);
    error <= 0.5 && (error == 0.5 ==> n % 2 == 0)
  }

  ghost predicate ToFourPlaces(v: real, x: real) { exists n :: NearestFourPlaces(n, x) && v == n as real / 10000.0 }

  ghost predicate RoundedThrice(v: real, amount: real, exactRatio: real, ratio: real, product: real) {
    InContext(ratio, exactRatio) && InContext(product, amount * ratio) && ToFourPlaces(v, product)
  }

  /** The ratio of the rates and its product with the amount to the context's digits, then that to four places. */
  ghost predicate Rounded(v: real, amount: real, exactRatio: real) {
    exists ratio, product :: RoundedThrice(v, amount, exactRatio, ratio, product)
  }

  lemma RoundedBy(v: real, amount: real, exactRatio: real, ratio: real, product: real)
    requires InContext(ratio, exactRatio) && InContext(product, amount * ratio) && ToFourPlaces(v, product)
    ensures Rounded(v, amount, exactRatio)
  {
    assert RoundedThrice(v, amount, exactRatio, ratio, product);
  }

  lemma ProductIsRounded(amount: real, exactRatio: real, ratio: real)
    requires InContext(ratio, exactRatio) && Multiply(amount, ratio).Value?
    ensures Rounded(Multiply(amount, ratio).amount, amount, exactRatio)
  {
    Round28InContext(amount * ratio);
    QuantizedToFour(Round28(amount * ratio), Multiply(amount, ratio).amount);
    RoundedBy(Multiply(amount, ratio).amount, amount, exactRatio, ratio, Round28(amount * ratio));
  }

  lemma ApplyIsRounded(amount: real, exactRatio: real)
    requires Apply(amount, exactRatio).Value?
    ensures Rounded(Apply(amount, exactRatio).amount, amount, exactRatio)
  {
    Round28InContext(exactRatio);
    ProductIsRounded(amount, exactRatio, Round28(exactRatio));
  }

  lemma Round28InContext(x: real)
    ensures InContext(Round28(x), x)
  {
    Round28Error(x);
    Round28Shape(x);
  }

  lemma HalfEvenIsFourPlaces(x: real)
    ensures NearestFourPlaces(HalfEven(x * 10000.0), x)
  {
    var n := HalfEven(x * 10000.0);
    HalfEvenIsNearest(x * 10000.0, n + 1);
    HalfEvenIsNearest(x * 10000.0, n - 1);
  }

  lemma QuantizedToFour(x: real, v: real)
    requires Quantize(x, AMOUNT_SCALE) == Some(v)
    ensures ToFourPlaces(v, x)
  {
    HalfEvenIsFourPlaces(x);
    assert v == HalfEven(x * 10000.0) as real / 10000.0;
  }

  /** A conversion is rounded just so: twice by the context, and then to four places. */
  lemma ValueIsRounded(fx: FxTable, amount: real, from: Currency, to: Currency, asOf: Date, rateFrom: real,
                       rateTo: real)
    requires Rated(fx, from, to, asOf, rateFrom, rateTo) && rateFrom != 0.0
    requires Convert(fx, amount, from, to, asOf).Value?
    ensures Rounded(Convert(fx, amount, from, to, asOf).amount, amount, rateTo / rateFrom)
  {
    ConvertIsCross(fx, amount, from, to, asOf, rateFrom, rateTo);
    ApplyIsRounded(amount, rateTo / rateFrom);
  }

  /** 10^24 less half of the fourth place. */
  const TOO_LARGE: real := 999999999999999999999999.99995

  /**
   * The context keeps four places of a product up to that bound, so the product fits the 28 digits
   * of the quantized result exactly when it is below it.
   */
  lemma ProductFitsIff(p: real)
    requires p > 0.0
    ensures RoundPositive(p) > 0.0
    ensures HalfEven(RoundPositive(p) * AMOUNT_SCALE) >= COEFFICIENT_LIMIT <==> p >= TOO_LARGE
  {
    RoundPositiveError(p);
    if p < P23 {
      HalfEvenIsNearest(RoundPositive(p) * AMOUNT_SCALE, 0);
    } else if p < 10.0 * P23 {
      ProductInBand(p);
    } else {
      ProductAboveBand(p);
    }
  }

  const P23: real := 100000000000000000000000.0

  lemma ProductInBand(p: real)
    requires P23 <= p < 10.0 * P23
    ensures HalfEven(RoundPositive(p) * AMOUNT_SCALE) >= COEFFICIENT_LIMIT <==> p >= TOO_LARGE
  {
    var x := p * 10000.0;
    assert RoundPositive(p) == RoundPositive(p * 10.0) / 10.0;
    assert RoundPositive(p * 10.0) == RoundPositive(p * 100.0) / 10.0;
    assert RoundPositive(p * 100.0) == RoundPositive(p * 1000.0) / 10.0;
    assert RoundPositive(p * 1000.0) == RoundPositive(x) / 10.0;
    assert RoundPositive(x) == HalfEven(x) as real;
    assert RoundPositive(p) * AMOUNT_SCALE == HalfEven(x) as real;
    HalfEvenIsNearest(HalfEven(x) as real, HalfEven(x));
    HalfEvenIsNearest(x, COEFFICIENT_LIMIT);
    HalfEvenIsNearest(x, COEFFICIENT_LIMIT - 1);
  }

  lemma ProductAboveBand(p: real)
    requires p >= 10.0 * P23
    ensures HalfEven(RoundPositive(p) * AMOUNT_SCALE) >= COEFFICIENT_LIMIT
  {
    RoundPositiveError(p);
    if p < 100.0 * P23 {
      var x := p * 1000.0;
      assert RoundPositive(p) == RoundPositive(p * 10.0) / 10.0;
      assert RoundPositive(p * 10.0) == RoundPositive(p * 100.0) / 10.0;
      assert RoundPositive(p * 100.0) == RoundPositive(x) / 10.0;
      assert RoundPositive(x) == HalfEven(x) as real;
      HalfEvenIsNearest(x, COEFFICIENT_LIMIT / 10);
    }
    HalfEvenIsNearest(RoundPositive(p) * AMOUNT_SCALE, COEFFICIENT_LIMIT);
  }

  ghost predicate TooLarge(amount: real, ratio: real) { Abs(amount * ratio) >= TOO_LARGE }

  ghost predicate Exceeds(amount: real, ratio: real) { TooLarge(amount, Round28(ratio)) }

  lemma MultiplyRaisesIff(amount: real, ratio: real)
    ensures Multiply(amount, ratio).Raises? <==> TooLarge(amount, ratio)
  {
    var p := amount * ratio;
    if p > 0.0 {
      ProductFitsIff(p);
      HalfEvenIsNearest(RoundPositive(p) * AMOUNT_SCALE, 0);
    } else if p < 0.0 {
      ProductFitsIff(-p);
      NegatedHalfEven(RoundPositive(-p) * AMOUNT_SCALE);
      assert Round28(p) * AMOUNT_SCALE == -(RoundPositive(-p) * AMOUNT_SCALE);
      HalfEvenIsNearest(RoundPositive(-p) * AMOUNT_SCALE, 0);
    }
  }

  /** Rounding half to even is symmetric. */
  lemma NegatedHalfEven(x: real)
    ensures HalfEven(-x) == -HalfEven(x)
  {
    HalfEvenIsNearest(x, -HalfEven(-x));
    HalfEvenIsNearest(-x, -HalfEven(x));
  }

  /**
   * The converter's documentation says it never raises. It raises exactly when the currencies
   * differ, both rates are known, and the source rate is zero or the amount times the rates' ratio,
   * as the context rounds that ratio, reaches 10^24 less half of the fourth place.
   */
  lemma RaisesIff(fx: FxTable, amount: real, from: Currency, to: Currency, asOf: Date)
    ensures Convert(fx, amount, from, to, asOf).Raises? <==>
            exists rateFrom, rateTo ::
              && Rated(fx, from, to, asOf, rateFrom, rateTo)
              && (rateFrom == 0.0 || Exceeds(amount, rateTo / rateFrom))
  {
    var rf, rt := RatePerUsd(fx, from, asOf), RatePerUsd(fx, to, asOf);
    RateIsLatestOnOrBefore(fx, from, asOf);
    RateIsLatestOnOrBefore(fx, to, asOf);
    if from != to && rf.Some? && rt.Some? {
      ConvertIsCross(fx, amount, from, to, asOf, rf.value, rt.value);
      assert Rated(fx, from, to, asOf, rf.value, rt.value);
      if rf.value != 0.0 { MultiplyRaisesIff(amount, Round28(rt.value / rf.value)); }
    }
  }

  /** So an amount of 2 * 10^24 raises even at par. */
  lemma RaisesExample()
    ensures Convert(map[("XXX", 0) := FxRate(1.0, "")], 2000000000000000000000000.0, "XXX", USD, 0).Raises?
  {
    var fx: FxTable, amount := map[("XXX", 0) := FxRate(1.0, "")], 2000000000000000000000000.0;
    assert LatestOn(fx, "XXX", 0, 0);
    assert Rated(fx, "XXX", USD, 0, 1.0, 1.0);
    ConvertIsCross(fx, amount, "XXX", USD, 0, 1.0, 1.0);
    assert 1.0 / 1.0 == 1.0;
    Round28Error(1.0);
    MultiplyRaisesIff(amount, Round28(1.0));
  }

  // ----- round trip and triangulation ------------------------------------------------------

  /** The error of a first conversion is carried through the factor s of a second one. */
  lemma ErrorsCompose(first: real, exactFirst: real, second: real, s: real)
    requires s > 0.0 && Near(first, exactFirst) && Near(second, s * first)
    ensures Abs(second - s * exactFirst)
            <= HALF_PLACE * (1.0 + s) * (1.0 + RELATIVE) + 3.0 * RELATIVE * Abs(s * exactFirst)
  {
    ScaledError(s, first, exactFirst, HALF_PLACE, RELATIVE);
    ErrorsAdd(second, s * first, s * exactFirst, s);
  }

  lemma ErrorsAdd(second: real, middle: real, exact: real, s: real)
    requires s > 0.0
    requires Abs(middle - exact) <= HALF_PLACE * s + RELATIVE * Abs(exact)
    requires Abs(second - middle) <= HALF_PLACE + RELATIVE * Abs(middle)
    ensures Abs(second - exact) <= HALF_PLACE * (1.0 + s) * (1.0 + RELATIVE) + 3.0 * RELATIVE * Abs(exact)
  {
    assert Abs(middle) <= Abs(exact) + HALF_PLACE * s + RELATIVE * Abs(exact);
  }

  /** (b / a) * (d / b) is d / a. */
  lemma RatiosCancel(a: real, b: real, d: real)
    requires a > 0.0 && b > 0.0
    ensures (d / b) * (b / a) == d / a
  {
    var x, y, z := b / a, d / b, d / a;
    assert x * a == b && y * b == d && z * a == d;
    assert (y * x) * a == y * (x * a);
    CancelFactor(y * x, z, a);
  }

  lemma CancelFactor(x: real, y: real, a: real)
    requires a > 0.0 && x * a == y * a
    ensures x == y
  {
    if x > y { MulMonotone(a, y, x); assert false; }
    if x < y { MulMonotone(a, x, y); assert false; }
  }

  /** The bound on a conversion through a pivot, against the exact direct conversion. */
  ghost predicate NearViaPivot(v: real, exact: real, s: real) {
    Abs(v - exact) <= HALF_PLACE * (1.0 + s) * (1.0 + RELATIVE) + 3.0 * RELATIVE * Abs(exact)
  }

  lemma ViaPivotError(first: real, second: real, amount: real, rateA: real, rateB: real, rateC: real)
    requires rateA > 0.0 && rateB > 0.0 && rateC > 0.0
    requires Near(first, Exact(amount, rateA, rateB)) && Near(second, Exact(first, rateB, rateC))
    ensures NearViaPivot(second, Exact(amount, rateA, rateC), rateC / rateB)
  {
    DivisionPositive(rateC, rateB);
    RatiosCancel(rateA, rateB, rateC);
    FactorsCompose(first, second, amount, rateB / rateA, rateC / rateB, rateC / rateA,
                   Exact(amount, rateA, rateB), Exact(first, rateB, rateC), Exact(amount, rateA, rateC));
  }

  lemma FactorsCompose(first: real, second: real, amount: real, r: real, s: real, t: real, toB: real, fromB: real,
                       toC: real)
    requires s > 0.0 && s * r == t
    requires toB == amount * r && fromB == first * s && toC == amount * t
    requires Near(first, toB) && Near(second, fromB)
    ensures NearViaPivot(second, toC, s)
  {
    ScaledExact(amount, r, s, t, toB, toC);
    Commutes(first, s);
    ViaFactor(first, toB, second, s, fromB, toC);
  }

  lemma ScaledExact(amount: real, r: real, s: real, t: real, toB: real, toC: real)
    requires s * r == t && toB == amount * r && toC == amount * t
    ensures toC == s * toB
  {
    assert s * (amount * r) == amount * (s * r);
  }

  lemma ViaFactor(first: real, toB: real, second: real, s: real, fromB: real, toC: real)
    requires s > 0.0 && fromB == s * first && toC == s * toB
    requires Near(first, toB) && Near(second, fromB)
    ensures NearViaPivot(second, toC, s)
  {
    ErrorsCompose(first, toB, second, s);
  }

  lemma SameRate(amount: real, rate: real)
    requires rate != 0.0
    ensures Exact(amount, rate, rate) == amount
  {
    assert rate / rate == 1.0;
  }

  lemma Commutes(a: real, b: real)
    ensures a * b == b * a
  {
  }

  /**
   * Converting there and back on one date returns within 0.00005 * (1 + rate_A / rate_B) of the
   * start, up to the relative error of the decimal context.
   */
  lemma RoundTrip(fx: FxTable, amount: real, a: Currency, b: Currency, asOf: Date, rateA: real, rateB: real)
    requires Rated(fx, a, b, asOf, rateA, rateB) && rateA > 0.0 && rateB > 0.0
    requires Convert(fx, amount, a, b, asOf).Value?
    ensures var back := Convert(fx, Convert(fx, amount, a, b, asOf).amount, b, a, asOf);
            back.Value? ==> NearViaPivot(back.amount, amount, rateA / rateB)
  {
    var there := Convert(fx, amount, a, b, asOf).amount;
    ConversionErrorBound(fx, amount, a, b, asOf, rateA, rateB);
    ConversionErrorBound(fx, there, b, a, asOf, rateB, rateA);
    var back := Convert(fx, there, b, a, asOf);
    if back.Value? {
      ViaPivotError(there, back.amount, amount, rateA, rateB, rateA);
      SameRate(amount, rateA);
    }
  }

  /** Going through a third currency stays within 0.00005 * (2 + rate_C / rate_B) of the direct conversion. */
  lemma Triangulation(fx: FxTable, amount: real, a: Currency, b: Currency, c: Currency, asOf: Date, rateA: real,
                      rateB: real, rateC: real)
    requires Rated(fx, a, b, asOf, rateA, rateB) && Rated(fx, b, c, asOf, rateB, rateC) && a != c
    requires rateA > 0.0 && rateB > 0.0 && rateC > 0.0
    requires Convert(fx, amount, a, b, asOf).Value?
    ensures var direct := Convert(fx, amount, a, c, asOf);
            var via := Convert(fx, Convert(fx, amount, a, b, asOf).amount, b, c, asOf);
            direct.Value? && via.Value? ==>
              Abs(via.amount - direct.amount)
              <= HALF_PLACE * (2.0 + rateC / rateB) * (1.0 + RELATIVE)
                 + 4.0 * RELATIVE * Abs(Exact(amount, rateA, rateC))
  {
    var first := Convert(fx, amount, a, b, asOf).amount;
    ConversionErrorBound(fx, amount, a, b, asOf, rateA, rateB);
    ConversionErrorBound(fx, first, b, c, asOf, rateB, rateC);
    ConversionErrorBound(fx, amount, a, c, asOf, rateA, rateC);
    var direct, via := Convert(fx, amount, a, c, asOf), Convert(fx, first, b, c, asOf);
    if direct.Value? && via.Value? {
      ViaPivotError(first, via.amount, amount, rateA, rateB, rateC);
    }
  }
}
