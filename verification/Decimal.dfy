/**
 * Python's decimal arithmetic, as far as the FX code relies on it: the default context
 * (28 significant digits, round half to even) and `quantize` to a fixed number of places.
 */
module Decimal {
  import opened Prelude

  const P27: real := 1000000000000000000000000000.0
  const P28: real := 10000000000000000000000000000.0
  /** The smallest coefficient that no longer fits the 28 digits of the context. */
  const COEFFICIENT_LIMIT: int := 10000000000000000000000000000
  /** Half a unit in the 28th digit, relative to the value it is a digit of. */
  const HALF_ULP: real := 0.0000000000000000000000000005

  function Abs(x: real): real { if x < 0.0 then -x else x }

  /** Rounds to the nearest integer, ties to the even one. */
  function HalfEven(x: real): int {
    var below := x.Floor;
    var rest := x - below as real;
    if rest < 0.5 || (rest == 0.5 && below % 2 == 0) then below else below + 1
  }

  /** No integer is nearer than the one chosen, and of two equally near ones the even one is chosen. */
  lemma HalfEvenIsNearest(x: real, n: int)
    ensures Abs(HalfEven(x) as real - x) <= 0.5
    ensures Abs(HalfEven(x) as real - x) <= Abs(n as real - x)
    ensures n != HalfEven(x) && Abs(HalfEven(x) as real - x) == Abs(n as real - x) ==> HalfEven(x) % 2 == 0
  {
    var below := x.Floor;
    assert below as real <= x < below as real + 1.0;
    if n <= below {
      assert n as real <= below as real;
    } else {
      assert n as real >= below as real + 1.0;
    }
  }

  /** How far x still is from the band [10^27, 10^28). */
  function Distance(x: real): nat
    requires x > 0.0
  {
    if x >= P28 then x.Floor
    else if x < P27 then DivisionPositive(P27, x); (P27 / x).Floor
    else 0
  }

  lemma DivisionPositive(a: real, b: real)
    requires a > 0.0 && b > 0.0
    ensures a / b > 0.0
  {
  }

  lemma DistanceShrinks(x: real)
    requires x > 0.0
    ensures x >= P28 ==> Distance(x / 10.0) < Distance(x)
    ensures x < P27 ==> Distance(x * 10.0) < Distance(x)
  {
    if x < P27 {
      var q := P27 / x;
      assert q * x == P27;
      assert q > 1.0 by {
        if q <= 1.0 { MulMonotone(x, q, 1.0); }
      }
      assert P27 / (x * 10.0) == q / 10.0 by {
        assert (q / 10.0) * (x * 10.0) == q * x;
      }
    }
  }

  lemma MulMonotone(k: real, a: real, b: real)
    requires 0.0 <= k && a <= b
    ensures k * a <= k * b
    ensures 0.0 < k && a < b ==> k * a < k * b
  {
  }

  /** A positive value rounded to 28 significant digits. */
  function RoundPositive(x: real): real
    requires x > 0.0
    decreases Distance(x)
  {
    DistanceShrinks(x);
    if x >= P28 then 10.0 * RoundPositive(x / 10.0)
    else if x < P27 then RoundPositive(x * 10.0) / 10.0
    else HalfEven(x) as real
  }

  /** The result of any operation in the default context, from its exact value. */
  function Round28(x: real): real {
    if x == 0.0 then 0.0 else if x < 0.0 then -RoundPositive(-x) else RoundPositive(x)
  }

  /** Moves the decimal point n places: to the right, or to the left when down is set. */
  function Shift(y: real, n: nat, down: bool): real
    decreases n
  {
    if n == 0 then y else Shift(if down then y / 10.0 else y * 10.0, n - 1, down)
  }

  /** A whole number of at most 28 digits, or 10^28 itself. */
  ghost predicate IsCoefficient(y: real) {
    y.Floor as real == y && y <= P28
  }

  /** Up to its sign, y is a 28-digit coefficient times a power of ten. */
  ghost predicate Has28Digits(y: real) {
    exists n: nat, down: bool :: IsCoefficient(Shift(Abs(y), n, down))
  }

  /** The rounded value keeps the sign and is off by at most half a unit in the last digit. */
  lemma {:induction false} RoundPositiveError(x: real)
    requires x > 0.0
    ensures Abs(RoundPositive(x) - x) <= HALF_ULP * x
    ensures RoundPositive(x) > 0.0
    decreases Distance(x)
  {
    DistanceShrinks(x);
    if x >= P28 {
      RoundPositiveError(x / 10.0);
    } else if x < P27 {
      RoundPositiveError(x * 10.0);
    } else {
      HalfEvenIsNearest(x, 0);
    }
  }

  lemma Round28Error(x: real)
    ensures Abs(Round28(x) - x) <= HALF_ULP * Abs(x)
    ensures x > 0.0 <==> Round28(x) > 0.0
    ensures x == 0.0 <==> Round28(x) == 0.0
  {
    if x > 0.0 { RoundPositiveError(x); }
    if x < 0.0 { RoundPositiveError(-x); }
  }

  lemma {:induction false} RoundPositiveShape(x: real) returns (n: nat)
    requires x > 0.0
    ensures IsCoefficient(Shift(RoundPositive(x), n, x >= P28))
    decreases Distance(x)
  {
    DistanceShrinks(x);
    if x >= P28 {
      n := RoundPositiveShape(x / 10.0);
      if x / 10.0 < P28 { n := 0; HalfEvenInBand(x / 10.0); }
      n := n + 1;
    } else if x < P27 {
      n := RoundPositiveShape(x * 10.0);
      n := n + 1;
    } else {
      HalfEvenInBand(x);
      n := 0;
    }
  }

  lemma HalfEvenInBand(x: real)
    requires P27 <= x < P28
    ensures RoundPositive(x) == HalfEven(x) as real && IsCoefficient(HalfEven(x) as real)
  {
    HalfEvenIsNearest(x, COEFFICIENT_LIMIT);
    HalfEvenIsNearest(x, 0);
  }

  /** Whatever the operands, the result of an operation has at most 28 significant digits. */
  lemma Round28Shape(x: real)
    ensures Has28Digits(Round28(x))
  {
    if x == 0.0 {
      assert IsCoefficient(Shift(Abs(Round28(x)), 0, false));
    } else {
      var n := RoundPositiveShape(Abs(x));
      RoundPositiveError(Abs(x));
      assert Abs(Round28(x)) == RoundPositive(Abs(x));
      assert IsCoefficient(Shift(Abs(Round28(x)), n, Abs(x) >= P28));
    }
  }

  /**
   * `quantize` to 1/scale. It signals InvalidOperation, here None, when the rounded coefficient
   * needs more than 28 digits.
   */
  function Quantize(x: real, scale: real): Option<real>
    requires scale > 0.0
  {
    var coefficient := HalfEven(x * scale);
    if -COEFFICIENT_LIMIT < coefficient < COEFFICIENT_LIMIT then Some(coefficient as real / scale) else None
  }

  /** Quantizing to four or eight places is off by at most half a place, and is defined well within 28 digits. */
  lemma QuantizeError(x: real, scale: real)
    requires scale == 10000.0 || scale == 100000000.0
    ensures Quantize(x, scale).Some? ==> Abs(Quantize(x, scale).value - x) <= 0.5 / scale
    ensures Abs(x) < 1000000000000000.0 ==> Quantize(x, scale).Some?
  {
    HalfEvenIsNearest(x * scale, 0);
    if scale == 10000.0 {
      assert Abs(x) < 1000000000000000.0 ==> Abs(x * 10000.0) < P28 - 1.0;
    } else {
      assert Abs(x) < 1000000000000000.0 ==> Abs(x * 100000000.0) < P28 - 1.0;
    }
  }
}
