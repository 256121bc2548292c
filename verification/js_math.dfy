/**
  The slice of JavaScript's number semantics the recorder relies on:
  the IEEE special values (as a datatype around exact rationals), truncation,
  the `%` operator (whose sign follows the dividend, unlike Dafny's Euclidean
  `%`), and the byte type of a `Uint8Array`. `Math.floor` needs no definition
  here: it is Dafny's `.Floor` on reals and `/` on integers.
 */
module JsMath {

  /** A JavaScript number: a finite value, or one of the three non-finite values. */
  datatype Number = Finite(value: real) | NaN | PosInfinity | NegInfinity {
    /** JavaScript's global `isFinite`. */
    predicate IsFinite() {
      Finite?
    }
  }

  /** An element of a `Uint8Array`. */
  type Uint8 = b: nat | b < 256

  /** `Math.trunc` on a finite value: round toward zero. */
  function Trunc(x: real): (r: int)
    ensures x >= 0.0 ==> r == x.Floor
    ensures (if x >= 0.0 then x - 1.0 < r as real <= x else x <= r as real < x + 1.0)
  {
    if x >= 0.0 then x.Floor else -((-x).Floor)
  }

  /** A fraction in `[0, 1)` of a positive quantity stays inside `[0, b)`. */
  lemma ScaleUnit(b: real, f: real)
    ensures b > 0.0 && 0.0 <= f < 1.0 ==> 0.0 <= b * f < b
  {
  }

  /**
    JavaScript `a % b` on finite values with a positive divisor: `a - b * trunc(a / b)`.
    The result has the sign of the dividend and lies strictly within one divisor of 0.
   */
  function RemReal(a: real, b: real): (r: real)
    requires b > 0.0
    ensures a >= 0.0 ==> 0.0 <= r < b
    ensures a < 0.0 ==> -b < r <= 0.0
    ensures ((a - r) / b).Floor as real == (a - r) / b
  {
    RemRealBounds(a, b);
    var q := Trunc(a / b);
    WholeQuotient(a, b, q, a - b * (q as real));
    a - b * (q as real)
  }

  /** Taking `q` whole divisors off `a` leaves `r`, and `a - r` is then a whole number of divisors. */
  lemma WholeQuotient(a: real, b: real, q: int, r: real)
    requires b > 0.0 && r == a - b * (q as real)
    ensures (a - r) / b == q as real
    ensures ((a - r) / b).Floor as real == (a - r) / b
  {
  }

  lemma RemRealBounds(a: real, b: real)
    requires b > 0.0
    ensures a >= 0.0 ==> 0.0 <= a - b * (Trunc(a / b) as real) < b
    ensures a < 0.0 ==> -b < a - b * (Trunc(a / b) as real) <= 0.0
  {
    QuotientSign(a, b);
    if a >= 0.0 {
      RemBelow(a, b, Trunc(a / b) as real);
    } else {
      RemAbove(a, b, Trunc(a / b) as real);
    }
  }

  lemma QuotientSign(a: real, b: real)
    requires b > 0.0
    ensures a >= 0.0 <==> a / b >= 0.0
  {
    assert b * (a / b) == a;
  }

  /** `a - b * t` for a `t` at most one below `a / b`. */
  lemma RemBelow(a: real, b: real, t: real)
    requires b > 0.0 && a / b - 1.0 < t <= a / b
    ensures 0.0 <= a - b * t < b
  {
    var f := a / b - t;
    assert 0.0 <= f < 1.0;
    ScaleUnit(b, f);
    assert 0.0 <= b * f < b;
    assert b * f == b * (a / b) - b * t;
    assert b * (a / b) == a;
    assert a - b * t == b * f;
  }

  /** `a - b * t` for a `t` at most one above `a / b`. */
  lemma RemAbove(a: real, b: real, t: real)
    requires b > 0.0 && a / b <= t < a / b + 1.0
    ensures -b < a - b * t <= 0.0
  {
    var f := t - a / b;
    assert 0.0 <= f < 1.0;
    ScaleUnit(b, f);
    assert 0.0 <= b * f < b;
    assert b * f == b * t - b * (a / b);
    assert b * (a / b) == a;
    assert a - b * t == -(b * f);
  }

  /** `Math.trunc(a / b)` for integers and a positive divisor. */
  function TruncQuotient(a: int, b: int): int
    requires b > 0
  {
    if a >= 0 then a / b else -((-a) / b)
  }

  /**
    JavaScript `a % b` on integer values with a positive divisor: the `r` with
    `a == trunc(a / b) * b + r` that has the sign of the dividend. For a
    non-negative dividend it is Dafny's Euclidean remainder.
   */
  function RemInt(a: int, b: int): (r: int)
    requires b > 0
    ensures a == TruncQuotient(a, b) * b + r
    ensures a >= 0 ==> r == a % b
    ensures a < 0 ==> -b < r <= 0
  {
    if a >= 0 then a % b else -((-a) % b)
  }

  /** `Math.min(a, b)` where `b` is known to be finite. */
  function Min(a: Number, b: real): (r: Number)
    ensures a.NaN? <==> r.NaN?
    ensures a.Finite? ==> r == Finite(if a.value <= b then a.value else b)
    ensures a.PosInfinity? ==> r == Finite(b)
  {
    match a
    case Finite(x) => Finite(if x <= b then x else b)
    case NaN => NaN
    case PosInfinity => Finite(b)
    case NegInfinity => NegInfinity
  }
}
