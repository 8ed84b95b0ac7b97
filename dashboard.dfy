/**
 * The dashboard's month-over-month change, `calculatePercentageChange`: a rise from nothing
 * counts as 100, and otherwise the relative change is given in whole percent, rounded half up
 * as JavaScript's `Math.round` does.
 */
module Dashboard {
  /** `Math.round(x)`: the nearest integer, halves rounded towards positive infinity. */
  function Round(x: real): (r: int)
    ensures r as real - 0.5 <= x < r as real + 0.5
  {
    (x + 0.5).Floor
  }

  /** The percentage change from `previous` to `current`, on exact reals. */
  function PercentageChange(current: int, previous: int): (r: int)
    ensures previous != 0 ==>
              var exact := (current - previous) as real / previous as real * 100.0;
              r as real - 0.5 <= exact < r as real + 0.5
  {
    if previous == 0 then (if current > 0 then 100 else 0)
    else Round((current - previous) as real / previous as real * 100.0)
  }

  /** From zero, any rise is 100 and no rise (or a negative figure) is 0. */
  lemma FromZero(current: int)
    ensures PercentageChange(current, 0) == (if current > 0 then 100 else 0)
    ensures 0 <= PercentageChange(current, 0) <= 100
  {
  }

  /** With a positive base the rounded change is the integer quotient of the doubled figures. */
  lemma IntegerForm(current: int, previous: int)
    requires previous > 0
    ensures PercentageChange(current, previous) ==
            (200 * (current - previous) + previous) / (2 * previous)
  {
    var n := 200 * (current - previous) + previous;
    var d := 2 * previous;
    var q := n / d;
    var rem := n % d;
    assert n == d * q + rem && 0 <= rem < d;
    var x := (current - previous) as real / previous as real * 100.0 + 0.5;
    assert x == n as real / d as real;
    assert n as real == d as real * q as real + rem as real;
    assert x == q as real + rem as real / d as real;
    FractionBelowOne(rem, d);
  }

  lemma FractionBelowOne(a: int, b: int)
    requires 0 <= a < b
    ensures 0.0 <= a as real / b as real < 1.0
  {
    var y := a as real / b as real;
    assert y * b as real == a as real;
  }

  /** No change is 0%, and doubling is 100%. */
  lemma NoChangeAndDoubling(previous: int)
    requires previous > 0
    ensures PercentageChange(previous, previous) == 0
    ensures PercentageChange(2 * previous, previous) == 100
  {
    assert (previous - previous) as real / previous as real * 100.0 == 0.0;
    assert (2 * previous - previous) as real / previous as real == 1.0;
  }

  /** For a fixed positive base, a larger current figure never gives a smaller change. */
  lemma Monotone(current: int, current': int, previous: int)
    requires previous > 0 && current <= current'
    ensures PercentageChange(current, previous) <= PercentageChange(current', previous)
  {
    var x := (current - previous) as real / previous as real * 100.0;
    var x' := (current' - previous) as real / previous as real * 100.0;
    assert x <= x' by {
      assert (current' - previous) as real - (current - previous) as real >= 0.0;
    }
  }

  /** Multiplying by a positive number keeps a strict order. */
  lemma ScaleStrict(x: real, y: real, k: real)
    requires x < y && k > 0.0
    ensures x * k < y * k
  {
  }

  /** A non-negative figure against a positive base never falls below -100%. */
  lemma NotBelowMinusHundred(current: int, previous: int)
    requires previous > 0 && current >= 0
    ensures PercentageChange(current, previous) >= -100
  {
    var ratio := (current - previous) as real / previous as real;
    assert ratio * previous as real == (current - previous) as real;
    if ratio < -1.0 {
      ScaleStrict(ratio, -1.0, previous as real);
    }
    assert ratio * 100.0 >= -100.0;
  }
}
