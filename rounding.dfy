/**
 * Python's `round(x, 2)`: the exact value rounded to the nearest hundredth,
 * ties going to the even hundredth.
 */
module Rounding {

  /** `x` is a whole number of hundredths. */
  predicate IsCents(x: real)
  {
    (x * 100.0).Floor as real == x * 100.0
  }

  /** Round to two decimal places, half to even. */
  function Round2(x: real): (r: real)
    ensures IsCents(r)
    ensures x - 0.005 <= r <= x + 0.005
  {
    var y := x * 100.0;
    var f := y.Floor;
    var frac := y - f as real;
    var n := if frac < 0.5 then f else if frac > 0.5 then f + 1 else if f % 2 == 0 then f else f + 1;
    assert (n as real / 100.0) * 100.0 == n as real;
    n as real / 100.0
  }

  /** Rounding never reverses the order of two amounts. */
  lemma Round2Monotone(x: real, y: real)
    requires x <= y
    ensures Round2(x) <= Round2(y)
  {
    var fx, fy := (x * 100.0).Floor, (y * 100.0).Floor;
    assert fx <= fy;
    if fx == fy {
      assert x * 100.0 - fx as real <= y * 100.0 - fy as real;
    }
  }

  /** An amount already in whole hundredths is left as it is. */
  lemma Round2OfCents(x: real)
    requires IsCents(x)
    ensures Round2(x) == x
  {
  }

  /** `x` lies exactly halfway between two whole hundredths. */
  predicate IsHalfCent(x: real)
  {
    x * 100.0 - (x * 100.0).Floor as real == 0.5
  }

  /**
   * An amount exactly halfway between two cents goes to the neighbour with
   * an even number of cents, as Python's `round` does.
   */
  lemma Round2HalfEven(x: real)
    requires IsHalfCent(x)
    ensures Round2(x) == x - 0.005 || Round2(x) == x + 0.005
    ensures (Round2(x) * 100.0).Floor % 2 == 0
  {
    var f := (x * 100.0).Floor;
    var n := if f % 2 == 0 then f else f + 1;
    assert Round2(x) == n as real / 100.0;
    assert Round2(x) * 100.0 == n as real;
  }

  /** Three ties: 0.125 goes down to 0.12, 0.135 up to 0.14, -0.125 up to -0.12. */
  lemma Round2TieExamples()
    ensures Round2(0.125) == 0.12
    ensures Round2(0.135) == 0.14
    ensures Round2(-0.125) == -0.12
  {
  }
}
