/** Exact integer stand-ins for the floating-point expressions of the exam engine. */
module JsMath {

  /** A JavaScript number that is either an integer or the result of dividing by zero
      (`NaN` for 0/0, `Infinity` for a positive number over 0). */
  datatype Number = Int(value: int) | NaN | Infinity

  /** `Math.round(num / den)` for an exact quotient: round half up, i.e. the floor of
      `num / den + 1/2`. */
  function RoundHalfUp(num: int, den: int): (r: int)
    requires den > 0
    ensures 2 * den * r <= 2 * num + den < 2 * den * (r + 1)
  {
    var q := (2 * num + den) / (2 * den);
    assert 2 * den * q + (2 * num + den) % (2 * den) == 2 * num + den;
    q
  }

  /** Rounding the exact quotient of a multiple gives the multiplier. */
  lemma RoundExact(k: int, den: int)
    requires den > 0
    ensures RoundHalfUp(k * den, den) == k
  {
    var r := RoundHalfUp(k * den, den);
    assert 2 * den * r <= 2 * den * k + den;
    assert 2 * den * k + den < 2 * den * (r + 1);
    var d := 2 * den;
    assert d * (r - k) <= den < d by { assert d * (r - k) == d * r - d * k; }
    assert d * (r + 1 - k) > den by { assert d * (r + 1 - k) == d * (r + 1) - d * k; }
    BelowOne(d, r - k);
  }

  lemma BelowOne(d: int, x: int)
    requires d > 0 && d * x < d && -d < d * x
    ensures x == 0
  {
    if x >= 1 { MulMono(d, 1, x); }
    if x <= -1 { MulMono(d, x, -1); }
  }

  /** Rounding is monotone in the numerator. */
  lemma RoundMonotone(a: int, b: int, den: int)
    requires den > 0 && a <= b
    ensures RoundHalfUp(a, den) <= RoundHalfUp(b, den)
  {
    var ra, rb := RoundHalfUp(a, den), RoundHalfUp(b, den);
    if ra > rb {
      MulMono(2 * den, rb + 1, ra);
    }
  }

  lemma MulMono(c: int, x: int, y: int)
    requires c >= 0 && x <= y
    ensures c * x <= c * y
  {
  }

  /** `Math.ceil(n * 0.65)`, exact for integer `n` (the rounding error of the product stays
      below half a unit in the last place, so integer products are computed exactly). */
  function Ceil65Percent(n: int): (r: int)
    ensures 100 * (r - 1) < 65 * n <= 100 * r
  {
    var q := (65 * n + 99) / 100;
    assert 100 * q + (65 * n + 99) % 100 == 65 * n + 99;
    q
  }

  /** `Math.round(num / den * 100)` as a JavaScript number: non-finite when `den` is 0. */
  function Percent(num: int, den: nat): (r: Number)
    requires num >= 0
    ensures den == 0 ==> (r == if num == 0 then NaN else Infinity)
    ensures den > 0 ==> r.Int? && 2 * den * r.value <= 200 * num + den < 2 * den * (r.value + 1)
  {
    if den == 0 then (if num == 0 then NaN else Infinity)
    else Int(RoundHalfUp(100 * num, den))
  }

  /** A percentage of a part of a whole lies between 0 and 100. */
  lemma PercentBounds(num: int, den: nat)
    requires 0 <= num <= den && den > 0
    ensures 0 <= Percent(num, den).value <= 100
  {
    RoundMonotone(0, 100 * num, den);
    RoundMonotone(100 * num, 100 * den, den);
    RoundExact(0, den);
    RoundExact(100, den);
  }
}
