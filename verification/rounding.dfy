/**
 numpy's `np.round`: round half to even. `decimals=0` rounds to a whole number and
 `decimals=1` rounds `x * 10` to a whole number and divides by 10 again.
 */
module Rounding {
  import opened Wrappers
  import opened Missing

  /** The integer nearest to `x`; an exact half goes to the even neighbour. */
  function RoundHalfEven(x: real): (r: int)
    ensures -0.5 <= x - r as real <= 0.5
    ensures x - r as real == 0.5 || x - r as real == -0.5 ==> r % 2 == 0
  {
    var f := x.Floor;
    var frac := x - f as real;
    if frac < 0.5 then f
    else if frac > 0.5 then f + 1
    else if f % 2 == 0 then f
    else f + 1
  }

  /** The two ensures of RoundHalfEven single out one integer: no other integer satisfies them. */
  lemma RoundHalfEvenUnique(x: real, n: int)
    requires -0.5 <= x - n as real <= 0.5
    requires x - n as real == 0.5 || x - n as real == -0.5 ==> n % 2 == 0
    ensures n == RoundHalfEven(x)
  {
  }

  /** Rounding keeps a value inside an integer interval that contains it. */
  lemma RoundHalfEvenWithin(x: real, lo: int, hi: int)
    requires lo as real <= x <= hi as real
    ensures lo <= RoundHalfEven(x) <= hi
  {
  }

  /** `np.round(x, decimals=0)`. */
  function Round0(x: real): (r: real)
    ensures -0.5 <= r - x <= 0.5
    ensures r == r.Floor as real
  {
    RoundHalfEven(x) as real
  }

  /** `np.round(x, decimals=1)`. */
  function Round1(x: real): (r: real)
    ensures -0.05 <= r - x <= 0.05
  {
    RoundHalfEven(x * 10.0) as real / 10.0
  }

  /** A value in [0, 100] still lies in [0, 100] after rounding to one decimal. */
  lemma Round1Within(x: real)
    requires 0.0 <= x <= 100.0
    ensures 0.0 <= Round1(x) <= 100.0
  {
    RoundHalfEvenWithin(x * 10.0, 0, 1000);
  }

  /** `np.round` of a cell: missing stays missing. */
  function Round0Cell(v: Value): (r: Value)
    ensures r.Some? <==> v.Some?
    ensures r.Some? ==> -0.5 <= r.value - v.value <= 0.5
  {
    if v.Some? then Some(Round0(v.value)) else None
  }
}
