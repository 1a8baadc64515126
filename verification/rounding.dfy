/** The two JavaScript roundings the core uses, on exact reals. */
module Rounding {

  /** `Math.round`: the nearest integer, a tie going up (towards +infinity).
      The two bounds pin the result down: only one integer lies in a
      half-open interval of width one. */
  function Round(x: real): (n: int)
    ensures x - 0.5 < n as real <= x + 0.5
  {
    (x + 0.5).Floor
  }

  /** The digit rounding of `Number.prototype.toFixed`: the nearest integer, a
      tie going away from zero (toFixed rounds the magnitude and puts the sign
      back). */
  function RoundHalfAway(x: real): (n: int)
    ensures 0.0 <= x ==> x - 0.5 < n as real <= x + 0.5
    ensures x < 0.0 ==> x - 0.5 <= n as real < x + 0.5
  {
    if x >= 0.0 then Round(x) else -Round(-x)
  }

  /** `parseFloat(x.toFixed(2))`: `x` to the nearest hundredth. */
  function ToFixed2(x: real): (r: real)
    ensures x - 0.005 <= r <= x + 0.005
    ensures (r * 100.0).Floor as real == r * 100.0
  {
    RoundHalfAway(x * 100.0) as real / 100.0
  }
}
