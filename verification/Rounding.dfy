/** Rounding to the nearest integer with ties to even: C's nearbyint, CUDA's
    __float2int_rn and Python's round. */
module Rounding {
  function RoundEven(x: real): (n: int)
    ensures n as real - 0.5 <= x <= n as real + 0.5
    ensures x == n as real + 0.5 || x == n as real - 0.5 ==> n % 2 == 0
  {
    var floor := x.Floor;
    var d := x - floor as real;
    if d < 0.5 then floor else if d > 0.5 then floor + 1 else if floor % 2 == 0 then floor else floor + 1
  }
}
