// Python's round() in exact arithmetic.
module Rounding {

  // round(x): to the nearest integer, a half to the even one.
  function Round(x: real): int {
    var low := x.Floor;
    if x - low as real < 0.5 then low
    else if x - low as real > 0.5 then low + 1
    else if low % 2 == 0 then low else low + 1
  }

  // round(x, 1)
  function Round1(x: real): real { Round(10.0 * x) as real / 10.0 }

  function Abs(x: real): real { if x < 0.0 then -x else x }

  lemma RoundIsNear(x: real)
    ensures Abs(Round(x) as real - x) <= 0.5
  {
  }

  lemma Round1IsNear(x: real)
    ensures Abs(Round1(x) - x) <= 0.05
  {
    RoundIsNear(10.0 * x);
  }
}
