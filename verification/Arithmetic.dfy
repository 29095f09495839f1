/** Functions on numbers that several modules share. */
module Arithmetic {

  function Abs(a: int): nat { if a < 0 then -a else a }

  function Min(a: int, b: int): (m: int)
    ensures m <= a && m <= b && (m == a || m == b)
  {
    if a < b then a else b
  }

  function TwoTo(n: nat): (p: nat)
    ensures p >= 1
  {
    if n == 0 then 1 else 2 * TwoTo(n - 1)
  }
}
