/** Python's round(): to the nearest integer, halves to the even neighbour. */
module Rounding {
  function Round(x: real): (n: int)
    ensures -0.5 <= x - n as real <= 0.5
    ensures x == x.Floor as real ==> n == x.Floor
    ensures x - x.Floor as real == 0.5 ==> n % 2 == 0
  {
    var f := x.Floor;
    var d := x - f as real;
    if d < 0.5 then f else if d > 0.5 then f + 1 else if f % 2 == 0 then f else f + 1
  }

  lemma RoundMonotone(x: real, y: real)
    requires x <= y
    ensures Round(x) <= Round(y)
  {
    if x.Floor == y.Floor {
    } else {
      assert x.Floor + 1 <= y.Floor;
    }
  }

  lemma RoundOfInt(n: int)
    ensures Round(n as real) == n
  {
  }
}
