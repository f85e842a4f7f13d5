/** Facts about real arithmetic that the solver needs spelled out. */
module Reals {
  function Abs(x: real): real {
    if x < 0.0 then -x else x
  }

  lemma Positive(a: real, b: real, p: real)
    requires a > 0.0 && b > 0.0 && p == a * b
    ensures p > 0.0
  {
  }

  lemma Square(a: real, square: real)
    requires square == a * a
    ensures square >= 0.0 && (a != 0.0 ==> square > 0.0)
  {
    if a > 0.0 {
      Positive(a, a, square);
    } else if a < 0.0 {
      assert (-a) * (-a) == a * a;
      Positive(-a, -a, square);
    }
  }
}
