/**
 Go's integer division, and what dividing upwards by it means.
 */
module Integers {

  /** Go's integer division truncates toward zero. */
  function GoDiv(a: int, b: int): int
    requires b > 0
  {
    if a >= 0 then a / b else -((-a) / b)
  }

  /** (a + d - 1) / d as the source writes it. */
  function RoundUp(a: int, d: int): int
    requires d > 0
  {
    GoDiv(a + d - 1, d)
  }

  /** For a positive number that is how many d it takes to reach it, and no fewer do. */
  lemma RoundUpIsCeiling(a: int, d: int)
    requires a >= 1 && d >= 1
    ensures var n := RoundUp(a, d); n >= 1 && d * (n - 1) < a <= d * n
  {
    var b := a + d - 1;
    var n := b / d;
    assert b == d * n + b % d;
    assert d * (n - 1) == d * n - d;
    AtLeastOne(b, d);
  }

  lemma AtLeastOne(a: int, d: int)
    requires a >= d >= 1
    ensures a / d >= 1
  {
    assert a == d * (a / d) + a % d;
    MulSign(d, a / d);
  }

  lemma MulSign(x: int, n: int)
    requires x >= 0
    ensures n <= 0 ==> x * n <= 0
  {
  }

  lemma RoundUpFits(a: int, d: int, n: int)
    requires d >= 1 && n >= 1 && a <= d * n
    ensures RoundUp(a, d) <= n
  {
    if a >= 1 {
      RoundUpIsCeiling(a, d);
      var c := RoundUp(a, d);
      if c > n {
        MulMonotone(d, n, c - 1);
      }
    } else if a + d - 1 >= 0 {
      assert (a + d - 1) / d == 0;
    }
  }

  lemma MulMonotone(x: int, a: int, b: int)
    requires x >= 0 && a <= b
    ensures x * a <= x * b
  {
  }

  lemma QuotientUnique(b: int, d: int, q: int)
    requires d >= 1 && d * q <= b < d * q + d
    ensures b / d == q
  {
    var p := b / d;
    assert b == d * p + b % d;
    if p < q {
      MulMonotone(d, p + 1, q);
    } else if p > q {
      MulMonotone(d, q + 1, p);
    }
  }
}
