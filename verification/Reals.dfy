/** Algebra of reals in small steps. Products go through the function `Times` so that a
    proof can hide the multiplication and reason with the laws below. */
module Reals {

  function Times(x: real, y: real): real {
    x * y
  }

  lemma Commute(x: real, y: real)
    ensures Times(x, y) == Times(y, x)
  {
  }

  lemma Associate(x: real, y: real, z: real)
    ensures Times(x, Times(y, z)) == Times(Times(x, y), z)
  {
  }

  lemma Units(x: real)
    ensures Times(x, 0.0) == 0.0 && Times(0.0, x) == 0.0 && Times(x, 1.0) == x && Times(1.0, x) == x
  {
  }

  lemma Distribute(c: real, x: real, y: real)
    ensures Times(c, x + y) == Times(c, x) + Times(c, y)
    ensures Times(c, x - y) == Times(c, x) - Times(c, y)
  {
  }

  lemma Negate(x: real, y: real)
    ensures Times(-x, y) == -Times(x, y) && Times(-x, -y) == Times(x, y)
  {
  }

  lemma Monotone(c: real, x: real, y: real)
    ensures 0.0 <= c && x <= y ==> Times(c, x) <= Times(c, y)
    ensures 0.0 < c && x < y ==> Times(c, x) < Times(c, y)
  {
  }

  lemma Divide(x: real, y: real)
    requires y != 0.0
    ensures Times(x / y, y) == x && Times(y, x / y) == x
  {
  }

  lemma Positive(x: real, y: real)
    ensures 0.0 <= x && 0.0 <= y ==> 0.0 <= Times(x, y)
    ensures 0.0 < x && 0.0 < y ==> 0.0 < Times(x, y)
  {
    hide Times;
    Monotone(x, 0.0, y);
    Units(x);
  }

  lemma SquareSign(x: real)
    ensures 0.0 <= Times(x, x)
    ensures x != 0.0 ==> 0.0 < Times(x, x)
    ensures x == 0.0 ==> Times(x, x) == 0.0
  {
    hide Times;
    Positive(x, x);
    Positive(-x, -x);
    Negate(x, x);
    Units(x);
  }

  lemma SquareOrder(n: real, x: real)
    ensures 0.0 <= n < x ==> Times(n, n) < Times(x, x)
  {
    hide Times;
    Monotone(n, n, x);
    Monotone(x, n, x);
    Commute(n, x);
  }

  lemma SquareOfProduct(x: real, y: real)
    ensures Times(Times(x, y), Times(x, y)) == Times(Times(x, x), Times(y, y))
  {
    hide Times;
    Associate(x, y, Times(x, y));
    Associate(y, x, y);
    Commute(x, y);
    Associate(x, y, y);
    Associate(x, x, Times(y, y));
  }

  lemma QuotientOrder(x: real, n: real)
    requires n > 0.0
    ensures x <= n <==> x / n <= 1.0
    ensures -n <= x <==> -1.0 <= x / n
    ensures x == n <==> x / n == 1.0
    ensures x > 0.0 ==> x / n > 0.0
  {
    var q := x / n;
    Divide(x, n);
    hide Times;
    Units(n);
    Negate(1.0, n);
    Commute(n, -1.0);
    Monotone(n, q, 1.0);
    Monotone(n, 1.0, q);
    Monotone(n, q, -1.0);
    Monotone(n, -1.0, q);
    Monotone(n, q, 0.0);
  }

  lemma InverseOrder(a: real, b: real)
    requires 0.0 < a <= b
    ensures 0.0 < 1.0 / b <= 1.0 / a
    ensures a < b ==> 1.0 / b < 1.0 / a
  {
    var x, y := 1.0 / a, 1.0 / b;
    Divide(1.0, a);
    Divide(1.0, b);
    QuotientOrder(1.0, a);
    QuotientOrder(1.0, b);
    hide Times;
    Monotone(y, a, b);
    Monotone(a, x, y);
    Commute(a, y);
  }
}
