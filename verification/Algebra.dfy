/** Real products by name, so that proofs can set multiplication aside and use only its laws. */
module Algebra {

  function Times(x: real, y: real): real {
    x * y
  }

  function Square(x: real): real {
    Times(x, x)
  }

  lemma TimesSymmetric(x: real, y: real)
    ensures Times(x, y) == Times(y, x)
  {
  }

  lemma TimesSum(k: real, x: real, y: real)
    ensures Times(k, x + y) == Times(k, x) + Times(k, y)
  {
  }

  lemma TimesNegative(k: real, x: real)
    ensures Times(k, -x) == -Times(k, x) && Times(-k, x) == -Times(k, x)
  {
  }

  lemma TimesZero(x: real)
    ensures Times(x, 0.0) == 0.0 && Times(0.0, x) == 0.0
  {
  }

  lemma TimesPositive(x: real, y: real)
    requires x > 0.0 && y > 0.0
    ensures Times(x, y) > 0.0
  {
  }

  lemma TimesNonNegative(x: real, y: real)
    requires x >= 0.0 && y >= 0.0
    ensures Times(x, y) >= 0.0
    ensures Times(x, y) == 0.0 <==> x == 0.0 || y == 0.0
  {
    hide Times;
    TimesZero(x);
    TimesZero(y);
    if x > 0.0 && y > 0.0 {
      TimesPositive(x, y);
    }
  }

  lemma SquareSign(x: real)
    ensures Square(x) >= 0.0 && Square(-x) == Square(x)
    ensures Square(x) == 0.0 <==> x == 0.0
  {
    hide Times;
    TimesNegative(x, -x);
    TimesNegative(-x, x);
    TimesNegative(x, x);
    if x >= 0.0 {
      TimesNonNegative(x, x);
    } else {
      TimesNonNegative(-x, -x);
    }
  }

  lemma SquareGrows(x: real, y: real)
    requires 0.0 <= x < y
    ensures Square(x) < Square(y)
  {
    TimesPositive(y - x, y + x);
    assert Times(y - x, y + x) == Square(y) - Square(x);
  }

  /** |n| <= d when n * n <= d * d. */
  lemma RootOrder(n: real, d: real)
    requires d >= 0.0 && Square(n) <= Square(d)
    ensures -d <= n <= d
  {
    hide Square;
    SquareSign(n);
    if n > d {
      SquareGrows(d, n);
    } else if n < -d {
      SquareGrows(d, -n);
    }
  }

  lemma RatioBound(n: real, d: real)
    requires d > 0.0 && -d <= n <= d
    ensures -1.0 <= n / d <= 1.0
    ensures n == d ==> n / d == 1.0
    ensures n == -d ==> n / d == -1.0
  {
    var q := n / d;
    assert Times(d, q) == n && Times(d, 1.0) == d && Times(d, -1.0) == -d;
    hide Times;
    TimesSum(d, q, -1.0);
    TimesSum(d, q, 1.0);
    TimesNegative(d, q + 1.0);
    if q > 1.0 {
      TimesPositive(d, q - 1.0);
    } else if q < -1.0 {
      TimesPositive(d, -(q + 1.0));
    }
  }

  lemma TimesGrows(k: real, x: real, y: real)
    requires k >= 0.0 && x <= y
    ensures Times(k, x) <= Times(k, y)
  {
    TimesNonNegative(k, y - x);
    assert Times(k, y - x) == Times(k, y) - Times(k, x);
  }
}
