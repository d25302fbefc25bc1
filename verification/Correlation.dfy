/** Pearson correlation (portfolio/correlation.py): Cauchy-Schwarz over sequences of any length. */
module Correlation {
  import opened Market
  import opened Algebra

  // ----- The coefficient ----------------------------------------------------

  function Sum(s: seq<real>): real {
    if s == [] then 0.0 else Sum(s[..|s| - 1]) + s[|s| - 1]
  }

  function Mean(s: seq<real>): real
    requires s != []
  {
    Sum(s) / (|s| as real)
  }

  /** Every value less the mean. */
  function Centred(s: seq<real>): (r: seq<real>)
    requires s != []
    ensures |r| == |s|
  {
    seq(|s|, i requires 0 <= i < |s| => s[i] - Mean(s))
  }

  function Dot(x: seq<real>, y: seq<real>): real
    requires |x| == |y|
  {
    if x == [] then 0.0
    else
      var n := |x| - 1;
      Dot(x[..n], y[..n]) + Times(x[n], y[n])
  }

  function Numerator(a: seq<real>, b: seq<real>): real
    requires |a| == |b| && a != []
  {
    Dot(Centred(a), Centred(b))
  }

  /** Sum of squared deviations from the mean. */
  function Variance(a: seq<real>): real
    requires a != []
  {
    Dot(Centred(a), Centred(a))
  }

  /** The square root is not computed here: any function that is one will do. */
  ghost predicate IsSquareRoot(sqrt: real -> real) {
    forall x {:trigger sqrt(x)} :: x >= 0.0 ==> sqrt(x) >= 0.0 && Square(sqrt(x)) == x
  }

  function Coefficient(a: seq<real>, b: seq<real>, sqrt: real -> real): Option<real> {
    if |a| < 2 || |b| < 2 then None
    else if |a| != |b| then None
    else
      var denominator := sqrt(Times(Variance(a), Variance(b)));
      if denominator == 0.0 then None else Some(Numerator(a, b) / denominator)
  }

  // ----- Cauchy-Schwarz -----------------------------------------------------

  lemma {:induction false} DotSymmetric(x: seq<real>, y: seq<real>)
    requires |x| == |y|
    ensures Dot(x, y) == Dot(y, x)
  {
    if x != [] {
      hide Times;
      var n := |x| - 1;
      DotSymmetric(x[..n], y[..n]);
      TimesSymmetric(x[n], y[n]);
    }
  }

  lemma {:induction false} DotNonNegative(x: seq<real>)
    ensures Dot(x, x) >= 0.0
    ensures Dot(x, x) > 0.0 <==> exists i :: 0 <= i < |x| && x[i] != 0.0
  {
    if x != [] {
      hide Times;
      var n := |x| - 1;
      var init := x[..n];
      DotNonNegative(init);
      SquareSign(x[n]);
      assert Dot(x, x) == Dot(init, init) + Square(x[n]);
      if i :| 0 <= i < |x| && x[i] != 0.0 {
        assert i < n ==> init[i] != 0.0;
      }
    }
  }

  /** The sum of the squares of p * x[i] - q * y[i], written out over the three dot products. */
  function Form(xx: real, xy: real, yy: real, p: real, q: real): real {
    Times(Square(p), xx) - 2.0 * Times(Times(p, q), xy) + Times(Square(q), yy)
  }

  lemma ExpandSquare(p: real, q: real, u: real, v: real)
    ensures Square(Times(p, u) - Times(q, v)) == Form(Square(u), Times(u, v), Square(v), p, q)
  {
    assert (p * u - q * v) * (p * u - q * v) == p * p * (u * u) - 2.0 * (p * q * (u * v)) + q * q * (v * v);
  }

  lemma FormSum(a: real, b: real, c: real, a': real, b': real, c': real, p: real, q: real)
    ensures Form(a + a', b + b', c + c', p, q) == Form(a, b, c, p, q) + Form(a', b', c', p, q)
  {
    hide Times;
    TimesSum(Square(p), a, a');
    TimesSum(Times(p, q), b, b');
    TimesSum(Square(q), c, c');
  }

  lemma {:induction false} FormNonNegative(x: seq<real>, y: seq<real>, p: real, q: real)
    requires |x| == |y|
    ensures Form(Dot(x, x), Dot(x, y), Dot(y, y), p, q) >= 0.0
  {
    hide Times;
    if x == [] {
      TimesZero(Square(p));
      TimesZero(Times(p, q));
      TimesZero(Square(q));
    } else {
      var n := |x| - 1;
      var a, b := x[..n], y[..n];
      FormNonNegative(a, b, p, q);
      ExpandSquare(p, q, x[n], y[n]);
      SquareSign(Times(p, x[n]) - Times(q, y[n]));
      hide Form;
      FormSum(Dot(a, a), Dot(a, b), Dot(b, b), Square(x[n]), Times(x[n], y[n]), Square(y[n]), p, q);
    }
  }

  /** The form at p = c and q = b, for b > 0, is b times the gap in the inequality. */
  lemma Discriminant(a: real, b: real, c: real)
    requires b > 0.0 && Form(a, c, b, b, c) >= 0.0
    ensures Square(c) <= Times(a, b)
  {
    var gap := Times(a, b) - Square(c);
    assert Form(a, c, b, b, c) == Times(b, gap) by {
      assert b * b * a - 2.0 * (b * c * c) + c * c * b == b * (a * b - c * c);
    }
    hide Form;
    hide Times;
    if gap < 0.0 {
      TimesPositive(b, -gap);
      TimesNegative(b, gap);
    }
  }

  lemma {:induction false} DotWithZero(x: seq<real>, y: seq<real>)
    requires |x| == |y| && forall i :: 0 <= i < |y| ==> y[i] == 0.0
    ensures Dot(x, y) == 0.0
  {
    if x != [] {
      hide Times;
      var n := |x| - 1;
      DotWithZero(x[..n], y[..n]);
      TimesZero(x[n]);
    }
  }

  /** Cauchy-Schwarz, for sequences of any length. */
  lemma {:induction false} CauchySchwarz(x: seq<real>, y: seq<real>)
    requires |x| == |y|
    ensures Square(Dot(x, y)) <= Times(Dot(x, x), Dot(y, y))
  {
    var a, b, c := Dot(x, x), Dot(y, y), Dot(x, y);
    hide Times;
    DotNonNegative(y);
    if b == 0.0 {
      DotWithZero(x, y);
      TimesZero(a);
      TimesZero(c);
    } else {
      FormNonNegative(x, y, b, c);
      hide Dot;
      Discriminant(a, b, c);
    }
  }

  // ----- Bounds and definedness ---------------------------------------------

  lemma {:induction false} ConstantIff(a: seq<real>)
    requires a != []
    ensures Variance(a) >= 0.0
    ensures Variance(a) == 0.0 <==> forall i :: 0 <= i < |a| ==> a[i] == Mean(a)
  {
    var x := Centred(a);
    DotNonNegative(x);
    assert forall i :: 0 <= i < |a| ==> x[i] == a[i] - Mean(a);
    hide Dot, Mean;
  }

  /** The denominator is a root of the product of the variances, and zero only if that product is. */
  lemma {:induction false} Denominator(a: seq<real>, b: seq<real>, sqrt: real -> real) returns (d: real)
    requires IsSquareRoot(sqrt) && a != [] && b != []
    ensures d == sqrt(Times(Variance(a), Variance(b)))
    ensures d >= 0.0 && Square(d) == Times(Variance(a), Variance(b))
    ensures d == 0.0 <==> Variance(a) == 0.0 || Variance(b) == 0.0
  {
    ConstantIff(a);
    ConstantIff(b);
    hide Variance, Times, Square;
    TimesNonNegative(Variance(a), Variance(b));
    d := sqrt(Times(Variance(a), Variance(b)));
    SquareSign(d);
  }

  /** The coefficient lies between -1 and 1. */
  lemma {:induction false} CoefficientBound(a: seq<real>, b: seq<real>, sqrt: real -> real)
    requires IsSquareRoot(sqrt) && Coefficient(a, b, sqrt).Some?
    ensures -1.0 <= Coefficient(a, b, sqrt).value <= 1.0
  {
    CauchySchwarz(Centred(a), Centred(b));
    assert Square(Numerator(a, b)) <= Times(Variance(a), Variance(b));
    hide Variance, Numerator, Times, Square;
    var d := Denominator(a, b, sqrt);
    RootOrder(Numerator(a, b), d);
    RatioBound(Numerator(a, b), d);
  }

  lemma {:induction false} CoefficientSymmetric(a: seq<real>, b: seq<real>, sqrt: real -> real)
    ensures Coefficient(a, b, sqrt) == Coefficient(b, a, sqrt)
  {
    if |a| >= 2 && |a| == |b| {
      DotSymmetric(Centred(a), Centred(b));
      hide Dot, Times;
      TimesSymmetric(Variance(a), Variance(b));
    }
  }

  lemma {:induction false} SumConstant(a: seq<real>, c: real)
    requires forall i :: 0 <= i < |a| ==> a[i] == c
    ensures Sum(a) == Times(c, |a| as real)
  {
    if a == [] {
      TimesZero(c);
    } else {
      var n := |a| - 1;
      SumConstant(a[..n], c);
      TimesSum(c, n as real, 1.0);
      TimesOne(c);
      hide Times;
    }
  }

  /** Two values differ. */
  ghost predicate Varies(a: seq<real>) {
    exists i, j :: 0 <= i < |a| && 0 <= j < |a| && a[i] != a[j]
  }

  /** Values that are all equal are equal to their mean. */
  lemma {:induction false} VariesIff(a: seq<real>)
    requires a != []
    ensures Variance(a) != 0.0 <==> Varies(a)
  {
    ConstantIff(a);
    if !Varies(a) {
      SumConstant(a, a[0]);
      MeanOf(Sum(a), a[0], |a| as real);
    } else {
      var i, j :| 0 <= i < |a| && 0 <= j < |a| && a[i] != a[j];
      assert a[i] != Mean(a) || a[j] != Mean(a);
    }
  }

  lemma MeanOf(total: real, c: real, n: real)
    requires n > 0.0 && total == Times(c, n)
    ensures total / n == c
  {
  }

  /** There is a coefficient exactly for two lists of one length in each of which two values differ. */
  lemma {:induction false} DefinedIff(a: seq<real>, b: seq<real>, sqrt: real -> real)
    requires IsSquareRoot(sqrt)
    ensures Coefficient(a, b, sqrt).Some? <==> |a| == |b| && Varies(a) && Varies(b)
  {
    if |a| == |b| >= 2 {
      VariesIff(a);
      VariesIff(b);
      hide Variance, Mean, Times;
      var d := Denominator(a, b, sqrt);
    }
  }

  // ----- Without the means --------------------------------------------------

  lemma ShiftedProduct(a: real, b: real, u: real, v: real)
    ensures Times(a - u, b - v) == Times(a, b) - Times(u, b) - Times(v, a) + Times(u, v)
  {
  }

  /** A dot product after taking a constant off either list. */
  lemma {:induction false} ShiftedDot(a: seq<real>, b: seq<real>, x: seq<real>, y: seq<real>, u: real, v: real)
    requires |a| == |b| == |x| == |y|
    requires forall i :: 0 <= i < |a| ==> x[i] == a[i] - u && y[i] == b[i] - v
    ensures Dot(x, y) == Dot(a, b) - Times(u, Sum(b)) - Times(v, Sum(a)) + Times(Times(u, v), |a| as real)
  {
    hide Times;
    if a == [] {
      TimesZero(u);
      TimesZero(v);
      TimesZero(Times(u, v));
    } else {
      var n := |a| - 1;
      ShiftedDot(a[..n], b[..n], x[..n], y[..n], u, v);
      ShiftedProduct(a[n], b[n], u, v);
      TimesSum(u, Sum(b[..n]), b[n]);
      TimesSum(v, Sum(a[..n]), a[n]);
      TimesSum(Times(u, v), n as real, 1.0);
      TimesOne(Times(u, v));
    }
  }

  lemma MeansCancel(s: real, t: real, n: real)
    requires n > 0.0
    ensures Times(Times(s / n, t / n), n) == Times(s / n, t) == Times(t / n, s) == Times(s, t) / n
  {
    var u, v := s / n, t / n;
    assert u * n == s && v * n == t;
    assert u * t == u * (v * n) && v * s == v * (u * n);
    assert (u * t) * n == s * t;
  }

  /** Numerator and variances need no means: the sum of products less the product of sums over their number. */
  lemma {:induction false} NumeratorExact(a: seq<real>, b: seq<real>)
    requires |a| == |b| && a != []
    ensures Numerator(a, b) == Dot(a, b) - Times(Sum(a), Sum(b)) / (|a| as real)
  {
    ShiftedDot(a, b, Centred(a), Centred(b), Mean(a), Mean(b));
    MeansCancel(Sum(a), Sum(b), |a| as real);
    hide Dot, Sum, Times;
  }

  /** So the coefficient r satisfies r * root = (sum of products) - (product of sums) / n, where the root is that of
      the product of the same expression for either list with itself. */
  lemma {:induction false} CoefficientExact(a: seq<real>, b: seq<real>, sqrt: real -> real)
    requires Coefficient(a, b, sqrt).Some?
    ensures |a| == |b| && a != []
    ensures var n := |a| as real;
            var ab := Dot(a, b) - Times(Sum(a), Sum(b)) / n;
            var aa := Dot(a, a) - Times(Sum(a), Sum(a)) / n;
            var bb := Dot(b, b) - Times(Sum(b), Sum(b)) / n;
            Times(sqrt(Times(aa, bb)), Coefficient(a, b, sqrt).value) == ab
  {
    NumeratorExact(a, b);
    NumeratorExact(a, a);
    NumeratorExact(b, b);
    var d := sqrt(Times(Variance(a), Variance(b)));
    assert Times(d, Numerator(a, b) / d) == Numerator(a, b);
    hide Dot, Sum, Times;
  }

  // ----- Perfect correlation ------------------------------------------------

  /** b is a straight-line function of a. */
  ghost predicate Affine(a: seq<real>, b: seq<real>, k: real, m: real) {
    |a| == |b| && forall i :: 0 <= i < |a| ==> b[i] == Times(k, a[i]) + m
  }

  lemma {:induction false} SumAffine(a: seq<real>, b: seq<real>, k: real, m: real)
    requires Affine(a, b, k, m)
    ensures Sum(b) == Times(k, Sum(a)) + Times(m, |a| as real)
  {
    hide Times;
    if a == [] {
      TimesZero(k);
      TimesZero(m);
    } else {
      var n := |a| - 1;
      SumAffine(a[..n], b[..n], k, m);
      TimesSum(k, Sum(a[..n]), a[n]);
      TimesSum(m, n as real, 1.0);
      TimesOne(m);
    }
  }

  lemma TimesOne(x: real)
    ensures Times(x, 1.0) == x
  {
  }

  lemma MeanFromSum(s: real, t: real, n: real, k: real, m: real)
    requires n > 0.0 && t == Times(k, s) + Times(m, n)
    ensures t / n == Times(k, s / n) + m
  {
    var q := s / n;
    assert q * n == s;
    assert t == (k * q + m) * n;
  }

  /** Centring takes the constant away and leaves the slope. */
  lemma {:induction false} CentredAffine(a: seq<real>, b: seq<real>, k: real, m: real)
    requires Affine(a, b, k, m) && a != []
    ensures Affine(Centred(a), Centred(b), k, 0.0)
  {
    SumAffine(a, b, k, m);
    MeanFromSum(Sum(a), Sum(b), |a| as real, k, m);
    assert Mean(b) == Times(k, Mean(a)) + m;
    hide Mean, Times;
    forall i | 0 <= i < |a|
      ensures Centred(b)[i] == Times(k, Centred(a)[i]) + 0.0
    {
      TimesSum(k, a[i], -Mean(a));
      TimesNegative(k, Mean(a));
    }
  }

  lemma ScaledProducts(u: real, v: real, k: real)
    requires v == Times(k, u)
    ensures Times(u, v) == Times(k, Square(u)) && Square(v) == Times(Square(k), Square(u))
  {
    assert u * (k * u) == k * (u * u);
    assert (k * u) * (k * u) == k * k * (u * u);
  }

  lemma {:induction false} DotScaled(x: seq<real>, y: seq<real>, k: real)
    requires Affine(x, y, k, 0.0)
    ensures Dot(x, y) == Times(k, Dot(x, x)) && Dot(y, y) == Times(Square(k), Dot(x, x))
  {
    hide Times;
    if x == [] {
      TimesZero(k);
      TimesZero(Square(k));
    } else {
      var n := |x| - 1;
      var a, b := x[..n], y[..n];
      DotScaled(a, b, k);
      ScaledProducts(x[n], y[n], k);
      TimesSum(k, Dot(a, a), Square(x[n]));
      TimesSum(Square(k), Dot(a, a), Square(x[n]));
    }
  }

  /** A straight-line relation correlates perfectly: 1 when it rises, -1 when it falls. */
  lemma {:induction false} PerfectCorrelation(a: seq<real>, b: seq<real>, k: real, m: real, sqrt: real -> real)
    requires IsSquareRoot(sqrt) && Affine(a, b, k, m) && k != 0.0
    requires Coefficient(a, b, sqrt).Some?
    ensures Coefficient(a, b, sqrt).value == if k > 0.0 then 1.0 else -1.0
  {
    CentredAffine(a, b, k, m);
    DotScaled(Centred(a), Centred(b), k);
    ConstantIff(a);
    hide Dot, Times, Square, Affine;
    var v := Variance(a);
    var d := Denominator(a, b, sqrt);
    PerfectSquare(v, k);
    SlopeSign(v, k);
    var n := Numerator(a, b);
    SquareSign(n);
    RootOrder(n, d);
    RootOrder(d, if k > 0.0 then n else -n);
    RatioBound(n, d);
  }

  lemma PerfectSquare(v: real, k: real)
    ensures Square(Times(k, v)) == Times(v, Times(Square(k), v))
  {
  }

  lemma SlopeSign(v: real, k: real)
    requires v >= 0.0
    ensures k > 0.0 ==> Times(k, v) >= 0.0
    ensures k < 0.0 ==> Times(k, v) <= 0.0
  {
    hide Times;
    TimesNegative(k, v);
    if k > 0.0 {
      TimesNonNegative(k, v);
    } else if k < 0.0 {
      TimesNonNegative(-k, v);
    }
  }
}
