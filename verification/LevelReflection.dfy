/** What reflecting all prices does to the clustering of equal levels (scoring/hlcp/liquidity_mapper.py): the greedy
    pass starts from below, so the reflected pass starts from above. */
module LevelReflection {
  import opened Market
  import opened Algebra
  import opened Levels

  /** All prices negated and the order turned round, which keeps a sorted list sorted. */
  function Reflect(s: seq<real>): (r: seq<real>)
    ensures |r| == |s|
    ensures forall i :: 0 <= i < |s| ==> r[i] == -s[|s| - 1 - i]
  {
    seq(|s|, i requires 0 <= i < |s| => -s[|s| - 1 - i])
  }

  function Negated(s: seq<real>): (r: seq<real>)
    ensures |r| == |s|
    ensures forall i :: 0 <= i < |s| ==> r[i] == -s[i]
  {
    seq(|s|, i requires 0 <= i < |s| => -s[i])
  }

  // ----- Sorting reflected prices -------------------------------------------

  lemma NegatedSnoc(s: seq<real>)
    requires s != []
    ensures var n := |s| - 1;
            && s == s[..n] + [s[n]]
            && Negated(s) == Negated(s[..n]) + [-s[n]]
            && Reflect(s) == [-s[n]] + Reflect(s[..n])
  {
  }

  lemma {:induction false} CountNegated(s: seq<real>, x: real)
    ensures multiset(Negated(s))[x] == multiset(s)[-x] == multiset(Reflect(s))[x]
  {
    if s != [] {
      hide Negated, Reflect;
      NegatedSnoc(s);
      CountNegated(s[..|s| - 1], x);
    }
  }

  lemma {:induction false} SortNegated(prices: seq<real>)
    ensures Sort(Negated(prices)) == Reflect(Sort(prices))
  {
    hide Sort, Sorted, Negated, Reflect;
    var s := Sort(prices);
    var a, b := Sort(Negated(prices)), Reflect(s);
    forall x
      ensures multiset(a)[x] == multiset(b)[x]
    {
      CountNegated(prices, x);
      CountNegated(s, x);
    }
    assert multiset(a) == multiset(b);
    ReflectSorted(s);
    SortedUnique(a, b);
  }

  lemma ReflectSorted(s: seq<real>)
    requires Sorted(s)
    ensures Sorted(Reflect(s))
  {
  }

  // ----- The pass from below, one price at a time ---------------------------

  /** First price of the cluster that the greedy pass from below puts the price e - 1 in. */
  function UpStart(s: seq<real>, tolerance: real, e: nat): (b: nat)
    requires 0 < e <= |s|
    ensures b < e
  {
    if e == 1 then 0
    else
      var b := UpStart(s, tolerance, e - 1);
      if Abs(s[e - 1] - s[b]) <= tolerance then b else e - 1
  }

  function UpLevels(s: seq<real>, tolerance: real, e: nat): seq<real>
    requires e <= |s|
  {
    if e == 0 then []
    else
      var b := UpStart(s, tolerance, e);
      UpLevels(s, tolerance, b) + LevelOf(s, b, e)
  }

  /** First price of the cluster that a pass from above starts at the price e - 1. */
  function DownStart(s: seq<real>, tolerance: real, e: nat, i: nat): (b: nat)
    requires 0 < e <= |s| && i < e
    ensures b <= i
    ensures forall k :: b <= k < i ==> Abs(s[k] - s[e - 1]) <= tolerance
    ensures b > 0 ==> Abs(s[b - 1] - s[e - 1]) > tolerance
  {
    if i > 0 && Abs(s[i - 1] - s[e - 1]) <= tolerance then DownStart(s, tolerance, e, i - 1) else i
  }

  function DownLevels(s: seq<real>, tolerance: real, e: nat): seq<real>
    requires e <= |s|
  {
    if e == 0 then []
    else
      var b := DownStart(s, tolerance, e, e - 1);
      DownLevels(s, tolerance, b) + LevelOf(s, b, e)
  }

  /** Position i begins a cluster of the pass from below. */
  ghost predicate IsCutPoint(s: seq<real>, tolerance: real, i: nat)
    requires i <= |s|
  {
    i == 0 || i == |s| || UpStart(s, tolerance, i + 1) == i
  }

  lemma {:induction false} UpStartOfCluster(s: seq<real>, tolerance: real, i: nat, e: nat)
    requires i < |s| && i < e <= ClusterEnd(s, tolerance, i, i + 1)
    requires UpStart(s, tolerance, i + 1) == i
    ensures UpStart(s, tolerance, e) == i
  {
    if e > i + 1 {
      UpStartOfCluster(s, tolerance, i, e - 1);
    }
  }

  /** The pass from i on continues what the one-price-at-a-time pass found up to i. */
  lemma {:induction false} UpIsLevelsFrom(s: seq<real>, tolerance: real, i: nat)
    requires i <= |s| && IsCutPoint(s, tolerance, i)
    ensures UpLevels(s, tolerance, i) + LevelsFrom(s, tolerance, i) == UpLevels(s, tolerance, |s|)
    decreases |s| - i
  {
    if i == |s| {
      assert LevelsFrom(s, tolerance, i) == [];
    } else {
      var j := ClusterEnd(s, tolerance, i, i + 1);
      UpStartOfCluster(s, tolerance, i, j);
      ClusterIsCut(s, tolerance, i);
      UpIsLevelsFrom(s, tolerance, j);
      LevelsFromStep(s, tolerance, i);
      assert UpLevels(s, tolerance, j) == UpLevels(s, tolerance, i) + LevelOf(s, i, j);
      hide LevelOf, LevelsFrom, UpLevels;
      Associate(UpLevels(s, tolerance, i), LevelOf(s, i, j), LevelsFrom(s, tolerance, j));
    }
  }

  lemma ClusterIsCut(s: seq<real>, tolerance: real, i: nat)
    requires i < |s| && IsCutPoint(s, tolerance, i)
    ensures UpStart(s, tolerance, i + 1) == i
    ensures IsCutPoint(s, tolerance, ClusterEnd(s, tolerance, i, i + 1))
  {
    var j := ClusterEnd(s, tolerance, i, i + 1);
    UpStartOfCluster(s, tolerance, i, j);
  }

  lemma Associate(x: seq<real>, y: seq<real>, z: seq<real>)
    ensures x + y + z == x + (y + z)
  {
  }

  lemma UpIsLevels(s: seq<real>, tolerance: real)
    ensures UpLevels(s, tolerance, |s|) == LevelsFrom(s, tolerance, 0)
  {
    UpIsLevelsFrom(s, tolerance, 0);
    assert UpLevels(s, tolerance, 0) == [];
  }

  // ----- The pass over the reflected prices ---------------------------------

  lemma {:induction false} SumJoin(a: seq<real>, b: seq<real>)
    ensures Sum(a + b) == Sum(a) + Sum(b)
  {
    if b == [] {
      assert a + b == a;
    } else {
      var n := |b| - 1;
      SumJoin(a, b[..n]);
      assert (a + b)[..|a| + n] == a + b[..n];
    }
  }

  lemma {:induction false} SumReflected(s: seq<real>)
    ensures Sum(Reflect(s)) == -Sum(s)
  {
    if s != [] {
      var n := |s| - 1;
      SumReflected(s[..n]);
      SumJoin([-s[n]], Reflect(s[..n]));
      assert Reflect(s) == [-s[n]] + Reflect(s[..n]);
      assert [-s[n]][..0] == [];
    }
  }

  lemma AverageReflected(s: seq<real>)
    requires s != []
    ensures Average(Reflect(s)) == -Average(s)
  {
    SumReflected(s);
    hide Sum;
  }

  lemma {:induction false} ClusterReflected(s: seq<real>, tolerance: real, e: nat, i: nat)
    requires i < e <= |s|
    ensures ClusterEnd(Reflect(s), tolerance, |s| - e, |s| - i) == |s| - DownStart(s, tolerance, e, i)
    decreases i
  {
    var r := Reflect(s);
    if i > 0 {
      assert r[|s| - i] - r[|s| - e] == s[e - 1] - s[i - 1];
      if Abs(s[i - 1] - s[e - 1]) <= tolerance {
        ClusterReflected(s, tolerance, e, i - 1);
      }
    }
  }

  lemma ReflectJoin(a: seq<real>, b: seq<real>)
    ensures Reflect(a + b) == Reflect(b) + Reflect(a)
  {
  }

  lemma LevelReflected(s: seq<real>, b: nat, e: nat)
    requires b < e <= |s|
    ensures LevelOf(Reflect(s), |s| - e, |s| - b) == Reflect(LevelOf(s, b, e))
  {
    assert Reflect(s)[|s| - e..|s| - b] == Reflect(s[b..e]);
    hide Average;
    AverageReflected(s[b..e]);
  }

  /** From the first e prices, reflected, the greedy pass makes the levels of the pass from above, reflected. */
  lemma {:induction false} LevelsReflected(s: seq<real>, tolerance: real, e: nat)
    requires e <= |s|
    ensures LevelsFrom(Reflect(s), tolerance, |s| - e) == Reflect(DownLevels(s, tolerance, e))
  {
    hide LevelOf, LevelsFrom, Reflect, ClusterEnd;
    if e == 0 {
      NothingReflected(s, tolerance);
    } else {
      var b := DownStart(s, tolerance, e, e - 1);
      ClusterReflected(s, tolerance, e, e - 1);
      LevelsReflected(s, tolerance, b);
      LevelReflected(s, b, e);
      LevelsFromStep(Reflect(s), tolerance, |s| - e);
      assert DownLevels(s, tolerance, e) == DownLevels(s, tolerance, b) + LevelOf(s, b, e);
      hide DownLevels;
      ReflectJoin(DownLevels(s, tolerance, b), LevelOf(s, b, e));
    }
  }

  lemma NothingReflected(s: seq<real>, tolerance: real)
    ensures LevelsFrom(Reflect(s), tolerance, |s|) == Reflect([])
  {
  }

  // ----- When both passes agree ---------------------------------------------

  /** In the clusters of the pass from below, each one's top price lies out of reach of the top price of the
      cluster before it. */
  predicate TopsApart(s: seq<real>, tolerance: real, e: nat)
    requires e <= |s|
  {
    e == 0 ||
    var b := UpStart(s, tolerance, e);
    (b == 0 || Abs(s[e - 1] - s[b - 1]) > tolerance) && TopsApart(s, tolerance, b)
  }

  lemma {:induction false} UpStartReach(s: seq<real>, tolerance: real, e: nat)
    requires 0 < e <= |s| && Sorted(s)
    ensures var b := UpStart(s, tolerance, e);
            && (forall k :: b < k < e ==> Abs(s[k] - s[b]) <= tolerance)
            && (b > 0 ==> var b' := UpStart(s, tolerance, b); Abs(s[b] - s[b']) > tolerance)
  {
    hide UpStart, Abs, Sorted;
    UpStartStep(s, tolerance, e);
    if e > 1 {
      UpStartReach(s, tolerance, e - 1);
    }
  }

  lemma UpStartStep(s: seq<real>, tolerance: real, e: nat)
    requires 0 < e <= |s|
    ensures UpStart(s, tolerance, e) ==
              if e == 1 then 0
              else
                var b := UpStart(s, tolerance, e - 1);
                if Abs(s[e - 1] - s[b]) <= tolerance then b else e - 1
  {
  }

  lemma StrictOrder(s: seq<real>, i: nat, j: nat)
    requires Sorted(s) && i < |s| && j < |s| && s[i] < s[j]
    ensures i < j
  {
  }

  /** The pass from above does not go below a price out of reach. */
  lemma {:induction false} DownStops(s: seq<real>, tolerance: real, e: nat, i: nat, j: nat)
    requires i <= j < e <= |s|
    requires i == 0 || Abs(s[i - 1] - s[e - 1]) > tolerance
    ensures i <= DownStart(s, tolerance, e, j)
  {
    if i < j {
      DownStops(s, tolerance, e, i, j - 1);
    }
  }

  lemma {:induction false} DownIsReach(s: seq<real>, tolerance: real, e: nat, i: nat)
    requires i < e <= |s| && Sorted(s)
    requires forall k :: i <= k < e - 1 ==> Abs(s[k] - s[e - 1]) <= tolerance
    requires i == 0 || Abs(s[i - 1] - s[e - 1]) > tolerance
    ensures DownStart(s, tolerance, e, e - 1) == i
  {
    DownReachesOn(s, tolerance, e, i, e - 1);
    DownStops(s, tolerance, e, i, e - 1);
  }

  /** The pass from above starts its cluster no later, and at the same price exactly when the tops are apart. */
  lemma {:induction false} StartsCompare(s: seq<real>, tolerance: real, e: nat)
    requires 0 < e <= |s| && Sorted(s)
    ensures var b, d := UpStart(s, tolerance, e), DownStart(s, tolerance, e, e - 1);
            d <= b && (d == b <==> b == 0 || Abs(s[e - 1] - s[b - 1]) > tolerance)
  {
    hide UpStart, DownStart, Sorted;
    var b, d := UpStart(s, tolerance, e), DownStart(s, tolerance, e, e - 1);
    ClusterInReach(s, tolerance, e);
    DownReachesOn(s, tolerance, e, b, e - 1);
    if b == 0 || Abs(s[e - 1] - s[b - 1]) > tolerance {
      DownIsReach(s, tolerance, e, b);
    } else {
      assert d != b;
    }
  }

  lemma {:induction false} DownReachesOn(s: seq<real>, tolerance: real, e: nat, b: nat, i: nat)
    requires b <= i < e <= |s|
    requires forall k :: b <= k < i ==> Abs(s[k] - s[e - 1]) <= tolerance
    ensures DownStart(s, tolerance, e, i) <= b
  {
    if b < i {
      DownReachesOn(s, tolerance, e, b, i - 1);
    }
  }

  /** The whole cluster of a price is within reach of that price. */
  lemma {:induction false} ClusterInReach(s: seq<real>, tolerance: real, e: nat)
    requires 0 < e <= |s| && Sorted(s)
    ensures forall k :: UpStart(s, tolerance, e) <= k < e - 1 ==> Abs(s[k] - s[e - 1]) <= tolerance
  {
    var b := UpStart(s, tolerance, e);
    UpStartReach(s, tolerance, e);
    hide UpStart;
    forall k | b <= k < e - 1
      ensures Abs(s[k] - s[e - 1]) <= tolerance
    {
      assert s[b] <= s[k] <= s[e - 1];
    }
  }

  // ----- Where they disagree, so do the levels ------------------------------

  /** Every level of the pass from below over the first e prices is at most the price e - 1. */
  lemma {:induction false} UpLevelsBelow(s: seq<real>, tolerance: real, e: nat)
    requires 0 < e <= |s| && Sorted(s)
    ensures forall a :: 0 <= a < |UpLevels(s, tolerance, e)| ==> UpLevels(s, tolerance, e)[a] <= s[e - 1]
  {
    var b := UpStart(s, tolerance, e);
    AverageBounds(s[b..e], s[b], s[e - 1]);
    hide Average;
    if b > 0 {
      UpLevelsBelow(s, tolerance, b);
    } else {
      assert UpLevels(s, tolerance, 0) == [];
    }
  }

  lemma Cancel(x: real, y: real, n: real)
    requires n > 0.0
    ensures Times(n, x) <= Times(n, y) ==> x <= y
    ensures Times(n, x) < Times(n, y) ==> x < y
    ensures x < y ==> Times(n, x) < Times(n, y)
  {
    hide Times;
    if x < y {
      TimesPositive(n, y - x);
      TimesSum(n, y, -x);
      TimesNegative(n, x);
    } else {
      TimesGrows(n, y, x);
      if y < x {
        TimesPositive(n, x - y);
        TimesSum(n, x, -y);
        TimesNegative(n, y);
      }
    }
  }

  lemma Total(total: real, n: real)
    requires n > 0.0
    ensures Times(n, total / n) == total
  {
  }

  lemma TimesCount(x: real, n: real, m: real)
    ensures Times(n + m, x) == Times(n, x) + Times(m, x)
  {
  }

  /** A total a of n numbers, each at most lo, and b of m numbers, each at least hi > lo: the average of all
      lies strictly between both averages. */
  lemma MixedAverage(a: real, n: real, b: real, m: real, lo: real, hi: real)
    requires n > 0.0 && m > 0.0 && lo < hi
    requires a <= Times(n, lo) && Times(m, hi) <= b
    ensures a / n < (a + b) / (n + m) < b / m
  {
    var x, y, z := a / n, b / m, (a + b) / (n + m);
    Total(a, n);
    Total(b, m);
    Total(a + b, n + m);
    hide Times;
    Cancel(x, lo, n);
    Cancel(hi, y, m);
    TimesCount(x, n, m);
    TimesCount(y, n, m);
    Cancel(x, y, m);
    Cancel(x, y, n);
    Cancel(x, z, n + m);
    Cancel(z, y, n + m);
  }

  /** The average of two neighbouring stretches, when the price rises from one to the other, lies strictly
      between theirs. */
  lemma {:induction false} JoinedAverage(s: seq<real>, i: nat, j: nat, k: nat)
    requires Sorted(s) && i < j < k <= |s| && s[j - 1] < s[j]
    ensures Average(s[i..j]) < Average(s[i..k]) < Average(s[j..k])
  {
    assert s[i..j] + s[j..k] == s[i..k];
    SumJoin(s[i..j], s[j..k]);
    StretchBounds(s, i, j);
    StretchBounds(s, j, k);
    var n, m := (j - i) as real, (k - j) as real;
    assert (k - i) as real == n + m;
    hide Sum, Sorted, Times;
    MixedAverage(Sum(s[i..j]), n, Sum(s[j..k]), m, s[j - 1], s[j]);
  }

  lemma StretchBounds(s: seq<real>, i: nat, j: nat)
    requires Sorted(s) && i < j <= |s|
    ensures Times((j - i) as real, s[i]) <= Sum(s[i..j]) <= Times((j - i) as real, s[j - 1])
  {
    SumBounds(s[i..j], s[i], s[j - 1]);
    hide Sum;
  }

  lemma {:induction false} RisesAtCut(s: seq<real>, tolerance: real, b: nat)
    requires Sorted(s) && 0 < b < |s| && UpStart(s, tolerance, b + 1) == b && tolerance >= 0.0
    ensures s[b - 1] < s[b]
    ensures Abs(s[b] - s[UpStart(s, tolerance, b)]) > tolerance
  {
    UpStartReach(s, tolerance, b);
    var b' := UpStart(s, tolerance, b);
    assert b - 1 > b' ==> Abs(s[b - 1] - s[b']) <= tolerance;
  }

  lemma {:induction false} StartOfStart(s: seq<real>, tolerance: real, e: nat)
    requires 0 < e <= |s|
    ensures var b := UpStart(s, tolerance, e); UpStart(s, tolerance, b + 1) == b
  {
    if e > 1 && UpStart(s, tolerance, e) != e - 1 {
      StartOfStart(s, tolerance, e - 1);
    }
  }

  /** The levels differ already at their last one. */
  lemma {:induction false} LastLevelsDiffer(s: seq<real>, tolerance: real, e: nat)
    requires 0 < e <= |s| && Sorted(s)
    requires DownStart(s, tolerance, e, e - 1) < UpStart(s, tolerance, e)
    ensures UpLevels(s, tolerance, e) != DownLevels(s, tolerance, e)
  {
    hide UpLevels, DownLevels, UpStart, DownStart, Average, Sorted, Abs;
    var b, d := UpStart(s, tolerance, e), DownStart(s, tolerance, e, e - 1);
    StartOfStart(s, tolerance, e);
    LastDown(s, tolerance, e);
    RisesAtCut(s, tolerance, b);
    LastUp(s, tolerance, e);
    if e - b >= 2 {
      JoinedAverage(s, d, b, e);
    } else {
      StartInside(s, tolerance, b, d);
      ShiftedAverage(s, tolerance, d, b);
    }
  }

  lemma LastDown(s: seq<real>, tolerance: real, e: nat)
    requires 0 < e <= |s|
    ensures var d := DownStart(s, tolerance, e, e - 1);
            var down := DownLevels(s, tolerance, e);
            d <= e - 2 ==> down != [] && down[|down| - 1] == Average(s[d..e]) && tolerance >= 0.0
  {
    hide Average;
  }

  lemma LastUp(s: seq<real>, tolerance: real, e: nat)
    requires 0 < e <= |s|
    ensures var b := UpStart(s, tolerance, e);
            var up := UpLevels(s, tolerance, e);
            if e - b >= 2 then up != [] && up[|up| - 1] == Average(s[b..e]) else up == UpLevels(s, tolerance, b)
  {
    hide Average;
  }

  /** The cluster before the cut at b averages less than the one that a pass from above makes of the price b. */
  lemma {:induction false} ShiftedAverage(s: seq<real>, tolerance: real, d: nat, b: nat)
    requires Sorted(s) && 0 < b < |s| && d < b && s[b - 1] < s[b]
    requires UpStart(s, tolerance, b) < d && s[d - 1] < s[d]
    ensures var up := UpLevels(s, tolerance, b); up != [] && up[|up| - 1] < Average(s[d..b + 1])
  {
    var up := UpLevels(s, tolerance, b);
    var b' := UpStart(s, tolerance, b);
    hide Average, Sorted, UpLevels;
    LastUp(s, tolerance, b);
    JoinedAverage(s, b', d, b);
    JoinedAverage(s, d, b, b + 1);
  }

  /** Reaching down from the price b, a new cluster's first, ends strictly inside the cluster before. */
  lemma {:induction false} StartInside(s: seq<real>, tolerance: real, b: nat, d: nat)
    requires Sorted(s) && 0 < b < |s| && d < b
    requires d == DownStart(s, tolerance, b + 1, b)
    requires Abs(s[b] - s[UpStart(s, tolerance, b)]) > tolerance
    ensures UpStart(s, tolerance, b) < d && s[d - 1] < s[d]
  {
    var b' := UpStart(s, tolerance, b);
    assert Abs(s[d] - s[b]) <= tolerance;
    assert d > 0 ==> Abs(s[d - 1] - s[b]) > tolerance;
    assert s[b'] < s[d];
    StrictOrder(s, b', d);
  }

  lemma SameTail(x: seq<real>, y: seq<real>, z: seq<real>)
    ensures x + z == y + z <==> x == y
  {
    if x + z == y + z {
      assert x == (x + z)[..|x|] && y == (y + z)[..|y|];
    }
  }

  /** Both passes find the same levels if and only if the tops of neighbouring clusters are apart. */
  lemma {:induction false} PassesAgreeIff(s: seq<real>, tolerance: real, e: nat)
    requires e <= |s| && Sorted(s)
    ensures UpLevels(s, tolerance, e) == DownLevels(s, tolerance, e) <==> TopsApart(s, tolerance, e)
  {
    if e > 0 {
      StartsCompare(s, tolerance, e);
      var b, d := UpStart(s, tolerance, e), DownStart(s, tolerance, e, e - 1);
      if d == b {
        PassesAgreeIff(s, tolerance, b);
        hide LevelOf, Sorted;
        SameTail(UpLevels(s, tolerance, b), DownLevels(s, tolerance, b), LevelOf(s, b, e));
      } else {
        LastLevelsDiffer(s, tolerance, e);
      }
    }
  }

  lemma ReflectInjective(a: seq<real>, b: seq<real>)
    ensures Reflect(a) == Reflect(b) <==> a == b
  {
    assert Reflect(Reflect(a)) == a && Reflect(Reflect(b)) == b;
  }

  /** Clustering commutes with reflection if and only if, in the clusters of the sorted prices, each one's top
      lies out of reach of the top of the cluster before it. */
  lemma {:induction false} ReflectionExact(prices: seq<real>, tolerance: real)
    ensures EqualLevels(Negated(prices), tolerance) == Reflect(EqualLevels(prices, tolerance))
       <==> TopsApart(Sort(prices), tolerance, |Sort(prices)|)
  {
    hide Sort, EqualLevels, UpLevels, DownLevels, Reflect, TopsApart, Negated;
    var s := Sort(prices);
    BothPasses(prices, tolerance);
    PassesAgreeIff(s, tolerance, |s|);
    ReflectInjective(UpLevels(s, tolerance, |s|), DownLevels(s, tolerance, |s|));
  }

  /** The levels are those of the pass from below, and of the negated prices those of the pass from above, reflected. */
  lemma {:induction false} BothPasses(prices: seq<real>, tolerance: real)
    ensures var s := Sort(prices);
            && EqualLevels(prices, tolerance) == UpLevels(s, tolerance, |s|)
            && EqualLevels(Negated(prices), tolerance) == Reflect(DownLevels(s, tolerance, |s|))
  {
    hide Sort, LevelsFrom, UpLevels, DownLevels, Reflect, Negated;
    var s := Sort(prices);
    SortNegated(prices);
    LevelsReflected(s, tolerance, |s|);
    UpIsLevels(s, tolerance);
  }

  // ----- A simpler condition that is enough ---------------------------------

  /** Two prices apart from each other, both within reach of one in between. */
  ghost predicate IsChain(x: real, y: real, z: real, tolerance: real) {
    x < y < z && y - x <= tolerance && z - y <= tolerance && z - x > tolerance
  }

  lemma {:induction false} NoChainTopsApart(s: seq<real>, tolerance: real, e: nat)
    requires e <= |s| && Sorted(s)
    requires forall i, j, k :: 0 <= i < j < k < |s| ==> !IsChain(s[i], s[j], s[k], tolerance)
    ensures TopsApart(s, tolerance, e)
  {
    if e > 0 {
      var b := UpStart(s, tolerance, e);
      NoChainTopsApart(s, tolerance, b);
      hide TopsApart, UpStart, IsChain, Abs, Sorted;
      if b > 0 {
        ReachIsChain(s, tolerance, e);
        var b' := UpStart(s, tolerance, b);
        assert b' < b - 1 ==> !IsChain(s[b'], s[b - 1], s[b], tolerance);
      }
      TopsApartStep(s, tolerance, e);
    }
  }

  lemma TopsApartStep(s: seq<real>, tolerance: real, e: nat)
    requires 0 < e <= |s|
    ensures var b := UpStart(s, tolerance, e);
            TopsApart(s, tolerance, e) <==>
              (b == 0 || Abs(s[e - 1] - s[b - 1]) > tolerance) && TopsApart(s, tolerance, b)
  {
    hide UpStart, Abs;
  }

  lemma {:induction false} ReachIsChain(s: seq<real>, tolerance: real, e: nat)
    requires 0 < e <= |s| && Sorted(s) && UpStart(s, tolerance, e) > 0
    ensures var b := UpStart(s, tolerance, e);
            var b' := UpStart(s, tolerance, b);
            Abs(s[e - 1] - s[b - 1]) <= tolerance ==> b' < b - 1 && IsChain(s[b'], s[b - 1], s[b], tolerance)
  {
    var b := UpStart(s, tolerance, e);
    if Abs(s[e - 1] - s[b - 1]) <= tolerance {
      StartOfStart(s, tolerance, e);
      RisesAtCut(s, tolerance, b);
      UpStartReach(s, tolerance, b);
      var b' := UpStart(s, tolerance, b);
      assert s[b'] <= s[b - 1] < s[b] <= s[e - 1];
    }
  }

  /** So it does whenever no price lies within reach of two that are out of reach of each other. */
  lemma {:induction false} ReflectionWithoutChains(prices: seq<real>, tolerance: real)
    requires forall x, y, z :: x in prices && y in prices && z in prices ==> !IsChain(x, y, z, tolerance)
    ensures EqualLevels(Negated(prices), tolerance) == Reflect(EqualLevels(prices, tolerance))
  {
    ReflectionExact(prices, tolerance);
    var s := Sort(prices);
    forall i | 0 <= i < |s| ensures s[i] in prices {
      assert s[i] in multiset(s);
    }
    hide Sort, EqualLevels;
    NoChainTopsApart(s, tolerance, |s|);
  }

  /** The smallest chain is a counterexample: of three equidistant prices the lower two form the level, of their
      negatives again the lower two, which are the other pair. */
  lemma {:induction false} LowerPairWins(s: seq<real>, tolerance: real)
    requires |s| == 3 && tolerance > 0.0
    requires s[1] == s[0] + tolerance && s[2] == s[1] + tolerance
    ensures EqualLevels(s, tolerance) == [s[0] + tolerance / 2.0]
    ensures EqualLevels(Negated(s), tolerance) == [-(s[1] + tolerance / 2.0)]
    ensures EqualLevels(Negated(s), tolerance) != Reflect(EqualLevels(s, tolerance))
  {
    hide EqualLevels, LevelsFrom, Negated, Reflect;
    TripleSorted(s, tolerance);
    TripleReflected(s, tolerance);
    TripleLevels(s, tolerance);
    TripleLevels(Reflect(s), tolerance);
  }

  lemma TripleReflected(s: seq<real>, tolerance: real)
    requires |s| == 3 && tolerance > 0.0
    requires s[1] == s[0] + tolerance && s[2] == s[1] + tolerance
    ensures var r := Reflect(s);
            |r| == 3 && r[1] == r[0] + tolerance && r[2] == r[1] + tolerance
            && r[0] + tolerance / 2.0 == -(s[1] + tolerance / 2.0)
    ensures Reflect([s[0] + tolerance / 2.0]) == [-(s[0] + tolerance / 2.0)]
    ensures -(s[1] + tolerance / 2.0) != -(s[0] + tolerance / 2.0)
  {
  }

  lemma TripleSorted(s: seq<real>, tolerance: real)
    requires |s| == 3 && tolerance > 0.0
    requires s[1] == s[0] + tolerance && s[2] == s[1] + tolerance
    ensures EqualLevels(s, tolerance) == LevelsFrom(s, tolerance, 0)
    ensures EqualLevels(Negated(s), tolerance) == LevelsFrom(Reflect(s), tolerance, 0)
  {
    assert Sorted(s);
    hide Sort, LevelsFrom;
    SortedUnique(Sort(s), s);
    SortNegated(s);
  }

  lemma {:induction false} TripleLevels(s: seq<real>, tolerance: real)
    requires |s| == 3 && tolerance > 0.0
    requires s[1] == s[0] + tolerance && s[2] == s[1] + tolerance
    ensures LevelsFrom(s, tolerance, 0) == [s[0] + tolerance / 2.0]
  {
    assert ClusterEnd(s, tolerance, 0, 1) == 2;
    assert ClusterEnd(s, tolerance, 2, 3) == 3;
    assert LevelsFrom(s, tolerance, 2) == [];
    var c := s[0..2];
    assert c[..1] == [s[0]];
    assert Sum([s[0]]) == s[0] by {
      assert [s[0]][..0] == [];
    }
    assert Sum(c) == s[0] + s[1];
  }
}
