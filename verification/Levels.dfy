/** Greedy clustering of equal highs and lows (scoring/hlcp/liquidity_mapper.py). */
module Levels {
  import opened Market

  const EQUAL_LEVEL_TOLERANCE := 0.0003
  const MAX_VOID_DISTANCE_ATR := 3.0

  ghost predicate Sorted(s: seq<real>) {
    forall i, j :: 0 <= i <= j < |s| ==> s[i] <= s[j]
  }

  // ----- Python's sorted ----------------------------------------------------

  function Insert(x: real, s: seq<real>): (r: seq<real>)
    requires Sorted(s)
    ensures Sorted(r) && multiset(r) == multiset(s) + multiset{x}
  {
    if s == [] then [x]
    else
      var n := |s| - 1;
      assert s == s[..n] + [s[n]];
      if s[n] <= x then s + [x]
      else
        var front := Insert(x, s[..n]);
        SortedSnoc(front, s[..n], x, s[n]);
        front + [s[n]]
  }

  lemma SortedSnoc(front: seq<real>, s: seq<real>, x: real, last: real)
    requires Sorted(front) && multiset(front) == multiset(s) + multiset{x}
    requires x <= last && forall i :: 0 <= i < |s| ==> s[i] <= last
    ensures Sorted(front + [last])
  {
    forall i | 0 <= i < |front|
      ensures front[i] <= last
    {
      assert front[i] in multiset(front);
    }
  }

  function Sort(s: seq<real>): (r: seq<real>)
    ensures Sorted(r) && multiset(r) == multiset(s)
  {
    if s == [] then []
    else
      assert s == s[..|s| - 1] + [s[|s| - 1]];
      Insert(s[|s| - 1], Sort(s[..|s| - 1]))
  }

  lemma {:induction false} SortedUnique(a: seq<real>, b: seq<real>)
    requires Sorted(a) && Sorted(b) && multiset(a) == multiset(b)
    ensures a == b
  {
    assert |a| == |multiset(a)| == |multiset(b)| == |b|;
    if a != [] {
      var n := |a| - 1;
      SameGreatest(a, b);
      WithoutLast(a);
      WithoutLast(b);
      hide Sorted;
      SortedUnique(a[..n], b[..n]);
    }
  }

  lemma SameGreatest(a: seq<real>, b: seq<real>)
    requires Sorted(a) && Sorted(b) && multiset(a) == multiset(b) && a != [] && b != []
    ensures a[|a| - 1] == b[|b| - 1]
  {
    assert a[|a| - 1] in multiset(b) && b[|b| - 1] in multiset(a);
  }

  lemma WithoutLast(a: seq<real>)
    requires a != []
    ensures multiset(a[..|a| - 1]) == multiset(a) - multiset{a[|a| - 1]}
    ensures a == a[..|a| - 1] + [a[|a| - 1]]
    ensures Sorted(a) ==> Sorted(a[..|a| - 1])
  {
    assert a == a[..|a| - 1] + [a[|a| - 1]];
  }

  // ----- Clusters -----------------------------------------------------------

  function Sum(s: seq<real>): real {
    if s == [] then 0.0 else Sum(s[..|s| - 1]) + s[|s| - 1]
  }

  function Average(s: seq<real>): real
    requires s != []
  {
    Sum(s) / (|s| as real)
  }

  /** First position at or after j whose price is out of reach of the cluster that starts at i. */
  function ClusterEnd(s: seq<real>, tolerance: real, i: nat, j: nat): (r: nat)
    requires i < j <= |s|
    ensures j <= r <= |s|
    ensures forall k :: j <= k < r ==> Abs(s[k] - s[i]) <= tolerance
    ensures r < |s| ==> Abs(s[r] - s[i]) > tolerance
    decreases |s| - j
  {
    if j < |s| && Abs(s[j] - s[i]) <= tolerance then ClusterEnd(s, tolerance, i, j + 1) else j
  }

  /** The level of one cluster, if it is one. */
  function LevelOf(s: seq<real>, b: nat, e: nat): seq<real>
    requires b < e <= |s|
  {
    if e - b >= 2 then [Average(s[b..e])] else []
  }

  /** Levels of the clusters from position i on. */
  function LevelsFrom(s: seq<real>, tolerance: real, i: nat): seq<real>
    requires i <= |s|
    decreases |s| - i
  {
    if i == |s| then []
    else
      var j := ClusterEnd(s, tolerance, i, i + 1);
      LevelOf(s, i, j) + LevelsFrom(s, tolerance, j)
  }

  function EqualLevels(prices: seq<real>, tolerance: real): seq<real> {
    LevelsFrom(Sort(prices), tolerance, 0)
  }

  /** The levels from i on, one cluster at a time, behind whatever was found before. */
  lemma OneCluster(s: seq<real>, tolerance: real, i: nat, before: seq<real>)
    requires i < |s|
    ensures var j := ClusterEnd(s, tolerance, i, i + 1);
            before + LevelsFrom(s, tolerance, i)
            == (if j - i >= 2 then before + [Average(s[i..j])] else before) + LevelsFrom(s, tolerance, j)
  {
    hide Average, ClusterEnd, LevelsFrom;
    LevelsFromStep(s, tolerance, i);
  }

  lemma LevelsFromStep(s: seq<real>, tolerance: real, i: nat)
    requires i < |s|
    ensures var j := ClusterEnd(s, tolerance, i, i + 1);
            LevelsFrom(s, tolerance, i) == LevelOf(s, i, j) + LevelsFrom(s, tolerance, j)
  {
    hide Average, ClusterEnd;
  }

  lemma ClusterEndStep(s: seq<real>, tolerance: real, i: nat, j: nat)
    requires i < j <= |s|
    ensures ClusterEnd(s, tolerance, i, j)
         == if j < |s| && Abs(s[j] - s[i]) <= tolerance then ClusterEnd(s, tolerance, i, j + 1) else j
  {
  }

  lemma NoClusterLeft(s: seq<real>, tolerance: real, before: seq<real>)
    ensures before + LevelsFrom(s, tolerance, |s|) == before
  {
  }

  method FindEqualLevels(prices: seq<real>, tolerance: real) returns (clusters: seq<real>)
    ensures clusters == EqualLevels(prices, tolerance)
  {
    hide Sort, Sum, LevelsFrom, LevelOf, ClusterEnd, Sorted, Abs;
    clusters := [];
    var sorted := Sort(prices);
    var i := 0;
    while i < |sorted|
      invariant i <= |sorted|
      invariant clusters + LevelsFrom(sorted, tolerance, i) == LevelsFrom(sorted, tolerance, 0)
    {
      OneCluster(sorted, tolerance, i, clusters);
      var cluster := [sorted[i]];
      var j := i + 1;
      while j < |sorted| && Abs(sorted[j] - sorted[i]) <= tolerance
        invariant i < j <= |sorted|
        invariant cluster == sorted[i..j]
        invariant ClusterEnd(sorted, tolerance, i, j) == ClusterEnd(sorted, tolerance, i, i + 1)
      {
        ClusterEndStep(sorted, tolerance, i, j);
        cluster := cluster + [sorted[j]];
        j := j + 1;
      }
      ClusterEndStep(sorted, tolerance, i, j);
      if |cluster| >= 2 {
        clusters := clusters + [Sum(cluster) / (|cluster| as real)];
      }
      i := j;
    }
    NoClusterLeft(sorted, tolerance, clusters);
  }

  // ----- Averages stay inside their cluster ---------------------------------

  lemma {:induction false} SumBounds(s: seq<real>, lo: real, hi: real)
    requires forall i :: 0 <= i < |s| ==> lo <= s[i] <= hi
    ensures lo * (|s| as real) <= Sum(s) <= hi * (|s| as real)
  {
    if s != [] {
      var n := |s| - 1;
      SumBounds(s[..n], lo, hi);
      assert lo * (|s| as real) == lo * (n as real) + lo;
      assert hi * (|s| as real) == hi * (n as real) + hi;
    }
  }

  lemma QuotientBounds(total: real, n: real, lo: real, hi: real)
    requires n > 0.0 && lo * n <= total <= hi * n
    ensures lo <= total / n <= hi
  {
    var q := total / n;
    assert q * n == total;
  }

  lemma AverageBounds(s: seq<real>, lo: real, hi: real)
    requires s != []
    requires forall i :: 0 <= i < |s| ==> lo <= s[i] <= hi
    ensures lo <= Average(s) <= hi
  {
    SumBounds(s, lo, hi);
    QuotientBounds(Sum(s), |s| as real, lo, hi);
  }

  /** The level of a cluster lies between its first and its last price. */
  lemma ClusterLevel(s: seq<real>, tolerance: real, i: nat, j: nat)
    requires Sorted(s) && i < j <= |s| && j == ClusterEnd(s, tolerance, i, i + 1)
    ensures s[i] <= Average(s[i..j]) <= s[j - 1]
    ensures forall k :: i < k < j ==> s[k] - s[i] <= tolerance
  {
    AverageBounds(s[i..j], s[i], s[j - 1]);
    forall k | i < k < j
      ensures s[k] - s[i] <= tolerance
    {
      assert Abs(s[k] - s[i]) <= tolerance;
    }
  }

  // ----- Increasing, sound, complete ----------------------------------------

  ghost predicate Increasing(r: seq<real>) {
    forall a, b :: 0 <= a < b < |r| ==> r[a] < r[b]
  }

  ghost predicate AllFrom(r: seq<real>, lo: real) {
    forall a :: 0 <= a < |r| ==> lo <= r[a]
  }

  lemma {:induction false} LevelsIncrease(s: seq<real>, tolerance: real, i: nat)
    requires Sorted(s) && i <= |s|
    ensures var r := LevelsFrom(s, tolerance, i);
            Increasing(r) && if i < |s| then AllFrom(r, s[i]) else r == []
    decreases |s| - i
  {
    if i < |s| {
      var j := ClusterEnd(s, tolerance, i, i + 1);
      LevelsIncrease(s, tolerance, j);
      ClusterLevel(s, tolerance, i, j);
      NextIsFar(s, tolerance, i);
      LevelsFromStep(s, tolerance, i);
      hide LevelsFrom, ClusterEnd, Average, Increasing, AllFrom, Sorted;
      PutBefore(LevelOf(s, i, j), LevelsFrom(s, tolerance, j), s[i], if j < |s| then s[j] else s[j - 1] + 1.0);
    }
  }

  /** The cluster's prices lie between its first price and the first of the next cluster. */
  lemma NextIsFar(s: seq<real>, tolerance: real, i: nat)
    requires Sorted(s) && i < |s|
    ensures var j := ClusterEnd(s, tolerance, i, i + 1);
            s[i] <= s[j - 1] && (j < |s| ==> s[i] <= s[j] && (j - i >= 2 ==> s[j - 1] < s[j]))
  {
    var j := ClusterEnd(s, tolerance, i, i + 1);
    hide ClusterEnd;
    assert j - i >= 2 ==> Abs(s[j - 1] - s[i]) <= tolerance;
  }

  /** At most one level, from lo on and below hi, before levels from hi on. */
  lemma PutBefore(level: seq<real>, rest: seq<real>, lo: real, hi: real)
    requires |level| <= 1 && (level != [] ==> lo <= level[0] < hi) && lo <= hi
    requires Increasing(rest) && (rest == [] || AllFrom(rest, hi))
    ensures Increasing(level + rest) && AllFrom(level + rest, lo)
  {
    if level != [] {
      assert level + rest == [level[0]] + rest;
    } else {
      assert level + rest == rest;
    }
  }

  /** A level is the average of at least two prices, all within the tolerance of it. */
  ghost predicate IsLevelOf(level: real, group: seq<real>, tolerance: real) {
    && |group| >= 2
    && level == Average(group)
    && forall k :: 0 <= k < |group| ==> Abs(group[k] - level) <= tolerance
  }

  lemma {:induction false} LevelsSound(s: seq<real>, tolerance: real, i: nat, level: real) returns (a: nat, b: nat)
    requires Sorted(s) && i <= |s| && level in LevelsFrom(s, tolerance, i)
    ensures i <= a < b <= |s| && IsLevelOf(level, s[a..b], tolerance)
    decreases |s| - i
  {
    var j := ClusterEnd(s, tolerance, i, i + 1);
    if j - i >= 2 && level == Average(s[i..j]) {
      a, b := i, j;
      ClusterLevel(s, tolerance, i, j);
      assert s[j - 1] - s[i] <= tolerance;
      forall k | 0 <= k < j - i
        ensures Abs(s[i..j][k] - level) <= tolerance
      {
        assert s[i] <= s[i + k] <= s[j - 1];
      }
    } else {
      a, b := LevelsSound(s, tolerance, j, level);
    }
  }

  /** A cluster of one is alone: nothing after it is within the tolerance. */
  lemma NextIsClose(s: seq<real>, tolerance: real, i: nat, b: nat)
    requires Sorted(s) && i < b < |s| && s[b] - s[i] <= tolerance
    ensures ClusterEnd(s, tolerance, i, i + 1) > i + 1
  {
    assert s[i] <= s[i + 1] <= s[b];
  }

  lemma ClusterCovers(s: seq<real>, tolerance: real, i: nat, j: nat, a: nat)
    requires Sorted(s) && i <= a < j <= |s| && j == ClusterEnd(s, tolerance, i, i + 1)
    ensures Abs(Average(s[i..j]) - s[a]) <= tolerance || j == i + 1
  {
    hide Average;
    ClusterLevel(s, tolerance, i, j);
    if j > i + 1 {
      assert s[j - 1] - s[i] <= tolerance;
    }
  }

  /** Any two prices within the tolerance give a level within the tolerance of the lower one. */
  lemma {:induction false} LevelsComplete(s: seq<real>, tolerance: real, i: nat, a: nat, b: nat) returns (level: real)
    requires Sorted(s) && i <= a < b < |s| && s[b] - s[a] <= tolerance
    ensures level in LevelsFrom(s, tolerance, i) && Abs(level - s[a]) <= tolerance
    decreases |s| - i
  {
    hide Average, Sorted;
    var j := ClusterEnd(s, tolerance, i, i + 1);
    if j <= a {
      level := LevelsComplete(s, tolerance, j, a, b);
    } else {
      ClusterCovers(s, tolerance, i, j, a);
      if a == i {
        NextIsClose(s, tolerance, i, b);
      }
      level := Average(s[i..j]);
    }
  }

  // ----- The same, for the prices as given ----------------------------------

  lemma {:induction false} CountTwo(s: seq<real>, x: real) returns (a: nat, b: nat)
    requires multiset(s)[x] >= 2
    ensures a < b < |s| && s[a] == x && s[b] == x
  {
    var n := |s| - 1;
    assert s == s[..n] + [s[n]];
    if s[n] == x {
      assert multiset(s[..n])[x] >= 1;
      assert x in s[..n];
      a :| 0 <= a < n && s[..n][a] == x;
      b := n;
    } else {
      a, b := CountTwo(s[..n], x);
    }
  }

  /** Two prices of the input appear, in order, at two positions of the sorted list. */
  lemma {:induction false} SortedPositions(prices: seq<real>, x: real, y: real) returns (a: nat, b: nat)
    requires multiset{x, y} <= multiset(prices) && x <= y
    ensures a < b < |Sort(prices)| && Sort(prices)[a] == x && Sort(prices)[b] == y
  {
    hide Sort;
    var s := Sort(prices);
    if x == y {
      TwiceInside(multiset(s), x);
      a, b := CountTwo(s, x);
    } else {
      BothInside(multiset(s), x, y);
      a :| 0 <= a < |s| && s[a] == x;
      b :| 0 <= b < |s| && s[b] == y;
    }
  }

  lemma TwiceInside(m: multiset<real>, x: real)
    requires multiset{x, x} <= m
    ensures m[x] >= 2
  {
    assert multiset{x, x}[x] == 2;
  }

  lemma BothInside(m: multiset<real>, x: real, y: real)
    requires multiset{x, y} <= m
    ensures x in m && y in m
  {
    assert x in multiset{x, y} && y in multiset{x, y};
  }

  /** Any two inputs within the tolerance of each other yield a level within the tolerance of the lower one. */
  lemma {:induction false} EqualLevelsComplete(prices: seq<real>, tolerance: real, x: real, y: real) returns (level: real)
    requires multiset{x, y} <= multiset(prices) && x <= y <= x + tolerance
    ensures level in EqualLevels(prices, tolerance) && Abs(level - x) <= tolerance
  {
    var a, b := SortedPositions(prices, x, y);
    level := LevelsComplete(Sort(prices), tolerance, 0, a, b);
  }

  lemma {:induction false} LevelGroup(prices: seq<real>, tolerance: real, level: real) returns (group: seq<real>)
    requires level in EqualLevels(prices, tolerance)
    ensures multiset(group) <= multiset(prices) && IsLevelOf(level, group, tolerance)
  {
    var s := Sort(prices);
    var a, b := LevelsSound(s, tolerance, 0, level);
    hide Sort, LevelsFrom, IsLevelOf, Sorted;
    group := s[a..b];
    SliceInside(s, a, b);
  }

  lemma SliceInside(s: seq<real>, a: nat, b: nat)
    requires a <= b <= |s|
    ensures multiset(s[a..b]) <= multiset(s)
  {
    assert s == s[..a] + s[a..b] + s[b..];
  }

  /** Levels come out strictly increasing, and each averages at least two inputs all within tolerance of it. */
  lemma {:induction false} EqualLevelsSound(prices: seq<real>, tolerance: real)
    ensures var r := EqualLevels(prices, tolerance);
            && Increasing(r)
            && (forall level :: level in r ==>
                  exists group :: multiset(group) <= multiset(prices) && IsLevelOf(level, group, tolerance))
  {
    LevelsIncrease(Sort(prices), tolerance, 0);
    assert Increasing(EqualLevels(prices, tolerance));
    hide EqualLevels, IsLevelOf, Increasing;
    forall level | level in EqualLevels(prices, tolerance)
      ensures exists group :: multiset(group) <= multiset(prices) && IsLevelOf(level, group, tolerance)
    {
      var group := LevelGroup(prices, tolerance, level);
    }
  }

  // ----- The nearest level beyond the price ---------------------------------

  datatype LiquidityMap = LiquidityMap(voidNearby: bool, directionMatch: bool, nearestLevel: real, distanceAtr: real)

  const NO_LIQUIDITY := LiquidityMap(false, false, 0.0, 999.0)

  predicate Beyond(level: real, price: real, direction: Direction) {
    match direction
    case Long => level > price
    case Short => level < price
  }

  function Targets(levels: seq<real>, price: real, direction: Direction): seq<real> {
    if levels == [] then []
    else
      var n := |levels| - 1;
      Targets(levels[..n], price, direction) + if Beyond(levels[n], price, direction) then [levels[n]] else []
  }

  /** Python's `min(..., key=distance)`. */
  function Nearest(targets: seq<real>, price: real): real
    requires targets != []
  {
    var n := |targets| - 1;
    if n == 0 then targets[0]
    else
      var best := Nearest(targets[..n], price);
      if Abs(targets[n] - price) < Abs(best - price) then targets[n] else best
  }

  function Extremes(bars: seq<Bar>, direction: Direction): (r: seq<real>)
    ensures |r| == |bars|
  {
    match direction
    case Long => seq(|bars|, i requires 0 <= i < |bars| => bars[i].high)
    case Short => seq(|bars|, i requires 0 <= i < |bars| => bars[i].low)
  }

  /** The levels the mapper works with: equal extremes of the last 50 bars. */
  function LevelsOf(m5: seq<Bar>, direction: Direction): seq<real> {
    EqualLevels(Extremes(LastN(m5, 50), direction), EQUAL_LEVEL_TOLERANCE)
  }

  function MapLiquidity(m5: seq<Bar>, price: real, atr5m: real, direction: Direction): LiquidityMap {
    if |m5| < 10 || atr5m == 0.0 then NO_LIQUIDITY
    else
      var levels := LevelsOf(m5, direction);
      var targets := Targets(levels, price, direction);
      if targets == [] then NO_LIQUIDITY
      else
        var nearest := Nearest(targets, price);
        var distance := Abs(nearest - price) / atr5m;
        LiquidityMap(distance <= MAX_VOID_DISTANCE_ATR, Beyond(nearest, price, direction), nearest, distance)
  }

  function ScoreLiquidity(liq: LiquidityMap): int {
    if !liq.voidNearby || !liq.directionMatch then 0
    else if liq.distanceAtr < 1.0 then 20
    else if liq.distanceAtr < 2.0 then 12
    else if liq.distanceAtr < 3.0 then 6
    else 0
  }

  lemma {:induction false} TargetsIff(levels: seq<real>, price: real, direction: Direction, level: real)
    ensures level in Targets(levels, price, direction) <==> level in levels && Beyond(level, price, direction)
  {
    if levels != [] {
      var n := |levels| - 1;
      TargetsIff(levels[..n], price, direction, level);
      assert level in levels <==> level in levels[..n] || level == levels[n];
    }
  }

  lemma {:induction false} NearestIsNearest(targets: seq<real>, price: real)
    requires targets != []
    ensures Nearest(targets, price) in targets
    ensures forall t :: t in targets ==> Abs(Nearest(targets, price) - price) <= Abs(t - price)
  {
    var n := |targets| - 1;
    if n > 0 {
      NearestIsNearest(targets[..n], price);
      assert forall t :: t in targets ==> t in targets[..n] || t == targets[n];
    }
  }

  /** The target, if any, is a level beyond the price and the nearest such level; there is none exactly
      when no level lies beyond the price. */
  ghost predicate IsTarget(levels: seq<real>, price: real, atr5m: real, direction: Direction, r: LiquidityMap)
    requires atr5m != 0.0
  {
    if r.directionMatch then
      && r.nearestLevel in levels && Beyond(r.nearestLevel, price, direction)
      && r.distanceAtr == Abs(r.nearestLevel - price) / atr5m
      && r.voidNearby == (r.distanceAtr <= 3.0)
      && forall level :: level in levels && Beyond(level, price, direction) ==>
           Abs(r.nearestLevel - price) <= Abs(level - price)
    else
      && r == NO_LIQUIDITY
      && forall level :: level in levels ==> !Beyond(level, price, direction)
  }

  lemma {:induction false} TargetExact(m5: seq<Bar>, price: real, atr5m: real, direction: Direction)
    ensures var r := MapLiquidity(m5, price, atr5m, direction);
            if |m5| < 10 || atr5m == 0.0 then r == NO_LIQUIDITY
            else IsTarget(LevelsOf(m5, direction), price, atr5m, direction, r)
  {
    hide LevelsOf;
    var levels := LevelsOf(m5, direction);
    var targets := Targets(levels, price, direction);
    forall level {
      TargetsIff(levels, price, direction, level);
    }
    hide Targets;
    if targets != [] {
      assert targets[0] in targets;
      NearestIsNearest(targets, price);
    }
  }

  lemma QuotientMono(x: real, y: real, d: real)
    requires d > 0.0 && x <= y
    ensures x / d <= y / d
  {
    assert (x / d) * d == x && (y / d) * d == y;
  }

  lemma {:induction false} LevelNear(m5: seq<Bar>, direction: Direction, x: real, y: real) returns (level: real)
    requires multiset{x, y} <= multiset(Extremes(LastN(m5, 50), direction))
    requires x <= y <= x + EQUAL_LEVEL_TOLERANCE
    ensures level in LevelsOf(m5, direction) && Abs(level - x) <= EQUAL_LEVEL_TOLERANCE
  {
    hide EqualLevels, Extremes, LastN;
    level := EqualLevelsComplete(Extremes(LastN(m5, 50), direction), EQUAL_LEVEL_TOLERANCE, x, y);
  }

  /** A level within the tolerance of x is no farther from the price than x plus the tolerance; and if x lies
      beyond the price by more than the tolerance, so does the level. */
  lemma CloseLevel(level: real, x: real, price: real, tolerance: real, direction: Direction)
    requires Abs(level - x) <= tolerance
    ensures Abs(level - price) <= Abs(x - price) + tolerance
    ensures Abs(x - price) > tolerance && Beyond(x, price, direction) ==> Beyond(level, price, direction)
  {
  }

  /** Two equal extremes form a level near them.  Whenever that level lies beyond the price there is a target no
      farther than it, and so no farther than they are, up to the tolerance; and it surely does when the lower
      extreme lies beyond the price by more than the tolerance. */
  lemma {:induction false} EqualExtremesPull(m5: seq<Bar>, price: real, atr5m: real, direction: Direction, x: real, y: real)
    returns (level: real)
    requires |m5| >= 10 && atr5m > 0.0
    requires multiset{x, y} <= multiset(Extremes(LastN(m5, 50), direction))
    requires x <= y <= x + EQUAL_LEVEL_TOLERANCE
    ensures level in LevelsOf(m5, direction) && Abs(level - x) <= EQUAL_LEVEL_TOLERANCE
    ensures Abs(x - price) > EQUAL_LEVEL_TOLERANCE && Beyond(x, price, direction) ==> Beyond(level, price, direction)
    ensures var r := MapLiquidity(m5, price, atr5m, direction);
            Beyond(level, price, direction) ==>
              && r.directionMatch && Beyond(r.nearestLevel, price, direction)
              && r.distanceAtr <= Abs(level - price) / atr5m <= (Abs(x - price) + EQUAL_LEVEL_TOLERANCE) / atr5m
  {
    hide LevelsOf, MapLiquidity, Extremes, LastN;
    level := LevelNear(m5, direction, x, y);
    TargetExact(m5, price, atr5m, direction);
    CloseLevel(level, x, price, EQUAL_LEVEL_TOLERANCE, direction);
    hide Beyond, Abs;
    var r := MapLiquidity(m5, price, atr5m, direction);
    if Beyond(level, price, direction) {
      QuotientMono(Abs(r.nearestLevel - price), Abs(level - price), atr5m);
      QuotientMono(Abs(level - price), Abs(x - price) + EQUAL_LEVEL_TOLERANCE, atr5m);
    }
  }

  /** That level, near enough beyond the price, also earns points: the nearer, the more. */
  lemma {:induction false} EqualExtremesScore(m5: seq<Bar>, price: real, atr5m: real, direction: Direction, x: real, y: real)
    returns (level: real)
    requires |m5| >= 10 && atr5m > 0.0
    requires multiset{x, y} <= multiset(Extremes(LastN(m5, 50), direction))
    requires x <= y <= x + EQUAL_LEVEL_TOLERANCE
    ensures level in LevelsOf(m5, direction) && Abs(level - x) <= EQUAL_LEVEL_TOLERANCE
    ensures Abs(x - price) > EQUAL_LEVEL_TOLERANCE && Beyond(x, price, direction) ==> Beyond(level, price, direction)
    ensures var score := ScoreLiquidity(MapLiquidity(m5, price, atr5m, direction));
            var distance := Abs(level - price) / atr5m;
            Beyond(level, price, direction) ==>
              && (distance < 3.0 ==> score >= 6)
              && (distance < 2.0 ==> score >= 12)
              && (distance < 1.0 ==> score == 20)
  {
    level := EqualExtremesPull(m5, price, atr5m, direction, x, y);
    TargetExact(m5, price, atr5m, direction);
    hide LevelsOf, MapLiquidity, Extremes, LastN, Beyond, Abs;
  }

  /** Without that distance there may be no target: two equal highs just above the price are averaged with four
      just below it. */
  lemma {:induction false} NearExtremesMayNotPull() returns (m5: seq<Bar>, x: real, y: real)
    ensures |m5| >= 10 && multiset{x, y} <= multiset(Extremes(LastN(m5, 50), Long))
    ensures 0.0 < x <= y <= x + EQUAL_LEVEL_TOLERANCE
    ensures MapLiquidity(m5, 0.0, 1.0, Long) == NO_LIQUIDITY
  {
    hide *;
    var highs := ExampleHighs();
    m5 := BarsWithHighs(highs);
    ExampleWithoutTarget(m5, highs);
    x, y := PairAt(Extremes(LastN(m5, 50), Long), highs);
  }

  lemma PairAt(extremes: seq<real>, highs: seq<real>) returns (x: real, y: real)
    requires extremes == highs && |highs| == 10
    ensures x == highs[4] && y == highs[5] && multiset{x, y} <= multiset(extremes)
  {
    x, y := extremes[4], extremes[5];
    PairInside(extremes, 4);
  }

  lemma ExampleWithoutTarget(m5: seq<Bar>, highs: seq<real>)
    requires |m5| >= 10 && IsExample(highs) && Extremes(LastN(m5, 50), Long) == highs
    ensures MapLiquidity(m5, 0.0, 1.0, Long) == NO_LIQUIDITY
  {
    hide *;
    ExampleLevels(highs);
    OneLevelBehind(m5, highs);
  }

  ghost predicate IsExample(s: seq<real>) {
    s == [-0.0001, -0.0001, -0.0001, -0.0001, 0.0001, 0.0002, 1.0, 2.0, 3.0, 4.0]
  }

  lemma ExampleHighs() returns (highs: seq<real>)
    ensures IsExample(highs) && |highs| == 10
    ensures 0.0 < highs[4] <= highs[5] <= highs[4] + EQUAL_LEVEL_TOLERANCE
  {
    highs := [-0.0001, -0.0001, -0.0001, -0.0001, 0.0001, 0.0002, 1.0, 2.0, 3.0, 4.0];
  }

  lemma {:induction false} BarsWithHighs(highs: seq<real>) returns (m5: seq<Bar>)
    requires |highs| <= 50
    ensures |m5| == |highs| && Extremes(LastN(m5, 50), Long) == highs
  {
    m5 := seq(|highs|, i requires 0 <= i < |highs| => Bar(0.0, highs[i], 0.0, 0.0, 0.0, 0));
    assert LastN(m5, 50) == m5;
  }

  lemma {:induction false} OneLevelBehind(m5: seq<Bar>, highs: seq<real>)
    requires |m5| >= 10 && Extremes(LastN(m5, 50), Long) == highs
    requires var levels := EqualLevels(highs, EQUAL_LEVEL_TOLERANCE); |levels| == 1 && levels[0] < 0.0
    ensures MapLiquidity(m5, 0.0, 1.0, Long) == NO_LIQUIDITY
  {
    hide EqualLevels, Extremes, LastN;
    var levels := LevelsOf(m5, Long);
    assert levels[..0] == [];
    assert Targets(levels, 0.0, Long) == [];
  }

  lemma PairInside(s: seq<real>, i: nat)
    requires i + 1 < |s|
    ensures multiset{s[i], s[i + 1]} <= multiset(s)
  {
    assert s == s[..i] + ([s[i], s[i + 1]] + s[i + 2..]);
  }

  lemma {:induction false} ExampleLevels(s: seq<real>)
    requires IsExample(s)
    ensures |EqualLevels(s, EQUAL_LEVEL_TOLERANCE)| == 1 && EqualLevels(s, EQUAL_LEVEL_TOLERANCE)[0] < 0.0
  {
    assert |s| == 10;
    hide Sort, Average, LevelsFrom, ClusterEnd, Sorted, IsExample;
    ExampleSorted(s);
    ExampleAverage(s);
    ExampleCluster(s);
    ExampleSingles(s);
    LevelsFromStep(s, EQUAL_LEVEL_TOLERANCE, 0);
  }

  lemma ExampleSorted(s: seq<real>)
    requires IsExample(s)
    ensures Sort(s) == s
  {
    assert Sorted(s);
    hide Sort;
    SortedUnique(Sort(s), s);
  }

  lemma ExampleCluster(s: seq<real>)
    requires IsExample(s)
    ensures ClusterEnd(s, EQUAL_LEVEL_TOLERANCE, 0, 1) == 6
  {
    hide ClusterEnd;
    ExampleNear(s);
    hide IsExample, Abs;
    var t := EQUAL_LEVEL_TOLERANCE;
    ClusterEndStep(s, t, 0, 1);
    ClusterEndStep(s, t, 0, 2);
    ClusterEndStep(s, t, 0, 3);
    ClusterEndStep(s, t, 0, 4);
    ClusterEndStep(s, t, 0, 5);
    ClusterEndStep(s, t, 0, 6);
  }

  lemma ExampleNear(s: seq<real>)
    requires IsExample(s)
    ensures |s| == 10
    ensures forall i :: 1 <= i < 6 ==> Abs(s[i] - s[0]) <= EQUAL_LEVEL_TOLERANCE
    ensures Abs(s[6] - s[0]) > EQUAL_LEVEL_TOLERANCE
  {
  }

  lemma ExampleAverage(s: seq<real>)
    requires IsExample(s)
    ensures Average(s[0..6]) < 0.0
  {
    var c := s[0..6];
    SumBounds(c[..4], -0.0001, -0.0001);
    assert c[..5][..4] == c[..4];
    assert Sum(c[..5]) == Sum(c[..4]) + 0.0001;
    assert Sum(c) == Sum(c[..5]) + 0.0002;
  }

  lemma ExampleSingles(s: seq<real>)
    requires IsExample(s)
    ensures LevelsFrom(s, EQUAL_LEVEL_TOLERANCE, 6) == []
  {
    var t := EQUAL_LEVEL_TOLERANCE;
    LevelsFromStep(s, t, 6);
    LevelsFromStep(s, t, 7);
    LevelsFromStep(s, t, 8);
    LevelsFromStep(s, t, 9);
    assert ClusterEnd(s, t, 6, 7) == 7 && ClusterEnd(s, t, 7, 8) == 8 && ClusterEnd(s, t, 8, 9) == 9 && ClusterEnd(s, t, 9, 10) == 10;
    assert LevelsFrom(s, t, 10) == [];
    hide LevelsFrom, ClusterEnd;
  }

  // ----- What the score means -----------------------------------------------

  /** Some level lies ahead of the price, less than `reach` away. */
  ghost predicate LevelAhead(levels: seq<real>, price: real, direction: Direction, reach: real) {
    exists level :: level in levels
      && match direction case Long => price < level < price + reach case Short => price - reach < level < price
  }

  lemma QuotientBelow(x: real, d: real, k: real)
    requires d > 0.0
    ensures x / d < k <==> x < k * d
  {
    var q := x / d;
    assert q * d == x;
    if q < k {
      assert (k - q) * d > 0.0;
    } else {
      assert (q - k) * d >= 0.0;
    }
  }

  /** The nearest level is within reach exactly when some level ahead is. */
  lemma {:induction false} ReachIff(levels: seq<real>, price: real, atr5m: real, direction: Direction, r: LiquidityMap, k: real)
    requires atr5m > 0.0 && IsTarget(levels, price, atr5m, direction, r)
    ensures r.directionMatch && r.distanceAtr < k <==> LevelAhead(levels, price, direction, k * atr5m)
  {
    if r.directionMatch {
      QuotientBelow(Abs(r.nearestLevel - price), atr5m, k);
    }
    var reach := k * atr5m;
    if LevelAhead(levels, price, direction, reach) {
      var level :| level in levels
        && match direction case Long => price < level < price + reach case Short => price - reach < level < price;
      assert Beyond(level, price, direction) && Abs(level - price) < reach;
    }
  }

  /** The score is 20 if and only if some level lies ahead within less than one ATR, at least 12 if and only if one
      does within less than two, at least 6 within less than three, and 0 otherwise; it takes no other values, and
      is 0 with fewer than 10 bars or no ATR. */
  lemma {:induction false} ScoreExact(m5: seq<Bar>, price: real, atr5m: real, direction: Direction)
    ensures var score := ScoreLiquidity(MapLiquidity(m5, price, atr5m, direction));
            var levels := LevelsOf(m5, direction);
            && score in {0, 6, 12, 20}
            && (|m5| < 10 || atr5m == 0.0 ==> score == 0)
            && (|m5| >= 10 && atr5m > 0.0 ==>
                 && (score == 20 <==> LevelAhead(levels, price, direction, atr5m))
                 && (score >= 12 <==> LevelAhead(levels, price, direction, 2.0 * atr5m))
                 && (score >= 6 <==> LevelAhead(levels, price, direction, 3.0 * atr5m)))
  {
    hide MapLiquidity, LevelsOf, LevelAhead, IsTarget, ScoreLiquidity;
    TargetExact(m5, price, atr5m, direction);
    var r := MapLiquidity(m5, price, atr5m, direction);
    if |m5| < 10 || atr5m == 0.0 {
      NoTargetNoScore();
    } else {
      FlagOfTarget(LevelsOf(m5, direction), price, atr5m, direction, r);
      ScoreOf(r);
      if atr5m > 0.0 {
        ScoreOfTarget(LevelsOf(m5, direction), price, atr5m, direction, r);
      }
    }
  }

  lemma NoTargetNoScore()
    ensures ScoreLiquidity(NO_LIQUIDITY) == 0
  {
  }

  lemma FlagOfTarget(levels: seq<real>, price: real, atr5m: real, direction: Direction, r: LiquidityMap)
    requires atr5m != 0.0 && IsTarget(levels, price, atr5m, direction, r)
    ensures r.directionMatch ==> r.voidNearby == (r.distanceAtr <= 3.0)
  {
    hide Beyond;
  }

  lemma ScoreOfTarget(levels: seq<real>, price: real, atr5m: real, direction: Direction, r: LiquidityMap)
    requires atr5m > 0.0 && IsTarget(levels, price, atr5m, direction, r)
    ensures ScoreLiquidity(r) == 20 <==> LevelAhead(levels, price, direction, atr5m)
    ensures ScoreLiquidity(r) >= 12 <==> LevelAhead(levels, price, direction, 2.0 * atr5m)
    ensures ScoreLiquidity(r) >= 6 <==> LevelAhead(levels, price, direction, 3.0 * atr5m)
  {
    hide LevelAhead, IsTarget, ScoreLiquidity;
    FlagOfTarget(levels, price, atr5m, direction, r);
    ScoreOf(r);
    ReachIff(levels, price, atr5m, direction, r, 1.0);
    ReachIff(levels, price, atr5m, direction, r, 2.0);
    ReachIff(levels, price, atr5m, direction, r, 3.0);
    assert 1.0 * atr5m == atr5m;
  }

  lemma ScoreOf(r: LiquidityMap)
    requires r.directionMatch ==> r.voidNearby == (r.distanceAtr <= 3.0)
    ensures var score := ScoreLiquidity(r);
            && score in {0, 6, 12, 20}
            && (score == 20 <==> r.directionMatch && r.distanceAtr < 1.0)
            && (score >= 12 <==> r.directionMatch && r.distanceAtr < 2.0)
            && (score >= 6 <==> r.directionMatch && r.distanceAtr < 3.0)
  {
  }

  /** The bar's end that counts in that direction. */
  function End(bar: Bar, direction: Direction): real {
    match direction case Long => bar.high case Short => bar.low
  }

  lemma ExtremesAre(bars: seq<Bar>, direction: Direction)
    ensures forall i :: 0 <= i < |bars| ==> Extremes(bars, direction)[i] == End(bars[i], direction)
  {
  }

  lemma TwoInside(s: seq<real>, i: nat, j: nat)
    requires i < |s| && j < |s| && i != j
    ensures multiset{s[i], s[j]} <= multiset(s)
  {
    if i < j {
      TwoInOrder(s, i, j);
    } else {
      TwoInOrder(s, j, i);
      assert multiset{s[i], s[j]} == multiset{s[j], s[i]};
    }
  }

  lemma TwoInOrder(s: seq<real>, i: nat, j: nat)
    requires i < j < |s|
    ensures multiset{s[i], s[j]} <= multiset(s)
  {
    var front, back := s[..j], s[j..];
    assert s == front + back;
    assert front[i] == s[i] && back[0] == s[j];
    assert multiset{s[i]} <= multiset(front) && multiset{s[j]} <= multiset(back);
  }

  /** Over the bars themselves: two of the last 50 whose highs (lows for SHORT) differ by at most 0.0003 make a level
      within 0.0003 of the lower one, and every level is within 0.0003 of some bar's high (low). */
  lemma {:induction false} LevelsOverBars(m5: seq<Bar>, direction: Direction, i: nat, j: nat) returns (level: real)
    requires var bars := LastN(m5, 50);
             i < |bars| && j < |bars| && i != j && End(bars[i], direction) <= End(bars[j], direction) <= End(bars[i], direction) + 0.0003
    ensures level in LevelsOf(m5, direction) && -0.0003 <= level - End(LastN(m5, 50)[i], direction) <= 0.0003
  {
    var bars := LastN(m5, 50);
    hide LastN, LevelsOf, Extremes, End;
    ExtremesAre(bars, direction);
    TwoInside(Extremes(bars, direction), i, j);
    level := LevelNear(m5, direction, End(bars[i], direction), End(bars[j], direction));
  }

  lemma {:induction false} LevelsNearBars(m5: seq<Bar>, direction: Direction, level: real) returns (i: nat)
    requires level in LevelsOf(m5, direction)
    ensures i < |LastN(m5, 50)| && -0.0003 <= level - End(LastN(m5, 50)[i], direction) <= 0.0003
  {
    var ends := Extremes(LastN(m5, 50), direction);
    var group := LevelGroup(ends, EQUAL_LEVEL_TOLERANCE, level);
    ExtremesAre(LastN(m5, 50), direction);
    assert group[0] in multiset(group);
    hide LastN, LevelsOf, Extremes, End, Average;
    assert group[0] in multiset(ends) && Abs(group[0] - level) <= EQUAL_LEVEL_TOLERANCE;
    i :| 0 <= i < |ends| && ends[i] == group[0];
  }
}
