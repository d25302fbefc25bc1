/** What the portfolio's average correlation is (portfolio/correlation.py, `compute_portfolio_correlation`), said
    without the loops: the mean over all pairs of symbols whose latest common stretch of prices has a coefficient. */
module CorrelationReference {
  import opened Market
  import opened Algebra
  import opened Correlation
  import opened PortfolioCorrelation

  /** The coefficient of the latest prices of two windows, as many of each as the shorter window holds. */
  function Match(windows: Windows, sqrt: real -> real, x: string, y: string): Option<real> {
    if x !in windows || y !in windows then None else MatchOf(windows[x], windows[y], sqrt)
  }

  function MatchOf(p: seq<real>, q: seq<real>, sqrt: real -> real): Option<real> {
    var n := if |p| <= |q| then |p| else |q|;
    if n < 2 then None else Coefficient(p[|p| - n..], q[|q| - n..], sqrt)
  }

  lemma MatchIs(windows: Windows, sqrt: real -> real, x: string, y: string)
    ensures PairCoefficient(windows, sqrt, x, y) == Match(windows, sqrt, x, y)
  {
    hide Coefficient;
    if x in windows && y in windows {
      var p, q := windows[x], windows[y];
      assert p[|p| - |p|..] == p && q[|q| - |q|..] == q;
    }
  }

  // ----- The average over all pairs -----------------------------------------

  /** The pairs of positions whose symbols have a coefficient. */
  ghost function Matched(windows: Windows, sqrt: real -> real, order: seq<string>): set<(int, int)> {
    set i, j | 0 <= i < j < |order| && Match(windows, sqrt, order[i], order[j]).Some? :: (i, j)
  }

  /** Absolute coefficients of each of `others` with y. */
  function AbsWith(windows: Windows, sqrt: real -> real, others: seq<string>, y: string): real {
    if others == [] then 0.0
    else
      var n := |others| - 1;
      var c := Match(windows, sqrt, others[n], y);
      AbsWith(windows, sqrt, others[..n], y) + if c.Some? then Abs(c.value) else 0.0
  }

  /** Absolute coefficients of each symbol with every one before it. */
  function AbsTotal(windows: Windows, sqrt: real -> real, order: seq<string>): real {
    if order == [] then 0.0
    else
      var n := |order| - 1;
      AbsTotal(windows, sqrt, order[..n]) + AbsWith(windows, sqrt, order[..n], order[n])
  }

  ghost function MatchedWith(windows: Windows, sqrt: real -> real, others: seq<string>, y: string): set<int> {
    set i | 0 <= i < |others| && Match(windows, sqrt, others[i], y).Some?
  }

  lemma OnePair(windows: Windows, sqrt: real -> real, x: string, y: string)
    ensures PairTally(windows, sqrt, y, x) ==
              var c := Match(windows, sqrt, x, y);
              if c.Some? then Tally(Abs(c.value), 1) else ZERO
  {
    MatchIs(windows, sqrt, x, y);
    PairSymmetric(windows, sqrt, x, y);
    hide Match, PairCoefficient;
  }

  lemma MatchedWithSnoc(windows: Windows, sqrt: real -> real, others: seq<string>, y: string)
    requires others != []
    ensures var n := |others| - 1;
            MatchedWith(windows, sqrt, others, y) ==
              MatchedWith(windows, sqrt, others[..n], y)
              + (if Match(windows, sqrt, others[n], y).Some? then {n} else {})
            && n !in MatchedWith(windows, sqrt, others[..n], y)
  {
    hide Match;
  }

  lemma {:induction false} RowExact(windows: Windows, sqrt: real -> real, others: seq<string>, y: string)
    ensures RowTally(windows, sqrt, y, others)
         == Tally(AbsWith(windows, sqrt, others, y), |MatchedWith(windows, sqrt, others, y)|)
  {
    hide Match, PairTally, RowTally, MatchedWith, AbsWith;
    if others == [] {
      NoRow(windows, sqrt, y);
    } else {
      var n := |others| - 1;
      RowExact(windows, sqrt, others[..n], y);
      RowPick(windows, sqrt, y, others[..n], others[n], []);
      assert others[..n] + [others[n]] + [] == others && others[..n] + [] == others[..n];
      OnePair(windows, sqrt, others[n], y);
      MatchedWithSnoc(windows, sqrt, others, y);
      AbsWithSnoc(windows, sqrt, others, y);
    }
  }

  lemma NoRow(windows: Windows, sqrt: real -> real, y: string)
    ensures RowTally(windows, sqrt, y, []) == ZERO
    ensures AbsWith(windows, sqrt, [], y) == 0.0 && MatchedWith(windows, sqrt, [], y) == {}
  {
  }

  lemma AbsWithSnoc(windows: Windows, sqrt: real -> real, others: seq<string>, y: string)
    requires others != []
    ensures var n := |others| - 1;
            var c := Match(windows, sqrt, others[n], y);
            AbsWith(windows, sqrt, others, y) == AbsWith(windows, sqrt, others[..n], y) + if c.Some? then Abs(c.value) else 0.0
  {
    hide Match;
  }

  lemma {:induction false} MatchedSnoc(windows: Windows, sqrt: real -> real, order: seq<string>)
    requires order != []
    ensures var n := |order| - 1;
            |Matched(windows, sqrt, order)|
            == |Matched(windows, sqrt, order[..n])| + |MatchedWith(windows, sqrt, order[..n], order[n])|
  {
    hide Match;
    var n := |order| - 1;
    var last := set i | i in MatchedWith(windows, sqrt, order[..n], order[n]) :: (i, n);
    assert Matched(windows, sqrt, order) == Matched(windows, sqrt, order[..n]) + last;
    assert Matched(windows, sqrt, order[..n]) !! last;
    PairedCount(MatchedWith(windows, sqrt, order[..n], order[n]), n);
  }

  lemma {:induction false} PairedCount(s: set<int>, n: int)
    ensures |set i | i in s :: (i, n)| == |s|
  {
    assert (forall x :: x !in s) ==> s == {};
    if s != {} {
      var x :| x in s;
      PairedCount(s - {x}, n);
      assert (set i | i in s :: (i, n)) == (set i | i in s - {x} :: (i, n)) + {(x, n)};
    }
  }

  lemma {:induction false} AllPairsExact(windows: Windows, sqrt: real -> real, order: seq<string>)
    ensures AllPairs(windows, sqrt, order)
         == Tally(AbsTotal(windows, sqrt, order), |Matched(windows, sqrt, order)|)
  {
    hide AllPairs, RowTally, Match, Matched, MatchedWith, AbsWith, AbsTotal;
    if order == [] {
      NoPairs(windows, sqrt);
    } else {
      var n := |order| - 1;
      var init := order[..n];
      AllPairsExact(windows, sqrt, init);
      MoveToFront(windows, sqrt, init, order[n], []);
      assert init + [order[n]] + [] == order && init + [] == init;
      RowExact(windows, sqrt, init, order[n]);
      MatchedSnoc(windows, sqrt, order);
      AbsTotalSnoc(windows, sqrt, order);
    }
  }

  lemma NoPairs(windows: Windows, sqrt: real -> real)
    ensures AllPairs(windows, sqrt, []) == ZERO
    ensures AbsTotal(windows, sqrt, []) == 0.0 && Matched(windows, sqrt, []) == {}
  {
  }

  lemma AbsTotalSnoc(windows: Windows, sqrt: real -> real, order: seq<string>)
    requires order != []
    ensures var n := |order| - 1;
            AbsTotal(windows, sqrt, order) == AbsTotal(windows, sqrt, order[..n]) + AbsWith(windows, sqrt, order[..n], order[n])
  {
    hide AbsWith;
  }

  /** The portfolio correlation is the mean absolute coefficient over all pairs of listed symbols that have one,
      and 0 with fewer than two positions, fewer than two symbols or no such pair. */
  lemma {:induction false} ResultExact(positions: nat, windows: Windows, sqrt: real -> real, order: seq<string>)
    requires IsSquareRoot(sqrt)
    ensures var pairs := Matched(windows, sqrt, order);
            Result(positions, windows, sqrt, order) ==
              if positions < 2 || |order| < 2 || pairs == {} then 0.0
              else AbsTotal(windows, sqrt, order) / (|pairs| as real)
  {
    AllPairsExact(windows, sqrt, order);
    ClampNeverBinds(positions, windows, sqrt, order);
    hide AllPairs, Matched, AbsTotal;
  }

  /** Two symbols: the absolute coefficient of their latest prices, or 0 when there is none. */
  lemma {:induction false} TwoSymbols(positions: nat, windows: Windows, sqrt: real -> real, x: string, y: string)
    requires IsSquareRoot(sqrt) && positions >= 2
    ensures var c := Match(windows, sqrt, x, y);
            Result(positions, windows, sqrt, [x, y]) == if c.Some? then Abs(c.value) else 0.0
  {
    hide Match;
    var c := Match(windows, sqrt, x, y);
    var order := [x, y];
    ResultExact(positions, windows, sqrt, order);
    assert order[..1] == [x] && [x][..0] == [];
    assert Matched(windows, sqrt, order) == if Match(windows, sqrt, x, y).Some? then {(0, 1)} else {};
    assert AbsWith(windows, sqrt, [], x) == 0.0 == AbsWith(windows, sqrt, [], y) && AbsTotal(windows, sqrt, []) == 0.0;
    assert AbsTotal(windows, sqrt, [x]) == 0.0;
    assert AbsTotal(windows, sqrt, order) == AbsWith(windows, sqrt, [x], y) == if c.Some? then Abs(c.value) else 0.0;
    hide Result, AbsTotal, Matched;
  }

  // ----- Old prices do not matter -------------------------------------------

  /** Both windows end in the same m prices. */
  ghost predicate SameLatest(p: seq<real>, q: seq<real>, m: nat) {
    |p| == |q| && (m >= |p| ==> p == q) && (m < |p| ==> p[|p| - m..] == q[|q| - m..])
  }

  lemma {:induction false} MatchIgnoresOld(
    windows: Windows, other: Windows, sqrt: real -> real, z: string, m: nat, x: string, y: string)
    requires z in windows && z in other && other == windows[z := other[z]] && SameLatest(windows[z], other[z], m)
    requires x != y
    requires x in windows && x != z ==> |windows[x]| <= m
    requires y in windows && y != z ==> |windows[y]| <= m
    ensures Match(other, sqrt, x, y) == Match(windows, sqrt, x, y)
  {
    hide MatchOf, SameLatest;
    if x in windows && y in windows {
      if x == z {
        MatchOfLatest(windows[z], other[z], windows[y], sqrt, m);
      } else if y == z {
        MatchOfLatest(windows[z], other[z], windows[x], sqrt, m);
      }
    }
  }

  lemma MatchOfLatest(p: seq<real>, p': seq<real>, q: seq<real>, sqrt: real -> real, m: nat)
    requires SameLatest(p, p', m) && |q| <= m
    ensures MatchOf(p, q, sqrt) == MatchOf(p', q, sqrt)
    ensures MatchOf(q, p, sqrt) == MatchOf(q, p', sqrt)
  {
    hide Coefficient;
    LatestOfLatest(p, p', m, if |p| <= |q| then |p| else |q|);
  }

  lemma LatestOfLatest(p: seq<real>, q: seq<real>, m: nat, n: nat)
    requires SameLatest(p, q, m) && n <= m
    ensures n <= |p| ==> p[|p| - n..] == q[|q| - n..]
  {
    if n <= |p| && m < |p| {
      assert p[|p| - n..] == p[|p| - m..][m - n..];
      assert q[|q| - n..] == q[|q| - m..][m - n..];
    }
  }

  /** Prices of one symbol older than every other window is long change nothing. */
  lemma {:induction false} OldPricesDoNotMatter(
    positions: nat, windows: Windows, other: Windows, sqrt: real -> real, z: string, m: nat, order: seq<string>, symbols: set<string>)
    requires IsSquareRoot(sqrt) && Enumerates(order, symbols)
    requires z in windows && z in other && other == windows[z := other[z]] && SameLatest(windows[z], other[z], m)
    requires forall s :: s in symbols && s in windows && s != z ==> |windows[s]| <= m
    ensures Result(positions, other, sqrt, order) == Result(positions, windows, sqrt, order)
  {
    forall i, j | 0 <= i < j < |order|
      ensures Match(other, sqrt, order[i], order[j]) == Match(windows, sqrt, order[i], order[j])
    {
      assert order[i] in symbols && order[j] in symbols;
      MatchIgnoresOld(windows, other, sqrt, z, m, order[i], order[j]);
    }
    hide Match, SameLatest;
    SameTotal(windows, other, sqrt, order);
    assert Matched(other, sqrt, order) == Matched(windows, sqrt, order);
    ResultExact(positions, windows, sqrt, order);
    ResultExact(positions, other, sqrt, order);
  }

  lemma {:induction false} SameTotal(windows: Windows, other: Windows, sqrt: real -> real, order: seq<string>)
    requires forall i, j :: 0 <= i < j < |order| ==>
               Match(other, sqrt, order[i], order[j]) == Match(windows, sqrt, order[i], order[j])
    ensures AbsTotal(other, sqrt, order) == AbsTotal(windows, sqrt, order)
  {
    hide Match;
    if order != [] {
      var n := |order| - 1;
      SameTotal(windows, other, sqrt, order[..n]);
      SameWith(windows, other, sqrt, order[..n], order[n]);
    }
  }

  lemma {:induction false} SameWith(windows: Windows, other: Windows, sqrt: real -> real, others: seq<string>, y: string)
    requires forall i :: 0 <= i < |others| ==> Match(other, sqrt, others[i], y) == Match(windows, sqrt, others[i], y)
    ensures AbsWith(other, sqrt, others, y) == AbsWith(windows, sqrt, others, y)
  {
    hide Match;
    if others != [] {
      SameWith(windows, other, sqrt, others[..|others| - 1], y);
    }
  }
}
