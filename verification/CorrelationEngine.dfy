/** The portfolio's average pairwise correlation (portfolio/correlation.py, class CorrelationEngine). */
module PortfolioCorrelation {
  import opened Market
  import opened Algebra
  import opened Correlation

  type Windows = map<string, seq<real>>

  /** The coefficient of two symbols' windows, aligned on their latest prices; none if either is missing or short. */
  function PairCoefficient(windows: Windows, sqrt: real -> real, x: string, y: string): Option<real> {
    if x !in windows || y !in windows then None
    else
      var p, q := windows[x], windows[y];
      if |p| < 2 || |q| < 2 then None
      else
        var n := if |p| < |q| then |p| else |q|;
        Coefficient(LastN(p, n), LastN(q, n), sqrt)
  }

  /** Sum of absolute coefficients, and how many there are. */
  datatype Tally = Tally(sum: real, count: nat) {
    function Plus(t: Tally): Tally {
      Tally(sum + t.sum, count + t.count)
    }
  }

  const ZERO := Tally(0.0, 0)

  function One(c: Option<real>): Tally {
    if c.None? then ZERO else Tally(Abs(c.value), 1)
  }

  function PairTally(windows: Windows, sqrt: real -> real, x: string, y: string): Tally {
    One(PairCoefficient(windows, sqrt, x, y))
  }

  /** All pairs of x with a symbol of `rest`. */
  function RowTally(windows: Windows, sqrt: real -> real, x: string, rest: seq<string>): Tally {
    if rest == [] then ZERO
    else PairTally(windows, sqrt, x, rest[0]).Plus(RowTally(windows, sqrt, x, rest[1..]))
  }

  /** All pairs i < j. */
  function AllPairs(windows: Windows, sqrt: real -> real, symbols: seq<string>): Tally {
    if symbols == [] then ZERO
    else RowTally(windows, sqrt, symbols[0], symbols[1..]).Plus(AllPairs(windows, sqrt, symbols[1..]))
  }

  function TallyOf(correlations: seq<real>): Tally {
    if correlations == [] then ZERO
    else
      var n := |correlations| - 1;
      TallyOf(correlations[..n]).Plus(Tally(Abs(correlations[n]), 1))
  }

  function Average(t: Tally): real
    requires t.count > 0
  {
    t.sum / (t.count as real)
  }

  function Result(positions: nat, windows: Windows, sqrt: real -> real, order: seq<string>): real {
    if positions < 2 || |order| < 2 then 0.0
    else
      var t := AllPairs(windows, sqrt, order);
      if t.count == 0 then 0.0 else Min(Average(t), 1.0)
  }

  /** `order` lists every open symbol once, in whatever order the set is enumerated. */
  ghost predicate Enumerates(order: seq<string>, symbols: set<string>) {
    && (forall s :: s in order <==> s in symbols)
    && (forall i, j :: 0 <= i < j < |order| ==> order[i] != order[j])
  }

  // ----- The order of the symbols does not matter ---------------------------

  lemma PairSymmetric(windows: Windows, sqrt: real -> real, x: string, y: string)
    ensures PairTally(windows, sqrt, x, y) == PairTally(windows, sqrt, y, x)
  {
    if x in windows && y in windows {
      var p, q := windows[x], windows[y];
      var n := if |p| < |q| then |p| else |q|;
      hide Coefficient;
      CoefficientSymmetric(LastN(p, n), LastN(q, n), sqrt);
    }
  }

  /** Taking y out of a row takes its pair out of the tally. */
  lemma {:induction false} RowPick(windows: Windows, sqrt: real -> real, x: string, a: seq<string>, y: string, b: seq<string>)
    ensures RowTally(windows, sqrt, x, a + [y] + b)
         == PairTally(windows, sqrt, x, y).Plus(RowTally(windows, sqrt, x, a + b))
  {
    hide PairTally;
    if a == [] {
      assert [] + [y] + b == [y] + b;
      assert ([y] + b)[1..] == b;
      assert [] + b == b;
    } else {
      RowPick(windows, sqrt, x, a[1..], y, b);
      assert (a + [y] + b)[1..] == a[1..] + [y] + b;
      assert (a + b)[1..] == a[1..] + b;
    }
  }

  lemma PickOut(t: seq<string>, x: string) returns (a: seq<string>, b: seq<string>)
    requires x in t
    ensures t == a + [x] + b
    ensures multiset(t) == multiset(a + b) + multiset{x}
  {
    var k :| 0 <= k < |t| && t[k] == x;
    a, b := t[..k], t[k + 1..];
  }

  lemma SameRest(m: multiset<string>, n: multiset<string>, x: string)
    requires m + multiset{x} == n + multiset{x}
    ensures m == n
  {
    assert m == (m + multiset{x}) - multiset{x};
    assert n == (n + multiset{x}) - multiset{x};
  }

  lemma {:induction false} RowPermuted(windows: Windows, sqrt: real -> real, x: string, s: seq<string>, t: seq<string>)
    requires multiset(s) == multiset(t)
    ensures RowTally(windows, sqrt, x, s) == RowTally(windows, sqrt, x, t)
  {
    hide PairTally;
    if s == [] {
      assert t == [] by {
        assert |multiset(t)| == |t|;
      }
    } else {
      assert s == [s[0]] + s[1..];
      assert multiset(s) == multiset(s[1..]) + multiset{s[0]};
      assert s[0] in multiset(t);
      var a, b := PickOut(t, s[0]);
      SameRest(multiset(s[1..]), multiset(a + b), s[0]);
      RowPermuted(windows, sqrt, x, s[1..], a + b);
      RowPick(windows, sqrt, x, a, s[0], b);
    }
  }

  /** Moving one symbol to the front leaves the tally of all pairs unchanged. */
  lemma {:induction false} MoveToFront(windows: Windows, sqrt: real -> real, a: seq<string>, x: string, b: seq<string>)
    ensures AllPairs(windows, sqrt, a + [x] + b)
         == RowTally(windows, sqrt, x, a + b).Plus(AllPairs(windows, sqrt, a + b))
  {
    hide PairTally, RowTally;
    if a == [] {
      assert [] + [x] + b == [x] + b;
      assert ([x] + b)[1..] == b;
      assert [] + b == b;
    } else {
      var y, a' := a[0], a[1..];
      assert (a + [x] + b)[1..] == a' + [x] + b;
      assert (a + b)[1..] == a' + b;
      MoveToFront(windows, sqrt, a', x, b);
      RowPick(windows, sqrt, y, a', x, b);
      RowPick(windows, sqrt, x, [], y, a' + b);
      assert [] + [y] + (a' + b) == a + b;
      assert [] + (a' + b) == a' + b;
      PairSymmetric(windows, sqrt, x, y);
    }
  }

  lemma {:induction false} AllPairsPermuted(windows: Windows, sqrt: real -> real, s: seq<string>, t: seq<string>)
    requires multiset(s) == multiset(t)
    ensures AllPairs(windows, sqrt, s) == AllPairs(windows, sqrt, t)
  {
    hide RowTally;
    if s == [] {
      assert t == [] by {
        assert |multiset(t)| == |t|;
      }
    } else {
      assert s == [s[0]] + s[1..];
      assert multiset(s) == multiset(s[1..]) + multiset{s[0]};
      assert s[0] in multiset(t);
      var a, b := PickOut(t, s[0]);
      SameRest(multiset(s[1..]), multiset(a + b), s[0]);
      MoveToFront(windows, sqrt, a, s[0], b);
      RowPermuted(windows, sqrt, s[0], s[1..], a + b);
      AllPairsPermuted(windows, sqrt, s[1..], a + b);
    }
  }

  lemma {:induction false} EnumerationMultiset(order: seq<string>, symbols: set<string>)
    requires Enumerates(order, symbols)
    ensures multiset(order) == multiset(symbols)
  {
    if order == [] {
      assert symbols == {};
    } else {
      var n := |order| - 1;
      var init, x := order[..n], order[n];
      assert order == init + [x];
      forall s
        ensures s in init <==> s in symbols - {x}
      {
        if s in symbols - {x} {
          assert s in order;
        }
      }
      EnumerationMultiset(init, symbols - {x});
      assert x in order;
      assert multiset(symbols) == multiset(symbols - {x}) + multiset{x};
    }
  }

  /** Whatever order the set of open symbols is enumerated in, the portfolio correlation is the same. */
  lemma {:induction false} OrderIndependent(
    positions: nat, windows: Windows, sqrt: real -> real, symbols: set<string>, s: seq<string>, t: seq<string>)
    requires Enumerates(s, symbols) && Enumerates(t, symbols)
    ensures Result(positions, windows, sqrt, s) == Result(positions, windows, sqrt, t)
  {
    hide AllPairs;
    EnumerationMultiset(s, symbols);
    EnumerationMultiset(t, symbols);
    assert |multiset(s)| == |s| && |multiset(t)| == |t|;
    AllPairsPermuted(windows, sqrt, s, t);
  }

  // ----- The clamp never changes the average --------------------------------

  /** A tally of coefficients that all lie between -1 and 1. */
  ghost predicate Bounded(t: Tally) {
    0.0 <= t.sum <= t.count as real
  }

  lemma PairBounded(windows: Windows, sqrt: real -> real, x: string, y: string)
    requires IsSquareRoot(sqrt)
    ensures Bounded(PairTally(windows, sqrt, x, y))
  {
    var c := PairCoefficient(windows, sqrt, x, y);
    if c.Some? {
      var p, q := windows[x], windows[y];
      var n := if |p| < |q| then |p| else |q|;
      hide Coefficient;
      CoefficientBound(LastN(p, n), LastN(q, n), sqrt);
    }
  }

  lemma {:induction false} RowBounded(windows: Windows, sqrt: real -> real, x: string, rest: seq<string>)
    requires IsSquareRoot(sqrt)
    ensures Bounded(RowTally(windows, sqrt, x, rest))
  {
    if rest != [] {
      hide PairTally, IsSquareRoot;
      PairBounded(windows, sqrt, x, rest[0]);
      RowBounded(windows, sqrt, x, rest[1..]);
    }
  }

  lemma {:induction false} AllPairsBounded(windows: Windows, sqrt: real -> real, symbols: seq<string>)
    requires IsSquareRoot(sqrt)
    ensures Bounded(AllPairs(windows, sqrt, symbols))
  {
    if symbols != [] {
      hide RowTally, IsSquareRoot;
      RowBounded(windows, sqrt, symbols[0], symbols[1..]);
      AllPairsBounded(windows, sqrt, symbols[1..]);
    }
  }

  lemma AverageBounded(t: Tally)
    requires Bounded(t) && t.count > 0
    ensures 0.0 <= Average(t) <= 1.0
  {
    var n, q := t.count as real, Average(t);
    assert Times(n, q) == t.sum && Times(n, 1.0) == n;
    hide Times;
    TimesSum(n, q, -1.0);
    TimesNegative(n, 1.0);
    TimesNegative(n, q);
    if q > 1.0 {
      TimesPositive(n, q - 1.0);
    } else if q < 0.0 {
      TimesPositive(n, -q);
    }
  }

  /** The average of absolute coefficients never exceeds 1, so clamping it to 1 changes nothing. */
  lemma {:induction false} ClampNeverBinds(positions: nat, windows: Windows, sqrt: real -> real, order: seq<string>)
    requires IsSquareRoot(sqrt)
    ensures 0.0 <= Result(positions, windows, sqrt, order) <= 1.0
    ensures var t := AllPairs(windows, sqrt, order);
            positions >= 2 && |order| >= 2 && t.count > 0 ==> Result(positions, windows, sqrt, order) == Average(t)
  {
    AllPairsBounded(windows, sqrt, order);
    hide AllPairs, Average;
    var t := AllPairs(windows, sqrt, order);
    if t.count > 0 {
      AverageBounded(t);
    }
  }

  // ----- The engine ---------------------------------------------------------

  datatype Quote = Quote(symbol: string, price: real)

  function PricesOf(quotes: seq<Quote>, symbol: string): seq<real> {
    if quotes == [] then []
    else
      var n := |quotes| - 1;
      PricesOf(quotes[..n], symbol) + if quotes[n].symbol == symbol then [quotes[n].price] else []
  }

  /** The last n prices, all of them when there are fewer, none when n is 0. */
  function Tail(s: seq<real>, n: nat): seq<real> {
    if |s| > n then s[|s| - n..] else s
  }

  /** A symbol's window: absent until it has a price. */
  function WindowOf(prices: seq<real>, n: nat): Option<seq<real>> {
    if prices == [] then None else Some(Tail(prices, n))
  }

  class CorrelationEngine {
    const windowSize: nat
    var priceWindows: Windows
    ghost var quotes: seq<Quote>

    constructor (windowSize: nat := 50)
      ensures Valid() && quotes == [] && this.windowSize == windowSize
    {
      this.windowSize := windowSize;
      priceWindows := map[];
      quotes := [];
    }

    /** Each symbol's window is the last windowSize of its own prices. */
    ghost predicate Valid()
      reads this
    {
      forall s :: Window(s) == WindowOf(PricesOf(quotes, s), windowSize)
    }

    ghost function Window(symbol: string): Option<seq<real>>
      reads this`priceWindows
    {
      if symbol in priceWindows then Some(priceWindows[symbol]) else None
    }

    method RecordPrice(symbol: string, price: real)
      requires Valid()
      modifies this
      ensures Valid() && quotes == old(quotes) + [Quote(symbol, price)]
    {
      PricesSnoc(quotes, symbol, price);
      WindowSnoc(PricesOf(quotes, symbol), price, windowSize);
      hide PricesOf, WindowOf;
      if symbol !in priceWindows {
        priceWindows := priceWindows[symbol := []];
      }
      var window := priceWindows[symbol] + [price];
      if |window| > windowSize {
        window := window[1..];
      }
      priceWindows := priceWindows[symbol := window];
      quotes := quotes + [Quote(symbol, price)];
    }

    method Reset()
      modifies this
      ensures Valid() && quotes == []
    {
      priceWindows := map[];
      quotes := [];
    }

    /** The source's nested loops over the enumerated symbols. */
    method ComputePortfolioCorrelation(openSymbols: seq<string>, order: seq<string>, sqrt: real -> real) returns (r: real)
      requires Enumerates(order, set s | s in openSymbols)
      ensures r == Result(|openSymbols|, priceWindows, sqrt, order)
    {
      if |openSymbols| < 2 {
        return 0.0;
      }
      if |order| < 2 {
        return 0.0;
      }
      hide AllPairs, Enumerates;
      var correlations := AllCoefficients(order, sqrt);
      TallyCount(correlations);
      hide TallyOf;
      if correlations == [] {
        return 0.0;
      }
      var avg := TallyOf(correlations).sum / (|correlations| as real);
      return Min(avg, 1.0);
    }

    /** The outer loop. */
    method AllCoefficients(order: seq<string>, sqrt: real -> real) returns (correlations: seq<real>)
      ensures TallyOf(correlations) == AllPairs(priceWindows, sqrt, order)
    {
      hide *;
      correlations := [];
      var i := 0;
      NoPairsYet(priceWindows, sqrt, order);
      while i < |order|
        invariant i <= |order|
        invariant TallyOf(correlations).Plus(AllPairs(priceWindows, sqrt, order[i..])) == AllPairs(priceWindows, sqrt, order)
      {
        var before := TallyOf(correlations);
        NextRow(priceWindows, sqrt, order, i);
        PlusAssociates(before, RowTally(priceWindows, sqrt, order[i], order[i + 1..]), AllPairs(priceWindows, sqrt, order[i + 1..]));
        correlations := AddRow(correlations, order, i, sqrt);
        i := i + 1;
      }
      NoPairsLeft(priceWindows, sqrt, order, TallyOf(correlations));
    }

    /** The inner loop: the pairs of symbol i with the symbols after it. */
    method AddRow(correlations: seq<real>, order: seq<string>, i: nat, sqrt: real -> real) returns (r: seq<real>)
      requires i < |order|
      ensures TallyOf(r) == TallyOf(correlations).Plus(RowTally(priceWindows, sqrt, order[i], order[i + 1..]))
    {
      hide *;
      r := correlations;
      var j := i + 1;
      while j < |order|
        invariant i < j <= |order|
        invariant TallyOf(r).Plus(RowTally(priceWindows, sqrt, order[i], order[j..]))
               == TallyOf(correlations).Plus(RowTally(priceWindows, sqrt, order[i], order[i + 1..]))
      {
        var before := TallyOf(r);
        NextPair(priceWindows, sqrt, order[i], order, j);
        PlusAssociates(before, PairTally(priceWindows, sqrt, order[i], order[j]), RowTally(priceWindows, sqrt, order[i], order[j + 1..]));
        r := AddPair(r, order[i], order[j], sqrt);
        j := j + 1;
      }
      NoPairsInRow(priceWindows, sqrt, order[i], order, TallyOf(r));
    }

    /** The body of the inner loop. */
    method AddPair(correlations: seq<real>, sym1: string, sym2: string, sqrt: real -> real) returns (r: seq<real>)
      ensures TallyOf(r) == TallyOf(correlations).Plus(PairTally(priceWindows, sqrt, sym1, sym2))
    {
      hide TallyOf, Coefficient, LastN;
      PlusZero(TallyOf(correlations));
      r := correlations;
      if sym1 !in priceWindows || sym2 !in priceWindows {
        return;
      }
      var prices1 := priceWindows[sym1];
      var prices2 := priceWindows[sym2];
      if |prices1| < 2 || |prices2| < 2 {
        return;
      }
      var minLen := if |prices1| < |prices2| then |prices1| else |prices2|;
      var corr := Coefficient(LastN(prices1, minLen), LastN(prices2, minLen), sqrt);
      if corr.Some? {
        r := correlations + [corr.value];
        TallySnoc(correlations, corr.value);
      }
    }
  }

  lemma PlusZero(t: Tally)
    ensures t.Plus(ZERO) == t && ZERO.Plus(t) == t
  {
  }

  lemma PlusAssociates(t: Tally, u: Tally, v: Tally)
    ensures t.Plus(u.Plus(v)) == t.Plus(u).Plus(v)
  {
  }

  lemma TallySnoc(correlations: seq<real>, c: real)
    ensures TallyOf(correlations + [c]) == TallyOf(correlations).Plus(Tally(Abs(c), 1))
  {
    assert (correlations + [c])[..|correlations|] == correlations;
  }

  lemma NoPairsYet(windows: Windows, sqrt: real -> real, order: seq<string>)
    ensures TallyOf([]).Plus(AllPairs(windows, sqrt, order[0..])) == AllPairs(windows, sqrt, order)
  {
    hide AllPairs;
    assert order[0..] == order;
  }

  lemma NoPairsLeft(windows: Windows, sqrt: real -> real, order: seq<string>, t: Tally)
    ensures t.Plus(AllPairs(windows, sqrt, order[|order|..])) == t
  {
    assert order[|order|..] == [];
  }

  lemma NextRow(windows: Windows, sqrt: real -> real, order: seq<string>, i: nat)
    requires i < |order|
    ensures AllPairs(windows, sqrt, order[i..])
         == RowTally(windows, sqrt, order[i], order[i + 1..]).Plus(AllPairs(windows, sqrt, order[i + 1..]))
  {
    hide RowTally;
    assert order[i..][1..] == order[i + 1..];
  }

  lemma NextPair(windows: Windows, sqrt: real -> real, x: string, order: seq<string>, j: nat)
    requires j < |order|
    ensures RowTally(windows, sqrt, x, order[j..])
         == PairTally(windows, sqrt, x, order[j]).Plus(RowTally(windows, sqrt, x, order[j + 1..]))
  {
    hide PairTally;
    assert order[j..][1..] == order[j + 1..];
  }

  lemma NoPairsInRow(windows: Windows, sqrt: real -> real, x: string, order: seq<string>, t: Tally)
    ensures t.Plus(RowTally(windows, sqrt, x, order[|order|..])) == t
  {
    assert order[|order|..] == [];
  }

  lemma {:induction false} PricesSnoc(quotes: seq<Quote>, symbol: string, price: real)
    ensures forall s :: PricesOf(quotes + [Quote(symbol, price)], s)
                     == if s == symbol then PricesOf(quotes, s) + [price] else PricesOf(quotes, s)
  {
    assert (quotes + [Quote(symbol, price)])[..|quotes|] == quotes;
  }

  lemma WindowSnoc(prices: seq<real>, price: real, n: nat)
    ensures var w := WindowOf(prices, n);
            var all := (if w.None? then [] else w.value) + [price];
            WindowOf(prices + [price], n) == Some(if |all| > n then all[1..] else all)
  {
    var w := WindowOf(prices, n);
    var all := (if w.None? then [] else w.value) + [price];
    assert Tail(prices + [price], n) == if |all| > n then all[1..] else all;
  }

  lemma {:induction false} TallyCount(correlations: seq<real>)
    ensures TallyOf(correlations).count == |correlations|
  {
    if correlations != [] {
      TallyCount(correlations[..|correlations| - 1]);
    }
  }
}
