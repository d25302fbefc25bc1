/** Fusion of the three engine scores (scoring/fusion.py), and what the gate can make of it. */
module Fusion {
  import opened Market
  import opened Algebra
  import W = Weights
  import G = Gate

  const MAX_ENGINE_SCORE := 60

  /** Python's round: to the nearest integer, ties to the even one. */
  function Round(x: real): int {
    var f := x.Floor;
    var d := x - f as real;
    if d < 0.5 || (d == 0.5 && f % 2 == 0) then f else f + 1
  }

  function Multiplier(regime: G.Regime): real {
    match regime
    case Trend => 1.05
    case Chop => 0.85
    case Breakout => 1.00
    case Reversal => 0.90
    case OtherRegime => 1.0
  }

  /** Scores of the three engines for one direction. */
  datatype Scores = Scores(hmp: int, hlcp: int, mpp: int) {
    /** Each engine caps its own score at 60, and none goes below 0. */
    predicate InRange() {
      0 <= hmp <= MAX_ENGINE_SCORE && 0 <= hlcp <= MAX_ENGINE_SCORE && 0 <= mpp <= MAX_ENGINE_SCORE
    }

    function Least(): int {
      var m := if hmp < hlcp then hmp else hlcp;
      if m < mpp then m else mpp
    }

    function Greatest(): int {
      var m := if hmp > hlcp then hmp else hlcp;
      if m > mpp then m else mpp
    }
  }

  function Weighted(table: W.Table, s: Scores): real
    requires W.Counted(table)
  {
    Times(W.Normalized(table, W.Hmp), s.hmp as real)
    + Times(W.Normalized(table, W.Hlcp), s.hlcp as real)
    + Times(W.Normalized(table, W.Mpp), s.mpp as real)
  }

  function Composite(table: W.Table, s: Scores): int
    requires W.Counted(table)
  {
    var r := Round(Weighted(table, s));
    if r < 180 then r else 180
  }

  datatype Confluence = Confluence(direction: Direction, scores: Scores, base: int, composite: int, regime: G.Regime)

  function ScoreConfluence(table: W.Table, long: Scores, short: Scores, regime: G.Regime): Confluence
    requires W.Counted(table)
  {
    var l, s := Composite(table, long), Composite(table, short);
    var direction := if l >= s then Long else Short;
    var base := if l >= s then l else s;
    Confluence(direction, if l >= s then long else short, base, Round(Times(base as real, Multiplier(regime))), regime)
  }

  // ----- Rounding -----------------------------------------------------------

  /** Rounding gives a nearest integer, the even one when two are equally near. */
  lemma RoundNearest(x: real)
    ensures -0.5 <= x - Round(x) as real <= 0.5
    ensures x - Round(x) as real == 0.5 || x - Round(x) as real == -0.5 ==> Round(x) % 2 == 0
  {
  }

  lemma RoundBetween(x: real, lo: int, hi: int)
    requires lo as real <= x <= hi as real
    ensures lo <= Round(x) <= hi
  {
  }

  // ----- Bounds -------------------------------------------------------------

  lemma ShareBounds(w: real, s: int, lo: int, hi: int)
    requires w >= 0.0 && lo <= s <= hi
    ensures Times(w, lo as real) <= Times(w, s as real) <= Times(w, hi as real)
  {
    TimesGrows(w, lo as real, s as real);
    TimesGrows(w, s as real, hi as real);
  }

  lemma ThreeShares(a: real, b: real, c: real, x: real)
    requires a + b + c == 1.0
    ensures Times(a, x) + Times(b, x) + Times(c, x) == x
  {
    assert a * x + b * x + c * x == (a + b + c) * x;
  }

  /** For any learnt weights, the composite lies between the least and the greatest engine score. */
  lemma {:induction false} CompositeBetween(table: W.Table, s: Scores)
    requires W.Counted(table) && s.InRange()
    ensures s.Least() <= Composite(table, s) <= s.Greatest()
  {
    W.NormalizedShares(table);
    hide Times;
    var a, b, c := W.Normalized(table, W.Hmp), W.Normalized(table, W.Hlcp), W.Normalized(table, W.Mpp);
    var lo, hi := s.Least(), s.Greatest();
    ShareBounds(a, s.hmp, lo, hi);
    ShareBounds(b, s.hlcp, lo, hi);
    ShareBounds(c, s.mpp, lo, hi);
    ThreeShares(a, b, c, lo as real);
    ThreeShares(a, b, c, hi as real);
    hide W.Normalized;
    RoundBetween(Weighted(table, s), lo, hi);
  }

  /** The winning base is at least both sides' least scores, and the multiplied composite is at most 63. */
  lemma {:induction false} ConfluenceBounded(table: W.Table, long: Scores, short: Scores, regime: G.Regime)
    requires W.Counted(table) && long.InRange() && short.InRange()
    ensures var r := ScoreConfluence(table, long, short, regime);
            && r.scores.Least() <= r.base <= r.scores.Greatest()
            && long.Least() <= r.base && short.Least() <= r.base
            && 0 <= r.composite <= 63
  {
    CompositeBetween(table, long);
    CompositeBetween(table, short);
    hide Composite;
    var r := ScoreConfluence(table, long, short, regime);
    var m := Multiplier(regime);
    assert 0.0 <= Times(r.base as real, m) <= 63.0;
    RoundBetween(Times(r.base as real, m), 0, 63);
  }

  /** In every history of the gate, a score that fusion produced is discarded: fusion averages where the
      thresholds expect a sum. */
  lemma {:induction false} GateOnlyDiscards(
    h: seq<G.Event>, table: W.Table, long: Scores, short: Scores, regime: G.Regime)
    requires W.Counted(table) && long.InRange() && short.InRange()
    ensures G.Decide(h + [G.Score(regime, ScoreConfluence(table, long, short, regime).composite)]) == G.Discard
  {
    hide ScoreConfluence, G.Decide;
    ConfluenceBounded(table, long, short, regime);
    LowScoreDiscarded(h, regime, ScoreConfluence(table, long, short, regime).composite);
  }

  /** The lowest watch band starts at 110. */
  lemma LowScoreDiscarded(h: seq<G.Event>, regime: G.Regime, composite: int)
    requires composite < 110
    ensures G.Decide(h + [G.Score(regime, composite)]) == G.Discard
  {
    hide G.Crossings, G.Visits;
    assert G.Last(h + [G.Score(regime, composite)]) == G.Score(regime, composite);
  }

  // ----- Who wins, and with what --------------------------------------------

  /** Each weight goes with its own engine's score. */
  lemma {:induction false} WeightsAssigned(table: W.Table, s: Scores)
    requires W.Counted(table)
    ensures Weighted(table, s) ==
              Weighted(table, Scores(s.hmp, 0, 0)) + Weighted(table, Scores(0, s.hlcp, 0)) + Weighted(table, Scores(0, 0, s.mpp))
    ensures Weighted(table, Scores(s.hmp, 0, 0)) == Times(s.hmp as real, W.Normalized(table, W.Hmp))
    ensures Weighted(table, Scores(0, s.hlcp, 0)) == Times(s.hlcp as real, W.Normalized(table, W.Hlcp))
    ensures Weighted(table, Scores(0, 0, s.mpp)) == Times(s.mpp as real, W.Normalized(table, W.Mpp))
  {
    var a, b, c := W.Normalized(table, W.Hmp), W.Normalized(table, W.Hlcp), W.Normalized(table, W.Mpp);
    hide W.Normalized, Times;
    TimesZero(a);
    TimesZero(b);
    TimesZero(c);
    TimesSymmetric(a, s.hmp as real);
    TimesSymmetric(b, s.hlcp as real);
    TimesSymmetric(c, s.mpp as real);
  }

  lemma RoundGrows(x: real, y: real)
    requires x <= y
    ensures Round(x) <= Round(y)
  {
    assert x.Floor <= y.Floor;
  }

  /** No engine scoring less never lowers the composite. */
  lemma {:induction false} CompositeGrows(table: W.Table, s: Scores, t: Scores)
    requires W.Counted(table) && s.hmp <= t.hmp && s.hlcp <= t.hlcp && s.mpp <= t.mpp
    ensures Composite(table, s) <= Composite(table, t)
  {
    W.NormalizedShares(table);
    hide Times, Round;
    var a, b, c := W.Normalized(table, W.Hmp), W.Normalized(table, W.Hlcp), W.Normalized(table, W.Mpp);
    TimesGrows(a, s.hmp as real, t.hmp as real);
    TimesGrows(b, s.hlcp as real, t.hlcp as real);
    TimesGrows(c, s.mpp as real, t.mpp as real);
    hide W.Normalized;
    RoundGrows(Weighted(table, s), Weighted(table, t));
  }

  /** LONG wins when no engine scores it lower, also on a tie; SHORT when each of its scores is above all of
      LONG's.  The scores reported are the winner's. */
  lemma {:induction false} WinnerExact(table: W.Table, long: Scores, short: Scores, regime: G.Regime)
    requires W.Counted(table) && long.InRange() && short.InRange()
    ensures var r := ScoreConfluence(table, long, short, regime);
            && (long.hmp >= short.hmp && long.hlcp >= short.hlcp && long.mpp >= short.mpp ==> r.direction == Long)
            && (long.Least() >= short.Greatest() ==> r.direction == Long)
            && (short.Least() >= long.Greatest() + 1 ==> r.direction == Short)
            && r.scores == (match r.direction case Long => long case Short => short)
            && r.base == Composite(table, r.scores) && r.regime == regime
  {
    CompositeBetween(table, long);
    CompositeBetween(table, short);
    if long.hmp >= short.hmp && long.hlcp >= short.hlcp && long.mpp >= short.mpp {
      CompositeGrows(table, short, long);
    }
    hide Composite, Round;
  }

  /** Exchanging the two sides turns the direction, unless both composites are equal; then LONG wins either way.
      Nothing else changes but whose scores are reported on a tie. */
  lemma {:induction false} ExchangedSides(table: W.Table, long: Scores, short: Scores, regime: G.Regime)
    requires W.Counted(table)
    ensures var r, x := ScoreConfluence(table, long, short, regime), ScoreConfluence(table, short, long, regime);
            && x.base == r.base && x.composite == r.composite
            && (if Composite(table, long) != Composite(table, short)
                then x.direction == r.direction.Opposite() && x.scores == r.scores
                else x.direction == r.direction == Long)
  {
    hide Composite, Round;
  }

  /** The three scores' mean, rounded. */
  function RoundedMean(s: Scores): int {
    Round((s.hmp + s.hlcp + s.mpp) as real / 3.0)
  }

  /** After any run of closes, that is at equal weights, everything is known: the base is the greater of the two
      rounded means, the direction that of the greater, LONG on a tie, and the composite the base times the
      regime's factor, rounded. */
  lemma {:induction false} ConfluenceAfterCloses(outcomes: seq<bool>, long: Scores, short: Scores, regime: G.Regime)
    requires long.InRange() && short.InRange()
    ensures W.Counted(W.AfterCloses(outcomes))
    ensures var r := ScoreConfluence(W.AfterCloses(outcomes), long, short, regime);
            var l, s := RoundedMean(long), RoundedMean(short);
            var factor := match regime
              case Trend => 1.05 case Chop => 0.85 case Breakout => 1.0 case Reversal => 0.9 case OtherRegime => 1.0;
            && r.direction == (if l >= s then Long else Short)
            && r.base == (if l >= s then l else s)
            && r.composite == Round(Times(r.base as real, factor))
  {
    var table := W.AfterCloses(outcomes);
    W.ClosesTeachNothing(outcomes, W.Hmp);
    W.ClosesTeachNothing(outcomes, W.Hlcp);
    W.ClosesTeachNothing(outcomes, W.Mpp);
    hide W.AfterCloses, W.Normalized, Round;
    MeanAtThirds(table, long);
    MeanAtThirds(table, short);
    hide Composite, Times;
  }

  lemma {:induction false} MeanAtThirds(table: W.Table, s: Scores)
    requires W.Counted(table) && s.InRange()
    requires W.Normalized(table, W.Hmp) == W.Normalized(table, W.Hlcp) == W.Normalized(table, W.Mpp) == 1.0 / 3.0
    ensures Composite(table, s) == RoundedMean(s)
  {
    CompositeBetween(table, s);
    hide W.Normalized, Round;
    assert Weighted(table, s) == (s.hmp + s.hlcp + s.mpp) as real / 3.0;
    RoundBetween(Weighted(table, s), 0, 60) by {
      assert 0.0 <= Weighted(table, s) <= 60.0;
    }
  }
}
