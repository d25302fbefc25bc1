/** Strategy weights learnt from closed positions (scoring/bayesian_weights.py). */
module Weights {
  import opened Algebra

  datatype Strategy = Hmp | Hlcp | Mpp

  datatype Row = Row(wins: nat, losses: nat, alpha: real, beta: real)

  /** The database table; a strategy without a row has never been updated. */
  type Table = map<Strategy, Row>

  const FRESH := Row(0, 0, 1.0, 1.0)

  function RowOf(table: Table, s: Strategy): Row {
    if s in table then table[s] else FRESH
  }

  function Updated(table: Table, s: Strategy, won: bool): Table {
    var r := RowOf(table, s);
    table[s := if won then Row(r.wins + 1, r.losses, r.alpha + 1.0, r.beta)
               else Row(r.wins, r.losses + 1, r.alpha, r.beta + 1.0)]
  }

  /** One closed position updates all three strategies with the same outcome (positions/state_machine.py). */
  function Closed(table: Table, won: bool): Table {
    Updated(Updated(Updated(table, Hmp, won), Hlcp, won), Mpp, won)
  }

  function AfterCloses(outcomes: seq<bool>): Table {
    if outcomes == [] then map[]
    else var n := |outcomes| - 1; Closed(AfterCloses(outcomes[..n]), outcomes[n])
  }

  /** The source divides alpha by alpha + beta, which cannot be 0 in a table that only updates built. */
  function RawWeight(r: Row): real
    requires r.alpha + r.beta != 0.0
  {
    r.alpha / (r.alpha + r.beta)
  }

  /** Every row counts its own wins and losses. */
  ghost predicate Counted(table: Table) {
    forall s :: s in table ==> table[s].alpha == 1.0 + table[s].wins as real && table[s].beta == 1.0 + table[s].losses as real
  }

  function Raw(table: Table, s: Strategy): (w: real)
    requires Counted(table)
  {
    RawWeight(RowOf(table, s))
  }

  function Total(table: Table): real
    requires Counted(table)
  {
    Raw(table, Hmp) + Raw(table, Hlcp) + Raw(table, Mpp)
  }

  function Normalized(table: Table, s: Strategy): real
    requires Counted(table)
  {
    if Total(table) <= 0.0 then 1.0 / 3.0 else Raw(table, s) / Total(table)
  }

  lemma UpdatedCounted(table: Table, s: Strategy, won: bool)
    requires Counted(table)
    ensures Counted(Updated(table, s, won))
  {
  }

  lemma QuotientTimes(x: real, d: real)
    requires d != 0.0
    ensures Times(d, x / d) == x
  {
  }

  lemma QuotientSign(x: real, d: real)
    requires 0.0 < x && 0.0 < d
    ensures 0.0 < x / d
    ensures x < d ==> x / d < 1.0
  {
    var q := x / d;
    QuotientTimes(x, d);
    assert Times(d, 1.0) == d;
    hide Times;
    if q >= 1.0 {
      TimesGrows(d, 1.0, q);
    }
    if q <= 0.0 {
      TimesGrows(d, q, 0.0);
      TimesZero(d);
    }
  }

  lemma RawInside(table: Table, s: Strategy)
    requires Counted(table)
    ensures 0.0 < Raw(table, s) < 1.0
  {
    var r := RowOf(table, s);
    QuotientSign(r.alpha, r.alpha + r.beta);
  }

  lemma UnitFactor(t: real, q: real)
    requires t > 0.0 && Times(t, q) == t
    ensures q == 1.0
  {
    assert Times(t, 1.0) == t;
    hide Times;
    TimesSum(t, q, -1.0);
    TimesNegative(t, 1.0);
    TimesNegative(t, q - 1.0);
    if q > 1.0 {
      TimesPositive(t, q - 1.0);
    } else if q < 1.0 {
      TimesPositive(t, -(q - 1.0));
    }
  }

  lemma SharesSum(a: real, b: real, c: real)
    requires a > 0.0 && b > 0.0 && c > 0.0
    ensures var t := a + b + c; a / t > 0.0 && b / t > 0.0 && c / t > 0.0 && a / t + b / t + c / t == 1.0
  {
    var t := a + b + c;
    var x, y, z := a / t, b / t, c / t;
    QuotientSign(a, t);
    QuotientSign(b, t);
    QuotientSign(c, t);
    QuotientTimes(a, t);
    QuotientTimes(b, t);
    QuotientTimes(c, t);
    hide Times;
    TimesSum(t, x, y);
    TimesSum(t, x + y, z);
    UnitFactor(t, x + y + z);
  }

  /** Normalised weights are positive and sum to 1. */
  lemma NormalizedShares(table: Table)
    requires Counted(table)
    ensures forall s :: Normalized(table, s) > 0.0
    ensures Normalized(table, Hmp) + Normalized(table, Hlcp) + Normalized(table, Mpp) == 1.0
  {
    forall s {
      RawInside(table, s);
    }
    RawInside(table, Hmp);
    RawInside(table, Hlcp);
    RawInside(table, Mpp);
    hide Raw;
    SharesSum(Raw(table, Hmp), Raw(table, Hlcp), Raw(table, Mpp));
    forall s
      ensures Normalized(table, s) > 0.0
    {
      match s
      case Hmp =>
      case Hlcp =>
      case Mpp =>
    }
  }

  /** All three rows stay the same, win for win and loss for loss. */
  lemma {:induction false} ClosesKeepRowsEqual(outcomes: seq<bool>)
    ensures Counted(AfterCloses(outcomes))
    ensures var t := AfterCloses(outcomes); RowOf(t, Hmp) == RowOf(t, Hlcp) == RowOf(t, Mpp)
  {
    if outcomes != [] {
      var n := |outcomes| - 1;
      ClosesKeepRowsEqual(outcomes[..n]);
      hide Counted, RowOf, Closed;
      CloseKeepsRowsEqual(AfterCloses(outcomes[..n]), outcomes[n]);
    } else {
      NoRows();
    }
  }

  lemma NoRows()
    ensures Counted(map[])
    ensures var t: Table := map[]; RowOf(t, Hmp) == RowOf(t, Hlcp) == RowOf(t, Mpp)
  {
  }

  lemma CloseKeepsRowsEqual(t: Table, won: bool)
    requires Counted(t) && RowOf(t, Hmp) == RowOf(t, Hlcp) == RowOf(t, Mpp)
    ensures Counted(Closed(t, won))
    ensures var u := Closed(t, won); RowOf(u, Hmp) == RowOf(u, Hlcp) == RowOf(u, Mpp)
  {
    var u := Updated(t, Hmp, won);
    var v := Updated(u, Hlcp, won);
    UpdatedCounted(t, Hmp, won);
    UpdatedCounted(u, Hlcp, won);
    UpdatedCounted(v, Mpp, won);
    hide Counted;
  }

  lemma Third(w: real)
    requires w > 0.0
    ensures w / (w + w + w) == 1.0 / 3.0
  {
    assert w / (3.0 * w) == 1.0 / 3.0 by {
      assert (1.0 / 3.0) * (3.0 * w) == w;
    }
  }

  /** After any run of closes the three weights are exactly one third each: the updates teach nothing. */
  lemma {:induction false} ClosesTeachNothing(outcomes: seq<bool>, s: Strategy)
    ensures Counted(AfterCloses(outcomes)) && Normalized(AfterCloses(outcomes), s) == 1.0 / 3.0
  {
    ClosesKeepRowsEqual(outcomes);
    var table := AfterCloses(outcomes);
    hide AfterCloses;
    RawInside(table, Hmp);
    Third(Raw(table, Hmp));
    match s
    case Hmp =>
    case Hlcp =>
    case Mpp =>
  }

  // ----- Any run of updates -------------------------------------------------

  datatype Outcome = Outcome(strategy: Strategy, won: bool)

  function AfterUpdates(outcomes: seq<Outcome>): Table {
    if outcomes == [] then map[]
    else
      var n := |outcomes| - 1;
      Updated(AfterUpdates(outcomes[..n]), outcomes[n].strategy, outcomes[n].won)
  }

  /** How often that strategy had that outcome. */
  ghost function Occurrences(outcomes: seq<Outcome>, o: Outcome): set<int> {
    set i | 0 <= i < |outcomes| && outcomes[i] == o
  }

  lemma OccurrencesSnoc(outcomes: seq<Outcome>, o: Outcome)
    requires outcomes != []
    ensures var n := |outcomes| - 1;
            && Occurrences(outcomes, o) == Occurrences(outcomes[..n], o) + (if outcomes[n] == o then {n} else {})
            && n !in Occurrences(outcomes[..n], o)
  {
  }

  /** In every run of updates, a strategy's row counts its wins and its losses, and its weight before normalising
      is (1 + wins) / (2 + wins + losses). */
  lemma {:induction false} RowExact(outcomes: seq<Outcome>, s: Strategy)
    ensures var table := AfterUpdates(outcomes);
            var wins, losses := |Occurrences(outcomes, Outcome(s, true))|, |Occurrences(outcomes, Outcome(s, false))|;
            && Counted(table)
            && RowOf(table, s).wins == wins && RowOf(table, s).losses == losses
            && Raw(table, s) == (1 + wins) as real / (2 + wins + losses) as real
  {
    hide Occurrences, RowOf, Counted, Raw, Updated;
    if outcomes == [] {
      NothingLearnt(s);
    } else {
      var n := |outcomes| - 1;
      var before, o := AfterUpdates(outcomes[..n]), outcomes[n];
      RowExact(outcomes[..n], s);
      OccurrencesSnoc(outcomes, Outcome(s, true));
      OccurrencesSnoc(outcomes, Outcome(s, false));
      UpdatedCounted(before, o.strategy, o.won);
      UpdatedRow(before, o.strategy, o.won, s);
    }
    RawOfCounts(AfterUpdates(outcomes), s);
  }

  lemma NothingLearnt(s: Strategy)
    ensures Counted(map[]) && RowOf(map[], s) == FRESH
    ensures forall o :: Occurrences([], o) == {}
  {
  }

  lemma UpdatedRow(table: Table, t: Strategy, won: bool, s: Strategy)
    ensures var r, u := RowOf(table, s), RowOf(Updated(table, t, won), s);
            && u.wins == r.wins + (if t == s && won then 1 else 0)
            && u.losses == r.losses + (if t == s && !won then 1 else 0)
  {
  }

  lemma RawOfCounts(table: Table, s: Strategy)
    requires Counted(table)
    ensures var r := RowOf(table, s); Raw(table, s) == (1 + r.wins) as real / (2 + r.wins + r.losses) as real
  {
  }

  /** Normalising keeps the proportions. */
  lemma {:induction false} NormalizedProportion(table: Table, s: Strategy, t: Strategy)
    requires Counted(table)
    ensures Times(Normalized(table, s), Raw(table, t)) == Times(Normalized(table, t), Raw(table, s))
  {
    RawInside(table, Hmp);
    RawInside(table, Hlcp);
    RawInside(table, Mpp);
    hide Raw;
    ShareProportion(Raw(table, s), Raw(table, t), Total(table));
  }

  lemma ShareProportion(x: real, y: real, total: real)
    requires total > 0.0
    ensures Times(x / total, y) == Times(y / total, x)
  {
    var u, v := x / total, y / total;
    assert u * total == x && v * total == y;
    assert u * (v * total) == v * (u * total);
  }

  class BayesianWeightUpdater {
    var table: Table

    constructor ()
      ensures Valid() && table == map[]
    {
      table := map[];
    }

    /** Every row counts its own wins and losses, which rules out a division by zero. */
    ghost predicate Valid()
      reads this
    {
      Counted(table)
    }

    method Update(strategy: Strategy, won: bool)
      requires Valid()
      modifies this
      ensures Valid() && table == Updated(old(table), strategy, won)
    {
      UpdatedCounted(table, strategy, won);
      var row := if strategy in table then table[strategy] else FRESH;
      var wins, losses, alpha, beta := row.wins, row.losses, row.alpha, row.beta;
      if won {
        wins := wins + 1;
        alpha := alpha + 1.0;
      } else {
        losses := losses + 1;
        beta := beta + 1.0;
      }
      table := table[strategy := Row(wins, losses, alpha, beta)];
    }

    /** The source's loop over the three strategies. */
    method GetNormalizedWeights() returns (weights: map<Strategy, real>)
      requires Valid()
      ensures forall s :: s in weights && weights[s] == Normalized(table, s)
    {
      var strategies := [Hmp, Hlcp, Mpp];
      var raw: map<Strategy, real> := map[];
      var totals := 0.0;
      for i := 0 to 3
        invariant forall k :: 0 <= k < i ==> strategies[k] in raw && raw[strategies[k]] == Raw(table, strategies[k])
        invariant i == 0 ==> totals == 0.0
        invariant i == 1 ==> totals == Raw(table, Hmp)
        invariant i == 2 ==> totals == Raw(table, Hmp) + Raw(table, Hlcp)
        invariant i == 3 ==> totals == Total(table)
      {
        var strategy := strategies[i];
        var row := if strategy in table then table[strategy] else FRESH;
        var weight := row.alpha / (row.alpha + row.beta);
        raw := raw[strategy := weight];
        totals := totals + weight;
      }
      assert raw[strategies[0]] == Raw(table, Hmp) && raw[strategies[1]] == Raw(table, Hlcp)
          && raw[strategies[2]] == Raw(table, Mpp);
      if totals <= 0.0 {
        weights := map[Hmp := 1.0 / 3.0, Hlcp := 1.0 / 3.0, Mpp := 1.0 / 3.0];
      } else {
        weights := map[Hmp := raw[Hmp] / totals, Hlcp := raw[Hlcp] / totals, Mpp := raw[Mpp] / totals];
      }
      forall s
        ensures s in weights && weights[s] == Normalized(table, s)
      {
        match s
        case Hmp =>
        case Hlcp =>
        case Mpp =>
      }
    }
  }
}
