/** The Schmitt hysteresis gate (scoring/gate.py): three counters per symbol against a history. */
module Gate {

  datatype Regime = Trend | Chop | Breakout | Reversal | OtherRegime

  datatype Decision = Discard | Watchlist | Alert | FullAuto | FullAutoStrong

  const SUSTAIN_CYCLES := 2
  const STRONG_BONUS := 20
  const WATCHLIST_DECAY_BARS := 15

  function Threshold(regime: Regime): int {
    match regime
    case Trend => 130
    case Chop => 155
    case Breakout => 140
    case Reversal => 145
    case OtherRegime => 140
  }

  /** What happens to one symbol: a score is evaluated, or its state is reset. */
  datatype Event = Score(regime: Regime, composite: int) | Reset {
    predicate Above() {
      Score? && composite >= Threshold(regime)
    }

    predicate Strong() {
      Score? && composite >= Threshold(regime) + STRONG_BONUS
    }

    /** In the watch band: within 20 points below the threshold. */
    predicate InBand() {
      Score? && Threshold(regime) - 20 <= composite < Threshold(regime)
    }
  }

  // ----- The history specification -----------------------------------------

  function Last(h: seq<Event>): Event
    requires h != []
  {
    h[|h| - 1]
  }

  /** The latest two events are both scores at or above their own thresholds. */
  predicate Executes(h: seq<Event>) {
    |h| >= 2 && h[|h| - 1].Above() && h[|h| - 2].Above()
  }

  /** The latest score is at or above its threshold, and the event before it was not. */
  predicate Crosses(h: seq<Event>) {
    h != [] && Last(h).Above() && !Executes(h)
  }

  /** First-crossings since the last execution or reset, the latest event included. */
  function Crossings(h: seq<Event>): nat {
    if h == [] || Last(h).Reset? || Executes(h) then 0
    else Crossings(h[..|h| - 1]) + if Crosses(h) then 1 else 0
  }

  /** Watch-band visits since the last clear (a reset, or a score at or above its threshold). */
  function Visits(h: seq<Event>): nat {
    if h == [] || Last(h).Reset? || Last(h).Above() then 0
    else Visits(h[..|h| - 1]) + if Last(h).InBand() then 1 else 0
  }

  /** The decision on the latest score, from the history alone. */
  function Decide(h: seq<Event>): Decision {
    if Executes(h) then if Last(h).Strong() then FullAutoStrong else FullAuto
    else if Crosses(h) then if Crossings(h) % 11 == 1 then Alert else Discard
    else if h != [] && Last(h).InBand() then if Visits(h) % 16 == 0 then Discard else Watchlist
    else Discard
  }

  // ----- The counters ------------------------------------------------------

  datatype Counters = Counters(consecutive: nat, cooldown: nat, decay: nat)

  const CLEAR := Counters(0, 0, 0)

  /** What one evaluation does to a symbol's counters. */
  function Judge(c: Counters, regime: Regime, composite: int): (Counters, Decision) {
    var threshold := Threshold(regime);
    var consecutive := if composite >= threshold then c.consecutive + 1 else 0;
    var decay := if composite >= threshold then 0 else c.decay;
    if consecutive >= SUSTAIN_CYCLES && composite >= threshold + STRONG_BONUS then
      (Counters(consecutive, 0, decay), FullAutoStrong)
    else if consecutive >= SUSTAIN_CYCLES && composite >= threshold then
      (Counters(consecutive, 0, decay), FullAuto)
    else if consecutive == 1 && composite >= threshold then
      if c.cooldown == 0 then (Counters(consecutive, 10, decay), Alert)
      else (Counters(consecutive, c.cooldown - 1, decay), Discard)
    else if composite >= threshold - 20 then
      if decay + 1 <= WATCHLIST_DECAY_BARS then (Counters(consecutive, c.cooldown, decay + 1), Watchlist)
      else (Counters(consecutive, c.cooldown, 0), Discard)
    else (Counters(consecutive, c.cooldown, decay), Discard)
  }

  function After(h: seq<Event>): Counters {
    if h == [] then CLEAR
    else
      match Last(h)
      case Reset => CLEAR
      case Score(regime, composite) => Judge(After(h[..|h| - 1]), regime, composite).0
  }

  /** Each counter in closed form. */
  ghost predicate ClosedForm(c: Counters, h: seq<Event>) {
    && (c.consecutive >= 2 <==> Executes(h))
    && (c.consecutive == 1 <==> Crosses(h))
    && c.cooldown == (10 * Crossings(h)) % 11
    && c.decay == Visits(h) % 16
  }

  lemma Remainder(x: int, q: int, r: int)
    requires x == 11 * q + r && 0 <= r < 11
    ensures x % 11 == r
  {
  }

  /** Counting down from 10 to 0 and starting over is counting up by 10 modulo 11. */
  lemma CooldownArithmetic(k: nat)
    ensures (10 * (k + 1)) % 11 == if (10 * k) % 11 == 0 then 10 else (10 * k) % 11 - 1
    ensures (10 * k) % 11 == 0 <==> (k + 1) % 11 == 1
  {
    CountDown(k);
    BackAtZero(k);
  }

  lemma CountDown(k: nat)
    ensures (10 * (k + 1)) % 11 == if (10 * k) % 11 == 0 then 10 else (10 * k) % 11 - 1
  {
    var q, r := 10 * k / 11, 10 * k % 11;
    if r == 0 {
      Remainder(10 * (k + 1), q, 10);
    } else {
      Remainder(10 * (k + 1), q + 1, r - 1);
    }
  }

  lemma BackAtZero(k: nat)
    ensures (10 * k) % 11 == 0 <==> (k + 1) % 11 == 1
  {
    var a, b := k / 11, k % 11;
    if b == 0 {
      Remainder(10 * k, 10 * a, 0);
    } else {
      Remainder(10 * k, 10 * a + b - 1, 11 - b);
    }
    if b < 10 {
      Remainder(k + 1, a, b + 1);
    } else {
      Remainder(k + 1, a + 1, 0);
    }
  }

  /** What one more event does to every history function. */
  lemma OneMoreEvent(h: seq<Event>, e: Event)
    ensures var h' := h + [e];
            && h' != [] && h'[..|h|] == h && Last(h') == e
            && (Executes(h') <==> e.Above() && (Executes(h) || Crosses(h)))
            && (Crosses(h') <==> e.Above() && !Executes(h) && !Crosses(h))
            && Crossings(h') == (if e.Reset? || Executes(h') then 0 else Crossings(h) + if Crosses(h') then 1 else 0)
            && Visits(h') == (if e.Reset? || e.Above() then 0 else Visits(h) + if e.InBand() then 1 else 0)
  {
    var h' := h + [e];
    assert h'[..|h|] == h;
    assert |h| >= 1 ==> h'[|h'| - 2] == Last(h);
    hide Crossings, Visits;
    UnfoldCounts(h');
  }

  lemma UnfoldCounts(h: seq<Event>)
    requires h != []
    ensures var before := h[..|h| - 1];
            && Crossings(h) == (if Last(h).Reset? || Executes(h) then 0 else Crossings(before) + if Crosses(h) then 1 else 0)
            && Visits(h) == (if Last(h).Reset? || Last(h).Above() then 0 else Visits(before) + if Last(h).InBand() then 1 else 0)
  {
  }

  /** One evaluation keeps the closed forms and decides as the history demands. */
  lemma JudgeKeepsForm(c: Counters, h: seq<Event>, regime: Regime, composite: int)
    requires ClosedForm(c, h)
    ensures var h' := h + [Score(regime, composite)];
            ClosedForm(Judge(c, regime, composite).0, h') && Judge(c, regime, composite).1 == Decide(h')
  {
    OneMoreEvent(h, Score(regime, composite));
    CooldownArithmetic(Crossings(h));
    hide Executes, Crosses, Crossings, Visits, Threshold;
  }

  lemma ResetClears(h: seq<Event>)
    ensures ClosedForm(CLEAR, h + [Reset])
  {
    OneMoreEvent(h, Reset);
    hide Executes, Crosses, Crossings, Visits;
  }

  lemma {:induction false} CountersInClosedForm(h: seq<Event>)
    ensures ClosedForm(After(h), h)
  {
    hide Judge, ClosedForm;
    if h == [] {
      NothingCounted();
    } else {
      var before := h[..|h| - 1];
      CountersInClosedForm(before);
      assert h == before + [Last(h)];
      match Last(h)
      case Reset => ResetClears(before);
      case Score(regime, composite) => JudgeKeepsForm(After(before), before, regime, composite);
    }
  }

  lemma NothingCounted()
    ensures ClosedForm(CLEAR, [])
  {
  }

  /** In any history, the counters decide exactly what the history demands. */
  lemma {:induction false} JudgeIsDecide(h: seq<Event>, regime: Regime, composite: int)
    ensures Judge(After(h), regime, composite).1 == Decide(h + [Score(regime, composite)])
    ensures Judge(After(h), regime, composite).0 == After(h + [Score(regime, composite)])
  {
    hide Judge, Decide, ClosedForm;
    assert (h + [Score(regime, composite)])[..|h|] == h;
    CountersInClosedForm(h);
    JudgeKeepsForm(After(h), h, regime, composite);
  }

  /** The score a signal has to reach in each regime. */
  function Line(regime: Regime): int {
    match regime case Trend => 130 case Chop => 155 case Breakout => 140 case Reversal => 145 case OtherRegime => 140
  }

  /** The score just evaluated is the second in a row at or above its line. */
  ghost predicate SecondInARow(h: seq<Event>) {
    h != [] && Last(h).Score? && Last(h).composite >= Line(Last(h).regime)
  }

  /** What each decision means: execution for the second score in a row at its line, strong from 20 above; an alert
      for a first one, of which ten in a row stay silent after each; a place on the watchlist within 20 below, but
      not for every sixteenth visit; and otherwise nothing. */
  lemma {:induction false} DecisionExact(h: seq<Event>, regime: Regime, composite: int)
    ensures var all := h + [Score(regime, composite)];
            var above, second := composite - Line(regime), SecondInARow(h);
            && (Decide(all) == FullAutoStrong <==> above >= 20 && second)
            && (Decide(all) == FullAuto <==> 0 <= above < 20 && second)
            && (Decide(all) == Alert <==> above >= 0 && !second && Crossings(all) % 11 == 1)
            && (Decide(all) == Watchlist <==> -20 <= above < 0 && Visits(all) % 16 != 0)
  {
    OneMoreEvent(h, Score(regime, composite));
    assert Executes(h) || Crosses(h) <==> SecondInARow(h);
    hide Executes, Crosses, Crossings, Visits;
  }

  // ----- Many symbols ------------------------------------------------------

  datatype Entry = Entry(symbol: string, event: Event)

  /** One symbol's own history. */
  function Project(history: seq<Entry>, symbol: string): seq<Event> {
    if history == [] then []
    else
      var n := |history| - 1;
      Project(history[..n], symbol) + if history[n].symbol == symbol then [history[n].event] else []
  }

  class ConfluenceGate {
    var consecutive: map<string, nat>
    var alertCooldown: map<string, nat>
    var watchlistDecay: map<string, nat>
    ghost var history: seq<Entry>

    constructor ()
      ensures Valid() && history == []
    {
      consecutive, alertCooldown, watchlistDecay := map[], map[], map[];
      history := [];
    }

    static function Get(m: map<string, nat>, symbol: string): nat {
      if symbol in m then m[symbol] else 0
    }

    function CountersOf(symbol: string): Counters
      reads this
    {
      Counters(Get(consecutive, symbol), Get(alertCooldown, symbol), Get(watchlistDecay, symbol))
    }

    /** Every symbol's counters are those of its own history: nothing leaks from one to another. */
    ghost predicate Valid()
      reads this
    {
      forall symbol :: CountersOf(symbol) == After(Project(history, symbol))
    }

    method Evaluate(symbol: string, regime: Regime, composite: int) returns (decision: Decision)
      requires Valid()
      modifies this
      ensures Valid()
      ensures history == old(history) + [Entry(symbol, Score(regime, composite))]
      ensures decision == Decide(Project(history, symbol))
    {
      hide After, Project, Decide, Judge;
      history := history + [Entry(symbol, Score(regime, composite))];
      decision := UpdateCounters(symbol, regime, composite);
      ProjectSnoc(old(history), Entry(symbol, Score(regime, composite)));
      JudgeIsDecide(Project(old(history), symbol), regime, composite);
    }

    /** The body of `evaluate`, against the counters alone. */
    method UpdateCounters(symbol: string, regime: Regime, composite: int) returns (decision: Decision)
      modifies this`consecutive, this`alertCooldown, this`watchlistDecay
      ensures (CountersOf(symbol), decision) == Judge(old(CountersOf(symbol)), regime, composite)
      ensures forall s :: s != symbol ==> CountersOf(s) == old(CountersOf(s))
    {
      var threshold := Threshold(regime);
      CountCycle(symbol, composite >= threshold);
      var cycles := Get(consecutive, symbol);
      if cycles >= SUSTAIN_CYCLES && composite >= threshold + STRONG_BONUS {
        alertCooldown := alertCooldown - {symbol};
        return FullAutoStrong;
      }
      if cycles >= SUSTAIN_CYCLES && composite >= threshold {
        alertCooldown := alertCooldown - {symbol};
        return FullAuto;
      }
      if cycles == 1 && composite >= threshold {
        var cooldown := Get(alertCooldown, symbol);
        if cooldown == 0 {
          alertCooldown := alertCooldown[symbol := 10];
          return Alert;
        }
        alertCooldown := alertCooldown[symbol := if cooldown - 1 < 0 then 0 else cooldown - 1];
        return Discard;
      }
      if composite >= threshold - 20 {
        watchlistDecay := watchlistDecay[symbol := Get(watchlistDecay, symbol) + 1];
        if Get(watchlistDecay, symbol) <= WATCHLIST_DECAY_BARS {
          return Watchlist;
        }
        watchlistDecay := watchlistDecay - {symbol};
      }
      return Discard;
    }

    method CountCycle(symbol: string, above: bool)
      modifies this`consecutive, this`watchlistDecay
      ensures var c := old(CountersOf(symbol));
              CountersOf(symbol) == if above then Counters(c.consecutive + 1, c.cooldown, 0) else Counters(0, c.cooldown, c.decay)
      ensures forall s :: s != symbol ==> CountersOf(s) == old(CountersOf(s))
    {
      if above {
        consecutive := consecutive[symbol := Get(consecutive, symbol) + 1];
        watchlistDecay := watchlistDecay - {symbol};
      } else {
        consecutive := consecutive[symbol := 0];
      }
    }

    method ResetSymbol(symbol: string)
      requires Valid()
      modifies this
      ensures Valid()
      ensures history == old(history) + [Entry(symbol, Reset)]
    {
      consecutive := consecutive - {symbol};
      alertCooldown := alertCooldown - {symbol};
      watchlistDecay := watchlistDecay - {symbol};
      history := history + [Entry(symbol, Reset)];
      ProjectSnoc(old(history), Entry(symbol, Reset));
      assert forall s :: s != symbol ==> CountersOf(s) == old(CountersOf(s));
    }
  }

  lemma {:induction false} ProjectSnoc(history: seq<Entry>, e: Entry)
    ensures forall symbol :: Project(history + [e], symbol)
                          == if symbol == e.symbol then Project(history, symbol) + [e.event] else Project(history, symbol)
  {
    assert (history + [e])[..|history|] == history;
  }
}
