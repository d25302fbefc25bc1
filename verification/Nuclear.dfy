/** The seven nuclear triggers, in the order in which they are asked (nuclear/triggers.py). */
module NuclearTriggers {
  import opened Market

  datatype Reason =
    | CombinedProfit | DailyGainTarget | LossProtection | DailyLossLimit
    | MarketExhaustion | LatencyAnomaly | CorrelationSpike

  /** What the triggers read of the portfolio state. */
  datatype Readings = Readings(
    openPositions: nat, startingEquity: real, realizedPnl: real, unrealizedPnl: real,
    basketRsi: real, fillLatencyMs: real, pairCorrelation: real)

  predicate Holds(r: Reason, s: Readings) {
    match r
    case CombinedProfit => s.unrealizedPnl >= 10.0
    case DailyGainTarget => s.realizedPnl + s.unrealizedPnl >= s.startingEquity * 0.15
    case LossProtection => s.unrealizedPnl <= -6.0
    case DailyLossLimit => s.realizedPnl + s.unrealizedPnl <= -(s.startingEquity * 0.04)
    case MarketExhaustion => s.basketRsi < 25.0 || s.basketRsi > 75.0
    case LatencyAnomaly => s.fillLatencyMs > 500.0
    case CorrelationSpike => s.pairCorrelation > 0.80
  }

  const TRIGGERS := [
    CombinedProfit, DailyGainTarget, LossProtection, DailyLossLimit,
    MarketExhaustion, LatencyAnomaly, CorrelationSpike]

  function FirstOf(reasons: seq<Reason>, s: Readings): Option<Reason> {
    if reasons == [] then None
    else if Holds(reasons[0], s) then Some(reasons[0])
    else FirstOf(reasons[1..], s)
  }

  function EvaluateTriggers(s: Readings): Option<Reason> {
    if s.openPositions == 0 then None else FirstOf(TRIGGERS, s)
  }

  lemma {:induction false} FirstOfExact(reasons: seq<Reason>, s: Readings)
    ensures match FirstOf(reasons, s)
            case None => forall i :: 0 <= i < |reasons| ==> !Holds(reasons[i], s)
            case Some(r) => exists i :: 0 <= i < |reasons| && reasons[i] == r && Holds(r, s)
                                     && forall j :: 0 <= j < i ==> !Holds(reasons[j], s)
  {
    if reasons != [] && !Holds(reasons[0], s) {
      var rest := reasons[1..];
      FirstOfExact(rest, s);
      match FirstOf(rest, s)
      case None =>
        assert forall i :: 1 <= i < |reasons| ==> reasons[i] == rest[i - 1];
      case Some(r) =>
        var i :| 0 <= i < |rest| && rest[i] == r && forall j :: 0 <= j < i ==> !Holds(rest[j], s);
        assert reasons[i + 1] == r;
        assert forall j :: 1 <= j < i + 1 ==> reasons[j] == rest[j - 1];
    }
  }

  /** What each reason says about the portfolio. */
  ghost predicate Calls(r: Reason, s: Readings) {
    var daily := s.realizedPnl + s.unrealizedPnl;
    match r
    case CombinedProfit => s.unrealizedPnl >= 10.0
    case DailyGainTarget => daily >= 0.15 * s.startingEquity
    case LossProtection => s.unrealizedPnl <= -6.0
    case DailyLossLimit => daily <= -0.04 * s.startingEquity
    case MarketExhaustion => !(25.0 <= s.basketRsi <= 75.0)
    case LatencyAnomaly => s.fillLatencyMs > 500.0
    case CorrelationSpike => s.pairCorrelation > 0.80
  }

  function Place(r: Reason): int {
    match r
    case CombinedProfit => 0 case DailyGainTarget => 1 case LossProtection => 2 case DailyLossLimit => 3
    case MarketExhaustion => 4 case LatencyAnomaly => 5 case CorrelationSpike => 6
  }

  /** Nothing fires exactly when there is nothing to close or no reason calls for it; otherwise the reason is the
      first in order that does. */
  lemma {:induction false} EvaluateExact(s: Readings)
    ensures match EvaluateTriggers(s)
            case None => s.openPositions == 0 || forall r :: !Calls(r, s)
            case Some(r) => s.openPositions > 0 && Calls(r, s) && forall earlier :: Place(earlier) < Place(r) ==> !Calls(earlier, s)
  {
    FirstOfExact(TRIGGERS, s);
    forall r
      ensures TRIGGERS[Place(r)] == r && (Holds(r, s) <==> Calls(r, s))
    {
      ReasonIs(r, s);
    }
    assert forall i :: 0 <= i < |TRIGGERS| ==> Place(TRIGGERS[i]) == i;
    hide Holds, Calls, FirstOf, Place;
  }

  lemma ReasonIs(r: Reason, s: Readings)
    ensures 0 <= Place(r) < |TRIGGERS| && TRIGGERS[Place(r)] == r && (Holds(r, s) <==> Calls(r, s))
  {
  }
}

/** The cooldown protocol: polls of the nuclear controller (nuclear/controller.py, nuclear/cooldown.py)
    interleaved with the pause and resume commands and the midnight reset. */
module NuclearCooldown {
  import opened Market
  import opened NuclearTriggers

  const COOLDOWN_MS := 900_000

  /** `closing` is the clock reading of a poll that has fired and is still waiting for its closes. */
  datatype State = State(
    readings: Readings, lastNuclearTs: int, nuclearCount: nat, dayLocked: bool, breaker: bool, closing: Option<int>)

  const FRESH := State(Readings(0, 10_000.0, 0.0, 0.0, 50.0, 0.0, 0.0), 0, 0, false, false, None)

  /** A poll runs in one go unless a trigger fires; then it waits for the closes and either records the
      event or is lost to an exception.  Anything may happen while it waits, except another poll. */
  datatype Event =
    | Poll(now: int)
    | Recorded
    | Lost
    | Pause
    | Resume
    | ResetDaily(equity: real)
    | Update(readings: Readings)

  function WithCooldown(s: State, now: int): State {
    s.(dayLocked := s.dayLocked || s.nuclearCount >= 2, breaker := now - s.lastNuclearTs < COOLDOWN_MS)
  }

  function Step(s: State, e: Event): State {
    match e
    case Poll(now) =>
      if s.closing.Some? then s
      else if EvaluateTriggers(s.readings).Some? then s.(closing := Some(now))
      else WithCooldown(s, now)
    case Recorded =>
      if s.closing.None? then s
      else
        var now := s.closing.value;
        WithCooldown(s.(lastNuclearTs := now, nuclearCount := s.nuclearCount + 1, closing := None), now)
    case Lost => s.(closing := None)
    case Pause => s.(breaker := true)
    case Resume => if s.dayLocked then s else s.(breaker := false)
    case ResetDaily(equity) =>
      s.(readings := s.readings.(startingEquity := equity, realizedPnl := 0.0, unrealizedPnl := 0.0),
         dayLocked := false, nuclearCount := 0)
    case Update(readings) => s.(readings := readings)
  }

  ghost function Run(events: seq<Event>): State {
    if events == [] then FRESH else Step(Run(events[..|events| - 1]), events[|events| - 1])
  }

  // ----- What the history says ------------------------------------------------

  /** Event i completes a fire. */
  ghost predicate Fires(events: seq<Event>, i: int) {
    0 <= i < |events| && events[i].Recorded? && Run(events[..i]).closing.Some?
  }

  /** When the poll that fire belongs to read the clock. */
  ghost function FiredAt(events: seq<Event>, i: int): int
    requires Fires(events, i)
  {
    Run(events[..i]).closing.value
  }

  /** Event i is a poll that fires nothing. */
  ghost predicate Quiet(events: seq<Event>, i: int) {
    0 <= i < |events| && events[i].Poll? && Run(events[..i]).closing.None?
    && EvaluateTriggers(Run(events[..i]).readings).None?
  }

  /** The fires since the last reset. */
  ghost function FiresToday(events: seq<Event>): set<int> {
    set i | 0 <= i < |events| && Fires(events, i) && !ResetAfter(events, i)
  }

  ghost predicate ResetAfter(events: seq<Event>, i: int)
    requires 0 <= i
  {
    exists j :: i < j < |events| && events[j].ResetDaily?
  }

  /** The polls read a clock that never goes back, at least 15 minutes after its epoch. */
  ghost predicate Forward(events: seq<Event>) {
    && (forall i :: 0 <= i < |events| && events[i].Poll? ==> events[i].now >= COOLDOWN_MS)
    && (forall i, j :: 0 <= i < j < |events| && events[i].Poll? && events[j].Poll? ==> events[i].now <= events[j].now)
  }

  lemma Earlier(events: seq<Event>, i: int)
    requires events != [] && 0 <= i < |events| - 1
    ensures events[..|events| - 1][..i] == events[..i]
    ensures Fires(events, i) <==> Fires(events[..|events| - 1], i)
    ensures Quiet(events, i) <==> Quiet(events[..|events| - 1], i)
  {
    assert events[..|events| - 1][..i] == events[..i];
    hide Run, EvaluateTriggers;
  }

  // ----- The count and the day lock -------------------------------------------

  lemma TodayGrows(events: seq<Event>)
    requires events != []
    ensures var n := |events| - 1;
            FiresToday(events) ==
              if events[n].ResetDaily? then {}
              else FiresToday(events[..n]) + (if Fires(events, n) then {n} else {})
  {
    var n := |events| - 1;
    var init := events[..n];
    forall i | 0 <= i < n
      ensures Fires(events, i) <==> Fires(init, i)
      ensures ResetAfter(events, i) <==> ResetAfter(init, i) || events[n].ResetDaily?
    {
      Earlier(events, i);
      ResetAfterGrows(events, i);
    }
    assert !ResetAfter(events, n);
    hide Run, ResetAfter;
    if events[n].ResetDaily? {
      assert !Fires(events, n);
    }
    hide Fires;
  }

  lemma ResetAfterGrows(events: seq<Event>, i: int)
    requires events != [] && 0 <= i < |events| - 1
    ensures ResetAfter(events, i) <==> ResetAfter(events[..|events| - 1], i) || events[|events| - 1].ResetDaily?
  {
    var init := events[..|events| - 1];
    if ResetAfter(init, i) {
      var j :| i < j < |init| && init[j].ResetDaily?;
      assert events[j] == init[j];
    }
    if ResetAfter(events, i) {
      var j :| i < j < |events| && events[j].ResetDaily?;
      assert j < |init| ==> init[j] == events[j];
    }
  }

  lemma StepCounts(s: State, e: Event)
    requires s.dayLocked <==> s.nuclearCount >= 2
    ensures Step(s, e).nuclearCount ==
              if e.ResetDaily? then 0 else s.nuclearCount + (if e.Recorded? && s.closing.Some? then 1 else 0)
    ensures Step(s, e).dayLocked <==> Step(s, e).nuclearCount >= 2
  {
    hide EvaluateTriggers;
  }

  /** The count is the number of fires since the last reset, and the day is locked exactly when there are two. */
  lemma {:induction false} CountExact(events: seq<Event>)
    ensures Run(events).nuclearCount == |FiresToday(events)|
    ensures Run(events).dayLocked <==> |FiresToday(events)| >= 2
  {
    if events == [] {
      assert FiresToday(events) == {};
    } else {
      var n := |events| - 1;
      var init := events[..n];
      CountExact(init);
      TodayGrows(events);
      assert n !in FiresToday(init);
      assert Run(events) == Step(Run(init), events[n]);
      assert init == events[..n];
      hide FiresToday, EvaluateTriggers, Run, Step;
      StepCounts(Run(init), events[n]);
      var today := FiresToday(init);
      assert |today + {n}| == |today| + 1;
    }
  }

  /** Once locked, the day stays locked until a reset, and no resume before that changes anything. */
  lemma {:induction false} LockedUntilReset(before: seq<Event>, after: seq<Event>)
    requires Run(before).dayLocked
    requires forall i :: 0 <= i < |after| ==> !after[i].ResetDaily?
    ensures Run(before + after).dayLocked
    ensures Run(before + after + [Resume]) == Run(before + after)
  {
    var events := before + after;
    assert (events + [Resume])[..|events|] == events;
    if after == [] {
      assert events == before;
    } else {
      var n := |after| - 1;
      LockedUntilReset(before, after[..n]);
      assert events[..|events| - 1] == before + after[..n];
      hide EvaluateTriggers;
    }
  }

  // ----- The cooldown -----------------------------------------------------------

  /** The recorded times come from earlier polls, in order. */
  ghost predicate Clocked(events: seq<Event>) {
    var s := Run(events);
    && (s.lastNuclearTs == 0 || Polled(events, s.lastNuclearTs))
    && (s.closing.Some? ==> Polled(events, s.closing.value) && s.lastNuclearTs <= s.closing.value)
  }

  ghost predicate Polled(events: seq<Event>, now: int) {
    exists i :: 0 <= i < |events| && events[i] == Poll(now)
  }

  lemma PolledGrows(events: seq<Event>, now: int)
    requires events != []
    ensures Polled(events, now) <==> Polled(events[..|events| - 1], now) || events[|events| - 1] == Poll(now)
  {
    var init := events[..|events| - 1];
    if Polled(init, now) {
      var i :| 0 <= i < |init| && init[i] == Poll(now);
      assert events[i] == Poll(now);
    }
    if Polled(events, now) {
      var i :| 0 <= i < |events| && events[i] == Poll(now);
      assert i < |init| ==> init[i] == Poll(now);
    }
  }

  /** What one step does to the two times. */
  lemma StepTimes(s: State, e: Event)
    ensures Step(s, e).lastNuclearTs == if e.Recorded? && s.closing.Some? then s.closing.value else s.lastNuclearTs
    ensures Step(s, e).closing ==
              if e.Poll? && s.closing.None? && EvaluateTriggers(s.readings).Some? then Some(e.now)
              else if e.Recorded? || e.Lost? then None
              else s.closing
  {
    hide EvaluateTriggers;
  }

  lemma {:induction false} RunIsClocked(events: seq<Event>)
    requires Forward(events)
    ensures Clocked(events)
  {
    if events != [] {
      var n := |events| - 1;
      var init := events[..n];
      assert Forward(init) by { hide Run; }
      RunIsClocked(init);
      var s, t := Run(init), Run(events);
      assert t == Step(s, events[n]);
      hide Run, Step, Polled, EvaluateTriggers;
      StepTimes(s, events[n]);
      PolledGrows(events, s.lastNuclearTs);
      if s.closing.Some? {
        PolledGrows(events, s.closing.value);
      }
      if events[n].Poll? {
        PolledGrows(events, events[n].now);
        PolledBefore(events, s.lastNuclearTs);
      }
    }
  }

  lemma PolledBefore(events: seq<Event>, now: int)
    requires Forward(events) && events != [] && events[|events| - 1].Poll?
    ensures Polled(events[..|events| - 1], now) || now == 0 ==> now <= events[|events| - 1].now
  {
    if Polled(events[..|events| - 1], now) {
      var i :| 0 <= i < |events| - 1 && events[..|events| - 1][i] == Poll(now);
      assert events[i] == Poll(now);
    }
  }

  /** The recorded time is that of the last fire, or 0 when nothing has fired. */
  ghost predicate Dated(events: seq<Event>) {
    var last := Run(events).lastNuclearTs;
    && (forall i :: Fires(events, i) ==> FiredAt(events, i) <= last)
    && ((exists i :: Fires(events, i) && FiredAt(events, i) == last) || (last == 0 && !exists i :: Fires(events, i)))
  }

  lemma {:induction false} RunIsDated(events: seq<Event>)
    requires Forward(events)
    ensures Dated(events)
  {
    if events != [] {
      var init := events[..|events| - 1];
      assert Forward(init) by { hide Run; }
      RunIsDated(init);
      RunIsClocked(init);
      StepIsDated(events);
    }
  }

  lemma FiresGrow(events: seq<Event>)
    requires events != []
    ensures var init := events[..|events| - 1];
            && (forall i :: i < |events| - 1 ==> (Fires(events, i) <==> Fires(init, i)))
            && (forall i :: Fires(init, i) ==> Fires(events, i) && FiredAt(events, i) == FiredAt(init, i))
  {
    hide Run, EvaluateTriggers;
    var init := events[..|events| - 1];
    forall i | 0 <= i < |events| - 1
      ensures Fires(events, i) <==> Fires(init, i)
      ensures Fires(events, i) ==> FiredAt(events, i) == FiredAt(init, i)
    {
      Earlier(events, i);
    }
  }

  /** A step that completes a fire records its time, and no other step changes the recorded one. */
  lemma LastStep(events: seq<Event>)
    requires events != []
    ensures var n := |events| - 1;
            var s, t := Run(events[..n]), Run(events);
            if Fires(events, n) then s.closing.Some? && FiredAt(events, n) == t.lastNuclearTs == s.closing.value
            else t.lastNuclearTs == s.lastNuclearTs
  {
    var n := |events| - 1;
    var s := Run(events[..n]);
    assert Run(events) == Step(s, events[n]);
    StepTimes(s, events[n]);
    hide Run, Step, EvaluateTriggers;
  }

  lemma StepIsDated(events: seq<Event>)
    requires events != [] && Clocked(events[..|events| - 1]) && Dated(events[..|events| - 1])
    ensures Dated(events)
  {
    var n := |events| - 1;
    var init := events[..n];
    LastStep(events);
    FiresGrow(events);
    FiresInRange(events);
    hide Run, Fires, FiredAt, Polled;
    var s, t := Run(init), Run(events);
    forall i | Fires(events, i)
      ensures FiredAt(events, i) <= t.lastNuclearTs
    {
      assert i < n ==> Fires(init, i);
    }
    if Fires(events, n) {
      assert FiredAt(events, n) == t.lastNuclearTs;
    } else if i :| Fires(init, i) && FiredAt(init, i) == s.lastNuclearTs {
      assert Fires(events, i) && FiredAt(events, i) == t.lastNuclearTs;
    }
  }

  lemma FiresInRange(events: seq<Event>)
    ensures forall i :: Fires(events, i) ==> 0 <= i < |events|
  {
    hide Run;
  }

  /** From 15 minutes after the epoch on, some fire is recent exactly when the recorded one is. */
  lemma {:induction false} RecentIff(events: seq<Event>, now: int)
    requires Forward(events) && now >= COOLDOWN_MS
    ensures RecentFire(events, now) <==> now - Run(events).lastNuclearTs < COOLDOWN_MS
  {
    RunIsDated(events);
    hide Run, Fires, FiredAt;
  }

  /** Some fire is under 15 minutes old. */
  ghost predicate RecentFire(events: seq<Event>, now: int) {
    exists i :: Fires(events, i) && now - FiredAt(events, i) < 15 * 60 * 1000
  }

  /** Event i completes a poll that read the clock at `now`: nothing fired, or a fire is recorded. */
  ghost predicate Completes(events: seq<Event>, i: int, now: int) {
    if Fires(events, i) then now == FiredAt(events, i) else Quiet(events, i) && now == events[i].now
  }

  /** Every completed poll sets the breaker by the recorded time, as it then is, and by its own clock. */
  lemma CompletedSets(events: seq<Event>, now: int)
    requires Forward(events) && events != [] && Completes(events, |events| - 1, now)
    ensures now >= COOLDOWN_MS
    ensures Run(events).breaker <==> now - Run(events).lastNuclearTs < COOLDOWN_MS
  {
    var n := |events| - 1;
    assert Forward(events[..n]) by { hide Run; }
    RunIsClocked(events[..n]);
    assert Run(events) == Step(Run(events[..n]), events[n]);
    StepBreaker(Run(events[..n]), events[n]);
    StepTimes(Run(events[..n]), events[n]);
    hide Run, Step, EvaluateTriggers, Polled;
    if Fires(events, n) {
      PolledLate(events, now);
    }
  }

  /** What one step does to the breaker. */
  lemma StepBreaker(s: State, e: Event)
    ensures Step(s, e).breaker ==
              match e
              case Poll(now) =>
                if s.closing.None? && EvaluateTriggers(s.readings).None? then now - s.lastNuclearTs < COOLDOWN_MS else s.breaker
              case Recorded => s.closing.Some? || s.breaker
              case Pause => true
              case Resume => s.dayLocked && s.breaker
              case _ => s.breaker
  {
    hide EvaluateTriggers;
  }

  lemma PolledLate(events: seq<Event>, now: int)
    requires Forward(events) && events != [] && Polled(events[..|events| - 1], now)
    ensures now >= COOLDOWN_MS
  {
    var i :| 0 <= i < |events| - 1 && events[..|events| - 1][i] == Poll(now);
    assert events[i] == Poll(now);
  }

  /** Right after every completed poll, quiet or firing, the breaker is set exactly when some fire is under 15
      minutes old by that poll's own clock, whatever pauses, resumes, resets and lost polls came in between. */
  lemma {:induction false} BreakerAfterPoll(events: seq<Event>, now: int)
    requires Forward(events) && events != [] && Completes(events, |events| - 1, now)
    ensures Run(events).breaker <==> RecentFire(events, now)
  {
    CompletedSets(events, now);
    RecentIff(events, now);
    hide Run, Completes, RecentFire;
  }

  /** In particular a reset at midnight does not cut a cooldown short. */
  lemma {:induction false} ResetKeepsCooldown(events: seq<Event>, i: int)
    requires Forward(events) && Fires(events, i) && i < |events| - 1
    requires Quiet(events, |events| - 1) && events[|events| - 1].now - FiredAt(events, i) < COOLDOWN_MS
    ensures Run(events).breaker
  {
    BreakerAfterPoll(events, events[|events| - 1].now);
    hide Run;
  }

  // ----- Polls lost to an exception ----------------------------------------------

  /** A poll whose close raises leaves no trace, whatever else happens while it waits. */
  lemma {:induction false} LostPollLeavesNoTrace(s: State, now: int, meanwhile: seq<Event>)
    requires s.closing.None? && EvaluateTriggers(s.readings).Some?
    requires forall i :: 0 <= i < |meanwhile| ==> !meanwhile[i].Poll? && !meanwhile[i].Recorded? && !meanwhile[i].Lost?
    ensures RunFrom(s, meanwhile).closing.None?
    ensures Step(RunFrom(Step(s, Poll(now)), meanwhile), Lost) == RunFrom(s, meanwhile)
  {
    WaitingChangesNothing(s, Some(now), meanwhile);
    WaitingChangesNothing(s, None, meanwhile);
    hide EvaluateTriggers, RunFrom;
  }

  lemma {:induction false} WaitingChangesNothing(s: State, closing: Option<int>, meanwhile: seq<Event>)
    requires forall i :: 0 <= i < |meanwhile| ==> !meanwhile[i].Poll? && !meanwhile[i].Recorded? && !meanwhile[i].Lost?
    ensures RunFrom(s.(closing := closing), meanwhile) == RunFrom(s, meanwhile).(closing := closing)
  {
    if meanwhile != [] {
      hide EvaluateTriggers;
      WaitingChangesNothing(s, closing, meanwhile[..|meanwhile| - 1]);
    }
  }

  /** Event i decides what the breaker is from then on. */
  ghost predicate Sets(events: seq<Event>, i: int) {
    0 <= i < |events|
    && (Fires(events, i) || Quiet(events, i) || events[i].Pause? || (events[i].Resume? && !Run(events[..i]).dayLocked))
  }

  /** Event k is the last one that sets the breaker. */
  ghost predicate LastSet(events: seq<Event>, k: int) {
    Sets(events, k) && forall i :: k < i < |events| ==> !Sets(events, i)
  }

  lemma SetsGrow(events: seq<Event>, i: int)
    requires events != [] && i < |events| - 1
    ensures Sets(events, i) <==> Sets(events[..|events| - 1], i)
  {
    if 0 <= i {
      Earlier(events, i);
      hide Run, EvaluateTriggers, Fires, Quiet;
    }
  }

  /** An event that does not set the breaker leaves it and the recorded time alone. */
  lemma UnsetStep(events: seq<Event>)
    requires events != [] && !Sets(events, |events| - 1)
    ensures var s, t := Run(events[..|events| - 1]), Run(events);
            t.breaker == s.breaker && t.lastNuclearTs == s.lastNuclearTs
  {
    var n := |events| - 1;
    assert Run(events) == Step(Run(events[..n]), events[n]);
    StepBreaker(Run(events[..n]), events[n]);
    StepTimes(Run(events[..n]), events[n]);
    hide Run, Step, EvaluateTriggers;
  }

  lemma {:induction false} BreakerHolds(events: seq<Event>, k: int)
    requires -1 <= k < |events| && forall i :: k < i < |events| ==> !Sets(events, i)
    ensures var s, t := Run(events[..k + 1]), Run(events);
            t.breaker == s.breaker && t.lastNuclearTs == s.lastNuclearTs
  {
    hide Run, Sets;
    if k == |events| - 1 {
      assert events[..k + 1] == events;
    } else {
      var init := events[..|events| - 1];
      forall i | k < i < |init| ensures !Sets(init, i) {
        SetsGrow(events, i);
      }
      BreakerHolds(init, k);
      assert init[..k + 1] == events[..k + 1];
      UnsetStep(events);
    }
  }

  /** The latest event loses a poll that read the clock at `now`. */
  ghost predicate LosesPoll(events: seq<Event>, now: int) {
    events != [] && events[|events| - 1].Lost? && Run(events[..|events| - 1]).closing == Some(now)
  }

  /** A pending close belongs to a poll made after the last moment at which none was pending. */
  lemma {:induction false} ClosingIsLater(events: seq<Event>, k: int)
    requires 0 <= k < |events| && Run(events[..k + 1]).closing.None?
    ensures Run(events).closing.Some? ==> exists p :: k < p < |events| && events[p] == Poll(Run(events).closing.value)
  {
    var n := |events| - 1;
    if k == n {
      assert events[..k + 1] == events;
    } else {
      var init := events[..n];
      assert init[..k + 1] == events[..k + 1];
      ClosingIsLater(init, k);
      assert Run(events) == Step(Run(init), events[n]);
      hide Run, Step, EvaluateTriggers;
      StepTimes(Run(init), events[n]);
      if Run(init).closing.Some? {
        var p :| k < p < n && init[p] == Poll(Run(init).closing.value);
        assert events[p] == init[p];
      }
    }
  }

  /** The clock of a completed poll was read by some poll up to then, and nothing is pending after it. */
  lemma CompletedWasPolled(events: seq<Event>, now: int)
    requires Forward(events) && events != [] && Completes(events, |events| - 1, now)
    ensures Polled(events, now) && Run(events).closing.None?
  {
    var n := |events| - 1;
    assert Forward(events[..n]) by { hide Run; }
    RunIsClocked(events[..n]);
    assert Run(events) == Step(Run(events[..n]), events[n]);
    StepTimes(Run(events[..n]), events[n]);
    PolledGrows(events, now);
    hide Run, Step, Polled, EvaluateTriggers;
  }

  lemma {:induction false} LostClock(events: seq<Event>, now: int, k: int, earlier: int)
    requires Forward(events) && LosesPoll(events, now)
    requires 0 <= k < |events| - 1 && Completes(events[..k + 1], k, earlier)
    ensures earlier <= now
  {
    var init, prefix := events[..|events| - 1], events[..k + 1];
    assert Forward(prefix) by { hide Run; }
    assert init[..k + 1] == prefix;
    CompletedWasPolled(prefix, earlier);
    ClosingIsLater(init, k);
    hide Run, Completes;
    var p :| k < p < |init| && init[p] == Poll(now);
    var i :| 0 <= i < |prefix| && prefix[i] == Poll(earlier);
    assert events[p] == Poll(now) && events[i] == Poll(earlier);
  }

  lemma LostLate(events: seq<Event>, now: int)
    requires Forward(events) && LosesPoll(events, now)
    ensures now >= COOLDOWN_MS
  {
    var init := events[..|events| - 1];
    assert Forward(init) by { hide Run; }
    RunIsClocked(init);
    hide Run;
    PolledLate(events, now);
  }

  /** After a lost poll at `now` the breaker may be out of date.  When the last event that set it completed a
      poll at `earlier`, it is right unless the cooldown was on then and is over now; when that was a pause, it is
      right only during a cooldown; when a resume, only outside of one. */
  lemma {:induction false} LostPollRightIff(events: seq<Event>, now: int, k: int, earlier: int)
    requires Forward(events) && LosesPoll(events, now) && LastSet(events, k)
    requires events[k].Pause? || events[k].Resume? || Completes(events[..k + 1], k, earlier)
    ensures var last := Run(events).lastNuclearTs;
            (Run(events).breaker <==> RecentFire(events, now)) <==>
              match events[k]
              case Pause => now - last < COOLDOWN_MS
              case Resume => now - last >= COOLDOWN_MS
              case _ => !(earlier - last < COOLDOWN_MS <= now - last)
  {
    var n := |events| - 1;
    LostLate(events, now);
    RecentIff(events, now);
    BreakerHolds(events, k);
    var prefix := events[..k + 1];
    assert prefix[..k] == events[..k];
    assert !events[k].Lost?;
    if events[k].Pause? || events[k].Resume? {
      assert Run(prefix) == Step(Run(events[..k]), events[k]);
      hide Run, Completes, RecentFire, EvaluateTriggers;
    } else {
      LostClock(events, now, k, earlier);
      assert Forward(prefix) by { hide Run; }
      hide Run, Completes, RecentFire, EvaluateTriggers;
      CompletedSets(prefix, earlier);
    }
  }

  /** When nothing has ever set it, it is right. */
  lemma {:induction false} LostPollRightAtFirst(events: seq<Event>, now: int)
    requires Forward(events) && LosesPoll(events, now) && forall i :: !Sets(events, i)
    ensures !Run(events).breaker && !RecentFire(events, now)
  {
    LostLate(events, now);
    RecentIff(events, now);
    BreakerHolds(events, -1);
    assert events[..0] == [];
    hide Sets, RecentFire;
  }

  const PROFITABLE := Readings(1, 10_000.0, 0.0, 20.0, 50.0, 0.0, 0.0)

  lemma ProfitFires()
    ensures EvaluateTriggers(PROFITABLE) == Some(CombinedProfit) && EvaluateTriggers(FRESH.readings) == None
  {
  }

  /** The operator pauses, a trigger fires and the close raises: the breaker stays on although nothing ever fired. */
  lemma {:induction false} LostPollKeepsPause(now: int)
    requires now >= COOLDOWN_MS
    ensures var events := [Pause, Update(PROFITABLE), Poll(now), Lost];
            Forward(events) && LosesPoll(events, now) && Run(events).breaker && !RecentFire(events, now)
  {
    var a, b, c := [Pause], [Pause, Update(PROFITABLE)], [Pause, Update(PROFITABLE), Poll(now)];
    var events := [Pause, Update(PROFITABLE), Poll(now), Lost];
    assert a[..0] == [] && b[..1] == a && c[..2] == b && events[..3] == c;
    ProfitFires();
    hide EvaluateTriggers;
    assert Run(a) == FRESH.(breaker := true);
    assert Run(b) == Step(Run(a), b[1]);
    assert Run(c) == Step(Run(b), c[2]);
    assert Run(events) == Step(Run(c), Lost);
    RecentIff(events, now);
    hide Run, RecentFire;
  }

  /** A fire is recorded, and an hour later the close of another raises: the old cooldown is still on. */
  lemma {:induction false} LostPollKeepsOldCooldown(now: int)
    requires now >= COOLDOWN_MS
    ensures var later := now + 3_600_000;
            var events := [Update(PROFITABLE), Poll(now), Recorded, Poll(later), Lost];
            Forward(events) && LosesPoll(events, later) && Run(events).breaker && !RecentFire(events, later)
  {
    var u, later := Update(PROFITABLE), now + 3_600_000;
    var a, b, c, d := [u], [u, Poll(now)], [u, Poll(now), Recorded], [u, Poll(now), Recorded, Poll(later)];
    var events := [u, Poll(now), Recorded, Poll(later), Lost];
    assert a[..0] == [] && b[..1] == a && c[..2] == b && d[..3] == c && events[..4] == d;
    ProfitFires();
    hide EvaluateTriggers;
    assert Run(a) == FRESH.(readings := PROFITABLE);
    assert Run(b) == Step(Run(a), b[1]);
    assert Run(c) == Step(Run(b), Recorded);
    assert Run(d) == Step(Run(c), d[3]);
    assert Run(events) == Step(Run(d), Lost);
    RecentIff(events, later);
    hide Run, RecentFire;
  }

  // ----- What the operator can and cannot override -------------------------------

  predicate Manual(e: Event) {
    e.Pause? || e.Resume?
  }

  ghost function RunFrom(s: State, events: seq<Event>): State {
    if events == [] then s else Step(RunFrom(s, events[..|events| - 1]), events[|events| - 1])
  }

  lemma {:induction false} ManualTouchesOnlyBreaker(s: State, commands: seq<Event>)
    requires forall i :: 0 <= i < |commands| ==> Manual(commands[i])
    ensures RunFrom(s, commands) == s.(breaker := RunFrom(s, commands).breaker)
  {
    if commands != [] {
      ManualTouchesOnlyBreaker(s, commands[..|commands| - 1]);
    }
  }

  /** A quiet poll forgets every pause and resume given before it: the state is as if none had been. */
  lemma {:induction false} QuietPollForgetsCommands(s: State, commands: seq<Event>, now: int)
    requires s.closing.None? && EvaluateTriggers(s.readings).None?
    requires forall i :: 0 <= i < |commands| ==> Manual(commands[i])
    ensures Step(RunFrom(s, commands), Poll(now)) == Step(s, Poll(now))
  {
    ManualTouchesOnlyBreaker(s, commands);
    hide EvaluateTriggers, RunFrom;
  }

  /** A whole poll: if it fires, its close returns or raises. */
  function WholePoll(s: State, now: int, confirmed: bool): State {
    Step(Step(s, Poll(now)), if confirmed then Recorded else Lost)
  }

  /** So a pause outlives the next poll exactly when a fire is recent or a trigger holds, */
  lemma PauseSurvivesIff(s: State, now: int, confirmed: bool)
    requires s.closing.None?
    ensures WholePoll(Step(s, Pause), now, confirmed).breaker
       <==> now - s.lastNuclearTs < COOLDOWN_MS || EvaluateTriggers(s.readings).Some?
  {
    hide EvaluateTriggers;
  }

  /** and a resume of an unlocked day exactly when no fire is recent and no trigger holds, or one holds but its
      close raises. */
  lemma ResumeSurvivesIff(s: State, now: int, confirmed: bool)
    requires s.closing.None? && !s.dayLocked
    ensures !WholePoll(Step(s, Resume), now, confirmed).breaker
       <==> if EvaluateTriggers(s.readings).Some? then !confirmed else now - s.lastNuclearTs >= COOLDOWN_MS
  {
    hide EvaluateTriggers;
  }

  /** The operator pauses, nothing is in cooldown, and half a second later trading is on again. */
  lemma PauseIsUndone()
    ensures !Run([Pause, Poll(1_700_000_000_000)]).breaker
  {
    var events := [Pause, Poll(1_700_000_000_000)];
    assert events[..1] == [Pause] && [Pause][..0] == [];
    assert Run([Pause]) == Step(FRESH, Pause);
  }

  /** A fire is not held back by the cooldown of the last: a trigger still holding at the next two polls
      locks the day, however short the time between them. */
  lemma {:induction false} OneEpisodeLocksTheDay(s: State, first: int, second: int)
    requires s.closing.None? && EvaluateTriggers(s.readings).Some?
    ensures var t := RunFrom(s, [Poll(first), Recorded, Poll(second), Recorded]);
            t.dayLocked && t.nuclearCount == s.nuclearCount + 2 && t.lastNuclearTs == second
  {
    hide EvaluateTriggers;
    var a, b, c, d := Poll(first), Recorded, Poll(second), Recorded;
    assert [a][..0] == [] && RunFrom(s, []) == s;
    assert [a, b][..1] == [a] && [a, b, c][..2] == [a, b] && [a, b, c, d][..3] == [a, b, c];
    var s1 := RunFrom(s, [a]);
    assert s1 == Step(RunFrom(s, [a][..0]), a);
    assert s1 == s.(closing := Some(first));
    var s2 := RunFrom(s, [a, b]);
    assert s2 == Step(s1, b);
    var s3 := RunFrom(s, [a, b, c]);
    assert s3 == s2.(closing := Some(second));
  }

  /** A reset starts the day's profit and loss over: right after it neither daily reason calls, at any positive
      equity; and a new state calls for nothing, however many positions it holds. */
  lemma ResetQuietsTheDay(s: State, equity: real, positions: nat)
    requires equity > 0.0
    ensures var readings := Step(s, ResetDaily(equity)).readings;
            !Calls(DailyGainTarget, readings) && !Calls(DailyLossLimit, readings)
            && !Calls(CombinedProfit, readings) && !Calls(LossProtection, readings)
    ensures EvaluateTriggers(FRESH.readings.(openPositions := positions)).None?
  {
    EvaluateExact(FRESH.readings.(openPositions := positions));
    hide EvaluateTriggers;
  }

  // ----- The mutable state --------------------------------------------------------

  datatype Cooldown = Cooldown(active: bool, remainingS: real, dailyCount: nat, dayLocked: bool)

  class PortfolioState {
    var readings: Readings
    var lastNuclearTs: int
    var nuclearCountToday: nat
    var dayLocked: bool
    var circuitBreaker: bool

    constructor ()
      ensures View(None) == FRESH
    {
      readings := FRESH.readings;
      lastNuclearTs, nuclearCountToday, dayLocked, circuitBreaker := 0, 0, false, false;
    }

    ghost function View(closing: Option<int>): State
      reads this
    {
      State(readings, lastNuclearTs, nuclearCountToday, dayLocked, circuitBreaker, closing)
    }

    /** The snapshot agrees with the new state; time remains exactly while the cooldown is active. */
    method ApplyCooldown(now: int) returns (c: Cooldown)
      modifies this`dayLocked, this`circuitBreaker
      ensures forall closing :: View(closing) == WithCooldown(old(View(closing)), now)
      ensures c.active == circuitBreaker && c.dayLocked == dayLocked && c.dailyCount == nuclearCountToday
      ensures c.remainingS >= 0.0 && (c.remainingS > 0.0 <==> c.active)
    {
      var elapsed := now as real / 1000.0 - lastNuclearTs as real / 1000.0;
      var active := elapsed < 900.0;
      if nuclearCountToday >= 2 {
        dayLocked := true;
      }
      if active {
        circuitBreaker := true;
      } else {
        circuitBreaker := false;
      }
      c := Cooldown(active, Max(0.0, 900.0 - elapsed), nuclearCountToday, dayLocked);
    }

    method PauseTrading()
      modifies this`circuitBreaker
      ensures forall closing :: View(closing) == Step(old(View(closing)), Pause)
    {
      circuitBreaker := true;
    }

    method ResumeTrading() returns (done: bool)
      modifies this`circuitBreaker
      ensures forall closing :: View(closing) == Step(old(View(closing)), Resume)
      ensures done <==> !dayLocked
    {
      done := !dayLocked;
      if done {
        circuitBreaker := false;
      }
    }

    method ResetDay(equity: real)
      modifies this
      ensures forall closing :: View(closing) == Step(old(View(closing)), ResetDaily(equity))
    {
      readings := readings.(startingEquity := equity, realizedPnl := 0.0, unrealizedPnl := 0.0);
      dayLocked := false;
      nuclearCountToday := 0;
    }
  }

  /** The controller's coroutine, cut at the point where it waits for the closes. */
  class NuclearController {
    const state: PortfolioState
    var closing: Option<int>

    constructor (state: PortfolioState)
      ensures this.state == state && closing == None
    {
      this.state := state;
      closing := None;
    }

    ghost function View(): State
      reads this, state
    {
      state.View(closing)
    }

    method StartPoll(now: int) returns (fired: Option<Reason>)
      requires closing.None?
      modifies this, state
      ensures View() == Step(old(View()), Poll(now))
      ensures fired == EvaluateTriggers(old(state.readings)) && (closing.Some? <==> fired.Some?)
    {
      hide EvaluateTriggers;
      fired := EvaluateTriggers(state.readings);
      if fired.None? {
        var _ := state.ApplyCooldown(now);
      } else {
        closing := Some(now);
      }
    }

    /** `confirmed` is false when the close raises instead of returning. */
    method FinishPoll(confirmed: bool) returns (c: Option<Cooldown>)
      requires closing.Some?
      modifies this, state
      ensures View() == Step(old(View()), if confirmed then Recorded else Lost)
      ensures closing.None? && (c.Some? <==> confirmed) && (c.Some? ==> c.value.active && state.circuitBreaker)
    {
      var now := closing.value;
      closing := None;
      c := None;
      if confirmed {
        state.lastNuclearTs := now;
        state.nuclearCountToday := state.nuclearCountToday + 1;
        var snapshot := state.ApplyCooldown(now);
        c := Some(snapshot);
      }
    }
  }
}
