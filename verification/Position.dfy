/** One position from fill to close (positions/state_machine.py). */
module Position {
  import opened Market
  import opened Algebra
  import opened Instruments
  import opened Trail
  import W = Weights

  datatype PositionState = OpenUnrealized | OpenTrailing | ClosedProfit | ClosedLoss | ClosedNuclear

  datatype ExitReason = TrailHit | HardStop | WeaknessConfirmed | CvdDivergence | Nuclear | ManualTelegram | OfflineStop

  datatype LogEvent = TrailArmed(stop: real, pnl: real) | PositionClosed(reason: ExitReason, price: real, pnl: real)

  /** What is fixed at the fill. */
  datatype Config = Config(
    direction: Direction, entry: real, hardStop: real, lots: real, pipValue: real, pipSize: real, instr: Instrument)
  {
    predicate Sound() {
      pipSize > 0.0 && pipValue > 0.0 && lots >= 0.0 && instr.Sound()
    }
  }

  /** A price tick with the verdicts of the exit detectors, which are not modelled here. */
  datatype Tick = Tick(price: real, atr1m: real, mode: Mode, cvdExit: bool, weakness: bool)

  /** moves: the ticks since the trail was armed; the stop is StopOf them. */
  datatype Position = Position(state: PositionState, maxProfit: real, moves: seq<Move>, events: seq<LogEvent>)

  const OPENED := Position(OpenUnrealized, 0.0, [], [])

  function ProfitTrigger(mode: Mode): real {
    if mode == ScalpBurst then 3.00 else 1.50
  }

  /** Unrealised profit in USD. */
  function Pnl(cfg: Config, price: real): real
    requires cfg.Sound()
  {
    var diff := if cfg.direction == Long then price - cfg.entry else cfg.entry - price;
    Times(Times(diff / cfg.pipSize, cfg.pipValue), cfg.lots)
  }

  predicate HardStopHit(cfg: Config, price: real) {
    match cfg.direction
    case Long => price <= cfg.hardStop
    case Short => price >= cfg.hardStop
  }

  function MoveOf(cfg: Config, t: Tick): Move
    requires cfg.Sound()
  {
    Move(t.price, TrailDistance(cfg.instr, t.atr1m, t.mode))
  }

  function Close(cfg: Config, p: Position, reason: ExitReason, price: real): Position
    requires cfg.Sound()
  {
    var pnl := Pnl(cfg, price);
    p.(state := if pnl > 0.0 then ClosedProfit else if reason == Nuclear then ClosedNuclear else ClosedLoss,
       events := p.events + [PositionClosed(reason, price, pnl)])
  }

  /** One tick, as the source processes it, whatever state the position is in. */
  function OnTick(cfg: Config, p: Position, t: Tick): (Position, Option<ExitReason>)
    requires cfg.Sound()
  {
    var pnl := Pnl(cfg, t.price);
    var p1 := p.(maxProfit := Max(p.maxProfit, pnl));
    if t.cvdExit then (Close(cfg, p1, CvdDivergence, t.price), Some(CvdDivergence))
    else if HardStopHit(cfg, t.price) then (Close(cfg, p1, HardStop, t.price), Some(HardStop))
    else if p.state == OpenUnrealized then
      if pnl >= ProfitTrigger(t.mode) then
        var m := MoveOf(cfg, t);
        (p1.(state := OpenTrailing, moves := [m], events := p.events + [TrailArmed(Proposed(cfg.direction, m), pnl)]), None)
      else (p1, None)
    else if p.state == OpenTrailing then
      var moves := if p.moves == [] then [] else p.moves + [MoveOf(cfg, t)];
      var p2 := p1.(moves := moves);
      if Hit(cfg.direction, StopOf(cfg.direction, moves), t.price) then (Close(cfg, p2, TrailHit, t.price), Some(TrailHit))
      else if t.weakness then (Close(cfg, p2, WeaknessConfirmed, t.price), Some(WeaknessConfirmed))
      else (p2, None)
    else (p1, None)
  }

  // ----- Whole runs ---------------------------------------------------------

  function Run(cfg: Config, ticks: seq<Tick>): Position
    requires cfg.Sound()
  {
    if ticks == [] then OPENED
    else var n := |ticks| - 1; OnTick(cfg, Run(cfg, ticks[..n]), ticks[n]).0
  }

  /** No tick so far asked for an exit. */
  predicate StillOpen(cfg: Config, ticks: seq<Tick>)
    requires cfg.Sound()
  {
    ticks == [] ||
    var n := |ticks| - 1;
    StillOpen(cfg, ticks[..n]) && OnTick(cfg, Run(cfg, ticks[..n]), ticks[n]).1.None?
  }

  predicate Triggers(cfg: Config, t: Tick)
    requires cfg.Sound()
  {
    Pnl(cfg, t.price) >= ProfitTrigger(t.mode)
  }

  /** Position of the first tick whose profit reached the trigger; the number of ticks if none did. */
  function ArmedAt(cfg: Config, ticks: seq<Tick>): (a: nat)
    requires cfg.Sound()
    ensures a <= |ticks|
    ensures forall i :: 0 <= i < a ==> !Triggers(cfg, ticks[i])
    ensures a < |ticks| ==> Triggers(cfg, ticks[a])
  {
    if ticks == [] then 0
    else
      var n := |ticks| - 1;
      var a := ArmedAt(cfg, ticks[..n]);
      if a < n || Triggers(cfg, ticks[n]) then a else n + 1
  }

  function MovesFrom(cfg: Config, ticks: seq<Tick>): (r: seq<Move>)
    requires cfg.Sound()
    ensures |r| == |ticks|
    ensures forall i :: 0 <= i < |ticks| ==> r[i] == MoveOf(cfg, ticks[i])
  {
    seq(|ticks|, i requires 0 <= i < |ticks| => MoveOf(cfg, ticks[i]))
  }

  function BestPnl(cfg: Config, ticks: seq<Tick>): (r: real)
    requires cfg.Sound()
    ensures r >= 0.0 && forall i :: 0 <= i < |ticks| ==> r >= Pnl(cfg, ticks[i].price)
    ensures r == 0.0 || exists i :: 0 <= i < |ticks| && r == Pnl(cfg, ticks[i].price)
  {
    if ticks == [] then 0.0
    else
      var n := |ticks| - 1;
      var before := BestPnl(cfg, ticks[..n]);
      var r := Max(before, Pnl(cfg, ticks[n].price));
      assert r == before || r == Pnl(cfg, ticks[n].price);
      assert forall i :: 0 <= i < n ==> ticks[..n][i] == ticks[i];
      r
  }

  /** An open position is a function of its ticks: trailing once some tick reached the trigger, its moves
      all the ticks from that one on, its best profit the greatest so far, its log the arming alone. */
  function Expected(cfg: Config, ticks: seq<Tick>): Position
    requires cfg.Sound()
  {
    var a := ArmedAt(cfg, ticks);
    if a == |ticks| then Position(OpenUnrealized, BestPnl(cfg, ticks), [], [])
    else
      var first := ticks[a];
      Position(OpenTrailing, BestPnl(cfg, ticks), MovesFrom(cfg, ticks[a..]),
               [TrailArmed(Proposed(cfg.direction, MoveOf(cfg, first)), Pnl(cfg, first.price))])
  }

  lemma MovesSnoc(cfg: Config, ticks: seq<Tick>, t: Tick)
    requires cfg.Sound()
    ensures MovesFrom(cfg, ticks + [t]) == MovesFrom(cfg, ticks) + [MoveOf(cfg, t)]
  {
  }

  /** What a tick that asks for no exit does to an open position. */
  function Held(cfg: Config, p: Position, t: Tick): Position
    requires cfg.Sound()
  {
    var m := MoveOf(cfg, t);
    var p1 := p.(maxProfit := Max(p.maxProfit, Pnl(cfg, t.price)));
    if p.state == OpenUnrealized then
      if Triggers(cfg, t) then
        p1.(state := OpenTrailing, moves := [m], events := p.events + [TrailArmed(Proposed(cfg.direction, m), Pnl(cfg, t.price))])
      else p1
    else p1.(moves := p.moves + [m])
  }

  ghost predicate IsOpen(p: Position) {
    p.state == OpenUnrealized || (p.state == OpenTrailing && p.moves != [])
  }

  lemma TickHolds(cfg: Config, p: Position, t: Tick)
    requires cfg.Sound() && IsOpen(p) && OnTick(cfg, p, t).1.None?
    ensures OnTick(cfg, p, t).0 == Held(cfg, p, t) && IsOpen(Held(cfg, p, t))
  {
    hide Pnl, MoveOf, StopOf;
  }

  lemma {:induction false} ExpectedSnoc(cfg: Config, ticks: seq<Tick>, t: Tick)
    requires cfg.Sound()
    ensures IsOpen(Expected(cfg, ticks))
    ensures Expected(cfg, ticks + [t]) == Held(cfg, Expected(cfg, ticks), t)
  {
    hide Pnl, MoveOf, ArmedAt, BestPnl, Triggers, Proposed, MovesFrom;
    var all := ticks + [t];
    var a := ArmedAt(cfg, ticks);
    OneMoreTick(cfg, ticks, t);
    if a < |ticks| {
      assert all[a..] == ticks[a..] + [t];
      MovesSnoc(cfg, ticks[a..], t);
    } else if Triggers(cfg, t) {
      assert all[a..] == [t];
      MovesOne(cfg, t);
    }
    MovesLength(cfg, ticks[a..]);
  }

  lemma OneMoreTick(cfg: Config, ticks: seq<Tick>, t: Tick)
    requires cfg.Sound()
    ensures var a := ArmedAt(cfg, ticks);
            ArmedAt(cfg, ticks + [t]) == if a < |ticks| || Triggers(cfg, t) then a else a + 1
    ensures BestPnl(cfg, ticks + [t]) == Max(BestPnl(cfg, ticks), Pnl(cfg, t.price))
  {
    assert (ticks + [t])[..|ticks|] == ticks;
    hide Pnl, Triggers;
  }

  lemma MovesOne(cfg: Config, t: Tick)
    requires cfg.Sound()
    ensures MovesFrom(cfg, [t]) == [MoveOf(cfg, t)]
  {
    hide MoveOf;
  }

  lemma MovesLength(cfg: Config, ticks: seq<Tick>)
    requires cfg.Sound()
    ensures |MovesFrom(cfg, ticks)| == |ticks|
  {
  }

  lemma {:induction false} OpenHistory(cfg: Config, ticks: seq<Tick>)
    requires cfg.Sound() && StillOpen(cfg, ticks)
    ensures Run(cfg, ticks) == Expected(cfg, ticks)
  {
    hide OnTick, Held, Expected, IsOpen;
    if ticks == [] {
      ExpectedNothing(cfg);
    } else {
      var n := |ticks| - 1;
      var before, t := ticks[..n], ticks[n];
      OpenHistory(cfg, before);
      assert before + [t] == ticks;
      ExpectedSnoc(cfg, before, t);
      TickHolds(cfg, Expected(cfg, before), t);
    }
  }

  lemma ExpectedNothing(cfg: Config)
    requires cfg.Sound()
    ensures Expected(cfg, []) == OPENED
  {
  }

  /** The price is at the level or has passed it against the position. */
  ghost predicate Reached(direction: Direction, price: real, level: real) {
    match direction
    case Long => price <= level
    case Short => price >= level
  }

  /** Which exit the next tick asks for: the four layers in order, the trail judged against the stop that
      the earlier ticks left. */
  lemma {:induction false} ExitExact(cfg: Config, ticks: seq<Tick>, t: Tick)
    requires cfg.Sound() && StillOpen(cfg, ticks)
    ensures var armed := ArmedAt(cfg, ticks) < |ticks|;
            var stop := StopOf(cfg.direction, MovesFrom(cfg, ticks[ArmedAt(cfg, ticks)..]));
            OnTick(cfg, Run(cfg, ticks), t).1 ==
              if t.cvdExit then Some(CvdDivergence)
              else if Reached(cfg.direction, t.price, cfg.hardStop) then Some(HardStop)
              else if armed && stop.Some? && Reached(cfg.direction, t.price, stop.value) then Some(TrailHit)
              else if armed && t.weakness then Some(WeaknessConfirmed)
              else None
  {
    hide Run, OnTick, StopOf, BestPnl, ArmedAt, MovesFrom, StillOpen, MoveOf;
    OpenHistory(cfg, ticks);
    var a := ArmedAt(cfg, ticks);
    var moves := MovesFrom(cfg, ticks[a..]);
    TickAsks(cfg, Run(cfg, ticks), t);
    if a < |ticks| {
      MovesLength(cfg, ticks[a..]);
      StopIsExtremum(cfg.direction, moves);
    }
  }

  /** One tick on an open position, the trail judged against the stop it finds. */
  lemma {:induction false} TickAsks(cfg: Config, p: Position, t: Tick)
    requires cfg.Sound() && IsOpen(p)
    ensures var stop := StopOf(cfg.direction, p.moves);
            OnTick(cfg, p, t).1 ==
              if t.cvdExit then Some(CvdDivergence)
              else if Reached(cfg.direction, t.price, cfg.hardStop) then Some(HardStop)
              else if p.state == OpenTrailing && stop.Some? && Reached(cfg.direction, t.price, stop.value) then Some(TrailHit)
              else if p.state == OpenTrailing && t.weakness then Some(WeaknessConfirmed)
              else None
  {
    if p.state == OpenTrailing {
      DistancePositive(cfg.instr, t.atr1m, t.mode);
      HitExact(cfg.direction, p.moves, MoveOf(cfg, t));
      HitIs(cfg.direction, StopOf(cfg.direction, p.moves), t.price);
    }
    hide Pnl, StopOf, TrailDistance, Hit;
  }

  lemma HitIs(direction: Direction, stop: Option<real>, price: real)
    ensures Hit(direction, stop, price) <==> stop.Some? && Reached(direction, price, stop.value)
  {
  }

  /** Profit in USD: the way the price went for the position, in pips, times their value, times the lots. */
  function Profit(cfg: Config, price: real): real
    requires cfg.Sound()
  {
    var pips := (match cfg.direction case Long => price - cfg.entry case Short => cfg.entry - price) / cfg.pipSize;
    pips * cfg.pipValue * cfg.lots
  }

  lemma ProfitIs(cfg: Config, price: real)
    requires cfg.Sound()
    ensures Pnl(cfg, price) == Profit(cfg, price)
  {
  }

  /** An open position trails exactly when some tick so far showed a profit of 3 USD in a scalp burst, or of 1.50
      in another mode. */
  lemma {:induction false} TrailsIff(cfg: Config, ticks: seq<Tick>)
    requires cfg.Sound() && StillOpen(cfg, ticks)
    ensures Run(cfg, ticks).state == OpenTrailing <==>
              exists i :: 0 <= i < |ticks| && Profit(cfg, ticks[i].price) >= if ticks[i].mode == ScalpBurst then 3.0 else 1.5
    ensures Run(cfg, ticks).state == OpenTrailing || Run(cfg, ticks).state == OpenUnrealized
  {
    OpenHistory(cfg, ticks);
    var a := ArmedAt(cfg, ticks);
    forall i | 0 <= i < |ticks|
      ensures Triggers(cfg, ticks[i]) <==> Profit(cfg, ticks[i].price) >= if ticks[i].mode == ScalpBurst then 3.0 else 1.5
    {
      ProfitIs(cfg, ticks[i].price);
    }
    hide Run, ArmedAt, Triggers, BestPnl, MovesFrom, StillOpen, Profit;
  }

  /** Closing logs the reason, the price and the profit there, in that order, and nothing else; the state says
      profit exactly when there was one, and otherwise nuclear exactly for that reason. */
  lemma CloseExact(cfg: Config, p: Position, reason: ExitReason, price: real)
    requires cfg.Sound()
    ensures var q := Close(cfg, p, reason, price);
            && q.events == p.events + [PositionClosed(reason, price, Profit(cfg, price))]
            && (q.state == ClosedProfit <==> Profit(cfg, price) > 0.0)
            && (q.state == ClosedNuclear <==> Profit(cfg, price) <= 0.0 && reason == Nuclear)
            && (q.state == ClosedLoss <==> Profit(cfg, price) <= 0.0 && reason != Nuclear)
            && q.maxProfit == p.maxProfit && q.moves == p.moves
  {
    ProfitIs(cfg, price);
    hide Pnl, Profit;
  }

  /** Whenever a tick closes an open position, its log gains exactly that exit with that tick's price and profit,
      and its state says whether there was a profit. */
  lemma {:induction false} ExitLogged(cfg: Config, ticks: seq<Tick>, t: Tick)
    requires cfg.Sound() && StillOpen(cfg, ticks)
    ensures var p := Run(cfg, ticks);
            var (q, exit) := OnTick(cfg, p, t);
            exit.Some? ==>
              && q.events == p.events + [PositionClosed(exit.value, t.price, Profit(cfg, t.price))]
              && q.state == if Profit(cfg, t.price) > 0.0 then ClosedProfit else ClosedLoss
  {
    var p := Run(cfg, ticks);
    ProfitIs(cfg, t.price);
    TrailsIff(cfg, ticks);
    hide Run, StillOpen, Pnl, Profit, StopOf, Hit, TrailDistance, HardStopHit;
  }

  // ----- Locked-in profit ---------------------------------------------------

  /** A price distance in USD for this position. */
  function Usd(cfg: Config, distance: real): real
    requires cfg.Sound()
  {
    Times(Times(distance / cfg.pipSize, cfg.pipValue), cfg.lots)
  }

  lemma QuotientDifference(x: real, y: real, d: real)
    requires d != 0.0
    ensures (x - y) / d == x / d - y / d
  {
  }

  lemma QuotientNonNegative(x: real, d: real)
    requires d > 0.0 && x >= 0.0
    ensures x / d >= 0.0
  {
  }

  lemma UsdDifference(cfg: Config, x: real, y: real)
    requires cfg.Sound()
    ensures Usd(cfg, x - y) == Usd(cfg, x) - Usd(cfg, y)
  {
    QuotientDifference(x, y, cfg.pipSize);
    var p, q := x / cfg.pipSize, y / cfg.pipSize;
    assert Times(Times(p - q, cfg.pipValue), cfg.lots)
        == Times(Times(p, cfg.pipValue), cfg.lots) - Times(Times(q, cfg.pipValue), cfg.lots);
  }

  lemma UsdNonNegative(cfg: Config, x: real)
    requires cfg.Sound() && x >= 0.0
    ensures Usd(cfg, x) >= 0.0
  {
    QuotientNonNegative(x, cfg.pipSize);
    var p := x / cfg.pipSize;
    hide Times;
    TimesNonNegative(p, cfg.pipValue);
    TimesNonNegative(Times(p, cfg.pipValue), cfg.lots);
  }

  /** A tighter stop is worth at least as much, and a stop `d` away from a price is worth Usd(d) less. */
  lemma StopWorth(cfg: Config, stop: real, other: real)
    requires cfg.Sound() && !Tighter(cfg.direction, other, stop)
    ensures Pnl(cfg, stop) >= Pnl(cfg, other)
  {
    var x := if cfg.direction == Long then stop - cfg.entry else cfg.entry - stop;
    var y := if cfg.direction == Long then other - cfg.entry else cfg.entry - other;
    UsdDifference(cfg, x, y);
    UsdNonNegative(cfg, x - y);
    assert Pnl(cfg, stop) == Usd(cfg, x) && Pnl(cfg, other) == Usd(cfg, y);
  }

  lemma ProposedWorth(cfg: Config, m: Move)
    requires cfg.Sound()
    ensures Pnl(cfg, Proposed(cfg.direction, m)) == Pnl(cfg, m.price) - Usd(cfg, m.distance)
  {
    var x := if cfg.direction == Long then m.price - cfg.entry else cfg.entry - m.price;
    UsdDifference(cfg, x, m.distance);
    assert Pnl(cfg, m.price) == Usd(cfg, x);
    assert Pnl(cfg, Proposed(cfg.direction, m)) == Usd(cfg, x - m.distance);
  }

  lemma {:induction false} MoreMovesWorthMore(cfg: Config, moves: seq<Move>, m: Move)
    requires cfg.Sound() && moves != []
    ensures StopOf(cfg.direction, moves).Some? && StopOf(cfg.direction, moves + [m]).Some?
    ensures Pnl(cfg, StopOf(cfg.direction, moves + [m]).value) >= Pnl(cfg, StopOf(cfg.direction, moves).value)
  {
    StopIsExtremum(cfg.direction, moves);
    StopIsExtremum(cfg.direction, moves + [m]);
    StopNeverLoosens(cfg.direction, moves, m);
    StopWorth(cfg, StopOf(cfg.direction, moves + [m]).value, StopOf(cfg.direction, moves).value);
  }

  /** The profit locked in by the stop of an open position; none before it trails. */
  function Locked(cfg: Config, ticks: seq<Tick>): Option<real>
    requires cfg.Sound()
  {
    var stop := StopOf(cfg.direction, Run(cfg, ticks).moves);
    if stop.None? then None else Some(Pnl(cfg, stop.value))
  }

  lemma LockedIs(cfg: Config, ticks: seq<Tick>)
    requires cfg.Sound() && StillOpen(cfg, ticks)
    ensures var a := ArmedAt(cfg, ticks);
            if a == |ticks| then Locked(cfg, ticks) == None
            else
              var stop := StopOf(cfg.direction, MovesFrom(cfg, ticks[a..]));
              stop.Some? && Locked(cfg, ticks) == Some(Pnl(cfg, stop.value))
  {
    OpenHistory(cfg, ticks);
    var a := ArmedAt(cfg, ticks);
    hide Run, Pnl, ArmedAt, MovesFrom, BestPnl, StillOpen;
    if a < |ticks| {
      StopIsExtremum(cfg.direction, MovesFrom(cfg, ticks[a..]));
    }
  }

  /** Once a position trails, no tick that leaves it open lowers its locked-in profit. */
  lemma {:induction false} LockedProfitGrows(cfg: Config, ticks: seq<Tick>, t: Tick)
    requires cfg.Sound() && StillOpen(cfg, ticks)
    ensures StillOpen(cfg, ticks + [t]) && Locked(cfg, ticks).Some? ==>
              Locked(cfg, ticks + [t]).Some? && Locked(cfg, ticks + [t]).value >= Locked(cfg, ticks).value
  {
    if StillOpen(cfg, ticks + [t]) && Locked(cfg, ticks).Some? {
      var all := ticks + [t];
      LockedIs(cfg, ticks);
      LockedIs(cfg, all);
      var a := ArmedAt(cfg, ticks);
      assert all[..|ticks|] == ticks;
      assert ArmedAt(cfg, all) == a;
      assert all[a..] == ticks[a..] + [t];
      MovesSnoc(cfg, ticks[a..], t);
      hide Run, Locked, StopOf, MovesFrom, StillOpen, Pnl, ArmedAt;
      MoreMovesWorthMore(cfg, MovesFrom(cfg, ticks[a..]), MoveOf(cfg, t));
    }
  }

  /** A position has a locked-in profit exactly from the tick it armed at on, and it is at least the trigger
      it armed at, less the distance it armed with in USD. */
  lemma {:induction false} LockedProfitFloor(cfg: Config, ticks: seq<Tick>)
    requires cfg.Sound() && StillOpen(cfg, ticks)
    ensures var a := ArmedAt(cfg, ticks);
            && (Locked(cfg, ticks).Some? <==> a < |ticks|)
            && (a < |ticks| ==>
                  Locked(cfg, ticks).value >= ProfitTrigger(ticks[a].mode) - Usd(cfg, MoveOf(cfg, ticks[a]).distance))
  {
    LockedIs(cfg, ticks);
    var a := ArmedAt(cfg, ticks);
    if a < |ticks| {
      var moves := MovesFrom(cfg, ticks[a..]);
      StopIsExtremum(cfg.direction, moves);
      assert moves[0] == MoveOf(cfg, ticks[a]);
      hide Run, StopOf, MovesFrom, Locked;
      ProposedWorth(cfg, moves[0]);
      StopWorth(cfg, StopOf(cfg.direction, moves).value, Proposed(cfg.direction, moves[0]));
    }
  }

  // ----- States only move forward, except among the closed ones -------------

  function Rank(s: PositionState): int {
    match s
    case OpenUnrealized => 0
    case OpenTrailing => 1
    case _ => 2
  }

  lemma ForwardOnly(cfg: Config, p: Position, t: Tick)
    requires cfg.Sound()
    ensures Rank(OnTick(cfg, p, t).0.state) >= Rank(p.state)
    ensures OnTick(cfg, p, t).1.Some? ==> Rank(OnTick(cfg, p, t).0.state) == 2
  {
    hide Pnl, StopOf;
  }

  /** Nothing stops a closed position from closing again: the next tick does so exactly when it diverges
      or crosses the hard stop, and then logs a second close. */
  lemma ClosedClosesAgainIff(cfg: Config, p: Position, t: Tick)
    requires cfg.Sound() && Rank(p.state) == 2
    ensures var (p', exit) := OnTick(cfg, p, t);
            && (exit.Some? <==> t.cvdExit || HardStopHit(cfg, t.price))
            && |p'.events| == |p.events| + if exit.Some? then 1 else 0
  {
    hide Pnl, StopOf;
  }

  /** A recorded profit survives the next tick exactly when that tick does not close again, or closes at a profit. */
  lemma ClosedProfitKeptIff(cfg: Config, p: Position, t: Tick)
    requires cfg.Sound() && p.state == ClosedProfit
    ensures OnTick(cfg, p, t).0.state == ClosedProfit
       <==> !(t.cvdExit || HardStopHit(cfg, t.price)) || Pnl(cfg, t.price) > 0.0
  {
    hide Pnl, StopOf;
  }

  /** Three prices are enough: the first arms the trail, the second hits it in profit, the third crosses the hard
      stop and turns that profit into a loss. */
  lemma ClosedProfitCanBecomeLoss() returns (cfg: Config, ticks: seq<Tick>)
    ensures cfg.Sound() && |ticks| == 3
    ensures forall i :: 0 <= i < 3 ==> !ticks[i].cvdExit && !ticks[i].weakness
    ensures Run(cfg, ticks[..1]).state == OpenTrailing
    ensures Run(cfg, ticks[..2]).state == ClosedProfit
    ensures Run(cfg, ticks).state == ClosedLoss
  {
    cfg := Config(Long, 10.0, 9.0, 1.0, 1.0, 1.0, Instrument(1.0, 1.0, 0.01));
    ticks := [PriceTick(13.0), PriceTick(12.0), PriceTick(9.0)];
    hide OnTick;
    ExampleSteps(cfg);
    RunThree(cfg, ticks);
  }

  lemma RunThree(cfg: Config, ticks: seq<Tick>)
    requires cfg.Sound() && |ticks| == 3
    ensures Run(cfg, ticks[..1]) == OnTick(cfg, OPENED, ticks[0]).0
    ensures Run(cfg, ticks[..2]) == OnTick(cfg, Run(cfg, ticks[..1]), ticks[1]).0
    ensures Run(cfg, ticks) == OnTick(cfg, Run(cfg, ticks[..2]), ticks[2]).0
  {
    hide OnTick;
    assert ticks[..1][..0] == [] && ticks[..2][..1] == ticks[..1];
    assert Run(cfg, []) == OPENED;
  }

  lemma ExampleSteps(cfg: Config)
    requires cfg == Config(Long, 10.0, 9.0, 1.0, 1.0, 1.0, Instrument(1.0, 1.0, 0.01))
    ensures var p1 := OnTick(cfg, OPENED, PriceTick(13.0)).0;
            var p2 := OnTick(cfg, p1, PriceTick(12.0)).0;
            p1.state == OpenTrailing && p2.state == ClosedProfit && OnTick(cfg, p2, PriceTick(9.0)).0.state == ClosedLoss
  {
    ExamplePnl(cfg);
    hide Pnl, MoveOf, StopOf;
    var p1 := OnTick(cfg, OPENED, PriceTick(13.0)).0;
    assert p1.state == OpenTrailing && p1.moves == [Move(13.0, 0.75)];
    assert p1.moves + [MoveOf(cfg, PriceTick(12.0))] == [Move(13.0, 0.75), Move(12.0, 0.75)];
  }

  function PriceTick(price: real): Tick {
    Tick(price, 0.0, OtherMode, false, false)
  }

  lemma ExamplePnl(cfg: Config)
    requires cfg == Config(Long, 10.0, 9.0, 1.0, 1.0, 1.0, Instrument(1.0, 1.0, 0.01))
    ensures Pnl(cfg, 13.0) == 3.0 && Pnl(cfg, 12.0) == 2.0 && Pnl(cfg, 9.0) == -1.0
    ensures MoveOf(cfg, PriceTick(13.0)) == Move(13.0, 0.75) && MoveOf(cfg, PriceTick(12.0)) == Move(12.0, 0.75)
    ensures StopOf(Long, [Move(13.0, 0.75), Move(12.0, 0.75)]) == Some(12.25)
  {
    var moves := [Move(13.0, 0.75), Move(12.0, 0.75)];
    assert moves[..1] == [Move(13.0, 0.75)] && moves[..1][..0] == [];
    assert StopOf(Long, moves[..1]) == Some(12.25);
  }

  // ----- The mutable machine ------------------------------------------------

  class PositionStateMachine {
    const cfg: Config
    const trail: TrailManager
    const weights: W.BayesianWeightUpdater
    var state: PositionState
    var maxProfit: real
    var events: seq<LogEvent>

    constructor (cfg: Config, weights: W.BayesianWeightUpdater)
      requires cfg.Sound() && weights.Valid()
      ensures Valid() && View() == OPENED
      ensures this.cfg == cfg && this.weights == weights && fresh(trail)
    {
      this.cfg := cfg;
      this.weights := weights;
      state := OpenUnrealized;
      maxProfit := 0.0;
      events := [];
      trail := new TrailManager(cfg.direction, cfg.instr);
    }

    ghost predicate Valid()
      reads this, trail, weights
    {
      cfg.Sound() && weights.Valid() && trail.Valid() && trail.direction == cfg.direction && trail.instr == cfg.instr
    }

    ghost function View(): Position
      reads this, trail
    {
      Position(state, maxProfit, trail.moves, events)
    }

    /** An exit also teaches the weights: a win exactly when the closing profit is positive. */
    method ProcessTick(t: Tick) returns (exit: Option<ExitReason>)
      requires Valid()
      modifies this, trail, weights
      ensures Valid()
      ensures (View(), exit) == OnTick(cfg, old(View()), t)
      ensures weights.table == if exit.Some? then W.Closed(old(weights.table), Pnl(cfg, t.price) > 0.0) else old(weights.table)
    {
      hide Pnl, StopOf, W.Closed, TrailDistance;
      var pnl := Pnl(cfg, t.price);
      maxProfit := Max(maxProfit, pnl);
      if t.cvdExit {
        exit := CloseAt(CvdDivergence, t.price);
        return;
      }
      if HardStopHit(cfg, t.price) {
        exit := CloseAt(HardStop, t.price);
        return;
      }
      if state == OpenUnrealized {
        if pnl >= ProfitTrigger(t.mode) {
          var stop := trail.Arm(t.price, t.atr1m, t.mode);
          ArmedStop(cfg.direction, MoveOf(cfg, t));
          state := OpenTrailing;
          events := events + [TrailArmed(stop, pnl)];
        }
      } else if state == OpenTrailing {
        var moved := trail.Update(t.price, t.atr1m, t.mode);
        if trail.IsHit(t.price) {
          exit := CloseAt(TrailHit, t.price);
          return;
        }
        if t.weakness {
          exit := CloseAt(WeaknessConfirmed, t.price);
          return;
        }
      }
      return None;
    }

    /** The source's `_close`, also used by `force_close`. */
    method CloseAt(reason: ExitReason, price: real) returns (exit: Option<ExitReason>)
      requires Valid()
      modifies this`state, this`events, weights
      ensures Valid() && exit == Some(reason)
      ensures View() == Close(cfg, old(View()), reason, price)
      ensures weights.table == W.Closed(old(weights.table), Pnl(cfg, price) > 0.0)
    {
      hide Pnl;
      var pnl := Pnl(cfg, price);
      var outcome: bool;
      if pnl > 0.0 {
        state := ClosedProfit;
        outcome := true;
      } else if reason == Nuclear {
        state := ClosedNuclear;
        outcome := false;
      } else {
        state := ClosedLoss;
        outcome := false;
      }
      weights.Update(W.Hmp, outcome);
      weights.Update(W.Hlcp, outcome);
      weights.Update(W.Mpp, outcome);
      events := events + [PositionClosed(reason, price, pnl)];
      return Some(reason);
    }
  }

  lemma ArmedStop(direction: Direction, m: Move)
    ensures StopOf(direction, [m]) == Some(Proposed(direction, m))
  {
    assert [m][..0] == [];
  }
}
