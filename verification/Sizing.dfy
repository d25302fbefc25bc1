/** Lot sizing (risk/sizer.py) and the pre-trade checks (risk/validator.py, risk/models.py, risk/governor.py). */
module Sizing {
  import opened Market
  import opened Algebra
  import opened Instruments

  const MAX_RISK_PER_TRADE := 0.01
  const MAX_BASKET_RISK := 0.05
  const MAX_DAILY_LOSS := 0.04
  const MAX_DAILY_GAIN := 0.15
  const MAX_CONCURRENT := 5
  const MIN_RR_RATIO := 1.5
  const MAX_SPREAD_PCT := 0.0012
  const MARGIN_BUFFER := 0.80
  const MIN_LOT_SIZE := 0.01
  const MAX_LOT_SIZE := 10.0

  function FloorToStep(value: real, step: real): real {
    if step <= 0.0 then value else (value / step).Floor as real * step
  }

  /** USD lost by one lot between entry and stop. */
  function RiskPerLot(instr: Instrument, entry: real, stop: real): real
    requires instr.Sound()
  {
    Times(Abs(entry - stop) / instr.pipSize, instr.pipValue)
  }

  function LotSize(instr: Instrument, equity: real, entry: real, stop: real): real
    requires instr.Sound()
  {
    var riskCapital := equity * MAX_RISK_PER_TRADE;
    var pipDistance := Abs(entry - stop) / instr.pipSize;
    if pipDistance == 0.0 then MIN_LOT_SIZE
    else
      RiskPerLotPositive(instr, entry, stop);
      var raw := riskCapital / RiskPerLot(instr, entry, stop);
      Max(MIN_LOT_SIZE, Min(FloorToStep(raw, instr.lotStep), MAX_LOT_SIZE))
  }

  lemma RiskPerLotPositive(instr: Instrument, entry: real, stop: real)
    requires instr.Sound()
    ensures RiskPerLot(instr, entry, stop) >= 0.0
    ensures Abs(entry - stop) / instr.pipSize == 0.0 <==> entry == stop
    ensures RiskPerLot(instr, entry, stop) > 0.0 <==> entry != stop
  {
    var d := Abs(entry - stop);
    var pips := d / instr.pipSize;
    assert Times(instr.pipSize, pips) == d;
    hide Times;
    TimesZero(instr.pipSize);
    TimesZero(instr.pipValue);
    if pips < 0.0 {
      TimesPositive(instr.pipSize, -pips);
      TimesNegative(instr.pipSize, pips);
    } else {
      TimesNonNegative(pips, instr.pipValue);
    }
  }

  /** USD at risk in a position of that size, as the registry measures it. */
  function TradeRisk(instr: Instrument, lots: real, entry: real, stop: real): real
    requires instr.Sound()
  {
    Times(RiskPerLot(instr, entry, stop), lots)
  }

  function ComputeStopLoss(entry: real, direction: Direction, atr5m: real, multiplier: real := 1.5): real {
    match direction
    case Long => entry - atr5m * multiplier
    case Short => entry + atr5m * multiplier
  }

  // ----- The lot is the largest that fits -----------------------------------

  /** That many lot steps. */
  function Steps(k: int): real {
    k as real * 0.01
  }

  lemma FloorHundredth(x: real) returns (k: int)
    ensures FloorToStep(x, 0.01) == Steps(k) && Steps(k) <= x < Steps(k + 1)
  {
    k := (x / 0.01).Floor;
  }

  lemma StepsOrder(j: int, k: int)
    ensures Steps(j) <= Steps(k) <==> j <= k
    ensures Steps(j) < Steps(k) <==> j < k
  {
  }

  /** For r > 0, x fits under the quotient exactly when r * x fits under the total. */
  lemma FitsIff(r: real, total: real, x: real)
    requires r > 0.0
    ensures x <= total / r <==> Times(r, x) <= total
  {
    var q := total / r;
    assert Times(r, q) == total;
    hide Times;
    if x <= q {
      TimesGrows(r, x, q);
    } else {
      TimesPositive(r, x - q);
      TimesSum(r, x, -q);
      TimesNegative(r, q);
    }
  }

  /** One minimal lot already keeps the risk within 1% of equity. */
  predicate MinimalLotFits(instr: Instrument, equity: real, entry: real, stop: real)
    requires instr.Sound()
  {
    TradeRisk(instr, MIN_LOT_SIZE, entry, stop) <= equity * MAX_RISK_PER_TRADE
  }

  /** The lot is a multiple of 0.01 between 0.01 and 10; it risks at most 1% of equity exactly when one
      minimal lot does; no larger multiple up to 10 does, except that a stop at the entry price, which risks
      nothing at any size, gets the minimal lot. */
  lemma {:induction false} LotExact(instr: Instrument, equity: real, entry: real, stop: real) returns (k: int)
    requires instr.Sound()
    ensures var lot := LotSize(instr, equity, entry, stop);
            && lot == Steps(k) && 1 <= k <= 1000
            && (TradeRisk(instr, lot, entry, stop) <= equity * MAX_RISK_PER_TRADE
                <==> MinimalLotFits(instr, equity, entry, stop))
            && (!MinimalLotFits(instr, equity, entry, stop) ==> lot == MIN_LOT_SIZE)
            && (if entry == stop then k == 1
                else forall j :: k < j <= 1000 ==> TradeRisk(instr, Steps(j), entry, stop) > equity * MAX_RISK_PER_TRADE)
  {
    RiskPerLotPositive(instr, entry, stop);
    if entry == stop {
      k := 1;
      ZeroDistanceLot(instr, equity, entry);
    } else {
      k := LotAtDistance(instr, equity, entry, stop);
    }
    hide LotSize, RiskPerLot, Times;
  }

  lemma {:induction false} LotAtDistance(instr: Instrument, equity: real, entry: real, stop: real) returns (k: int)
    requires instr.Sound() && entry != stop
    ensures var lot := LotSize(instr, equity, entry, stop);
            && lot == Steps(k) && 1 <= k <= 1000
            && (TradeRisk(instr, lot, entry, stop) <= equity * MAX_RISK_PER_TRADE
                <==> MinimalLotFits(instr, equity, entry, stop))
            && (!MinimalLotFits(instr, equity, entry, stop) ==> lot == MIN_LOT_SIZE)
            && (forall j :: k < j <= 1000 ==>
                  TradeRisk(instr, Steps(j), entry, stop) > equity * MAX_RISK_PER_TRADE)
  {
    RiskPerLotPositive(instr, entry, stop);
    var r, total := RiskPerLot(instr, entry, stop), equity * MAX_RISK_PER_TRADE;
    var raw := total / r;
    var n := FloorHundredth(raw);
    k := if n < 1 then 1 else if n > 1000 then 1000 else n;
    LotInSteps(raw, n);
    hide RiskPerLot, Times, FloorToStep;
    var lot := LotSize(instr, equity, entry, stop);
    assert lot == Steps(k);
    FitsIff(r, total, 0.01);
    FitsIff(r, total, lot);
    StepsOrder(n, 1);
    StepsOrder(k, n);
    forall j | k < j <= 1000
      ensures TradeRisk(instr, Steps(j), entry, stop) > total
    {
      FitsIff(r, total, Steps(j));
      StepsOrder(n + 1, j);
    }
  }

  lemma LotInSteps(raw: real, n: int)
    requires FloorToStep(raw, 0.01) == Steps(n)
    ensures Max(MIN_LOT_SIZE, Min(FloorToStep(raw, 0.01), MAX_LOT_SIZE))
         == Steps(if n < 1 then 1 else if n > 1000 then 1000 else n)
  {
    hide FloorToStep;
  }

  lemma FloorMono(x: real, y: real)
    requires x <= y
    ensures FloorToStep(x, 0.01) <= FloorToStep(y, 0.01)
  {
    var j := FloorHundredth(x);
    var k := FloorHundredth(y);
    hide FloorToStep, Steps;
    StepsOrder(j, k + 1);
    StepsOrder(j, k);
  }

  /** More equity never means a smaller lot. */
  lemma {:induction false} LotGrowsWithEquity(instr: Instrument, e1: real, e2: real, entry: real, stop: real)
    requires instr.Sound() && e1 <= e2
    ensures LotSize(instr, e1, entry, stop) <= LotSize(instr, e2, entry, stop)
  {
    RiskPerLotPositive(instr, entry, stop);
    if entry != stop {
      var r := RiskPerLot(instr, entry, stop);
      var t1, t2 := e1 * MAX_RISK_PER_TRADE, e2 * MAX_RISK_PER_TRADE;
      assert Times(r, t1 / r) == t1;
      hide RiskPerLot, Times;
      FitsIff(r, t2, t1 / r);
      FloorMono(t1 / r, t2 / r);
    }
  }

  /** A wider stop never means a larger lot, whatever the equity, as long as there is a distance at all. */
  lemma {:induction false} LotShrinks(instr: Instrument, equity: real, entry: real, near: real, far: real)
    requires instr.Sound() && near != entry && Abs(entry - near) <= Abs(entry - far)
    ensures LotSize(instr, equity, entry, far) <= LotSize(instr, equity, entry, near)
  {
    RiskPerLotPositive(instr, entry, near);
    RiskPerLotPositive(instr, entry, far);
    var r1, r2 := RiskPerLot(instr, entry, near), RiskPerLot(instr, entry, far);
    RiskGrows(instr, entry, near, far);
    var t := equity * MAX_RISK_PER_TRADE;
    var q := t / r2;
    assert Times(r2, q) == t;
    assert Times(r2, 0.0) == 0.0;
    hide RiskPerLot, Times;
    if t < 0.0 {
      NoLotWithoutEquity(instr, equity, entry, far);
      LotAtLeastMinimal(instr, equity, entry, near);
    } else {
      FitsIff(r2, t, 0.0);
      TimesSymmetric(r1, q);
      TimesSymmetric(r2, q);
      TimesGrows(q, r1, r2);
      FitsIff(r1, t, q);
      FloorMono(q, t / r1);
    }
  }

  lemma LotAtLeastMinimal(instr: Instrument, equity: real, entry: real, stop: real)
    requires instr.Sound()
    ensures LotSize(instr, equity, entry, stop) >= MIN_LOT_SIZE
  {
    hide RiskPerLot, FloorToStep;
  }

  lemma {:induction false} NoLotWithoutEquity(instr: Instrument, equity: real, entry: real, stop: real)
    requires instr.Sound() && entry != stop && equity < 0.0
    ensures LotSize(instr, equity, entry, stop) == MIN_LOT_SIZE
  {
    RiskPerLotPositive(instr, entry, stop);
    TimesNonNegative(RiskPerLot(instr, entry, stop), MIN_LOT_SIZE);
    var k := LotExact(instr, equity, entry, stop);
    hide LotSize, RiskPerLot, Times;
  }

  /** So for any two stops, the nearer one gets the smaller lot exactly when it is no distance at all, which the
      sizer answers with the minimal lot, while two minimal lots fit behind the farther one. */
  lemma {:induction false} LotShrinksWithDistance(instr: Instrument, equity: real, entry: real, near: real, far: real)
    requires instr.Sound() && Abs(entry - near) <= Abs(entry - far)
    ensures LotSize(instr, equity, entry, far) <= LotSize(instr, equity, entry, near)
       <==> near != entry || far == entry || TradeRisk(instr, 2.0 * MIN_LOT_SIZE, entry, far) > equity * MAX_RISK_PER_TRADE
  {
    if near != entry {
      LotShrinks(instr, equity, entry, near, far);
    } else if far != entry {
      ZeroDistanceLot(instr, equity, entry);
      SecondStep(instr, equity, entry, far);
    }
  }

  lemma ZeroDistanceLot(instr: Instrument, equity: real, entry: real)
    requires instr.Sound()
    ensures LotSize(instr, equity, entry, entry) == MIN_LOT_SIZE
  {
  }

  /** The lot exceeds the minimal one exactly when two minimal lots fit. */
  lemma {:induction false} SecondStep(instr: Instrument, equity: real, entry: real, stop: real)
    requires instr.Sound() && entry != stop
    ensures LotSize(instr, equity, entry, stop) > MIN_LOT_SIZE
       <==> TradeRisk(instr, 2.0 * MIN_LOT_SIZE, entry, stop) <= equity * MAX_RISK_PER_TRADE
  {
    var k := LotExact(instr, equity, entry, stop);
    RiskPerLotPositive(instr, entry, stop);
    var r, lot := RiskPerLot(instr, entry, stop), LotSize(instr, equity, entry, stop);
    assert Steps(2) == 2.0 * MIN_LOT_SIZE && Steps(1) == MIN_LOT_SIZE;
    hide LotSize, RiskPerLot, Times;
    StepsOrder(1, k);
    if k >= 2 {
      StepsOrder(2, k);
      TimesGrows(r, Steps(2), lot);
    }
  }

  lemma RiskGrows(instr: Instrument, entry: real, near: real, far: real)
    requires instr.Sound() && Abs(entry - near) <= Abs(entry - far)
    ensures RiskPerLot(instr, entry, near) <= RiskPerLot(instr, entry, far)
  {
    var p, q := Abs(entry - near) / instr.pipSize, Abs(entry - far) / instr.pipSize;
    assert Times(instr.pipSize, p) == Abs(entry - near) && Times(instr.pipSize, q) == Abs(entry - far);
    hide Times;
    if p > q {
      TimesPositive(instr.pipSize, p - q);
      TimesSum(instr.pipSize, p, -q);
      TimesNegative(instr.pipSize, q);
    }
    TimesSymmetric(p, instr.pipValue);
    TimesSymmetric(q, instr.pipValue);
    TimesGrows(instr.pipValue, p, q);
  }

  /** The stop lies the given number of ATRs on the losing side of the entry. */
  lemma StopOnLosingSide(entry: real, direction: Direction, atr5m: real, multiplier: real)
    requires atr5m > 0.0 && multiplier > 0.0
    ensures var stop := ComputeStopLoss(entry, direction, atr5m, multiplier);
            && Abs(entry - stop) == Times(multiplier, atr5m)
            && (match direction case Long => stop < entry case Short => stop > entry)
  {
    TimesPositive(multiplier, atr5m);
  }

  // ----- The chain of checks ------------------------------------------------

  datatype Order = Order(symbol: string, direction: Direction, entry: real, stop: real, atr5m: real, spreadPct: real) {
    function RrRatio(): real {
      var risk := Abs(entry - stop);
      if risk > 0.0 then atr5m / risk else 0.0
    }
  }

  datatype Portfolio = Portfolio(
    netEquity: real, dailyPnl: real, openCount: nat, basketRisk: real, margin: real, dayLocked: bool)

  /** InternalError: the governor catches the sizer's KeyError for an unlisted symbol. */
  datatype Reason = DayLocked | DailyGain | DailyLoss | Concurrent | BasketRisk | RrRatio | Spread | MarginUse | InternalError

  datatype Verdict = Approved(lots: real) | Rejected(reason: Reason)

  function Checks(o: Order, p: Portfolio): seq<(bool, Reason)> {
    var tradeRisk := p.netEquity * MAX_RISK_PER_TRADE;
    [ (!p.dayLocked, DayLocked),
      (p.dailyPnl < p.netEquity * MAX_DAILY_GAIN, DailyGain),
      (p.dailyPnl > -(p.netEquity * MAX_DAILY_LOSS), DailyLoss),
      (p.openCount < MAX_CONCURRENT, Concurrent),
      (p.basketRisk + tradeRisk <= p.netEquity * MAX_BASKET_RISK, BasketRisk),
      (o.RrRatio() >= MIN_RR_RATIO, RrRatio),
      (o.spreadPct < MAX_SPREAD_PCT, Spread),
      (p.margin < MARGIN_BUFFER, MarginUse) ]
  }

  function FirstFailure(checks: seq<(bool, Reason)>): Option<Reason> {
    if checks == [] then None
    else if !checks[0].0 then Some(checks[0].1)
    else FirstFailure(checks[1..])
  }

  function Validate(o: Order, p: Portfolio): Verdict {
    match FirstFailure(Checks(o, p))
    case Some(reason) => Rejected(reason)
    case None =>
      match GetInstrument(o.symbol)
      case None => Rejected(InternalError)
      case Some(instr) =>
        ListedAreSound(o.symbol);
        Approved(LotSize(instr, p.netEquity, o.entry, o.stop))
  }

  lemma {:induction false} FirstFailureExact(checks: seq<(bool, Reason)>)
    ensures match FirstFailure(checks)
            case None => forall i :: 0 <= i < |checks| ==> checks[i].0
            case Some(reason) => exists i :: 0 <= i < |checks| && !checks[i].0 && checks[i].1 == reason
                                          && forall j :: 0 <= j < i ==> checks[j].0
  {
    if checks != [] && checks[0].0 {
      var rest := checks[1..];
      FirstFailureExact(rest);
      match FirstFailure(rest)
      case None =>
        assert forall i :: 1 <= i < |checks| ==> checks[i] == rest[i - 1];
      case Some(reason) =>
        var i :| 0 <= i < |rest| && !rest[i].0 && rest[i].1 == reason && forall j :: 0 <= j < i ==> rest[j].0;
        assert checks[i + 1] == rest[i];
        assert forall j :: 1 <= j < i + 1 ==> checks[j] == rest[j - 1];
    }
  }

  /** An order is approved exactly when all eight checks pass and the symbol is listed; otherwise the reason
      is that of the first check that fails, all earlier ones passing. */
  lemma {:induction false} ValidateExact(o: Order, p: Portfolio)
    ensures var checks := Checks(o, p);
            match Validate(o, p)
            case Approved(lots) =>
              && (forall i :: 0 <= i < |checks| ==> checks[i].0)
              && GetInstrument(o.symbol).Some? && GetInstrument(o.symbol).value.Sound()
              && lots == LotSize(GetInstrument(o.symbol).value, p.netEquity, o.entry, o.stop)
            case Rejected(InternalError) =>
              (forall i :: 0 <= i < |checks| ==> checks[i].0) && GetInstrument(o.symbol).None?
            case Rejected(reason) =>
              exists i :: 0 <= i < |checks| && !checks[i].0 && checks[i].1 == reason && forall j :: 0 <= j < i ==> checks[j].0
  {
    FirstFailureExact(Checks(o, p));
    ListedAreSound(o.symbol);
    hide LotSize, GetInstrument, FirstFailure;
  }

  /** The reward:risk check over the order's prices: some risk, and a reward of at least one and a half times it. */
  lemma RrPasses(o: Order)
    ensures o.RrRatio() >= MIN_RR_RATIO <==> o.entry != o.stop && o.atr5m >= 1.5 * Abs(o.entry - o.stop)
  {
    var risk := Abs(o.entry - o.stop);
    if risk > 0.0 {
      FitsIff(risk, o.atr5m, 1.5);
      TimesSymmetric(risk, 1.5);
    }
  }

  /** An order is approved if and only if the day is not locked, its profit lies strictly between -4% and 15% of
      equity, fewer than 5 positions are open, basket risk and 1% make at most 5%, there is some risk and the ATR is
      at least one and a half times it, spread and margin are below 0.0012 and 0.80, and the symbol is listed. */
  lemma {:induction false} ApprovedIff(o: Order, p: Portfolio)
    ensures Validate(o, p).Approved? <==>
              && !p.dayLocked
              && -0.04 * p.netEquity < p.dailyPnl < 0.15 * p.netEquity
              && p.openCount < 5
              && p.basketRisk + 0.01 * p.netEquity <= 0.05 * p.netEquity
              && o.entry != o.stop && o.atr5m >= 1.5 * Abs(o.entry - o.stop)
              && o.spreadPct < 0.0012 && p.margin < 0.80
              && GetInstrument(o.symbol).Some?
  {
    VerdictExact(o, p);
  }

  /** The verdict: the first of these conditions to fail, in this order, gives the reason; if none does, the lot
      is the sizer's. */
  lemma {:induction false} VerdictExact(o: Order, p: Portfolio)
    ensures match Validate(o, p)
            case Approved(lots) =>
              && !p.dayLocked && -0.04 * p.netEquity < p.dailyPnl < 0.15 * p.netEquity && p.openCount < 5
              && p.basketRisk + 0.01 * p.netEquity <= 0.05 * p.netEquity
              && o.entry != o.stop && o.atr5m >= 1.5 * Abs(o.entry - o.stop)
              && o.spreadPct < 0.0012 && p.margin < 0.80
              && GetInstrument(o.symbol).Some? && GetInstrument(o.symbol).value.Sound()
              && lots == LotSize(GetInstrument(o.symbol).value, p.netEquity, o.entry, o.stop)
            case Rejected(reason) => Fails(o, p, reason) && forall earlier :: Before(earlier, reason) ==> !Fails(o, p, earlier)
  {
    ValidateExact(o, p);
    RrPasses(o);
    if Validate(o, p).Rejected? {
      RejectionExact(o, p);
    }
    var checks := Checks(o, p);
    if Validate(o, p).Approved? {
      assert checks[0].0 && checks[1].0 && checks[2].0 && checks[3].0 && checks[4].0 && checks[5].0 && checks[6].0 && checks[7].0;
    }
    hide Validate, LotSize, GetInstrument, Fails;
  }

  /** What each reason says is wrong. */
  ghost predicate Fails(o: Order, p: Portfolio, reason: Reason) {
    match reason
    case DayLocked => p.dayLocked
    case DailyGain => p.dailyPnl >= 0.15 * p.netEquity
    case DailyLoss => p.dailyPnl <= -0.04 * p.netEquity
    case Concurrent => p.openCount >= 5
    case BasketRisk => p.basketRisk + 0.01 * p.netEquity > 0.05 * p.netEquity
    case RrRatio => o.entry == o.stop || o.atr5m < 1.5 * Abs(o.entry - o.stop)
    case Spread => o.spreadPct >= 0.0012
    case MarginUse => p.margin >= 0.80
    case InternalError => GetInstrument(o.symbol).None?
  }

  function Place(reason: Reason): int {
    match reason
    case DayLocked => 0 case DailyGain => 1 case DailyLoss => 2 case Concurrent => 3 case BasketRisk => 4
    case RrRatio => 5 case Spread => 6 case MarginUse => 7 case InternalError => 8
  }

  predicate Before(a: Reason, b: Reason) {
    Place(a) < Place(b)
  }

  /** Check i is the one about the reason in place i. */
  lemma {:induction false} CheckIs(o: Order, p: Portfolio, reason: Reason)
    requires reason != InternalError
    ensures Checks(o, p)[Place(reason)] == (!Fails(o, p, reason), reason)
  {
    RrPasses(o);
  }

  lemma {:induction false} RejectionExact(o: Order, p: Portfolio)
    requires Validate(o, p).Rejected?
    ensures var reason := Validate(o, p).reason;
            Fails(o, p, reason) && forall earlier :: Before(earlier, reason) ==> !Fails(o, p, earlier)
  {
    hide Checks, Validate, Fails, GetInstrument, LotSize;
    ValidateExact(o, p);
    var checks, reason := Checks(o, p), Validate(o, p).reason;
    EightChecks(o, p);
    forall r | r != InternalError ensures checks[Place(r)] == (!Fails(o, p, r), r) {
      CheckIs(o, p, r);
    }
    if reason == InternalError {
      UnlistedFails(o, p);
    } else {
      var i :| 0 <= i < |checks| && !checks[i].0 && checks[i].1 == reason && forall j :: 0 <= j < i ==> checks[j].0;
      assert i == Place(reason);
    }
  }

  lemma UnlistedFails(o: Order, p: Portfolio)
    ensures Fails(o, p, InternalError) <==> GetInstrument(o.symbol).None?
  {
    hide GetInstrument;
  }

  /** There are eight checks, each in its reason's place. */
  lemma EightChecks(o: Order, p: Portfolio)
    ensures |Checks(o, p)| == 8
    ensures forall i :: 0 <= i < 8 ==> Checks(o, p)[i].1 != InternalError && Place(Checks(o, p)[i].1) == i
  {
  }

  // ----- The default stop can never be approved -----------------------------

  /** With a stop placed `multiplier` ATRs away, the reward:risk check passes exactly when the multiplier
      is at most two thirds. */
  lemma {:induction false} RrPassesIff(o: Order, multiplier: real)
    requires o.atr5m > 0.0 && multiplier > 0.0
    requires o.stop == ComputeStopLoss(o.entry, o.direction, o.atr5m, multiplier)
    ensures o.RrRatio() >= MIN_RR_RATIO <==> multiplier <= 2.0 / 3.0
  {
    var risk := Abs(o.entry - o.stop);
    assert o.atr5m * multiplier == Times(o.atr5m, multiplier);
    hide Times;
    TimesPositive(o.atr5m, multiplier);
    assert risk == Times(o.atr5m, multiplier);
    FitsIff(risk, o.atr5m, 1.5);
    TimesSymmetric(risk, 1.5);
    Scaled(o.atr5m, multiplier);
    assert Times(risk, 1.5) <= o.atr5m <==> 1.5 * multiplier <= 1.0 by {
      ScaledIff(o.atr5m, 1.5 * multiplier);
    }
  }

  lemma Scaled(a: real, m: real)
    ensures Times(Times(a, m), 1.5) == Times(a, 1.5 * m)
  {
  }

  lemma ScaledIff(a: real, x: real)
    requires a > 0.0
    ensures Times(a, x) <= a <==> x <= 1.0
  {
    assert Times(a, 1.0) == a;
    hide Times;
    if x <= 1.0 {
      TimesGrows(a, x, 1.0);
    } else {
      TimesPositive(a, x - 1.0);
      TimesSum(a, x, -1.0);
      TimesNegative(a, 1.0);
    }
  }

  /** So no order whose stop comes from the sizer's default multiplier is ever approved. */
  lemma {:induction false} DefaultStopNeverApproved(o: Order, p: Portfolio)
    requires o.stop == ComputeStopLoss(o.entry, o.direction, o.atr5m)
    ensures Validate(o, p).Rejected?
  {
    if o.atr5m > 0.0 {
      RrPassesIff(o, 1.5);
    } else {
      NoRewardFails(o);
    }
    assert Checks(o, p)[5] == (o.RrRatio() >= MIN_RR_RATIO, RrRatio);
    ValidateExact(o, p);
    hide Validate, Checks;
  }

  lemma NoRewardFails(o: Order)
    requires o.atr5m <= 0.0
    ensures o.RrRatio() < MIN_RR_RATIO
  {
    var risk := Abs(o.entry - o.stop);
    if risk > 0.0 {
      FitsIff(risk, o.atr5m, 1.5);
      TimesPositive(risk, 1.5);
    }
  }
}
