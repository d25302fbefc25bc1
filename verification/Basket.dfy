/** The registry of open positions (positions/registry.py, portfolio/ledger.py) and the basket risk of whole runs. */
module Basket {
  import opened Market
  import opened Algebra
  import opened Instruments
  import opened Sizing

  /** What basket risk reads of an open position. */
  datatype Held = Held(instr: Instrument, lots: real, entry: real, stop: real)

  type Book = map<int, Held>

  /** USD at risk, as the registry measures it: a position whose division fails is passed over. */
  function Risk(h: Held): real {
    if h.instr.pipSize == 0.0 then 0.0
    else Times(Times(Abs(h.entry - h.stop) / h.instr.pipSize, h.instr.pipValue), h.lots)
  }

  /** USD at risk as the portfolio state measures it: the division by the pip size is missing. */
  function StateRisk(h: Held): real {
    h.lots * Abs(h.entry - h.stop) * h.instr.pipValue
  }

  /** So the validator's own basket check sees only the risk times the pip size. */
  lemma StateRiskIsScaled(h: Held)
    requires h.instr.pipSize != 0.0
    ensures StateRisk(h) == Times(h.instr.pipSize, Risk(h))
  {
    var d, size, value := Abs(h.entry - h.stop), h.instr.pipSize, h.instr.pipValue;
    var pips := d / size;
    assert size * pips == d;
    hide Abs;
    assert size * ((pips * value) * h.lots) == ((size * pips) * value) * h.lots;
  }

  ghost function AnyId(book: Book): (id: int)
    requires book != map[]
    ensures id in book
  {
    assert (forall id :: id !in book) ==> book == map[];
    var id :| id in book;
    id
  }

  /** The sum of a measure over a book, in any order. */
  ghost function Total(book: Book, measure: Held -> real): real {
    if book == map[] then 0.0
    else
      var id := AnyId(book);
      measure(book[id]) + Total(book - {id}, measure)
  }

  lemma {:induction false} TotalPick(book: Book, measure: Held -> real, id: int)
    requires id in book
    ensures Total(book, measure) == measure(book[id]) + Total(book - {id}, measure)
    decreases |book|
  {
    var first := AnyId(book);
    if first != id {
      TotalPick(book - {first}, measure, id);
      TotalPick(book - {id}, measure, first);
      assert book - {first} - {id} == book - {id} - {first};
    }
  }

  /** Adding under a new id adds the measure; an old id is replaced. */
  lemma {:induction false} TotalPut(book: Book, measure: Held -> real, id: int, h: Held)
    ensures Total(book[id := h], measure) == measure(h) + Total(book - {id}, measure)
  {
    TotalPick(book[id := h], measure, id);
    assert book[id := h] - {id} == book - {id};
  }

  // ----- Whole runs ---------------------------------------------------------

  /** Open: an order proposed under an id, with what else the portfolio snapshot holds; it is opened at the
      proposed price when the validator approves.  Close: removes an id, known or not. */
  datatype Event =
    | Open(id: int, order: Order, equity: real, dailyPnl: real, margin: real, dayLocked: bool)
    | Close(id: int)

  ghost function SnapshotOf(book: Book, e: Event): Portfolio
    requires e.Open?
  {
    Portfolio(e.equity, e.dailyPnl, |book|, Total(book, StateRisk), e.margin, e.dayLocked)
  }

  ghost function Step(book: Book, e: Event): Book {
    match e
    case Open(id, order, _, _, _, _) =>
      (match Validate(order, SnapshotOf(book, e))
       case Approved(lots) =>
         if GetInstrument(order.symbol).Some?
         then book[id := Held(GetInstrument(order.symbol).value, lots, order.entry, order.stop)]
         else book
       case Rejected(_) => book)
    case Close(id) => book - {id}
  }

  ghost function Run(events: seq<Event>): Book {
    if events == [] then map[]
    else var n := |events| - 1; Step(Run(events[..n]), events[n])
  }

  /** Were the order opened, its smallest lot would not be forced above 1% of that equity. */
  predicate Fits(e: Event)
    requires e.Open?
  {
    ListedAreSound(e.order.symbol);
    GetInstrument(e.order.symbol).Some? ==>
      MinimalLotFits(GetInstrument(e.order.symbol).value, e.equity, e.order.entry, e.order.stop)
  }

  /** The event is an order that the validator approves at that point. */
  ghost predicate Opens(book: Book, e: Event) {
    e.Open? && Validate(e.order, SnapshotOf(book, e)).Approved?
  }

  /** The equity is never above `top` when an order is approved, and every order approved fits. */
  ghost predicate Careful(events: seq<Event>, top: real) {
    forall i :: 0 <= i < |events| && Opens(Run(events[..i]), events[i]) ==> Fits(events[i]) && events[i].equity <= top
  }

  /** Every position risks at most `limit`. */
  ghost predicate Within(book: Book, limit: real) {
    forall id :: id in book ==> 0.0 <= Risk(book[id]) <= limit
  }

  lemma LimitStep(limit: real, n: int)
    ensures limit * n as real == limit * (n - 1) as real + limit
  {
  }

  lemma DropCount(book: Book, id: int)
    requires id in book
    ensures |book - {id}| == |book| - 1
  {
    var rest := book - {id};
    assert rest.Keys == book.Keys - {id};
    assert |rest| == |rest.Keys| && |book| == |book.Keys|;
  }

  lemma {:induction false} TotalWithin(book: Book, limit: real)
    requires Within(book, limit)
    ensures 0.0 <= Total(book, Risk) <= limit * |book| as real
    decreases |book|
  {
    hide Risk, Total;
    if book == map[] {
      NothingAtRisk(limit);
    } else {
      var id := AnyId(book);
      var rest := book - {id};
      TotalPick(book, Risk, id);
      DropCount(book, id);
      assert 0.0 <= Risk(book[id]) <= limit;
      assert Within(rest, limit);
      hide Within;
      TotalWithin(rest, limit);
      LimitStep(limit, |book|);
    }
  }

  lemma NothingAtRisk(limit: real)
    ensures var empty: Book := map[]; |empty| == 0 && Total(empty, Risk) == 0.0 == limit * |empty| as real
  {
  }

  /** An approved order that fits risks at most 1% of its equity. */
  lemma {:induction false} ApprovedWithin(book: Book, e: Event)
    requires e.Open? && Fits(e) && Validate(e.order, SnapshotOf(book, e)).Approved?
    ensures GetInstrument(e.order.symbol).Some? && |book| < MAX_CONCURRENT
    ensures var h := Step(book, e)[e.id];
            && Step(book, e) == book[e.id := h]
            && 0.0 <= Risk(h) <= e.equity * MAX_RISK_PER_TRADE
  {
    var p := SnapshotOf(book, e);
    ValidateExact(e.order, p);
    assert Checks(e.order, p)[3].0;
    ListedAreSound(e.order.symbol);
    var instr := GetInstrument(e.order.symbol).value;
    hide Validate, Checks, GetInstrument, LotSize, Total;
    SizedRisk(instr, e.equity, e.order.entry, e.order.stop);
  }

  lemma {:induction false} SizedRisk(instr: Instrument, equity: real, entry: real, stop: real)
    requires instr.Sound() && MinimalLotFits(instr, equity, entry, stop)
    ensures 0.0 <= TradeRisk(instr, LotSize(instr, equity, entry, stop), entry, stop) <= equity * MAX_RISK_PER_TRADE
  {
    RiskPerLotPositive(instr, entry, stop);
    var r := RiskPerLot(instr, entry, stop);
    hide RiskPerLot, Times;
    if entry == stop {
      assert LotSize(instr, equity, entry, stop) == MIN_LOT_SIZE;
      TimesNonNegative(r, MIN_LOT_SIZE);
    } else {
      var k := LotExact(instr, equity, entry, stop);
      TimesNonNegative(r, Steps(k));
    }
  }

  /** At most 5 positions, each within the limit. */
  ghost predicate Moderate(book: Book, limit: real) {
    |book| <= MAX_CONCURRENT && Within(book, limit)
  }

  lemma PutKeepsModerate(book: Book, limit: real, id: int, h: Held)
    requires Moderate(book, limit) && |book| < MAX_CONCURRENT && 0.0 <= Risk(h) <= limit
    ensures Moderate(book[id := h], limit)
  {
    hide Risk;
    assert book[id := h].Keys == book.Keys + {id};
    assert |book[id := h]| == |book[id := h].Keys| <= |book.Keys| + 1;
  }

  lemma DropKeepsModerate(book: Book, limit: real, id: int)
    requires Moderate(book, limit)
    ensures Moderate(book - {id}, limit)
  {
    hide Risk;
    assert (book - {id}).Keys == book.Keys - {id};
    assert |book - {id}| == |(book - {id}).Keys| <= |book.Keys|;
  }

  lemma {:induction false} StepKeepsModerate(book: Book, e: Event, top: real)
    requires Moderate(book, top * MAX_RISK_PER_TRADE)
    requires Opens(book, e) ==> Fits(e) && e.equity <= top
    ensures Moderate(Step(book, e), top * MAX_RISK_PER_TRADE)
  {
    hide Moderate, Validate, Risk, GetInstrument, Fits, Total;
    match e
    case Open(id, order, equity, _, _, _) =>
      if Validate(order, SnapshotOf(book, e)).Approved? {
        ApprovedWithin(book, e);
        PutKeepsModerate(book, top * MAX_RISK_PER_TRADE, id, Step(book, e)[id]);
      }
    case Close(id) =>
      DropKeepsModerate(book, top * MAX_RISK_PER_TRADE, id);
  }

  lemma {:induction false} RunIsModerate(events: seq<Event>, top: real)
    requires Careful(events, top)
    ensures Moderate(Run(events), top * MAX_RISK_PER_TRADE)
  {
    if events != [] {
      var n := |events| - 1;
      var before := events[..n];
      hide Fits, Step, Moderate, Opens, Careful;
      CarefulInit(events, top);
      RunIsModerate(before, top);
      StepKeepsModerate(Run(before), events[n], top);
    }
  }

  lemma CarefulInit(events: seq<Event>, top: real)
    requires events != [] && Careful(events, top)
    ensures var n := |events| - 1;
            && Careful(events[..n], top)
            && (Opens(Run(events[..n]), events[n]) ==> Fits(events[n]) && events[n].equity <= top)
  {
    hide Fits, Run, Opens;
    var n := |events| - 1;
    assert forall i :: 0 <= i < n ==> events[..n][..i] == events[..i];
  }

  /** In any run of validated opens and closes, if the orders approved fit, at most 5 positions are open and the
      basket risks at most 5% of the largest equity seen. */
  lemma {:induction false} BasketHeat(events: seq<Event>, top: real)
    requires top >= 0.0
    requires Careful(events, top)
    ensures |Run(events)| <= MAX_CONCURRENT
    ensures Total(Run(events), Risk) <= top * MAX_BASKET_RISK
  {
    hide Run, Within, Total, Risk, Fits, Careful;
    RunIsModerate(events, top);
    TotalWithin(Run(events), top * MAX_RISK_PER_TRADE);
    HeatBound(top * MAX_RISK_PER_TRADE, |Run(events)|);
  }

  lemma HeatBound(limit: real, n: nat)
    requires limit >= 0.0 && n <= 5
    ensures limit * n as real <= limit * 5.0
  {
  }

  /** Without that condition one approved order can break the 5% alone: its smallest lot is forced above
      it.  Equity 100 USD, EURUSD, a stop 60 pips away: 6 USD at risk. */
  lemma {:induction false} MinimalLotBreaksHeat() returns (e: Event)
    ensures e.Open? && !Fits(e)
    ensures Total(Run([e]), Risk) > e.equity * MAX_BASKET_RISK
  {
    var order := Order("EURUSD", Long, 1.1060, 1.1, 0.009, 0.0001);
    var instr := Instrument(0.0001, 10.0, 0.01);
    var h := Held(instr, 0.01, 1.1060, 1.1);
    e := Open(1, order, 100.0, 0.0, 0.0, false);
    ExampleApproved(e, order, instr);
    hide Validate, Risk, GetInstrument;
    var empty: Book := map[];
    assert [e][..0] == [];
    assert Run([e]) == Step(empty, e) == empty[1 := h];
    TotalPut(empty, Risk, 1, h);
    assert empty - {1} == empty;
  }

  lemma {:induction false} ExampleApproved(e: Event, order: Order, instr: Instrument)
    requires order == Order("EURUSD", Long, 1.1060, 1.1, 0.009, 0.0001) && instr == Instrument(0.0001, 10.0, 0.01)
    requires e == Open(1, order, 100.0, 0.0, 0.0, false)
    ensures GetInstrument("EURUSD") == Some(instr)
    ensures Validate(order, SnapshotOf(map[], e)) == Approved(0.01)
    ensures Risk(Held(instr, 0.01, 1.1060, 1.1)) == 6.0 && !Fits(e)
  {
    ListedExample();
    var p := SnapshotOf(map[], e);
    assert p.basketRisk == 0.0;
    assert order.RrRatio() == 1.5;
    ValidateExact(order, p);
    hide Validate, GetInstrument;
    ExampleLot(instr);
  }

  lemma ListedExample()
    ensures GetInstrument("EURUSD") == Some(Instrument(0.0001, 10.0, 0.01))
  {
  }

  lemma ExampleLot(instr: Instrument)
    requires instr == Instrument(0.0001, 10.0, 0.01)
    ensures RiskPerLot(instr, 1.1060, 1.1) == 600.0 && LotSize(instr, 100.0, 1.1060, 1.1) == 0.01
  {
    assert RiskPerLot(instr, 1.1060, 1.1) == 600.0;
  }

  // ----- The mutable registry -----------------------------------------------

  /** The part of the portfolio state that the registry and the ledger write. */
  class PortfolioBook {
    var openPositions: Book
    var realizedPnl: real

    constructor ()
      ensures openPositions == map[] && realizedPnl == 0.0
    {
      openPositions := map[];
      realizedPnl := 0.0;
    }

    /** The ledger's record_close. */
    method RecordClose(pnl: real)
      modifies this`realizedPnl
      ensures realizedPnl == old(realizedPnl) + pnl
    {
      realizedPnl := realizedPnl + pnl;
    }
  }

  class PositionRegistry {
    var positions: Book

    constructor ()
      ensures positions == map[]
    {
      positions := map[];
    }

    /** The registry and the portfolio state list the same positions. */
    ghost predicate InSync(portfolio: PortfolioBook)
      reads this, portfolio
    {
      positions == portfolio.openPositions
    }

    method AddPosition(id: int, h: Held, portfolio: PortfolioBook)
      requires InSync(portfolio)
      modifies this, portfolio`openPositions
      ensures InSync(portfolio) && positions == old(positions)[id := h]
      ensures Total(positions, Risk) == Risk(h) + Total(old(positions) - {id}, Risk)
    {
      positions := positions[id := h];
      portfolio.openPositions := portfolio.openPositions[id := h];
      TotalPut(old(positions), Risk, id, h);
    }

    /** Profit is booked only for a position that is really there, so closing twice books it once. */
    method RemovePosition(id: int, pnl: real, portfolio: PortfolioBook)
      requires InSync(portfolio)
      modifies this, portfolio
      ensures InSync(portfolio) && positions == old(positions) - {id}
      ensures portfolio.realizedPnl == old(portfolio.realizedPnl) + if id in old(positions) then pnl else 0.0
      ensures id in old(positions) ==> Total(positions, Risk) == Total(old(positions), Risk) - Risk(old(positions)[id])
    {
      if id in positions {
        TotalPick(positions, Risk, id);
        positions := positions - {id};
        portfolio.openPositions := portfolio.openPositions - {id};
        portfolio.RecordClose(pnl);
      } else {
        assert positions - {id} == positions;
      }
    }

    /** The source's loop over the registry. */
    method GetTotalRisk() returns (total: real)
      ensures total == Total(positions, Risk)
    {
      total := 0.0;
      var rest := positions;
      while rest != map[]
        invariant total + Total(rest, Risk) == Total(positions, Risk)
        decreases |rest|
      {
        ghost var any := AnyId(rest);
        var id :| id in rest;
        TotalPick(rest, Risk, id);
        var h := rest[id];
        if h.instr.pipSize != 0.0 {
          var pips := Abs(h.entry - h.stop) / h.instr.pipSize;
          total := total + Times(Times(pips, h.instr.pipValue), h.lots);
        }
        rest := rest - {id};
      }
    }
  }
}
