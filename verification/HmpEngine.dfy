/** The HMP scoring engine (scoring/hmp/engine.py) and its reflection theorem. */
module HmpEngine {
  import opened Market
  import opened Structure
  import opened FairValueGap
  import opened OrderBlock

  /** The fields of a MarketSnapshot that the engine reads. */
  datatype Snapshot = Snapshot(m3: seq<Bar>, m5: seq<Bar>, atr5m: real, bid: real, ask: real) {
    function Mid(): real {
      (bid + ask) / 2.0
    }

    /** Every price negated: bars mirrored, and the old ask becomes the new bid. */
    function Mirror(): Snapshot {
      Snapshot(MirrorBars(m3), MirrorBars(m5), atr5m, -ask, -bid)
    }
  }

  datatype HmpResult = HmpResult(
    score: int, direction: Direction,
    bos: BosResult, choch: ChochResult, fvg: Option<FvgResult>, orderBlock: Option<OrderBlockResult>,
    bosPts: int, chochPts: int, fvgPts: int, obPts: int)
  {
    function Mirror(): HmpResult {
      this.(
        direction := direction.Opposite(),
        bos := bos.Mirror(),
        choch := choch.Mirror(),
        fvg := if fvg.None? then None else Some(fvg.value.Mirror()),
        orderBlock := if orderBlock.None? then None else Some(orderBlock.value.Mirror()))
    }
  }

  function BosPoints(bos: BosResult): int {
    if bos.confirmed then
      var base := if bos.momentum > 0.70 then 20 else 10;
      if bos.mtfAligned then base else if base - 8 < 0 then 0 else base - 8
    else 0
  }

  function ChochPoints(choch: ChochResult): int {
    match choch.quality
    case HighQuality => 15
    case MedQuality => 8
    case LowQuality => 0
    case NoQuality => 0
  }

  function FvgPoints(fvg: FvgResult): int {
    if fvg.found && fvg.unfilled then
      if fvg.distance < 0.5 then 15 else if fvg.distance < 1.5 then 7 else 0
    else 0
  }

  function ObPoints(ob: OrderBlockResult): int {
    if ob.found then
      if !ob.stale && ob.imbalance > 0.6 then 10 else 4
    else 0
  }

  function Assemble(
    direction: Direction, bos: BosResult, choch: ChochResult, nearest: FvgResult, ob: OrderBlockResult): HmpResult
  {
    var fvg := if nearest.found && nearest.unfilled then nearest else NO_FVG;
    var total := BosPoints(bos) + ChochPoints(choch) + FvgPoints(fvg) + ObPoints(ob);
    HmpResult(
      if total < 60 then total else 60, direction,
      bos, choch, if fvg.found then Some(fvg) else None, if ob.found then Some(ob) else None,
      BosPoints(bos), ChochPoints(choch), FvgPoints(fvg), ObPoints(ob))
  }

  function CalculateHmp(snap: Snapshot, direction: Direction): HmpResult {
    Assemble(
      direction,
      DetectBos(snap.m5, snap.m3, direction, snap.atr5m),
      DetectChoch(snap.m3, snap.m5, direction),
      NearestFvg(snap.m3, snap.Mid(), snap.atr5m, direction),
      ActiveOb(snap.m5, snap.Mid(), direction))
  }

  lemma MirrorAssemble(
    direction: Direction, bos: BosResult, choch: ChochResult, nearest: FvgResult, ob: OrderBlockResult)
    ensures Assemble(direction.Opposite(), bos.Mirror(), choch.Mirror(), nearest.Mirror(), ob.Mirror())
         == Assemble(direction, bos, choch, nearest, ob).Mirror()
  {
  }

  /** Reflection: the engine scores a mirrored market in the opposite direction exactly as it scored
      the original one, down to every detector's report; total and component points are equal, as Mirror keeps them. */
  lemma {:induction false} ReflectionSymmetry(snap: Snapshot, direction: Direction)
    ensures CalculateHmp(snap.Mirror(), direction.Opposite()) == CalculateHmp(snap, direction).Mirror()
  {
    hide DetectBos, DetectChoch, NearestFvg, ActiveOb, Assemble;
    var bos := DetectBos(snap.m5, snap.m3, direction, snap.atr5m);
    var choch := DetectChoch(snap.m3, snap.m5, direction);
    var nearest := NearestFvg(snap.m3, snap.Mid(), snap.atr5m, direction);
    var ob := ActiveOb(snap.m5, snap.Mid(), direction);
    MirrorBos(snap.m5, snap.m3, direction, snap.atr5m);
    MirrorChoch(snap.m3, snap.m5, direction);
    assert snap.Mirror().Mid() == -snap.Mid();
    MirrorNearest(snap.m3, snap.Mid(), snap.atr5m, direction);
    MirrorActiveOb(snap.m5, snap.Mid(), direction);
    MirrorAssemble(direction, bos, choch, nearest, ob);
  }

  // ----- What the engine looks at --------------------------------------------

  /** Each report is about the bars it should be: structure on M5 with M3 behind it, character and gaps on M3,
      order blocks on M5, both of these around the middle of bid and ask. */
  lemma {:induction false} ReportsFromBars(snap: Snapshot, direction: Direction)
    ensures var r := CalculateHmp(snap, direction);
            var price := (snap.bid + snap.ask) / 2.0;
            var gaps, blocks := LastN(snap.m3, 20), LastN(snap.m5, 30);
            && r.direction == direction
            && (r.bos.confirmed <==>
                 |snap.m5| >= 10 && snap.atr5m != 0.0 && exists j :: PassesNewest(snap.m5, direction, 30, LastClose(snap.m5), j))
            && (r.choch.confirmed <==>
                 |snap.m3| >= 10 && exists j :: PassesNewest(snap.m3, direction, 20, LastWick(snap.m3, direction), j))
            && (r.choch.quality == HighQuality ==> IsLoud(snap.m3) && |snap.m5| >= 2)
            && (r.fvg.Some? <==> |snap.m3| >= 3 && snap.atr5m != 0.0 && exists i :: IsGap(gaps, i, price, direction))
            && (r.fvg.Some? ==> exists i :: IsNearestGap(gaps, i, price, snap.atr5m, direction)
                                         && ReportsGap(gaps, i, price, snap.atr5m, direction, r.fvg.value))
            && (r.orderBlock.Some? <==> |snap.m5| >= 15 && exists k :: QualifiesAt(blocks, k, price, direction))
  {
    BosExact(snap.m5, snap.m3, direction, snap.atr5m);
    ChochExact(snap.m3, snap.m5, direction);
    ChochReport(snap.m3, snap.m5, direction);
    NearestFvgExact(snap.m3, snap.Mid(), snap.atr5m, direction);
    ActiveObExact(snap.m5, snap.Mid(), direction);
    GapsAreUnfilled(snap, direction);
    BlockFound(snap, direction);
    hide DetectBos, DetectChoch, NearestFvg, ActiveOb, PassesNewest, IsLoud, IsGap, IsNearestGap, QualifiesAt, IsNewestBlock, LastN,
      BosPoints, ChochPoints, FvgPoints, ObPoints, LevelIsNewest;
  }

  lemma GapsAreUnfilled(snap: Snapshot, direction: Direction)
    ensures var r := NearestFvg(snap.m3, snap.Mid(), snap.atr5m, direction); r.found ==> r.unfilled
  {
    NearestFvgExact(snap.m3, snap.Mid(), snap.atr5m, direction);
    hide NearestFvg, IsGap, IsNearestGap, LastN;
  }

  lemma BlockFound(snap: Snapshot, direction: Direction)
    ensures ActiveOb(snap.m5, snap.Mid(), direction).found
       <==> |snap.m5| >= 15 && exists k :: QualifiesAt(LastN(snap.m5, 30), k, snap.Mid(), direction)
  {
    ActiveObExact(snap.m5, snap.Mid(), direction);
    hide ActiveOb, QualifiesAt, LastN;
  }

  // ----- Remarks on the points ----------------------------------------------

  /** The cap of 60 never cuts anything off. */
  lemma ScoreIsSum(snap: Snapshot, direction: Direction)
    ensures var r := CalculateHmp(snap, direction);
            r.score == r.bosPts + r.chochPts + r.fvgPts + r.obPts && 0 <= r.score <= 60
  {
  }

  /** The full 60 points take all four signals at their best at once. */
  lemma FullScoreIff(snap: Snapshot, direction: Direction)
    ensures var r := CalculateHmp(snap, direction);
            r.score == 60 <==>
              && r.bos.confirmed && r.bos.momentum > 0.70 && r.bos.mtfAligned
              && r.choch.quality == HighQuality
              && r.fvg.Some? && r.fvg.value.unfilled && r.fvg.value.distance < 0.5
              && r.orderBlock.Some? && !r.orderBlock.value.stale && r.orderBlock.value.imbalance > 0.6
  {
    hide DetectBos, DetectChoch, NearestFvg, ActiveOb;
  }

  /** The point table, by what the four reports say. */
  lemma PointsNeedSignals(snap: Snapshot, direction: Direction)
    ensures var r := CalculateHmp(snap, direction);
            && r.bosPts in {0, 2, 10, 12, 20}
            && (r.bosPts > 0 <==> r.bos.confirmed)
            && (r.bosPts >= 12 <==> r.bos.confirmed && r.bos.momentum > 0.70)
            && (r.bosPts == 20 || r.bosPts == 10 <==> r.bos.confirmed && r.bos.mtfAligned)
            && (r.chochPts == 15 <==> r.choch.quality == HighQuality)
            && (r.chochPts == 8 <==> r.choch.quality == MedQuality)
            && (r.chochPts == 0 <==> r.choch.quality == LowQuality || r.choch.quality == NoQuality)
            && (r.fvgPts == 15 <==> r.fvg.Some? && r.fvg.value.distance < 0.5)
            && (r.fvgPts == 7 <==> r.fvg.Some? && 0.5 <= r.fvg.value.distance < 1.5)
            && (r.fvgPts == 0 <==> r.fvg.None? || r.fvg.value.distance >= 1.5)
            && (r.obPts == 10 <==> r.orderBlock.Some? && !r.orderBlock.value.stale && r.orderBlock.value.imbalance > 0.6)
            && (r.obPts == 0 <==> r.orderBlock.None?)
            && r.obPts in {0, 4, 10}
  {
    hide DetectBos, DetectChoch, NearestFvg, ActiveOb;
  }
}
