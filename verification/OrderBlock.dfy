/** Order blocks (scoring/hmp/order_block.py): backward scans with early exit. */
module OrderBlock {
  import opened Market

  datatype OrderBlockResult = OrderBlockResult(
    found: bool, top: real, bottom: real, testCount: nat, imbalance: real, stale: bool)
  {
    function Mirror(): OrderBlockResult {
      this.(top := -bottom, bottom := -top)
    }
  }

  const NO_OB := OrderBlockResult(false, 0.0, 0.0, 0, 0.0, true)

  /** Bar i is bearish, three bullish bars follow, and the price is within reach of its zone. */
  predicate BullishAt(bars: seq<Bar>, i: int, price: real)
    requires 0 <= i <= |bars| - 4
  {
    var c := bars[i];
    && c.IsBearish()
    && bars[i + 1].IsBullish() && bars[i + 2].IsBullish() && bars[i + 3].IsBullish()
    && c.close <= price <= c.open + (c.open - c.close) * 2.0
  }

  predicate BearishAt(bars: seq<Bar>, i: int, price: real)
    requires 0 <= i <= |bars| - 4
  {
    var c := bars[i];
    && c.IsBullish()
    && bars[i + 1].IsBearish() && bars[i + 2].IsBearish() && bars[i + 3].IsBearish()
    && c.open - (c.close - c.open) * 2.0 <= price <= c.close
  }

  predicate Touches(bar: Bar, top: real, bottom: real) {
    bar.low <= top && bar.high >= bottom
  }

  function Tests(after: seq<Bar>, top: real, bottom: real): nat {
    if after == [] then 0
    else Tests(after[..|after| - 1], top, bottom) + if Touches(after[|after| - 1], top, bottom) then 1 else 0
  }

  function Block(bars: seq<Bar>, i: int, top: real, bottom: real, avgVolume: real): OrderBlockResult
    requires 0 <= i <= |bars| - 4
  {
    var tests := Tests(bars[i + 4..], top, bottom);
    var imbalance := if avgVolume > 0.0 then bars[i].volume / avgVolume else 0.0;
    OrderBlockResult(true, top, bottom, tests, imbalance, tests >= 3)
  }

  /** The newest bullish block at a position 2..i, scanning backward. */
  function ScanBullish(bars: seq<Bar>, price: real, avgVolume: real, i: int): OrderBlockResult
    requires i <= |bars| - 4
    decreases i
  {
    if i < 2 then NO_OB
    else if BullishAt(bars, i, price) then Block(bars, i, bars[i].open, bars[i].close, avgVolume)
    else ScanBullish(bars, price, avgVolume, i - 1)
  }

  function ScanBearish(bars: seq<Bar>, price: real, avgVolume: real, i: int): OrderBlockResult
    requires i <= |bars| - 4
    decreases i
  {
    if i < 2 then NO_OB
    else if BearishAt(bars, i, price) then Block(bars, i, bars[i].close, bars[i].open, avgVolume)
    else ScanBearish(bars, price, avgVolume, i - 1)
  }

  /** Mean volume of the last 20 bars, or of all when there are fewer. */
  function MeanVolume(m5: seq<Bar>): real
    requires m5 != []
  {
    SumVolume(LastN(m5, 20)) / (|LastN(m5, 20)| as real)
  }

  function ActiveOb(m5: seq<Bar>, price: real, direction: Direction): OrderBlockResult {
    if |m5| < 15 then NO_OB
    else
      var avgVol := MeanVolume(m5);
      var search := LastN(m5, 30);
      match direction
      case Long => ScanBullish(search, price, avgVol, |search| - 4)
      case Short => ScanBearish(search, price, avgVol, |search| - 4)
  }

  method CountObTests(after: seq<Bar>, top: real, bottom: real, direction: Direction) returns (count: nat)
    ensures count == Tests(after, top, bottom)
  {
    count := 0;
    for k := 0 to |after|
      invariant count == Tests(after[..k], top, bottom)
    {
      assert after[..k + 1][..k] == after[..k];
      var bar := after[k];
      if direction == Long {
        if bar.low <= top && bar.high >= bottom {
          count := count + 1;
        }
      } else {
        if bar.high >= bottom && bar.low <= top {
          count := count + 1;
        }
      }
    }
    assert after[..|after|] == after;
  }

  /** The result is the newest qualifying position, or nothing qualifies at all. */
  method FindBullishOb(bars: seq<Bar>, price: real, avgVolume: real) returns (r: OrderBlockResult)
    ensures r == ScanBullish(bars, price, avgVolume, |bars| - 4)
  {
    var i := |bars| - 4;
    while i > 1
      invariant i <= |bars| - 4
      invariant ScanBullish(bars, price, avgVolume, |bars| - 4) == ScanBullish(bars, price, avgVolume, i)
    {
      var candidate := bars[i];
      var next := i;
      i := i - 1;
      if !candidate.IsBearish() {
        continue;
      }
      var subsequent := bars[next + 1..next + 4];
      if !(subsequent[0].IsBullish() && subsequent[1].IsBullish() && subsequent[2].IsBullish()) {
        continue;
      }
      var top := candidate.open;
      var bottom := candidate.close;
      var size := top - bottom;
      if price < bottom || price > top + size * 2.0 {
        continue;
      }
      var testCount := CountObTests(bars[next + 4..], top, bottom, Long);
      var imbalance := if avgVolume > 0.0 then candidate.volume / avgVolume else 0.0;
      return OrderBlockResult(true, top, bottom, testCount, imbalance, testCount >= 3);
    }
    return NO_OB;
  }

  method FindBearishOb(bars: seq<Bar>, price: real, avgVolume: real) returns (r: OrderBlockResult)
    ensures r == ScanBearish(bars, price, avgVolume, |bars| - 4)
  {
    var i := |bars| - 4;
    while i > 1
      invariant i <= |bars| - 4
      invariant ScanBearish(bars, price, avgVolume, |bars| - 4) == ScanBearish(bars, price, avgVolume, i)
    {
      var candidate := bars[i];
      var next := i;
      i := i - 1;
      if !candidate.IsBullish() {
        continue;
      }
      var subsequent := bars[next + 1..next + 4];
      if !(subsequent[0].IsBearish() && subsequent[1].IsBearish() && subsequent[2].IsBearish()) {
        continue;
      }
      var top := candidate.close;
      var bottom := candidate.open;
      var size := top - bottom;
      if price > top || price < bottom - size * 2.0 {
        continue;
      }
      var testCount := CountObTests(bars[next + 4..], top, bottom, Short);
      var imbalance := if avgVolume > 0.0 then candidate.volume / avgVolume else 0.0;
      return OrderBlockResult(true, top, bottom, testCount, imbalance, testCount >= 3);
    }
    return NO_OB;
  }

  method FindActiveOb(m5: seq<Bar>, price: real, direction: Direction) returns (r: OrderBlockResult)
    ensures r == ActiveOb(m5, price, direction)
  {
    if |m5| < 15 {
      return NO_OB;
    }
    var count := if |m5| < 20 then |m5| else 20;
    var avgVol := SumVolume(LastN(m5, 20)) / (count as real);
    var search := if |m5| >= 30 then m5[|m5| - 30..] else m5;
    if direction == Long {
      r := FindBullishOb(search, price, avgVol);
    } else {
      r := FindBearishOb(search, price, avgVol);
    }
  }

  // ----- The reported block is the newest qualifying one --------------------

  lemma {:induction false} ScanBullishNewest(bars: seq<Bar>, price: real, avgVolume: real, i: int)
    requires i <= |bars| - 4
    ensures var r := ScanBullish(bars, price, avgVolume, i);
            if r.found then
              exists k :: 2 <= k <= i && BullishAt(bars, k, price)
                       && r == Block(bars, k, bars[k].open, bars[k].close, avgVolume)
                       && forall j :: k < j <= i ==> !BullishAt(bars, j, price)
            else r == NO_OB && forall j :: 2 <= j <= i ==> !BullishAt(bars, j, price)
    decreases i
  {
    if i >= 2 && !BullishAt(bars, i, price) {
      ScanBullishNewest(bars, price, avgVolume, i - 1);
    }
  }

  lemma {:induction false} ScanBearishNewest(bars: seq<Bar>, price: real, avgVolume: real, i: int)
    requires i <= |bars| - 4
    ensures var r := ScanBearish(bars, price, avgVolume, i);
            if r.found then
              exists k :: 2 <= k <= i && BearishAt(bars, k, price)
                       && r == Block(bars, k, bars[k].close, bars[k].open, avgVolume)
                       && forall j :: k < j <= i ==> !BearishAt(bars, j, price)
            else r == NO_OB && forall j :: 2 <= j <= i ==> !BearishAt(bars, j, price)
    decreases i
  {
    if i >= 2 && !BearishAt(bars, i, price) {
      ScanBearishNewest(bars, price, avgVolume, i - 1);
    }
  }

  /** Bar k falls, the next three rise, and the price lies between its close and two bodies above its open; the
      other way round for SHORT. */
  ghost predicate QualifiesAt(bars: seq<Bar>, k: int, price: real, direction: Direction) {
    2 <= k <= |bars| - 4
    && var x, a, b, c := bars[k], bars[k + 1], bars[k + 2], bars[k + 3];
       match direction
       case Long =>
         && x.close < x.open && a.close > a.open && b.close > b.open && c.close > c.open
         && x.close <= price <= x.open + 2.0 * (x.open - x.close)
       case Short =>
         && x.close > x.open && a.close < a.open && b.close < b.open && c.close < c.open
         && x.open - 2.0 * (x.close - x.open) <= price <= x.close
  }

  lemma QualifiesIff(bars: seq<Bar>, k: int, price: real)
    requires 2 <= k <= |bars| - 4
    ensures QualifiesAt(bars, k, price, Long) <==> BullishAt(bars, k, price)
    ensures QualifiesAt(bars, k, price, Short) <==> BearishAt(bars, k, price)
  {
  }

  lemma AllQualifyIff(bars: seq<Bar>, price: real)
    ensures forall k :: QualifiesAt(bars, k, price, Long) <==> 2 <= k <= |bars| - 4 && BullishAt(bars, k, price)
    ensures forall k :: QualifiesAt(bars, k, price, Short) <==> 2 <= k <= |bars| - 4 && BearishAt(bars, k, price)
  {
    forall k
      ensures QualifiesAt(bars, k, price, Long) <==> 2 <= k <= |bars| - 4 && BullishAt(bars, k, price)
    {
      if 2 <= k <= |bars| - 4 {
        QualifiesIff(bars, k, price);
      }
    }
    forall k
      ensures QualifiesAt(bars, k, price, Short) <==> 2 <= k <= |bars| - 4 && BearishAt(bars, k, price)
    {
      if 2 <= k <= |bars| - 4 {
        QualifiesIff(bars, k, price);
      }
    }
  }

  /** Bar k is the newest to qualify, and r reports its body, the later bars that overlap it and its volume
      against the mean. */
  ghost predicate IsNewestBlock(
    bars: seq<Bar>, k: int, price: real, direction: Direction, avgVolume: real, r: OrderBlockResult)
  {
    && 2 <= k <= |bars| - 4 && QualifiesAt(bars, k, price, direction)
    && (forall j :: QualifiesAt(bars, j, price, direction) ==> j <= k)
    && r.top == Max(bars[k].open, bars[k].close) && r.bottom == Min(bars[k].open, bars[k].close)
    && r.testCount == |set i | k + 4 <= i < |bars| && bars[i].low <= r.top && bars[i].high >= r.bottom|
    && (r.stale <==> r.testCount >= 3)
    && r.imbalance == if avgVolume > 0.0 then bars[k].volume / avgVolume else 0.0
  }

  /** A block is reported exactly when there are 15 bars and some bar of the last 30 qualifies; it is the body
      of the newest such bar; its test count is the number of bars from the fourth after it that touch that
      body; stale from 3 on; its imbalance is that bar's volume over the mean of the last 20. */
  lemma {:induction false} ActiveObExact(m5: seq<Bar>, price: real, direction: Direction)
    ensures var r := ActiveOb(m5, price, direction);
            var bars, recent := LastN(m5, 30), LastN(m5, 20);
            var mean := if recent == [] then 0.0 else SumVolume(recent) / (|recent| as real);
            if r.found then
              |m5| >= 15 && exists k :: IsNewestBlock(bars, k, price, direction, mean, r)
            else r == NO_OB && (|m5| < 15 || forall k :: !QualifiesAt(bars, k, price, direction))
  {
    if |m5| >= 15 {
      hide IsNewestBlock, QualifiesAt, ScanBullish, ScanBearish, SumVolume;
      if direction == Long {
        var k := NewestBullish(LastN(m5, 30), price, MeanVolume(m5));
      } else {
        var k := NewestBearish(LastN(m5, 30), price, MeanVolume(m5));
      }
    }
  }

  lemma {:induction false} NewestBullish(bars: seq<Bar>, price: real, avgVolume: real) returns (k: int)
    ensures var r := ScanBullish(bars, price, avgVolume, |bars| - 4);
            if r.found then IsNewestBlock(bars, k, price, Long, avgVolume, r)
            else r == NO_OB && forall j :: !QualifiesAt(bars, j, price, Long)
  {
    var last := |bars| - 4;
    ScanBullishNewest(bars, price, avgVolume, last);
    AllQualifyIff(bars, price);
    var r := ScanBullish(bars, price, avgVolume, last);
    hide ScanBullish, Tests, QualifiesAt;
    k := 2;
    if r.found {
      k :| 2 <= k <= last && BullishAt(bars, k, price) && r == Block(bars, k, bars[k].open, bars[k].close, avgVolume)
        && forall j :: k < j <= last ==> !BullishAt(bars, j, price);
      TestsFrom(bars, k + 4, r.top, r.bottom);
    }
  }

  lemma {:induction false} NewestBearish(bars: seq<Bar>, price: real, avgVolume: real) returns (k: int)
    ensures var r := ScanBearish(bars, price, avgVolume, |bars| - 4);
            if r.found then IsNewestBlock(bars, k, price, Short, avgVolume, r)
            else r == NO_OB && forall j :: !QualifiesAt(bars, j, price, Short)
  {
    var last := |bars| - 4;
    ScanBearishNewest(bars, price, avgVolume, last);
    AllQualifyIff(bars, price);
    var r := ScanBearish(bars, price, avgVolume, last);
    hide ScanBearish, Tests, QualifiesAt;
    k := 2;
    if r.found {
      k :| 2 <= k <= last && BearishAt(bars, k, price) && r == Block(bars, k, bars[k].close, bars[k].open, avgVolume)
        && forall j :: k < j <= last ==> !BearishAt(bars, j, price);
      TestsFrom(bars, k + 4, r.top, r.bottom);
    }
  }

  lemma {:induction false} TestsFrom(bars: seq<Bar>, k: nat, top: real, bottom: real)
    requires k <= |bars|
    ensures Tests(bars[k..], top, bottom) == |set i | k <= i < |bars| && bars[i].low <= top && bars[i].high >= bottom|
  {
    TouchesFrom(bars, k, top, bottom);
    assert (set i | k <= i < |bars| && bars[i].low <= top && bars[i].high >= bottom)
        == set i | k <= i < |bars| && Touches(bars[i], top, bottom);
  }

  lemma {:induction false} TouchesFrom(bars: seq<Bar>, k: nat, top: real, bottom: real)
    requires k <= |bars|
    ensures Tests(bars[k..], top, bottom) == |set i | k <= i < |bars| && Touches(bars[i], top, bottom)|
  {
    hide Touches;
    if k < |bars| {
      var n := |bars| - 1;
      var init := bars[..n];
      TouchesFrom(init, k, top, bottom);
      assert bars[k..][..n - k] == init[k..];
      var before := set i | k <= i < |init| && Touches(init[i], top, bottom);
      assert (set i | k <= i < |bars| && Touches(bars[i], top, bottom))
          == before + if Touches(bars[n], top, bottom) then {n} else {};
    }
  }

  // ----- Reflection --------------------------------------------------------

  lemma {:induction false} MirrorTests(after: seq<Bar>, top: real, bottom: real)
    ensures Tests(MirrorBars(after), -bottom, -top) == Tests(after, top, bottom)
  {
    if after != [] {
      MirrorTests(after[..|after| - 1], top, bottom);
      MirrorSlice(after, 0, |after| - 1);
    }
  }

  lemma MirrorBlock(bars: seq<Bar>, i: int, top: real, bottom: real, avgVolume: real)
    requires 0 <= i <= |bars| - 4
    ensures Block(MirrorBars(bars), i, -bottom, -top, avgVolume) == Block(bars, i, top, bottom, avgVolume).Mirror()
  {
    MirrorSlice(bars, i + 4, |bars|);
    assert MirrorBars(bars)[i + 4..] == MirrorBars(bars[i + 4..]);
    MirrorTests(bars[i + 4..], top, bottom);
  }

  lemma MirrorAt(bars: seq<Bar>, i: int, price: real)
    requires 0 <= i <= |bars| - 4
    ensures BearishAt(MirrorBars(bars), i, -price) == BullishAt(bars, i, price)
    ensures BullishAt(MirrorBars(bars), i, -price) == BearishAt(bars, i, price)
  {
  }

  lemma {:induction false} MirrorScan(bars: seq<Bar>, price: real, avgVolume: real, i: int)
    requires i <= |bars| - 4
    ensures ScanBearish(MirrorBars(bars), -price, avgVolume, i) == ScanBullish(bars, price, avgVolume, i).Mirror()
    ensures ScanBullish(MirrorBars(bars), -price, avgVolume, i) == ScanBearish(bars, price, avgVolume, i).Mirror()
    decreases i
  {
    if i >= 2 {
      MirrorScan(bars, price, avgVolume, i - 1);
      MirrorAt(bars, i, price);
      MirrorBlock(bars, i, bars[i].open, bars[i].close, avgVolume);
      MirrorBlock(bars, i, bars[i].close, bars[i].open, avgVolume);
    }
  }

  lemma MirrorActiveOb(m5: seq<Bar>, price: real, direction: Direction)
    ensures ActiveOb(MirrorBars(m5), -price, direction.Opposite()) == ActiveOb(m5, price, direction).Mirror()
  {
    if |m5| >= 15 {
      MirrorLastN(m5, 20);
      MirrorLastN(m5, 30);
      MirrorVolume(LastN(m5, 20));
      var search := LastN(m5, 30);
      MirrorScan(search, price, MeanVolume(m5), |search| - 4);
    }
  }
}
