/** Break of structure (scoring/hmp/bos.py) and change of character (scoring/hmp/choch.py). */
module Structure {
  import opened Market
  import opened Swing

  datatype BosResult = BosResult(confirmed: bool, momentum: real, swingLevel: real, mtfAligned: bool) {
    function Mirror(): BosResult {
      this.(swingLevel := -swingLevel)
    }
  }

  const NO_BOS := BosResult(false, 0.0, 0.0, false)

  /** The current bar is excluded from the search for the swing it has to break. */
  function DetectBos(m5: seq<Bar>, m3: seq<Bar>, direction: Direction, atr5m: real): BosResult {
    if |m5| < 10 || atr5m == 0.0 then NO_BOS
    else
      var close := m5[|m5| - 1].close;
      match direction
      case Long => BosAbove(close, LastSwingHigh(m5[..|m5| - 1]), atr5m, CheckM3Bos(m3, Long))
      case Short => BosBelow(close, LastSwingLow(m5[..|m5| - 1]), atr5m, CheckM3Bos(m3, Short))
  }

  /** The source's LONG half. */
  function BosAbove(close: real, swing: Option<SwingPoint>, atr5m: real, m3Breaks: bool): BosResult
    requires atr5m != 0.0
  {
    if swing.None? then NO_BOS
    else
      var price := swing.value.price;
      var confirmed := close > price;
      BosResult(confirmed, if confirmed then Abs(close - price) / atr5m else 0.0, price, confirmed && m3Breaks)
  }

  /** The source's SHORT half. */
  function BosBelow(close: real, swing: Option<SwingPoint>, atr5m: real, m3Breaks: bool): BosResult
    requires atr5m != 0.0
  {
    if swing.None? then NO_BOS
    else
      var price := swing.value.price;
      var confirmed := close < price;
      BosResult(confirmed, if confirmed then Abs(close - price) / atr5m else 0.0, price, confirmed && m3Breaks)
  }

  predicate M3Above(search: seq<Bar>)
    requires search != []
  {
    var swing := LastSwingHigh(search[..|search| - 1]);
    swing.Some? && search[|search| - 1].close > swing.value.price
  }

  predicate M3Below(search: seq<Bar>)
    requires search != []
  {
    var swing := LastSwingLow(search[..|search| - 1]);
    swing.Some? && search[|search| - 1].close < swing.value.price
  }

  function CheckM3Bos(m3: seq<Bar>, direction: Direction): bool {
    if |m3| < 8 then false
    else
      match direction
      case Long => M3Above(LastN(m3, 15))
      case Short => M3Below(LastN(m3, 15))
  }

  datatype Quality = HighQuality | MedQuality | LowQuality | NoQuality

  datatype ChochResult = ChochResult(confirmed: bool, quality: Quality, level: real) {
    function Mirror(): ChochResult {
      this.(level := -level)
    }
  }

  const NO_CHOCH := ChochResult(false, NoQuality, 0.0)

  /** Current volume above 1.2 times the mean of the 20 bars before it; false without 20 such bars. */
  predicate HighVolume(m3: seq<Bar>)
    requires |m3| >= 1
  {
    var avgVol := if |m3| >= 21 then SumVolume(m3[|m3| - 21..|m3| - 1]) / 20.0 else 0.0;
    avgVol > 0.0 && m3[|m3| - 1].volume > avgVol * 1.2
  }

  function Grade(closeBeyond: bool, m5Confirmed: bool, highVol: bool, level: real): ChochResult {
    var quality :=
      if closeBeyond && m5Confirmed && highVol then HighQuality
      else if closeBeyond then MedQuality
      else LowQuality;
    ChochResult(true, quality, level)
  }

  /** The source's LONG half.  Graded only once the wick is beyond the level, so its `close or wick beyond` is true. */
  function ChochAbove(current: Bar, swings: seq<SwingPoint>, m5: seq<Bar>, highVol: bool): ChochResult {
    if swings == [] || !(current.high > swings[0].price) then NO_CHOCH
    else
      var level := swings[0].price;
      Grade(current.close > level, M5Confirms(m5, level, Long), highVol, level)
  }

  /** The source's SHORT half. */
  function ChochBelow(current: Bar, swings: seq<SwingPoint>, m5: seq<Bar>, highVol: bool): ChochResult {
    if swings == [] || !(current.low < swings[0].price) then NO_CHOCH
    else
      var level := swings[0].price;
      Grade(current.close < level, M5Confirms(m5, level, Short), highVol, level)
  }

  function DetectChoch(m3: seq<Bar>, m5: seq<Bar>, direction: Direction): ChochResult {
    if |m3| < 10 then NO_CHOCH
    else
      var current, before := m3[|m3| - 1], m3[..|m3| - 1];
      match direction
      case Long => ChochAbove(current, SwingHighs(before, 2, 20), m5, HighVolume(m3))
      case Short => ChochBelow(current, SwingLows(before, 2, 20), m5, HighVolume(m3))
  }

  function M5Confirms(m5: seq<Bar>, level: real, direction: Direction): bool {
    if |m5| < 2 then false
    else match direction
         case Long => m5[|m5| - 1].close > level
         case Short => m5[|m5| - 1].close < level
  }

  // ----- Reflection --------------------------------------------------------

  function MirrorSwing(s: Option<SwingPoint>): Option<SwingPoint> {
    if s.None? then None else Some(MirrorPoint(s.value))
  }

  /** The latest swing low of the mirrored bars is the latest swing high, negated; and vice versa. */
  lemma {:induction false} MirrorLatestSwing(bars: seq<Bar>)
    ensures LastSwingLow(MirrorBars(bars)) == MirrorSwing(LastSwingHigh(bars))
    ensures LastSwingHigh(MirrorBars(bars)) == MirrorSwing(LastSwingLow(bars))
  {
    MirrorSwingHighs(bars, 2, 30);
    MirrorSwingLows(bars, 2, 30);
  }

  lemma MirrorLast(bars: seq<Bar>)
    requires bars != []
    ensures var n := |bars| - 1;
            && |MirrorBars(bars)| == |bars|
            && MirrorBars(bars)[..n] == MirrorBars(bars[..n])
            && MirrorBars(bars)[n] == bars[n].Mirror()
  {
    MirrorSlice(bars, 0, |bars| - 1);
  }

  lemma {:induction false} MirrorM3Bos(m3: seq<Bar>, direction: Direction)
    ensures CheckM3Bos(MirrorBars(m3), direction.Opposite()) == CheckM3Bos(m3, direction)
  {
    if |m3| >= 8 {
      var search := LastN(m3, 15);
      assert search != [];
      MirrorLastN(m3, 15);
      hide LastSwingHigh, LastSwingLow, LastN, MirrorBars;
      MirrorLast(search);
      MirrorLatestSwing(search[..|search| - 1]);
    }
  }

  lemma MirrorHalves(close: real, swing: Option<SwingPoint>, atr5m: real, m3Breaks: bool)
    requires atr5m != 0.0
    ensures BosBelow(-close, MirrorSwing(swing), atr5m, m3Breaks) == BosAbove(close, swing, atr5m, m3Breaks).Mirror()
    ensures BosAbove(-close, MirrorSwing(swing), atr5m, m3Breaks) == BosBelow(close, swing, atr5m, m3Breaks).Mirror()
  {
    if swing.Some? {
      assert Abs(-close - -swing.value.price) == Abs(close - swing.value.price);
    }
  }

  lemma {:induction false} MirrorBos(m5: seq<Bar>, m3: seq<Bar>, direction: Direction, atr5m: real)
    ensures DetectBos(MirrorBars(m5), MirrorBars(m3), direction.Opposite(), atr5m)
         == DetectBos(m5, m3, direction, atr5m).Mirror()
  {
    hide LastSwingHigh, LastSwingLow, CheckM3Bos, BosAbove, BosBelow, MirrorSwing, MirrorBars;
    if |m5| >= 10 && atr5m != 0.0 {
      var n := |m5| - 1;
      var before, m3Breaks := m5[..n], CheckM3Bos(m3, direction);
      MirrorLast(m5);
      MirrorLatestSwing(before);
      MirrorM3Bos(m3, direction);
      if direction == Long {
        MirrorHalves(m5[n].close, LastSwingHigh(before), atr5m, m3Breaks);
      } else {
        MirrorHalves(m5[n].close, LastSwingLow(before), atr5m, m3Breaks);
      }
    }
    MirrorLength(m5);
    MirrorNoBos();
  }

  lemma MirrorLength(bars: seq<Bar>)
    ensures |MirrorBars(bars)| == |bars|
  {
  }

  lemma MirrorNoBos()
    ensures NO_BOS.Mirror() == NO_BOS
  {
    assert -0.0 == 0.0;
  }

  lemma MirrorNoChoch()
    ensures NO_CHOCH.Mirror() == NO_CHOCH
  {
    assert -0.0 == 0.0;
  }

  lemma MirrorHighVolume(m3: seq<Bar>)
    requires |m3| >= 1
    ensures HighVolume(MirrorBars(m3)) == HighVolume(m3)
  {
    if |m3| >= 21 {
      MirrorSlice(m3, |m3| - 21, |m3| - 1);
      MirrorVolume(m3[|m3| - 21..|m3| - 1]);
    }
  }

  lemma MirrorM5Confirms(m5: seq<Bar>, level: real, direction: Direction)
    ensures M5Confirms(MirrorBars(m5), -level, direction.Opposite()) == M5Confirms(m5, level, direction)
  {
  }

  lemma MirrorChochHalves(current: Bar, swings: seq<SwingPoint>, m5: seq<Bar>, highVol: bool)
    ensures ChochBelow(current.Mirror(), MirrorPoints(swings), MirrorBars(m5), highVol)
         == ChochAbove(current, swings, m5, highVol).Mirror()
    ensures ChochAbove(current.Mirror(), MirrorPoints(swings), MirrorBars(m5), highVol)
         == ChochBelow(current, swings, m5, highVol).Mirror()
  {
    hide M5Confirms, MirrorBars;
    if swings != [] {
      MirrorM5Confirms(m5, swings[0].price, Long);
      MirrorM5Confirms(m5, swings[0].price, Short);
    }
  }

  lemma {:induction false} MirrorChoch(m3: seq<Bar>, m5: seq<Bar>, direction: Direction)
    ensures DetectChoch(MirrorBars(m3), MirrorBars(m5), direction.Opposite())
         == DetectChoch(m3, m5, direction).Mirror()
  {
    hide SwingHighs, SwingLows, HighVolume, ChochAbove, ChochBelow, MirrorBars, MirrorPoints;
    if |m3| >= 10 {
      var current, before := m3[|m3| - 1], m3[..|m3| - 1];
      MirrorLast(m3);
      MirrorHighVolume(m3);
      if direction == Long {
        MirrorSwingHighs(before, 2, 20);
        MirrorChochHalves(current, SwingHighs(before, 2, 20), m5, HighVolume(m3));
      } else {
        MirrorSwingLows(before, 2, 20);
        MirrorChochHalves(current, SwingLows(before, 2, 20), m5, HighVolume(m3));
      }
    }
    MirrorLength(m3);
    MirrorNoChoch();
  }

  // ----- What is broken -----------------------------------------------------

  function Swings(bars: seq<Bar>, direction: Direction, lookback: nat): seq<SwingPoint> {
    match direction
    case Long => SwingHighs(bars, 2, lookback)
    case Short => SwingLows(bars, 2, lookback)
  }

  /** The price that a swing at bar j puts in the way. */
  function Barrier(bars: seq<Bar>, direction: Direction, j: int): real
    requires 0 <= j < |bars|
  {
    match direction
    case Long => bars[j].high
    case Short => bars[j].low
  }

  ghost predicate IsSwing(bars: seq<Bar>, direction: Direction, lookback: nat, j: int) {
    Eligible(bars, 2, lookback, j)
    && match direction
       case Long => IsSwingHigh(bars, j, 2)
       case Short => IsSwingLow(bars, j, 2)
  }

  /** Bar j is a swing, two bars in from either end of the lookback slice, and no later bar is one. */
  ghost predicate IsNewestSwing(bars: seq<Bar>, direction: Direction, lookback: nat, j: int) {
    IsSwing(bars, direction, lookback, j) && forall k :: k > j ==> !IsSwing(bars, direction, lookback, k)
  }

  function Reported(bars: seq<Bar>, direction: Direction, j: int): SwingPoint
    requires 0 <= j < |bars|
  {
    match direction
    case Long => HighPoint(bars, j)
    case Short => LowPoint(bars, j)
  }

  lemma SwingsIff(bars: seq<Bar>, direction: Direction, lookback: nat)
    ensures forall p :: p in Swings(bars, direction, lookback) <==>
                    var j := |bars| + p.barIndex;
                    IsSwing(bars, direction, lookback, j) && p == Reported(bars, direction, j)
    ensures Spaced(Swings(bars, direction, lookback), 2)
  {
    SwingHighsExact(bars, 2, lookback);
    SwingLowsExact(bars, 2, lookback);
    hide SwingHighs, SwingLows, Eligible, IsSwingHigh, IsSwingLow, Spaced;
  }

  /** The first reported swing is the newest; nothing is reported exactly when there is none. */
  lemma {:induction false} FirstIsNewest(bars: seq<Bar>, direction: Direction, lookback: nat)
    ensures var swings := Swings(bars, direction, lookback);
            if swings == [] then forall j :: !IsSwing(bars, direction, lookback, j)
            else
              var j := |bars| + swings[0].barIndex;
              IsNewestSwing(bars, direction, lookback, j) && swings[0] == Reported(bars, direction, j)
  {
    var swings := Swings(bars, direction, lookback);
    forall k ensures IsSwing(bars, direction, lookback, k) ==> swings != [] && k <= |bars| + swings[0].barIndex {
      if IsSwing(bars, direction, lookback, k) {
        FirstIsLater(bars, direction, lookback, k);
      }
    }
    if swings != [] {
      SwingsIff(bars, direction, lookback);
      hide Swings, Eligible;
      assert swings[0] in swings;
    }
  }

  lemma FirstIsLater(bars: seq<Bar>, direction: Direction, lookback: nat, k: int)
    requires IsSwing(bars, direction, lookback, k)
    ensures var swings := Swings(bars, direction, lookback);
            swings != [] && k <= |bars| + swings[0].barIndex
  {
    var swings := Swings(bars, direction, lookback);
    SwingsIff(bars, direction, lookback);
    hide Swings;
    var p := Reported(bars, direction, k);
    assert p.barIndex == k - |bars|;
    hide IsSwing, Reported;
    assert p in swings;
    var a :| 0 <= a < |swings| && swings[a] == p;
  }

  predicate Breaks(price: real, level: real, direction: Direction) {
    match direction
    case Long => price > level
    case Short => price < level
  }

  /** The latest swing high or low that `detect_bos` looks for. */
  function LatestSwing(bars: seq<Bar>, direction: Direction): Option<SwingPoint> {
    match direction
    case Long => LastSwingHigh(bars)
    case Short => LastSwingLow(bars)
  }

  /** The newest swing among all bars but the last, if any, is bar j; the last bar's price lies beyond it. */
  ghost predicate PassesNewest(bars: seq<Bar>, direction: Direction, lookback: nat, price: real, j: int)
    requires bars != []
  {
    var n := |bars| - 1;
    0 <= j < n && IsNewestSwing(bars[..n], direction, lookback, j) && Breaks(price, Barrier(bars, direction, j), direction)
  }

  function LastClose(bars: seq<Bar>): real
    requires bars != []
  {
    bars[|bars| - 1].close
  }

  /** The end of the last bar's wick on the side of the break. */
  function LastWick(bars: seq<Bar>, direction: Direction): real
    requires bars != []
  {
    match direction
    case Long => bars[|bars| - 1].high
    case Short => bars[|bars| - 1].low
  }

  ghost predicate NoSwingBefore(bars: seq<Bar>, direction: Direction, lookback: nat)
    requires bars != []
  {
    var before := bars[..|bars| - 1];
    forall j :: !IsSwing(before, direction, lookback, j)
  }

  /** The level is the price of the newest swing among all bars but the last. */
  ghost predicate LevelIsNewest(bars: seq<Bar>, direction: Direction, lookback: nat, level: real)
    requires bars != []
  {
    var n := |bars| - 1;
    var before := bars[..n];
    exists j :: 0 <= j < n && IsNewestSwing(before, direction, lookback, j) && level == Barrier(bars, direction, j)
  }

  /** The first reported swing is the newest; nothing is reported exactly when there is none. */
  lemma {:induction false} NewestIsFirst(bars: seq<Bar>, direction: Direction, lookback: nat)
    requires bars != []
    ensures var swings := Swings(bars[..|bars| - 1], direction, lookback);
            if swings == [] then NoSwingBefore(bars, direction, lookback)
            else LevelIsNewest(bars, direction, lookback, swings[0].price)
  {
    var n := |bars| - 1;
    var before := bars[..n];
    FirstIsNewest(before, direction, lookback);
    var swings := Swings(before, direction, lookback);
    if swings != [] {
      var j := n + swings[0].barIndex;
      SwingInRange(before, direction, lookback, j);
      hide Swings, IsSwing;
      assert swings[0].price == Barrier(bars, direction, j);
    }
  }

  /** So whether a price lies beyond the newest swing is whether it lies beyond the first reported one. */
  lemma {:induction false} PassesIff(bars: seq<Bar>, direction: Direction, lookback: nat, price: real)
    requires bars != []
    ensures var swings := Swings(bars[..|bars| - 1], direction, lookback);
            (swings != [] && Breaks(price, swings[0].price, direction))
              <==> exists j :: PassesNewest(bars, direction, lookback, price, j)
  {
    NewestIsFirst(bars, direction, lookback);
    var n := |bars| - 1;
    var before := bars[..n];
    var swings := Swings(before, direction, lookback);
    hide Swings, IsSwing, Barrier, Breaks;
    if swings != [] {
      var j :| 0 <= j < n && IsNewestSwing(before, direction, lookback, j) && swings[0].price == Barrier(bars, direction, j);
      assert PassesNewest(bars, direction, lookback, price, j) <==> Breaks(price, swings[0].price, direction);
      assert forall k :: IsNewestSwing(before, direction, lookback, k) ==> k == j;
    }
  }

  lemma SwinglessOrNot(bars: seq<Bar>, direction: Direction, lookback: nat)
    requires bars != [] && NoSwingBefore(bars, direction, lookback)
    ensures forall level :: !LevelIsNewest(bars, direction, lookback, level)
  {
  }

  lemma SwingInRange(bars: seq<Bar>, direction: Direction, lookback: nat, j: int)
    requires IsSwing(bars, direction, lookback, j)
    ensures 0 <= j < |bars|
  {
    hide IsSwingHigh, IsSwingLow;
  }

  lemma LatestIsFirst(bars: seq<Bar>, direction: Direction)
    ensures var swings := Swings(bars, direction, 30);
            LatestSwing(bars, direction) == if swings == [] then None else Some(swings[0])
  {
  }

  /** The M3 check asks the same of the last 15 M3 bars. */
  lemma {:induction false} M3BosExact(m3: seq<Bar>, direction: Direction)
    ensures CheckM3Bos(m3, direction) <==> |m3| >= 8 && exists j :: PassesNewest(LastN(m3, 15), direction, 30, LastClose(LastN(m3, 15)), j)
  {
    if |m3| >= 8 {
      var search := LastN(m3, 15);
      assert search != [];
      LatestIsFirst(search[..|search| - 1], direction);
      PassesIff(search, direction, 30, LastClose(search));
      hide PassesNewest, LastSwingHigh, LastSwingLow, Swings;
    }
  }

  /** A break is confirmed exactly when the current bar closes beyond the newest swing before it. */
  lemma {:induction false} BosExact(m5: seq<Bar>, m3: seq<Bar>, direction: Direction, atr5m: real)
    ensures var r := DetectBos(m5, m3, direction, atr5m);
            r.confirmed <==> |m5| >= 10 && atr5m != 0.0 && exists j :: PassesNewest(m5, direction, 30, LastClose(m5), j)
  {
    if |m5| >= 10 && atr5m != 0.0 {
      LatestIsFirst(m5[..|m5| - 1], direction);
      PassesIff(m5, direction, 30, LastClose(m5));
      hide PassesNewest, CheckM3Bos, LastSwingHigh, LastSwingLow, Swings;
    }
  }

  /** The report: whether confirmed or not it carries the price of the newest swing, and the empty report means
      there is none, or too few bars, or no ATR; only a confirmed one has a momentum, the distance past that
      price in ATRs, and agrees with the M3 bars if they break too. */
  lemma {:induction false} BosReport(m5: seq<Bar>, m3: seq<Bar>, direction: Direction, atr5m: real)
    ensures var r := DetectBos(m5, m3, direction, atr5m);
            if |m5| < 10 || atr5m == 0.0 || NoSwingBefore(m5, direction, 30) then r == NO_BOS
            else
              && LevelIsNewest(m5, direction, 30, r.swingLevel)
              && r.momentum == (if r.confirmed then Abs(m5[|m5| - 1].close - r.swingLevel) / atr5m else 0.0)
              && (r.mtfAligned <==>
                    r.confirmed && |m3| >= 8 && exists j :: PassesNewest(LastN(m3, 15), direction, 30, LastClose(LastN(m3, 15)), j))
  {
    hide PassesNewest, CheckM3Bos, LastSwingHigh, LastSwingLow, Swings, LastN, NoSwingBefore, LevelIsNewest;
    if |m5| >= 10 && atr5m != 0.0 {
      LatestIsFirst(m5[..|m5| - 1], direction);
      NewestIsFirst(m5, direction, 30);
      if NoSwingBefore(m5, direction, 30) {
        SwinglessOrNot(m5, direction, 30);
      }
      M3BosExact(m3, direction);
    }
  }

  /** A change of character is confirmed exactly when the current wick passes the newest swing of the 20 bars
      before it. */
  lemma {:induction false} ChochExact(m3: seq<Bar>, m5: seq<Bar>, direction: Direction)
    ensures DetectChoch(m3, m5, direction).confirmed <==>
              |m3| >= 10 && exists j :: PassesNewest(m3, direction, 20, LastWick(m3, direction), j)
  {
    if |m3| >= 10 {
      PassesIff(m3, direction, 20, LastWick(m3, direction));
      SwingsOfChoch(m3, direction);
      hide Swings, SwingHighs, SwingLows, HighVolume, M5Confirms, PassesNewest;
    }
  }

  lemma SwingsOfChoch(m3: seq<Bar>, direction: Direction)
    requires m3 != []
    ensures var before := m3[..|m3| - 1];
            Swings(before, direction, 20)
            == match direction case Long => SwingHighs(before, 2, 20) case Short => SwingLows(before, 2, 20)
  {
  }

  /** The last bar traded more than 1.2 times the mean of the 20 bars before it. */
  ghost predicate IsLoud(bars: seq<Bar>) {
    |bars| >= 21
    && var n := |bars| - 1;
       var traded := SumVolume(bars[n - 20..n]);
       traded > 0.0 && 20.0 * bars[n].volume > 1.2 * traded
  }

  lemma LoudIff(m3: seq<Bar>)
    requires m3 != []
    ensures HighVolume(m3) <==> IsLoud(m3)
  {
    hide SumVolume;
  }

  /** The report: a confirmed one carries the price of that swing; its quality is high exactly when the close
      passes too, the last M5 close agrees and volume is high, medium when only the close passes, low when it
      does not.  An unconfirmed report is empty. */
  lemma {:induction false} ChochReport(m3: seq<Bar>, m5: seq<Bar>, direction: Direction)
    ensures var r := DetectChoch(m3, m5, direction);
            if !r.confirmed then r == NO_CHOCH
            else
              var close := m3[|m3| - 1].close;
              && LevelIsNewest(m3, direction, 20, r.level)
              && (r.quality == HighQuality <==>
                    && Breaks(close, r.level, direction) && IsLoud(m3)
                    && |m5| >= 2 && Breaks(m5[|m5| - 1].close, r.level, direction))
              && (r.quality == LowQuality <==> !Breaks(close, r.level, direction))
              && r.quality != NoQuality
  {
    if |m3| >= 10 {
      NewestIsFirst(m3, direction, 20);
      SwingsOfChoch(m3, direction);
      LoudIff(m3);
      hide IsLoud, Swings, SwingHighs, SwingLows, LevelIsNewest, NoSwingBefore, HighVolume;
    }
  }
}
