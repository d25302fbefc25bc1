/** Fractal swing highs and lows (scoring/hmp/swing.py). */
module Swing {
  import opened Market

  datatype SwingKind = High | Low

  /** barIndex is Python's negative index: bars[|bars| + barIndex] is the bar reported. */
  datatype SwingPoint = SwingPoint(price: real, timestampMs: int, kind: SwingKind, barIndex: int)

  /** Bar i stands strictly above its `window` neighbours on both sides. */
  predicate IsSwingHigh(bars: seq<Bar>, i: int, window: nat)
    requires window <= i < |bars| - window
  {
    forall k :: i - window <= k <= i + window && k != i ==> bars[k].high < bars[i].high
  }

  predicate IsSwingLow(bars: seq<Bar>, i: int, window: nat)
    requires window <= i < |bars| - window
  {
    forall k :: i - window <= k <= i + window && k != i ==> bars[k].low > bars[i].low
  }

  /** `all(b.high < level for b in side)` of the source. */
  predicate HighsBelow(side: seq<Bar>, level: real) {
    forall k :: 0 <= k < |side| ==> side[k].high < level
  }

  predicate LowsAbove(side: seq<Bar>, level: real) {
    forall k :: 0 <= k < |side| ==> side[k].low > level
  }

  function HighPoint(bars: seq<Bar>, i: int): SwingPoint
    requires 0 <= i < |bars|
  {
    SwingPoint(bars[i].high, bars[i].timestampMs, High, i - |bars|)
  }

  function LowPoint(bars: seq<Bar>, i: int): SwingPoint
    requires 0 <= i < |bars|
  {
    SwingPoint(bars[i].low, bars[i].timestampMs, Low, i - |bars|)
  }

  /** Swing highs among positions window..end, newest first. */
  function ScanHighs(bars: seq<Bar>, window: nat, end: int): seq<SwingPoint>
    requires end <= window || end <= |bars| - window
    decreases end
  {
    if end <= window then []
    else if IsSwingHigh(bars, end - 1, window) then [HighPoint(bars, end - 1)] + ScanHighs(bars, window, end - 1)
    else ScanHighs(bars, window, end - 1)
  }

  function ScanLows(bars: seq<Bar>, window: nat, end: int): seq<SwingPoint>
    requires end <= window || end <= |bars| - window
    decreases end
  {
    if end <= window then []
    else if IsSwingLow(bars, end - 1, window) then [LowPoint(bars, end - 1)] + ScanLows(bars, window, end - 1)
    else ScanLows(bars, window, end - 1)
  }

  function HighsIn(search: seq<Bar>, window: nat): seq<SwingPoint> {
    ScanHighs(search, window, |search| - window)
  }

  function SwingHighs(bars: seq<Bar>, window: nat, lookback: nat): seq<SwingPoint> {
    if |bars| < window * 2 + 1 then [] else HighsIn(LastN(bars, lookback), window)
  }

  function LowsIn(search: seq<Bar>, window: nat): seq<SwingPoint> {
    ScanLows(search, window, |search| - window)
  }

  function SwingLows(bars: seq<Bar>, window: nat, lookback: nat): seq<SwingPoint> {
    if |bars| < window * 2 + 1 then [] else LowsIn(LastN(bars, lookback), window)
  }

  function LastSwingHigh(bars: seq<Bar>): Option<SwingPoint> {
    var highs := SwingHighs(bars, 2, 30);
    if highs == [] then None else Some(highs[0])
  }

  function LastSwingLow(bars: seq<Bar>): Option<SwingPoint> {
    var lows := SwingLows(bars, 2, 30);
    if lows == [] then None else Some(lows[0])
  }

  /** The source's loop: oldest to newest, appending, then one reversal. */
  method DetectSwingHighs(bars: seq<Bar>, window: nat, lookback: nat) returns (points: seq<SwingPoint>)
    ensures points == SwingHighs(bars, window, lookback)
  {
    if |bars| < window * 2 + 1 {
      return [];
    }
    var search := LastN(bars, lookback);
    var highs := [];
    var i := window;
    hide ScanHighs, IsSwingHigh, HighsBelow, Reversed;
    ScanHighsStart(search, window);
    while i < |search| - window
      invariant window <= i
      invariant i <= |search| - window || highs == []
      invariant i <= |search| - window || i == window
      invariant i <= |search| - window ==> Reversed(highs) == ScanHighs(search, window, i)
    {
      var candidate := search[i];
      var left := search[i - window..i];
      var right := search[i + 1..i + window + 1];
      HighFromSides(search, i, window);
      ScanHighsStep(search, window, i, highs);
      if HighsBelow(left, candidate.high) && HighsBelow(right, candidate.high) {
        var point := SwingPoint(candidate.high, candidate.timestampMs, High, -(|search| - i));
        highs := highs + [point];
      }
      i := i + 1;
    }
    points := Reversed(highs);
  }

  lemma ScanHighsStart(search: seq<Bar>, window: nat)
    ensures Reversed<SwingPoint>([]) == []
    ensures window <= |search| - window ==> ScanHighs(search, window, window) == []
    ensures |search| < 2 * window ==> ScanHighs(search, window, |search| - window) == []
  {
  }

  lemma ScanHighsStep(search: seq<Bar>, window: nat, i: int, highs: seq<SwingPoint>)
    requires window <= i < |search| - window
    requires Reversed(highs) == ScanHighs(search, window, i)
    ensures Reversed(if IsSwingHigh(search, i, window) then highs + [HighPoint(search, i)] else highs)
         == ScanHighs(search, window, i + 1)
  {
    hide IsSwingHigh, HighPoint;
    assert (highs + [HighPoint(search, i)])[..|highs|] == highs;
  }

  lemma HighFromSides(bars: seq<Bar>, i: int, window: nat)
    requires window <= i < |bars| - window
    ensures IsSwingHigh(bars, i, window) <==>
            && HighsBelow(bars[i - window..i], bars[i].high)
            && HighsBelow(bars[i + 1..i + window + 1], bars[i].high)
  {
    var left, right := bars[i - window..i], bars[i + 1..i + window + 1];
    if HighsBelow(left, bars[i].high) && HighsBelow(right, bars[i].high) {
      forall k | i - window <= k <= i + window && k != i
        ensures bars[k].high < bars[i].high
      {
        if k < i {
          assert left[k - (i - window)] == bars[k];
        } else {
          assert right[k - i - 1] == bars[k];
        }
      }
    }
  }

  method DetectSwingLows(bars: seq<Bar>, window: nat, lookback: nat) returns (points: seq<SwingPoint>)
    ensures points == SwingLows(bars, window, lookback)
  {
    if |bars| < window * 2 + 1 {
      return [];
    }
    var search := LastN(bars, lookback);
    var lows := [];
    var i := window;
    hide ScanLows, IsSwingLow, LowsAbove, Reversed;
    ScanLowsStart(search, window);
    while i < |search| - window
      invariant window <= i
      invariant i <= |search| - window || lows == []
      invariant i <= |search| - window || i == window
      invariant i <= |search| - window ==> Reversed(lows) == ScanLows(search, window, i)
    {
      var candidate := search[i];
      var left := search[i - window..i];
      var right := search[i + 1..i + window + 1];
      LowFromSides(search, i, window);
      ScanLowsStep(search, window, i, lows);
      if LowsAbove(left, candidate.low) && LowsAbove(right, candidate.low) {
        var point := SwingPoint(candidate.low, candidate.timestampMs, Low, -(|search| - i));
        lows := lows + [point];
      }
      i := i + 1;
    }
    points := Reversed(lows);
  }

  lemma ScanLowsStart(search: seq<Bar>, window: nat)
    ensures Reversed<SwingPoint>([]) == []
    ensures window <= |search| - window ==> ScanLows(search, window, window) == []
    ensures |search| < 2 * window ==> ScanLows(search, window, |search| - window) == []
  {
  }

  lemma ScanLowsStep(search: seq<Bar>, window: nat, i: int, lows: seq<SwingPoint>)
    requires window <= i < |search| - window
    requires Reversed(lows) == ScanLows(search, window, i)
    ensures Reversed(if IsSwingLow(search, i, window) then lows + [LowPoint(search, i)] else lows)
         == ScanLows(search, window, i + 1)
  {
    hide IsSwingLow, LowPoint;
    assert (lows + [LowPoint(search, i)])[..|lows|] == lows;
  }

  lemma LowFromSides(bars: seq<Bar>, i: int, window: nat)
    requires window <= i < |bars| - window
    ensures IsSwingLow(bars, i, window) <==>
            && LowsAbove(bars[i - window..i], bars[i].low)
            && LowsAbove(bars[i + 1..i + window + 1], bars[i].low)
  {
    var left, right := bars[i - window..i], bars[i + 1..i + window + 1];
    if LowsAbove(left, bars[i].low) && LowsAbove(right, bars[i].low) {
      forall k | i - window <= k <= i + window && k != i
        ensures bars[k].low > bars[i].low
      {
        if k < i {
          assert left[k - (i - window)] == bars[k];
        } else {
          assert right[k - i - 1] == bars[k];
        }
      }
    }
  }

  // ----- Exactness ---------------------------------------------------------

  /** Position j of the full list has all its neighbours inside the lookback slice. */
  ghost predicate Eligible(bars: seq<Bar>, window: nat, lookback: nat, j: int) {
    |bars| - |LastN(bars, lookback)| + window <= j < |bars| - window
  }

  /** The point reports an eligible swing high, and its negative index resolves to that very bar. */
  ghost predicate ReportsHigh(bars: seq<Bar>, window: nat, lookback: nat, p: SwingPoint) {
    var j := |bars| + p.barIndex;
    Eligible(bars, window, lookback, j) && IsSwingHigh(bars, j, window)
    && p == SwingPoint(bars[j].high, bars[j].timestampMs, High, j - |bars|)
  }

  ghost predicate ReportsLow(bars: seq<Bar>, window: nat, lookback: nat, p: SwingPoint) {
    var j := |bars| + p.barIndex;
    Eligible(bars, window, lookback, j) && IsSwingLow(bars, j, window)
    && p == SwingPoint(bars[j].low, bars[j].timestampMs, Low, j - |bars|)
  }

  /** Newest first, and any two points lie more than `window` bars apart. */
  ghost predicate Spaced(points: seq<SwingPoint>, window: nat) {
    forall a, b :: 0 <= a < b < |points| ==> points[a].barIndex > points[b].barIndex + window
  }

  lemma {:induction false} ScanHighsIff(bars: seq<Bar>, window: nat, end: int, p: SwingPoint)
    requires end <= window || end <= |bars| - window
    ensures p in ScanHighs(bars, window, end) <==>
            var j := |bars| + p.barIndex;
            window <= j < end && IsSwingHigh(bars, j, window) && p == HighPoint(bars, j)
    decreases end
  {
    if end > window {
      ScanHighsIff(bars, window, end - 1, p);
    }
  }

  lemma {:induction false} ScanHighsSpaced(bars: seq<Bar>, window: nat, end: int)
    requires end <= window || end <= |bars| - window
    ensures Spaced(ScanHighs(bars, window, end), window)
    decreases end
  {
    if end > window {
      ScanHighsSpaced(bars, window, end - 1);
      if IsSwingHigh(bars, end - 1, window) {
        var rest := ScanHighs(bars, window, end - 1);
        forall b | 0 <= b < |rest|
          ensures end - 1 - |bars| > rest[b].barIndex + window
        {
          ScanHighsIff(bars, window, end - 1, rest[b]);
          var j := |bars| + rest[b].barIndex;
          if end - 1 - window <= j {
            assert false;
          }
        }
      }
    }
  }

  /** A suffix sees the same swing high, and gives it the same negative index. */
  lemma SuffixHigh(bars: seq<Bar>, start: int, i: int, window: nat)
    requires 0 <= start <= |bars|
    requires window <= i < |bars| - start - window
    ensures IsSwingHigh(bars[start..], i, window) <==> IsSwingHigh(bars, start + i, window)
    ensures HighPoint(bars[start..], i) == HighPoint(bars, start + i)
  {
    var search := bars[start..];
    if IsSwingHigh(search, i, window) {
      forall k | start + i - window <= k <= start + i + window && k != start + i
        ensures bars[k].high < bars[start + i].high
      {
        assert search[k - start] == bars[k];
      }
    }
  }

  /** A point is reported if and only if it describes an eligible swing high. */
  lemma HighPointIs(bars: seq<Bar>, j: int)
    requires 0 <= j < |bars|
    ensures HighPoint(bars, j) == SwingPoint(bars[j].high, bars[j].timestampMs, High, j - |bars|)
  {
  }

  lemma SwingHighsIff(bars: seq<Bar>, window: nat, lookback: nat, p: SwingPoint)
    ensures p in SwingHighs(bars, window, lookback) <==> ReportsHigh(bars, window, lookback, p)
  {
    var start := |bars| - |LastN(bars, lookback)|;
    assert 0 <= start && LastN(bars, lookback) == bars[start..];
    hide LastN, HighsIn, IsSwingHigh, HighPoint;
    var j := |bars| + p.barIndex;
    if Eligible(bars, window, lookback, j) {
      HighPointIs(bars, j);
    }
    if |bars| >= window * 2 + 1 {
      SuffixHighsIff(bars, start, window, p);
    }
  }

  lemma SuffixHighsIff(bars: seq<Bar>, start: int, window: nat, p: SwingPoint)
    requires 0 <= start <= |bars|
    ensures p in HighsIn(bars[start..], window) <==>
            var j := |bars| + p.barIndex;
            start + window <= j < |bars| - window && IsSwingHigh(bars, j, window) && p == HighPoint(bars, j)
  {
    var search := bars[start..];
    var j := |bars| + p.barIndex;
    ScanHighsIff(search, window, |search| - window, p);
    hide IsSwingHigh, HighPoint, ScanHighs;
    if start + window <= j < |bars| - window {
      SuffixHigh(bars, start, j - start, window);
    }
  }

  lemma {:induction false} SwingHighsExact(bars: seq<Bar>, window: nat, lookback: nat)
    ensures forall p :: p in SwingHighs(bars, window, lookback) <==> ReportsHigh(bars, window, lookback, p)
    ensures Spaced(SwingHighs(bars, window, lookback), window)
  {
    forall p: SwingPoint
      ensures p in SwingHighs(bars, window, lookback) <==> ReportsHigh(bars, window, lookback, p)
    {
      SwingHighsIff(bars, window, lookback, p);
    }
    var search := LastN(bars, lookback);
    if |bars| >= window * 2 + 1 {
      ScanHighsSpaced(search, window, |search| - window);
    }
  }

  // ----- Reflection --------------------------------------------------------

  function MirrorPoint(p: SwingPoint): SwingPoint {
    SwingPoint(-p.price, p.timestampMs, if p.kind == High then Low else High, p.barIndex)
  }

  function MirrorPoints(points: seq<SwingPoint>): (r: seq<SwingPoint>)
    ensures |r| == |points|
    ensures forall i :: 0 <= i < |points| ==> r[i] == MirrorPoint(points[i])
  {
    seq(|points|, i requires 0 <= i < |points| => MirrorPoint(points[i]))
  }

  lemma MirrorIsSwing(bars: seq<Bar>, i: int, window: nat)
    requires window <= i < |bars| - window
    ensures IsSwingLow(MirrorBars(bars), i, window) <==> IsSwingHigh(bars, i, window)
    ensures IsSwingHigh(MirrorBars(bars), i, window) <==> IsSwingLow(bars, i, window)
  {
    var m := MirrorBars(bars);
    assert forall k :: 0 <= k < |bars| ==> m[k] == bars[k].Mirror();
    if IsSwingLow(m, i, window) {
      forall k | i - window <= k <= i + window && k != i ensures bars[k].high < bars[i].high {
        assert m[k].low > m[i].low;
      }
    }
    if IsSwingHigh(m, i, window) {
      forall k | i - window <= k <= i + window && k != i ensures bars[k].low > bars[i].low {
        assert m[k].high < m[i].high;
      }
    }
  }

  lemma {:induction false} MirrorScan(bars: seq<Bar>, window: nat, end: int)
    requires end <= window || end <= |bars| - window
    ensures ScanLows(MirrorBars(bars), window, end) == MirrorPoints(ScanHighs(bars, window, end))
    decreases end
  {
    hide IsSwingHigh, IsSwingLow, HighPoint, LowPoint, MirrorPoint, MirrorBars;
    if end > window {
      MirrorScan(bars, window, end - 1);
      MirrorIsSwing(bars, end - 1, window);
      MirrorPointAt(bars, end - 1, HighPoint(bars, end - 1));
    }
  }

  lemma {:induction false} MirrorSwingHighs(bars: seq<Bar>, window: nat, lookback: nat)
    ensures SwingLows(MirrorBars(bars), window, lookback) == MirrorPoints(SwingHighs(bars, window, lookback))
  {
    MirrorLastN(bars, lookback);
    MirrorHighsIn(LastN(bars, lookback), window);
  }

  lemma MirrorHighsIn(search: seq<Bar>, window: nat)
    ensures LowsIn(MirrorBars(search), window) == MirrorPoints(HighsIn(search, window))
  {
    MirrorScan(search, window, |search| - window);
  }

  lemma {:induction false} MirrorSwingLows(bars: seq<Bar>, window: nat, lookback: nat)
    ensures SwingHighs(MirrorBars(bars), window, lookback) == MirrorPoints(SwingLows(bars, window, lookback))
  {
    MirrorSwingHighs(MirrorBars(bars), window, lookback);
    MirrorTwice(bars);
    var highs := SwingHighs(MirrorBars(bars), window, lookback);
    MirrorPointsTwice(highs);
  }

  lemma MirrorPointsTwice(points: seq<SwingPoint>)
    ensures MirrorPoints(MirrorPoints(points)) == points
  {
    forall i | 0 <= i < |points|
      ensures MirrorPoints(MirrorPoints(points))[i] == points[i]
    {
      assert MirrorPoint(MirrorPoint(points[i])) == points[i];
    }
  }

  lemma {:induction false} MirrorReports(bars: seq<Bar>, window: nat, lookback: nat, p: SwingPoint)
    ensures ReportsHigh(MirrorBars(bars), window, lookback, MirrorPoint(p)) <==> ReportsLow(bars, window, lookback, p)
  {
    hide IsSwingHigh, IsSwingLow, HighPoint, LowPoint, LastN;
    var j := |bars| + p.barIndex;
    MirrorEligible(bars, window, lookback, j);
    if Eligible(bars, window, lookback, j) {
      MirrorIsSwing(bars, j, window);
      MirrorPointAt(bars, j, p);
    }
  }

  lemma MirrorEligible(bars: seq<Bar>, window: nat, lookback: nat, j: int)
    ensures Eligible(MirrorBars(bars), window, lookback, j) <==> Eligible(bars, window, lookback, j)
    ensures Eligible(bars, window, lookback, j) ==> window <= j < |bars| - window
  {
    MirrorLastN(bars, lookback);
  }

  lemma MirrorPointAt(bars: seq<Bar>, j: int, p: SwingPoint)
    requires 0 <= j < |bars|
    ensures MirrorPoint(p) == HighPoint(MirrorBars(bars), j) <==> p == LowPoint(bars, j)
    ensures LowPoint(MirrorBars(bars), j) == MirrorPoint(HighPoint(bars, j))
  {
  }

  lemma MirrorPointsIn(points: seq<SwingPoint>, p: SwingPoint)
    ensures MirrorPoint(p) in MirrorPoints(points) <==> p in points
  {
    if p in points {
      var i :| 0 <= i < |points| && points[i] == p;
      assert MirrorPoints(points)[i] == MirrorPoint(p);
    }
    if MirrorPoint(p) in MirrorPoints(points) {
      var i :| 0 <= i < |points| && MirrorPoints(points)[i] == MirrorPoint(p);
      assert MirrorPoint(MirrorPoint(points[i])) == MirrorPoint(MirrorPoint(p));
    }
  }

  /** The low detector is exact because its mirror image, the high detector, is. */
  lemma {:induction false} SwingLowsExact(bars: seq<Bar>, window: nat, lookback: nat)
    ensures forall p :: p in SwingLows(bars, window, lookback) <==> ReportsLow(bars, window, lookback, p)
    ensures Spaced(SwingLows(bars, window, lookback), window)
  {
    MirrorSwingLows(bars, window, lookback);
    SwingHighsExact(MirrorBars(bars), window, lookback);
    forall p: SwingPoint
      ensures p in SwingLows(bars, window, lookback) <==> ReportsLow(bars, window, lookback, p)
    {
      SwingHighsIff(MirrorBars(bars), window, lookback, MirrorPoint(p));
      MirrorPointsIn(SwingLows(bars, window, lookback), p);
      MirrorReports(bars, window, lookback, p);
    }
    var lows := SwingLows(bars, window, lookback);
    assert forall i :: 0 <= i < |lows| ==> MirrorPoints(lows)[i].barIndex == lows[i].barIndex;
  }
}
