/** Fair value gaps (scoring/hmp/fvg.py). */
module FairValueGap {
  import opened Market

  datatype GapKind = Bullish | Bearish | NoGap {
    function Mirror(): GapKind {
      match this
      case Bullish => Bearish
      case Bearish => Bullish
      case NoGap => NoGap
    }
  }

  datatype FvgResult = FvgResult(
    found: bool, top: real, bottom: real, gapSize: real, unfilled: bool, distance: real, kind: GapKind)
  {
    predicate IsCandidate() {
      found && unfilled
    }

    function Mirror(): FvgResult {
      FvgResult(found, -bottom, -top, gapSize, unfilled, distance, kind.Mirror())
    }
  }

  const NO_FVG := FvgResult(false, 0.0, 0.0, 0.0, false, 999.0, NoGap)

  function CheckFvg(c0: Bar, c2: Bar, price: real, atr5m: real, direction: Direction): FvgResult {
    match direction
    case Long =>
      if c2.low > c0.high then
        var distance := if atr5m > 0.0 then Abs(price - c0.high) / atr5m else 999.0;
        FvgResult(true, c2.low, c0.high, c2.low - c0.high, price > c0.high, distance, Bullish)
      else NO_FVG
    case Short =>
      if c2.high < c0.low then
        var distance := if atr5m > 0.0 then Abs(price - c0.low) / atr5m else 999.0;
        FvgResult(true, c0.low, c2.high, c0.low - c2.high, price < c0.low, distance, Bearish)
      else NO_FVG
  }

  function GapAt(search: seq<Bar>, i: int, price: real, atr5m: real, direction: Direction): FvgResult
    requires 0 <= i < |search| - 2
  {
    CheckFvg(search[i], search[i + 2], price, atr5m, direction)
  }

  /** The unfilled gaps starting at positions below n, oldest first. */
  function Candidates(search: seq<Bar>, price: real, atr5m: real, direction: Direction, n: nat): seq<FvgResult>
    requires n <= |search| - 2 || n == 0
  {
    if n == 0 then []
    else
      var rest := Candidates(search, price, atr5m, direction, n - 1);
      var fvg := GapAt(search, n - 1, price, atr5m, direction);
      if fvg.IsCandidate() then rest + [fvg] else rest
  }

  /** Python's `min(..., key=distance)`: the first of the smallest. */
  function FirstMin(candidates: seq<FvgResult>): FvgResult
    requires candidates != []
  {
    var last := candidates[|candidates| - 1];
    if |candidates| == 1 then last
    else
      var best := FirstMin(candidates[..|candidates| - 1]);
      if last.distance < best.distance then last else best
  }

  function SearchWindow(m3: seq<Bar>): seq<Bar> {
    LastN(m3, 20)
  }

  function NearestFvg(m3: seq<Bar>, price: real, atr5m: real, direction: Direction): FvgResult {
    if |m3| < 3 || atr5m == 0.0 then NO_FVG
    else
      var search := SearchWindow(m3);
      var candidates := Candidates(search, price, atr5m, direction, |search| - 2);
      if candidates == [] then NO_FVG else FirstMin(candidates)
  }

  method FindNearestFvg(m3: seq<Bar>, price: real, atr5m: real, direction: Direction) returns (r: FvgResult)
    ensures r == NearestFvg(m3, price, atr5m, direction)
  {
    if |m3| < 3 || atr5m == 0.0 {
      return NO_FVG;
    }
    var search := if |m3| > 20 then m3[|m3| - 20..] else m3;
    var candidates := [];
    for i := 0 to |search| - 2
      invariant candidates == Candidates(search, price, atr5m, direction, i)
    {
      var fvg := CheckFvg(search[i], search[i + 2], price, atr5m, direction);
      if fvg.found && fvg.unfilled {
        candidates := candidates + [fvg];
      }
    }
    if candidates == [] {
      return NO_FVG;
    }
    return FirstMin(candidates);
  }

  // ----- The reported gap is the nearest one, the oldest among equals ------

  ghost predicate IsNearest(
    search: seq<Bar>, price: real, atr5m: real, direction: Direction, n: nat, i: int, r: FvgResult)
    requires n <= |search| - 2 || n == 0
  {
    && 0 <= i < n
    && r == GapAt(search, i, price, atr5m, direction)
    && r.IsCandidate()
    && (forall j :: 0 <= j < n && GapAt(search, j, price, atr5m, direction).IsCandidate() ==>
          && r.distance <= GapAt(search, j, price, atr5m, direction).distance
          && (j < i ==> r.distance < GapAt(search, j, price, atr5m, direction).distance))
  }

  lemma {:induction false} FirstMinIsNearest(
    search: seq<Bar>, price: real, atr5m: real, direction: Direction, n: nat) returns (i: int)
    requires n <= |search| - 2 || n == 0
    ensures var cs := Candidates(search, price, atr5m, direction, n);
            if cs == [] then forall j :: 0 <= j < n ==> !GapAt(search, j, price, atr5m, direction).IsCandidate()
            else IsNearest(search, price, atr5m, direction, n, i, FirstMin(cs))
  {
    hide GapAt, FirstMin;
    i := 0;
    if n > 0 {
      i := FirstMinIsNearest(search, price, atr5m, direction, n - 1);
      var rest := Candidates(search, price, atr5m, direction, n - 1);
      var fvg := GapAt(search, n - 1, price, atr5m, direction);
      if fvg.IsCandidate() {
        FirstMinSnoc(rest, fvg);
        if rest == [] || fvg.distance < FirstMin(rest).distance {
          i := n - 1;
        }
      }
    }
  }

  lemma FirstMinSnoc(rest: seq<FvgResult>, fvg: FvgResult)
    ensures FirstMin(rest + [fvg]) == if rest == [] || fvg.distance < FirstMin(rest).distance then fvg else FirstMin(rest)
  {
    assert (rest + [fvg])[..|rest|] == rest;
  }

  /** The gap returned is the nearest unfilled one; none is returned exactly when there is none, or fewer than
      3 bars, or no ATR. */
  lemma NearestFvgIsNearest(m3: seq<Bar>, price: real, atr5m: real, direction: Direction)
    ensures var r := NearestFvg(m3, price, atr5m, direction);
            var search := SearchWindow(m3);
            var n := |search| - 2;
            if r.found then |m3| >= 3 && atr5m != 0.0 && exists i :: IsNearest(search, price, atr5m, direction, n, i, r)
            else
              && r == NO_FVG
              && (|m3| < 3 || atr5m == 0.0
                  || forall j :: 0 <= j < n ==> !GapAt(search, j, price, atr5m, direction).IsCandidate())
  {
    if |m3| >= 3 && atr5m != 0.0 {
      var search := SearchWindow(m3);
      var i := FirstMinIsNearest(search, price, atr5m, direction, |search| - 2);
    }
  }

  // ----- The same, read off the bars ----------------------------------------

  /** An unfilled gap between bars i and i + 2: they do not overlap, and the price has not come back to bar i. */
  ghost predicate IsGap(bars: seq<Bar>, i: int, price: real, direction: Direction) {
    0 <= i < |bars| - 2
    && match direction
       case Long => bars[i + 2].low > bars[i].high && price > bars[i].high
       case Short => bars[i + 2].high < bars[i].low && price < bars[i].low
  }

  /** Distance in ATRs from the price to the edge of bar i. */
  function GapDistance(bars: seq<Bar>, i: int, price: real, atr5m: real, direction: Direction): real
    requires 0 <= i < |bars|
  {
    var edge := match direction case Long => bars[i].high case Short => bars[i].low;
    if atr5m > 0.0 then Abs(price - edge) / atr5m else 999.0
  }

  ghost predicate ReportsGap(bars: seq<Bar>, i: int, price: real, atr5m: real, direction: Direction, r: FvgResult)
    requires 0 <= i < |bars| - 2
  {
    && r.found && r.unfilled
    && r.distance == GapDistance(bars, i, price, atr5m, direction)
    && r.gapSize == r.top - r.bottom
    && match direction
       case Long => r.top == bars[i + 2].low && r.bottom == bars[i].high && r.kind == Bullish
       case Short => r.top == bars[i].low && r.bottom == bars[i + 2].high && r.kind == Bearish
  }

  /** No gap is nearer, and none as near is older. */
  ghost predicate IsNearestGap(bars: seq<Bar>, i: int, price: real, atr5m: real, direction: Direction) {
    && IsGap(bars, i, price, direction)
    && forall j :: IsGap(bars, j, price, direction) ==>
         && GapDistance(bars, i, price, atr5m, direction) <= GapDistance(bars, j, price, atr5m, direction)
         && (j < i ==> GapDistance(bars, i, price, atr5m, direction) < GapDistance(bars, j, price, atr5m, direction))
  }

  lemma GapAtIs(bars: seq<Bar>, i: int, price: real, atr5m: real, direction: Direction)
    requires 0 <= i < |bars| - 2
    ensures var r := GapAt(bars, i, price, atr5m, direction);
            && (r.IsCandidate() <==> IsGap(bars, i, price, direction))
            && (r.IsCandidate() ==> ReportsGap(bars, i, price, atr5m, direction, r))
  {
  }

  /** A gap is found if and only if the last 20 bars hold an unfilled one; it is then the nearest, the oldest
      among equally near ones, with the edges, size and distance of its two bars. */
  lemma {:induction false} NearestFvgExact(m3: seq<Bar>, price: real, atr5m: real, direction: Direction)
    ensures var r := NearestFvg(m3, price, atr5m, direction);
            var bars := LastN(m3, 20);
            && (r.found <==> |m3| >= 3 && atr5m != 0.0 && exists i :: IsGap(bars, i, price, direction))
            && (r.found ==> exists i :: IsNearestGap(bars, i, price, atr5m, direction)
                                     && ReportsGap(bars, i, price, atr5m, direction, r))
            && (!r.found ==> r == NO_FVG)
  {
    var bars := LastN(m3, 20);
    NearestFvgIsNearest(m3, price, atr5m, direction);
    var r := NearestFvg(m3, price, atr5m, direction);
    forall i | 0 <= i < |bars| - 2
      ensures GapAt(bars, i, price, atr5m, direction).IsCandidate() <==> IsGap(bars, i, price, direction)
      ensures IsGap(bars, i, price, direction) ==>
                ReportsGap(bars, i, price, atr5m, direction, GapAt(bars, i, price, atr5m, direction))
    {
      GapAtIs(bars, i, price, atr5m, direction);
    }
    assert forall i :: IsGap(bars, i, price, direction) ==> 0 <= i < |bars| - 2;
    hide IsGap, GapAt, GapDistance, NearestFvg, LastN;
    if r.found {
      var i :| IsNearest(bars, price, atr5m, direction, |bars| - 2, i, r);
      forall j | IsGap(bars, j, price, direction)
        ensures GapDistance(bars, i, price, atr5m, direction) <= GapDistance(bars, j, price, atr5m, direction)
        ensures j < i ==> GapDistance(bars, i, price, atr5m, direction) < GapDistance(bars, j, price, atr5m, direction)
      {
        assert ReportsGap(bars, j, price, atr5m, direction, GapAt(bars, j, price, atr5m, direction));
      }
      assert IsNearestGap(bars, i, price, atr5m, direction) && ReportsGap(bars, i, price, atr5m, direction, r);
    }
  }

  // ----- Reflection --------------------------------------------------------

  function MirrorAll(s: seq<FvgResult>): (r: seq<FvgResult>)
    ensures |r| == |s|
    ensures forall i :: 0 <= i < |s| ==> r[i] == s[i].Mirror()
  {
    seq(|s|, i requires 0 <= i < |s| => s[i].Mirror())
  }

  lemma MirrorCheck(c0: Bar, c2: Bar, price: real, atr5m: real, direction: Direction)
    ensures CheckFvg(c0.Mirror(), c2.Mirror(), -price, atr5m, direction.Opposite())
         == CheckFvg(c0, c2, price, atr5m, direction).Mirror()
  {
  }

  lemma MirrorGapAt(search: seq<Bar>, i: int, price: real, atr5m: real, direction: Direction)
    requires 0 <= i < |search| - 2
    ensures GapAt(MirrorBars(search), i, -price, atr5m, direction.Opposite())
         == GapAt(search, i, price, atr5m, direction).Mirror()
  {
    MirrorCheck(search[i], search[i + 2], price, atr5m, direction);
  }

  lemma MirrorAllAppend(s: seq<FvgResult>, f: FvgResult)
    ensures MirrorAll(s + [f]) == MirrorAll(s) + [f.Mirror()]
  {
  }

  lemma {:induction false} MirrorCandidates(search: seq<Bar>, price: real, atr5m: real, direction: Direction, n: nat)
    requires n <= |search| - 2 || n == 0
    ensures Candidates(MirrorBars(search), -price, atr5m, direction.Opposite(), n)
         == MirrorAll(Candidates(search, price, atr5m, direction, n))
  {
    if n > 0 {
      var rest := Candidates(search, price, atr5m, direction, n - 1);
      var fvg := GapAt(search, n - 1, price, atr5m, direction);
      MirrorCandidates(search, price, atr5m, direction, n - 1);
      MirrorGapAt(search, n - 1, price, atr5m, direction);
      MirrorAllAppend(rest, fvg);
      hide CheckFvg, GapAt, MirrorBars, MirrorAll;
      calc {
        Candidates(MirrorBars(search), -price, atr5m, direction.Opposite(), n);
        if fvg.Mirror().IsCandidate() then MirrorAll(rest) + [fvg.Mirror()] else MirrorAll(rest);
        MirrorAll(if fvg.IsCandidate() then rest + [fvg] else rest);
      }
    }
  }

  lemma {:induction false} MirrorFirstMin(s: seq<FvgResult>)
    requires s != []
    ensures FirstMin(MirrorAll(s)) == FirstMin(s).Mirror()
  {
    if |s| > 1 {
      MirrorFirstMin(s[..|s| - 1]);
      assert MirrorAll(s)[..|s| - 1] == MirrorAll(s[..|s| - 1]);
    }
  }

  lemma {:induction false} MirrorNearest(m3: seq<Bar>, price: real, atr5m: real, direction: Direction)
    ensures NearestFvg(MirrorBars(m3), -price, atr5m, direction.Opposite())
         == NearestFvg(m3, price, atr5m, direction).Mirror()
  {
    if |m3| >= 3 && atr5m != 0.0 {
      var search := SearchWindow(m3);
      MirrorLastN(m3, 20);
      MirrorCandidates(search, price, atr5m, direction, |search| - 2);
      var candidates := Candidates(search, price, atr5m, direction, |search| - 2);
      if candidates != [] {
        MirrorFirstMin(candidates);
      }
    }
  }
}
