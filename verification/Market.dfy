/** Market data shared by every component: directions, OHLCV bars and Python's list slices. */
module Market {

  datatype Option<+T> = None | Some(value: T)

  datatype Direction = Long | Short {
    function Opposite(): Direction {
      if Long? then Short else Long
    }
  }

  /** One aggregated bar.  Nothing is assumed about the order of its four prices. */
  datatype Bar = Bar(open: real, high: real, low: real, close: real, volume: real, timestampMs: int) {
    predicate IsBullish() {
      close > open
    }

    predicate IsBearish() {
      close < open
    }

    /** The bar seen with every price negated: high and low trade places. */
    function Mirror(): Bar {
      Bar(-open, -low, -high, -close, volume, timestampMs)
    }
  }

  function Abs(x: real): real {
    if x < 0.0 then -x else x
  }

  function Max(x: real, y: real): real {
    if x < y then y else x
  }

  function Min(x: real, y: real): real {
    if y < x then y else x
  }

  /** Python's `s[-n:]`: the last n elements, but the WHOLE list when n is 0 or exceeds its length. */
  function LastN<T>(s: seq<T>, n: nat): seq<T> {
    if 0 < n < |s| then s[|s| - n..] else s
  }

  function Reversed<T>(s: seq<T>): (r: seq<T>)
    ensures |r| == |s|
    ensures forall i :: 0 <= i < |s| ==> r[i] == s[|s| - 1 - i]
  {
    if s == [] then [] else [s[|s| - 1]] + Reversed(s[..|s| - 1])
  }

  function SumVolume(bars: seq<Bar>): real {
    if bars == [] then 0.0 else SumVolume(bars[..|bars| - 1]) + bars[|bars| - 1].volume
  }

  function MirrorBars(bars: seq<Bar>): (r: seq<Bar>)
    ensures |r| == |bars|
    ensures forall i {:trigger r[i]} :: 0 <= i < |bars| ==> r[i] == bars[i].Mirror()
  {
    seq(|bars|, i requires 0 <= i < |bars| => bars[i].Mirror())
  }

  lemma MirrorSlice(bars: seq<Bar>, lo: int, hi: int)
    requires 0 <= lo <= hi <= |bars|
    ensures MirrorBars(bars)[lo..hi] == MirrorBars(bars[lo..hi])
  {
  }

  lemma MirrorLastN(bars: seq<Bar>, n: nat)
    ensures LastN(MirrorBars(bars), n) == MirrorBars(LastN(bars, n))
  {
  }

  lemma MirrorTwice(bars: seq<Bar>)
    ensures MirrorBars(MirrorBars(bars)) == bars
  {
    forall i | 0 <= i < |bars|
      ensures MirrorBars(MirrorBars(bars))[i] == bars[i]
    {
      assert bars[i].Mirror().Mirror() == bars[i];
    }
  }

  lemma {:induction false} MirrorVolume(bars: seq<Bar>)
    ensures SumVolume(MirrorBars(bars)) == SumVolume(bars)
  {
    if bars != [] {
      var init := bars[..|bars| - 1];
      MirrorVolume(init);
      assert MirrorBars(bars)[..|bars| - 1] == MirrorBars(init);
    }
  }
}
