/** Bars as a function of a whole tick history: the batch grouping that data/aggregator.py streams. */
module Bars {
  import opened Market

  datatype Timeframe = M1 | M3 | M5

  datatype Tick = Tick(timestampMs: int, bid: real, ask: real, volume: int) {
    function Mid(): real {
      (bid + ask) / 2.0
    }
  }

  function Duration(tf: Timeframe): int {
    match tf
    case M1 => 60 * 1000
    case M3 => 3 * 60 * 1000
    case M5 => 5 * 60 * 1000
  }

  /** Python's `(ts // dur) * dur`; the division floors, also for negative timestamps. */
  function BucketOf(ts: int, tf: Timeframe): int {
    (ts / Duration(tf)) * Duration(tf)
  }

  // ----- Batch grouping -----------------------------------------------------

  /** The running maximum of the buckets of all ticks so far. */
  function RunningBucket(ticks: seq<Tick>, tf: Timeframe): int
    requires ticks != []
  {
    var n := |ticks| - 1;
    var own := BucketOf(ticks[n].timestampMs, tf);
    if n == 0 then own
    else
      var before := RunningBucket(ticks[..n], tf);
      if own > before then own else before
  }

  /** The latest tick raises the running maximum, and so opens a bar. */
  predicate Opens(ticks: seq<Tick>, tf: Timeframe)
    requires ticks != []
  {
    var n := |ticks| - 1;
    n == 0 || BucketOf(ticks[n].timestampMs, tf) > RunningBucket(ticks[..n], tf)
  }

  /** Ascending positions that cut a list of n ticks into non-empty groups, the first one at 0. */
  ghost predicate IsCut(cuts: seq<nat>, n: nat) {
    && cuts != [] && cuts[0] == 0
    && (forall i :: 0 <= i < |cuts| ==> cuts[i] < n)
    && (forall i, j :: 0 <= i < j < |cuts| ==> cuts[i] < cuts[j])
  }

  /** Positions of the ticks that open a bar, ascending. */
  function Starts(ticks: seq<Tick>, tf: Timeframe): (r: seq<nat>)
    ensures ticks != [] ==> IsCut(r, |ticks|)
    ensures ticks == [] ==> r == []
  {
    if ticks == [] then []
    else
      var n := |ticks| - 1;
      Starts(ticks[..n], tf) + if Opens(ticks, tf) then [n] else []
  }

  function High(group: seq<Tick>): real
    requires group != []
  {
    var n := |group| - 1;
    if n == 0 then group[0].Mid() else Max(High(group[..n]), group[n].Mid())
  }

  function Low(group: seq<Tick>): real
    requires group != []
  {
    var n := |group| - 1;
    if n == 0 then group[0].Mid() else Min(Low(group[..n]), group[n].Mid())
  }

  function Volume(group: seq<Tick>): int {
    if group == [] then 0 else Volume(group[..|group| - 1]) + group[|group| - 1].volume
  }

  /** One bar from its group of ticks.  The opening tick's volume is not counted. */
  function BarOf(group: seq<Tick>, tf: Timeframe): Bar
    requires group != []
  {
    Bar(group[0].Mid(), High(group), Low(group), group[|group| - 1].Mid(),
        Volume(group[1..]) as real, BucketOf(group[0].timestampMs, tf))
  }

  /** One bar for each pair of neighbouring cuts. */
  function BarsBetween(ticks: seq<Tick>, cuts: seq<nat>, tf: Timeframe): (r: seq<Bar>)
    requires IsCut(cuts, |ticks|)
    ensures |r| == |cuts| - 1
  {
    seq(|cuts| - 1, k requires 0 <= k < |cuts| - 1 => BarOf(ticks[cuts[k]..cuts[k + 1]], tf))
  }

  /** The ticks from the last cut on. */
  function OpenGroup(ticks: seq<Tick>, cuts: seq<nat>): seq<Tick>
    requires IsCut(cuts, |ticks|)
  {
    ticks[cuts[|cuts| - 1]..]
  }

  /** All completed bars. */
  function Completed(ticks: seq<Tick>, tf: Timeframe): seq<Bar> {
    if ticks == [] then [] else BarsBetween(ticks, Starts(ticks, tf), tf)
  }

  /** The bar still open: the ticks since the last start. */
  function Current(ticks: seq<Tick>, tf: Timeframe): Bar
    requires ticks != []
  {
    BarOf(OpenGroup(ticks, Starts(ticks, tf)), tf)
  }

  // ----- One more tick ------------------------------------------------------

  function UpdateBar(bar: Bar, tick: Tick): Bar {
    bar.(high := Max(bar.high, tick.Mid()), low := Min(bar.low, tick.Mid()), close := tick.Mid(),
         volume := bar.volume + tick.volume as real)
  }

  lemma BarOfSnoc(group: seq<Tick>, tick: Tick, tf: Timeframe)
    requires group != []
    ensures BarOf(group + [tick], tf) == UpdateBar(BarOf(group, tf), tick)
  {
    var all := group + [tick];
    assert all[..|group|] == group;
    assert all[1..][..|group| - 1] == group[1..];
  }

  lemma SliceOfLonger(ticks: seq<Tick>, tick: Tick, i: nat, j: nat)
    requires i <= j <= |ticks|
    ensures (ticks + [tick])[i..j] == ticks[i..j]
    ensures (ticks + [tick])[i..] == ticks[i..] + [tick]
  {
  }

  lemma CutGrows(cuts: seq<nat>, n: nat)
    requires IsCut(cuts, n)
    ensures IsCut(cuts, n + 1) && IsCut(cuts + [n], n + 1)
  {
  }

  /** Cutting before the new tick closes the open group. */
  lemma CutBefore(ticks: seq<Tick>, cuts: seq<nat>, tick: Tick, tf: Timeframe)
    requires IsCut(cuts, |ticks|)
    ensures var all := ticks + [tick];
            var cuts' := cuts + [|ticks|];
            && IsCut(cuts', |all|)
            && BarsBetween(all, cuts', tf) == BarsBetween(ticks, cuts, tf) + [BarOf(OpenGroup(ticks, cuts), tf)]
            && OpenGroup(all, cuts') == [tick]
  {
    hide BarOf, IsCut, OpenGroup, BarsBetween;
    CutGrows(cuts, |ticks|);
    OpenGroupNonEmpty(ticks, cuts);
    var all := ticks + [tick];
    var cuts' := cuts + [|ticks|];
    forall k | 0 <= k < |cuts|
      ensures BarsBetween(all, cuts', tf)[k] == (BarsBetween(ticks, cuts, tf) + [BarOf(OpenGroup(ticks, cuts), tf)])[k]
    {
      BarBefore(ticks, cuts, tick, tf, k);
    }
    LatestGroup(ticks, cuts, tick);
  }

  lemma LatestGroup(ticks: seq<Tick>, cuts: seq<nat>, tick: Tick)
    requires IsCut(cuts, |ticks|) && IsCut(cuts + [|ticks|], |ticks| + 1)
    ensures OpenGroup(ticks + [tick], cuts + [|ticks|]) == [tick]
  {
  }

  lemma BarBefore(ticks: seq<Tick>, cuts: seq<nat>, tick: Tick, tf: Timeframe, k: nat)
    requires IsCut(cuts, |ticks|) && IsCut(cuts + [|ticks|], |ticks| + 1) && k < |cuts|
    ensures BarsBetween(ticks + [tick], cuts + [|ticks|], tf)[k] ==
              if k < |cuts| - 1 then BarsBetween(ticks, cuts, tf)[k] else BarOf(OpenGroup(ticks, cuts), tf)
  {
    hide BarOf;
    var cuts' := cuts + [|ticks|];
    assert cuts'[k] == cuts[k] && cuts'[k + 1] == if k < |cuts| - 1 then cuts[k + 1] else |ticks|;
    SliceOfLonger(ticks, tick, cuts[k], cuts'[k + 1]);
    assert ticks[cuts[k]..|ticks|] == ticks[cuts[k]..];
  }

  /** Otherwise the new tick joins the open group. */
  lemma NoCut(ticks: seq<Tick>, cuts: seq<nat>, tick: Tick, tf: Timeframe)
    requires IsCut(cuts, |ticks|)
    ensures var all := ticks + [tick];
            && IsCut(cuts, |all|)
            && BarsBetween(all, cuts, tf) == BarsBetween(ticks, cuts, tf)
            && OpenGroup(all, cuts) == OpenGroup(ticks, cuts) + [tick]
  {
    hide BarOf;
    CutGrows(cuts, |ticks|);
    var all := ticks + [tick];
    forall k | 0 <= k < |cuts| - 1
      ensures BarsBetween(all, cuts, tf)[k] == BarsBetween(ticks, cuts, tf)[k]
    {
      SliceOfLonger(ticks, tick, cuts[k], cuts[k + 1]);
    }
    SliceOfLonger(ticks, tick, cuts[|cuts| - 1], |ticks|);
  }

  lemma {:induction false} StartsSnoc(ticks: seq<Tick>, tick: Tick, tf: Timeframe)
    requires ticks != []
    ensures Starts(ticks + [tick], tf)
         == Starts(ticks, tf) + if BucketOf(tick.timestampMs, tf) > RunningBucket(ticks, tf) then [|ticks|] else []
    ensures RunningBucket(ticks + [tick], tf)
         == var own := BucketOf(tick.timestampMs, tf);
            if own > RunningBucket(ticks, tf) then own else RunningBucket(ticks, tf)
  {
    assert (ticks + [tick])[..|ticks|] == ticks;
  }

  lemma {:induction false} CurrentBucket(ticks: seq<Tick>, tf: Timeframe)
    requires ticks != []
    ensures Current(ticks, tf).timestampMs == RunningBucket(ticks, tf)
  {
    var n := |ticks| - 1;
    if n == 0 {
      assert Starts(ticks, tf) == [0];
      assert ticks[0..] == ticks;
    } else {
      var before, tick := ticks[..n], ticks[n];
      CurrentBucket(before, tf);
      assert before + [tick] == ticks;
      OneMoreTickBy(before, tick, tf);
    }
  }

  lemma {:induction false} OneMoreTickBy(ticks: seq<Tick>, tick: Tick, tf: Timeframe)
    requires ticks != []
    ensures var all := ticks + [tick];
            if BucketOf(tick.timestampMs, tf) > RunningBucket(ticks, tf) then
              && Completed(all, tf) == Completed(ticks, tf) + [Current(ticks, tf)]
              && Current(all, tf) == BarOf([tick], tf)
            else
              && Completed(all, tf) == Completed(ticks, tf)
              && Current(all, tf) == UpdateBar(Current(ticks, tf), tick)
  {
    var cuts := Starts(ticks, tf);
    StartsSnoc(ticks, tick, tf);
    hide BarOf, BarsBetween, OpenGroup, Starts, RunningBucket, BucketOf, UpdateBar, IsCut;
    if BucketOf(tick.timestampMs, tf) > RunningBucket(ticks, tf) {
      CutBefore(ticks, cuts, tick, tf);
    } else {
      assert cuts + [] == cuts;
      NoCut(ticks, cuts, tick, tf);
      OpenGroupNonEmpty(ticks, cuts);
      BarOfSnoc(OpenGroup(ticks, cuts), tick, tf);
    }
  }

  lemma OpenGroupNonEmpty(ticks: seq<Tick>, cuts: seq<nat>)
    requires IsCut(cuts, |ticks|)
    ensures OpenGroup(ticks, cuts) != []
  {
  }

  /** Streaming step: a tick either completes the open bar and opens another, or updates the open bar. */
  lemma {:induction false} OneMoreTick(ticks: seq<Tick>, tick: Tick, tf: Timeframe)
    requires ticks != []
    ensures var all := ticks + [tick];
            if BucketOf(tick.timestampMs, tf) > Current(ticks, tf).timestampMs then
              && Completed(all, tf) == Completed(ticks, tf) + [Current(ticks, tf)]
              && Current(all, tf) == BarOf([tick], tf)
            else
              && Completed(all, tf) == Completed(ticks, tf)
              && Current(all, tf) == UpdateBar(Current(ticks, tf), tick)
  {
    CurrentBucket(ticks, tf);
    hide Completed, Current, BarOf, RunningBucket, BucketOf, UpdateBar;
    OneMoreTickBy(ticks, tick, tf);
  }

  lemma {:induction false} FirstTick(tick: Tick, tf: Timeframe)
    ensures Completed([tick], tf) == []
    ensures Current([tick], tf) == BarOf([tick], tf)
  {
    hide BarOf;
    assert [tick][..0] == [];
    assert Starts([tick], tf) == [0];
    assert [tick][0..] == [tick];
  }

  // ----- The groups are exactly the runs of one running bucket --------------

  lemma {:induction false} RunningBucketGrows(ticks: seq<Tick>, tf: Timeframe, i: int, j: int)
    requires 0 < i <= j <= |ticks|
    ensures RunningBucket(ticks[..i], tf) <= RunningBucket(ticks[..j], tf)
    decreases j
  {
    if i < j {
      RunningBucketGrows(ticks, tf, i, j - 1);
      assert ticks[..j][..j - 1] == ticks[..j - 1];
    }
  }

  /** Position i is a start if and only if the running bucket rises there. */
  lemma {:induction false} StartsExact(ticks: seq<Tick>, tf: Timeframe, i: nat)
    requires i < |ticks|
    ensures i in Starts(ticks, tf) <==> Opens(ticks[..i + 1], tf)
  {
    var n := |ticks| - 1;
    if i < n {
      StartsExact(ticks[..n], tf, i);
      assert ticks[..n][..i + 1] == ticks[..i + 1];
    } else {
      assert ticks[..i + 1] == ticks;
    }
  }

  /** Two ticks lie in the same group if and only if they share the running bucket. */
  lemma {:induction false} SameGroupIff(ticks: seq<Tick>, tf: Timeframe, i: nat, j: nat)
    requires i <= j < |ticks|
    ensures RunningBucket(ticks[..i + 1], tf) == RunningBucket(ticks[..j + 1], tf)
            <==> forall k :: i < k <= j ==> k !in Starts(ticks, tf)
    decreases j
  {
    if i < j {
      SameGroupIff(ticks, tf, i, j - 1);
      StartsExact(ticks, tf, j);
      RunningBucketGrows(ticks, tf, i + 1, j);
      assert ticks[..j + 1][..j] == ticks[..j];
    }
  }

  /** Completed bars carry the running bucket of their group, and open times strictly increase. */
  lemma {:induction false} OpenTimesIncrease(ticks: seq<Tick>, tf: Timeframe, a: nat, b: nat)
    requires ticks != []
    requires a < b < |Starts(ticks, tf)|
    ensures var s := Starts(ticks, tf);
            && Completed(ticks, tf)[a].timestampMs == RunningBucket(ticks[..s[a] + 1], tf)
            && RunningBucket(ticks[..s[a] + 1], tf) < RunningBucket(ticks[..s[b] + 1], tf)
  {
    hide RunningBucket, BucketOf, Starts, Opens, Completed;
    var s := Starts(ticks, tf);
    assert s[a] + 1 <= s[b] < |ticks|;
    StartOpensAt(ticks, tf, a);
    StartOpensAt(ticks, tf, b);
    BarOpensAt(ticks, tf, a);
    RunningBucketGrows(ticks, tf, s[a] + 1, s[b]);
  }

  lemma BarOpensAt(ticks: seq<Tick>, tf: Timeframe, a: nat)
    requires ticks != [] && a + 1 < |Starts(ticks, tf)|
    ensures a < |Completed(ticks, tf)|
    ensures Completed(ticks, tf)[a].timestampMs == BucketOf(ticks[Starts(ticks, tf)[a]].timestampMs, tf)
  {
    hide BucketOf, Starts, BarsBetween, IsCut;
    CutBarOpensAt(ticks, Starts(ticks, tf), tf, a);
  }

  lemma CutBarOpensAt(ticks: seq<Tick>, cuts: seq<nat>, tf: Timeframe, a: nat)
    requires IsCut(cuts, |ticks|) && a + 1 < |cuts|
    ensures BarsBetween(ticks, cuts, tf)[a].timestampMs == BucketOf(ticks[cuts[a]].timestampMs, tf)
  {
    hide BucketOf, High, Low, Volume;
    assert ticks[cuts[a]..cuts[a + 1]][0] == ticks[cuts[a]];
  }

  /** At a start the running bucket is the tick's own, and above everything before. */
  lemma {:induction false} StartOpensAt(ticks: seq<Tick>, tf: Timeframe, a: nat)
    requires ticks != [] && a < |Starts(ticks, tf)|
    ensures var i := Starts(ticks, tf)[a];
            && RunningBucket(ticks[..i + 1], tf) == BucketOf(ticks[i].timestampMs, tf)
            && (i > 0 ==> RunningBucket(ticks[..i + 1], tf) > RunningBucket(ticks[..i], tf))
  {
    var i := Starts(ticks, tf)[a];
    StartsExact(ticks, tf, i);
    assert ticks[..i + 1][..i] == ticks[..i];
  }

  /** High and low of a group are its greatest and least mid. */
  lemma {:induction false} HighLowExact(group: seq<Tick>)
    requires group != []
    ensures forall i :: 0 <= i < |group| ==> Low(group) <= group[i].Mid() <= High(group)
    ensures exists i :: 0 <= i < |group| && group[i].Mid() == High(group)
    ensures exists i :: 0 <= i < |group| && group[i].Mid() == Low(group)
  {
    var n := |group| - 1;
    if n == 0 {
      assert group[0].Mid() == High(group) == Low(group);
    } else {
      var init := group[..n];
      HighLowExact(init);
      var h :| 0 <= h < n && init[h].Mid() == High(init);
      var l :| 0 <= l < n && init[l].Mid() == Low(init);
      assert group[h].Mid() == High(init) && group[l].Mid() == Low(init);
      assert group[n].Mid() == High(group) || group[h].Mid() == High(group);
      assert group[n].Mid() == Low(group) || group[l].Mid() == Low(group);
    }
  }

  // ----- One completed bar --------------------------------------------------

  function Minutes(tf: Timeframe): int {
    match tf case M1 => 1 case M3 => 3 case M5 => 5
  }

  /** A bucket begins at a whole multiple of its minutes, and the timestamp lies in it. */
  lemma BucketExact(ts: int, tf: Timeframe)
    ensures var start, span := BucketOf(ts, tf), 60000 * Minutes(tf);
            start <= ts < start + span && start % span == 0
  {
    match tf
    case M1 => WholeMinute(ts);
    case M3 => WholeThree(ts);
    case M5 => WholeFive(ts);
  }

  lemma WholeMinute(ts: int)
    ensures ts / 60000 * 60000 <= ts < ts / 60000 * 60000 + 60000 && ts / 60000 * 60000 % 60000 == 0
  {
  }

  lemma WholeThree(ts: int)
    ensures ts / 180000 * 180000 <= ts < ts / 180000 * 180000 + 180000 && ts / 180000 * 180000 % 180000 == 0
  {
  }

  lemma WholeFive(ts: int)
    ensures ts / 300000 * 300000 <= ts < ts / 300000 * 300000 + 300000 && ts / 300000 * 300000 % 300000 == 0
  {
  }

  /** The bar of a group of ticks: open and close are the middles of bid and ask of its first and last tick, high and
      low the greatest and least of all of them, and its volume is that of all ticks but the first. */
  ghost predicate IsBarOf(bar: Bar, group: seq<Tick>, tf: Timeframe)
    requires group != []
  {
    var first, last, span := group[0], group[|group| - 1], 60000 * Minutes(tf);
    && bar.timestampMs <= first.timestampMs < bar.timestampMs + span && bar.timestampMs % span == 0
    && bar.open == (first.bid + first.ask) / 2.0
    && bar.close == (last.bid + last.ask) / 2.0
    && (forall i :: 0 <= i < |group| ==> bar.low <= (group[i].bid + group[i].ask) / 2.0 <= bar.high)
    && (exists i :: 0 <= i < |group| && bar.high == (group[i].bid + group[i].ask) / 2.0)
    && (exists i :: 0 <= i < |group| && bar.low == (group[i].bid + group[i].ask) / 2.0)
    && bar.volume == (Volume(group) - first.volume) as real
  }

  lemma {:induction false} VolumeBehind(group: seq<Tick>)
    requires group != []
    ensures Volume(group) == group[0].volume + Volume(group[1..])
  {
    var n := |group| - 1;
    if n == 0 {
      assert group[..0] == [] && group[1..] == [];
    } else {
      VolumeBehind(group[..n]);
      assert group[1..][..n - 1] == group[..n][1..];
    }
  }

  lemma {:induction false} BarExact(group: seq<Tick>, tf: Timeframe)
    requires group != []
    ensures IsBarOf(BarOf(group, tf), group, tf)
  {
    HighLowExact(group);
    VolumeBehind(group);
    BucketExact(group[0].timestampMs, tf);
    hide High, Low, Volume, BucketOf, Minutes;
    var h :| 0 <= h < |group| && group[h].Mid() == High(group);
    var l :| 0 <= l < |group| && group[l].Mid() == Low(group);
    assert group[h].Mid() == (group[h].bid + group[h].ask) / 2.0 && group[l].Mid() == (group[l].bid + group[l].ask) / 2.0;
  }

  /** Completed bar k is the bar of the ticks from start k up to start k + 1. */
  lemma {:induction false} CompletedBarExact(ticks: seq<Tick>, tf: Timeframe, k: nat)
    requires ticks != [] && k + 1 < |Starts(ticks, tf)|
    ensures k < |Completed(ticks, tf)|
    ensures var s := Starts(ticks, tf);
            s[k] < s[k + 1] <= |ticks| && IsBarOf(Completed(ticks, tf)[k], ticks[s[k]..s[k + 1]], tf)
  {
    hide BarOf, BarsBetween, Starts, IsBarOf, IsCut;
    CutBar(ticks, Starts(ticks, tf), tf, k);
    BarExact(ticks[Starts(ticks, tf)[k]..Starts(ticks, tf)[k + 1]], tf);
  }

  lemma CutBar(ticks: seq<Tick>, cuts: seq<nat>, tf: Timeframe, k: nat)
    requires IsCut(cuts, |ticks|) && k + 1 < |cuts|
    ensures cuts[k] < cuts[k + 1] <= |ticks| && BarsBetween(ticks, cuts, tf)[k] == BarOf(ticks[cuts[k]..cuts[k + 1]], tf)
  {
    hide BarOf;
  }
}
