/** The streaming aggregator (data/aggregator.py) and its rolling buffers (data/schema.py). */
module Aggregator {
  import opened Market
  import opened Bars

  /** The in-progress bar, updated in place. */
  class OpenBar {
    const tf: Timeframe
    const openTs: int
    var open: real
    var high: real
    var low: real
    var close: real
    var volume: int

    constructor (tf: Timeframe, tick: Tick)
      ensures this.tf == tf
      ensures ToBar() == BarOf([tick], tf)
    {
      this.tf := tf;
      openTs := (tick.timestampMs / Duration(tf)) * Duration(tf);
      var mid := tick.Mid();
      open, high, low, close := mid, mid, mid, mid;
      volume := 0;
      new;
      assert [tick][1..] == [];
    }

    function ToBar(): Bar
      reads this
    {
      Bar(open, high, low, close, volume as real, openTs)
    }

    method Update(tick: Tick)
      modifies this
      ensures ToBar() == UpdateBar(old(ToBar()), tick)
    {
      var mid := tick.Mid();
      high := Max(high, mid);
      low := Min(low, mid);
      close := mid;
      volume := volume + tick.volume;
    }

    predicate ShouldClose(tickTsMs: int) {
      BucketOf(tickTsMs, tf) > openTs
    }
  }

  class BarBuffer {
    const tf: Timeframe
    const maxSize: nat
    var bars: seq<Bar>

    constructor (tf: Timeframe, maxSize: nat)
      ensures this.tf == tf && this.maxSize == maxSize && bars == []
    {
      this.tf := tf;
      this.maxSize := maxSize;
      bars := [];
    }

    /** Appends and trims.  With maxSize 0 Python's slice keeps everything. */
    method Append(bar: Bar)
      modifies this
      ensures bars == LastN(old(bars) + [bar], maxSize)
    {
      bars := bars + [bar];
      if |bars| > maxSize {
        bars := LastN(bars, maxSize);
      }
    }
  }

  /** A buffer fed one bar at a time holds the last `max` of all the bars it was ever given. */
  lemma LastNSnoc<T>(all: seq<T>, x: T, max: nat)
    ensures LastN(LastN(all, max) + [x], max) == LastN(all + [x], max)
  {
  }

  function Capacity(tf: Timeframe): nat {
    match tf
    case M1 => 300
    case M3 => 200
    case M5 => 100
  }

  /** What the aggregator holds for one timeframe. */
  datatype Held = Held(open: Option<Bar>, buffer: seq<Bar>)

  /** One tick, streamed into one timeframe: what is held afterwards, and the bar completed if any. */
  function Stream(held: Held, tick: Tick, tf: Timeframe): (Held, seq<(Timeframe, Bar)>) {
    match held.open
    case None => (Held(Some(BarOf([tick], tf)), held.buffer), [])
    case Some(bar) =>
      if BucketOf(tick.timestampMs, tf) > bar.timestampMs then
        (Held(Some(BarOf([tick], tf)), LastN(held.buffer + [bar], Capacity(tf))), [(tf, bar)])
      else (Held(Some(UpdateBar(bar, tick)), held.buffer), [])
  }

  /** The same, from the batch grouping of a whole history. */
  function Batch(ticks: seq<Tick>, tf: Timeframe): Held {
    Held(if ticks == [] then None else Some(Current(ticks, tf)), LastN(Completed(ticks, tf), Capacity(tf)))
  }

  /** The bar that one more tick completes, if any. */
  function NewBars(ticks: seq<Tick>, tick: Tick, tf: Timeframe): seq<(Timeframe, Bar)> {
    if ticks != [] && BucketOf(tick.timestampMs, tf) > RunningBucket(ticks, tf) then [(tf, Current(ticks, tf))] else []
  }

  /** The buffers hold the last 300, 200 and 100 completed bars. */
  lemma BuffersHold(ticks: seq<Tick>)
    ensures Batch(ticks, M1).buffer == LastN(Completed(ticks, M1), 300)
    ensures Batch(ticks, M3).buffer == LastN(Completed(ticks, M3), 200)
    ensures Batch(ticks, M5).buffer == LastN(Completed(ticks, M5), 100)
  {
    hide Completed, Current, LastN;
  }

  lemma StreamFirst(tick: Tick, tf: Timeframe)
    ensures Stream(Batch([], tf), tick, tf) == (Batch([tick], tf), NewBars([], tick, tf))
  {
    FirstTick(tick, tf);
    assert Completed([], tf) == [];
    hide Completed, Current, BarOf, RunningBucket, BucketOf, UpdateBar, Capacity;
  }

  lemma StreamLater(ticks: seq<Tick>, tick: Tick, tf: Timeframe)
    requires ticks != []
    ensures Stream(Batch(ticks, tf), tick, tf) == (Batch(ticks + [tick], tf), NewBars(ticks, tick, tf))
  {
    hide Completed, Current, BarOf, RunningBucket, BucketOf, UpdateBar, LastN, Capacity;
    OneMoreTick(ticks, tick, tf);
    CurrentBucket(ticks, tf);
    LastNSnoc(Completed(ticks, tf), Current(ticks, tf), Capacity(tf));
  }

  /** Streaming equals batch, for any tick sequence, late timestamps included. */
  lemma {:induction false} StreamIsBatch(ticks: seq<Tick>, tick: Tick, tf: Timeframe)
    ensures Stream(Batch(ticks, tf), tick, tf) == (Batch(ticks + [tick], tf), NewBars(ticks, tick, tf))
  {
    hide Stream, Batch, NewBars;
    if ticks == [] {
      assert ticks + [tick] == [tick];
      StreamFirst(tick, tf);
    } else {
      StreamLater(ticks, tick, tf);
    }
  }

  lemma NothingYet(tf: Timeframe)
    ensures Batch([], tf) == Held(None, [])
  {
  }

  class OhlcvAggregator {
    /** A timeframe without an open bar yet is absent. */
    var openBars: map<Timeframe, OpenBar>
    const buffers: map<Timeframe, BarBuffer>
    ghost var history: seq<Tick>

    constructor ()
      ensures Valid() && history == [] && fresh(buffers.Values)
    {
      var m1 := new BarBuffer(M1, Capacity(M1));
      var m3 := new BarBuffer(M3, Capacity(M3));
      var m5 := new BarBuffer(M5, Capacity(M5));
      openBars := map[];
      buffers := map[M1 := m1, M3 := m3, M5 := m5];
      history := [];
      new;
      forall tf: Timeframe
        ensures tf in buffers && buffers[tf].tf == tf && buffers[tf].maxSize == Capacity(tf) && buffers[tf].bars == []
      {
        match tf
        case M1 =>
        case M3 =>
        case M5 =>
      }
      forall tf: Timeframe {
        NothingYet(tf);
      }
      hide Batch, Capacity;
    }

    /** One open bar at most and one buffer per timeframe; none is shared, as each knows its own. */
    ghost predicate Separate()
      reads this`openBars, openBars.Values, buffers.Values
    {
      && (forall tf :: tf in buffers && buffers[tf].tf == tf && buffers[tf].maxSize == Capacity(tf))
      && (forall tf :: tf in openBars ==> openBars[tf].tf == tf)
    }

    ghost function HeldFor(tf: Timeframe): Held
      requires tf in buffers
      reads this`openBars, openBars.Values, buffers.Values
    {
      Held(if tf in openBars then Some(openBars[tf].ToBar()) else None, buffers[tf].bars)
    }

    ghost predicate Valid()
      reads this, openBars.Values, buffers.Values
    {
      Separate() && forall tf :: tf in buffers ==> HeldFor(tf) == Batch(history, tf)
    }

    /** After any ticks the open bars and buffers are those of the batch grouping of the whole history,
        and the bars returned are exactly the ones this tick completes. */
    method OnTick(tick: Tick) returns (completed: seq<(Timeframe, Bar)>)
      requires Valid()
      modifies this, openBars.Values, buffers.Values
      ensures Valid() && fresh(openBars.Values - old(openBars.Values))
      ensures history == old(history) + [tick]
      ensures completed == NewBars(old(history), tick, M1) + NewBars(old(history), tick, M3) + NewBars(old(history), tick, M5)
    {
      StreamIsBatch(history, tick, M1);
      StreamIsBatch(history, tick, M3);
      StreamIsBatch(history, tick, M5);
      hide Stream, Batch, NewBars, HeldFor;
      completed := AdvanceAll(tick);
      history := history + [tick];
    }

    /** The source's loop over the timeframes. */
    method AdvanceAll(tick: Tick) returns (completed: seq<(Timeframe, Bar)>)
      requires Separate()
      modifies this`openBars, openBars.Values, buffers.Values
      ensures Separate() && fresh(openBars.Values - old(openBars.Values))
      ensures HeldFor(M1) == Stream(old(HeldFor(M1)), tick, M1).0
      ensures HeldFor(M3) == Stream(old(HeldFor(M3)), tick, M3).0
      ensures HeldFor(M5) == Stream(old(HeldFor(M5)), tick, M5).0
      ensures completed == Stream(old(HeldFor(M1)), tick, M1).1 + Stream(old(HeldFor(M3)), tick, M3).1
                         + Stream(old(HeldFor(M5)), tick, M5).1
    {
      assert M1 in buffers && M3 in buffers && M5 in buffers;
      hide *;
      ghost var before := openBars.Values;
      var c1 := Advance(M1, tick);
      var c3 := Advance(M3, tick);
      assert fresh(openBars.Values - before);
      var c5 := Advance(M5, tick);
      assert fresh(openBars.Values - before);
      completed := c1 + c3 + c5;
    }

    method StartBar(tf: Timeframe, tick: Tick)
      requires Separate() && tf in buffers
      modifies this`openBars
      ensures Separate() && fresh(openBars.Values - old(openBars.Values))
      ensures HeldFor(tf) == Held(Some(BarOf([tick], tf)), buffers[tf].bars)
      ensures forall t :: t in buffers && t != tf ==> HeldFor(t) == old(HeldFor(t))
    {
      hide BarOf;
      var bar := new OpenBar(tf, tick);
      openBars := openBars[tf := bar];
    }

    /** One round of the source's loop over the timeframes; the other timeframes are left alone. */
    method Advance(tf: Timeframe, tick: Tick) returns (completed: seq<(Timeframe, Bar)>)
      requires Separate() && tf in buffers
      modifies this`openBars, openBars.Values, buffers.Values
      ensures Separate()
      ensures (HeldFor(tf), completed) == Stream(old(HeldFor(tf)), tick, tf)
      ensures forall t :: t in buffers && t != tf ==> HeldFor(t) == old(HeldFor(t))
      ensures fresh(openBars.Values - old(openBars.Values))
    {
      hide BarOf, BucketOf, UpdateBar, LastN;
      completed := [];
      if tf !in openBars {
        StartBar(tf, tick);
      } else if openBars[tf].ShouldClose(tick.timestampMs) {
        var done := openBars[tf].ToBar();
        completed := [(tf, done)];
        buffers[tf].Append(done);
        StartBar(tf, tick);
      } else {
        openBars[tf].Update(tick);
      }
    }
  }
}
