/** Timeframes nest: every completed M3 or M5 bar is tiled by completed M1 bars. */
module Nesting {
  import opened Market
  import opened Bars

  // ----- Every coarse start is an M1 start ----------------------------------

  lemma BucketsNest(ts: int, seen: int, tf: Timeframe)
    requires BucketOf(ts, tf) > BucketOf(seen, tf)
    ensures BucketOf(ts, M1) > BucketOf(seen, M1)
  {
    WholeMinutes(ts);
    WholeMinutes(seen);
    match tf
    case M1 =>
    case M3 => assert ts / 180000 > seen / 180000;
    case M5 => assert ts / 300000 > seen / 300000;
  }

  /** Three or five minutes are counted in whole minutes. */
  lemma WholeMinutes(ts: int)
    ensures ts / 180000 == ts / 60000 / 3
    ensures ts / 300000 == ts / 60000 / 5
  {
    var minutes, rest := ts / 60000, ts % 60000;
    assert ts == 60000 * minutes + rest;
    assert ts == 180000 * (minutes / 3) + (60000 * (minutes % 3) + rest);
    assert ts == 300000 * (minutes / 5) + (60000 * (minutes % 5) + rest);
  }

  lemma BucketMono(x: int, y: int, tf: Timeframe)
    requires x <= y
    ensures BucketOf(x, tf) <= BucketOf(y, tf)
  {
    match tf
    case M1 => assert x / 60000 <= y / 60000;
    case M3 => assert x / 180000 <= y / 180000;
    case M5 => assert x / 300000 <= y / 300000;
  }

  /** The running bucket is the bucket of one latest timestamp, the same for every timeframe. */
  lemma {:induction false} LatestSeen(ticks: seq<Tick>) returns (seen: int)
    requires ticks != []
    ensures forall tf :: RunningBucket(ticks, tf) == BucketOf(seen, tf)
  {
    var n := |ticks| - 1;
    seen := ticks[n].timestampMs;
    if n > 0 {
      var before := LatestSeen(ticks[..n]);
      if before > seen {
        seen := before;
      }
      forall tf
        ensures RunningBucket(ticks, tf) == BucketOf(seen, tf)
      {
        BucketMono(before, seen, tf);
        BucketMono(ticks[n].timestampMs, seen, tf);
      }
    }
  }

  lemma {:induction false} StartsNest(ticks: seq<Tick>, tf: Timeframe)
    ensures forall i :: i in Starts(ticks, tf) ==> i in Starts(ticks, M1)
  {
    if ticks != [] {
      var n := |ticks| - 1;
      StartsNest(ticks[..n], tf);
      if n > 0 && Opens(ticks, tf) {
        var seen := LatestSeen(ticks[..n]);
        BucketsNest(ticks[n].timestampMs, seen, tf);
      }
    }
  }

  // ----- Putting neighbouring groups together -------------------------------

  lemma {:induction false} HighJoin(a: seq<Tick>, b: seq<Tick>)
    requires a != [] && b != []
    ensures High(a + b) == Max(High(a), High(b))
    ensures Low(a + b) == Min(Low(a), Low(b))
  {
    var all := a + b;
    var n := |b| - 1;
    if n == 0 {
      assert all[..|all| - 1] == a;
    } else {
      HighJoin(a, b[..n]);
      assert all[..|all| - 1] == a + b[..n];
    }
  }

  lemma {:induction false} VolumeJoin(a: seq<Tick>, b: seq<Tick>)
    ensures Volume(a + b) == Volume(a) + Volume(b)
  {
    var all := a + b;
    if b == [] {
      assert all == a;
    } else {
      VolumeJoin(a, b[..|b| - 1]);
      assert all[..|all| - 1] == a + b[..|b| - 1];
    }
  }

  /** Joining the group of a bar with the group of the bar after it. */
  function Join(x: Bar, y: Bar, openingVolume: int): Bar {
    Bar(x.open, Max(x.high, y.high), Min(x.low, y.low), y.close,
        x.volume + y.volume + openingVolume as real, x.timestampMs)
  }

  lemma BarJoin(a: seq<Tick>, b: seq<Tick>, tf: Timeframe)
    requires a != [] && b != []
    ensures BarOf(a + b, tf) == Join(BarOf(a, tf), BarOf(b, tf), b[0].volume)
  {
    hide High, Low, Volume, BucketOf;
    HighJoin(a, b);
    VolumeBehindFirst(a, b);
    assert (a + b)[0] == a[0] && (a + b)[|a + b| - 1] == b[|b| - 1];
  }

  lemma VolumeBehindFirst(a: seq<Tick>, b: seq<Tick>)
    requires a != [] && b != []
    ensures Volume((a + b)[1..]) == Volume(a[1..]) + b[0].volume + Volume(b[1..])
  {
    hide Volume;
    assert (a + b)[1..] == a[1..] + b;
    assert [b[0]] + b[1..] == b;
    VolumeJoin(a[1..], b);
    VolumeJoin([b[0]], b[1..]);
    VolumeOfOne(b[0]);
  }

  lemma VolumeOfOne(tick: Tick)
    ensures Volume([tick]) == tick.volume
  {
    assert [tick][..0] == [];
  }

  // ----- Tiling --------------------------------------------------------------

  function MaxHigh(bars: seq<Bar>): real
    requires bars != []
  {
    var n := |bars| - 1;
    if n == 0 then bars[0].high else Max(MaxHigh(bars[..n]), bars[n].high)
  }

  function MinLow(bars: seq<Bar>): real
    requires bars != []
  {
    var n := |bars| - 1;
    if n == 0 then bars[0].low else Min(MinLow(bars[..n]), bars[n].low)
  }

  /** Volumes of the ticks that open the groups p + 1 to q - 1. */
  function OpeningVolume(ticks: seq<Tick>, cuts: seq<nat>, p: nat, q: nat): int
    requires IsCut(cuts, |ticks|) && p < q < |cuts|
    decreases q
  {
    if q == p + 1 then 0 else OpeningVolume(ticks, cuts, p, q - 1) + ticks[cuts[q - 1]].volume
  }

  /** The bar has the open, close, high and low of the tiles together, and their volume plus `opening`. */
  ghost predicate Tiles(bar: Bar, tiles: seq<Bar>, opening: int) {
    && tiles != []
    && bar.open == tiles[0].open
    && bar.close == tiles[|tiles| - 1].close
    && bar.high == MaxHigh(tiles)
    && bar.low == MinLow(tiles)
    && bar.volume == SumVolume(tiles) + opening as real
  }

  /** The bar is made of the M1 bars numbered p to q - 1, and its volume exceeds their sum by the volumes
      of the opening ticks of all of them but the first. */
  ghost predicate TiledBy(ticks: seq<Tick>, bar: Bar, p: nat, q: nat)
    requires ticks != [] && p < q < |Starts(ticks, M1)|
  {
    var cuts := Starts(ticks, M1);
    Tiles(bar, BarsBetween(ticks, cuts, M1)[p..q], OpeningVolume(ticks, cuts, p, q))
  }

  lemma OneTile(bar: Bar)
    ensures Tiles(bar, [bar], 0)
  {
    assert [bar][..0] == [];
  }

  lemma TileSnoc(x: Bar, tiles: seq<Bar>, y: Bar, opening: int, v: int)
    requires Tiles(x, tiles, opening)
    ensures Tiles(Join(x, y, v), tiles + [y], opening + v)
  {
    assert (tiles + [y])[..|tiles|] == tiles;
  }

  /** Cutting a stretch at an M1 start in between. */
  lemma StretchSplit(ticks: seq<Tick>, a: nat, b: nat, c: nat, tf: Timeframe)
    requires a < b < c <= |ticks|
    ensures BarOf(ticks[a..c], tf) == Join(BarOf(ticks[a..b], tf), BarOf(ticks[b..c], tf), ticks[b].volume)
  {
    hide BarOf, Join;
    assert ticks[a..b] + ticks[b..c] == ticks[a..c];
    assert ticks[b..c][0] == ticks[b];
    BarJoin(ticks[a..b], ticks[b..c], tf);
  }

  lemma JoinIgnoresBucket(x: Bar, group: seq<Tick>, tf: Timeframe, v: int)
    requires group != []
    ensures Join(x, BarOf(group, tf), v) == Join(x, BarOf(group, M1), v)
  {
  }

  lemma TilesIgnoresBucket(group: seq<Tick>, tf: Timeframe, tiles: seq<Bar>, opening: int)
    requires group != []
    ensures Tiles(BarOf(group, tf), tiles, opening) == Tiles(BarOf(group, M1), tiles, opening)
  {
  }

  /** One more tile: the stretch up to the next cut. */
  lemma StretchStep(ticks: seq<Tick>, a: nat, b: nat, c: nat, tf: Timeframe, tiles: seq<Bar>, opening: int)
    requires a < b < c <= |ticks|
    requires Tiles(BarOf(ticks[a..b], tf), tiles, opening)
    ensures Tiles(BarOf(ticks[a..c], tf), tiles + [BarOf(ticks[b..c], M1)], opening + ticks[b].volume)
  {
    hide BarOf, Tiles, Join;
    StretchSplit(ticks, a, b, c, tf);
    JoinIgnoresBucket(BarOf(ticks[a..b], tf), ticks[b..c], tf, ticks[b].volume);
    TileSnoc(BarOf(ticks[a..b], tf), tiles, BarOf(ticks[b..c], M1), opening, ticks[b].volume);
  }

  /** Any stretch between two M1 starts is tiled by the M1 bars between them. */
  lemma {:induction false} StretchIsTiled(ticks: seq<Tick>, cuts: seq<nat>, p: nat, q: nat, tf: Timeframe)
    requires IsCut(cuts, |ticks|) && p < q < |cuts|
    ensures Tiles(BarOf(ticks[cuts[p]..cuts[q]], tf), BarsBetween(ticks, cuts, M1)[p..q], OpeningVolume(ticks, cuts, p, q))
    decreases q
  {
    hide BarOf, Tiles, BarsBetween;
    if p == q - 1 {
      TilesAt(ticks, cuts, p);
      OneTile(BarOf(ticks[cuts[p]..cuts[q]], M1));
      TilesIgnoresBucket(ticks[cuts[p]..cuts[q]], tf, BarsBetween(ticks, cuts, M1)[p..q], 0);
    } else {
      StretchIsTiled(ticks, cuts, p, q - 1, tf);
      TilesSplit(ticks, cuts, p, q);
      StretchStep(ticks, cuts[p], cuts[q - 1], cuts[q], tf, BarsBetween(ticks, cuts, M1)[p..q - 1], OpeningVolume(ticks, cuts, p, q - 1));
    }
  }

  lemma TilesAt(ticks: seq<Tick>, cuts: seq<nat>, p: nat)
    requires IsCut(cuts, |ticks|) && p + 1 < |cuts|
    ensures BarsBetween(ticks, cuts, M1)[p..p + 1] == [BarOf(ticks[cuts[p]..cuts[p + 1]], M1)]
  {
    hide BarOf;
  }

  lemma TilesSplit(ticks: seq<Tick>, cuts: seq<nat>, p: nat, q: nat)
    requires IsCut(cuts, |ticks|) && p + 1 < q < |cuts|
    ensures BarsBetween(ticks, cuts, M1)[p..q]
         == BarsBetween(ticks, cuts, M1)[p..q - 1] + [BarOf(ticks[cuts[q - 1]..cuts[q]], M1)]
  {
    hide BarOf;
    TilesAt(ticks, cuts, q - 1);
  }

  /** Every start of the coarse timeframe is some M1 start. */
  lemma {:induction false} StartIndex(ticks: seq<Tick>, tf: Timeframe, k: nat) returns (p: nat)
    requires k < |Starts(ticks, tf)|
    ensures p < |Starts(ticks, M1)| && Starts(ticks, M1)[p] == Starts(ticks, tf)[k]
  {
    StartsNest(ticks, tf);
    hide Starts;
    assert Starts(ticks, tf)[k] in Starts(ticks, tf);
    p :| 0 <= p < |Starts(ticks, M1)| && Starts(ticks, M1)[p] == Starts(ticks, tf)[k];
  }

  lemma {:induction false} NeighbouringStarts(ticks: seq<Tick>, tf: Timeframe, k: nat) returns (p: nat, q: nat)
    requires ticks != [] && k + 1 < |Starts(ticks, tf)|
    ensures p < q < |Starts(ticks, M1)| && |Completed(ticks, M1)| == |Starts(ticks, M1)| - 1
    ensures Starts(ticks, M1)[p] == Starts(ticks, tf)[k] && Starts(ticks, M1)[q] == Starts(ticks, tf)[k + 1]
  {
    hide Starts, BarsBetween;
    p := StartIndex(ticks, tf, k);
    q := StartIndex(ticks, tf, k + 1);
    assert Starts(ticks, M1)[p] < Starts(ticks, M1)[q];
  }

  /** The ticks of the bar with that number. */
  function Group(ticks: seq<Tick>, cuts: seq<nat>, k: nat): (r: seq<Tick>)
    requires IsCut(cuts, |ticks|) && k + 1 < |cuts|
    ensures r != []
  {
    ticks[cuts[k]..cuts[k + 1]]
  }

  lemma CompletedAt(ticks: seq<Tick>, tf: Timeframe, k: nat)
    requires ticks != [] && k < |Completed(ticks, tf)|
    ensures k + 1 < |Starts(ticks, tf)|
    ensures Completed(ticks, tf)[k] == BarOf(Group(ticks, Starts(ticks, tf), k), tf)
  {
    hide BarOf, Starts;
  }

  /** Every completed bar of any timeframe is tiled by consecutive completed M1 bars. */
  lemma {:induction false} CoarseBarsAreTiled(ticks: seq<Tick>, tf: Timeframe, k: nat) returns (p: nat, q: nat)
    requires ticks != [] && k < |Completed(ticks, tf)|
    ensures p < q <= |Completed(ticks, M1)|
    ensures Starts(ticks, M1)[p] == Starts(ticks, tf)[k] && Starts(ticks, M1)[q] == Starts(ticks, tf)[k + 1]
    ensures TiledBy(ticks, Completed(ticks, tf)[k], p, q)
  {
    CompletedAt(ticks, tf, k);
    p, q := NeighbouringStarts(ticks, tf, k);
    hide BarOf, Tiles, Starts, OpeningVolume, BarsBetween, Completed, IsCut;
    StretchIsTiled(ticks, Starts(ticks, M1), p, q, tf);
  }
}
