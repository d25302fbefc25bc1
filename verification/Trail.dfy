/** The trailing stop (positions/trail_manager.py) as the running extremum of the ticks since arming. */
module Trail {
  import opened Market
  import opened Instruments

  datatype Mode = ScalpBurst | OtherMode

  function TrailFloorUsd(mode: Mode): real {
    if mode == ScalpBurst then 1.50 else 0.75
  }

  function TrailDistance(instr: Instrument, atr1m: real, mode: Mode): real
    requires instr.pipValue != 0.0
  {
    var floorPips := TrailFloorUsd(mode) / instr.pipValue;
    Max(atr1m * 0.5, floorPips * instr.pipSize)
  }

  /** A tick seen by the armed trail: its price and the trailing distance it called for. */
  datatype Move = Move(price: real, distance: real)

  function Proposed(direction: Direction, m: Move): real {
    match direction
    case Long => m.price - m.distance
    case Short => m.price + m.distance
  }

  /** x is a tighter stop than y. */
  predicate Tighter(direction: Direction, x: real, y: real) {
    match direction
    case Long => x > y
    case Short => x < y
  }

  /** The stop after the ticks since arming; none before. */
  function StopOf(direction: Direction, moves: seq<Move>): Option<real> {
    if moves == [] then None
    else
      var n := |moves| - 1;
      var proposed := Proposed(direction, moves[n]);
      match StopOf(direction, moves[..n])
      case None => Some(proposed)
      case Some(stop) => Some(if Tighter(direction, proposed, stop) then proposed else stop)
  }

  predicate Hit(direction: Direction, stop: Option<real>, price: real) {
    match stop
    case None => false
    case Some(s) => match direction
                    case Long => price <= s
                    case Short => price >= s
  }

  // ----- What the stop is ---------------------------------------------------

  /** A LONG stop is the greatest price - distance over all ticks since arming, a SHORT stop the least
      price + distance, however ATR and mode vary. */
  lemma {:induction false} StopIsExtremum(direction: Direction, moves: seq<Move>)
    requires moves != []
    ensures var stop := StopOf(direction, moves);
            && stop.Some?
            && (forall i :: 0 <= i < |moves| ==> !Tighter(direction, Proposed(direction, moves[i]), stop.value))
            && (exists i :: 0 <= i < |moves| && stop.value == Proposed(direction, moves[i]))
  {
    var n := |moves| - 1;
    if n == 0 {
      assert StopOf(direction, moves[..0]) == None;
      assert StopOf(direction, moves).value == Proposed(direction, moves[0]);
    } else {
      var before := moves[..n];
      StopIsExtremum(direction, before);
      var i :| 0 <= i < n && StopOf(direction, before).value == Proposed(direction, before[i]);
      assert before[i] == moves[i];
      assert forall j :: 0 <= j < n ==> before[j] == moves[j];
      var stop := StopOf(direction, moves).value;
      assert stop == Proposed(direction, moves[i]) || stop == Proposed(direction, moves[n]);
    }
  }

  lemma StopSnoc(direction: Direction, moves: seq<Move>, m: Move)
    ensures StopOf(direction, moves + [m])
         == match StopOf(direction, moves)
            case None => Some(Proposed(direction, m))
            case Some(stop) => Some(if Tighter(direction, Proposed(direction, m), stop) then Proposed(direction, m) else stop)
  {
    assert (moves + [m])[..|moves|] == moves;
  }

  /** The stop never moves against the position. */
  lemma StopNeverLoosens(direction: Direction, moves: seq<Move>, m: Move)
    requires moves != []
    ensures !Tighter(direction, StopOf(direction, moves).value, StopOf(direction, moves + [m]).value)
  {
    StopSnoc(direction, moves, m);
  }

  /** A tick that moves the stop never hits it; so a tick hits exactly when it crosses the stop the
      earlier ticks left. */
  lemma HitExact(direction: Direction, moves: seq<Move>, m: Move)
    requires moves != [] && m.distance > 0.0
    ensures var before, after := StopOf(direction, moves), StopOf(direction, moves + [m]);
            && (after != before ==> !Hit(direction, after, m.price))
            && (Hit(direction, after, m.price) <==> Hit(direction, before, m.price))
  {
    StopSnoc(direction, moves, m);
  }

  /** The distance is never zero: its floor is a positive amount of money. */
  lemma DistancePositive(instr: Instrument, atr1m: real, mode: Mode)
    requires instr.Sound()
    ensures TrailDistance(instr, atr1m, mode) > 0.0
    ensures TrailDistance(instr, atr1m, mode) >= atr1m * 0.5
  {
    var pips := TrailFloorUsd(mode) / instr.pipValue;
    assert pips * instr.pipValue == TrailFloorUsd(mode);
    assert pips > 0.0;
    assert pips * instr.pipSize > 0.0;
  }

  /** The distance is the greater of half the ATR and the floor in money: 1.50 USD a lot in a scalp burst, 0.75
      otherwise, turned into a price difference by pip size and pip value. */
  lemma DistanceExact(instr: Instrument, atr1m: real, mode: Mode)
    requires instr.Sound()
    ensures var distance := TrailDistance(instr, atr1m, mode);
            var worth := distance / instr.pipSize * instr.pipValue;
            var least := if mode == ScalpBurst then 1.5 else 0.75;
            && distance >= atr1m * 0.5 && worth >= least
            && (distance == atr1m * 0.5 || worth == least)
  {
    var least := TrailFloorUsd(mode);
    var pips := least / instr.pipValue;
    var distance := TrailDistance(instr, atr1m, mode);
    assert pips * instr.pipValue == least;
    FloorWorth(distance, pips, instr.pipSize, instr.pipValue);
  }

  lemma FloorWorth(distance: real, pips: real, size: real, value: real)
    requires size > 0.0 && value > 0.0
    ensures distance >= pips * size ==> distance / size * value >= pips * value
    ensures distance == pips * size ==> distance / size * value == pips * value
  {
    var q := distance / size;
    assert q * size == distance;
    if distance >= pips * size {
      assert (q - pips) * size >= 0.0;
      assert q >= pips;
      assert (q - pips) * value >= 0.0;
    }
  }

  class TrailManager {
    const direction: Direction
    const instr: Instrument
    var trailStop: Option<real>
    /** The ticks since the trail was last armed. */
    ghost var moves: seq<Move>

    constructor (direction: Direction, instr: Instrument)
      requires instr.Sound()
      ensures Valid() && moves == [] && this.direction == direction && this.instr == instr
    {
      this.direction := direction;
      this.instr := instr;
      trailStop := None;
      moves := [];
    }

    ghost predicate Valid()
      reads this
    {
      instr.Sound() && trailStop == StopOf(direction, moves)
    }

    function DistanceFor(atr1m: real, mode: Mode): real
      requires instr.pipValue != 0.0
    {
      TrailDistance(instr, atr1m, mode)
    }

    method Arm(price: real, atr1m: real, mode: Mode) returns (stop: real)
      requires Valid()
      modifies this
      ensures Valid() && moves == [Move(price, DistanceFor(atr1m, mode))]
      ensures trailStop == Some(stop)
    {
      var dist := TrailDistance(instr, atr1m, mode);
      if direction == Long {
        trailStop := Some(price - dist);
      } else {
        trailStop := Some(price + dist);
      }
      moves := [Move(price, dist)];
      StopSnoc(direction, [], Move(price, dist));
      assert [] + moves == moves;
      stop := trailStop.value;
    }

    method Update(price: real, atr1m: real, mode: Mode) returns (moved: Option<real>)
      requires Valid()
      modifies this
      ensures Valid()
      ensures moves == if old(moves) == [] then [] else old(moves) + [Move(price, DistanceFor(atr1m, mode))]
      ensures moved == if trailStop != old(trailStop) then trailStop else None
    {
      moved := None;
      if trailStop.None? {
        return;
      }
      var dist := TrailDistance(instr, atr1m, mode);
      if direction == Long {
        var proposed := price - dist;
        if proposed > trailStop.value {
          trailStop := Some(proposed);
          moved := trailStop;
        }
      } else {
        var proposed := price + dist;
        if proposed < trailStop.value {
          trailStop := Some(proposed);
          moved := trailStop;
        }
      }
      StopSnoc(direction, moves, Move(price, dist));
      moves := moves + [Move(price, dist)];
    }

    predicate IsHit(price: real)
      reads this
    {
      Hit(direction, trailStop, price)
    }
  }
}
