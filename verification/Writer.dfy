/** The outbound queue with its circuit breaker (bridge/writer.py), as atomic steps between awaits. */
module Writer {
  import opened Market

  const BREAKER_THRESHOLD := 5

  /** The writer's fields; inFlight is the message `run` holds while it awaits the pipe. */
  datatype State = State(
    maxSize: int, queue: seq<string>, inFlight: Option<string>,
    breakerFailures: nat, breakerOpen: bool,
    enqueued: nat, written: nat, failures: nat, overflows: nat, maxDepth: nat)
  {
    /** asyncio's queue is unbounded unless its size is positive. */
    predicate Full() {
      0 < maxSize <= |queue|
    }
  }

  function Init(maxSize: int): State {
    State(maxSize, [], None, 0, false, 0, 0, 0, 0, 0)
  }

  /** `Enqueue` may come at any time; the others are the steps of `run`: taking the next message,
      learning whether the pipe wrote it, and waking from the breaker's sleep. */
  datatype Event = Enqueue(message: string) | Take | Finish(ok: bool) | CoolDown

  predicate Enabled(s: State, e: Event) {
    match e
    case Enqueue(_) => true
    case Take => !s.breakerOpen && s.inFlight.None? && s.queue != []
    case Finish(_) => s.inFlight.Some?
    case CoolDown => s.breakerOpen && s.inFlight.None?
  }

  /** The state after the event, and what `enqueue` returns. */
  function Step(s: State, e: Event): (State, bool)
    requires Enabled(s, e)
  {
    match e
    case Enqueue(message) =>
      if s.breakerOpen then (s, false)
      else if s.Full() then
        (s.(queue := s.queue[1..] + [message], enqueued := s.enqueued + 1, overflows := s.overflows + 1), true)
      else
        var depth := |s.queue| + 1;
        (s.(queue := s.queue + [message], enqueued := s.enqueued + 1,
            maxDepth := if depth > s.maxDepth then depth else s.maxDepth), true)
    case Take => (s.(queue := s.queue[1..], inFlight := Some(s.queue[0])), true)
    case Finish(ok) =>
      if ok then (s.(inFlight := None, written := s.written + 1, breakerFailures := 0), true)
      else
        var n := s.breakerFailures + 1;
        (s.(inFlight := None, failures := s.failures + 1, breakerFailures := n,
            breakerOpen := n >= BREAKER_THRESHOLD || s.breakerOpen), true)
    case CoolDown => (s.(breakerOpen := false, breakerFailures := 0), true)
  }

  // ----- What became of every accepted message ------------------------------

  datatype Fate = Queued | InFlight | Written | Failed | Dropped

  /** All accepted messages with their fates, the position in flight if any, the messages the pipe
      wrote in the order it wrote them, and the write outcomes since the last cooldown. */
  datatype Log = Log(
    accepted: seq<string>, fates: seq<Fate>, flight: Option<nat>, wire: seq<string>, outcomes: seq<bool>)

  const EMPTY := Log([], [], None, [], [])

  /** First accepted message still queued. */
  function Head(s: State, log: Log): int {
    |log.accepted| - |s.queue|
  }

  function Mark(fates: seq<Fate>, i: int, fate: Fate): seq<Fate> {
    if 0 <= i < |fates| then fates[i := fate] else fates
  }

  function Record(s: State, log: Log, e: Event): Log
    requires Enabled(s, e)
  {
    match e
    case Enqueue(message) =>
      if s.breakerOpen then log
      else
        var fates := if s.Full() then Mark(log.fates, Head(s, log), Dropped) else log.fates;
        log.(accepted := log.accepted + [message], fates := fates + [Queued])
    case Take =>
      var h := Head(s, log);
      log.(fates := Mark(log.fates, h, InFlight), flight := if h >= 0 then Some(h) else None)
    case Finish(ok) =>
      var at := if log.flight.Some? then log.flight.value else 0;
      log.(fates := Mark(log.fates, at, if ok then Written else Failed), flight := None,
           wire := if ok then log.wire + [s.inFlight.value] else log.wire,
           outcomes := log.outcomes + [ok])
    case CoolDown => log.(outcomes := [])
  }

  function Count(fates: seq<Fate>, fate: Fate): nat {
    if fates == [] then 0
    else
      var n := |fates| - 1;
      Count(fates[..n], fate) + if fates[n] == fate then 1 else 0
  }

  /** The accepted messages with a given fate, in acceptance order. */
  function Select(accepted: seq<string>, fates: seq<Fate>, fate: Fate): seq<string>
    requires |accepted| == |fates|
  {
    if fates == [] then []
    else
      var n := |fates| - 1;
      Select(accepted[..n], fates[..n], fate) + if fates[n] == fate then [accepted[n]] else []
  }

  /** Length of the run of failures at the end. */
  function FailureRun(outcomes: seq<bool>): nat {
    if outcomes == [] || outcomes[|outcomes| - 1] then 0 else FailureRun(outcomes[..|outcomes| - 1]) + 1
  }

  /** The queue is the suffix of accepted messages still queued; one earlier message may be in flight,
      and everything between it and the queue was dropped. */
  ghost predicate QueueInv(s: State, log: Log) {
    && |log.fates| == |log.accepted|
    && 0 <= Head(s, log)
    && s.queue == log.accepted[Head(s, log)..]
    && (forall i :: 0 <= i < |log.fates| ==> (log.fates[i] == Queued <==> i >= Head(s, log)))
    && (forall i :: 0 <= i < |log.fates| ==> (log.fates[i] == InFlight <==> log.flight == Some(i)))
    && (s.inFlight.Some? <==> log.flight.Some?)
    && (log.flight.Some? ==>
          && log.flight.value < Head(s, log)
          && s.inFlight == Some(log.accepted[log.flight.value])
          && forall i :: log.flight.value < i < Head(s, log) ==> log.fates[i] == Dropped)
  }

  ghost predicate CountInv(s: State, log: Log) {
    && s.enqueued == |log.accepted|
    && s.written == Count(log.fates, Written)
    && s.failures == Count(log.fates, Failed)
    && s.overflows == Count(log.fates, Dropped)
  }

  ghost predicate BreakerInv(s: State, log: Log) {
    && s.breakerFailures == FailureRun(log.outcomes) <= BREAKER_THRESHOLD
    && (s.breakerOpen <==> FailureRun(log.outcomes) >= BREAKER_THRESHOLD)
    && (s.breakerOpen ==> s.inFlight.None?)
    && |s.queue| <= s.maxDepth
    && (s.maxSize > 0 ==> s.maxDepth <= s.maxSize)
  }

  ghost predicate Inv(s: State, log: Log) {
    && QueueInv(s, log)
    && CountInv(s, log)
    && log.wire == Select(log.accepted, log.fates, Written)
    && BreakerInv(s, log)
  }

  // ----- Lemmas about marking -----------------------------------------------

  lemma {:induction false} CountMark(fates: seq<Fate>, i: nat, fate: Fate, other: Fate)
    requires i < |fates|
    ensures Count(fates[i := fate], other)
         == Count(fates, other) - (if fates[i] == other then 1 else 0) + (if fate == other then 1 else 0)
  {
    var n := |fates| - 1;
    if i < n {
      CountMark(fates[..n], i, fate, other);
      assert fates[i := fate][..n] == fates[..n][i := fate];
    } else {
      assert fates[i := fate][..n] == fates[..n];
    }
  }

  lemma CountSnoc(fates: seq<Fate>, fate: Fate, other: Fate)
    ensures Count(fates + [fate], other) == Count(fates, other) + if fate == other then 1 else 0
  {
    assert (fates + [fate])[..|fates|] == fates;
  }

  lemma {:induction false} SelectMarkOther(accepted: seq<string>, fates: seq<Fate>, i: nat, fate: Fate, other: Fate)
    requires |accepted| == |fates| && i < |fates| && fates[i] != other && fate != other
    ensures Select(accepted, fates[i := fate], other) == Select(accepted, fates, other)
  {
    var n := |fates| - 1;
    if i < n {
      SelectMarkOther(accepted[..n], fates[..n], i, fate, other);
      assert fates[i := fate][..n] == fates[..n][i := fate];
    } else {
      assert fates[i := fate][..n] == fates[..n];
    }
  }

  /** Marking behind every other message with that fate appends to the selection. */
  lemma {:induction false} SelectMarkLast(accepted: seq<string>, fates: seq<Fate>, i: nat, fate: Fate)
    requires |accepted| == |fates| && i < |fates| && fates[i] != fate
    requires forall j :: i < j < |fates| ==> fates[j] != fate
    ensures Select(accepted, fates[i := fate], fate) == Select(accepted, fates, fate) + [accepted[i]]
  {
    var n := |fates| - 1;
    if i < n {
      SelectMarkLast(accepted[..n], fates[..n], i, fate);
      assert fates[i := fate][..n] == fates[..n][i := fate];
    } else {
      assert fates[i := fate][..n] == fates[..n];
    }
  }

  lemma SelectSnoc(accepted: seq<string>, fates: seq<Fate>, message: string, fate: Fate, other: Fate)
    requires |accepted| == |fates|
    ensures Select(accepted + [message], fates + [fate], other)
         == Select(accepted, fates, other) + if fate == other then [message] else []
  {
    assert (accepted + [message])[..|accepted|] == accepted;
    assert (fates + [fate])[..|fates|] == fates;
  }

  lemma FailureRunSnoc(outcomes: seq<bool>, ok: bool)
    ensures FailureRun(outcomes + [ok]) == if ok then 0 else FailureRun(outcomes) + 1
  {
    assert (outcomes + [ok])[..|outcomes|] == outcomes;
  }

  // ----- Every step keeps the invariant -------------------------------------

  lemma InitInv(maxSize: int)
    ensures Inv(Init(maxSize), EMPTY)
  {
  }

  lemma EnqueueKeepsQueue(s: State, log: Log, message: string)
    requires QueueInv(s, log)
    ensures QueueInv(Step(s, Enqueue(message)).0, Record(s, log, Enqueue(message)))
  {
  }

  lemma TakeKeepsQueue(s: State, log: Log)
    requires QueueInv(s, log) && Enabled(s, Take)
    ensures QueueInv(Step(s, Take).0, Record(s, log, Take))
  {
  }

  lemma FinishKeepsQueue(s: State, log: Log, ok: bool)
    requires QueueInv(s, log) && Enabled(s, Finish(ok))
    ensures QueueInv(Step(s, Finish(ok)).0, Record(s, log, Finish(ok)))
  {
  }

  lemma CoolDownKeepsQueue(s: State, log: Log)
    requires QueueInv(s, log) && Enabled(s, CoolDown)
    ensures QueueInv(Step(s, CoolDown).0, Record(s, log, CoolDown))
  {
  }

  lemma StepKeepsQueue(s: State, log: Log, e: Event)
    requires QueueInv(s, log) && Enabled(s, e)
    ensures QueueInv(Step(s, e).0, Record(s, log, e))
  {
    hide Step, Record, QueueInv;
    match e
    case Enqueue(message) => EnqueueKeepsQueue(s, log, message);
    case Take => TakeKeepsQueue(s, log);
    case Finish(ok) => FinishKeepsQueue(s, log, ok);
    case CoolDown => CoolDownKeepsQueue(s, log);
  }

  /** How marking a message and appending a queued one change the three counts that are kept. */
  ghost predicate Moves(before: seq<Fate>, after: seq<Fate>, fate: Option<Fate>) {
    forall other :: other != Queued && other != InFlight ==>
      Count(after, other) == Count(before, other) + if fate == Some(other) then 1 else 0
  }

  lemma MarkMoves(fates: seq<Fate>, i: nat, fate: Fate)
    requires i < |fates| && (fates[i] == Queued || fates[i] == InFlight)
    ensures Moves(fates, fates[i := fate], Some(fate))
  {
    forall other | other != Queued && other != InFlight
      ensures Count(fates[i := fate], other) == Count(fates, other) + if fate == other then 1 else 0
    {
      CountMark(fates, i, fate, other);
    }
  }

  lemma SnocMoves(fates: seq<Fate>)
    ensures Moves(fates, fates + [Queued], None)
  {
    forall other | other != Queued && other != InFlight
      ensures Count(fates + [Queued], other) == Count(fates, other)
    {
      CountSnoc(fates, Queued, other);
    }
  }

  lemma {:induction false} StepKeepsCounts(s: State, log: Log, e: Event)
    requires QueueInv(s, log) && CountInv(s, log) && Enabled(s, e)
    ensures CountInv(Step(s, e).0, Record(s, log, e))
  {
    hide Count;
    var h := Head(s, log);
    match e
    case Enqueue(message) =>
      if !s.breakerOpen {
        if s.Full() {
          MarkMoves(log.fates, h, Dropped);
        }
        SnocMoves(if s.Full() then Mark(log.fates, h, Dropped) else log.fates);
      }
    case Take =>
      MarkMoves(log.fates, h, InFlight);
    case Finish(ok) =>
      MarkMoves(log.fates, log.flight.value, if ok then Written else Failed);
    case CoolDown =>
  }

  lemma {:induction false} StepKeepsWire(s: State, log: Log, e: Event)
    requires QueueInv(s, log) && log.wire == Select(log.accepted, log.fates, Written) && Enabled(s, e)
    requires QueueInv(Step(s, e).0, Record(s, log, e))
    ensures var log' := Record(s, log, e); log'.wire == Select(log'.accepted, log'.fates, Written)
  {
    hide Select;
    var h := Head(s, log);
    match e
    case Enqueue(message) =>
      if !s.breakerOpen {
        var fates := if s.Full() then Mark(log.fates, h, Dropped) else log.fates;
        if s.Full() {
          SelectMarkOther(log.accepted, log.fates, h, Dropped, Written);
        }
        SelectSnoc(log.accepted, fates, message, Queued, Written);
      }
    case Take =>
      SelectMarkOther(log.accepted, log.fates, h, InFlight, Written);
    case Finish(ok) =>
      if ok {
        SelectMarkLast(log.accepted, log.fates, log.flight.value, Written);
      } else {
        SelectMarkOther(log.accepted, log.fates, log.flight.value, Failed, Written);
      }
    case CoolDown =>
  }

  lemma StepKeepsBreaker(s: State, log: Log, e: Event)
    requires BreakerInv(s, log) && Enabled(s, e)
    ensures BreakerInv(Step(s, e).0, Record(s, log, e))
  {
    if e.Finish? {
      FailureRunSnoc(log.outcomes, e.ok);
    }
  }

  lemma StepKeepsInv(s: State, log: Log, e: Event)
    requires Inv(s, log) && Enabled(s, e)
    ensures Inv(Step(s, e).0, Record(s, log, e))
  {
    hide Step, Record, QueueInv, CountInv, BreakerInv;
    StepKeepsQueue(s, log, e);
    StepKeepsCounts(s, log, e);
    StepKeepsWire(s, log, e);
    StepKeepsBreaker(s, log, e);
  }

  // ----- Every run ----------------------------------------------------------

  /** The state and log after a run, if every event of it was enabled when it came. */
  function Run(maxSize: int, events: seq<Event>): Option<(State, Log)> {
    if events == [] then Some((Init(maxSize), EMPTY))
    else
      var n := |events| - 1;
      match Run(maxSize, events[..n])
      case None => None
      case Some((s, log)) =>
        if Enabled(s, events[n]) then Some((Step(s, events[n]).0, Record(s, log, events[n]))) else None
  }

  lemma {:induction false} RunInv(maxSize: int, events: seq<Event>)
    requires Run(maxSize, events).Some?
    ensures var (s, log) := Run(maxSize, events).value; Inv(s, log)
  {
    if events == [] {
      InitInv(maxSize);
    } else {
      var n := |events| - 1;
      RunInv(maxSize, events[..n]);
      var (s, log) := Run(maxSize, events[..n]).value;
      StepKeepsInv(s, log, events[n]);
    }
  }

  lemma {:induction false} FatesPartition(fates: seq<Fate>)
    ensures Count(fates, Queued) + Count(fates, InFlight) + Count(fates, Written) + Count(fates, Failed)
            + Count(fates, Dropped) == |fates|
  {
    if fates != [] {
      FatesPartition(fates[..|fates| - 1]);
    }
  }

  lemma {:induction false} CountNone(fates: seq<Fate>, fate: Fate)
    requires forall i :: 0 <= i < |fates| ==> fates[i] != fate
    ensures Count(fates, fate) == 0
  {
    if fates != [] {
      CountNone(fates[..|fates| - 1], fate);
    }
  }

  lemma {:induction false} CountAt(fates: seq<Fate>, at: nat, fate: Fate)
    requires at < |fates| && forall i :: 0 <= i < |fates| ==> (fates[i] == fate <==> i == at)
    ensures Count(fates, fate) == 1
  {
    var n := |fates| - 1;
    if at == n {
      CountNone(fates[..n], fate);
    } else {
      CountAt(fates[..n], at, fate);
    }
  }

  lemma {:induction false} CountFrom(fates: seq<Fate>, h: nat, fate: Fate)
    requires h <= |fates| && forall i :: 0 <= i < |fates| ==> (fates[i] == fate <==> i >= h)
    ensures Count(fates, fate) == |fates| - h
  {
    if h < |fates| {
      CountFrom(fates[..|fates| - 1], h, fate);
    } else {
      CountNone(fates, fate);
    }
  }

  /** Conservation: in every run, accepted = written + failed + overflow-dropped + queued + in flight. */
  lemma {:induction false} Conservation(maxSize: int, events: seq<Event>)
    requires Run(maxSize, events).Some?
    ensures var s := Run(maxSize, events).value.0;
            s.enqueued == s.written + s.failures + s.overflows + |s.queue| + if s.inFlight.Some? then 1 else 0
  {
    RunInv(maxSize, events);
    hide Run;
    var (s, log) := Run(maxSize, events).value;
    FatesPartition(log.fates);
    CountFrom(log.fates, Head(s, log), Queued);
    if log.flight.Some? {
      CountAt(log.fates, log.flight.value, InFlight);
    } else {
      CountNone(log.fates, InFlight);
    }
  }

  /** s is a subsequence of t: positions strictly increase. */
  ghost predicate PicksInOrder(s: seq<string>, t: seq<string>, at: seq<nat>) {
    && |at| == |s|
    && (forall i :: 0 <= i < |at| ==> at[i] < |t| && s[i] == t[at[i]])
    && (forall i, j :: 0 <= i < j < |at| ==> at[i] < at[j])
  }

  lemma {:induction false} SelectInOrder(accepted: seq<string>, fates: seq<Fate>, fate: Fate) returns (at: seq<nat>)
    requires |accepted| == |fates|
    ensures PicksInOrder(Select(accepted, fates, fate), accepted, at)
  {
    at := [];
    if fates != [] {
      var n := |fates| - 1;
      at := SelectInOrder(accepted[..n], fates[..n], fate);
      if fates[n] == fate {
        at := at + [n];
      }
    }
  }

  /** Order: in every run the queue is a suffix of the accepted messages, and what the pipe wrote is a
      subsequence of them, in acceptance order. */
  lemma {:induction false} Order(maxSize: int, events: seq<Event>) returns (at: seq<nat>)
    requires Run(maxSize, events).Some?
    ensures var (s, log) := Run(maxSize, events).value;
            && |s.queue| <= |log.accepted| && s.queue == log.accepted[|log.accepted| - |s.queue|..]
            && |log.wire| == s.written
            && PicksInOrder(log.wire, log.accepted, at)
  {
    RunInv(maxSize, events);
    hide Run;
    var (s, log) := Run(maxSize, events).value;
    at := SelectInOrder(log.accepted, log.fates, Written);
    SelectCount(log.accepted, log.fates, Written);
  }

  lemma {:induction false} SelectCount(accepted: seq<string>, fates: seq<Fate>, fate: Fate)
    requires |accepted| == |fates|
    ensures |Select(accepted, fates, fate)| == Count(fates, fate)
  {
    if fates != [] {
      var n := |fates| - 1;
      SelectCount(accepted[..n], fates[..n], fate);
    }
  }

  /** In every run the breaker is open if and only if the current run of failures has reached 5. */
  lemma {:induction false} BreakerExact(maxSize: int, events: seq<Event>)
    requires Run(maxSize, events).Some?
    ensures var (s, log) := Run(maxSize, events).value;
            && (s.breakerOpen <==> FailureRun(log.outcomes) >= 5)
            && s.breakerFailures == FailureRun(log.outcomes)
  {
    RunInv(maxSize, events);
  }

  /** While it is open, nothing is accepted, taken or written: only waking from the sleep closes it. */
  lemma OpenBreakerFreezes(s: State, log: Log, e: Event)
    requires Inv(s, log) && s.breakerOpen && Enabled(s, e)
    ensures Step(s, e).0.queue == s.queue && Record(s, log, e).wire == log.wire && Record(s, log, e).accepted == log.accepted
    ensures e.Enqueue? ==> !Step(s, e).1
    ensures !Step(s, e).0.breakerOpen <==> e.CoolDown?
  {
  }

  /** `enqueue` answers true exactly when it accepts the message, at the end of the queue; it refuses exactly when
      the breaker is open, and never because the queue is full. */
  lemma EnqueueAnswers(s: State, log: Log, m: string)
    ensures Step(s, Enqueue(m)).1 <==> Record(s, log, Enqueue(m)).accepted != log.accepted
    ensures Step(s, Enqueue(m)).1 <==> !s.breakerOpen
    ensures Step(s, Enqueue(m)).1 ==>
              && Record(s, log, Enqueue(m)).accepted == log.accepted + [m]
              && var queue := Step(s, Enqueue(m)).0.queue; queue != [] && queue[|queue| - 1] == m
  {
  }

  /** Length of the queue after the first k events. */
  function DepthAt(maxSize: int, events: seq<Event>, k: nat): nat
    requires k <= |events| && Run(maxSize, events[..k]).Some?
  {
    |Run(maxSize, events[..k]).value.0.queue|
  }

  lemma {:induction false} PrefixRuns(maxSize: int, events: seq<Event>, k: nat)
    requires Run(maxSize, events).Some? && k <= |events|
    ensures Run(maxSize, events[..k]).Some?
    decreases |events|
  {
    if k < |events| {
      PrefixRuns(maxSize, events[..|events| - 1], k);
      assert events[..|events| - 1][..k] == events[..k];
    } else {
      assert events[..k] == events;
    }
  }

  /** One event makes the queue longer than the recorded depth only by recording the new depth. */
  lemma StepDepth(s: State, e: Event)
    requires Enabled(s, e) && |s.queue| <= s.maxDepth
    ensures var t := Step(s, e).0;
            |t.queue| <= t.maxDepth && s.maxDepth <= t.maxDepth && (t.maxDepth == s.maxDepth || t.maxDepth == |t.queue|)
  {
  }

  /** In every run the recorded depth is the greatest length the queue has had. */
  lemma {:induction false} DepthExact(maxSize: int, events: seq<Event>) returns (at: nat)
    requires Run(maxSize, events).Some?
    ensures var s := Run(maxSize, events).value.0;
            && at <= |events| && Run(maxSize, events[..at]).Some? && DepthAt(maxSize, events, at) == s.maxDepth
            && forall k :: 0 <= k <= |events| ==>
                 Run(maxSize, events[..k]).Some? && DepthAt(maxSize, events, k) <= s.maxDepth
  {
    hide Run, DepthAt;
    DepthNow(maxSize, events);
    at := |events|;
    if events != [] {
      var n := |events| - 1;
      var before := events[..n];
      LatestRun(maxSize, events);
      DepthNow(maxSize, before);
      at := DepthExact(maxSize, before);
      var s, t := Run(maxSize, before).value.0, Run(maxSize, events).value.0;
      assert DepthAt(maxSize, before, n) <= s.maxDepth;
      StepDepth(s, events[n]);
      forall k | 0 <= k <= n
        ensures Run(maxSize, events[..k]).Some? && DepthAt(maxSize, events, k) == DepthAt(maxSize, before, k)
      {
        DepthBefore(maxSize, events, k);
      }
      hide Step, Record, Enabled;
      if t.maxDepth != s.maxDepth {
        at := |events|;
      }
    } else {
      EmptyRun(maxSize);
    }
  }

  lemma EmptyRun(maxSize: int)
    ensures Run(maxSize, []).Some? && Run(maxSize, []).value.0.maxDepth == 0
    ensures DepthAt(maxSize, [], 0) == 0
  {
  }

  lemma DepthNow(maxSize: int, events: seq<Event>)
    requires Run(maxSize, events).Some?
    ensures Run(maxSize, events[..|events|]).Some?
    ensures DepthAt(maxSize, events, |events|) == |Run(maxSize, events).value.0.queue|
  {
    assert events[..|events|] == events;
    hide Run;
  }

  lemma LatestRun(maxSize: int, events: seq<Event>)
    requires events != [] && Run(maxSize, events).Some?
    ensures var n := |events| - 1;
            && Run(maxSize, events[..n]).Some?
            && var s := Run(maxSize, events[..n]).value.0;
               Enabled(s, events[n]) && Run(maxSize, events).value.0 == Step(s, events[n]).0
  {
    hide Step, Record, Enabled;
  }

  lemma DepthBefore(maxSize: int, events: seq<Event>, k: nat)
    requires events != [] && Run(maxSize, events).Some? && k < |events|
    ensures var before := events[..|events| - 1];
            && Run(maxSize, before[..k]).Some? && Run(maxSize, events[..k]).Some?
            && DepthAt(maxSize, events, k) == DepthAt(maxSize, before, k)
  {
    PrefixRuns(maxSize, events, k);
    assert events[..|events| - 1][..k] == events[..k];
    hide Run;
  }

  // ----- The mutable writer -------------------------------------------------

  class PipeWriter {
    const maxSize: int
    var queue: seq<string>
    var message: Option<string>
    var breakerFailures: nat
    var breakerOpen: bool
    var totalEnqueued: nat
    var totalWritten: nat
    var writeFailures: nat
    var queueOverflows: nat
    var maxQueueDepth: nat
    ghost var log: Log

    constructor (maxSize: int := 200)
      ensures Valid() && View() == Init(maxSize) && log == EMPTY
    {
      this.maxSize := maxSize;
      queue, message, breakerFailures, breakerOpen := [], None, 0, false;
      totalEnqueued, totalWritten, writeFailures, queueOverflows, maxQueueDepth := 0, 0, 0, 0, 0;
      log := EMPTY;
    }

    function View(): State
      reads this
    {
      State(maxSize, queue, message, breakerFailures, breakerOpen,
            totalEnqueued, totalWritten, writeFailures, queueOverflows, maxQueueDepth)
    }

    ghost predicate Valid()
      reads this
    {
      Inv(View(), log)
    }

    /** The source's `enqueue`. */
    method PutMessage(m: string) returns (accepted: bool)
      requires Valid()
      modifies this
      ensures Valid()
      ensures (View(), accepted) == Step(old(View()), Enqueue(m))
      ensures log == Record(old(View()), old(log), Enqueue(m))
    {
      StepKeepsInv(View(), log, Enqueue(m));
      hide Inv, Record, Step;
      log := Record(View(), log, Enqueue(m));
      accepted := Put(m);
    }

    method Put(m: string) returns (accepted: bool)
      modifies this`queue, this`totalEnqueued, this`queueOverflows, this`maxQueueDepth
      ensures (View(), accepted) == Step(old(View()), Enqueue(m))
    {
      if breakerOpen {
        return false;
      }
      if 0 < maxSize <= |queue| {
        queueOverflows := queueOverflows + 1;
        queue := queue[1..];
        queue := queue + [m];
        totalEnqueued := totalEnqueued + 1;
        return true;
      }
      queue := queue + [m];
      totalEnqueued := totalEnqueued + 1;
      var currentDepth := |queue|;
      if currentDepth > maxQueueDepth {
        maxQueueDepth := currentDepth;
      }
      return true;
    }

    /** `run`, up to the await on the pipe; an empty queue times out and changes nothing. */
    method TakeMessage()
      requires Valid() && !breakerOpen && message.None?
      modifies this
      ensures Valid()
      ensures if old(queue) == [] then View() == old(View()) && log == old(log)
              else View() == Step(old(View()), Take).0 && log == Record(old(View()), old(log), Take)
    {
      if queue == [] {
        return;
      }
      StepKeepsInv(View(), log, Take);
      hide Inv, Record;
      log := Record(View(), log, Take);
      message := Some(queue[0]);
      queue := queue[1..];
    }

    /** `run`, once the pipe has answered. */
    method FinishWrite(ok: bool)
      requires Valid() && message.Some?
      modifies this
      ensures Valid()
      ensures View() == Step(old(View()), Finish(ok)).0
      ensures log == Record(old(View()), old(log), Finish(ok))
    {
      StepKeepsInv(View(), log, Finish(ok));
      hide Inv, Record, Step;
      log := Record(View(), log, Finish(ok));
      Settle(ok);
    }

    method Settle(ok: bool)
      requires message.Some?
      modifies this`message, this`totalWritten, this`writeFailures, this`breakerFailures, this`breakerOpen
      ensures View() == Step(old(View()), Finish(ok)).0
    {
      message := None;
      if ok {
        totalWritten := totalWritten + 1;
        breakerFailures := 0;
      } else {
        writeFailures := writeFailures + 1;
        breakerFailures := breakerFailures + 1;
        if breakerFailures >= BREAKER_THRESHOLD {
          breakerOpen := true;
        }
      }
    }

    /** `run`, after the breaker's sleep. */
    method ResetBreaker()
      requires Valid() && breakerOpen
      modifies this
      ensures Valid()
      ensures View() == Step(old(View()), CoolDown).0
      ensures log == Record(old(View()), old(log), CoolDown)
    {
      StepKeepsInv(View(), log, CoolDown);
      hide Inv, Record;
      log := Record(View(), log, CoolDown);
      breakerOpen := false;
      breakerFailures := 0;
    }
  }
}
