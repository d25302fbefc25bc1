/** The per-user command limiter of security/rate_limiter.py: buckets, eviction, and why eviction cannot be seen. */
module RateLimiting {
  import opened TokenBucketLaw

  datatype Action = Nuke | Pause | Resume | Status | Positions

  datatype Key = Key(user: int, action: Action)

  const WINDOW_SIZE_SEC := 60.0
  const CLEANUP_INTERVAL := 300.0
  const IDLE_LIMIT := 3600.0

  function Limit(action: Action): int {
    match action
    case Nuke => 3
    case Pause => 10
    case Resume => 10
    case Status => 30
    case Positions => 30
  }

  function QuotaOf(action: Action): Quota {
    Quota(Limit(action) as real, Limit(action) as real / WINDOW_SIZE_SEC)
  }

  // ----- Specification ------------------------------------------------------

  /** One request.  The source reads the clock twice: `now` when the request arrives, `created` when
      it stamps a bucket it has to create.  For a request that creates none, `created` plays no part. */
  datatype Call = Call(key: Key, now: real, created: real)

  type Buckets = map<Key, Bucket>

  function Expired(m: Buckets, now: real): set<Key> {
    set k | k in m && m[k].last < now - IDLE_LIMIT
  }

  function Evict(m: Buckets, now: real): Buckets {
    m - Expired(m, now)
  }

  function Serve(m: Buckets, c: Call): (Buckets, bool) {
    var q := QuotaOf(c.key.action);
    var b := if c.key in m then m[c.key] else Bucket(q.capacity, c.created);
    var (after, ok) := Consume(b, q, c.now, 1);
    (m[c.key := after], ok)
  }

  /** One request as the source serves it.  The time of the last cleanup is never advanced. */
  function Step(m: Buckets, lastCleanup: real, c: Call): (Buckets, bool) {
    Serve(if c.now - lastCleanup > CLEANUP_INTERVAL then Evict(m, c.now) else m, c)
  }

  function Run(calls: seq<Call>, lastCleanup: real): Buckets {
    if calls == [] then map[]
    else
      var n := |calls| - 1;
      Step(Run(calls[..n], lastCleanup), lastCleanup, calls[n]).0
  }

  lemma {:induction false} RunSnoc(calls: seq<Call>, lastCleanup: real, c: Call)
    ensures Run(calls + [c], lastCleanup) == Step(Run(calls, lastCleanup), lastCleanup, c).0
  {
    assert (calls + [c])[..|calls|] == calls;
  }

  /** The same requests served by a limiter that never evicts anything. */
  function RunKeeping(calls: seq<Call>): Buckets {
    if calls == [] then map[]
    else
      var n := |calls| - 1;
      Serve(RunKeeping(calls[..n]), calls[n]).0
  }

  /** The clock never runs backward from one request to the next. */
  ghost predicate Rising(calls: seq<Call>) {
    forall i, j :: 0 <= i <= j < |calls| ==> calls[i].now <= calls[j].now
  }

  /** Nor from the first reading of a request to its second. */
  ghost predicate Ordered(calls: seq<Call>) {
    && (forall i :: 0 <= i < |calls| ==> calls[i].now <= calls[i].created)
    && (forall i, j :: 0 <= i < j < |calls| ==> calls[i].created <= calls[j].now)
  }

  lemma OrderedRises(calls: seq<Call>)
    requires Ordered(calls)
    ensures Rising(calls)
  {
  }

  /** A bucket last used then is gone by now. */
  predicate Stale(last: real, lastCleanup: real, now: real) {
    now - lastCleanup > CLEANUP_INTERVAL && last < now - IDLE_LIMIT
  }

  /** One key's own requests.  A request creates its bucket if it is the first, or if the bucket has gone stale. */
  function Visits(calls: seq<Call>, lastCleanup: real, key: Key): seq<Visit> {
    if calls == [] then []
    else
      var n := |calls| - 1;
      var v := Visits(calls[..n], lastCleanup, key);
      if calls[n].key == key then v + [VisitOf(v, lastCleanup, calls[n])] else v
  }

  function VisitOf(v: seq<Visit>, lastCleanup: real, c: Call): Visit {
    Visit(c.now, c.created, v == [] || Stale(v[|v| - 1].now, lastCleanup, c.now))
  }

  lemma VisitsSnoc(calls: seq<Call>, lastCleanup: real, c: Call, key: Key)
    ensures var v := Visits(calls, lastCleanup, key);
            Visits(calls + [c], lastCleanup, key) == if c.key == key then v + [VisitOf(v, lastCleanup, c)] else v
  {
    assert (calls + [c])[..|calls|] == calls;
  }

  // ----- Every key's requests are a history ---------------------------------

  lemma QuotaFacts(action: Action)
    ensures var q := QuotaOf(action);
            q.capacity == Limit(action) as real >= 3.0 && q.rate == q.capacity / 60.0 > 0.0
            && Gain(q, IDLE_LIMIT) == 60.0 * q.capacity
  {
  }

  /** An hour is time enough to gain the whole capacity. */
  lemma StaleGains(action: Action, last: real, lastCleanup: real, now: real)
    ensures var q := QuotaOf(action);
            && (Stale(last, lastCleanup, now) ==> q.capacity <= Gain(q, now - last))
            && (Gain(q, now - last) <= q.capacity ==> !Stale(last, lastCleanup, now))
  {
    var q := QuotaOf(action);
    QuotaFacts(action);
    hide Gain, QuotaOf;
    if Stale(last, lastCleanup, now) {
      GainGrows(q, IDLE_LIMIT, now - last);
    }
  }

  lemma {:induction false} HistorySnoc(q: Quota, v: seq<Visit>, x: Visit)
    requires History(q, v) && x.now <= x.created && (v == [] ==> x.isNew)
    requires forall i :: 0 <= i < |v| ==> v[i].created <= x.now
    requires v != [] && x.isNew ==> q.capacity <= Gain(q, x.now - v[|v| - 1].now)
    ensures History(q, v + [x])
  {
    hide Gain;
  }

  lemma {:induction false} VisitsAreHistory(calls: seq<Call>, lastCleanup: real, key: Key)
    requires Ordered(calls)
    ensures var v := Visits(calls, lastCleanup, key);
            && History(QuotaOf(key.action), v)
            && forall i :: 0 <= i < |v| ==> v[i].created <= calls[|calls| - 1].created
  {
    if calls != [] {
      var n := |calls| - 1;
      var before, c := calls[..n], calls[n];
      var v := Visits(before, lastCleanup, key);
      VisitsAreHistory(before, lastCleanup, key);
      hide History, QuotaOf, Stale;
      if c.key == key {
        if v != [] {
          StaleGains(key.action, v[|v| - 1].now, lastCleanup, c.now);
        }
        HistorySnoc(QuotaOf(key.action), v, VisitOf(v, lastCleanup, c));
      }
    }
  }

  // ----- What the buckets hold ----------------------------------------------

  /** The buckets that the request at that time finds. */
  function Found(m: Buckets, lastCleanup: real, now: real): Buckets {
    if now - lastCleanup > CLEANUP_INTERVAL then Evict(m, now) else m
  }

  lemma ServeIs(m: Buckets, c: Call, held: Bucket)
    requires held == if c.key in m then m[c.key] else Bucket(QuotaOf(c.key.action).capacity, c.created)
    ensures var (after, ok) := Consume(held, QuotaOf(c.key.action), c.now, 1);
            Serve(m, c) == (m[c.key := after], ok)
  {
  }

  /** The stored bucket is the key's own history; a missing one never was, or has gone stale. */
  ghost predicate Tracks(m: Buckets, calls: seq<Call>, lastCleanup: real, key: Key) {
    var v := Visits(calls, lastCleanup, key);
    if key in m then v != [] && m[key] == After(QuotaOf(key.action), v)
    else v == [] || (calls != [] && Stale(v[|v| - 1].now, lastCleanup, calls[|calls| - 1].now))
  }

  /** What the next request finds of a key: its bucket unless that is stale by then. */
  ghost predicate TracksFound(m: Buckets, calls: seq<Call>, lastCleanup: real, now: real, key: Key) {
    var v := Visits(calls, lastCleanup, key);
    && (key in m <==> v != [] && !Stale(v[|v| - 1].now, lastCleanup, now))
    && (key in m ==> m[key] == After(QuotaOf(key.action), v))
  }

  lemma FindTracks(m: Buckets, calls: seq<Call>, lastCleanup: real, c: Call, key: Key)
    requires Rising(calls + [c]) && Tracks(m, calls, lastCleanup, key)
    ensures TracksFound(Found(m, lastCleanup, c.now), calls, lastCleanup, c.now, key)
  {
    hide Level, Allowed, Visits;
    if calls != [] {
      assert (calls + [c])[|calls| - 1] == calls[|calls| - 1] && (calls + [c])[|calls|] == c;
    }
  }

  lemma {:induction false} ServeTracks(m: Buckets, calls: seq<Call>, lastCleanup: real, c: Call)
    requires forall key :: TracksFound(m, calls, lastCleanup, c.now, key)
    ensures Serve(m, c).1 == Allowed(QuotaOf(c.key.action), Visits(calls + [c], lastCleanup, c.key))
    ensures forall key :: Tracks(Serve(m, c).0, calls + [c], lastCleanup, key)
  {
    var q := QuotaOf(c.key.action);
    var v := Visits(calls, lastCleanup, c.key);
    assert TracksFound(m, calls, lastCleanup, c.now, c.key);
    AfterStep(q, v, VisitOf(v, lastCleanup, c));
    VisitsSnoc(calls, lastCleanup, c, c.key);
    ServeIs(m, c, if c.key in m then m[c.key] else Bucket(q.capacity, c.created));
    hide Consume, Serve, After, Allowed, Visits, QuotaOf, Stale;
    var m' := Serve(m, c).0;
    forall key
      ensures Tracks(m', calls + [c], lastCleanup, key)
    {
      VisitsSnoc(calls, lastCleanup, c, key);
      assert TracksFound(m, calls, lastCleanup, c.now, key);
    }
  }

  lemma {:induction false} RunTracks(calls: seq<Call>, lastCleanup: real, key: Key)
    requires Rising(calls)
    ensures Tracks(Run(calls, lastCleanup), calls, lastCleanup, key)
    ensures calls != [] ==>
              var n := |calls| - 1;
              Step(Run(calls[..n], lastCleanup), lastCleanup, calls[n]).1
              == Allowed(QuotaOf(calls[n].key.action), Visits(calls, lastCleanup, calls[n].key))
  {
    if calls != [] {
      var n := |calls| - 1;
      var before, c := calls[..n], calls[n];
      var m := Run(before, lastCleanup);
      assert before + [c] == calls;
      forall k
        ensures TracksFound(Found(m, lastCleanup, c.now), before, lastCleanup, c.now, k)
      {
        RunTracks(before, lastCleanup, k);
        FindTracks(m, before, lastCleanup, c, k);
      }
      hide Allowed, Visits, Serve, Evict, Tracks, TracksFound;
      ServeTracks(Found(m, lastCleanup, c.now), before, lastCleanup, c);
    }
  }

  ghost predicate TracksKept(m: Buckets, calls: seq<Call>, lastCleanup: real, key: Key) {
    var v := Visits(calls, lastCleanup, key);
    if key in m then v != [] && m[key] == After(QuotaOf(key.action), Unbroken(v)) else v == []
  }

  lemma {:induction false} ServeTracksKept(m: Buckets, calls: seq<Call>, lastCleanup: real, c: Call)
    requires forall key :: TracksKept(m, calls, lastCleanup, key)
    ensures Serve(m, c).1 == Allowed(QuotaOf(c.key.action), Unbroken(Visits(calls + [c], lastCleanup, c.key)))
    ensures forall key :: TracksKept(Serve(m, c).0, calls + [c], lastCleanup, key)
  {
    var q := QuotaOf(c.key.action);
    var v := Visits(calls, lastCleanup, c.key);
    assert TracksKept(m, calls, lastCleanup, c.key);
    var x := VisitOf(v, lastCleanup, c);
    AfterStep(q, Unbroken(v), x.(isNew := v == []));
    assert Unbroken(v + [x]) == Unbroken(v) + [x.(isNew := v == [])];
    VisitsSnoc(calls, lastCleanup, c, c.key);
    ServeIs(m, c, if c.key in m then m[c.key] else Bucket(q.capacity, c.created));
    hide Consume, Serve, After, Allowed, Visits, QuotaOf, Stale;
    var m' := Serve(m, c).0;
    forall key
      ensures TracksKept(m', calls + [c], lastCleanup, key)
    {
      VisitsSnoc(calls, lastCleanup, c, key);
      assert TracksKept(m, calls, lastCleanup, key);
    }
  }

  lemma {:induction false} RunKeepingTracks(calls: seq<Call>, lastCleanup: real, key: Key)
    ensures TracksKept(RunKeeping(calls), calls, lastCleanup, key)
    ensures calls != [] ==>
              var n := |calls| - 1;
              Serve(RunKeeping(calls[..n]), calls[n]).1
              == Allowed(QuotaOf(calls[n].key.action), Unbroken(Visits(calls, lastCleanup, calls[n].key)))
  {
    if calls != [] {
      var n := |calls| - 1;
      var before, c := calls[..n], calls[n];
      assert before + [c] == calls;
      forall k
        ensures TracksKept(RunKeeping(before), before, lastCleanup, k)
      {
        RunKeepingTracks(before, lastCleanup, k);
      }
      hide Allowed, Visits, Serve, TracksKept;
      ServeTracksKept(RunKeeping(before), before, lastCleanup, c);
    }
  }

  // ----- Answers ------------------------------------------------------------

  /** The latest request's answer, and the answer had no bucket ever been deleted. */
  ghost function Answer(calls: seq<Call>, lastCleanup: real): bool
    requires calls != []
  {
    var n := |calls| - 1;
    Step(Run(calls[..n], lastCleanup), lastCleanup, calls[n]).1
  }

  ghost function AnswerKeeping(calls: seq<Call>): bool
    requires calls != []
  {
    var n := |calls| - 1;
    Serve(RunKeeping(calls[..n]), calls[n]).1
  }

  /** The requests of the latest request's own key. */
  function Own(calls: seq<Call>, lastCleanup: real): (v: seq<Visit>)
    requires calls != []
    ensures v != []
  {
    Visits(calls, lastCleanup, calls[|calls| - 1].key)
  }

  function OwnQuota(calls: seq<Call>): Quota
    requires calls != []
  {
    QuotaOf(calls[|calls| - 1].key.action)
  }

  /** What the limiter answers is a function of the requester's own clock readings alone, and so is what it
      would answer without deleting anything. */
  lemma {:induction false} AnswerIsOwnHistory(calls: seq<Call>, lastCleanup: real)
    requires Rising(calls) && calls != []
    ensures Answer(calls, lastCleanup) == Allowed(OwnQuota(calls), Own(calls, lastCleanup))
    ensures AnswerKeeping(calls) == Allowed(OwnQuota(calls), Unbroken(Own(calls, lastCleanup)))
  {
    var key := calls[|calls| - 1].key;
    RunTracks(calls, lastCleanup, key);
    RunKeepingTracks(calls, lastCleanup, key);
  }

  lemma OwnIsHistory(calls: seq<Call>, lastCleanup: real)
    requires Ordered(calls) && calls != []
    ensures Rising(calls) && History(OwnQuota(calls), Own(calls, lastCleanup))
    ensures var q := OwnQuota(calls); q.capacity >= 0.0 && q.rate >= 0.0
  {
    VisitsAreHistory(calls, lastCleanup, calls[|calls| - 1].key);
    QuotaFacts(calls[|calls| - 1].key.action);
  }

  /** The limiter admits a request exactly when that keeps every interval of the key's own history, each
      counted from its start, within limit + (limit / 60) * length; the intervals that start at a request to
      the present bucket decide. */
  lemma {:induction false} LimiterExact(calls: seq<Call>, lastCleanup: real)
    requires Ordered(calls) && calls != []
    ensures var q := OwnQuota(calls);
            var v := Own(calls, lastCleanup);
            && (Answer(calls, lastCleanup) <==> forall j :: 0 <= j < |v| ==> WithinBound(q, v, j))
            && (Answer(calls, lastCleanup) <==> forall j :: Born(v) <= j < |v| ==> WithinBound(q, v, j))
  {
    OwnIsHistory(calls, lastCleanup);
    AnswerIsOwnHistory(calls, lastCleanup);
    hide Answer, AnswerKeeping, Allowed, WithinBound, Own, OwnQuota, Born, History;
    AdmissionExact(OwnQuota(calls), Own(calls, lastCleanup));
  }

  /** In every run, any stretch of time admits one key at most limit + (limit / 60) * length times, however
      often its bucket was deleted and recreated in between. */
  lemma {:induction false} LimiterBound(calls: seq<Call>, lastCleanup: real, key: Key, x: real, y: real)
    requires Ordered(calls) && x <= y
    ensures var limit := match key.action
              case Nuke => 3.0 case Pause => 10.0 case Resume => 10.0 case Status => 30.0 case Positions => 30.0;
            AdmittedIn(QuotaOf(key.action), Visits(calls, lastCleanup, key), x, y) as real <= limit + limit / 60.0 * (y - x)
  {
    hide AdmittedIn, Visits, Most, QuotaOf;
    VisitsAreHistory(calls, lastCleanup, key);
    QuotaFacts(key.action);
    MostOf(key.action, y - x);
    AnyIntervalBound(QuotaOf(key.action), Visits(calls, lastCleanup, key), x, y);
  }

  lemma MostOf(action: Action, elapsed: real)
    ensures var limit := match action
              case Nuke => 3.0 case Pause => 10.0 case Resume => 10.0 case Status => 30.0 case Positions => 30.0;
            Most(QuotaOf(action), elapsed) == limit + limit / 60.0 * elapsed
  {
    var q := QuotaOf(action);
    assert q.rate == q.capacity / 60.0;
    assert Gain(q, elapsed) == q.capacity / 60.0 * elapsed;
    hide Gain;
  }

  // ----- When eviction can be seen ------------------------------------------

  /** Deleting idle buckets never changes an answer to a key whose deleted buckets were all recreated with
      two equal clock readings. */
  lemma {:induction false} EvictionUnobservable(calls: seq<Call>, lastCleanup: real)
    requires Ordered(calls) && calls != [] && NoGapFrom(Own(calls, lastCleanup), 0)
    ensures Answer(calls, lastCleanup) == AnswerKeeping(calls)
  {
    SameFromGap(calls, lastCleanup, 0);
  }

  lemma {:induction false} SameFromGap(calls: seq<Call>, lastCleanup: real, f: nat)
    requires Ordered(calls) && calls != []
    requires var v := Own(calls, lastCleanup);
             NoGapFrom(v, f) && f < |v| && (f == 0 || v[f].isNew)
    ensures Answer(calls, lastCleanup) == AnswerKeeping(calls)
  {
    OwnIsHistory(calls, lastCleanup);
    AnswerIsOwnHistory(calls, lastCleanup);
    SameFrom(OwnQuota(calls), Own(calls, lastCleanup), f);
    hide Answer, AnswerKeeping, Level, Own, OwnQuota;
  }

  /** The latest request has to recreate a deleted bucket. */
  ghost predicate Recreates(calls: seq<Call>, lastCleanup: real)
    requires calls != []
  {
    var v := Own(calls, lastCleanup);
    |v| > 1 && v[|v| - 1].isNew
  }

  /** A continuation up to another request of that key, in which no bucket of the key is recreated with a gap. */
  ghost predicate Continues(calls: seq<Call>, lastCleanup: real, more: seq<Call>)
    requires calls != []
  {
    var all := calls + more;
    && Ordered(all) && all[|all| - 1].key == calls[|calls| - 1].key
    && NoGapFrom(Own(all, lastCleanup), |Own(calls, lastCleanup)|)
  }

  /** Whatever the history, deleting the bucket that the latest request recreates can be seen in the answers,
      now or later, if and only if the two clock readings of that request differ. */
  lemma {:induction false} RecreationUnobservableIff(calls: seq<Call>, lastCleanup: real)
    requires calls != [] && Ordered(calls) && Recreates(calls, lastCleanup)
    ensures (forall more :: Continues(calls, lastCleanup, more) ==>
               Answer(calls + more, lastCleanup) == AnswerKeeping(calls + more))
       <==> calls[|calls| - 1].created == calls[|calls| - 1].now
  {
    var c := calls[|calls| - 1];
    hide Answer, AnswerKeeping, Continues;
    if c.created == c.now {
      forall more | Continues(calls, lastCleanup, more)
        ensures Answer(calls + more, lastCleanup) == AnswerKeeping(calls + more)
      {
        UnseenWithoutGap(calls, lastCleanup, more);
      }
    } else {
      var more := SeenWithGap(calls, lastCleanup);
    }
  }

  lemma {:induction false} UnseenWithoutGap(calls: seq<Call>, lastCleanup: real, more: seq<Call>)
    requires calls != [] && Ordered(calls) && Recreates(calls, lastCleanup)
    requires calls[|calls| - 1].created == calls[|calls| - 1].now && Continues(calls, lastCleanup, more)
    ensures Answer(calls + more, lastCleanup) == AnswerKeeping(calls + more)
  {
    var key := calls[|calls| - 1].key;
    var v, w := Own(calls, lastCleanup), Own(calls + more, lastCleanup);
    VisitsGrow(calls, lastCleanup, key, more);
    LatestVisit(calls, lastCleanup);
    assert w[|v| - 1] == v[|v| - 1];
    hide Answer, AnswerKeeping, Own, Ordered;
    SameFromGap(calls + more, lastCleanup, |v| - 1);
  }

  lemma LatestVisit(calls: seq<Call>, lastCleanup: real)
    requires calls != []
    ensures var v, c := Own(calls, lastCleanup), calls[|calls| - 1];
            v[|v| - 1].now == c.now && v[|v| - 1].created == c.created
  {
  }

  lemma {:induction false} VisitsGrow(calls: seq<Call>, lastCleanup: real, key: Key, more: seq<Call>)
    ensures var v, w := Visits(calls, lastCleanup, key), Visits(calls + more, lastCleanup, key);
            |v| <= |w| && w[..|v|] == v
  {
    if more == [] {
      assert calls + more == calls;
    } else {
      var n := |more| - 1;
      VisitsGrow(calls, lastCleanup, key, more[..n]);
      VisitsSnoc(calls + more[..n], lastCleanup, more[n], key);
      assert calls + more[..n] + [more[n]] == calls + more;
      hide Visits;
    }
  }

  /** The requests of one key that make those visits. */
  function CallsFor(key: Key, more: seq<Visit>): (r: seq<Call>)
    ensures |r| == |more|
    ensures forall i :: 0 <= i < |more| ==> r[i] == Call(key, more[i].now, more[i].created)
  {
    seq(|more|, i requires 0 <= i < |more| => Call(key, more[i].now, more[i].created))
  }

  /** The same requests, added one at a time. */
  function Extended(calls: seq<Call>, key: Key, more: seq<Visit>): seq<Call>
    decreases |more|
  {
    if more == [] then calls
    else var n := |more| - 1; Extended(calls, key, more[..n]) + [Call(key, more[n].now, more[n].created)]
  }

  lemma {:induction false} ExtendedIs(calls: seq<Call>, key: Key, more: seq<Visit>)
    ensures Extended(calls, key, more) == calls + CallsFor(key, more)
    decreases |more|
  {
    if more == [] {
      assert calls + CallsFor(key, more) == calls;
    } else {
      ExtendedIs(calls, key, more[..|more| - 1]);
      CallsForSnoc(calls, key, more);
    }
  }

  lemma CallsForSnoc(calls: seq<Call>, key: Key, more: seq<Visit>)
    requires more != []
    ensures var n := |more| - 1;
            calls + CallsFor(key, more) == calls + CallsFor(key, more[..n]) + [Call(key, more[n].now, more[n].created)]
  {
  }

  /** Requests that follow the latest one closely find its bucket still there. */
  lemma {:induction false} ExtendedVisits(calls: seq<Call>, lastCleanup: real, key: Key, v: seq<Visit>, more: seq<Visit>)
    requires v != [] && v == Visits(calls, lastCleanup, key) && Follows(QuotaOf(key.action), v, more)
    ensures Visits(Extended(calls, key, more), lastCleanup, key) == v + more
    decreases |more|
  {
    hide Visits, Follows, QuotaOf, VisitOf;
    if more == [] {
      assert v + more == v;
    } else {
      var n := |more| - 1;
      FollowsInit(QuotaOf(key.action), v, more);
      ExtendedVisits(calls, lastCleanup, key, v, more[..n]);
      LatestFollower(key, v, more, lastCleanup);
      VisitsSnoc(Extended(calls, key, more[..n]), lastCleanup, Call(key, more[n].now, more[n].created), key);
      assert v + more == v + more[..n] + [more[n]];
    }
  }

  lemma {:induction false} FollowersVisit(calls: seq<Call>, lastCleanup: real, more: seq<Visit>)
    requires calls != [] && Follows(OwnQuota(calls), Own(calls, lastCleanup), more)
    ensures var key := calls[|calls| - 1].key;
            Visits(calls + CallsFor(key, more), lastCleanup, key) == Own(calls, lastCleanup) + more
  {
    hide Visits, Extended, Follows, CallsFor;
    var key := calls[|calls| - 1].key;
    ExtendedIs(calls, key, more);
    ExtendedVisits(calls, lastCleanup, key, Own(calls, lastCleanup), more);
  }

  lemma LatestFollower(key: Key, v: seq<Visit>, more: seq<Visit>, lastCleanup: real)
    requires v != [] && more != [] && Follows(QuotaOf(key.action), v, more)
    ensures var n := |more| - 1;
            VisitOf(v + more[..n], lastCleanup, Call(key, more[n].now, more[n].created)) == more[n]
  {
    var n := |more| - 1;
    var w := v + more[..n];
    assert w[|w| - 1].now == if n == 0 then v[|v| - 1].now else more[n - 1].now;
    assert FollowsAt(QuotaOf(key.action), v, more, n);
    StaleGains(key.action, w[|w| - 1].now, lastCleanup, more[n].now);
    hide Gain, Stale, QuotaOf;
  }

  lemma {:induction false} FollowersOrdered(calls: seq<Call>, key: Key, q: Quota, v: seq<Visit>, more: seq<Visit>)
    requires calls != [] && Ordered(calls) && v != [] && Follows(q, v, more)
    requires v[|v| - 1].created == calls[|calls| - 1].created
    ensures Ordered(calls + CallsFor(key, more))
  {
    var r := CallsFor(key, more);
    var all := calls + r;
    hide Gain;
    forall i | 0 <= i < |more|
      ensures more[i].created == more[i].now && v[|v| - 1].created <= more[i].now
    {
      assert FollowsAt(q, v, more, i);
    }
    hide Follows;
    forall i, j | 0 <= i < j < |all|
      ensures all[i].created <= all[j].now
    {
      if i >= |calls| {
        FollowersRise(q, v, more, i - |calls|, j - |calls|);
      } else if j >= |calls| {
        assert calls[i].created <= calls[|calls| - 1].created;
      }
    }
  }

  lemma {:induction false} FollowersRise(q: Quota, v: seq<Visit>, more: seq<Visit>, i: nat, j: nat)
    requires v != [] && Follows(q, v, more) && i <= j < |more|
    ensures more[i].now <= more[j].now
  {
    if i < j {
      assert FollowsAt(q, v, more, j);
      FollowersRise(q, v, more, i, j - 1);
    }
  }

  lemma NoGapAmongFollowers(q: Quota, v: seq<Visit>, more: seq<Visit>)
    requires v != [] && Follows(q, v, more)
    ensures NoGapFrom(v + more, |v|)
    ensures forall i :: 0 <= i < |more| ==> more[i].created == more[i].now
  {
    forall i | 0 <= i < |more|
      ensures !more[i].isNew && more[i].created == more[i].now
    {
      assert FollowsAt(q, v, more, i);
    }
  }

  lemma {:induction false} SeenWithGap(calls: seq<Call>, lastCleanup: real) returns (more: seq<Call>)
    requires calls != [] && Ordered(calls) && Recreates(calls, lastCleanup)
    requires calls[|calls| - 1].now < calls[|calls| - 1].created
    ensures Continues(calls, lastCleanup, more)
    ensures forall i :: 0 <= i < |more| ==> more[i].created == more[i].now
    ensures Answer(calls + more, lastCleanup) != AnswerKeeping(calls + more)
  {
    var key := calls[|calls| - 1].key;
    var q, v := OwnQuota(calls), Own(calls, lastCleanup);
    OwnIsHistory(calls, lastCleanup);
    QuotaFacts(key.action);
    LatestVisit(calls, lastCleanup);
    var visits := GapShows(q, Limit(key.action), v);
    more := CallsFor(key, visits);
    FollowersVisit(calls, lastCleanup, visits);
    FollowersOrdered(calls, key, q, v, visits);
    var all := calls + more;
    assert all[|all| - 1].key == key;
    assert Own(all, lastCleanup) == v + visits;
    OrderedRises(all);
    AnswerIsOwnHistory(all, lastCleanup);
    NoGapAmongFollowers(q, v, visits);
    hide Answer, AnswerKeeping, Own, Visits, Ordered, Rising, Allowed, History, Gain, Level, Follows, NoGapFrom, Unbroken;
  }

  /** The recreating request itself is refused exactly when the second clock reading comes so much later than
      the first that the new bucket looks less than one token full; a smaller gap shows only later. */
  lemma {:induction false} RecreationExact(m: Buckets, c: Call)
    requires c.key !in m && c.now <= c.created
    ensures var limit := Limit(c.key.action) as real;
            Serve(m, c).1 <==> (c.created - c.now) * (limit / 60.0) <= limit - 1.0
  {
    var q := QuotaOf(c.key.action);
    var gap := c.created - c.now;
    assert q.rate == Limit(c.key.action) as real / 60.0;
    assert (c.now - c.created) * q.rate == -(gap * q.rate);
    assert gap * q.rate >= 0.0;
    assert Refill(Bucket(q.capacity, c.created), q, c.now).tokens == q.capacity - gap * q.rate;
  }

  /** With readings only a second apart the eviction shows. */
  lemma {:induction false} TwoReadingsRevealEviction() returns (calls: seq<Call>)
    ensures calls != [] && Ordered(calls)
    ensures forall i :: 0 <= i < |calls| ==> calls[i].created <= calls[i].now + 1.0
    ensures Answer(calls, 0.0) != AnswerKeeping(calls)
  {
    var key := Key(1, Nuke);
    var first, second := Call(key, 0.0, 0.0), Call(key, 4000.0, 4001.0);
    assert [first][..0] == [] && [first, second][..1] == [first];
    assert Visits([first], 0.0, key) == [Visit(0.0, 0.0, true)];
    assert Visits([first, second], 0.0, key) == [Visit(0.0, 0.0, true), Visit(4000.0, 4001.0, true)];
    hide Answer, AnswerKeeping, Visits;
    var more := SeenWithGap([first, second], 0.0);
    calls := [first, second] + more;
  }

  // ----- The mutable limiter ------------------------------------------------

  class TokenBucket {
    const action: Action
    var tokens: real
    var lastUpdate: real

    constructor (action: Action, created: real)
      ensures this.action == action
      ensures View() == Bucket(0.0, created)
    {
      this.action := action;
      tokens := 0.0;
      lastUpdate := created;
    }

    function View(): Bucket
      reads this
    {
      Bucket(tokens, lastUpdate)
    }

    method RefillTo(now: real)
      modifies this
      ensures View() == Refill(old(View()), QuotaOf(action), now)
    {
      var elapsed := now - lastUpdate;
      var maxTokens := Limit(action) as real;
      var refilled := tokens + elapsed * (maxTokens / WINDOW_SIZE_SEC);
      tokens := if refilled < maxTokens then refilled else maxTokens;
      lastUpdate := now;
    }

    method TryConsume(now: real, cost: int := 1) returns (allowed: bool)
      modifies this
      ensures (View(), allowed) == Consume(old(View()), QuotaOf(action), now, cost)
    {
      RefillTo(now);
      if tokens >= cost as real {
        tokens := tokens - cost as real;
        return true;
      }
      return false;
    }
  }

  class RateLimiter {
    var buckets: map<Key, TokenBucket>
    const lastCleanup: real
    /** Every request served so far. */
    ghost var calls: seq<Call>

    constructor (now: real)
      ensures Valid() && calls == [] && lastCleanup == now && buckets == map[]
    {
      buckets := map[];
      lastCleanup := now;
      calls := [];
    }

    ghost function View(): Buckets
      reads this, buckets.Values
    {
      map k | k in buckets :: buckets[k].View()
    }

    ghost predicate OwnBuckets()
      reads this, buckets.Values
    {
      && (forall k :: k in buckets ==> buckets[k].action == k.action)
      && (forall k, l :: k in buckets && l in buckets && k != l ==> buckets[k] != buckets[l])
    }

    ghost predicate Valid()
      reads this, buckets.Values
    {
      OwnBuckets() && View() == Run(calls, lastCleanup)
    }

    /** Answers as the history of requests demands, and records the request. */
    method CheckLimit(user: int, action: Action, now: real, created: real) returns (allowed: bool)
      requires Valid()
      modifies this, buckets.Values
      ensures Valid() && fresh(buckets.Values - old(buckets.Values))
      ensures calls == old(calls) + [Call(Key(user, action), now, created)]
      ensures allowed == Step(Run(old(calls), lastCleanup), lastCleanup, Call(Key(user, action), now, created)).1
    {
      hide Run, Serve, Evict;
      var key := Key(user, action);
      ghost var c := Call(key, now, created);
      if now - lastCleanup > CLEANUP_INTERVAL {
        CleanupOldBuckets(now);
      }
      allowed := ServeKey(key, now, created);
      RunSnoc(old(calls), lastCleanup, c);
      calls := calls + [c];
    }

    method ServeKey(key: Key, now: real, created: real) returns (allowed: bool)
      requires OwnBuckets()
      modifies this`buckets, buckets.Values
      ensures OwnBuckets() && fresh(buckets.Values - old(buckets.Values))
      ensures (View(), allowed) == Serve(old(View()), Call(key, now, created))
    {
      hide Serve, Consume;
      var bucket: TokenBucket;
      if key !in buckets {
        bucket := new TokenBucket(key.action, created);
        bucket.tokens := Limit(key.action) as real;
        buckets := buckets[key := bucket];
      } else {
        bucket := buckets[key];
      }
      ghost var held := bucket.View();
      allowed := bucket.TryConsume(now);
      ServeIs(old(View()), Call(key, now, created), held);
      assert View() == old(View())[key := bucket.View()];
    }

    method CleanupOldBuckets(now: real)
      requires OwnBuckets()
      modifies this`buckets
      ensures OwnBuckets() && buckets.Values <= old(buckets.Values)
      ensures View() == Evict(old(View()), now)
    {
      var cutoff := now - IDLE_LIMIT;
      var expiredKeys := set k | k in buckets && buckets[k].lastUpdate < cutoff;
      ghost var all := expiredKeys;
      while expiredKeys != {}
        invariant expiredKeys <= all
        invariant buckets == old(buckets) - (all - expiredKeys)
        decreases |expiredKeys|
      {
        var key :| key in expiredKeys;
        buckets := buckets - {key};
        expiredKeys := expiredKeys - {key};
      }
      assert all == Expired(old(View()), now);
    }
  }
}
