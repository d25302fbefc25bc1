/** The token bucket of security/rate_limiter.py as a function of one key's calls, and its exact admission law. */
module TokenBucketLaw {

  datatype Bucket = Bucket(tokens: real, last: real)

  /** Capacity and refill rate (tokens per second) of a bucket. */
  datatype Quota = Quota(capacity: real, rate: real)

  /** What a bucket gains in that time; it loses when the time is negative. */
  function Gain(q: Quota, elapsed: real): real {
    elapsed * q.rate
  }

  function Refill(b: Bucket, q: Quota, now: real): Bucket {
    var refilled := b.tokens + Gain(q, now - b.last);
    Bucket(if refilled < q.capacity then refilled else q.capacity, now)
  }

  /** The bucket after a request for `cost` tokens, and whether the request was allowed. */
  function Consume(b: Bucket, q: Quota, now: real, cost: int): (Bucket, bool) {
    var r := Refill(b, q, now);
    if r.tokens >= cost as real then (Bucket(r.tokens - cost as real, r.last), true) else (r, false)
  }

  // ----- One key's history --------------------------------------------------

  /** A call of one key, made at `now`.  It is fresh if it found no bucket and had to create a full one,
      which a second clock reading then stamped with `created`. */
  datatype Visit = Visit(now: real, created: real, isNew: bool) {
    /** Since when this call's bucket counts time. */
    function Start(): real {
      if isNew then created else now
    }
  }

  /** Clock readings come in order; the first call is fresh, and a later one only after its key was idle
      long enough to gain the whole capacity. */
  ghost predicate History(q: Quota, v: seq<Visit>) {
    && (v != [] ==> v[0].isNew)
    && (forall i :: 0 <= i < |v| ==> v[i].now <= v[i].created)
    && (forall i, j :: 0 <= i < j < |v| ==> v[i].created <= v[j].now)
    && (forall i :: 0 < i < |v| && v[i].isNew ==> q.capacity <= Gain(q, v[i].now - v[i - 1].now))
  }

  /** The tokens just before the latest call consumes: in a fresh bucket, or refilled since the call before. */
  function Level(q: Quota, v: seq<Visit>): real
    requires v != []
    decreases |v|, 0
  {
    var n := |v| - 1;
    if n == 0 || v[n].isNew then Refill(Bucket(q.capacity, v[n].created), q, v[n].now).tokens
    else Refill(After(q, v[..n]), q, v[n].now).tokens
  }

  function Allowed(q: Quota, v: seq<Visit>): bool
    requires v != []
    decreases |v|, 1
  {
    Level(q, v) >= 1.0
  }

  function After(q: Quota, v: seq<Visit>): Bucket
    requires v != []
    decreases |v|, 2
  {
    Bucket(Level(q, v) - (if Allowed(q, v) then 1.0 else 0.0), v[|v| - 1].now)
  }

  /** How many of the calls from position j on were admitted. */
  function Admitted(q: Quota, v: seq<Visit>, j: nat): nat
    requires j <= |v|
    decreases |v|
  {
    var n := |v| - 1;
    if j > n then 0
    else Admitted(q, v[..n], j) + if Allowed(q, v) then 1 else 0
  }

  /** The call that made the bucket in use. */
  function Born(v: seq<Visit>): nat
    requires v != []
    ensures Born(v) < |v|
  {
    var n := |v| - 1;
    if n == 0 || v[n].isNew then n else Born(v[..n])
  }

  /** One more call is one `Consume`, on a fresh bucket or on the one the earlier calls left. */
  lemma AfterStep(q: Quota, v: seq<Visit>, x: Visit)
    requires v == [] ==> x.isNew
    ensures var b := if x.isNew then Bucket(q.capacity, x.created) else After(q, v);
            Consume(b, q, x.now, 1) == (After(q, v + [x]), Allowed(q, v + [x]))
  {
    assert (v + [x])[..|v|] == v;
  }

  // ----- Laws of gain -------------------------------------------------------

  lemma GainSum(q: Quota, x: real, y: real)
    ensures Gain(q, x) + Gain(q, y) == Gain(q, x + y)
  {
  }

  lemma GainGrows(q: Quota, x: real, y: real)
    requires q.rate >= 0.0 && x <= y
    ensures Gain(q, x) <= Gain(q, y)
  {
    assert 0.0 <= (y - x) * q.rate;
  }

  lemma GainZero(q: Quota)
    ensures Gain(q, 0.0) == 0.0
  {
  }

  /** The most that may be admitted in `elapsed` seconds. */
  function Most(q: Quota, elapsed: real): real {
    q.capacity + Gain(q, elapsed)
  }

  lemma MostGrows(q: Quota, x: real, y: real)
    requires q.rate >= 0.0 && x <= y
    ensures Most(q, x) <= Most(q, y)
  {
    GainGrows(q, x, y);
  }

  lemma {:induction false} HistoryInit(q: Quota, v: seq<Visit>)
    requires v != [] && History(q, v)
    ensures History(q, v[..|v| - 1])
  {
    hide Gain;
  }

  // ----- The level is the lowest ceiling ------------------------------------

  /** The most the level can be, seen from call j: full since its start, less what was admitted from it on. */
  function Ceiling(q: Quota, v: seq<Visit>, j: nat): real
    requires j < |v|
  {
    var n := |v| - 1;
    Most(q, v[n].now - v[j].Start()) - Admitted(q, v[..n], j) as real
  }

  lemma {:induction false} CeilingStep(q: Quota, v: seq<Visit>, j: nat)
    requires j < |v| - 1
    ensures var n := |v| - 1;
            Ceiling(q, v, j)
            == Ceiling(q, v[..n], j) + Gain(q, v[n].now - v[n - 1].now) - if Allowed(q, v[..n]) then 1.0 else 0.0
  {
    var n := |v| - 1;
    var before := v[..n];
    assert before[..n - 1] == v[..n - 1];
    assert Admitted(q, before, j) == Admitted(q, before[..n - 1], j) + if Allowed(q, before) then 1 else 0;
    hide Gain, Allowed, Admitted;
    GainSum(q, v[n - 1].now - v[j].Start(), v[n].now - v[n - 1].now);
  }

  lemma {:induction false} LevelStep(q: Quota, v: seq<Visit>)
    requires v != []
    ensures var n := |v| - 1;
            Level(q, v) ==
              if n == 0 || v[n].isNew then
                var x := q.capacity + Gain(q, v[n].now - v[n].created);
                if x < q.capacity then x else q.capacity
              else
                var x := Level(q, v[..n]) - (if Allowed(q, v[..n]) then 1.0 else 0.0) + Gain(q, v[n].now - v[n - 1].now);
                if x < q.capacity then x else q.capacity
  {
    hide Gain;
  }

  lemma {:induction false} LevelBelowCeiling(q: Quota, v: seq<Visit>, j: nat)
    requires q.capacity >= 0.0 && q.rate >= 0.0
    requires History(q, v) && j < |v|
    ensures Level(q, v) <= Ceiling(q, v, j)
    decreases |v|, 0
  {
    hide Level, Allowed, Gain, Ceiling;
    var n := |v| - 1;
    LevelStep(q, v);
    if j == n {
      OwnCeiling(q, v);
    } else {
      HistoryInit(q, v);
      if v[n].isNew {
        Spent(q, v[..n], j);
        FreshBelow(q, v, j);
      } else {
        LevelBelowCeiling(q, v[..n], j);
        CeilingStep(q, v, j);
      }
    }
  }

  lemma OwnCeiling(q: Quota, v: seq<Visit>)
    requires v != []
    ensures var n := |v| - 1;
            Ceiling(q, v, n) == q.capacity + if v[n].isNew then Gain(q, v[n].now - v[n].created) else 0.0
  {
    var n := |v| - 1;
    assert Admitted(q, v[..n], n) == 0;
    GainZero(q);
    hide Gain;
  }

  /** A fresh bucket follows so long a pause that whatever was admitted before has been gained again. */
  lemma {:induction false} FreshBelow(q: Quota, v: seq<Visit>, j: nat)
    requires q.capacity >= 0.0 && q.rate >= 0.0
    requires History(q, v) && j < |v| - 1 && v[|v| - 1].isNew
    requires var before := v[..|v| - 1];
             var a := Admitted(q, before, j);
             a == 0 || a as real <= Most(q, before[|v| - 2].now - v[j].Start())
    ensures q.capacity <= Ceiling(q, v, j)
  {
    var n := |v| - 1;
    hide Gain, Admitted;
    var since, pause := v[n - 1].now - v[j].Start(), v[n].now - v[n - 1].now;
    GainSum(q, since, pause);
    assert since + pause == v[n].now - v[j].Start();
    assert 0.0 <= since + pause;
    GainGrows(q, 0.0, since + pause);
    GainZero(q);
  }

  /** What was admitted from call j on. */
  lemma {:induction false} Spent(q: Quota, v: seq<Visit>, j: nat)
    requires q.capacity >= 0.0 && q.rate >= 0.0
    requires History(q, v) && j < |v|
    ensures Admitted(q, v, j) == 0 || Admitted(q, v, j) as real <= Most(q, v[|v| - 1].now - v[j].Start())
    decreases |v|, 1
  {
    var n := |v| - 1;
    var before := v[..n];
    if Allowed(q, v) {
      LevelBelowCeiling(q, v, j);
      hide Level, Most;
    } else if j < n {
      HistoryInit(q, v);
      Spent(q, before, j);
      assert before[n - 1].now <= v[n].now;
      hide Most, Allowed;
      MostGrows(q, before[n - 1].now - v[j].Start(), v[n].now - v[j].Start());
    }
  }

  /** The level equals one of the ceilings, and one of a call to the bucket in use. */
  lemma {:induction false} LevelIsCeiling(q: Quota, v: seq<Visit>) returns (low: nat)
    requires q.rate >= 0.0 && v != [] && History(q, v)
    ensures Born(v) <= low < |v| && Level(q, v) == Ceiling(q, v, low)
  {
    var n := |v| - 1;
    LevelStep(q, v);
    low := n;
    if n == 0 || v[n].isNew {
      GainGrows(q, v[n].now - v[n].created, 0.0);
      GainZero(q);
      hide Gain, Level;
    } else {
      var before := v[..n];
      HistoryInit(q, v);
      low := LevelIsCeiling(q, before);
      CeilingStep(q, v, low);
      hide Level, Gain;
      if Level(q, v) == q.capacity {
        low := n;
        GainZero(q);
      }
    }
  }

  /** The level is exactly the lowest of the ceilings. */
  lemma {:induction false} LevelIsLowestCeiling(q: Quota, v: seq<Visit>) returns (low: nat)
    requires q.capacity >= 0.0 && q.rate >= 0.0 && v != [] && History(q, v)
    ensures forall j :: 0 <= j < |v| ==> Level(q, v) <= Ceiling(q, v, j)
    ensures Born(v) <= low < |v| && Level(q, v) == Ceiling(q, v, low)
  {
    low := LevelIsCeiling(q, v);
    forall j | 0 <= j < |v|
      ensures Level(q, v) <= Ceiling(q, v, j)
    {
      LevelBelowCeiling(q, v, j);
    }
  }

  // ----- Admission ----------------------------------------------------------

  /** Admitting the latest call keeps the interval from call j to now within capacity + rate * length. */
  ghost predicate WithinBound(q: Quota, v: seq<Visit>, j: nat)
    requires j < |v|
  {
    var n := |v| - 1;
    Admitted(q, v[..n], j) as real + 1.0 <= Most(q, v[n].now - v[j].Start())
  }

  /** Exactness: a call is admitted if and only if that keeps every interval within its bound; and if and only
      if it keeps those that begin at a call to the bucket in use. */
  lemma {:induction false} AdmissionExact(q: Quota, v: seq<Visit>)
    requires q.capacity >= 0.0 && q.rate >= 0.0 && v != [] && History(q, v)
    ensures Allowed(q, v) <==> forall j :: 0 <= j < |v| ==> WithinBound(q, v, j)
    ensures Allowed(q, v) <==> forall j :: Born(v) <= j < |v| ==> WithinBound(q, v, j)
  {
    var low := LevelIsLowestCeiling(q, v);
    hide Level, Most, Born, History;
    forall j | 0 <= j < |v|
      ensures WithinBound(q, v, j) <==> Ceiling(q, v, j) >= 1.0
    {
    }
    hide Ceiling, WithinBound;
  }

  // ----- Bounds -------------------------------------------------------------

  /** From any call j to the latest call, no more are admitted than capacity + rate * elapsed time. */
  lemma {:induction false} IntervalBound(q: Quota, v: seq<Visit>, j: nat)
    requires q.capacity >= 0.0 && q.rate >= 0.0
    requires History(q, v) && j < |v|
    ensures Admitted(q, v, j) as real <= Most(q, v[|v| - 1].now - v[j].now)
  {
    var elapsed := v[|v| - 1].now - v[j].now;
    assert 0.0 <= elapsed;
    Spent(q, v, j);
    MostGrows(q, v[|v| - 1].now - v[j].Start(), elapsed);
    MostGrows(q, 0.0, elapsed);
    GainZero(q);
    hide Gain, Admitted, History;
  }

  /** How many of the calls admitted were made inside the closed interval from x to y. */
  function AdmittedIn(q: Quota, v: seq<Visit>, x: real, y: real): nat
    decreases |v|
  {
    var n := |v| - 1;
    if v == [] then 0
    else AdmittedIn(q, v[..n], x, y) + if x <= v[n].now <= y && Allowed(q, v) then 1 else 0
  }

  /** The same bound over any stretch of real time, whether or not a call sits at either end. */
  lemma {:induction false} AnyIntervalBound(q: Quota, v: seq<Visit>, x: real, y: real)
    requires q.capacity >= 0.0 && q.rate >= 0.0
    requires History(q, v) && x <= y
    ensures AdmittedIn(q, v, x, y) as real <= Most(q, y - x)
  {
    hide Allowed, Admitted, Gain;
    var n := |v| - 1;
    if v == [] {
      GainZero(q);
      MostGrows(q, 0.0, y - x);
    } else if v[n].now > y || v[n].now < x {
      HistoryInit(q, v);
      AnyIntervalBound(q, v[..n], x, y);
    } else {
      var j := FirstFrom(q, v, x);
      AdmittedInIsTail(q, v, x, y, j);
      IntervalBound(q, v, j);
      MostGrows(q, v[n].now - v[j].now, y - x);
    }
  }

  lemma {:induction false} FirstFrom(q: Quota, v: seq<Visit>, x: real) returns (j: nat)
    requires History(q, v) && v != [] && v[|v| - 1].now >= x
    ensures j < |v| && v[j].now >= x
    ensures forall i :: 0 <= i < j ==> v[i].now < x
    ensures forall i, k :: 0 <= i <= k < |v| ==> v[i].now <= v[k].now
  {
    hide Gain;
    var n := |v| - 1;
    if n == 0 || v[n - 1].now < x {
      j := n;
    } else {
      HistoryInit(q, v);
      j := FirstFrom(q, v[..n], x);
    }
  }

  lemma {:induction false} AdmittedInIsTail(q: Quota, v: seq<Visit>, x: real, y: real, j: nat)
    requires j <= |v|
    requires forall i :: 0 <= i < j ==> v[i].now < x
    requires forall i :: j <= i < |v| ==> x <= v[i].now <= y
    ensures AdmittedIn(q, v, x, y) == Admitted(q, v, j)
    decreases |v|
  {
    hide Allowed;
    var n := |v| - 1;
    if v != [] {
      AdmittedInIsTail(q, v[..n], x, y, if j > n then n else j);
    }
  }

  /** The tokens never exceed the capacity; and when the latest call reads the clock a second time, they are
      not negative any more. */
  lemma {:induction false} TokensInRange(q: Quota, v: seq<Visit>)
    requires q.capacity >= 0.0 && q.rate >= 0.0 && v != [] && History(q, v)
    ensures Level(q, v) <= q.capacity
    ensures var n := |v| - 1;
            After(q, v).tokens >= 0.0 || (v[n].isNew && After(q, v).tokens == q.capacity + Gain(q, v[n].now - v[n].created))
  {
    var n := |v| - 1;
    LevelStep(q, v);
    hide Level;
    if n > 0 && !v[n].isNew {
      var before := v[..n];
      var p := v[n - 1];
      HistoryInit(q, v);
      TokensInRange(q, before);
      GainGrows(q, 0.0, v[n].now - p.now);
      GainZero(q);
      GainSum(q, p.now - p.created, v[n].now - p.now);
      GainGrows(q, 0.0, v[n].now - p.created);
      assert p.now - p.created + (v[n].now - p.now) == v[n].now - p.created;
      hide Gain;
    }
  }

  /** Idle long enough to gain the whole capacity, a bucket is full again. */
  lemma {:induction false} IdleIsFull(q: Quota, v: seq<Visit>, now: real)
    requires q.capacity >= 0.0 && q.rate >= 0.0 && v != [] && History(q, v)
    requires v[|v| - 1].created <= now && q.capacity <= Gain(q, now - v[|v| - 1].now)
    ensures Refill(After(q, v), q, now).tokens == q.capacity
  {
    var p := v[|v| - 1];
    TokensInRange(q, v);
    hide Level;
    GainSum(q, p.now - p.created, now - p.now);
    assert p.now - p.created + (now - p.now) == now - p.created;
    GainGrows(q, 0.0, now - p.created);
    GainZero(q);
    hide Gain;
  }

  // ----- Calls that recreate a bucket ---------------------------------------

  /** The same calls, had the bucket never been taken away after the first. */
  function Unbroken(v: seq<Visit>): (r: seq<Visit>)
    ensures |r| == |v|
    ensures forall i :: 0 <= i < |v| ==> r[i] == v[i].(isNew := i == 0)
  {
    seq(|v|, i requires 0 <= i < |v| => v[i].(isNew := i == 0))
  }

  lemma UnbrokenInit(q: Quota, v: seq<Visit>)
    requires v != []
    ensures Unbroken(v)[..|v| - 1] == Unbroken(v[..|v| - 1])
    ensures History(q, v) ==> History(q, Unbroken(v))
  {
    hide Gain;
  }

  /** From call f on, no bucket is recreated with two different clock readings. */
  ghost predicate NoGapFrom(v: seq<Visit>, f: nat) {
    forall i :: f <= i < |v| && 0 < i && v[i].isNew ==> v[i].created == v[i].now
  }

  /** A bucket recreated without a gap is as full as the one it replaces would have been; so from then on the
      tokens are the same, until one is recreated with a gap. */
  lemma {:induction false} SameFrom(q: Quota, v: seq<Visit>, f: nat)
    requires q.capacity >= 0.0 && q.rate >= 0.0 && History(q, v) && f < |v|
    requires v[f].isNew && NoGapFrom(v, f)
    ensures Level(q, v) == Level(q, Unbroken(v))
  {
    var n := |v| - 1;
    hide Level, Gain;
    if n > 0 && v[n].isNew {
      SameAfterRenewal(q, v);
    } else {
      if n > 0 {
        HistoryInit(q, v);
        assert v[..n][f] == v[f] && NoGapFrom(v[..n], f);
        SameFrom(q, v[..n], f);
      }
      SameStep(q, v);
    }
  }

  lemma {:induction false} SameStep(q: Quota, v: seq<Visit>)
    requires v != []
    requires |v| > 1 ==> !v[|v| - 1].isNew && Level(q, v[..|v| - 1]) == Level(q, Unbroken(v[..|v| - 1]))
    ensures Level(q, v) == Level(q, Unbroken(v))
  {
    UnbrokenInit(q, v);
    LevelStep(q, v);
    LevelStep(q, Unbroken(v));
    hide Level, Gain, History;
  }

  lemma {:induction false} SameAfterRenewal(q: Quota, v: seq<Visit>)
    requires q.capacity >= 0.0 && q.rate >= 0.0 && History(q, v) && |v| > 1
    requires v[|v| - 1].isNew && v[|v| - 1].created == v[|v| - 1].now
    ensures Level(q, v) == q.capacity == Level(q, Unbroken(v))
  {
    var n := |v| - 1;
    var u := Unbroken(v);
    UnbrokenInit(q, v);
    HistoryInit(q, u);
    IdleIsFull(q, u[..n], v[n].now);
    GainZero(q);
    hide Gain, History, After;
  }

  // ----- A gap always shows in the end --------------------------------------

  /** m more calls, all at one time, to the bucket in use. */
  function Burst(v: seq<Visit>, at: real, m: nat): (r: seq<Visit>)
    ensures |r| == |v| + m
    ensures forall i :: 0 <= i < |v| ==> r[i] == v[i]
    ensures forall i :: |v| <= i < |r| ==> r[i] == Visit(at, at, false)
  {
    v + seq(m, i => Visit(at, at, false))
  }

  lemma BurstSnoc(v: seq<Visit>, at: real, m: nat)
    ensures Burst(v, at, m + 1) == Burst(v, at, m) + [Visit(at, at, false)]
    ensures v != [] ==> Unbroken(Burst(v, at, m)) == Burst(Unbroken(v), at, m)
  {
  }

  /** What the bucket would hold at that time. */
  function TokensAt(q: Quota, v: seq<Visit>, at: real): real
    requires v != []
  {
    Refill(After(q, v), q, at).tokens
  }

  lemma NextLevel(q: Quota, v: seq<Visit>, at: real)
    requires v != []
    ensures var next := v + [Visit(at, at, false)];
            && Level(q, next) == TokensAt(q, v, at)
            && TokensAt(q, next, at) ==
                 var x := TokensAt(q, v, at) - if Allowed(q, next) then 1.0 else 0.0;
                 if x < q.capacity then x else q.capacity
  {
    assert (v + [Visit(at, at, false)])[..|v|] == v;
    GainZero(q);
    hide Gain;
  }

  /** Calls at one time take one token each, as long as there are that many. */
  lemma {:induction false} Drain(q: Quota, v: seq<Visit>, at: real, m: nat)
    requires v != [] && m as real <= TokensAt(q, v, at)
    ensures TokensAt(q, Burst(v, at, m), at) == TokensAt(q, v, at) - m as real
  {
    hide Level, Refill, After;
    if m == 0 {
      assert Burst(v, at, 0) == v;
    } else {
      Drain(q, v, at, m - 1);
      BurstSnoc(v, at, m - 1);
      NextLevel(q, Burst(v, at, m - 1), at);
      AtMostFull(q, v, at);
      hide TokensAt, Burst;
    }
  }

  lemma AtMostFull(q: Quota, v: seq<Visit>, at: real)
    requires v != []
    ensures TokensAt(q, v, at) <= q.capacity
  {
    hide Gain, After;
  }

  /** Waiting adds the gain, up to the capacity. */
  lemma WaitGains(q: Quota, v: seq<Visit>, at: real, later: real)
    requires q.rate >= 0.0 && v != [] && at <= later
    ensures TokensAt(q, v, later) ==
              var x := TokensAt(q, v, at) + Gain(q, later - at);
              if x < q.capacity then x else q.capacity
  {
    var b := After(q, v);
    GainSum(q, at - b.last, later - at);
    assert at - b.last + (later - at) == later - b.last;
    GainGrows(q, 0.0, later - at);
    GainZero(q);
    hide Gain, After;
  }

  /** How long it takes to gain x. */
  lemma WaitFor(q: Quota, x: real) returns (wait: real)
    requires q.rate > 0.0 && x >= 0.0
    ensures wait >= 0.0 && Gain(q, wait) == x
  {
    wait := x / q.rate;
    assert wait * q.rate == x;
    if wait < 0.0 {
      GainPositive(q, -wait);
    }
  }

  /** If one history is one whole number of tokens behind another by something less than that, calls made at
      one time and one more a little later tell them apart. */
  lemma {:induction false} Distinguish(q: Quota, v: seq<Visit>, u: seq<Visit>, at: real, m: nat) returns (later: real)
    requires q.rate > 0.0 && q.capacity >= 1.0 && v != [] && u != []
    requires TokensAt(q, v, at) == m as real < TokensAt(q, u, at)
    ensures at <= later && Gain(q, later - at) <= 1.0
    ensures !Allowed(q, Burst(v, at, m) + [Visit(later, later, false)])
    ensures Allowed(q, Burst(u, at, m) + [Visit(later, later, false)])
  {
    hide Level, After, Refill, Burst;
    var x := TokensAt(q, u, at) - m as real;
    var missing := if x < 1.0 then 1.0 - x else 0.0;
    var wait := WaitFor(q, missing);
    later := at + wait;
    assert later - at == wait;
    Drain(q, v, at, m);
    Drain(q, u, at, m);
    var v', u' := Burst(v, at, m), Burst(u, at, m);
    WaitGains(q, v', at, later);
    WaitGains(q, u', at, later);
    NextLevel(q, v', later);
    NextLevel(q, u', later);
    hide TokensAt, Gain;
  }

  /** The fresh bucket of the latest call, and the one it replaced, when the call reads its times that far apart. */
  lemma {:induction false} GapLeaves(q: Quota, v: seq<Visit>)
    requires q.capacity >= 0.0 && q.rate >= 0.0 && History(q, v) && |v| > 1 && v[|v| - 1].isNew
    ensures var x := v[|v| - 1];
            && Level(q, Unbroken(v)) == q.capacity
            && Level(q, v) == q.capacity - Gain(q, x.created - x.now)
  {
    var n := |v| - 1;
    var u := Unbroken(v);
    UnbrokenInit(q, v);
    HistoryInit(q, u);
    LevelStep(q, u);
    LevelStep(q, v);
    IdleIsFull(q, u[..n], v[n].now);
    GainSum(q, v[n].now - v[n].created, v[n].created - v[n].now);
    GainZero(q);
    GainGrows(q, 0.0, v[n].created - v[n].now);
    hide Gain, History, After, Level;
  }

  /** Both admitted, the two buckets differ when the call reads its second time. */
  lemma {:induction false} GapRemains(q: Quota, v: seq<Visit>)
    requires q.capacity >= 1.0 && q.rate > 0.0 && History(q, v) && |v| > 1
    requires var x := v[|v| - 1]; x.isNew && x.now < x.created
    requires Allowed(q, v)
    ensures var at := v[|v| - 1].created;
            Allowed(q, Unbroken(v)) && TokensAt(q, v, at) == q.capacity - 1.0 < TokensAt(q, Unbroken(v), at)
    ensures var x := v[|v| - 1]; Gain(q, x.created - x.now) <= q.capacity - 1.0
  {
    var x := v[|v| - 1];
    GapLeaves(q, v);
    GainPositive(q, x.created - x.now);
    hide Gain, History, Level;
  }

  lemma GainPositive(q: Quota, x: real)
    requires q.rate > 0.0 && x > 0.0
    ensures Gain(q, x) > 0.0
  {
  }

  /** Call i goes to the bucket in use, not before the second clock reading of v's latest call, and not long
      after the call before it. */
  ghost predicate FollowsAt(q: Quota, v: seq<Visit>, more: seq<Visit>, i: int)
    requires v != [] && 0 <= i < |more|
  {
    var before := if i == 0 then v[|v| - 1].now else more[i - 1].now;
    && !more[i].isNew && more[i].created == more[i].now
    && v[|v| - 1].created <= more[i].now
    && before <= more[i].now && Gain(q, more[i].now - before) <= q.capacity
  }

  ghost predicate Follows(q: Quota, v: seq<Visit>, more: seq<Visit>)
    requires v != []
  {
    forall i :: 0 <= i < |more| ==> FollowsAt(q, v, more, i)
  }

  lemma FollowsInit(q: Quota, v: seq<Visit>, more: seq<Visit>)
    requires v != [] && more != [] && Follows(q, v, more)
    ensures Follows(q, v, more[..|more| - 1])
  {
    hide Gain;
    var init := more[..|more| - 1];
    forall i | 0 <= i < |init|
      ensures FollowsAt(q, v, init, i)
    {
      assert FollowsAt(q, v, more, i);
    }
  }

  lemma BurstFollows(q: Quota, v: seq<Visit>, m: nat, later: real)
    requires q.capacity >= 1.0 && q.rate > 0.0 && v != []
    requires var x := v[|v| - 1]; x.now <= x.created <= later && Gain(q, x.created - x.now) <= q.capacity - 1.0
    requires Gain(q, later - v[|v| - 1].created) <= 1.0
    ensures Follows(q, v, Burst([], v[|v| - 1].created, m) + [Visit(later, later, false)])
  {
    var x := v[|v| - 1];
    GainZero(q);
    GainSum(q, x.created - x.now, later - x.created);
    assert x.created - x.now + (later - x.created) == later - x.now;
    hide Gain;
  }

  /** Whenever a bucket is recreated with two different clock readings, some continuation gets an answer it
      would not have got from the bucket that was taken away. */
  lemma {:induction false} GapShows(q: Quota, k: nat, v: seq<Visit>) returns (more: seq<Visit>)
    requires q.capacity == k as real >= 1.0 && q.rate > 0.0 && History(q, v) && |v| > 1
    requires var x := v[|v| - 1]; x.isNew && x.now < x.created
    ensures Allowed(q, v + more) != Allowed(q, Unbroken(v + more)) && Follows(q, v, more)
  {
    hide Level, Gain;
    if Allowed(q, v) {
      GapRemains(q, v);
      var at, u := v[|v| - 1].created, Unbroken(v);
      hide Allowed, TokensAt, History;
      var later := Distinguish(q, v, u, at, k - 1);
      BurstFollows(q, v, k - 1, later);
      var last := Visit(later, later, false);
      more := Burst([], at, k - 1) + [last];
      hide Follows;
      assert v + more == Burst(v, at, k - 1) + [last];
      assert Unbroken(v + more) == Burst(u, at, k - 1) + [last];
    } else {
      more := [];
      assert v + more == v;
      GapLeaves(q, v);
    }
  }
}
