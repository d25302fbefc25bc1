/** The sliding-window limiter on outbound alerts (telegram/alerts.py). */
module AlertLimiter {

  datatype Priority = Normal | High

  /** The times still inside the window that ends now, oldest first. */
  function Recent(times: seq<real>, now: real, window: real): seq<real> {
    if times == [] then []
    else
      var n := |times| - 1;
      Recent(times[..n], now, window) + if now - times[n] <= window then [times[n]] else []
  }

  /** How many of the times lie in the closed interval from x to y. */
  function CountIn(times: seq<real>, x: real, y: real): nat {
    if times == [] then 0
    else
      var n := |times| - 1;
      CountIn(times[..n], x, y) + if x <= times[n] <= y then 1 else 0
  }

  ghost predicate Sorted(times: seq<real>) {
    forall i, j :: 0 <= i <= j < |times| ==> times[i] <= times[j]
  }

  /** Every message was sent while fewer than `max` earlier ones were still in its window. */
  ghost predicate Disciplined(sent: seq<real>, max: int, window: real) {
    forall i :: 0 <= i < |sent| ==> |Recent(sent[..i], sent[i], window)| < max
  }

  lemma {:induction false} RecentCovers(times: seq<real>, now: real, window: real, x: real, y: real)
    requires now - window <= x
    ensures CountIn(times, x, y) <= |Recent(times, now, window)|
  {
    if times != [] {
      RecentCovers(times[..|times| - 1], now, window, x, y);
    }
  }

  lemma {:induction false} NoneIn(times: seq<real>, x: real, y: real)
    requires forall i :: 0 <= i < |times| ==> times[i] < x
    ensures CountIn(times, x, y) == 0
  {
    if times != [] {
      NoneIn(times[..|times| - 1], x, y);
    }
  }

  /** No closed interval as long as the window holds more than `max` messages. */
  lemma {:induction false} WindowBound(sent: seq<real>, max: int, window: real, x: real, y: real)
    requires Sorted(sent) && Disciplined(sent, max, window)
    requires max >= 0 && y - x <= window
    ensures CountIn(sent, x, y) <= max
  {
    if sent != [] {
      var n := |sent| - 1;
      var before := sent[..n];
      CountSnoc(sent, x, y);
      assert before[..n] == before && |Recent(before, sent[n], window)| < max;
      hide Recent, CountIn;
      if sent[n] > y {
        assert forall i :: 0 <= i < n ==> before[..i] == sent[..i];
        WindowBound(before, max, window, x, y);
      } else if sent[n] < x {
        NoneIn(sent, x, y);
      } else {
        RecentCovers(before, sent[n], window, x, y);
      }
    }
  }

  lemma CountSnoc(times: seq<real>, x: real, y: real)
    requires times != []
    ensures var n := |times| - 1;
            CountIn(times, x, y) == CountIn(times[..n], x, y) + if x <= times[n] <= y then 1 else 0
  {
  }

  /** What has left an earlier window is not in a later one. */
  lemma {:induction false} RecentLater(times: seq<real>, earlier: real, now: real, window: real)
    requires earlier <= now
    ensures Recent(Recent(times, earlier, window), now, window) == Recent(times, now, window)
  {
    if times != [] {
      var n := |times| - 1;
      RecentLater(times[..n], earlier, now, window);
      var kept := Recent(times[..n], earlier, window);
      if earlier - times[n] <= window {
        assert (kept + [times[n]])[..|kept|] == kept;
      } else {
        assert kept + [] == kept;
      }
    }
  }

  lemma {:induction false} RecentDropsHead(times: seq<real>, now: real, window: real)
    requires times != [] && now - times[0] > window
    ensures Recent(times[1..], now, window) == Recent(times, now, window)
  {
    var n := |times| - 1;
    if n > 0 {
      RecentDropsHead(times[..n], now, window);
      assert times[1..][..n - 1] == times[..n][1..];
    }
  }

  lemma {:induction false} RecentAll(times: seq<real>, now: real, window: real)
    requires Sorted(times)
    requires times != [] ==> now - times[0] <= window
    ensures Recent(times, now, window) == times
  {
    if times != [] {
      RecentAll(times[..|times| - 1], now, window);
    }
  }

  lemma {:induction false} RecentSorted(times: seq<real>, now: real, window: real)
    requires Sorted(times)
    ensures Sorted(Recent(times, now, window))
    ensures forall t :: t in Recent(times, now, window) ==> t in times
  {
    if times != [] {
      var n := |times| - 1;
      var rest := Recent(times[..n], now, window);
      RecentSorted(times[..n], now, window);
      forall i | 0 <= i < |rest|
        ensures rest[i] <= times[n]
      {
        assert rest[i] in rest;
      }
    }
  }

  lemma {:induction false} RecentSnoc(times: seq<real>, now: real, window: real)
    ensures Recent(times + [now], now, window)
         == Recent(times, now, window) + if window >= 0.0 then [now] else []
  {
    assert (times + [now])[..|times|] == times;
  }

  /** What any run of sends looks like: in time order, none later than the clock, each one disciplined. */
  ghost predicate History(sent: seq<real>, clock: real, max: int, window: real) {
    && Sorted(sent)
    && (forall i :: 0 <= i < |sent| ==> sent[i] <= clock)
    && Disciplined(sent, max, window)
  }

  lemma {:induction false} HistorySnoc(sent: seq<real>, clock: real, now: real, max: int, window: real)
    requires History(sent, clock, max, window)
    requires sent != [] ==> clock <= now
    ensures History(sent, now, max, window)
    ensures |Recent(sent, now, window)| < max ==> History(sent + [now], now, max, window)
  {
    hide Recent;
    assert forall i :: 0 <= i <= |sent| ==> (sent + [now])[..i] == sent[..i];
    assert sent[..|sent|] == sent;
  }

  /** What is in the window now was in the deque after the last call. */
  lemma {:induction false} PruneExact(sent: seq<real>, clock: real, now: real, max: int, window: real)
    requires History(sent, clock, max, window)
    requires sent != [] ==> clock <= now
    ensures Sorted(Recent(sent, clock, window))
    ensures Recent(Recent(sent, clock, window), now, window) == Recent(sent, now, window)
  {
    if sent != [] {
      RecentLater(sent, clock, now, window);
    }
    RecentSorted(sent, clock, window);
  }

  class TelegramRateLimiter {
    const maxMessages: int
    const windowSeconds: nat
    var timestamps: seq<real>
    /** The times of all normal-priority messages let through so far, and the latest clock reading. */
    ghost var sent: seq<real>
    ghost var clock: real

    constructor (maxMessages: int := 4, windowSeconds: nat := 60)
      ensures Valid() && sent == []
      ensures this.maxMessages == maxMessages && this.windowSeconds == windowSeconds
    {
      this.maxMessages := maxMessages;
      this.windowSeconds := windowSeconds;
      timestamps := [];
      sent := [];
    }

    ghost predicate Valid()
      reads this
    {
      var window := windowSeconds as real;
      && History(sent, clock, maxMessages, window)
      && timestamps == Recent(sent, clock, window)
    }

    /** Drops the times that have left the window. */
    method Prune(now: real)
      requires Sorted(timestamps)
      modifies this`timestamps
      ensures timestamps == Recent(old(timestamps), now, windowSeconds as real)
    {
      ghost var window := windowSeconds as real;
      while timestamps != [] && now - timestamps[0] > windowSeconds as real
        invariant Sorted(timestamps)
        invariant Recent(timestamps, now, window) == Recent(old(timestamps), now, window)
        decreases |timestamps|
      {
        RecentDropsHead(timestamps, now, window);
        timestamps := timestamps[1..];
      }
      RecentAll(timestamps, now, window);
    }

    /** A normal message is refused exactly when `maxMessages` already lie in the window; afterwards
        the deque holds exactly the messages sent in the window that ends now. */
    method Allow(priority: Priority, now: real) returns (allowed: bool)
      requires Valid()
      requires sent != [] ==> clock <= now
      modifies this
      ensures Valid()
      ensures priority == High ==> allowed && timestamps == old(timestamps) && sent == old(sent) && clock == old(clock)
      ensures priority == Normal ==>
                && clock == now
                && (allowed <==> |Recent(old(sent), now, windowSeconds as real)| < maxMessages)
                && sent == old(sent) + (if allowed then [now] else [])
                && timestamps == Recent(sent, now, windowSeconds as real)
    {
      if priority == High {
        return true;
      }
      ghost var window := windowSeconds as real;
      PruneExact(sent, clock, now, maxMessages, window);
      HistorySnoc(sent, clock, now, maxMessages, window);
      RecentSnoc(sent, now, window);
      hide Recent, History;
      Prune(now);
      clock := now;
      if |timestamps| < maxMessages {
        timestamps := timestamps + [now];
        sent := sent + [now];
        return true;
      }
      return false;
    }
  }

  /** The limiter the alerts share: 4 normal messages in any closed minute. */
  method SharedLimiter() returns (limiter: TelegramRateLimiter)
    ensures fresh(limiter) && limiter.Valid() && limiter.sent == []
    ensures limiter.maxMessages == 4 && limiter.windowSeconds == 60
  {
    limiter := new TelegramRateLimiter();
  }
}
