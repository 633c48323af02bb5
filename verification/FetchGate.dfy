/**
 The cap on remote fetches of a watch: a check-and-set on the time of the last
 attempt, done under a lock. The clock is read before the lock is taken, so the
 times may reach the gate in any order.
 */
module FetchGate {

  type WatchId = string

  /** A call that arrives at the gate, or the deletion of a watch. */
  datatype Arrival = Fetch(id: WatchId, now: real) | Forget(id: WatchId)

  function LastOf(last: map<WatchId, real>, id: WatchId): real {
    if id in last then last[id] else 0.0
  }

  predicate Allowed(last: map<WatchId, real>, interval: real, id: WatchId, now: real) {
    !(now - LastOf(last, id) < interval)
  }

  function Step(last: map<WatchId, real>, interval: real, a: Arrival): map<WatchId, real> {
    match a
    case Fetch(id, now) => if Allowed(last, interval, id, now) then last[id := now] else last
    case Forget(id) => last - {id}
  }

  function Run(last: map<WatchId, real>, interval: real, calls: seq<Arrival>, n: nat): map<WatchId, real>
    requires n <= |calls|
  {
    if n == 0 then last else Step(Run(last, interval, calls, n - 1), interval, calls[n - 1])
  }

  /** The attempts, failed fetches included, that the first `n` calls make for one watch. */
  function Attempts(last: map<WatchId, real>, interval: real, calls: seq<Arrival>, n: nat, id: WatchId): seq<real>
    requires n <= |calls|
  {
    if n == 0 then []
    else
      var before := Attempts(last, interval, calls, n - 1, id);
      match calls[n - 1]
      case Fetch(i, now) =>
        if i == id && Allowed(Run(last, interval, calls, n - 1), interval, i, now) then before + [now] else before
      case Forget(_) => before
  }

  class Gate {
    const interval: real
    var lastFetch: map<WatchId, real>

    constructor (interval: real)
      ensures this.interval == interval && lastFetch == map[]
    {
      this.interval := interval;
      lastFetch := map[];
    }

    /** The locked part of a fetch: whether this call may contact the remote. */
    method MaybeFetch(id: WatchId, now: real) returns (allowed: bool)
      modifies this
      ensures lastFetch == Step(old(lastFetch), interval, Fetch(id, now))
      ensures allowed <==> Allowed(old(lastFetch), interval, id, now)
    {
      var last := if id in lastFetch then lastFetch[id] else 0.0;
      if now - last < interval {
        return false;
      }
      lastFetch := lastFetch[id := now];
      allowed := true;
    }

    /** Deleting a watch drops its entry. */
    method Forget(id: WatchId)
      modifies this
      ensures lastFetch == Step(old(lastFetch), interval, Arrival.Forget(id))
    {
      lastFetch := lastFetch - {id};
    }
  }

  /** The last attempt is what the table remembers, as long as the watch is not deleted. */
  lemma {:induction false} TableRemembersLast(interval: real, calls: seq<Arrival>, n: nat, id: WatchId)
    requires n <= |calls| && Forget(id) !in calls
    ensures var times := Attempts(map[], interval, calls, n, id);
            LastOf(Run(map[], interval, calls, n), id) == if times == [] then 0.0 else times[|times| - 1]
  {
    if n > 0 {
      TableRemembersLast(interval, calls, n - 1, id);
    }
  }

  /** The length of `k` intervals. */
  ghost function Intervals(k: nat, interval: real): real {
    if k == 0 then 0.0 else Intervals(k - 1, interval) + interval
  }

  /** The first attempt waits one interval from time zero; later ones one interval for each step between them. */
  ghost predicate Spaced(times: seq<real>, interval: real) {
    && (|times| > 0 ==> times[0] >= interval)
    && forall i, j :: 0 <= i < j < |times| ==> times[j] - times[i] >= Intervals(j - i, interval)
  }

  lemma SpacedSnoc(times: seq<real>, interval: real, now: real)
    requires Spaced(times, interval)
    requires now - (if times == [] then 0.0 else times[|times| - 1]) >= interval
    ensures Spaced(times + [now], interval)
  {
    var longer, n := times + [now], |times|;
    forall i, j | 0 <= i < j < |longer|
      ensures longer[j] - longer[i] >= Intervals(j - i, interval)
    {
      if j == n {
        assert i < n - 1 ==> times[n - 1] - times[i] >= Intervals(n - 1 - i, interval);
      }
    }
  }

  /**
   Whatever the order in which the clock readings arrive, and however the calls
   of other watches and threads are mixed in, any two attempts for a watch that is
   not deleted are at least one interval apart for each step between them.
   */
  lemma {:induction false} AttemptsAreSpaced(interval: real, calls: seq<Arrival>, n: nat, id: WatchId)
    requires interval > 0.0 && n <= |calls| && Forget(id) !in calls
    ensures Spaced(Attempts(map[], interval, calls, n, id), interval)
  {
    if n > 0 {
      AttemptsAreSpaced(interval, calls, n - 1, id);
      TableRemembersLast(interval, calls, n - 1, id);
      var before := Attempts(map[], interval, calls, n - 1, id);
      if Attempts(map[], interval, calls, n, id) != before {
        SpacedSnoc(before, interval, calls[n - 1].now);
      }
    }
  }

  /** A call is let through exactly when it is due: one interval after the last attempt, or after time zero. */
  lemma {:induction false} AttemptIsMadeWhenDue(interval: real, calls: seq<Arrival>, n: nat, id: WatchId, now: real)
    requires n < |calls| && calls[n] == Fetch(id, now) && Forget(id) !in calls
    ensures var times := Attempts(map[], interval, calls, n, id);
            var last := if times == [] then 0.0 else times[|times| - 1];
            Attempts(map[], interval, calls, n + 1, id) == if now >= last + interval then times + [now] else times
  {
    TableRemembersLast(interval, calls, n, id);
  }

  /** A window of length `t` holds at most floor(t / interval) + 1 attempts: those from `i` to `j`. */
  lemma WindowIsCapped(interval: real, calls: seq<Arrival>, id: WatchId, i: nat, j: nat, start: real, t: real)
    requires interval > 0.0 && t >= 0.0 && Forget(id) !in calls
    requires i <= j < |Attempts(map[], interval, calls, |calls|, id)|
    requires start <= Attempts(map[], interval, calls, |calls|, id)[i]
    requires Attempts(map[], interval, calls, |calls|, id)[j] <= start + t
    ensures j - i + 1 <= (t / interval).Floor + 1
  {
    AttemptsAreSpaced(interval, calls, |calls|, id);
    var times := Attempts(map[], interval, calls, |calls|, id);
    if i < j {
      IntervalsAreProduct(j - i, interval);
      DivideBySpacing(j - i, interval, t);
    }
  }

  lemma {:induction false} IntervalsAreProduct(k: nat, interval: real)
    ensures Intervals(k, interval) == k as real * interval
  {
    if k == 0 {
      Distribute(0.0, 0.0, interval);
    } else {
      IntervalsAreProduct(k - 1, interval);
      Distribute((k - 1) as real, 1.0, interval);
    }
  }

  lemma Distribute(a: real, b: real, x: real)
    ensures (a + b) * x == a * x + b * x
  {
  }

  lemma DivideBySpacing(k: nat, interval: real, t: real)
    requires interval > 0.0 && k as real * interval <= t
    ensures k <= (t / interval).Floor
  {
    assert (t / interval) * interval == t;
    assert k as real <= t / interval;
  }
}
