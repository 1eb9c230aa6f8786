/** The Redis counter behind the rate limits: INCR, and an expiry set by the first increment. */
module FixedWindow {
  import opened Prelude

  type Counter = Option<Expiring<nat>>

  /** `INCR`, then `EXPIRE` if the result is 1: an expired key starts again, a live one keeps its expiry. */
  function Incr(key: Counter, now: int, window: nat): Expiring<nat> {
    if key.Some? && key.value.Live(now) then Expiring(key.value.value + 1, key.value.expiresAt)
    else Expiring(1, now + window)
  }

  /** The counter, and the instants of the calls that were let through. */
  datatype Log = Log(key: Counter, passed: seq<int>)

  function Call(l: Log, now: int, limit: nat, window: nat): Log {
    var key := Incr(l.key, now, window);
    Log(Some(key), if key.value <= limit then l.passed + [now] else l.passed)
  }

  function Calls(times: seq<int>, limit: nat, window: nat): Log {
    if times == [] then Log(None, [])
    else Call(Calls(times[..|times| - 1], limit, window), times[|times| - 1], limit, window)
  }

  ghost predicate Ordered(times: seq<int>) {
    forall i, j :: 0 <= i < j < |times| ==> times[i] <= times[j]
  }

  function Min(a: nat, b: nat): nat {
    if a < b then a else b
  }

  /** Calls let through since the current window opened. */
  function InWindow(l: Log, limit: nat): nat
    requires l.key.Some?
  {
    Min(l.key.value.value, limit)
  }

  /** Index of the passed call that opened the current window. */
  function Opening(l: Log, limit: nat): int
    requires l.key.Some?
  {
    |l.passed| - InWindow(l, limit)
  }

  /** The current window opened with a passed call and contains everything passed since. */
  ghost predicate WindowOpen(l: Log, limit: nat, window: nat) {
    if l.key.None? then l.passed == []
    else
      var first := Opening(l, limit);
      && l.key.value.value >= 1 && 0 <= first < |l.passed|
      && l.passed[first] == l.key.value.expiresAt - window
      && l.passed[|l.passed| - 1] <= l.key.value.expiresAt
      && (forall i :: 0 <= i < first ==> l.passed[i] < l.passed[first])
      && (forall i :: 0 <= i < |l.passed| && i + limit <= first ==> l.passed[i] + window < l.passed[first])
  }

  /** Calls 2 * limit - 1 places apart are further apart than a window. */
  ghost predicate Spaced(passed: seq<int>, limit: nat, window: nat)
    requires limit >= 1
  {
    forall i, j :: 0 <= i < |passed| && 0 <= j < |passed| && i + 2 * limit - 1 <= j ==> passed[i] + window < passed[j]
  }

  ghost predicate Paced(l: Log, limit: nat, window: nat, last: int)
    requires limit >= 1
  {
    && Ordered(l.passed)
    && (l.passed != [] ==> l.passed[|l.passed| - 1] <= last)
    && WindowOpen(l, limit, window)
    && Spaced(l.passed, limit, window)
  }

  lemma {:induction false} SpacedAppend(passed: seq<int>, limit: nat, window: nat, now: int)
    requires limit >= 1 && Spaced(passed, limit, window)
    requires forall i :: 0 <= i < |passed| && i + 2 * limit - 1 <= |passed| ==> passed[i] + window < now
    ensures Spaced(passed + [now], limit, window)
  {
  }

  lemma {:induction false} OrderedAppend(passed: seq<int>, now: int)
    requires Ordered(passed) && (passed != [] ==> passed[|passed| - 1] <= now)
    ensures Ordered(passed + [now])
    ensures forall i :: 0 <= i < |passed| ==> passed[i] <= now
  {
  }

  /** While the window is open, everything at least 2 * limit - 1 places back is out of its reach. */
  lemma {:induction false} WithinReach(l: Log, limit: nat, window: nat, now: int)
    requires limit >= 1 && WindowOpen(l, limit, window) && l.key.Some? && l.key.value.value < limit
    requires l.key.value.expiresAt - window <= now
    ensures forall i :: 0 <= i < |l.passed| && i + 2 * limit - 1 <= |l.passed| ==> l.passed[i] + window < now
  {
    var first := Opening(l, limit);
    forall i | 0 <= i < |l.passed| && i + 2 * limit - 1 <= |l.passed|
      ensures l.passed[i] + window < now
    {
      assert i + limit <= first;
      assert l.passed[i] + window < l.passed[first];
    }
  }

  /** When a window is over, everything at least `limit` places back is more than a window old. */
  lemma {:induction false} BeyondReach(l: Log, limit: nat, window: nat, now: int)
    requires limit >= 1 && Ordered(l.passed) && WindowOpen(l, limit, window)
    requires l.key.Some? && !l.key.value.Live(now)
    ensures forall i :: 0 <= i < |l.passed| ==>
      l.passed[i] < now && (i + limit <= |l.passed| ==> l.passed[i] + window < now)
  {
    var first := Opening(l, limit);
    forall i | 0 <= i < |l.passed|
      ensures l.passed[i] < now && (i + limit <= |l.passed| ==> l.passed[i] + window < now)
    {
      if i + limit <= |l.passed| {
        assert i <= first;
        assert l.passed[i] <= l.passed[first];
      }
      assert l.passed[i] <= l.passed[|l.passed| - 1];
    }
  }

  lemma {:induction false} OpenWithin(l: Log, limit: nat, window: nat, now: int)
    requires limit >= 1 && WindowOpen(l, limit, window) && l.key.Some? && l.key.value.Live(now)
    ensures WindowOpen(Call(l, now, limit, window), limit, window)
  {
    var after := Call(l, now, limit, window);
    assert Opening(after, limit) == Opening(l, limit);
  }

  lemma {:induction false} OpenAnew(l: Log, limit: nat, window: nat, now: int)
    requires limit >= 1 && (l.key.None? || !l.key.value.Live(now))
    requires forall i :: 0 <= i < |l.passed| ==>
      l.passed[i] < now && (i + limit <= |l.passed| ==> l.passed[i] + window < now)
    ensures WindowOpen(Call(l, now, limit, window), limit, window)
  {
    assert Opening(Call(l, now, limit, window), limit) == |l.passed|;
  }

  /** A call within the open window. */
  lemma {:induction false} PacedWithin(l: Log, limit: nat, window: nat, last: int, now: int)
    requires limit >= 1 && last <= now && Paced(l, limit, window, last)
    requires l.key.Some? && l.key.value.Live(now)
    ensures Paced(Call(l, now, limit, window), limit, window, now)
  {
    OpenWithin(l, limit, window, now);
    if l.key.value.value < limit {
      assert l.key.value.expiresAt - window <= now;
      hide WindowOpen, Spaced, Ordered;
      WithinReach(l, limit, window, now);
      SpacedAppend(l.passed, limit, window, now);
      OrderedAppend(l.passed, now);
    }
  }

  /** A call that opens a window. */
  lemma {:induction false} PacedOpening(l: Log, limit: nat, window: nat, last: int, now: int)
    requires limit >= 1 && last <= now && Paced(l, limit, window, last)
    requires l.key.None? || !l.key.value.Live(now)
    ensures Paced(Call(l, now, limit, window), limit, window, now)
  {
    if l.key.Some? {
      BeyondReach(l, limit, window, now);
    }
    OpenAnew(l, limit, window, now);
    SpacedAppend(l.passed, limit, window, now);
    OrderedAppend(l.passed, now);
    hide WindowOpen, Spaced, Ordered;
  }

  lemma {:induction false} PacedCall(l: Log, limit: nat, window: nat, last: int, now: int)
    requires limit >= 1 && last <= now && Paced(l, limit, window, last)
    ensures Paced(Call(l, now, limit, window), limit, window, now)
  {
    if l.key.Some? && l.key.value.Live(now) {
      PacedWithin(l, limit, window, last, now);
    } else {
      PacedOpening(l, limit, window, last, now);
    }
  }

  lemma {:induction false} CallsPaced(times: seq<int>, limit: nat, window: nat)
    requires limit >= 1 && Ordered(times) && times != []
    ensures Paced(Calls(times, limit, window), limit, window, times[|times| - 1])
  {
    hide Paced, Call;
    var n := |times| - 1;
    var l := Calls(times[..n], limit, window);
    assert Paced(l, limit, window, times[n]) by {
      EmptyPaced(limit, window, times[n]);
      if n > 0 {
        CallsPaced(times[..n], limit, window);
        PacedLater(l, limit, window, times[n - 1], times[n]);
      }
    }
    PacedCall(l, limit, window, times[n], times[n]);
  }

  lemma {:induction false} EmptyPaced(limit: nat, window: nat, last: int)
    requires limit >= 1
    ensures Paced(Log(None, []), limit, window, last)
  {
  }

  lemma {:induction false} PacedLater(l: Log, limit: nat, window: nat, last: int, later: int)
    requires limit >= 1 && Paced(l, limit, window, last) && last <= later
    ensures Paced(l, limit, window, later)
  {
  }

  /** Over any trace of calls in time order: no closed interval as long as the window holds more than
      2 * limit - 1 of the calls that were let through. */
  lemma {:induction false} IntervalBound(times: seq<int>, limit: nat, window: nat, t: int, i: nat, j: nat)
    requires limit >= 1 && Ordered(times)
    requires var passed := Calls(times, limit, window).passed;
      i <= j < |passed| && t <= passed[i] && passed[j] <= t + window
    ensures j - i + 1 <= 2 * limit - 1
  {
    CallsPaced(times, limit, window);
  }

  /** At most `limit` calls pass while one window is open. */
  lemma {:induction false} PerWindowBound(times: seq<int>, limit: nat, window: nat, i: nat)
    requires limit >= 1 && Ordered(times) && times != []
    requires var l := Calls(times, limit, window); i < |l.passed| && l.passed[i] >= l.key.value.expiresAt - window
    ensures |Calls(times, limit, window).passed| - i <= limit
  {
    CallsPaced(times, limit, window);
  }

  /** With a limit of one, calls that pass are more than a window apart, and the counter's expiry is
      one window after the last of them. */
  lemma {:induction false} OneAtATime(times: seq<int>, window: nat)
    requires Ordered(times)
    ensures var l := Calls(times, 1, window);
      && (forall i, j :: 0 <= i < j < |l.passed| ==> l.passed[i] + window < l.passed[j])
      && (l.key.Some? <==> l.passed != [])
      && (l.key.Some? ==> l.key.value.value >= 1 && l.key.value.expiresAt == l.passed[|l.passed| - 1] + window)
  {
    if times != [] {
      CallsPaced(times, 1, window);
      hide Calls;
      var l := Calls(times, 1, window);
      assert l.key.Some? ==> InWindow(l, 1) == 1;
    }
  }

  /** With a limit of one, the next call passes exactly if none passed within a window before it. */
  lemma {:induction false} OneAtATimeNext(times: seq<int>, now: int, window: nat)
    requires Ordered(times)
    ensures var passed := Calls(times, 1, window).passed;
      Calls(times + [now], 1, window).passed
        == passed + if passed == [] || passed[|passed| - 1] + window < now then [now] else []
  {
    OneAtATime(times, window);
    CallsAppend(times, now, 1, window);
    hide Calls, Ordered;
    assert Calls(times, 1, window).passed + [] == Calls(times, 1, window).passed;
  }

  /** Being rejected neither extends the window nor outlasts it: a call passes exactly if the window
      is over or not used up, and only a call that opens a window sets an expiry. */
  lemma {:induction false} RejectionDoesNotExtend(l: Log, now: int, limit: nat, window: nat)
    requires limit >= 1
    ensures var after := Call(l, now, limit, window); var open := l.key.Some? && l.key.value.Live(now);
      && (after.passed == l.passed + [now] <==> !open || l.key.value.value < limit)
      && after.key.value.expiresAt == if open then l.key.value.expiresAt else now + window
  {
    assert |l.passed + [now]| == |l.passed| + 1;
  }

  /** Index of the call that opened the window of the last one: a call opens a window if it comes after
      the end of the one before. */
  function Opener(times: seq<int>, window: nat): (o: nat)
    requires times != []
    ensures o < |times|
  {
    var n := |times| - 1;
    if n == 0 then 0
    else
      var o := Opener(times[..n], window);
      if times[n] <= times[o] + window then o else n
  }

  /** The counter, from the calls alone: it counts those since the opening of the window, and a call
      passes exactly if it is among the first `limit` of them. */
  lemma {:induction false} WindowFromCalls(times: seq<int>, limit: nat, window: nat)
    requires times != []
    ensures var l, o, n := Calls(times, limit, window), Opener(times, window), |times| - 1;
      && l.key == Some(Expiring(|times| - o, times[o] + window))
      && l.passed == Calls(times[..n], limit, window).passed + if n - o < limit then [times[n]] else []
  {
    var n := |times| - 1;
    var passed := Calls(times[..n], limit, window).passed;
    assert passed + [] == passed;
    if n > 0 {
      WindowFromCalls(times[..n], limit, window);
    }
  }

  function Burst(t: int, n: nat): seq<int> {
    seq(n, _ => t)
  }

  /** Calls at one instant that the open window still has room for all pass. */
  lemma {:induction false} BurstPasses(times: seq<int>, t: int, n: nat, limit: nat, window: nat)
    requires var l := Calls(times, limit, window); l.key.Some? && l.key.value.Live(t) && l.key.value.value + n <= limit
    ensures var l := Calls(times, limit, window);
      Calls(times + Burst(t, n), limit, window)
        == Log(Some(Expiring(l.key.value.value + n, l.key.value.expiresAt)), l.passed + Burst(t, n))
  {
    var l := Calls(times, limit, window);
    if n == 0 {
      assert times + Burst(t, n) == times && l.passed + Burst(t, n) == l.passed;
    } else {
      BurstPasses(times, t, n - 1, limit, window);
      CallsAppend(times + Burst(t, n - 1), t, limit, window);
      assert Burst(t, n) == Burst(t, n - 1) + [t];
      ConcatAssociates(times, Burst(t, n - 1), [t]);
      ConcatAssociates(l.passed, Burst(t, n - 1), [t]);
    }
  }

  /** One call opens a window, `limit - 1` use it up at its last instant, and `limit` more follow one
      millisecond later. */
  function Crowd(limit: nat, window: nat): seq<int>
    requires limit >= 1
  {
    [0] + Burst(window, limit - 1) + [window + 1] + Burst(window + 1, limit - 1)
  }

  /** The interval bound is reached for every limit: all calls of the crowd pass, and all but the first
      fall into one closed interval as long as the window. */
  lemma {:induction false} IntervalBoundIsTight(limit: nat, window: nat)
    requires limit >= 1 && window >= 1
    ensures Ordered(Crowd(limit, window)) && Calls(Crowd(limit, window), limit, window).passed == Crowd(limit, window)
    ensures |Crowd(limit, window)| == 2 * limit
    ensures forall i :: 1 <= i < 2 * limit ==> 1 <= Crowd(limit, window)[i] <= 1 + window
  {
    CrowdShape(limit, window);
    WindowUsedUp(limit, window);
    NextWindowOpens([0] + Burst(window, limit - 1), limit, window);
    hide Burst, Calls, Ordered;
    BurstPasses([0] + Burst(window, limit - 1) + [window + 1], window + 1, limit - 1, limit, window);
  }

  lemma {:induction false} WindowUsedUp(limit: nat, window: nat)
    requires limit >= 1
    ensures var first := [0] + Burst(window, limit - 1);
      Calls(first, limit, window) == Log(Some(Expiring(limit, window)), first)
  {
    FirstCall(limit, window);
    hide Burst, Calls;
    BurstPasses([0], window, limit - 1, limit, window);
  }

  lemma {:induction false} NextWindowOpens(first: seq<int>, limit: nat, window: nat)
    requires limit >= 1 && Calls(first, limit, window) == Log(Some(Expiring(limit, window)), first)
    ensures Calls(first + [window + 1], limit, window)
      == Log(Some(Expiring(1, window + 1 + window)), first + [window + 1])
  {
    CallsAppend(first, window + 1, limit, window);
    hide Calls;
  }

  lemma {:induction false} FirstCall(limit: nat, window: nat)
    requires limit >= 1
    ensures Calls([0], limit, window) == Log(Some(Expiring(1, window)), [0])
  {
    CallsAppend([], 0, limit, window);
    assert [] + [0] == [0];
  }

  lemma {:induction false} CrowdShape(limit: nat, window: nat)
    requires limit >= 1 && window >= 1
    ensures Ordered(Crowd(limit, window)) && |Crowd(limit, window)| == 2 * limit
    ensures forall i :: 1 <= i < 2 * limit ==> 1 <= Crowd(limit, window)[i] <= 1 + window
  {
    var crowd := Crowd(limit, window);
    assert forall i :: 0 <= i < 2 * limit ==>
      crowd[i] == if i == 0 then 0 else if i < limit then window else window + 1;
    hide Crowd;
  }

  lemma {:induction false} CallsAppend(times: seq<int>, now: int, limit: nat, window: nat)
    ensures Calls(times + [now], limit, window) == Call(Calls(times, limit, window), now, limit, window)
  {
    assert (times + [now])[..|times|] == times;
  }
}
