/** Emergency alerts of one user: the checks before an alert is created, the rate limit, and the
    lock that keeps the audit log to one entry per window. */
module SosLimiter {
  import opened Prelude
  import opened FixedWindow

  const MAX_ALERTS := 3
  const WINDOW_MS := 600_000
  const MIN_HOLD_MS := 3000

  datatype Attempt = Attempt(now: int, isBanned: bool, holdDurationMs: Option<int>)

  datatype Audit = Audit(at: int, alertsInWindow: nat)

  /** The Redis keys (counter and admin lock) and the rows written for the user. */
  datatype State = State(log: Log, lock: Option<int>, audits: seq<Audit>)

  datatype Reply = UserBanned | HoldTooShort | RateLimited | Created

  function Verdict(s: State, a: Attempt): Reply {
    if a.isBanned then UserBanned
    else if a.holdDurationMs.Some? && a.holdDurationMs.value < MIN_HOLD_MS then HoldTooShort
    else if Incr(s.log.key, a.now, WINDOW_MS).value > MAX_ALERTS then RateLimited
    else Created
  }

  /** `flagFalseAlarm`: SET NX EX on the lock, and an audit row if it was free. */
  function Flag(s: State, now: int, count: nat): State {
    if s.lock.Some? && now <= s.lock.value then s
    else s.(lock := Some(now + WINDOW_MS), audits := s.audits + [Audit(now, count)])
  }

  function Step(s: State, a: Attempt): State {
    var v := Verdict(s, a);
    if v == UserBanned || v == HoldTooShort then s
    else
      var counted := s.(log := Call(s.log, a.now, MAX_ALERTS, WINDOW_MS));
      if v == RateLimited then Flag(counted, a.now, counted.log.key.value.value) else counted
  }

  class EmergencyService {
    var rateCount: Counter
    var alerts: seq<int>
    var adminNotifyLock: Option<int>
    var audits: seq<Audit>

    function Contents(): State
      reads this
    {
      State(Log(rateCount, alerts), adminNotifyLock, audits)
    }

    constructor ()
      ensures Contents() == State(Log(None, []), None, [])
    {
      rateCount, alerts, adminNotifyLock, audits := None, [], None, [];
    }

    method CreateAlert(now: int, isBanned: bool, holdDurationMs: Option<int>) returns (r: Reply)
      modifies this
      ensures r == Verdict(old(Contents()), Attempt(now, isBanned, holdDurationMs))
      ensures Contents() == Step(old(Contents()), Attempt(now, isBanned, holdDurationMs))
    {
      if isBanned {
        return UserBanned;
      }
      if holdDurationMs.Some? && holdDurationMs.value < MIN_HOLD_MS {
        return HoldTooShort;
      }
      var count := 1;
      if rateCount.Some? && rateCount.value.Live(now) {
        count := rateCount.value.value + 1;
        rateCount := Some(Expiring(count, rateCount.value.expiresAt));
      } else {
        rateCount := Some(Expiring(count, now + WINDOW_MS));
      }
      if count > MAX_ALERTS {
        FlagFalseAlarm(now, count);
        return RateLimited;
      }
      alerts := alerts + [now];
      return Created;
    }

    method FlagFalseAlarm(now: int, count: nat)
      modifies this
      ensures Contents() == Flag(old(Contents()), now, count)
    {
      if adminNotifyLock.Some? && now <= adminNotifyLock.value {
        return;
      }
      adminNotifyLock := Some(now + WINDOW_MS);
      audits := audits + [Audit(now, count)];
    }
  }

  // ---- Traces ----

  function Trace(calls: seq<Attempt>): State {
    if calls == [] then State(Log(None, []), None, [])
    else Step(Trace(calls[..|calls| - 1]), calls[|calls| - 1])
  }

  ghost predicate InTimeOrder(calls: seq<Attempt>) {
    forall i, j :: 0 <= i < j < |calls| ==> calls[i].now <= calls[j].now
  }

  /** The instants of the calls that reach the rate limit. */
  function Counted(calls: seq<Attempt>): seq<int> {
    if calls == [] then []
    else
      var n := |calls| - 1;
      var a := calls[n];
      Counted(calls[..n]) +
        if a.isBanned || (a.holdDurationMs.Some? && a.holdDurationMs.value < MIN_HOLD_MS) then [] else [a.now]
  }

  lemma {:induction false} CountedInOrder(calls: seq<Attempt>)
    requires InTimeOrder(calls)
    ensures Ordered(Counted(calls))
    ensures calls != [] ==> forall i :: 0 <= i < |Counted(calls)| ==> Counted(calls)[i] <= calls[|calls| - 1].now
  {
    if calls != [] {
      CountedInOrder(calls[..|calls| - 1]);
    }
  }

  /** Banned users and short taps never touch the counter. */
  lemma {:induction false} TraceCounts(calls: seq<Attempt>)
    ensures Trace(calls).log == Calls(Counted(calls), MAX_ALERTS, WINDOW_MS)
  {
    hide Call;
    if calls != [] {
      var n := |calls| - 1;
      TraceCounts(calls[..n]);
      CallsAppend(Counted(calls[..n]), calls[n].now, MAX_ALERTS, WINDOW_MS);
      assert Counted(calls[..n]) + [] == Counted(calls[..n]);
    }
  }

  /** A call reaches the rate limit: nobody banned, and no tap shorter than three seconds. */
  predicate Counts(a: Attempt) {
    !a.isBanned && !(a.holdDurationMs.Some? && a.holdDurationMs.value < 3000)
  }

  lemma {:induction false} OneAttempt(s: State, a: Attempt)
    ensures var v, after, counted := Verdict(s, a), Step(s, a), Call(s.log, a.now, MAX_ALERTS, WINDOW_MS);
      && (v == UserBanned <==> a.isBanned)
      && (v == HoldTooShort <==> !a.isBanned && !Counts(a))
      && (!Counts(a) ==> after == s)
      && (Counts(a) ==>
            && after.log == counted
            && (v == RateLimited <==> counted.key.value.value > MAX_ALERTS)
            && after == if v == RateLimited then Flag(s.(log := counted), a.now, counted.key.value.value)
                        else s.(log := counted))
  {
  }

  lemma {:induction false} OneCounted(calls: seq<Attempt>)
    requires calls != []
    ensures var n := |calls| - 1;
      Counted(calls) == if Counts(calls[n]) then Counted(calls[..n]) + [calls[n].now] else Counted(calls[..n])
  {
    var before := Counted(calls[..|calls| - 1]);
    assert before + [] == before;
  }

  /** The number of calls counted in the window of the last one. */
  function CountInWindow(calls: seq<Attempt>): nat
    requires Counted(calls) != []
  {
    |Counted(calls)| - Opener(Counted(calls), 600_000)
  }

  /** What a call is answered, from the calls alone: banned users and taps shorter than three seconds are
      turned away, and of the others exactly the first three of each window of 600 seconds alert. */
  lemma {:induction false} VerdictFromLog(calls: seq<Attempt>)
    requires calls != []
    ensures var n := |calls| - 1; var a, v := calls[n], Verdict(Trace(calls[..n]), calls[n]);
      var tooShort := a.holdDurationMs.Some? && a.holdDurationMs.value < 3000;
      && (v == UserBanned <==> a.isBanned)
      && (v == HoldTooShort <==> !a.isBanned && tooShort)
      && (v == RateLimited <==> !a.isBanned && !tooShort && Counted(calls) != [] && CountInWindow(calls) > 3)
      && Trace(calls).log.passed == Trace(calls[..n]).log.passed + if v == Created then [a.now] else []
  {
    var n := |calls| - 1;
    var before, c := Trace(calls[..n]), Counted(calls);
    OneAttempt(before, calls[n]);
    OneCounted(calls);
    TraceCounts(calls);
    TraceCounts(calls[..n]);
    hide Verdict, Step, Call, Calls, Opener, Counted;
    assert before.log.passed + [] == before.log.passed;
    if Counts(calls[n]) {
      assert c[..|c| - 1] == Counted(calls[..n]);
      WindowFromCalls(c, MAX_ALERTS, WINDOW_MS);
      assert Trace(calls).log.key.value.value == CountInWindow(calls);
    }
  }

  /** The rate-limited calls, each with the number of calls counted in its window. */
  function Limited(calls: seq<Attempt>): seq<Audit> {
    if calls == [] then []
    else
      var n := |calls| - 1;
      Limited(calls[..n])
      + if Counts(calls[n]) && Counted(calls) != [] && CountInWindow(calls) > 3
        then [Audit(calls[n].now, CountInWindow(calls))] else []
  }

  /** Each entry that comes more than 600 seconds after the last one kept. */
  function SpreadOut(audits: seq<Audit>): seq<Audit> {
    if audits == [] then []
    else
      var n := |audits| - 1;
      var kept := SpreadOut(audits[..n]);
      kept + if kept == [] || kept[|kept| - 1].at + 600_000 < audits[n].at then [audits[n]] else []
  }

  lemma {:induction false} SpreadAppend(audits: seq<Audit>, entry: Audit)
    ensures var kept := SpreadOut(audits);
      SpreadOut(audits + [entry])
        == if kept == [] || kept[|kept| - 1].at + 600_000 < entry.at then kept + [entry] else kept
  {
    assert (audits + [entry])[..|audits|] == audits;
    assert SpreadOut(audits) + [] == SpreadOut(audits);
  }

  lemma {:induction false} LimitedStep(calls: seq<Attempt>)
    requires calls != []
    ensures var n := |calls| - 1;
      Limited(calls) == if Counts(calls[n]) && Counted(calls) != [] && CountInWindow(calls) > 3
                        then Limited(calls[..n]) + [Audit(calls[n].now, CountInWindow(calls))]
                        else Limited(calls[..n])
  {
    var before := Limited(calls[..|calls| - 1]);
    assert before + [] == before;
  }

  lemma {:induction false} LockIsLastAudit(calls: seq<Attempt>)
    ensures LockFollows(Trace(calls))
  {
    AuditsSpread(calls);
  }

  /** The lock runs out 600 seconds after the last audit entry. */
  predicate LockFollows(s: State) {
    s.lock == if s.audits == [] then None else Some(s.audits[|s.audits| - 1].at + 600_000)
  }

  lemma {:induction false} FlagsIfSpread(s: State, now: int, count: nat)
    requires LockFollows(s)
    ensures Flag(s, now, count).audits
      == if s.audits == [] || s.audits[|s.audits| - 1].at + 600_000 < now then s.audits + [Audit(now, count)]
         else s.audits
  {
  }

  lemma {:induction false} StepAudits(s: State, a: Attempt, count: nat)
    requires LockFollows(s) && (Counts(a) ==> Call(s.log, a.now, MAX_ALERTS, WINDOW_MS).key.value.value == count)
    ensures Step(s, a).audits
      == if Counts(a) && count > 3 && (s.audits == [] || s.audits[|s.audits| - 1].at + 600_000 < a.now)
         then s.audits + [Audit(a.now, count)] else s.audits
  {
    OneAttempt(s, a);
    FlagsIfSpread(s.(log := Call(s.log, a.now, MAX_ALERTS, WINDOW_MS)), a.now, count);
    hide Verdict, Step, Call, Flag, Counts;
  }

  /** A call adds an audit entry exactly if it is beyond the third of its window and the last entry is
      more than 600 seconds old. */
  lemma {:induction false} AuditStep(calls: seq<Attempt>)
    requires calls != []
    ensures var n := |calls| - 1; var before := Trace(calls[..n]).audits;
      Trace(calls).audits
        == if && Counts(calls[n]) && Counted(calls) != [] && CountInWindow(calls) > 3
              && (before == [] || before[|before| - 1].at + 600_000 < calls[n].now)
           then before + [Audit(calls[n].now, CountInWindow(calls))] else before
  {
    var n := |calls| - 1;
    var before, c := Trace(calls[..n]), Counted(calls);
    var count := if c == [] then 0 else CountInWindow(calls);
    assert Trace(calls) == Step(before, calls[n]);
    LockIsLastAudit(calls[..n]);
    OneCounted(calls);
    CountIsCounter(calls);
    StepAudits(before, calls[n], count);
    hide *;
  }

  lemma {:induction false} CountIsCounter(calls: seq<Attempt>)
    requires calls != []
    ensures var n := |calls| - 1;
      Counts(calls[n]) ==>
        Counted(calls) != []
        && Call(Trace(calls[..n]).log, calls[n].now, MAX_ALERTS, WINDOW_MS).key.value.value == CountInWindow(calls)
  {
    OneAttempt(Trace(calls[..|calls| - 1]), calls[|calls| - 1]);
    OneCounted(calls);
    TraceCounts(calls);
    hide Verdict, Step, Calls, Opener, Counted, Call;
    if Counts(calls[|calls| - 1]) {
      WindowFromCalls(Counted(calls), MAX_ALERTS, WINDOW_MS);
    }
  }

  /** The audit log, from the calls alone: of the rate-limited calls exactly those more than 600 seconds
      after the last entry have one, with the count of their window. */
  lemma {:induction false} AuditsFromLog(calls: seq<Attempt>)
    ensures Trace(calls).audits == SpreadOut(Limited(calls))
  {
    if calls != [] {
      var n := |calls| - 1;
      AuditsFromLog(calls[..n]);
      AuditStep(calls);
      LimitedStep(calls);
      hide Trace, Counted, CountInWindow, Limited, SpreadOut, Counts;
      SpreadAppend(Limited(calls[..n]), Audit(calls[n].now, if Counted(calls) != [] then CountInWindow(calls) else 0));
    }
  }

  /** At most five alerts fall into any 600 seconds, although each window admits three. */
  lemma {:induction false} FiveAlertsPerTenMinutes(calls: seq<Attempt>, t: int, i: nat, j: nat)
    requires InTimeOrder(calls)
    requires var alerts := Trace(calls).log.passed; i <= j < |alerts| && t <= alerts[i] && alerts[j] <= t + WINDOW_MS
    ensures j - i + 1 <= 5
  {
    TraceCounts(calls);
    CountedInOrder(calls);
    IntervalBound(Counted(calls), MAX_ALERTS, WINDOW_MS, t, i, j);
  }

  /** Two rate-limit entries of the audit log are more than 600 seconds apart, and each was written by
      a call beyond the third of its window. */
  lemma {:induction false} OneAuditPerWindow(calls: seq<Attempt>, i: nat, j: nat)
    requires i < j < |Trace(calls).audits|
    ensures Trace(calls).audits[i].at + WINDOW_MS < Trace(calls).audits[j].at
    ensures Trace(calls).audits[i].alertsInWindow > MAX_ALERTS
  {
    AuditsSpread(calls);
  }

  /** Entries are more than 600 seconds apart, each beyond the third call, and the lock follows the last. */
  ghost predicate AuditsApart(s: State) {
    && (forall i, j :: 0 <= i < j < |s.audits| ==> s.audits[i].at + WINDOW_MS < s.audits[j].at)
    && (forall i :: 0 <= i < |s.audits| ==> s.audits[i].alertsInWindow > MAX_ALERTS)
    && LockFollows(s)
  }

  lemma {:induction false} FlagApart(s: State, now: int, count: nat)
    requires AuditsApart(s) && count > MAX_ALERTS
    ensures AuditsApart(Flag(s, now, count))
  {
  }

  lemma {:induction false} ApartStep(s: State, a: Attempt)
    requires AuditsApart(s)
    ensures AuditsApart(Step(s, a))
  {
    var counted := s.(log := Call(s.log, a.now, MAX_ALERTS, WINDOW_MS));
    OneAttempt(s, a);
    assert AuditsApart(counted);
    hide AuditsApart, Verdict, Step, Call, Flag, Counts;
    if counted.log.key.value.value > MAX_ALERTS {
      FlagApart(counted, a.now, counted.log.key.value.value);
    }
  }

  lemma {:induction false} AuditsSpread(calls: seq<Attempt>)
    ensures AuditsApart(Trace(calls))
  {
    hide Step;
    if calls != [] {
      AuditsSpread(calls[..|calls| - 1]);
      ApartStep(Trace(calls[..|calls| - 1]), calls[|calls| - 1]);
      hide AuditsApart;
    }
  }
}
