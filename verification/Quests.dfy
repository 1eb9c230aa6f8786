/** The quest engine: progress rows with lazily reset periods, the XP ledger and badges.
    One `GamificationService` object holds the rows that belong to one user. */
module Quests {
  import opened Prelude
  import opened Calendar

  datatype Quest = Quest(id: string, targetValue: int, xpReward: nat, badgeId: Option<string>,
                         repeatable: bool, resetPeriod: Period)

  datatype Progress = Progress(progress: int, completed: bool, completedAt: Option<int>, resetAt: Option<int>)

  /** What `triggerQuest` returns for a completed quest. */
  datatype Award = Award(questId: string, xpAwarded: nat, newUserLevel: nat, newUserXp: nat,
                         badgeUnlocked: Option<string>)

  /** A user's rows; `badges` maps a badge to the quest that first unlocked it. */
  datatype Account = Account(xp: nat, level: int, progress: map<string, Progress>, badges: map<string, string>)

  // ---- Levels ----

  /** Integer part of a square root. */
  function FloorSqrt(x: real, k: nat := 0): (r: nat)
    requires (k * k) as real <= x
    ensures (r * r) as real <= x < ((r + 1) * (r + 1)) as real
    decreases x.Floor - k
  {
    if ((k + 1) * (k + 1)) as real <= x then
      SquareAboveRoot(k + 1, x);
      FloorSqrt(x, k + 1)
    else k
  }

  lemma SquareAboveRoot(k: nat, x: real)
    requires (k * k) as real <= x
    ensures k <= x.Floor
  {
    assert k <= k * k;
  }

  function LevelFor(xp: nat): (level: nat)
  {
    FloorSqrt(xp as real / 50.0) + 1
  }

  lemma {:induction false} LevelBounds(xp: nat)
    ensures var k := LevelFor(xp) - 1; k >= 0 && 50 * (k * k) <= xp < 50 * ((k + 1) * (k + 1))
  {
    var k := FloorSqrt(xp as real / 50.0);
    var low, high := k * k, (k + 1) * (k + 1);
    assert low as real <= xp as real / 50.0 < high as real;
    assert (50 * low) as real <= xp as real < (50 * high) as real;
  }

  lemma {:induction false} SquareMonotone(a: nat, b: nat)
    requires a <= b
    ensures a * a <= b * b
  {
    assert a * a <= a * b <= b * b;
  }

  /** `level` is the unique n with 50(n-1)^2 <= xp < 50n^2. */
  lemma {:induction false} LevelBracket(xp: nat, n: nat)
    ensures n >= 1 && 50 * ((n - 1) * (n - 1)) <= xp < 50 * (n * n) <==> n == LevelFor(xp)
  {
    LevelBounds(xp);
    var r := LevelFor(xp);
    if 1 <= n < r {
      SquareMonotone(n, r - 1);
    } else if r < n {
      SquareMonotone(r, n - 1);
    }
  }

  // ---- One quest row ----

  predicate WasAlreadyCompleted(existing: Option<Progress>, q: Quest) {
    existing.Some? && existing.value.completed && !q.repeatable
  }

  predicate ResetDue(existing: Option<Progress>, q: Quest, now: int) {
    existing.Some? && q.repeatable && existing.value.resetAt.Some? && existing.value.resetAt.value <= now
  }

  /** The row that one trigger upserts. */
  function Upserted(existing: Option<Progress>, q: Quest, increment: int, now: int): Progress {
    var progress := if existing.None? || ResetDue(existing, q, now) then increment
                    else existing.value.progress + increment;
    var resetAt := if ResetDue(existing, q, now) || (existing.None? && q.repeatable) then NextReset(now, q.resetPeriod)
                   else if existing.Some? then existing.value.resetAt else None;
    var completedNow := progress >= q.targetValue;
    var completedAt := if completedNow then Some(now)
                       else if existing.Some? then existing.value.completedAt else None;
    Progress(progress, completedNow, completedAt, resetAt)
  }

  function Row(a: Account, id: string): Option<Progress> {
    if id in a.progress then Some(a.progress[id]) else None
  }

  /** The row after one trigger. */
  function RowAfter(row: Option<Progress>, q: Quest, increment: int, now: int): Progress {
    if WasAlreadyCompleted(row, q) then row.value else Upserted(row, q, increment, now)
  }

  /** Whether one trigger pays. */
  predicate Pays(row: Option<Progress>, q: Quest, increment: int, now: int) {
    !WasAlreadyCompleted(row, q) && Upserted(row, q, increment, now).completed
  }

  // ---- One trigger of one quest, and of all quests of a call ----

  /** What the loop body does after it has read the row `read`. */
  function TriggerRead(a: Account, read: Option<Progress>, q: Quest, increment: int, now: int): (Account, seq<Award>) {
    if WasAlreadyCompleted(read, q) then (a, [])
    else
      var a1 := a.(progress := a.progress[q.id := Upserted(read, q, increment, now)]);
      if !Pays(read, q, increment, now) then (a1, [])
      else
        var xp := a.xp + q.xpReward;
        var unlocks := q.badgeId.Some? && q.badgeId.value !in a.badges;
        var badges := if unlocks then a.badges[q.badgeId.value := q.id] else a.badges;
        (a1.(xp := xp, level := LevelFor(xp), badges := badges), [Award(q.id, q.xpReward, LevelFor(xp), xp, q.badgeId)])
  }

  function TriggerOne(a: Account, q: Quest, increment: int, now: int): (Account, seq<Award>) {
    TriggerRead(a, Row(a, q.id), q, increment, now)
  }

  /** One iteration of the loop of `triggerQuest`: the quest, the payload's increment and the
      clock read in that iteration. */
  datatype Step = Step(quest: Quest, increment: int, now: int)

  /** The iterations of one call, in the order in which the database returned the quests. */
  function Steps(quests: seq<Quest>, increment: int, nows: seq<int>): seq<Step>
    requires |nows| == |quests|
  {
    seq(|quests|, i requires 0 <= i < |quests| => Step(quests[i], increment, nows[i]))
  }

  /** Any succession of iterations, from any number of calls. */
  function Run(a: Account, steps: seq<Step>): (Account, seq<Award>) {
    if steps == [] then (a, [])
    else
      var n := |steps| - 1;
      var (b, awards) := Run(a, steps[..n]);
      var (c, last) := TriggerOne(b, steps[n].quest, steps[n].increment, steps[n].now);
      (c, awards + last)
  }

  class GamificationService {
    var xp: nat
    var level: int
    var progress: map<string, Progress>
    var badges: map<string, string>

    ghost function Rows(): Account
      reads this
    {
      Account(xp, level, progress, badges)
    }

    /** Schema defaults of a new user row. */
    constructor ()
      ensures Rows() == Account(0, 1, map[], map[])
    {
      xp, level := 0, 1;
      progress, badges := map[], map[];
    }

    /** The loop body of `triggerQuest`. */
    method TriggerQuestRow(quest: Quest, increment: int, now: int) returns (completed: seq<Award>)
      modifies this
      ensures (Rows(), completed) == TriggerOne(old(Rows()), quest, increment, now)
    {
      hide NextReset, LevelFor;
      completed := [];
      var existing := if quest.id in progress then Some(progress[quest.id]) else None;
      var p := (if existing.Some? then existing.value.progress else 0) + increment;
      var resetAt := if existing.Some? then existing.value.resetAt else None;
      if existing.Some? && quest.repeatable && existing.value.resetAt.Some? && existing.value.resetAt.value <= now {
        p := increment;
        resetAt := NextResetAt(now, quest.resetPeriod);
      } else if existing.None? && quest.repeatable {
        resetAt := NextResetAt(now, quest.resetPeriod);
      }
      if existing.Some? && existing.value.completed && !quest.repeatable {
        return;
      }
      var completedNow := p >= quest.targetValue;
      var completedAt := if completedNow then Some(now)
                         else if existing.Some? then existing.value.completedAt else None;
      progress := progress[quest.id := Progress(p, completedNow, completedAt, resetAt)];
      if !completedNow {
        return;
      }
      xp := xp + quest.xpReward;
      level := LevelFor(xp);
      if quest.badgeId.Some? && quest.badgeId.value !in badges {
        badges := badges[quest.badgeId.value := quest.id];
      }
      completed := [Award(quest.id, quest.xpReward, level, xp, quest.badgeId)];
    }

    method TriggerQuest(quests: seq<Quest>, increment: Option<int>, nows: seq<int>) returns (completed: seq<Award>)
      requires |nows| == |quests|
      modifies this
      ensures (Rows(), completed) == Run(old(Rows()), Steps(quests, increment.GetOr(1), nows))
    {
      completed := [];
      ghost var steps := Steps(quests, increment.GetOr(1), nows);
      for i := 0 to |quests|
        invariant (Rows(), completed) == Run(old(Rows()), steps[..i])
      {
        assert steps[..i + 1][..i] == steps[..i];
        var awards := TriggerQuestRow(quests[i], increment.GetOr(1), nows[i]);
        completed := completed + awards;
      }
      assert steps[..|quests|] == steps;
    }
  }

  lemma {:induction false} RunLast(a: Account, steps: seq<Step>, x: Step)
    ensures Run(a, steps + [x]) ==
      (var (b, awards) := Run(a, steps);
       var (c, last) := TriggerOne(b, x.quest, x.increment, x.now);
       (c, awards + last))
  {
    assert (steps + [x])[..|steps|] == steps;
  }

  /** Calls compose: a run of two calls is the run of their iterations. */
  lemma {:induction false} RunAppend(a: Account, s: seq<Step>, t: seq<Step>)
    ensures Run(a, s + t) == (var (b, first) := Run(a, s); var (c, second) := Run(b, t); (c, first + second))
  {
    hide TriggerOne;
    if t == [] {
      assert s + t == s;
      assert Run(a, s).1 + [] == Run(a, s).1;
    } else {
      var n := |t| - 1;
      RunAppend(a, s, t[..n]);
      RunLast(a, s + t[..n], t[n]);
      RunLast(Run(a, s).0, t[..n], t[n]);
      assert s + t == (s + t[..n]) + [t[n]] && t == t[..n] + [t[n]];
      var (b, first) := Run(a, s);
      var (c, second) := Run(b, t[..n]);
      ConcatAssociates(first, second, TriggerOne(c, t[n].quest, t[n].increment, t[n].now).1);
    }
  }

  // ---- The XP ledger ----

  function XpSum(awards: seq<Award>): nat {
    if awards == [] then 0 else XpSum(awards[..|awards| - 1]) + awards[|awards| - 1].xpAwarded
  }

  lemma {:induction false} XpSumAppend(a: seq<Award>, x: Award)
    ensures XpSum(a + [x]) == XpSum(a) + x.xpAwarded
  {
    assert (a + [x])[..|a|] == a;
  }

  /** Every award quotes the balance and the level that it led to. */
  ghost predicate Quotes(xp: nat, awards: seq<Award>) {
    forall i :: 0 <= i < |awards| ==>
      && awards[i].newUserXp == xp + XpSum(awards[..i + 1])
      && awards[i].newUserLevel == LevelFor(awards[i].newUserXp)
  }

  lemma {:induction false} QuotesAppend(xp: nat, awards: seq<Award>, x: Award)
    requires Quotes(xp, awards)
    requires x.newUserXp == xp + XpSum(awards) + x.xpAwarded && x.newUserLevel == LevelFor(x.newUserXp)
    ensures Quotes(xp, awards + [x])
  {
    hide LevelFor;
    XpSumAppend(awards, x);
    forall k | 1 <= k <= |awards|
      ensures (awards + [x])[..k] == awards[..k]
    {
    }
    assert (awards + [x])[..|awards| + 1] == awards + [x];
  }

  /** What one trigger does to the balance. */
  lemma {:induction false} TriggerXp(a: Account, q: Quest, increment: int, now: int)
    ensures var (b, awards) := TriggerOne(a, q, increment, now);
      (awards == [] && b.xp == a.xp && b.level == a.level)
      || (|awards| == 1 && b.xp == a.xp + awards[0].xpAwarded && b.level == LevelFor(b.xp)
          && awards[0].newUserXp == b.xp && awards[0].newUserLevel == b.level)
  {
    hide NextReset, LevelFor, Upserted, Pays;
  }

  /** XP is its initial value plus everything paid, and the stored level always is the level of
      the stored XP. */
  lemma {:induction false} XpLedger(a: Account, steps: seq<Step>)
    requires a.level == LevelFor(a.xp)
    ensures var (b, awards) := Run(a, steps);
      b.xp == a.xp + XpSum(awards) && b.level == LevelFor(b.xp) && Quotes(a.xp, awards)
  {
    hide TriggerOne, LevelFor;
    if steps != [] {
      var n := |steps| - 1;
      XpLedger(a, steps[..n]);
      var (b, awards) := Run(a, steps[..n]);
      var (c, last) := TriggerOne(b, steps[n].quest, steps[n].increment, steps[n].now);
      TriggerXp(b, steps[n].quest, steps[n].increment, steps[n].now);
      hide XpSum, Quotes;
      if last == [] {
        assert awards + last == awards;
      } else {
        assert last == [last[0]];
        XpSumAppend(awards, last[0]);
        QuotesAppend(a.xp, awards, last[0]);
      }
    }
  }

  /** A badge is held iff it was held before or some award unlocked it; its recorded source never changes. */
  lemma {:induction false} BadgeLedger(a: Account, steps: seq<Step>)
    ensures var (b, awards) := Run(a, steps);
      && (forall badge :: badge in b.badges <==>
            badge in a.badges || exists i :: 0 <= i < |awards| && awards[i].badgeUnlocked == Some(badge))
      && (forall badge :: badge in a.badges ==> b.badges[badge] == a.badges[badge])
  {
    if steps != [] {
      var n := |steps| - 1;
      BadgeLedger(a, steps[..n]);
      var (b, awards) := Run(a, steps[..n]);
      var (c, last) := TriggerOne(b, steps[n].quest, steps[n].increment, steps[n].now);
      forall badge | exists i :: 0 <= i < |awards| && awards[i].badgeUnlocked == Some(badge)
        ensures exists i :: 0 <= i < |awards + last| && (awards + last)[i].badgeUnlocked == Some(badge)
      {
        var i :| 0 <= i < |awards| && awards[i].badgeUnlocked == Some(badge);
        assert (awards + last)[i] == awards[i];
      }
      if last != [] {
        assert (awards + last)[|awards|] == last[0];
      }
    }
  }

  // ---- What a run looks like to one quest ----

  datatype Trigger = Trigger(increment: int, now: int)

  /** The triggers of a run that reached the quest `id`. */
  function LogOf(id: string, steps: seq<Step>): seq<Trigger> {
    if steps == [] then []
    else
      var n := |steps| - 1;
      var s := steps[n];
      LogOf(id, steps[..n]) + if s.quest.id == id then [Trigger(s.increment, s.now)] else []
  }

  /** The quest's definition does not change during the run. */
  ghost predicate Stable(q: Quest, steps: seq<Step>) {
    forall i :: 0 <= i < |steps| && steps[i].quest.id == q.id ==> steps[i].quest == q
  }

  /** The stored row after a log of triggers, from no row at all. */
  function RowRun(q: Quest, log: seq<Trigger>): Option<Progress> {
    if log == [] then None
    else
      var n := |log| - 1;
      Some(RowAfter(RowRun(q, log[..n]), q, log[n].increment, log[n].now))
  }

  /** The `i`-th trigger of the log pays. */
  predicate PaidAt(q: Quest, log: seq<Trigger>, i: int)
    requires 0 <= i < |log|
  {
    Pays(RowRun(q, log[..i]), q, log[i].increment, log[i].now)
  }

  function PaidCount(q: Quest, log: seq<Trigger>): nat {
    if log == [] then 0
    else
      var n := |log| - 1;
      PaidCount(q, log[..n]) + if PaidAt(q, log, n) then 1 else 0
  }

  function AwardCount(id: string, awards: seq<Award>): nat {
    if awards == [] then 0
    else AwardCount(id, awards[..|awards| - 1]) + if awards[|awards| - 1].questId == id then 1 else 0
  }

  lemma {:induction false} AwardCountAppend(id: string, a: seq<Award>, x: Award)
    ensures AwardCount(id, a + [x]) == AwardCount(id, a) + if x.questId == id then 1 else 0
  {
    assert (a + [x])[..|a|] == a;
  }

  /** What one trigger does to the row of a quest, and how often it pays the quest. */
  lemma {:induction false} TriggerRow(a: Account, id: string, q: Quest, increment: int, now: int)
    ensures var (b, awards) := TriggerOne(a, q, increment, now);
      && Row(b, id) == (if q.id == id then Some(RowAfter(Row(a, id), q, increment, now)) else Row(a, id))
      && (awards == [] || |awards| == 1)
      && AwardCount(id, awards) == if q.id == id && Pays(Row(a, id), q, increment, now) then 1 else 0
  {
    hide NextReset, LevelFor, Upserted;
    var (b, awards) := TriggerOne(a, q, increment, now);
    if awards != [] {
      AwardCountAppend(id, [], awards[0]);
      assert [] + [awards[0]] == awards;
    }
  }

  lemma {:induction false} AwardCountConcat(id: string, a: seq<Award>, last: seq<Award>)
    requires last == [] || |last| == 1
    ensures AwardCount(id, a + last) == AwardCount(id, a) + AwardCount(id, last)
  {
    if last == [] {
      assert a + last == a;
    } else {
      AwardCountAppend(id, a, last[0]);
      AwardCountAppend(id, [], last[0]);
      assert [] + [last[0]] == last && a + [last[0]] == a + last;
    }
  }

  /** One trigger more in a log. */
  lemma {:induction false} RowRunAppend(q: Quest, log: seq<Trigger>, t: Trigger)
    ensures RowRun(q, log + [t]) == Some(RowAfter(RowRun(q, log), q, t.increment, t.now))
    ensures PaidCount(q, log + [t]) == PaidCount(q, log) + if Pays(RowRun(q, log), q, t.increment, t.now) then 1 else 0
  {
    assert (log + [t])[..|log|] == log && (log + [t])[|log|] == t;
  }

  /** Quests do not disturb each other: a quest's row and its awards depend on its own log only. */
  lemma {:induction false} RunProjects(a: Account, q: Quest, steps: seq<Step>)
    requires q.id !in a.progress && Stable(q, steps)
    ensures Row(Run(a, steps).0, q.id) == RowRun(q, LogOf(q.id, steps))
    ensures AwardCount(q.id, Run(a, steps).1) == PaidCount(q, LogOf(q.id, steps))
  {
    if steps != [] {
      hide TriggerOne, RowAfter, Pays;
      var n := |steps| - 1;
      var log, x := LogOf(q.id, steps[..n]), steps[n];
      RunProjects(a, q, steps[..n]);
      var (b, awards) := Run(a, steps[..n]);
      var (c, last) := TriggerOne(b, x.quest, x.increment, x.now);
      TriggerRow(b, q.id, x.quest, x.increment, x.now);
      AwardCountConcat(q.id, awards, last);
      RowRunAppend(q, log, Trigger(x.increment, x.now));
      assert log + [] == log;
      hide RowRun, PaidCount, AwardCount, Row;
    }
  }

  // ---- Repeatable quests: lazy resets count per period ----

  ghost predicate Ordered(log: seq<Trigger>) {
    forall i, j :: 0 <= i < j < |log| ==> log[i].now <= log[j].now
  }

  /** The increments of exactly those triggers that share a period with `t`. */
  function SumInPeriod(p: Period, log: seq<Trigger>, t: int): int {
    if log == [] then 0
    else
      var n := |log| - 1;
      SumInPeriod(p, log[..n], t) + if SamePeriod(p, log[n].now, t) then log[n].increment else 0
  }

  lemma {:induction false} SumSamePeriod(p: Period, log: seq<Trigger>, s: int, t: int)
    requires SamePeriod(p, s, t)
    ensures SumInPeriod(p, log, s) == SumInPeriod(p, log, t)
  {
    if log != [] {
      SumSamePeriod(p, log[..|log| - 1], s, t);
    }
  }

  lemma {:induction false} SumOtherPeriod(p: Period, log: seq<Trigger>, t: int)
    requires forall i :: 0 <= i < |log| ==> !SamePeriod(p, log[i].now, t)
    ensures SumInPeriod(p, log, t) == 0
  {
    if log != [] {
      SumOtherPeriod(p, log[..|log| - 1], t);
    }
  }

  lemma {:induction false} PeriodsAreIntervals(p: Period, a: int, b: int, c: int)
    requires a <= b <= c && SamePeriod(p, a, c)
    ensures SamePeriod(p, b, c)
  {
    if p != NONE {
      SamePeriodUntilReset(p, a, c);
      SamePeriodUntilReset(p, a, b);
    }
  }

  /** Moving on from the last trigger's instant `u` to `t` keeps the period's sum or starts over. */
  lemma {:induction false} SumMovesOn(p: Period, log: seq<Trigger>, u: int, t: int)
    requires Ordered(log) && log != [] && log[|log| - 1].now == u <= t
    ensures SumInPeriod(p, log, t) == if SamePeriod(p, u, t) then SumInPeriod(p, log, u) else 0
  {
    if SamePeriod(p, u, t) {
      SumSamePeriod(p, log, u, t);
    } else {
      forall i | 0 <= i < |log|
        ensures !SamePeriod(p, log[i].now, t)
      {
        if SamePeriod(p, log[i].now, t) {
          PeriodsAreIntervals(p, log[i].now, u, t);
        }
      }
      SumOtherPeriod(p, log, t);
    }
  }

  /** A row whose reset time belongs to `u` is reset at `t` exactly when the period has changed. */
  lemma {:induction false} ResetMovesOn(q: Quest, row: Progress, u: int, increment: int, t: int)
    requires q.repeatable && row.resetAt == NextReset(u, q.resetPeriod) && u <= t
    ensures var next := Upserted(Some(row), q, increment, t);
      && next.resetAt == NextReset(t, q.resetPeriod)
      && next.progress == (if SamePeriod(q.resetPeriod, u, t) then row.progress else 0) + increment
  {
    if q.resetPeriod != NONE {
      SamePeriodUntilReset(q.resetPeriod, u, t);
    }
    if SamePeriod(q.resetPeriod, u, t) {
      SamePeriodSameReset(q.resetPeriod, u, t);
    }
  }

  lemma {:induction false} RowRunStep(q: Quest, log: seq<Trigger>)
    requires q.repeatable && log != []
    ensures var n := |log| - 1; var t := log[n];
      RowRun(q, log) == Some(Upserted(RowRun(q, log[..n]), q, t.increment, t.now))
  {
  }

  /** The stored counter of a repeatable quest is the sum of the increments of the current period,
      and its reset time is that period's end. */
  lemma {:induction false} LazyResetCountsPerPeriod(q: Quest, log: seq<Trigger>)
    requires q.repeatable && log != [] && Ordered(log)
    ensures var last := log[|log| - 1].now; var row := RowRun(q, log);
      && row.Some?
      && row.value.progress == SumInPeriod(q.resetPeriod, log, last)
      && row.value.resetAt == NextReset(last, q.resetPeriod)
      && (row.value.completed <==> row.value.progress >= q.targetValue)
  {
    var n := |log| - 1;
    var before, t := log[..n], log[n];
    RowRunStep(q, log);
    SamePeriodReflexive(q.resetPeriod, t.now);
    if n > 0 {
      LazyResetCountsPerPeriod(q, before);
      SumMovesOn(q.resetPeriod, before, before[n - 1].now, t.now);
      ResetMovesOn(q, RowRun(q, before).value, before[n - 1].now, t.increment, t.now);
    }
  }

  /** A repeatable quest pays on every trigger that finds its period's sum at or past the target. */
  lemma {:induction false} RepeatablePayments(q: Quest, log: seq<Trigger>, i: int)
    requires q.repeatable && Ordered(log) && 0 <= i < |log|
    ensures PaidAt(q, log, i) <==> SumInPeriod(q.resetPeriod, log[..i + 1], log[i].now) >= q.targetValue
  {
    var upto := log[..i + 1];
    LazyResetCountsPerPeriod(q, upto);
    assert upto[..i] == log[..i] && upto[i] == log[i];
  }

  // ---- Other quests pay once ----

  function Sum(log: seq<Trigger>): int {
    if log == [] then 0 else Sum(log[..|log| - 1]) + log[|log| - 1].increment
  }

  /** Some prefix of the log has reached the target. */
  ghost predicate Reached(q: Quest, log: seq<Trigger>) {
    exists k :: 1 <= k <= |log| && Sum(log[..k]) >= q.targetValue
  }

  lemma {:induction false} ReachedStep(q: Quest, log: seq<Trigger>)
    requires log != []
    ensures Reached(q, log) <==> Reached(q, log[..|log| - 1]) || Sum(log) >= q.targetValue
  {
    var n := |log| - 1;
    assert log[..n + 1] == log;
    forall k | 1 <= k <= n
      ensures log[..n][..k] == log[..k]
    {
    }
    if Reached(q, log[..n]) {
      var k :| 1 <= k <= n && Sum(log[..n][..k]) >= q.targetValue;
      assert Sum(log[..k]) >= q.targetValue;
    }
  }

  lemma {:induction false} OneTimeRow(q: Quest, log: seq<Trigger>)
    requires !q.repeatable && log != []
    ensures var row := RowRun(q, log);
      && row.Some?
      && (row.value.completed <==> Reached(q, log))
      && (!row.value.completed ==> row.value.progress == Sum(log))
  {
    var n := |log| - 1;
    ReachedStep(q, log);
    if n > 0 {
      OneTimeRow(q, log[..n]);
    } else {
      assert log[..n] == [] && Sum(log[..n]) == 0;
    }
  }

  /** A non-repeatable quest pays exactly at the first trigger that brings its total to the target. */
  lemma {:induction false} OneTimePayment(q: Quest, log: seq<Trigger>, i: int)
    requires !q.repeatable && 0 <= i < |log|
    ensures PaidAt(q, log, i) <==> Sum(log[..i + 1]) >= q.targetValue && !Reached(q, log[..i])
  {
    var upto := log[..i + 1];
    assert upto[..i] == log[..i] && upto[i] == log[i];
    if i > 0 {
      OneTimeRow(q, log[..i]);
    } else {
      assert log[..i] == [] && Sum(log[..i]) == 0;
    }
  }

  /** It never pays twice, and has paid iff its total ever reached the target. */
  lemma {:induction false} OneTimeQuestPaysOnce(q: Quest, log: seq<Trigger>)
    requires !q.repeatable
    ensures PaidCount(q, log) == if Reached(q, log) then 1 else 0
  {
    if log != [] {
      var n := |log| - 1;
      OneTimeQuestPaysOnce(q, log[..n]);
      OneTimePayment(q, log, n);
      ReachedStep(q, log);
      assert log[..n + 1] == log;
    }
  }

  /** Reading a row and writing it back are separate steps. A trigger with a row that it read earlier
      pays a one-time quest exactly if that row was not completed and its own increment reaches the
      target from there, however often the quest has been paid since; without such a delay it would not
      pay a completed quest again. */
  lemma {:induction false} LateUpsertPaysExactly(a: Account, read: Option<Progress>, q: Quest, increment: int, now: int)
    requires !q.repeatable && Row(a, q.id).Some? && Row(a, q.id).value.completed
    ensures var (b, awards) := TriggerRead(a, read, q, increment, now);
      && (awards != [] <==> !(read.Some? && read.value.completed)
                            && (if read.Some? then read.value.progress else 0) + increment >= q.targetValue)
      && b.xp == a.xp + XpSum(awards) && (awards != [] ==> XpSum(awards) == q.xpReward)
    ensures TriggerOne(a, q, increment, now) == (a, [])
  {
    hide NextReset, LevelFor;
    var (b, awards) := TriggerRead(a, read, q, increment, now);
    if awards != [] {
      XpSumAppend([], awards[0]);
      assert [] + [awards[0]] == awards;
    }
  }

  /** Two triggers that read the same row both pay exactly if each of them alone would, and the row
      keeps the increment of the later one only. */
  lemma {:induction false} SameReadPaysTwiceExactly(a: Account, q: Quest, one: Trigger, two: Trigger)
    requires !q.repeatable
    ensures var read := Row(a, q.id);
      var (b, first) := TriggerRead(a, read, q, one.increment, one.now);
      var (c, second) := TriggerRead(b, read, q, two.increment, two.now);
      && (first != [] && second != [] <==>
            TriggerOne(a, q, one.increment, one.now).1 != [] && TriggerOne(a, q, two.increment, two.now).1 != [])
      && (first != [] && second != [] ==> c.xp == a.xp + 2 * q.xpReward)
      && (!WasAlreadyCompleted(read, q) ==>
            && Row(c, q.id).Some?
            && Row(c, q.id).value.progress == (if read.Some? then read.value.progress else 0) + two.increment)
  {
    hide NextReset, LevelFor;
  }

  // ---- The engine, from the log alone ----

  /** The last trigger of the log earns the reward: it brings its period's sum to the target, or, for a
      one-time quest, it is the first to bring the total there. */
  ghost predicate Earns(q: Quest, log: seq<Trigger>)
    requires log != []
  {
    var n := |log| - 1;
    if q.repeatable then SumInPeriod(q.resetPeriod, log, log[n].now) >= q.targetValue
    else Sum(log) >= q.targetValue && !Reached(q, log[..n])
  }

  /** The instant of the latest trigger that earned the reward. */
  ghost function LastEarned(q: Quest, log: seq<Trigger>): Option<int> {
    if log == [] then None
    else if Earns(q, log) then Some(log[|log| - 1].now)
    else LastEarned(q, log[..|log| - 1])
  }

  /** The total when it first reached the target, or the total so far. */
  ghost function SumToTarget(q: Quest, log: seq<Trigger>): int {
    if log == [] then 0
    else if Reached(q, log[..|log| - 1]) then SumToTarget(q, log[..|log| - 1])
    else Sum(log)
  }

  /** The row that a log of triggers leaves. */
  ghost function RowOfLog(q: Quest, log: seq<Trigger>): Progress
    requires log != []
  {
    var last := log[|log| - 1].now;
    var sum := SumInPeriod(q.resetPeriod, log, last);
    if q.repeatable then Progress(sum, sum >= q.targetValue, LastEarned(q, log), NextReset(last, q.resetPeriod))
    else Progress(SumToTarget(q, log), Reached(q, log), LastEarned(q, log), None)
  }

  lemma {:induction false} EarnsIsPaid(q: Quest, log: seq<Trigger>, i: nat)
    requires i < |log| && (q.repeatable ==> Ordered(log))
    ensures PaidAt(q, log, i) <==> Earns(q, log[..i + 1])
  {
    assert log[..i + 1][..i] == log[..i] && log[..i + 1][i] == log[i];
    if q.repeatable {
      RepeatablePayments(q, log, i);
    } else {
      OneTimePayment(q, log, i);
    }
  }

  /** Progress, completion, its instant and the reset time are those that the log gives. */
  lemma {:induction false} RowIsLog(q: Quest, log: seq<Trigger>)
    requires log != [] && (q.repeatable ==> Ordered(log))
    ensures RowRun(q, log) == Some(RowOfLog(q, log))
  {
    var n := |log| - 1;
    EarnsIsPaid(q, log, n);
    assert log[..n + 1] == log;
    if n > 0 {
      RowIsLog(q, log[..n]);
    }
    if q.repeatable {
      LazyResetCountsPerPeriod(q, log);
      RepeatableCompletion(q, log);
    } else {
      OneTimeCompletion(q, log);
    }
  }

  lemma {:induction false} RepeatableCompletion(q: Quest, log: seq<Trigger>)
    requires log != [] && q.repeatable && Ordered(log)
    requires PaidAt(q, log, |log| - 1) <==> Earns(q, log)
    requires |log| > 1 ==> RowRun(q, log[..|log| - 1]) == Some(RowOfLog(q, log[..|log| - 1]))
    ensures RowRun(q, log).Some? && RowRun(q, log).value.completedAt == LastEarned(q, log)
  {
    var n := |log| - 1;
    var before := RowRun(q, log[..n]);
    RowRunStep(q, log);
    assert n == 0 ==> before == None && LastEarned(q, log[..n]) == None;
    assert n > 0 ==> before.value.completedAt == LastEarned(q, log[..n]);
    hide RowRun, RowOfLog, SumInPeriod, NextReset;
  }

  lemma {:induction false} OneTimeCompletion(q: Quest, log: seq<Trigger>)
    requires log != [] && !q.repeatable
    requires PaidAt(q, log, |log| - 1) <==> Earns(q, log)
    requires |log| > 1 ==> RowRun(q, log[..|log| - 1]) == Some(RowOfLog(q, log[..|log| - 1]))
    ensures RowRun(q, log) == Some(RowOfLog(q, log))
  {
    var n := |log| - 1;
    OneTimeRow(q, log);
    ReachedStep(q, log);
    if n > 0 {
      OneTimeRow(q, log[..n]);
    } else {
      assert log[..n] == [] && Sum(log[..n]) == 0 && !Reached(q, log[..n]);
      assert LastEarned(q, log[..n]) == None && RowRun(q, log[..n]) == None;
    }
  }

  /** Quests keep their definitions, and time does not run backwards. */
  ghost predicate Regular(steps: seq<Step>) {
    && (forall i, j :: 0 <= i < |steps| && 0 <= j < |steps| && steps[i].quest.id == steps[j].quest.id ==>
          steps[i].quest == steps[j].quest)
    && (forall i, j :: 0 <= i < j < |steps| ==> steps[i].now <= steps[j].now)
  }

  lemma {:induction false} LogOrdered(id: string, steps: seq<Step>)
    requires forall i, j :: 0 <= i < j < |steps| ==> steps[i].now <= steps[j].now
    ensures Ordered(LogOf(id, steps))
    ensures steps != [] ==>
      forall i :: 0 <= i < |LogOf(id, steps)| ==> LogOf(id, steps)[i].now <= steps[|steps| - 1].now
  {
    if steps != [] {
      LogOrdered(id, steps[..|steps| - 1]);
    }
  }

  /** The engine as a whole: over any run, in which other quests may be triggered too, the stored row
      of a quest is the one that its own triggers give, in every field. */
  lemma {:induction false} EngineRefinesLog(a: Account, q: Quest, steps: seq<Step>)
    requires q.id !in a.progress && Stable(q, steps)
    ensures var log := LogOf(q.id, steps);
      && (!q.repeatable ==> AwardCount(q.id, Run(a, steps).1) == if Reached(q, log) then 1 else 0)
      && ((q.repeatable ==> Ordered(log)) ==>
            Row(Run(a, steps).0, q.id) == if log == [] then None else Some(RowOfLog(q, log)))
  {
    var log := LogOf(q.id, steps);
    RunProjects(a, q, steps);
    if log != [] && (q.repeatable ==> Ordered(log)) {
      RowIsLog(q, log);
    }
    if !q.repeatable {
      OneTimeQuestPaysOnce(q, log);
    }
    hide Run, RowOfLog, LogOf;
  }

  /** What an award gives. */
  datatype Prize = Prize(questId: string, xp: nat, badge: Option<string>)

  function Prizes(awards: seq<Award>): seq<Prize> {
    seq(|awards|, i requires 0 <= i < |awards| =>
      Prize(awards[i].questId, awards[i].xpAwarded, awards[i].badgeUnlocked))
  }

  /** The last step of the run earns its quest's reward. */
  ghost predicate LastEarns(steps: seq<Step>)
    requires steps != []
  {
    var q := steps[|steps| - 1].quest;
    Earns(q, LogOf(q.id, steps))
  }

  /** The rewards of the steps that earn one. */
  ghost function PrizesOf(steps: seq<Step>): seq<Prize> {
    if steps == [] then []
    else
      var n := |steps| - 1;
      var q := steps[n].quest;
      PrizesOf(steps[..n]) + if LastEarns(steps) then [Prize(q.id, q.xpReward, q.badgeId)] else []
  }

  /** The badges after a step: a reward adds its quest's badge if nobody gave it before. */
  lemma {:induction false} TriggerPrize(a: Account, q: Quest, increment: int, now: int)
    ensures var (b, awards) := TriggerOne(a, q, increment, now);
      if Pays(Row(a, q.id), q, increment, now) then
        && Prizes(awards) == [Prize(q.id, q.xpReward, q.badgeId)]
        && b.badges == (if q.badgeId.Some? && q.badgeId.value !in a.badges then a.badges[q.badgeId.value := q.id]
                        else a.badges)
      else awards == [] && b.badges == a.badges
  {
    hide NextReset, LevelFor, Upserted;
  }

  /** On runs from an account without progress the last step pays exactly if it earns the reward. */
  lemma {:induction false} LastPays(a: Account, steps: seq<Step>)
    requires a.progress == map[] && Regular(steps) && steps != []
    ensures var n := |steps| - 1; var x := steps[n];
      Pays(Row(Run(a, steps[..n]).0, x.quest.id), x.quest, x.increment, x.now) <==> LastEarns(steps)
  {
    var n := |steps| - 1;
    var q := steps[n].quest;
    var log, before := LogOf(q.id, steps), LogOf(q.id, steps[..n]);
    assert log == before + [Trigger(steps[n].increment, steps[n].now)];
    assert log[..|before|] == before && log[..|log|] == log;
    RunProjects(a, q, steps[..n]);
    LogOrdered(q.id, steps);
    EarnsIsPaid(q, log, |before|);
    hide Run, RowRun, Pays, Earns, LogOf;
  }

  /** Over any run the awards are the rewards of the steps that earn one, in their order. */
  lemma {:induction false} PrizesFromLog(a: Account, steps: seq<Step>)
    requires a.progress == map[] && Regular(steps)
    ensures Prizes(Run(a, steps).1) == PrizesOf(steps)
  {
    if steps != [] {
      var n := |steps| - 1;
      PrizesFromLog(a, steps[..n]);
      LastPays(a, steps);
      var (b, awards) := Run(a, steps[..n]);
      var x := steps[n];
      TriggerPrize(b, x.quest, x.increment, x.now);
      var last := TriggerOne(b, x.quest, x.increment, x.now).1;
      hide TriggerOne, Pays, LastEarns;
      assert Prizes(awards + last) == Prizes(awards) + Prizes(last);
    }
  }

  /** The i-th step triggers q and earns its reward. */
  ghost predicate EarnsAt(steps: seq<Step>, q: Quest, i: int) {
    0 <= i < |steps| && steps[i].quest == q && LastEarns(steps[..i + 1])
  }

  lemma {:induction false} EarnsAtPrefix(steps: seq<Step>, q: Quest, n: nat, i: int)
    requires n <= |steps|
    ensures i < n ==> (EarnsAt(steps[..n], q, i) <==> EarnsAt(steps, q, i))
    ensures EarnsAt(steps[..n], q, i) ==> i < n
    ensures n < |steps| && steps[n].quest == q && n + 1 == |steps| ==> (EarnsAt(steps, q, n) <==> LastEarns(steps))
  {
    if 0 <= i < n {
      assert steps[..n][..i + 1] == steps[..i + 1];
    }
    if n + 1 == |steps| {
      assert steps[..n + 1] == steps;
    }
  }

  /** The i-th step earns a reward with this badge. */
  ghost predicate GivesAt(steps: seq<Step>, i: int, badge: string) {
    0 <= i < |steps| && steps[i].quest.badgeId == Some(badge) && EarnsAt(steps, steps[i].quest, i)
  }

  lemma {:induction false} GivesAtPrefix(steps: seq<Step>, badge: string)
    requires steps != []
    ensures var n := |steps| - 1;
      && (forall i :: i < n ==> (GivesAt(steps[..n], i, badge) <==> GivesAt(steps, i, badge)))
      && (forall i :: i >= n ==> !GivesAt(steps[..n], i, badge))
      && (GivesAt(steps, n, badge) <==> steps[n].quest.badgeId == Some(badge) && LastEarns(steps))
      && (forall i :: i > n ==> !GivesAt(steps, i, badge))
  {
    var n := |steps| - 1;
    hide LastEarns;
    forall i
      ensures i < n ==> (GivesAt(steps[..n], i, badge) <==> GivesAt(steps, i, badge))
    {
      if 0 <= i < n {
        EarnsAtPrefix(steps, steps[i].quest, n, i);
      }
    }
    EarnsAtPrefix(steps, steps[n].quest, n, n);
  }

  ghost predicate FirstGivesAt(steps: seq<Step>, i: int, badge: string) {
    GivesAt(steps, i, badge) && forall j :: 0 <= j < i ==> !GivesAt(steps, j, badge)
  }

  /** A badge is held exactly if it was before or a step earned a reward with it, and its source is the
      quest of the first such step. */
  lemma {:induction false} BadgesFromLog(a: Account, steps: seq<Step>, badge: string)
    requires a.progress == map[] && Regular(steps)
    ensures var b := Run(a, steps).0;
      && (badge in b.badges <==> badge in a.badges || exists i :: GivesAt(steps, i, badge))
      && (badge in a.badges ==> b.badges[badge] == a.badges[badge])
      && (badge !in a.badges ==> forall i :: FirstGivesAt(steps, i, badge) ==>
            badge in b.badges && b.badges[badge] == steps[i].quest.id)
  {
    if steps != [] {
      var n := |steps| - 1;
      BadgesFromLog(a, steps[..n], badge);
      LastPays(a, steps);
      GivesAtPrefix(steps, badge);
      var b, x := Run(a, steps[..n]).0, steps[n];
      TriggerPrize(b, x.quest, x.increment, x.now);
      BadgeStep(a.badges, b.badges, Run(a, steps).0.badges, steps, badge);
    } else {
      hide LastEarns;
    }
  }

  /** How the last step carries the badge on. */
  lemma {:induction false} BadgeStep(start: map<string, string>, before: map<string, string>,
                                     after: map<string, string>, steps: seq<Step>, badge: string)
    requires steps != []
    requires var q := steps[|steps| - 1].quest;
      var unlocks := LastEarns(steps) && q.badgeId.Some? && q.badgeId.value !in before;
      after == if unlocks then before[q.badgeId.value := q.id] else before
    requires var n := |steps| - 1;
      && (badge in before <==> badge in start || exists i :: GivesAt(steps[..n], i, badge))
      && (badge in start ==> before[badge] == start[badge])
      && (badge !in start ==> forall i :: FirstGivesAt(steps[..n], i, badge) ==>
            badge in before && before[badge] == steps[..n][i].quest.id)
    ensures badge in after <==> badge in start || exists i :: GivesAt(steps, i, badge)
    ensures badge in start ==> after[badge] == start[badge]
    ensures badge !in start ==> forall i :: FirstGivesAt(steps, i, badge) ==>
      badge in after && after[badge] == steps[i].quest.id
  {
    var n := |steps| - 1;
    GivesAtPrefix(steps, badge);
    hide GivesAt, LastEarns;
    forall i | FirstGivesAt(steps, i, badge)
      ensures badge !in start ==> badge in after && after[badge] == steps[i].quest.id
    {
      if i < n {
        assert FirstGivesAt(steps[..n], i, badge) && GivesAt(steps[..n], i, badge);
        assert steps[..n][i] == steps[i];
      } else {
        assert i == n;
      }
    }
    if i :| GivesAt(steps[..n], i, badge) {
      assert GivesAt(steps, i, badge);
    }
  }

  /** A quest was won: some trigger of its log earned the reward. */
  ghost predicate Won(q: Quest, log: seq<Trigger>) {
    if q.repeatable then
      exists k :: 1 <= k <= |log| && SumInPeriod(q.resetPeriod, log[..k], log[k - 1].now) >= q.targetValue
    else Reached(q, log)
  }

  lemma {:induction false} WonStep(q: Quest, log: seq<Trigger>)
    requires log != []
    ensures Won(q, log) <==> Won(q, log[..|log| - 1]) || Earns(q, log)
  {
    var n := |log| - 1;
    ReachedStep(q, log);
    assert log[..n + 1] == log;
    forall k | 1 <= k <= n
      ensures log[..n][..k] == log[..k]
    {
    }
    if q.repeatable && Won(q, log[..n]) {
      var k :| 1 <= k <= n && SumInPeriod(q.resetPeriod, log[..n][..k], log[..n][k - 1].now) >= q.targetValue;
      assert SumInPeriod(q.resetPeriod, log[..k], log[k - 1].now) >= q.targetValue;
    }
  }

  /** Some step of the run earned the reward of q exactly if its log won. */
  lemma {:induction false} WonAtSomeStep(q: Quest, steps: seq<Step>)
    requires Stable(q, steps)
    ensures Won(q, LogOf(q.id, steps)) <==> exists i :: EarnsAt(steps, q, i)
  {
    hide LastEarns, Earns;
    if steps == [] {
      assert !Won(q, []);
    } else {
      var n := |steps| - 1;
      WonAtSomeStep(q, steps[..n]);
      forall i {
        EarnsAtPrefix(steps, q, n, i);
      }
      var log, before := LogOf(q.id, steps), LogOf(q.id, steps[..n]);
      if steps[n].quest.id == q.id {
        assert log == before + [Trigger(steps[n].increment, steps[n].now)];
        assert log[..|log| - 1] == before;
        WonStep(q, log);
        LastEarnsIs(steps);
      } else {
        assert log == before;
      }
      hide Won, LogOf;
      if i :| EarnsAt(steps[..n], q, i) {
        assert EarnsAt(steps, q, i);
      }
      if i :| EarnsAt(steps, q, i) {
        assert i == n || EarnsAt(steps[..n], q, i);
      }
    }
  }

  lemma {:induction false} LastEarnsIs(steps: seq<Step>)
    requires steps != []
    ensures var q := steps[|steps| - 1].quest; LastEarns(steps) <==> Earns(q, LogOf(q.id, steps))
  {
  }

  /** The run won the quest, and the quest gives the badge. */
  ghost predicate WonWith(steps: seq<Step>, q: Quest, badge: string) {
    q.badgeId == Some(badge) && Won(q, LogOf(q.id, steps))
  }

  /** Who holds a badge after a run: whoever held it before, or won a quest that gives it. */
  lemma {:induction false} BadgeHeldExactly(a: Account, steps: seq<Step>, badge: string)
    requires a.progress == map[] && Regular(steps)
    ensures badge in Run(a, steps).0.badges <==>
      badge in a.badges || exists i :: 0 <= i < |steps| && WonWith(steps, steps[i].quest, badge)
  {
    BadgesFromLog(a, steps, badge);
    hide Run, LastEarns, Won, LogOf;
    if i :| 0 <= i < |steps| && WonWith(steps, steps[i].quest, badge) {
      WonAtSomeStep(steps[i].quest, steps);
      var j :| EarnsAt(steps, steps[i].quest, j);
      assert GivesAt(steps, j, badge);
    }
    if i :| GivesAt(steps, i, badge) {
      WonAtSomeStep(steps[i].quest, steps);
      assert WonWith(steps, steps[i].quest, badge);
    }
  }
}
