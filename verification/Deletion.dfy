/** Account deletion: a 30-day delayed purge with two executors (a delayed queue job and an hourly
    batch), cancelled by hand or by logging in, and requestable again. */
module Deletion {
  import opened Prelude

  const DAY_MS := 24 * 3600 * 1000
  const GRACE_MS := 30 * DAY_MS
  const BATCH := 50

  /** `deletion:{userId}:{scheduledFor}` */
  datatype JobId = JobId(user: string, scheduledFor: int)

  datatype Job = Job(user: string, fireAt: int)

  /** A row of `account_deletions`. */
  datatype Record = Record(requestedAt: int, scheduledFor: int, cancelledAt: Option<int>, executedAt: Option<int>,
                           jobId: Option<JobId>) {
    predicate Pending() {
      cancelledAt.None? && executedAt.None?
    }
  }

  /** User rows (with their `deletedAt`), deletion records and the delayed jobs of the queue. */
  datatype State = State(users: map<string, Option<int>>, records: map<string, Record>, jobs: map<JobId, Job>) {

    predicate Pending(u: string) {
      u in records && records[u].Pending()
    }

    predicate Due(u: string, now: int) {
      Pending(u) && records[u].scheduledFor <= now
    }

    /** Foreign key of `account_deletions`. */
    ghost predicate Valid() {
      records.Keys <= users.Keys
    }
  }

  // ---- Steps ----

  function RequestStep(s: State, u: string, now: int, reachable: bool): State {
    if u !in s.users || s.Pending(u) then s
    else
      var id := JobId(u, now + GRACE_MS);
      var oldJob := if u in s.records then s.records[u].jobId else None;
      var jobId := if reachable then Some(id) else oldJob;
      var jobs := if reachable && id !in s.jobs then s.jobs[id := Job(u, now + GRACE_MS)] else s.jobs;
      State(s.users[u := Some(now)], s.records[u := Record(now, now + GRACE_MS, None, None, jobId)], jobs)
  }

  /** Both ways of cancelling: restore the user, mark the record, remove the recorded job. */
  function CancelStep(s: State, u: string, now: int, reachable: bool): State {
    if !s.Pending(u) then s
    else
      var rec := s.records[u];
      State(s.users[u := None], s.records[u := rec.(cancelledAt := Some(now))],
            if rec.jobId.Some? && reachable then s.jobs - {rec.jobId.value} else s.jobs)
  }

  /** A login with valid credentials is let through, unless the account is past its grace period. */
  predicate CanLogin(s: State, u: string, now: int) {
    u in s.users && (s.users[u].None? || (s.Pending(u) && s.records[u].scheduledFor > now))
  }

  function LoginStep(s: State, u: string, now: int, reachable: bool): State {
    if CanLogin(s, u, now) then CancelStep(s, u, now, reachable) else s
  }

  /** `user.delete` cascades to the deletion record; queued jobs stay. */
  function Purge(s: State, gone: set<string>): State {
    s.(users := s.users - gone, records := s.records - gone)
  }

  /** The queue hands a job to the registered processor. */
  function JobStep(s: State, id: JobId): State {
    if id !in s.jobs then s
    else
      var taken := s.(jobs := s.jobs - {id});
      if s.Pending(s.jobs[id].user) then Purge(taken, {s.jobs[id].user}) else taken
  }

  datatype Op =
    | Request(user: string, now: int, reachable: bool)
    | Cancel(user: string, now: int, reachable: bool)
    | Login(user: string, now: int, reachable: bool)
    | RunJob(id: JobId, now: int)
    | Cron(now: int, gone: set<string>)

  /** Jobs never fire early, and the batch only contains due records. */
  ghost predicate Legal(s: State, op: Op) {
    match op
    case RunJob(id, now) => id in s.jobs && s.jobs[id].fireAt <= now
    case Cron(now, gone) => forall u :: u in gone ==> s.Due(u, now)
    case _ => true
  }

  function Step(s: State, op: Op): State {
    match op
    case Request(u, now, reachable) => RequestStep(s, u, now, reachable)
    case Cancel(u, now, reachable) => CancelStep(s, u, now, reachable)
    case Login(u, now, reachable) => LoginStep(s, u, now, reachable)
    case RunJob(id, now) => JobStep(s, id)
    case Cron(now, gone) => Purge(s, gone)
  }

  // ---- The services ----

  class DeletionQueue {
    var jobs: map<JobId, Job>

    constructor ()
      ensures jobs == map[]
    {
      jobs := map[];
    }

    /** Adding a job under an id that is already queued changes nothing. */
    method EnqueueDelayed(userId: string, scheduledFor: int, now: int, delayMs: int) returns (jobId: JobId)
      modifies this
      ensures jobId == JobId(userId, scheduledFor)
      ensures jobs == if jobId in old(jobs) then old(jobs)
                      else old(jobs)[jobId := Job(userId, now + if delayMs > 0 then delayMs else 0)]
    {
      jobId := JobId(userId, scheduledFor);
      if jobId !in jobs {
        jobs := jobs[jobId := Job(userId, now + if delayMs > 0 then delayMs else 0)];
      }
    }

    method CancelByJobId(jobId: JobId) returns (removed: bool)
      modifies this
      ensures removed <==> jobId in old(jobs)
      ensures jobs == old(jobs) - {jobId}
    {
      removed := jobId in jobs;
      jobs := jobs - {jobId};
    }
  }

  datatype Status = Status(pending: bool, requestedAt: Option<int>, scheduledFor: Option<int>,
                           daysRemaining: Option<int>)

  function CeilDiv(a: int, b: int): int
    requires b > 0
  {
    -((-a) / b)
  }

  function ToStatus(record: Option<Record>, now: int): Status {
    if record.None? || !record.value.Pending() then Status(false, None, None, None)
    else
      var days := CeilDiv(record.value.scheduledFor - now, DAY_MS);
      Status(true, Some(record.value.requestedAt), Some(record.value.scheduledFor), Some(if days > 0 then days else 0))
  }

  datatype Outcome = UserNotFound | NoActiveDeletion | AccountDeleted | Done(status: Status) | LoggedIn

  class AccountService {
    var users: map<string, Option<int>>
    var records: map<string, Record>
    const queue: DeletionQueue

    ghost function Contents(): State
      reads this, queue
    {
      State(users, records, queue.jobs)
    }

    constructor (users: map<string, Option<int>>, queue: DeletionQueue)
      requires forall u :: u in users ==> users[u] == None
      requires queue.jobs == map[]
      ensures this.queue == queue && Contents() == State(users, map[], map[]) && Fresh(Contents())
    {
      this.users, this.records, this.queue := users, map[], queue;
    }

    function RecordOf(u: string): Option<Record>
      reads this
    {
      if u in records then Some(records[u]) else None
    }

    method RequestDeletion(userId: string, now: int, reachable: bool) returns (r: Outcome)
      modifies this, queue
      ensures Contents() == RequestStep(old(Contents()), userId, now, reachable)
      ensures if userId !in users then r == UserNotFound else r == Done(ToStatus(RecordOf(userId), now))
    {
      if userId !in users {
        return UserNotFound;
      }
      if userId in records && records[userId].Pending() {
        return Done(ToStatus(Some(records[userId]), now));
      }
      var scheduledFor := now + GRACE_MS;
      users := users[userId := Some(now)];
      var oldJob := if userId in records then records[userId].jobId else None;
      records := records[userId := Record(now, scheduledFor, None, None, oldJob)];
      if reachable {
        var jobId := queue.EnqueueDelayed(userId, scheduledFor, now, scheduledFor - now);
        records := records[userId := records[userId].(jobId := Some(jobId))];
      }
      return Done(ToStatus(Some(records[userId]), now));
    }

    /** The transaction and the queue call that both ways of cancelling share. */
    method Restore(userId: string, now: int, reachable: bool)
      requires userId in records && records[userId].Pending()
      modifies this, queue
      ensures Contents() == CancelStep(old(Contents()), userId, now, reachable)
    {
      var record := records[userId];
      users := users[userId := None];
      records := records[userId := record.(cancelledAt := Some(now))];
      if record.jobId.Some? && reachable {
        var _ := queue.CancelByJobId(record.jobId.value);
      }
    }

    method CancelDeletionOnLogin(userId: string, now: int, reachable: bool) returns (cancelled: bool)
      modifies this, queue
      ensures Contents() == CancelStep(old(Contents()), userId, now, reachable)
      ensures cancelled <==> old(Contents()).Pending(userId)
    {
      if userId !in records || records[userId].executedAt.Some? || records[userId].cancelledAt.Some? {
        return false;
      }
      Restore(userId, now, reachable);
      return true;
    }

    method CancelDeletion(userId: string, now: int, reachable: bool) returns (r: Outcome)
      modifies this, queue
      ensures Contents() == CancelStep(old(Contents()), userId, now, reachable)
      ensures r == if userId !in old(records) || old(records)[userId].executedAt.Some? then NoActiveDeletion
                   else Done(Status(false, None, None, None))
    {
      if userId !in records || records[userId].executedAt.Some? {
        return NoActiveDeletion;
      }
      if records[userId].cancelledAt.Some? {
        return Done(ToStatus(Some(records[userId]), now));
      }
      Restore(userId, now, reachable);
      return Done(ToStatus(Some(records[userId]), now));
    }

    /** `login` with valid credentials, followed by the login listener. */
    method LogIn(userId: string, now: int, reachable: bool) returns (r: Outcome)
      modifies this, queue
      ensures Contents() == LoginStep(old(Contents()), userId, now, reachable)
      ensures r == if userId !in old(users) then UserNotFound
                   else if CanLogin(old(Contents()), userId, now) then LoggedIn else AccountDeleted
    {
      if userId !in users {
        return UserNotFound;
      }
      if users[userId].Some? {
        var canRestore := userId in records && records[userId].executedAt.None?
                          && records[userId].cancelledAt.None? && records[userId].scheduledFor > now;
        if !canRestore {
          return AccountDeleted;
        }
      }
      var _ := CancelDeletionOnLogin(userId, now, reachable);
      return LoggedIn;
    }

    /** The worker takes a delayed job; the processor does not look at `scheduledFor`. */
    method ProcessJob(id: JobId)
      requires id in queue.jobs
      modifies this, queue
      ensures Contents() == JobStep(old(Contents()), id)
    {
      var job := queue.jobs[id];
      queue.jobs := queue.jobs - {id};
      if job.user !in records || records[job.user].cancelledAt.Some? {
        return;
      }
      if records[job.user].executedAt.Some? {
        return;
      }
      DeleteUser(job.user);
    }

    /** `user.delete`, with the cascade to `account_deletions` */
    method DeleteUser(u: string)
      modifies this
      ensures users == old(users) - {u} && records == old(records) - {u}
    {
      users := users - {u};
      records := records - {u};
    }

    /** The hourly batch over the rows that `findMany` returned; deleting a user in `failing` throws. */
    method ExecuteDeletions(now: int, pending: seq<string>, failing: set<string>) returns (processed: nat, errors: nat)
      requires Distinct(pending) && |pending| <= BATCH
      requires forall i :: 0 <= i < |pending| ==> Contents().Due(pending[i], now)
      modifies this
      ensures Contents() == Purge(old(Contents()), Elements(pending) - failing)
      ensures processed == |Elements(pending) - failing| && processed + errors == |pending|
    {
      processed, errors := 0, 0;
      ghost var gone: set<string> := {};
      for i := 0 to |pending|
        invariant users == old(users) - gone && records == old(records) - gone
        invariant gone == Elements(pending[..i]) - failing
        invariant processed + errors == i && processed == |gone|
      {
        hide *;
        var u := pending[i];
        OneMoreGone(pending, failing, i);
        if u in failing {
          errors := errors + 1;
        } else {
          RemoveTwice(old(users), gone, u);
          RemoveTwice(old(records), gone, u);
          DeleteUser(u);
          gone := gone + {u};
          processed := processed + 1;
        }
      }
      assert pending[..|pending|] == pending;
    }
  }

  lemma {:induction false} OneMoreGone(pending: seq<string>, failing: set<string>, i: nat)
    requires Distinct(pending) && i < |pending|
    ensures var gone, more := Elements(pending[..i]) - failing, Elements(pending[..i + 1]) - failing;
      if pending[i] in failing then more == gone else more == gone + {pending[i]} && |more| == |gone| + 1
  {
    PrefixElements(pending, i);
    var gone := Elements(pending[..i]) - failing;
    if pending[i] !in failing {
      CardAdd(gone, gone + {pending[i]}, pending[i]);
    }
  }

  // ---- Runs ----

  function Run(s: State, ops: seq<Op>): State {
    if ops == [] then s else Step(Run(s, ops[..|ops| - 1]), ops[|ops| - 1])
  }

  ghost predicate LegalRun(s: State, ops: seq<Op>) {
    ops == [] || (LegalRun(s, ops[..|ops| - 1]) && Legal(Run(s, ops[..|ops| - 1]), ops[|ops| - 1]))
  }

  /** Nothing has been requested yet. */
  ghost predicate Fresh(s: State) {
    s.records == map[] && s.jobs == map[] && forall u :: u in s.users ==> s.users[u] == None
  }

  /** What the log of calls alone says about `u`: the instant of its latest request that has been
      neither cancelled nor undone by a login within the grace period. */
  function PendingSince(ops: seq<Op>, u: string): Option<int> {
    if ops == [] then None
    else
      var p := PendingSince(ops[..|ops| - 1], u);
      match ops[|ops| - 1]
      case Request(v, now, _) => if v == u && p.None? then Some(now) else p
      case Cancel(v, _, _) => if v == u then None else p
      case Login(v, now, _) => if v == u && p.Some? && p.value + GRACE_MS > now then None else p
      case _ => p
  }

  /** `deletedAt` is set exactly while a request is pending, and the record repeats the log. */
  ghost predicate RepeatsLog(s: State, ops: seq<Op>, u: string) {
    u in s.users ==>
      && (s.users[u].Some? <==> s.Pending(u))
      && (s.Pending(u) <==> PendingSince(ops, u).Some?)
      && (s.Pending(u) ==> s.records[u].requestedAt == PendingSince(ops, u).value
                           && s.records[u].scheduledFor == s.records[u].requestedAt + GRACE_MS
                           && s.users[u] == PendingSince(ops, u))
  }

  lemma {:induction false} StepRepeatsLog(s: State, ops: seq<Op>, op: Op, u: string)
    requires s.Valid() && RepeatsLog(s, ops, u) && Legal(s, op)
    ensures Step(s, op).Valid() && RepeatsLog(Step(s, op), ops + [op], u)
  {
    assert (ops + [op])[..|ops|] == ops;
  }

  lemma {:induction false} StateRepeatsLog(s: State, ops: seq<Op>, u: string)
    requires Fresh(s) && LegalRun(s, ops)
    ensures Run(s, ops).Valid() && RepeatsLog(Run(s, ops), ops, u)
  {
    hide Step, Legal;
    if ops != [] {
      var n := |ops| - 1;
      StateRepeatsLog(s, ops[..n], u);
      StepRepeatsLog(Run(s, ops[..n]), ops[..n], ops[n], u);
      assert ops[..n] + [ops[n]] == ops;
    }
  }

  /** Whom a login lets in, from the log: everybody but users whose grace period is over. */
  lemma {:induction false} LoginDecided(s: State, ops: seq<Op>, u: string, now: int, reachable: bool)
    requires Fresh(s) && LegalRun(s, ops) && u in Run(s, ops).users
    ensures var before := Run(s, ops);
      var after, since := LoginStep(before, u, now, reachable), PendingSince(ops, u);
      && (CanLogin(before, u, now) <==> since.None? || now < since.value + 30 * 86_400_000)
      && (CanLogin(before, u, now) ==>
            u in after.users && after.users[u] == None && !after.Pending(u) && after.users.Keys == before.users.Keys)
      && (!CanLogin(before, u, now) ==> after == before)
  {
    StateRepeatsLog(s, ops, u);
    hide Run, PendingSince, Fresh, LegalRun;
  }

  /** A step touches nobody but the user it is about, or those it purges. */
  lemma {:induction false} OthersKept(s: State, op: Op, v: string)
    requires Legal(s, op)
    requires match op
             case RunJob(id, _) => s.jobs[id].user != v
             case Cron(_, gone) => v !in gone
             case _ => op.user != v
    ensures var after := Step(s, op);
      && (v in after.users <==> v in s.users) && (v in s.users ==> after.users[v] == s.users[v])
      && (v in after.records <==> v in s.records) && (v in s.records ==> after.records[v] == s.records[v])
  {
  }

  /** Cancelling a pending request restores the user and marks the record; otherwise it does nothing. */
  lemma {:induction false} CancelMarks(s: State, u: string, now: int, reachable: bool)
    ensures var after, pending := Step(s, Op.Cancel(u, now, reachable)), u in s.records
        && s.records[u].cancelledAt == None && s.records[u].executedAt == None;
      if !pending then after == s
      else
        && after.users == s.users[u := None]
        && after.records == s.records[u := s.records[u].(cancelledAt := Some(now))]
        && forall id :: id in after.jobs <==> id in s.jobs && !(reachable && s.records[u].jobId == Some(id))
  {
  }

  /** The job that the record of `u` names: that of its latest request that was accepted while the queue
      could be reached. */
  function JobOf(ops: seq<Op>, u: string): Option<JobId> {
    if ops == [] then None
    else
      var before, op := ops[..|ops| - 1], ops[|ops| - 1];
      if op.Request? && op.user == u && op.reachable && PendingSince(before, u).None?
        then Some(JobId(u, op.now + GRACE_MS))
      else JobOf(before, u)
  }

  /** The step takes the job off the queue: it is handed out, or its user cancels while it is the recorded
      one and the queue can be reached. */
  predicate Unqueues(before: seq<Op>, op: Op, id: JobId) {
    var since := PendingSince(before, id.user);
    match op
    case RunJob(j, _) => j == id
    case Cancel(v, _, reachable) => v == id.user && reachable && since.Some? && JobOf(before, v) == Some(id)
    case Login(v, now, reachable) =>
      v == id.user && reachable && since.Some? && now < since.value + GRACE_MS && JobOf(before, v) == Some(id)
    case _ => false
  }

  /** A job is queued from the request that it belongs to until a step takes it off. */
  predicate QueuedInLog(ops: seq<Op>, id: JobId) {
    ops != [] &&
    (var before, op := ops[..|ops| - 1], ops[|ops| - 1];
     if op.Request? && op.user == id.user && op.reachable && PendingSince(before, op.user).None?
        && id.scheduledFor == op.now + GRACE_MS then true
     else QueuedInLog(before, id) && !Unqueues(before, op, id))
  }

  ghost predicate QueueRepeats(s: State, ops: seq<Op>, id: JobId) {
    && (id in s.jobs <==> QueuedInLog(ops, id))
    && (id in s.jobs ==> s.jobs[id] == Job(id.user, id.scheduledFor))
    && (JobOf(ops, id.user) == if id.user in s.records then s.records[id.user].jobId else None)
    && forall v :: v in s.records && s.records[v].jobId.Some? ==> s.records[v].jobId.value.user == v
  }

  lemma {:induction false} QueueStep(s: State, ops: seq<Op>, op: Op, id: JobId)
    requires s.Valid() && RepeatsLog(s, ops, id.user) && Legal(s, op) && QueueRepeats(s, ops, id)
    requires id.user in Step(s, op).users
    ensures id.user in s.users && QueueRepeats(Step(s, op), ops + [op], id)
  {
    QueueUnfolds(ops, op, id);
    hide PendingSince, JobOf, QueuedInLog;
    match op {
      case Request(v, now, reachable) =>
        RequestQueues(s, v, now, reachable, id);
        hide Unqueues, RequestStep;
      case Cancel(v, now, reachable) =>
        CancelUnqueues(s, v, now, reachable, id);
        hide CancelStep;
      case Login(v, now, reachable) =>
        CancelUnqueues(s, v, now, reachable, id);
        hide CancelStep;
      case RunJob(taken, _) =>
        TakenOnce(s, taken, id);
        hide JobStep;
      case Cron(_, _) =>
    }
  }

  lemma {:induction false} RequestQueues(s: State, v: string, now: int, reachable: bool, id: JobId)
    requires s.Valid() && forall w :: w in s.records && s.records[w].jobId.Some? ==> s.records[w].jobId.value.user == w
    ensures var after, accepted := RequestStep(s, v, now, reachable), v in s.users && !s.Pending(v) && reachable;
      var job := JobId(v, now + GRACE_MS);
      && (id in after.jobs <==> id in s.jobs || (accepted && id == job))
      && (id in after.jobs ==> after.jobs[id] == if id in s.jobs then s.jobs[id] else Job(id.user, id.scheduledFor))
      && (v != id.user ==> (id.user in after.records <==> id.user in s.records))
      && (v != id.user && id.user in s.records ==> after.records[id.user] == s.records[id.user])
      && (v in s.records || accepted ==> v in after.records)
      && (v in after.records ==>
            after.records[v].jobId ==
              if accepted then Some(job) else if v in s.records then s.records[v].jobId else None)
      && forall w :: w in after.records && after.records[w].jobId.Some? ==> after.records[w].jobId.value.user == w
  {
  }

  lemma {:induction false} TakenOnce(s: State, taken: JobId, id: JobId)
    requires s.Valid() && taken in s.jobs && id.user in JobStep(s, taken).users
    ensures var after := JobStep(s, taken);
      && (id in after.jobs <==> id in s.jobs && id != taken) && (id in after.jobs ==> after.jobs[id] == s.jobs[id])
      && (id.user in after.records <==> id.user in s.records)
      && forall w :: w in after.records ==> w in s.records && after.records[w] == s.records[w]
  {
  }

  lemma {:induction false} QueueUnfolds(ops: seq<Op>, op: Op, id: JobId)
    ensures var accepted := op.Request? && op.user == id.user && op.reachable && PendingSince(ops, id.user).None?;
      && JobOf(ops + [op], id.user) ==
           (if accepted then Some(JobId(id.user, op.now + GRACE_MS)) else JobOf(ops, id.user))
      && (QueuedInLog(ops + [op], id) <==>
            (accepted && id.scheduledFor == op.now + GRACE_MS) || (QueuedInLog(ops, id) && !Unqueues(ops, op, id)))
  {
    assert (ops + [op])[..|ops|] == ops;
    hide PendingSince;
  }

  lemma {:induction false} CancelUnqueues(s: State, v: string, now: int, reachable: bool, id: JobId)
    requires s.Valid() && forall w :: w in s.records && s.records[w].jobId.Some? ==> s.records[w].jobId.value.user == w
    ensures var after := CancelStep(s, v, now, reachable);
      && (id in after.jobs <==>
            id in s.jobs && !(v == id.user && reachable && s.Pending(v) && s.records[v].jobId == Some(id)))
      && (id in after.jobs ==> after.jobs[id] == s.jobs[id])
      && after.records.Keys == s.records.Keys && after.users.Keys == s.users.Keys
      && forall w :: w in s.records ==> after.records[w].jobId == s.records[w].jobId
  {
  }

  /** The queue and the recorded jobs, from the log, for every user who is still there. */
  lemma {:induction false} QueueFromLog(s: State, ops: seq<Op>, id: JobId)
    requires Fresh(s) && LegalRun(s, ops) && id.user in Run(s, ops).users
    ensures QueueRepeats(Run(s, ops), ops, id)
  {
    if ops != [] {
      var n := |ops| - 1;
      StateRepeatsLog(s, ops[..n], id.user);
      UsersShrink(Run(s, ops[..n]), ops[n]);
      QueueFromLog(s, ops[..n], id);
      QueueStep(Run(s, ops[..n]), ops[..n], ops[n], id);
      assert ops[..n] + [ops[n]] == ops;
    }
    hide Step, Legal, PendingSince, JobOf, QueuedInLog;
  }

  lemma {:induction false} UsersShrink(s: State, op: Op)
    requires s.Valid()
    ensures Step(s, op).users.Keys <= s.users.Keys
  {
  }

  /** What the status endpoint says, from the log. */
  lemma {:induction false} StatusFromLog(s: State, ops: seq<Op>, u: string, now: int)
    requires Fresh(s) && LegalRun(s, ops) && u in Run(s, ops).users
    ensures var records, since := Run(s, ops).records, PendingSince(ops, u);
      var status := ToStatus(if u in records then Some(records[u]) else None, now);
      if since.None? then status == Status(false, None, None, None)
      else
        && status.pending && status.requestedAt == since && status.scheduledFor == Some(since.value + GRACE_MS)
        && status.daysRemaining.Some? && status.daysRemaining.value >= 0
        && forall n: nat :: n >= status.daysRemaining.value <==> now + n * DAY_MS >= since.value + GRACE_MS
  {
    StateRepeatsLog(s, ops, u);
    var records := Run(s, ops).records;
    hide Run, PendingSince, Fresh, LegalRun;
    if u in records && records[u].Pending() {
      forall n: nat {
        DaysRemaining(records[u], now, n);
      }
    }
  }

  // ---- When the purge may come too early ----

  /** No queued job of a user with a pending request fires before that request's schedule. */
  ghost predicate Timely(s: State) {
    forall id :: id in s.jobs && s.Pending(s.jobs[id].user) ==>
      s.records[s.jobs[id].user].scheduledFor <= s.jobs[id].fireAt
  }

  /** A request made at `now` finds no left-over job that would fire before its own schedule. */
  ghost predicate Clean(s: State, u: string, now: int) {
    forall id :: id in s.jobs && s.jobs[id].user == u ==> now + GRACE_MS <= s.jobs[id].fireAt
  }

  /** Left-over jobs at the moment of a new request are all that can endanger it. */
  lemma {:induction false} RequestTimelyExactly(s: State, u: string, now: int, reachable: bool)
    requires Timely(s) && u in s.users && !s.Pending(u)
    ensures Timely(RequestStep(s, u, now, reachable)) <==> Clean(s, u, now)
  {
    var after := RequestStep(s, u, now, reachable);
    if Timely(after) {
      forall id | id in s.jobs && s.jobs[id].user == u
        ensures now + GRACE_MS <= s.jobs[id].fireAt
      {
        assert id in after.jobs;
      }
    }
  }

  lemma {:induction false} TimelyStep(s: State, op: Op)
    requires Timely(s) && Legal(s, op)
    requires op.Request? && op.user in s.users && !s.Pending(op.user) ==> Clean(s, op.user, op.now)
    ensures Timely(Step(s, op))
  {
    if op.Request? && op.user in s.users && !s.Pending(op.user) {
      RequestTimelyExactly(s, op.user, op.now, op.reachable);
    }
  }

  /** An unclean request is indeed purged early: its left-over job fires and is obeyed. */
  lemma {:induction false} UncleanRequestPurgedEarly(s: State, u: string, now: int, reachable: bool, id: JobId)
    requires u in s.users && !s.Pending(u)
    requires id in s.jobs && s.jobs[id].user == u && s.jobs[id].fireAt < now + GRACE_MS
    ensures var t := if s.jobs[id].fireAt < now then now else s.jobs[id].fireAt;
      var requested := RequestStep(s, u, now, reachable);
      && Legal(requested, Op.RunJob(id, t))
      && u !in Step(requested, Op.RunJob(id, t)).users
      && requested.records[u].scheduledFor > t
  {
  }

  /** Every request that is accepted during the run is clean. */
  ghost predicate CleanRun(s: State, ops: seq<Op>) {
    ops == [] ||
    (var n := |ops| - 1;
     var before := Run(s, ops[..n]);
     CleanRun(s, ops[..n]) &&
     (ops[n].Request? && ops[n].user in before.users && !before.Pending(ops[n].user) ==>
        Clean(before, ops[n].user, ops[n].now)))
  }

  /** No queued job of a pending request fires before its schedule, in any state of the run. */
  ghost predicate AlwaysTimely(s: State, ops: seq<Op>) {
    Timely(Run(s, ops)) && (ops == [] || AlwaysTimely(s, ops[..|ops| - 1]))
  }

  /** That is so exactly if every accepted request is clean. */
  lemma {:induction false} TimelyRun(s: State, ops: seq<Op>)
    requires Fresh(s) && LegalRun(s, ops)
    ensures AlwaysTimely(s, ops) <==> CleanRun(s, ops)
  {
    hide Timely, Clean, Step, Legal;
    if ops == [] {
      NothingQueued(s);
    } else {
      var n := |ops| - 1;
      var before := Run(s, ops[..n]);
      TimelyRun(s, ops[..n]);
      if AlwaysTimely(s, ops[..n]) {
        if ops[n].Request? && ops[n].user in before.users && !before.Pending(ops[n].user) {
          AcceptedRequest(before, ops[n]);
          RequestTimelyExactly(before, ops[n].user, ops[n].now, ops[n].reachable);
        } else {
          TimelyStep(before, ops[n]);
        }
      }
    }
  }

  lemma {:induction false} NothingQueued(s: State)
    requires Fresh(s)
    ensures Timely(s)
  {
  }

  lemma {:induction false} AcceptedRequest(s: State, op: Op)
    requires op.Request?
    ensures Step(s, op) == RequestStep(s, op.user, op.now, op.reachable)
  {
  }

  /** No premature purge: whenever a step removes a user, the log shows an uncancelled request made
      at least 30 days earlier. */
  lemma {:induction false} NoPrematurePurge(s: State, ops: seq<Op>, op: Op, u: string)
    requires Fresh(s) && LegalRun(s, ops) && CleanRun(s, ops) && Legal(Run(s, ops), op)
    requires u in Run(s, ops).users && u !in Step(Run(s, ops), op).users
    ensures PendingSince(ops, u).Some? && PendingSince(ops, u).value + GRACE_MS <= op.now
  {
    StateRepeatsLog(s, ops, u);
    TimelyRun(s, ops);
  }

  // ---- Reliable cancellation makes every request clean ----

  /** The queue was reachable whenever a cancellation tried to remove a job. */
  ghost predicate ReliableCancels(ops: seq<Op>) {
    forall i :: 0 <= i < |ops| && (ops[i].Cancel? || ops[i].Login?) ==> ops[i].reachable
  }

  /** A living user has at most the job that its pending record names. */
  ghost predicate Tracked(s: State) {
    forall id :: id in s.jobs && s.jobs[id].user in s.users ==>
      var u := s.jobs[id].user; s.Pending(u) && s.records[u].jobId == Some(id)
  }

  lemma {:induction false} TrackedStep(s: State, op: Op)
    requires s.Valid() && Tracked(s)
    requires op.Cancel? || op.Login? ==> op.reachable
    ensures Tracked(Step(s, op))
  {
  }

  lemma {:induction false} ReliableRunIsClean(s: State, ops: seq<Op>)
    requires Fresh(s) && LegalRun(s, ops) && ReliableCancels(ops)
    ensures Tracked(Run(s, ops)) && CleanRun(s, ops)
  {
    if ops != [] {
      var n := |ops| - 1;
      assert ReliableCancels(ops[..n]) by {
        forall i | 0 <= i < n && (ops[..n][i].Cancel? || ops[..n][i].Login?)
          ensures ops[..n][i].reachable
        {
          assert ops[i].reachable;
        }
      }
      ReliableRunIsClean(s, ops[..n]);
      StateRepeatsLog(s, ops[..n], "");
      TrackedStep(Run(s, ops[..n]), ops[n]);
    }
  }

  /** The promise of the 30 days, for every run whose cancellations reach the queue. */
  lemma {:induction false} ThirtyDays(s: State, ops: seq<Op>, op: Op, u: string)
    requires Fresh(s) && LegalRun(s, ops) && ReliableCancels(ops) && Legal(Run(s, ops), op)
    requires u in Run(s, ops).users && u !in Step(Run(s, ops), op).users
    ensures PendingSince(ops, u).Some? && PendingSince(ops, u).value + 30 * 86_400_000 <= op.now
  {
    ReliableRunIsClean(s, ops);
    NoPrematurePurge(s, ops, op, u);
  }

  // ---- The purge does come ----

  ghost predicate AllReachable(ops: seq<Op>) {
    forall i :: 0 <= i < |ops| && (ops[i].Request? || ops[i].Cancel? || ops[i].Login?) ==> ops[i].reachable
  }

  /** Jobs are what their ids say, and a pending record has its job in the queue. */
  ghost predicate Queued(s: State) {
    && (forall id :: id in s.jobs ==> s.jobs[id] == Job(id.user, id.scheduledFor))
    && (forall u :: u in s.users && s.Pending(u) ==>
          var id := JobId(u, s.records[u].scheduledFor); id in s.jobs && s.records[u].jobId == Some(id))
  }

  lemma {:induction false} QueuedStep(s: State, op: Op)
    requires s.Valid() && Tracked(s) && Queued(s)
    requires op.Request? || op.Cancel? || op.Login? ==> op.reachable
    ensures Queued(Step(s, op))
  {
  }

  lemma {:induction false} QueuedRun(s: State, ops: seq<Op>)
    requires Fresh(s) && LegalRun(s, ops) && AllReachable(ops)
    ensures Queued(Run(s, ops))
  {
    if ops != [] {
      var n := |ops| - 1;
      assert AllReachable(ops[..n]) && ReliableCancels(ops[..n]) by {
        forall i | 0 <= i < n && (ops[..n][i].Request? || ops[..n][i].Cancel? || ops[..n][i].Login?)
          ensures ops[..n][i].reachable
        {
          assert ops[i].reachable;
        }
      }
      QueuedRun(s, ops[..n]);
      ReliableRunIsClean(s, ops[..n]);
      StateRepeatsLog(s, ops[..n], "");
      hide Tracked, Queued, CleanRun, LegalRun, Fresh, RepeatsLog;
      QueuedStep(Run(s, ops[..n]), ops[n]);
    }
  }

  /** While the queue can be reached, a request that is not cancelled ends the account: 30 days after it
      its job may fire, and both the job and any later batch with the user in it delete the user. */
  lemma {:induction false} PurgeComes(s: State, ops: seq<Op>, u: string, now: int)
    requires Fresh(s) && LegalRun(s, ops) && AllReachable(ops) && u in Run(s, ops).users
    requires PendingSince(ops, u).Some? && PendingSince(ops, u).value + GRACE_MS <= now
    ensures var before := Run(s, ops);
      var job, batch := Op.RunJob(JobId(u, PendingSince(ops, u).value + GRACE_MS), now), Op.Cron(now, {u});
      && Legal(before, job) && Step(before, job).users == before.users - {u}
      && Legal(before, batch) && Step(before, batch).users == before.users - {u}
  {
    QueuedRun(s, ops);
    StateRepeatsLog(s, ops, u);
    hide Run, PendingSince, Fresh, LegalRun, AllReachable;
  }

  lemma {:induction false} RunOneMore(s: State, ops: seq<Op>, op: Op)
    requires LegalRun(s, ops) && Legal(Run(s, ops), op)
    ensures Run(s, ops + [op]) == Step(Run(s, ops), op) && LegalRun(s, ops + [op])
  {
    assert (ops + [op])[..|ops|] == ops;
  }

  /** Without that assumption it fails: the job that a lost cancellation left behind purges the
      account ten days after the second request. */
  lemma {:induction false} LostCancelPurgesEarly()
    ensures var s := State(map["u" := None], map[], map[]);
      var ops := [Op.Request("u", 0, true), Op.Cancel("u", DAY_MS, false), Op.Request("u", 20 * DAY_MS, true)];
      var op := Op.RunJob(JobId("u", GRACE_MS), GRACE_MS);
      && Fresh(s) && LegalRun(s, ops) && Legal(Run(s, ops), op)
      && "u" in Run(s, ops).users && "u" !in Step(Run(s, ops), op).users
      && PendingSince(ops, "u") == Some(20 * DAY_MS)
  {
    var s := State(map["u" := None], map[], map[]);
    var r1, c, r2 := Op.Request("u", 0, true), Op.Cancel("u", DAY_MS, false), Op.Request("u", 20 * DAY_MS, true);
    RunOneMore(s, [], r1);
    RunOneMore(s, [r1], c);
    RunOneMore(s, [r1, c], r2);
    assert [] + [r1] == [r1] && [r1] + [c] == [r1, c] && [r1, c] + [r2] == [r1, c, r2];
    var s3 := Run(s, [r1, c, r2]);
    assert s3 == Step(Step(Step(s, r1), c), r2);
    assert s3.jobs[JobId("u", GRACE_MS)] == Job("u", GRACE_MS);
    StateRepeatsLog(s, [r1, c, r2], "u");
    assert s3.users["u"] == Some(20 * DAY_MS);
  }

  /** `daysRemaining` is the least whole number of days after which the schedule is reached. */
  lemma {:induction false} DaysRemaining(rec: Record, now: int, n: nat)
    requires rec.Pending()
    ensures var st := ToStatus(Some(rec), now);
      st.pending && (n >= st.daysRemaining.value <==> now + n * DAY_MS >= rec.scheduledFor)
  {
  }
}
