/** Event RSVPs: a bounded set of seats, a waitlist served by `joinedAt`, and the cached counter. */
module Rsvp {
  import opened Prelude

  datatype Status = GOING | INTERESTED | NOT_GOING | WAITLIST

  /** A row of `event_participants`; `joinedAt` is set on creation and never updated. */
  datatype Participant = Participant(status: Status, joinedAt: int)

  datatype Event = Event(maxParticipants: Option<nat>, participantsCount: int, rows: map<string, Participant>) {

    /** `if (event.maxParticipants)`: zero means no limit, as null does. */
    predicate Limited() {
      maxParticipants.Some? && maxParticipants.value > 0
    }

    function With(s: Status): set<string> {
      set u | u in rows && rows[u].status == s
    }

    function Going(): set<string> { With(GOING) }

    function Waiting(): set<string> { With(WAITLIST) }
  }

  /** `findFirst` by ascending `joinedAt`: among rows of equal age any may be returned. */
  ghost predicate IsFirstWaiting(e: Event, w: string) {
    w in e.Waiting() && forall v :: v in e.Waiting() ==> e.rows[w].joinedAt <= e.rows[v].joinedAt
  }

  // ---- One RSVP as one step ----

  /** An RSVP together with the row, if any, that the database picked for promotion. */
  datatype Op = Op(user: string, status: Status, now: int, next: Option<string>)

  predicate LeavesSeat(e: Event, user: string) {
    user in e.rows && e.rows[user].status == GOING
  }

  /** The database's pick is a first waiter, and there is a pick whenever one is asked for and exists. */
  ghost predicate Legal(e: Event, op: Op) {
    if op.status == NOT_GOING && LeavesSeat(e, op.user) && e.Limited() then
      match op.next
      case None => e.Waiting() == {}
      case Some(w) => IsFirstWaiting(e, w)
    else op.next == None
  }

  /** The row goes; a given-up seat goes to the picked waiter, or else the counter drops. */
  function Leave(e: Event, op: Op): Event {
    if op.user !in e.rows then e
    else
      var gone := e.(rows := map u | u in e.rows && u != op.user :: e.rows[u]);
      if e.rows[op.user].status != GOING then gone
      else
        match op.next
        case None => gone.(participantsCount := e.participantsCount - 1)
        case Some(w) =>
          if w in gone.rows then gone.(rows := gone.rows[w := gone.rows[w].(status := GOING)])
          else gone.(participantsCount := e.participantsCount - 1)
  }

  /** The status that is stored: a full event turns GOING into WAITLIST. */
  function Effective(e: Event, user: string, status: Status): Status {
    if status == GOING && e.Limited() then
      var effectiveCount := if LeavesSeat(e, user) then |e.Going()| else |e.Going()| + 1;
      if effectiveCount > e.maxParticipants.value then WAITLIST else GOING
    else status
  }

  /** The transaction that stores a decided status. */
  function Stored(e: Event, user: string, effective: Status, now: int): Event {
    var row := if user in e.rows then e.rows[user].(status := effective) else Participant(effective, now);
    var delta := (if effective == GOING then 1 else 0) - (if LeavesSeat(e, user) then 1 else 0);
    e.(rows := e.rows[user := row], participantsCount := e.participantsCount + delta)
  }

  function Join(e: Event, op: Op): Event {
    Stored(e, op.user, Effective(e, op.user, op.status), op.now)
  }

  function Step(e: Event, op: Op): Event {
    if op.status == NOT_GOING then Leave(e, op) else Join(e, op)
  }

  datatype Reply = NotFound | Reply(rsvpStatus: Status, promotedFromWaitlist: seq<string>)

  /** The rows of one event. */
  class EventService {
    var maxParticipants: Option<nat>
    var participantsCount: int
    var rows: map<string, Participant>
    var deleted: bool

    function Contents(): Event
      reads this
    {
      Event(maxParticipants, participantsCount, rows)
    }

    /** `createEvent`: the organizer takes the first seat. */
    constructor (organizer: string, limit: Option<nat>, now: int)
      ensures !deleted && Contents() == Created(organizer, limit, now)
    {
      maxParticipants, deleted := limit, false;
      participantsCount := 1;
      rows := map[organizer := Participant(GOING, now)];
    }

    method FindFirstWaiting() returns (next: Option<string>)
      ensures next.None? <==> Contents().Waiting() == {}
      ensures next.Some? ==> IsFirstWaiting(Contents(), next.value)
    {
      next := None;
      var todo := Contents().Waiting();
      while todo != {}
        invariant todo <= Contents().Waiting()
        invariant next.None? <==> todo == Contents().Waiting()
        invariant next.Some? ==> next.value in Contents().Waiting()
        invariant next.Some? ==>
          forall v :: v in Contents().Waiting() - todo ==> rows[next.value].joinedAt <= rows[v].joinedAt
        decreases todo
      {
        var w :| w in todo;
        if next.None? || rows[w].joinedAt < rows[next.value].joinedAt {
          next := Some(w);
        }
        todo := todo - {w};
      }
    }

    method Rsvp(userId: string, status: Status, now: int) returns (reply: Reply)
      modifies this
      ensures deleted == old(deleted)
      ensures deleted ==> reply == NotFound && Contents() == old(Contents())
      ensures !deleted ==>
        && reply.Reply?
        && |reply.promotedFromWaitlist| <= 1
        && (var next := if reply.promotedFromWaitlist == [] then None else Some(reply.promotedFromWaitlist[0]);
            var op := Op(userId, status, now, next);
            Legal(old(Contents()), op) && Contents() == Step(old(Contents()), op))
        && reply.rsvpStatus == (if status == NOT_GOING then NOT_GOING else rows[userId].status)
    {
      if deleted {
        return NotFound;
      }
      var existing := if userId in rows then Some(rows[userId]) else None;
      var promoted := [];
      if status == NOT_GOING {
        if existing.None? {
          return Reply(NOT_GOING, []);
        }
        ghost var before := Contents();
        rows := map u | u in rows && u != userId :: rows[u];
        if existing.value.status == GOING {
          participantsCount := participantsCount - 1;
          assert Contents().Waiting() == before.Waiting();
          if maxParticipants.Some? && maxParticipants.value > 0 {
            var next := FindFirstWaiting();
            if next.Some? {
              rows := rows[next.value := rows[next.value].(status := GOING)];
              participantsCount := participantsCount + 1;
              promoted := [next.value];
            }
          }
        }
        return Reply(NOT_GOING, promoted);
      }
      var effective := status;
      if status == GOING && maxParticipants.Some? && maxParticipants.value > 0 {
        var goingCount := |Contents().Going()|;
        var wasGoing := existing.Some? && existing.value.status == GOING;
        var effectiveCount := if wasGoing then goingCount else goingCount + 1;
        if effectiveCount > maxParticipants.value {
          effective := WAITLIST;
        }
      }
      if existing.Some? {
        rows := rows[userId := existing.value.(status := effective)];
        if existing.value.status != GOING && effective == GOING {
          participantsCount := participantsCount + 1;
        }
        if existing.value.status == GOING && effective != GOING {
          participantsCount := participantsCount - 1;
        }
      } else {
        rows := rows[userId := Participant(effective, now)];
        if effective == GOING {
          participantsCount := participantsCount + 1;
        }
      }
      return Reply(effective, promoted);
    }
  }

  function Created(organizer: string, limit: Option<nat>, now: int): Event {
    Event(limit, 1, map[organizer := Participant(GOING, now)])
  }

  // ---- What one RSVP does to the rows ----

  /** The user's own row: gone, as asked for, or a seat exactly if the event has one for it; and its
      place in line is that of its first answer. */
  lemma {:induction false} OwnRow(e: Event, op: Op)
    requires Legal(e, op)
    ensures var after, u := Step(e, op), op.user;
      var seated := u in e.rows && e.rows[u].status == GOING;
      var unlimited := e.maxParticipants == None || e.maxParticipants == Some(0);
      var going := |set v | v in e.rows && e.rows[v].status == GOING|;
      match op.status
      case NOT_GOING => u !in after.rows
      case _ =>
        && u in after.rows
        && after.rows[u].joinedAt == (if u in e.rows then e.rows[u].joinedAt else op.now)
        && match op.status
           case INTERESTED => after.rows[u].status == INTERESTED
           case WAITLIST => after.rows[u].status == WAITLIST
           case _ =>
             after.rows[u].status ==
               if unlimited || going < e.maxParticipants.value || (seated && going <= e.maxParticipants.value)
               then GOING
               else WAITLIST
  {
    assert (set v | v in e.rows && e.rows[v].status == GOING) == e.Going();
  }

  /** Nobody else's row changes but the promoted waiter's, which becomes GOING and keeps its place in
      line; a first waiter is promoted exactly when a seat of an event with a limit is given up. */
  lemma {:induction false} OtherRows(e: Event, op: Op)
    requires Legal(e, op)
    ensures var after := Step(e, op);
      && after.maxParticipants == e.maxParticipants
      && (op.next.Some? ==>
            && op.status == NOT_GOING && op.next.value in e.rows && e.rows[op.next.value].status == WAITLIST
            && op.next.value in after.rows
            && after.rows[op.next.value] == Participant(GOING, e.rows[op.next.value].joinedAt))
      && forall v :: v != op.user && Some(v) != op.next ==>
           (v in after.rows <==> v in e.rows) && (v in e.rows ==> after.rows[v] == e.rows[v])
  {
  }

  /** The counter moves with the number of seats taken, also if it was wrong before. */
  lemma {:induction false} CounterFollows(e: Event, op: Op)
    requires Legal(e, op)
    ensures Step(e, op).participantsCount - e.participantsCount == |Step(e, op).Going()| - |e.Going()|
  {
    SeatsAfter(e, op);
    OtherRows(e, op);
  }

  // ---- Counter and capacity ----

  /** The cached counter is the number of GOING rows, and no NOT_GOING row is stored. */
  ghost predicate Consistent(e: Event) {
    e.participantsCount == |e.Going()| && e.With(NOT_GOING) == {}
  }

  ghost predicate WithinCapacity(e: Event) {
    e.Limited() ==> |e.Going()| <= e.maxParticipants.value
  }

  /** Seats after one step: who is GOING changes by the user and the promoted waiter only. */
  lemma {:induction false} GoingAfter(e: Event, op: Op)
    requires Legal(e, op)
    ensures var after := Step(e, op);
      after.Going() == (e.Going() - {op.user})
        + (if op.next.Some? then {op.next.value} else {})
        + (if op.status != NOT_GOING && Effective(e, op.user, op.status) == GOING then {op.user} else {})
  {
  }

  lemma {:induction false} WaitingAfter(e: Event, op: Op)
    requires Legal(e, op)
    ensures var after := Step(e, op);
      after.Waiting() == (e.Waiting() - {op.user})
        - (if op.next.Some? then {op.next.value} else {})
        + (if op.status != NOT_GOING && Effective(e, op.user, op.status) == WAITLIST then {op.user} else {})
  {
  }

  lemma {:induction false} SeatsAfter(e: Event, op: Op)
    requires Legal(e, op)
    ensures |Step(e, op).Going()| == |e.Going()|
        - (if LeavesSeat(e, op.user) then 1 else 0)
        + (if op.next.Some? then 1 else 0)
        + (if op.status != NOT_GOING && Effective(e, op.user, op.status) == GOING then 1 else 0)
  {
    GoingAfter(e, op);
    var gain := if op.next.Some? then op.next
                else if op.status != NOT_GOING && Effective(e, op.user, op.status) == GOING then Some(op.user)
                else None;
    hide Step, Effective, LeavesSeat;
    assert LeavesSeat(e, op.user) <==> op.user in e.Going() by {
      SeatIsGoing(e, op.user);
    }
    CardReplace(e.Going(), Step(e, op).Going(), op.user, gain);
  }

  lemma {:induction false} SeatIsGoing(e: Event, user: string)
    ensures LeavesSeat(e, user) <==> user in e.Going()
  {
  }

  /** Every branch of `rsvp` keeps the counter exact and never overfills the event. */
  lemma {:induction false} RsvpKeepsCount(e: Event, op: Op)
    requires Legal(e, op) && Consistent(e)
    ensures Consistent(Step(e, op))
    ensures e.Limited() ==>
      |Step(e, op).Going()| <= if |e.Going()| < e.maxParticipants.value then e.maxParticipants.value else |e.Going()|
  {
    SeatsAfter(e, op);
    if op.next.Some? {
      assert op.next.value in Step(e, op).rows;
    }
  }

  // ---- Runs ----

  function Run(e: Event, ops: seq<Op>): Event
    decreases |ops|
  {
    if ops == [] then e else Run(Step(e, ops[0]), ops[1..])
  }

  ghost predicate LegalRun(e: Event, ops: seq<Op>)
    decreases |ops|
  {
    ops == [] || (Legal(e, ops[0]) && LegalRun(Step(e, ops[0]), ops[1..]))
  }

  /** From `createEvent` on, the counter is exact and the capacity holds, whatever is requested. */
  lemma {:induction false} CapacityOnEveryRun(e: Event, ops: seq<Op>)
    requires LegalRun(e, ops) && Consistent(e) && WithinCapacity(e)
    ensures Consistent(Run(e, ops)) && WithinCapacity(Run(e, ops))
    decreases |ops|
  {
    if ops != [] {
      RsvpKeepsCount(e, ops[0]);
      CapacityOnEveryRun(Step(e, ops[0]), ops[1..]);
    }
  }

  /** The seats are counted before the transaction: a seat granted earlier and stored now respects the
      capacity exactly if the user already has one or one is still free. */
  lemma {:induction false} LateSeatExactly(e: Event, user: string, now: int)
    requires e.Limited() && WithinCapacity(e)
    ensures WithinCapacity(Stored(e, user, GOING, now))
      <==> LeavesSeat(e, user) || |e.Going()| < e.maxParticipants.value
  {
    var after := Stored(e, user, GOING, now);
    assert after.Going() - {user} == e.Going() - {user};
    CardDiffer(e.Going(), after.Going(), user);
    SeatIsGoing(e, user);
    SeatIsGoing(after, user);
  }

  lemma {:induction false} CreatedIsConsistent(organizer: string, limit: Option<nat>, now: int)
    ensures var e := Created(organizer, limit, now); Consistent(e) && WithinCapacity(e) && Queueing(e) && Conserving(e)
    ensures var e := Created(organizer, limit, now);
      e.maxParticipants == limit && e.rows == map[organizer := Participant(GOING, now)]
  {
    assert Created(organizer, limit, now).Going() == {organizer};
  }

  // ---- The waitlist wastes no seat ----

  /** Nobody waits unless every seat is taken. */
  ghost predicate Conserving(e: Event) {
    e.Waiting() != {} ==> e.Limited() && |e.Going()| == e.maxParticipants.value
  }

  /** The requests after which somebody may wait beside a free seat: leaving a seat for INTERESTED
      while others wait, or asking for the waitlist although a seat is, or thereby becomes, free. */
  predicate Wastes(e: Event, user: string, status: Status) {
    || (status == INTERESTED && LeavesSeat(e, user) && e.Waiting() != {})
    || (status == WAITLIST && (LeavesSeat(e, user) || !e.Limited() || |e.Going()| < e.maxParticipants.value))
  }

  /** Exactly those requests break work conservation. */
  lemma {:induction false} ConservingExactly(e: Event, op: Op)
    requires Legal(e, op) && WithinCapacity(e) && Conserving(e)
    ensures Conserving(Step(e, op)) <==> !Wastes(e, op.user, op.status)
  {
    SeatsAfter(e, op);
    WaitingAfter(e, op);
    var after := Step(e, op);
    if op.status == WAITLIST {
      assert op.user in after.Waiting();
    }
    if op.status == INTERESTED && LeavesSeat(e, op.user) {
      assert after.Waiting() == e.Waiting();
    }
  }

  lemma {:induction false} CapacityStep(e: Event, op: Op)
    requires Legal(e, op) && WithinCapacity(e)
    ensures WithinCapacity(Step(e, op))
  {
    SeatsAfter(e, op);
  }

  /** No request of the run wastes a seat. */
  ghost predicate NoWaste(e: Event, ops: seq<Op>)
    decreases |ops|
  {
    ops == [] || (!Wastes(e, ops[0].user, ops[0].status) && NoWaste(Step(e, ops[0]), ops[1..]))
  }

  /** In no state of the run anybody waits beside a free seat. */
  ghost predicate AlwaysConserving(e: Event, ops: seq<Op>)
    decreases |ops|
  {
    Conserving(e) && (ops == [] || AlwaysConserving(Step(e, ops[0]), ops[1..]))
  }

  /** A non-empty waitlist means that the event is exactly full, in every state of a run, exactly if
      no request of the run wastes a seat. */
  lemma {:induction false} WorkConservingRun(e: Event, ops: seq<Op>)
    requires LegalRun(e, ops) && WithinCapacity(e) && Conserving(e)
    ensures AlwaysConserving(e, ops) <==> NoWaste(e, ops)
    decreases |ops|
  {
    hide Conserving, WithinCapacity, Wastes, Legal, Step;
    if ops != [] {
      ConservingExactly(e, ops[0]);
      CapacityStep(e, ops[0]);
      if Conserving(Step(e, ops[0])) {
        WorkConservingRun(Step(e, ops[0]), ops[1..]);
      }
    }
  }

  /** A run of GOING and NOT_GOING requests only. */
  ghost predicate GoingOrNot(ops: seq<Op>) {
    forall i :: 0 <= i < |ops| ==> ops[i].status == GOING || ops[i].status == NOT_GOING
  }

  /** Such a run wastes nothing. */
  lemma {:induction false} GoingRunsWasteNothing(e: Event, ops: seq<Op>)
    requires GoingOrNot(ops)
    ensures NoWaste(e, ops)
    decreases |ops|
  {
    hide Step;
    if ops != [] {
      GoingRunsWasteNothing(Step(e, ops[0]), ops[1..]);
    }
  }

  // ---- First come, first served ----

  /** Whoever gets a seat in a step is at least as old as everybody still waiting. */
  lemma {:induction false} NoOvertaking(e: Event, op: Op, u: string, w: string)
    requires Legal(e, op) && Conserving(e)
    requires u !in e.Going() && u in Step(e, op).Going() && w in Step(e, op).Waiting()
    ensures Step(e, op).rows[u].joinedAt <= Step(e, op).rows[w].joinedAt
  {
    GoingAfter(e, op);
    WaitingAfter(e, op);
  }

  /** Whatever `u` asks for during the run is GOING. */
  ghost predicate StaysInLine(ops: seq<Op>, u: string) {
    forall i :: 0 <= i < |ops| && ops[i].user == u ==> ops[i].status == GOING
  }

  /** Then a seat is kept, and a place in the queue is kept or turned into a seat. */
  lemma {:induction false} PlaceKept(e: Event, op: Op, u: string)
    requires Legal(e, op) && WithinCapacity(e) && u in e.rows && (op.user == u ==> op.status == GOING)
    ensures var after := Step(e, op);
      && u in after.rows && after.rows[u].joinedAt == e.rows[u].joinedAt
      && (u in e.Going() ==> u in after.Going())
      && (u in e.Waiting() ==> u in after.Going() || u in after.Waiting())
  {
    GoingAfter(e, op);
  }

  lemma {:induction false} SeatKept(e: Event, ops: seq<Op>, u: string)
    requires LegalRun(e, ops) && WithinCapacity(e) && StaysInLine(ops, u) && u in e.Going()
    ensures u in Run(e, ops).Going()
    decreases |ops|
  {
    if ops != [] {
      PlaceKept(e, ops[0], u);
      CapacityStep(e, ops[0]);
      SeatKept(Step(e, ops[0]), ops[1..], u);
    }
  }

  /** FIFO over runs that waste nothing: of two waiters that stay in line, the later one is never
      seated before the earlier. */
  lemma {:induction false} FirstComeFirstServed(e: Event, ops: seq<Op>, w: string, u: string)
    requires LegalRun(e, ops) && WithinCapacity(e) && Conserving(e) && NoWaste(e, ops)
    requires StaysInLine(ops, w) && StaysInLine(ops, u)
    requires w in e.Waiting() && u in e.Waiting() && e.rows[w].joinedAt < e.rows[u].joinedAt
    ensures u in Run(e, ops).Going() ==> w in Run(e, ops).Going()
    decreases |ops|
  {
    if ops != [] {
      var op, after := ops[0], Step(e, ops[0]);
      ConservingExactly(e, op);
      CapacityStep(e, op);
      PlaceKept(e, op, w);
      PlaceKept(e, op, u);
      if w in after.Going() {
        SeatKept(after, ops[1..], w);
      } else {
        if u in after.Going() {
          NoOvertaking(e, op, u, w);
        }
        hide Conserving, WithinCapacity, Wastes, Legal, Step;
        FirstComeFirstServed(after, ops[1..], w, u);
      }
    }
  }

  // ---- The place in the queue ----

  /** The waiters that may be served before `u`. */
  function Ahead(e: Event, u: string): set<string>
    requires u in e.rows
  {
    set w | w in e.Waiting() && w != u && e.rows[w].joinedAt <= e.rows[u].joinedAt
  }

  /** The requests that put somebody new ahead of `u`: a row that was not waiting is stored as waiting,
      with a `joinedAt` no later than that of `u`. */
  predicate JumpsAhead(e: Event, op: Op, u: string)
    requires u in e.rows
  {
    && op.status != NOT_GOING && op.user != u && op.user !in e.Waiting()
    && Effective(e, op.user, op.status) == WAITLIST
    && (if op.user in e.rows then e.rows[op.user].joinedAt else op.now) <= e.rows[u].joinedAt
  }

  /** Exactly those requests put anybody ahead of a waiter. */
  lemma {:induction false} JumpsAheadExactly(e: Event, op: Op, u: string)
    requires Legal(e, op) && u in e.Waiting() && u in Step(e, op).Waiting()
    ensures Ahead(Step(e, op), u) <= Ahead(e, u) <==> !JumpsAhead(e, op, u)
  {
    var after := Step(e, op);
    WaitingAfter(e, op);
    if JumpsAhead(e, op, u) {
      assert op.user in Ahead(after, u);
    }
  }

  /** How many seats are given up during a run. */
  function Departures(e: Event, ops: seq<Op>): nat
    decreases |ops|
  {
    if ops == [] then 0
    else
      (if ops[0].status == NOT_GOING && LeavesSeat(e, ops[0].user) then 1 else 0)
      + Departures(Step(e, ops[0]), ops[1..])
  }

  /** Without a jump nobody gets ahead of `u`, and a departure seats `u` or somebody ahead of it. */
  lemma {:induction false} QueueMoves(e: Event, op: Op, u: string)
    requires Legal(e, op) && e.Limited() && WithinCapacity(e)
    requires u in e.Waiting() && (op.user == u ==> op.status == GOING) && !JumpsAhead(e, op, u)
    ensures var after := Step(e, op);
      && u in after.rows
      && (u in after.Going() ||
          (u in after.Waiting() &&
           |Ahead(after, u)| + (if op.status == NOT_GOING && LeavesSeat(e, op.user) then 1 else 0) <= |Ahead(e, u)|))
  {
    var after := Step(e, op);
    PlaceKept(e, op, u);
    WaitingAfter(e, op);
    if u !in after.Going() {
      JumpsAheadExactly(e, op, u);
      CardSubset(Ahead(after, u), Ahead(e, u));
      if op.status == NOT_GOING && LeavesSeat(e, op.user) {
        assert op.next.Some? && op.next.value in Ahead(e, u) && op.next.value !in Ahead(after, u);
      }
    }
  }

  /** No request of the run jumps ahead of `u` while it waits. */
  ghost predicate NoJumps(e: Event, ops: seq<Op>, u: string)
    decreases |ops|
  {
    ops == [] || ((u in e.Waiting() ==> !JumpsAhead(e, ops[0], u)) && NoJumps(Step(e, ops[0]), ops[1..], u))
  }

  /** A waiter with k waiters ahead is seated after at most k + 1 departures, if it stays in line and
      nobody jumps ahead of it. */
  lemma {:induction false} ServedAfterDepartures(e: Event, ops: seq<Op>, u: string)
    requires LegalRun(e, ops) && e.Limited() && WithinCapacity(e) && u in e.Waiting()
    requires StaysInLine(ops, u) && NoJumps(e, ops, u)
    requires Departures(e, ops) > |Ahead(e, u)|
    ensures u in Run(e, ops).Going()
    decreases |ops|
  {
    var op, after := ops[0], Step(e, ops[0]);
    CapacityStep(e, op);
    QueueMoves(e, op, u);
    if u in after.Going() {
      SeatKept(after, ops[1..], u);
    } else {
      assert after.maxParticipants == e.maxParticipants;
      hide WithinCapacity, JumpsAhead, Ahead, Legal, Step;
      ServedAfterDepartures(after, ops[1..], u);
    }
  }

  /** Every row holds a seat or waits for one. */
  ghost predicate Queueing(e: Event) {
    forall u :: u in e.rows ==> e.rows[u].status == GOING || e.rows[u].status == WAITLIST
  }

  /** On runs of GOING and NOT_GOING requests, from a new event say, nobody ever jumps ahead of `u` if
      the requests are stamped later than its own. */
  lemma {:induction false} GoingRunsNeverJump(e: Event, ops: seq<Op>, u: string)
    requires LegalRun(e, ops) && WithinCapacity(e) && Queueing(e) && GoingOrNot(ops)
    requires u in e.rows && StaysInLine(ops, u)
    requires forall i :: 0 <= i < |ops| ==> ops[i].now > e.rows[u].joinedAt
    ensures NoJumps(e, ops, u)
    decreases |ops|
  {
    if ops != [] {
      var op, after := ops[0], Step(e, ops[0]);
      CapacityStep(e, op);
      PlaceKept(e, op, u);
      SeatIsGoing(e, op.user);
      assert Queueing(after);
      assert !JumpsAhead(e, op, u);
      hide WithinCapacity, JumpsAhead, Legal, Step, Queueing;
      GoingRunsNeverJump(after, ops[1..], u);
    }
  }

  // ---- Requests for INTERESTED ----

  /** One seat, one waiter: turning GOING into INTERESTED empties the seat and promotes nobody. */
  lemma {:induction false} InterestedStrandsWaiter()
    ensures var e := Event(Some(1), 1, map["a" := Participant(GOING, 0), "b" := Participant(WAITLIST, 1)]);
      var after := Step(e, Op("a", INTERESTED, 2, None));
      && WithinCapacity(e) && Conserving(e) && Legal(e, Op("a", INTERESTED, 2, None))
      && after.Going() == {} && after.Waiting() == {"b"}
  {
    var e := Event(Some(1), 1, map["a" := Participant(GOING, 0), "b" := Participant(WAITLIST, 1)]);
    assert e.Going() == {"a"};
    assert "b" in Step(e, Op("a", INTERESTED, 2, None)).Waiting();
  }

  /** An INTERESTED row keeps its `joinedAt`, so its owner enters the queue ahead of an older waiter. */
  lemma {:induction false} InterestedJumpsQueue()
    ensures var e := Event(Some(1), 1,
          map["a" := Participant(GOING, 0), "b" := Participant(WAITLIST, 2), "c" := Participant(INTERESTED, 1)]);
      var after := Step(e, Op("c", GOING, 3, None));
      && Legal(e, Op("c", GOING, 3, None))
      && after.Waiting() == {"b", "c"} && IsFirstWaiting(after, "c") && !IsFirstWaiting(after, "b")
  {
    var e := Event(Some(1), 1,
      map["a" := Participant(GOING, 0), "b" := Participant(WAITLIST, 2), "c" := Participant(INTERESTED, 1)]);
    assert e.Going() == {"a"};
    var after := Step(e, Op("c", GOING, 3, None));
    assert after.rows["c"] == Participant(WAITLIST, 1);
    assert "b" in after.Waiting() && "c" in after.Waiting();
  }
}
