/** Follows with denormalised counters, and blocks that exclude them. */
module FollowBlock {
  import opened Prelude

  datatype Status = PENDING | ACCEPTED | BLOCKED

  /** `active`: neither deleted nor banned. */
  datatype User = User(isPrivate: bool, active: bool, followers: int, following: int)

  /** Follow rows by (follower, followed), block rows (initiator, target) and user rows. */
  datatype Db = Db(follows: map<(string, string), Status>, blocks: set<(string, string)>, users: map<string, User>) {

    predicate Accepted(a: string, b: string) {
      (a, b) in follows && follows[(a, b)] == ACCEPTED
    }

    predicate HasBlock(a: string, b: string) {
      (a, b) in blocks || (b, a) in blocks
    }
  }

  datatype Outcome = CannotTargetSelf | UserNotFound | IsBlocked | Failed | Done(status: Status)

  /** Both counters of a follow, moved by d. */
  function Bumped(users: map<string, User>, a: string, b: string, d: int): map<string, User> {
    map u | u in users :: users[u].(followers := users[u].followers + (if u == b then d else 0),
                                    following := users[u].following + (if u == a then d else 0))
  }

  // ---- Steps ----

  function Active(s: Db, u: string): bool {
    u in s.users && s.users[u].active
  }

  /** The checks of `follow`, and the status it would store. */
  function Checked(s: Db, a: string, b: string): Outcome {
    if a == b then CannotTargetSelf
    else if !Active(s, b) then UserNotFound
    else if s.HasBlock(a, b) then IsBlocked
    else Done(if s.users[b].isPrivate then PENDING else ACCEPTED)
  }

  /** The transaction of `follow`: it fails without the follower's row. */
  function Committed(s: Db, a: string, b: string, status: Status): Db {
    if a !in s.users || b !in s.users then s
    else s.(follows := s.follows[(a, b) := status],
            users := if status == ACCEPTED then Bumped(s.users, a, b, 1) else s.users)
  }

  function Followed(s: Db, a: string, b: string): Db {
    var check := Checked(s, a, b);
    if check.Done? then Committed(s, a, b, check.status) else s
  }

  function Unfollowed(s: Db, a: string, b: string): Db {
    if (a, b) !in s.follows then s
    else s.(follows := s.follows - {(a, b)},
            users := if s.follows[(a, b)] == ACCEPTED then Bumped(s.users, a, b, -1) else s.users)
  }

  function BlockedBy(s: Db, a: string, b: string): Db {
    if a == b || !Active(s, b) then s
    else
      var bare := Unfollowed(Unfollowed(s, a, b), b, a);
      bare.(blocks := bare.blocks + {(a, b)})
  }

  function Unblocked(s: Db, a: string, b: string): Db {
    s.(blocks := s.blocks - {(a, b)})
  }

  /** Bans, deletions, restores and privacy changes made elsewhere. */
  function Edited(s: Db, u: string, isPrivate: bool, active: bool): Db {
    if u in s.users then s.(users := s.users[u := s.users[u].(isPrivate := isPrivate, active := active)]) else s
  }

  // ---- The services ----

  class Database {
    var follows: map<(string, string), Status>
    var blocks: set<(string, string)>
    var users: map<string, User>

    constructor (users: map<string, User>)
      ensures Contents() == Db(map[], {}, users)
    {
      follows, blocks, this.users := map[], {}, users;
    }

    function Contents(): Db
      reads this
    {
      Db(follows, blocks, users)
    }

    /** `user.update` with an increment. */
    method Increment(u: string, followers: int, following: int)
      requires u in users
      modifies this`users
      ensures var was := old(users)[u];
        users == old(users)[u := was.(followers := was.followers + followers, following := was.following + following)]
    {
      var was := users[u];
      users := users[u := was.(followers := was.followers + followers, following := was.following + following)];
    }
  }

  /** Rows only refer to existing, different users. */
  ghost predicate WellFormed(s: Db) {
    forall e :: e in s.follows ==> e.0 in s.users && e.1 in s.users && e.0 != e.1
  }

  class FollowsService {
    const db: Database

    constructor (db: Database)
      ensures this.db == db
    {
      this.db := db;
    }

    method Follow(followerId: string, followingId: string) returns (outcome: Outcome)
      modifies db
      ensures db.Contents() == Followed(old(db.Contents()), followerId, followingId)
      ensures var check := Checked(old(db.Contents()), followerId, followingId);
        outcome == if check.Done? && followerId !in old(db.users) then Failed else check
    {
      if followerId == followingId {
        return CannotTargetSelf;
      }
      if followingId !in db.users || !db.users[followingId].active {
        return UserNotFound;
      }
      if (followerId, followingId) in db.blocks || (followingId, followerId) in db.blocks {
        return IsBlocked;
      }
      var status := if db.users[followingId].isPrivate then PENDING else ACCEPTED;
      if followerId !in db.users {
        return Failed;
      }
      db.follows := db.follows[(followerId, followingId) := status];
      if status == ACCEPTED {
        ghost var users := db.users;
        db.Increment(followingId, 1, 0);
        db.Increment(followerId, 0, 1);
        assert db.users == Bumped(users, followerId, followingId, 1);
      }
      return Done(status);
    }

    method Unfollow(followerId: string, followingId: string)
      requires WellFormed(db.Contents())
      modifies db
      ensures db.Contents() == Unfollowed(old(db.Contents()), followerId, followingId)
    {
      var e := (followerId, followingId);
      if e !in db.follows {
        return;
      }
      var status := db.follows[e];
      assert followerId in db.users && followingId in db.users && followerId != followingId;
      db.follows := db.follows - {e};
      if status == ACCEPTED {
        ghost var users := db.users;
        db.Increment(followingId, -1, 0);
        db.Increment(followerId, 0, -1);
        assert db.users == Bumped(users, followerId, followingId, -1);
      }
    }
  }

  class BlocksService {
    const db: Database
    const follows: FollowsService

    constructor (db: Database, follows: FollowsService)
      ensures this.db == db && this.follows == follows
    {
      this.db, this.follows := db, follows;
    }

    method BlockUser(initiatorId: string, targetId: string) returns (outcome: Outcome)
      requires follows.db == db && WellFormed(db.Contents())
      modifies db
      ensures db.Contents() == BlockedBy(old(db.Contents()), initiatorId, targetId)
      ensures outcome == if initiatorId == targetId then CannotTargetSelf
                         else if !Active(old(db.Contents()), targetId) then UserNotFound else Done(BLOCKED)
    {
      if initiatorId == targetId {
        return CannotTargetSelf;
      }
      if targetId !in db.users || !db.users[targetId].active {
        return UserNotFound;
      }
      UnfollowKeepsForm(db.Contents(), initiatorId, targetId);
      follows.Unfollow(initiatorId, targetId);
      follows.Unfollow(targetId, initiatorId);
      db.blocks := db.blocks + {(initiatorId, targetId)};
      return Done(BLOCKED);
    }

    method UnblockUser(initiatorId: string, targetId: string)
      modifies db
      ensures db.Contents() == Unblocked(old(db.Contents()), initiatorId, targetId)
    {
      db.blocks := db.blocks - {(initiatorId, targetId)};
    }
  }

  lemma {:induction false} UnfollowKeepsForm(s: Db, a: string, b: string)
    requires WellFormed(s)
    ensures WellFormed(Unfollowed(s, a, b))
  {
  }

  // ---- Runs ----

  datatype Op =
    | Follow(a: string, b: string)
    | Unfollow(a: string, b: string)
    | Block(a: string, b: string)
    | Unblock(a: string, b: string)
    | Edit(u: string, isPrivate: bool, active: bool)

  function Step(s: Db, op: Op): Db {
    match op
    case Follow(a, b) => Followed(s, a, b)
    case Unfollow(a, b) => Unfollowed(s, a, b)
    case Block(a, b) => BlockedBy(s, a, b)
    case Unblock(a, b) => Unblocked(s, a, b)
    case Edit(u, isPrivate, active) => Edited(s, u, isPrivate, active)
  }

  function Run(users: map<string, User>, ops: seq<Op>): Db {
    if ops == [] then Db(map[], {}, users) else Step(Run(users, ops[..|ops| - 1]), ops[|ops| - 1])
  }

  // ---- The tables, from the log alone ----

  /** Whether `u` exists, and its latest privacy and activity. */
  function ProfileOf(users: map<string, User>, ops: seq<Op>, u: string): Option<(bool, bool)> {
    if u !in users then None
    else if ops == [] then Some((users[u].isPrivate, users[u].active))
    else
      var op := ops[|ops| - 1];
      if op.Edit? && op.u == u then Some((op.isPrivate, op.active)) else ProfileOf(users, ops[..|ops| - 1], u)
  }

  predicate ActiveInLog(users: map<string, User>, ops: seq<Op>, u: string) {
    ProfileOf(users, ops, u).Some? && ProfileOf(users, ops, u).value.1
  }

  /** `a` blocked `b`, who was active then, and has not taken it back. */
  predicate Blocks(users: map<string, User>, ops: seq<Op>, a: string, b: string) {
    ops != [] &&
    (var before, op := ops[..|ops| - 1], ops[|ops| - 1];
     if op == Block(a, b) && a != b && ActiveInLog(users, before, b) then true
     else if op == Unblock(a, b) then false
     else Blocks(users, before, a, b))
  }

  /** Whether a follow of `b` by `a` is accepted after the log, and with which status. */
  function AcceptedFollow(users: map<string, User>, ops: seq<Op>, a: string, b: string): Option<Status> {
    if a == b || a !in users || !ActiveInLog(users, ops, b) then None
    else if Blocks(users, ops, a, b) || Blocks(users, ops, b, a) then None
    else Some(if ProfileOf(users, ops, b).value.0 then PENDING else ACCEPTED)
  }

  /** The status of the follow of `b` by `a`: that of the latest accepted one, unless an unfollow or a
      block between the two came after it. */
  function FollowInLog(users: map<string, User>, ops: seq<Op>, a: string, b: string): Option<Status> {
    if ops == [] then None
    else
      var before, op := ops[..|ops| - 1], ops[|ops| - 1];
      if op == Follow(a, b) && AcceptedFollow(users, before, a, b).Some? then AcceptedFollow(users, before, a, b)
      else if op == Unfollow(a, b) then None
      else if (op == Block(a, b) || op == Block(b, a)) && a != b && ActiveInLog(users, before, op.b) then None
      else FollowInLog(users, before, a, b)
  }

  ghost predicate RepeatsLog(s: Db, users: map<string, User>, ops: seq<Op>, a: string, b: string) {
    && (if (a, b) in s.follows then Some(s.follows[(a, b)]) else None) == FollowInLog(users, ops, a, b)
    && ((a, b) in s.blocks <==> Blocks(users, ops, a, b))
    && (b in s.users <==> ProfileOf(users, ops, b).Some?)
    && (b in s.users ==> ProfileOf(users, ops, b) == Some((s.users[b].isPrivate, s.users[b].active)))
  }

  lemma {:induction false} ProfileStep(s: Db, op: Op, u: string)
    ensures var after := Step(s, op);
      && (u in after.users <==> u in s.users)
      && (u in s.users ==>
            && after.users[u].isPrivate == (if op.Edit? && op.u == u then op.isPrivate else s.users[u].isPrivate)
            && after.users[u].active == (if op.Edit? && op.u == u then op.active else s.users[u].active))
  {
  }

  lemma {:induction false} BlocksStep(s: Db, op: Op, a: string, b: string)
    ensures (a, b) in Step(s, op).blocks <==>
      if op == Block(a, b) && a != b && b in s.users && s.users[b].active then true
      else if op == Unblock(a, b) then false else (a, b) in s.blocks
  {
  }

  lemma {:induction false} FollowsStep(s: Db, op: Op, a: string, b: string)
    ensures var after := Step(s, op); var e := (a, b);
      var allowed := a != b && a in s.users && b in s.users && s.users[b].active
        && (a, b) !in s.blocks && (b, a) !in s.blocks;
      var blocking := (op == Block(a, b) || op == Block(b, a)) && a != b && op.b in s.users && s.users[op.b].active;
      if op == Follow(a, b) && allowed then
        e in after.follows && after.follows[e] == if s.users[b].isPrivate then PENDING else ACCEPTED
      else if op == Unfollow(a, b) || blocking then e !in after.follows
      else (e in after.follows <==> e in s.follows) && (e in s.follows ==> after.follows[e] == s.follows[e])
  {
  }

  /** In every state of every run the follows, the blocks and the profiles are those of the log. */
  lemma {:induction false} TablesFromLog(users: map<string, User>, ops: seq<Op>, a: string, b: string)
    ensures RepeatsLog(Run(users, ops), users, ops, a, b)
  {
    if ops != [] {
      var n := |ops| - 1;
      var s := Run(users, ops[..n]);
      TablesFromLog(users, ops[..n], a, b);
      TablesFromLog(users, ops[..n], b, a);
      hide Step;
      ProfileStep(s, ops[n], b);
      BlocksStep(s, ops[n], a, b);
      FollowsStep(s, ops[n], a, b);
      RunStartsWith(users, ops[..n], a);
      RunStartsWith(users, ops[..n], b);
      var after := Run(users, ops);
      assert (a, b) in after.blocks <==> Blocks(users, ops, a, b);
      assert b in after.users <==> ProfileOf(users, ops, b).Some?;
      assert b in after.users ==> ProfileOf(users, ops, b) == Some((after.users[b].isPrivate, after.users[b].active));
      assert AcceptedFollow(users, ops[..n], a, b).Some? <==>
        a != b && a in s.users && b in s.users && s.users[b].active && (a, b) !in s.blocks && (b, a) !in s.blocks;
    }
  }

  lemma {:induction false} RunStartsWith(users: map<string, User>, ops: seq<Op>, u: string)
    ensures u in Run(users, ops).users <==> u in users
  {
    BlocksExclude(users, ops);
    hide Run;
  }

  /** What a follow answers, from the log: itself, an unknown or inactive user, a block either way, or
      the status it stores. */
  lemma {:induction false} FollowAnswers(users: map<string, User>, ops: seq<Op>, a: string, b: string)
    ensures Checked(Run(users, ops), a, b) ==
      if a == b then CannotTargetSelf
      else if !ActiveInLog(users, ops, b) then UserNotFound
      else if Blocks(users, ops, a, b) || Blocks(users, ops, b, a) then IsBlocked
      else Done(if ProfileOf(users, ops, b).value.0 then PENDING else ACCEPTED)
  {
    TablesFromLog(users, ops, a, b);
    TablesFromLog(users, ops, b, a);
    hide Run, FollowInLog, Blocks, ProfileOf;
  }

  // ---- Exclusion ----

  /** No follow, in either direction, between users one of whom blocked the other. */
  ghost predicate Exclusive(s: Db) {
    forall a, b :: (a, b) in s.follows ==> !s.HasBlock(a, b)
  }

  lemma {:induction false} ExclusiveStep(s: Db, op: Op)
    requires WellFormed(s) && Exclusive(s)
    ensures WellFormed(Step(s, op)) && Exclusive(Step(s, op)) && Step(s, op).users.Keys == s.users.Keys
  {
    match op {
      case Follow(a, b) =>
      case Unfollow(a, b) =>
        UnfollowOnly(s, a, b);
      case Block(a, b) =>
        if a != b && Active(s, b) {
          BlockStep(s, a, b);
        }
      case Unblock(a, b) =>
      case Edit(u, isPrivate, active) =>
    }
  }

  lemma {:induction false} UnfollowOnly(s: Db, a: string, b: string)
    ensures var after := Unfollowed(s, a, b);
      after.follows == s.follows - {(a, b)} && after.blocks == s.blocks && after.users.Keys == s.users.Keys
  {
  }

  lemma {:induction false} BlockStep(s: Db, a: string, b: string)
    requires WellFormed(s) && Exclusive(s) && a != b && Active(s, b)
    ensures WellFormed(BlockedBy(s, a, b)) && Exclusive(BlockedBy(s, a, b))
      && BlockedBy(s, a, b).users.Keys == s.users.Keys
  {
    UnfollowOnly(s, a, b);
    UnfollowOnly(Unfollowed(s, a, b), b, a);
    hide Unfollowed;
    RemoveTwice(s.follows, {(a, b)}, (b, a));
    assert BlockedBy(s, a, b).follows == s.follows - ({(a, b)} + {(b, a)});
  }

  /** In every state of every run no blocked pair has a follow, and rows only refer to existing users. */
  lemma {:induction false} BlocksExclude(users: map<string, User>, ops: seq<Op>)
    ensures var s := Run(users, ops); WellFormed(s) && Exclusive(s) && s.users.Keys == users.Keys
  {
    hide WellFormed, Exclusive, Step;
    if ops == [] {
      StartExclusive(users);
    } else {
      BlocksExclude(users, ops[..|ops| - 1]);
      ExclusiveStep(Run(users, ops[..|ops| - 1]), ops[|ops| - 1]);
    }
  }

  lemma {:induction false} StartExclusive(users: map<string, User>)
    ensures WellFormed(Db(map[], {}, users)) && Exclusive(Db(map[], {}, users))
  {
  }

  /** The transaction alone does not look at blocks: run after its checks, it keeps the exclusion
      exactly if no block came in between. */
  lemma {:induction false} LateCommitExactly(s: Db, a: string, b: string, status: Status)
    requires Exclusive(s) && a in s.users && b in s.users
    ensures Exclusive(Committed(s, a, b, status)) <==> !s.HasBlock(a, b)
  {
    var after := Committed(s, a, b, status);
    assert (a, b) in after.follows;
    if !s.HasBlock(a, b) {
      forall x, y | (x, y) in after.follows
        ensures !after.HasBlock(x, y)
      {
        assert (x, y) == (a, b) || (x, y) in s.follows;
      }
    }
  }

  // ---- Counters ----

  function FollowersOf(s: Db, u: string): set<(string, string)> {
    set e | e in s.follows && s.follows[e] == ACCEPTED && e.1 == u
  }

  function FollowingOf(s: Db, u: string): set<(string, string)> {
    set e | e in s.follows && s.follows[e] == ACCEPTED && e.0 == u
  }

  /** By how much the counters of u exceed its accepted follows. */
  function Excess(s: Db, u: string): (int, int)
    requires u in s.users
  {
    (s.users[u].followers - |FollowersOf(s, u)|, s.users[u].following - |FollowingOf(s, u)|)
  }

  /** Following somebody whom one already follows, successfully. */
  predicate Refollow(s: Db, op: Op) {
    op.Follow? && Checked(s, op.a, op.b).Done? && op.a in s.users && s.Accepted(op.a, op.b)
  }

  function Plus(b: bool): int {
    if b then 1 else 0
  }

  /** How storing or removing one row changes the accepted follows of u. */
  lemma {:induction false} RowCounts(s: Db, after: Db, a: string, b: string, u: string)
    requires forall e :: e != (a, b) ==>
      (e in after.follows <==> e in s.follows) && (e in s.follows ==> after.follows[e] == s.follows[e])
    ensures var d := Plus(after.Accepted(a, b)) - Plus(s.Accepted(a, b));
      && |FollowersOf(after, u)| == |FollowersOf(s, u)| + (if u == b then d else 0)
      && |FollowingOf(after, u)| == |FollowingOf(s, u)| + (if u == a then d else 0)
  {
    SameElsewhere(s, after, a, b, u);
    var e := (a, b);
    assert e in FollowersOf(s, u) <==> s.Accepted(a, b) && u == b;
    assert e in FollowersOf(after, u) <==> after.Accepted(a, b) && u == b;
    assert e in FollowingOf(s, u) <==> s.Accepted(a, b) && u == a;
    assert e in FollowingOf(after, u) <==> after.Accepted(a, b) && u == a;
    hide *;
    CardDiffer(FollowersOf(s, u), FollowersOf(after, u), e);
    CardDiffer(FollowingOf(s, u), FollowingOf(after, u), e);
    PlusIs(s.Accepted(a, b));
    PlusIs(after.Accepted(a, b));
  }

  lemma {:induction false} PlusIs(b: bool)
    ensures Plus(b) == if b then 1 else 0
  {
  }

  lemma {:induction false} SameElsewhere(s: Db, after: Db, a: string, b: string, u: string)
    requires forall e :: e != (a, b) ==>
      (e in after.follows <==> e in s.follows) && (e in s.follows ==> after.follows[e] == s.follows[e])
    ensures FollowersOf(after, u) - {(a, b)} == FollowersOf(s, u) - {(a, b)}
    ensures FollowingOf(after, u) - {(a, b)} == FollowingOf(s, u) - {(a, b)}
  {
  }

  lemma {:induction false} UnfollowExcess(s: Db, a: string, b: string, u: string)
    requires u in s.users
    ensures u in Unfollowed(s, a, b).users && Excess(Unfollowed(s, a, b), u) == Excess(s, u)
  {
    RowCounts(s, Unfollowed(s, a, b), a, b, u);
    hide FollowersOf, FollowingOf;
  }

  lemma {:induction false} FollowExcess(s: Db, a: string, b: string, u: string)
    requires u in s.users
    ensures u in Followed(s, a, b).users
    ensures var d := Plus(Refollow(s, Follow(a, b)));
      Excess(Followed(s, a, b), u)
        == (Excess(s, u).0 + (if u == b then d else 0), Excess(s, u).1 + (if u == a then d else 0))
  {
    RowCounts(s, Followed(s, a, b), a, b, u);
    hide FollowersOf, FollowingOf;
  }

  lemma {:induction false} RestExcess(s: Db, after: Db, u: string)
    requires u in s.users && u in after.users && after.follows == s.follows
    requires after.users[u].followers == s.users[u].followers && after.users[u].following == s.users[u].following
    ensures Excess(after, u) == Excess(s, u)
  {
    assert FollowersOf(after, u) == FollowersOf(s, u) && FollowingOf(after, u) == FollowingOf(s, u);
  }

  /** One step moves the excess of a user by one exactly if it is a repeated follow, for the two users
      it involves. */
  lemma {:induction false} ExcessStep(s: Db, op: Op, u: string)
    requires u in s.users
    ensures u in Step(s, op).users
    ensures var d := Plus(Refollow(s, op));
      var onto := if op.Follow? && u == op.b then d else 0;
      var given := if op.Follow? && u == op.a then d else 0;
      Excess(Step(s, op), u) == (Excess(s, u).0 + onto, Excess(s, u).1 + given)
  {
    hide Followed, Unfollowed, Excess;
    match op {
      case Follow(a, b) =>
        FollowExcess(s, a, b, u);
      case Unfollow(a, b) =>
        UnfollowExcess(s, a, b, u);
      case Block(a, b) =>
        if a != b && Active(s, b) {
          UnfollowExcess(s, a, b, u);
          UnfollowExcess(Unfollowed(s, a, b), b, a, u);
          RestExcess(Unfollowed(Unfollowed(s, a, b), b, a), Step(s, op), u);
        }
      case Unblock(a, b) =>
        RestExcess(s, Step(s, op), u);
      case Edit(v, isPrivate, active) =>
        RestExcess(s, Step(s, op), u);
    }
  }

  /** How often a run repeats a follow of u, and by u. */
  function Refollows(users: map<string, User>, ops: seq<Op>, u: string): (nat, nat) {
    if ops == [] then (0, 0)
    else
      var n := |ops| - 1;
      var before := Refollows(users, ops[..n], u);
      var again := Refollow(Run(users, ops[..n]), ops[n]);
      (before.0 + Plus(again && ops[n].b == u), before.1 + Plus(again && ops[n].a == u))
  }

  ghost predicate Fresh(users: map<string, User>) {
    forall u :: u in users ==> users[u].followers == 0 && users[u].following == 0
  }

  /** On every run the counters are the numbers of accepted follows plus the numbers of repeated
      follows, which are never taken back. */
  lemma {:induction false} CountersDrift(users: map<string, User>, ops: seq<Op>, u: string)
    requires Fresh(users) && u in users
    ensures var s := Run(users, ops);
      && u in s.users
      && Excess(s, u) == Refollows(users, ops, u)
  {
    if ops == [] {
      var s := Run(users, ops);
      assert FollowersOf(s, u) == {} && FollowingOf(s, u) == {};
    } else {
      hide Excess, Step, Refollow, Fresh;
      CountersDrift(users, ops[..|ops| - 1], u);
      ExcessStep(Run(users, ops[..|ops| - 1]), ops[|ops| - 1], u);
    }
  }

  /** So both counters of a user are right exactly if no follow of it or by it was ever repeated. */
  lemma {:induction false} CountersRightExactly(users: map<string, User>, ops: seq<Op>, u: string)
    requires Fresh(users) && u in users
    ensures var s := Run(users, ops);
      && u in s.users
      && (s.users[u].followers == |FollowersOf(s, u)| && s.users[u].following == |FollowingOf(s, u)| <==>
            Refollows(users, ops, u) == (0, 0))
  {
    CountersDrift(users, ops, u);
    hide Run, Refollows, FollowersOf, FollowingOf;
  }

  /** Unfollowing undoes a follow exactly if there was no row before. */
  lemma {:induction false} UnfollowUndoesExactly(s: Db, a: string, b: string)
    requires Checked(s, a, b).Done? && a in s.users
    ensures Unfollowed(Followed(s, a, b), a, b) == s <==> (a, b) !in s.follows
  {
    var after := Followed(s, a, b);
    if (a, b) !in s.follows {
      assert after.follows - {(a, b)} == s.follows;
      assert Bumped(Bumped(s.users, a, b, 1), a, b, -1) == s.users;
    } else {
      assert (a, b) !in Unfollowed(after, a, b).follows;
    }
  }

  /** A follow of a public user stores one row, counts one, and could be made again. */
  lemma {:induction false} FollowCounts(s: Db, a: string, b: string)
    requires Checked(s, a, b) == Done(ACCEPTED) && a in s.users
    ensures var after := Followed(s, a, b);
      && Checked(after, a, b) == Done(ACCEPTED) && a in after.users
      && after.follows == s.follows[(a, b) := ACCEPTED]
      && after.users[b].followers == s.users[b].followers + 1
  {
  }

  /** Following somebody twice counts twice, with one follow in the table. */
  lemma {:induction false} FollowingTwice()
    ensures var users := map["a" := User(false, true, 0, 0), "b" := User(false, true, 0, 0)];
      var s := Run(users, [Follow("a", "b"), Follow("a", "b")]);
      s.follows == map[("a", "b") := ACCEPTED] && "b" in s.users && s.users["b"].followers == 2
  {
    var users := map["a" := User(false, true, 0, 0), "b" := User(false, true, 0, 0)];
    var f, empty := Follow("a", "b"), Db(map[], {}, users);
    assert [] + [f] == [f] && [f] + [f] == [f, f];
    RunOneMore(users, [], f);
    RunOneMore(users, [f], f);
    assert Run(users, []) == empty && Checked(empty, "a", "b") == Done(ACCEPTED);
    hide Followed, Checked, Run;
    FollowCounts(empty, "a", "b");
    FollowCounts(Followed(empty, "a", "b"), "a", "b");
  }

  lemma {:induction false} RunOneMore(users: map<string, User>, ops: seq<Op>, op: Op)
    ensures Run(users, ops + [op]) == Step(Run(users, ops), op)
  {
    assert (ops + [op])[..|ops|] == ops;
  }
}
