/** Conversations: unique direct conversations, one chat per community, groups nobody can empty. */
module Conversations {
  import opened Prelude

  datatype Kind = DIRECT | GROUP_CHAT | COMMUNITY_CHAT

  datatype Conversation = Conversation(kind: Kind, communityId: Option<string>)

  /** Conversations by id, and participant rows by (conversation, user): whether the user has left. */
  datatype Chats = Chats(rows: map<int, Conversation>, participants: map<(int, string), bool>) {

    predicate Active(id: int, u: string) {
      (id, u) in participants && !participants[(id, u)]
    }

    /** Everybody with a participant row. */
    function Members(id: int): set<string> {
      set p | p in participants && p.0 == id :: p.1
    }

    function ActiveMembers(id: int): set<string> {
      set p | p in participants && p.0 == id && !participants[p] :: p.1
    }

    predicate Is(id: int, kind: Kind) {
      id in rows && rows[id].kind == kind
    }
  }

  /** The other tables a call reads: users, (initiator, target) blocks and active community members. */
  datatype Tables = Tables(users: set<string>, blocks: set<(string, string)>, communityMembers: set<(string, string)>) {

    predicate HasBlock(a: string, b: string) {
      (a, b) in blocks || (b, a) in blocks
    }
  }

  datatype Dto = Dto(kind: Kind, userIds: seq<string>, communityId: Option<string>)

  datatype Outcome = CannotMessageSelf | CannotMessageBlocked | TargetRequired | CommunityRequired | MustBeMember
    | TooFewParticipants
    | Failed | Detail(id: int)

  datatype LeaveOutcome = NotParticipant | NotFound | CannotLeaveDirect | CannotLeaveSoleMember | Left

  const Empty := Chats(map[], map[])

  // ---- Steps ----

  /** `findFirst` without an order: any one of the matching rows. */
  type Chooser = set<int> -> int

  ghost predicate Chooses(choose: Chooser) {
    forall ids: set<int> :: ids != {} ==> choose(ids) in ids
  }

  function Directs(s: Chats, a: string, b: string): set<int> {
    set id | id in s.rows && s.rows[id].kind == DIRECT && s.Active(id, a) && s.Active(id, b)
  }

  function ChatsOf(s: Chats, communityId: string): set<int> {
    set id | id in s.rows && s.rows[id] == Conversation(COMMUNITY_CHAT, Some(communityId))
  }

  /** `conversation.create`: fails on a taken id or an unknown participant. */
  function Created(s: Chats, t: Tables, id: int, c: Conversation, users: set<string>): (Chats, Outcome) {
    if id in s.rows || !(users <= t.users) then (s, Failed)
    else (Chats(s.rows[id := c], s.participants + map u | u in users :: (id, u) := false), Detail(id))
  }

  function FoundOrCreated(s: Chats, t: Tables, a: string, b: string, id: int, choose: Chooser): (Chats, Outcome) {
    if a == b then (s, CannotMessageSelf)
    else if t.HasBlock(a, b) then (s, CannotMessageBlocked)
    else if Directs(s, a, b) != {} then (s, Detail(choose(Directs(s, a, b))))
    else Created(s, t, id, Conversation(DIRECT, None), {a, b})
  }

  function Opened(s: Chats, t: Tables, creator: string, dto: Dto, id: int, choose: Chooser): (Chats, Outcome) {
    match dto.kind
    case DIRECT =>
      if dto.userIds == [] || dto.userIds[0] == "" then (s, TargetRequired)
      else FoundOrCreated(s, t, creator, dto.userIds[0], id, choose)
    case COMMUNITY_CHAT =>
      if dto.communityId.GetOr("") == "" then (s, CommunityRequired)
      else
        var community := dto.communityId.value;
        if (community, creator) !in t.communityMembers then (s, MustBeMember)
        else if ChatsOf(s, community) != {} then (s, Detail(choose(ChatsOf(s, community))))
        else Created(s, t, id, Conversation(COMMUNITY_CHAT, Some(community)), {creator})
    case GROUP_CHAT =>
      var users := Elements(dto.userIds) + {creator};
      if |users| < 3 then (s, TooFewParticipants)
      else Created(s, t, id, Conversation(GROUP_CHAT, None), users)
  }

  function LeaveDecision(s: Chats, u: string, id: int): LeaveOutcome {
    if !s.Active(id, u) then NotParticipant
    else if id !in s.rows then NotFound
    else if s.rows[id].kind == DIRECT then CannotLeaveDirect
    else if |s.ActiveMembers(id)| <= 1 then CannotLeaveSoleMember
    else LeaveOutcome.Left
  }

  function LeftBy(s: Chats, u: string, id: int): Chats {
    if LeaveDecision(s, u, id) == LeaveOutcome.Left then s.(participants := s.participants[(id, u) := true]) else s
  }

  // ---- The service ----

  class ConversationService {
    var rows: map<int, Conversation>
    var participants: map<(int, string), bool>
    const choose: Chooser

    function Contents(): Chats
      reads this
    {
      Chats(rows, participants)
    }

    constructor (choose: Chooser)
      ensures this.choose == choose && Contents() == Empty
    {
      this.choose := choose;
      rows, participants := map[], map[];
    }

    /** One insert of a conversation with its participants. `id` is a new uuid. */
    method Create(t: Tables, id: int, c: Conversation, users: set<string>) returns (outcome: Outcome)
      modifies this
      ensures (Contents(), outcome) == Created(old(Contents()), t, id, c, users)
    {
      if id in rows || !(users <= t.users) {
        return Failed;
      }
      rows := rows[id := c];
      participants := participants + map u | u in users :: (id, u) := false;
      return Detail(id);
    }

    method FindOrCreateDirect(t: Tables, userA: string, userB: string, id: int) returns (outcome: Outcome)
      modifies this
      ensures (Contents(), outcome) == FoundOrCreated(old(Contents()), t, userA, userB, id, choose)
    {
      hide Created;
      if userA == userB {
        return CannotMessageSelf;
      }
      if t.HasBlock(userA, userB) {
        return CannotMessageBlocked;
      }
      var existing := Directs(Contents(), userA, userB);
      if existing != {} {
        return Detail(choose(existing));
      }
      outcome := Create(t, id, Conversation(DIRECT, None), {userA, userB});
    }

    method CreateConversation(t: Tables, creatorId: string, dto: Dto, id: int) returns (outcome: Outcome)
      modifies this
      ensures (Contents(), outcome) == Opened(old(Contents()), t, creatorId, dto, id, choose)
    {
      hide Created, FoundOrCreated;
      if dto.kind == DIRECT {
        if |dto.userIds| == 0 || dto.userIds[0] == "" {
          return TargetRequired;
        }
        outcome := FindOrCreateDirect(t, creatorId, dto.userIds[0], id);
        return;
      }
      if dto.kind == COMMUNITY_CHAT {
        if dto.communityId.None? || dto.communityId.value == "" {
          return CommunityRequired;
        }
        if (dto.communityId.value, creatorId) !in t.communityMembers {
          return MustBeMember;
        }
        var existing := ChatsOf(Contents(), dto.communityId.value);
        if existing != {} {
          return Detail(choose(existing));
        }
        outcome := Create(t, id, Conversation(COMMUNITY_CHAT, dto.communityId), {creatorId});
        return;
      }
      var participantIds := Elements(dto.userIds) + {creatorId};
      if |participantIds| < 3 {
        return TooFewParticipants;
      }
      outcome := Create(t, id, Conversation(GROUP_CHAT, None), participantIds);
    }

    method LeaveConversation(userId: string, id: int) returns (outcome: LeaveOutcome)
      modifies this
      ensures outcome == LeaveDecision(old(Contents()), userId, id)
      ensures Contents() == LeftBy(old(Contents()), userId, id)
    {
      if (id, userId) !in participants || participants[(id, userId)] {
        return NotParticipant;
      }
      if id !in rows {
        return NotFound;
      }
      if rows[id].kind == DIRECT {
        return CannotLeaveDirect;
      }
      if |Contents().ActiveMembers(id)| <= 1 {
        return CannotLeaveSoleMember;
      }
      participants := participants[(id, userId) := true];
      return LeaveOutcome.Left;
    }
  }

  // ---- Runs ----

  datatype Op =
    | Direct(t: Tables, a: string, b: string, id: int)
    | Open(t: Tables, creator: string, dto: Dto, id: int)
    | Leave(u: string, id: int)

  function Step(s: Chats, op: Op, choose: Chooser): Chats {
    match op
    case Direct(t, a, b, id) => FoundOrCreated(s, t, a, b, id, choose).0
    case Open(t, creator, dto, id) => Opened(s, t, creator, dto, id, choose).0
    case Leave(u, id) => LeftBy(s, u, id)
  }

  function Run(s: Chats, ops: seq<Op>, choose: Chooser): Chats {
    if ops == [] then s else Step(Run(s, ops[..|ops| - 1], choose), ops[|ops| - 1], choose)
  }

  // ---- Invariants ----

  ghost predicate Linked(s: Chats) {
    forall p :: p in s.participants ==> p.0 in s.rows
  }

  /** A direct conversation has exactly two participants, and neither has left. */
  ghost predicate DirectsArePairs(s: Chats) {
    forall id :: s.Is(id, DIRECT) ==> exists a, b :: a != b && s.Members(id) == {a, b} && s.ActiveMembers(id) == {a, b}
  }

  ghost predicate DirectsUnique(s: Chats) {
    forall i, j :: s.Is(i, DIRECT) && s.Is(j, DIRECT) && s.Members(i) == s.Members(j) ==> i == j
  }

  ghost predicate ChatsUnique(s: Chats) {
    forall i, j ::
      s.Is(i, COMMUNITY_CHAT) && s.Is(j, COMMUNITY_CHAT) && s.rows[i].communityId == s.rows[j].communityId ==> i == j
  }

  ghost predicate Inhabited(s: Chats) {
    forall id :: id in s.rows ==> s.ActiveMembers(id) != {}
  }

  ghost predicate Sound(s: Chats) {
    Linked(s) && DirectsArePairs(s) && DirectsUnique(s) && ChatsUnique(s) && Inhabited(s)
  }

  /** What an insert does to the members of every conversation. */
  lemma {:induction false} CreatedMembers(s: Chats, t: Tables, id: int, c: Conversation, users: set<string>, k: int)
    requires Linked(s) && Created(s, t, id, c, users).1.Detail?
    ensures var after := Created(s, t, id, c, users).0;
      && after.Members(k) == (if k == id then users else s.Members(k))
      && after.ActiveMembers(k) == (if k == id then users else s.ActiveMembers(k))
      && after.rows == s.rows[id := c] && Linked(after)
  {
    var after := Created(s, t, id, c, users).0;
    forall u
      ensures u in users ==> (id, u) in after.participants && !after.participants[(id, u)]
      ensures u in after.Members(k) <==> u in (if k == id then users else s.Members(k))
      ensures u in after.ActiveMembers(k) <==> u in (if k == id then users else s.ActiveMembers(k))
    {
      assert (k, u) in after.participants <==> u in after.Members(k);
      assert (k, u) in s.participants <==> u in s.Members(k);
      assert after.Active(k, u) <==> u in after.ActiveMembers(k);
      assert s.Active(k, u) <==> u in s.ActiveMembers(k);
    }
  }

  /** The direct conversations of two users are those between exactly these two. */
  lemma {:induction false} DirectsAreBetween(s: Chats, a: string, b: string, id: int)
    requires DirectsArePairs(s) && a != b
    ensures id in Directs(s, a, b) <==> s.Is(id, DIRECT) && s.Members(id) == {a, b}
  {
    if s.Is(id, DIRECT) {
      assert s.Active(id, a) <==> a in s.ActiveMembers(id);
      assert s.Active(id, b) <==> b in s.ActiveMembers(id);
    }
  }

  /** A conversation more, and the others as they were. */
  ghost predicate Extends(s: Chats, after: Chats, id: int, c: Conversation, users: set<string>) {
    && id !in s.rows && after.rows == s.rows[id := c] && Linked(after)
    && (forall k :: after.Members(k) == if k == id then users else s.Members(k))
    && (forall k :: after.ActiveMembers(k) == if k == id then users else s.ActiveMembers(k))
  }

  lemma {:induction false} CreatedExtends(s: Chats, t: Tables, id: int, c: Conversation, users: set<string>)
    requires Linked(s) && Created(s, t, id, c, users).1.Detail?
    ensures Extends(s, Created(s, t, id, c, users).0, id, c, users)
  {
    forall k {
      CreatedMembers(s, t, id, c, users, k);
    }
    CreatedMembers(s, t, id, c, users, 0);
    hide Linked, Chats.Members, Chats.ActiveMembers;
  }

  /** Inserting a direct conversation keeps them unique exactly if the pair had none: the search before
      it is what uniqueness rests on. */
  lemma {:induction false} InsertKeepsUniqueExactly(s: Chats, t: Tables, a: string, b: string, id: int)
    requires Sound(s) && a != b && Created(s, t, id, Conversation(DIRECT, None), {a, b}).1.Detail?
    ensures DirectsUnique(Created(s, t, id, Conversation(DIRECT, None), {a, b}).0) <==> Directs(s, a, b) == {}
  {
    CreatedExtends(s, t, id, Conversation(DIRECT, None), {a, b});
    forall k
      ensures k in Directs(s, a, b) <==> s.Is(k, DIRECT) && s.Members(k) == {a, b}
    {
      DirectsAreBetween(s, a, b, k);
    }
    hide Created, Directs, Chats.Members, Chats.ActiveMembers, Extends, DirectsUnique;
    UniqueIfNew(s, Created(s, t, id, Conversation(DIRECT, None), {a, b}).0, id, {a, b});
  }

  lemma {:induction false} UniqueIfNew(s: Chats, after: Chats, id: int, users: set<string>)
    requires DirectsUnique(s) && Extends(s, after, id, Conversation(DIRECT, None), users)
    ensures DirectsUnique(after) <==> forall k :: s.Is(k, DIRECT) ==> s.Members(k) != users
  {
    hide Chats.Members, Chats.ActiveMembers, Linked;
    if k :| s.Is(k, DIRECT) && s.Members(k) == users {
      assert after.Is(k, DIRECT) && after.Is(id, DIRECT) && after.Members(k) == after.Members(id);
    } else {
      forall i, j | after.Is(i, DIRECT) && after.Is(j, DIRECT) && after.Members(i) == after.Members(j)
        ensures i == j
      {
        assert i != id ==> s.Is(i, DIRECT);
        assert j != id ==> s.Is(j, DIRECT);
      }
    }
  }

  /** A sound insert. */
  lemma {:induction false} CreateSound(s: Chats, t: Tables, id: int, c: Conversation, users: set<string>)
    requires Sound(s) && users != {}
    requires c.kind == DIRECT ==>
      exists a, b :: a != b && users == {a, b} && Directs(s, a, b) == {} && c == Conversation(DIRECT, None)
    requires c.kind == COMMUNITY_CHAT ==> c.communityId.Some? && ChatsOf(s, c.communityId.value) == {}
    ensures Sound(Created(s, t, id, c, users).0)
  {
    var (after, outcome) := Created(s, t, id, c, users);
    if outcome.Detail? {
      CreatedExtends(s, t, id, c, users);
      if c.kind == DIRECT {
        var a, b :| a != b && users == {a, b} && Directs(s, a, b) == {};
        InsertKeepsUniqueExactly(s, t, a, b, id);
      }
      hide Created, Directs, Extends, ChatsOf, Linked, DirectsArePairs, DirectsUnique, ChatsUnique, Inhabited;
      UniqueAfter(s, after, id, c, users);
      PairsAfter(s, after, id, c, users);
    }
  }

  lemma {:induction false} UniqueAfter(s: Chats, after: Chats, id: int, c: Conversation, users: set<string>)
    requires ChatsUnique(s) && Inhabited(s) && Extends(s, after, id, c, users) && users != {}
    requires c.kind == COMMUNITY_CHAT ==> c.communityId.Some? && ChatsOf(s, c.communityId.value) == {}
    ensures ChatsUnique(after) && Inhabited(after) && Linked(after)
  {
    hide Chats.Members, Chats.ActiveMembers, Linked;
    forall k | s.Is(k, COMMUNITY_CHAT) && c.kind == COMMUNITY_CHAT
      ensures s.rows[k].communityId != c.communityId
    {
      assert k !in ChatsOf(s, c.communityId.value);
    }
  }

  lemma {:induction false} PairsAfter(s: Chats, after: Chats, id: int, c: Conversation, users: set<string>)
    requires DirectsArePairs(s) && DirectsUnique(s) && Extends(s, after, id, c, users)
    requires c.kind == DIRECT ==> DirectsUnique(after) && exists a, b :: a != b && users == {a, b}
    ensures DirectsArePairs(after) && DirectsUnique(after)
  {
    hide Chats.Members, Chats.ActiveMembers, Linked;
    forall k | after.Is(k, DIRECT)
      ensures exists a, b :: a != b && after.Members(k) == {a, b} && after.ActiveMembers(k) == {a, b}
      ensures c.kind != DIRECT ==> s.Is(k, DIRECT)
    {
      if k != id {
        assert s.Is(k, DIRECT);
      }
    }
  }

  lemma {:induction false} FindOrCreateSound(s: Chats, t: Tables, a: string, b: string, id: int, choose: Chooser)
    requires Sound(s)
    ensures Sound(FoundOrCreated(s, t, a, b, id, choose).0)
  {
    hide Sound, Created, Directs;
    if a != b && !t.HasBlock(a, b) && Directs(s, a, b) == {} {
      CreateSound(s, t, id, Conversation(DIRECT, None), {a, b});
    }
  }

  lemma {:induction false} OpenSound(s: Chats, t: Tables, creator: string, dto: Dto, id: int, choose: Chooser)
    requires Sound(s)
    ensures Sound(Opened(s, t, creator, dto, id, choose).0)
  {
    hide Sound, Created, FoundOrCreated, ChatsOf, Directs;
    match dto.kind {
      case DIRECT =>
        if dto.userIds != [] {
          FindOrCreateSound(s, t, creator, dto.userIds[0], id, choose);
        }
      case COMMUNITY_CHAT =>
        if dto.communityId.Some? && ChatsOf(s, dto.communityId.value) == {} {
          CreateSound(s, t, id, Conversation(COMMUNITY_CHAT, dto.communityId), {creator});
        }
      case GROUP_CHAT =>
        CreateSound(s, t, id, Conversation(GROUP_CHAT, None), Elements(dto.userIds) + {creator});
    }
  }

  /** What leaving does to the members of every conversation. */
  lemma {:induction false} LeftMembers(s: Chats, u: string, id: int, k: int)
    requires LeaveDecision(s, u, id) == LeaveOutcome.Left
    ensures var after := LeftBy(s, u, id);
      && after.Members(k) == s.Members(k)
      && after.ActiveMembers(k) == (if k == id then s.ActiveMembers(k) - {u} else s.ActiveMembers(k))
      && u in s.ActiveMembers(id)
  {
    var after := LeftBy(s, u, id);
    forall v
      ensures v in after.Members(k) <==> v in s.Members(k)
      ensures v in after.ActiveMembers(k) <==> v in s.ActiveMembers(k) && (k == id ==> v != u)
    {
      assert (k, v) in after.participants <==> (k, v) in s.participants;
      assert after.Active(k, v) <==> v in after.ActiveMembers(k);
      assert s.Active(k, v) <==> v in s.ActiveMembers(k);
    }
    assert s.Active(id, u);
  }

  lemma {:induction false} LeaveSound(s: Chats, u: string, id: int)
    requires Sound(s)
    ensures Sound(LeftBy(s, u, id))
  {
    var after := LeftBy(s, u, id);
    if LeaveDecision(s, u, id) == LeaveOutcome.Left {
      forall k
        ensures after.Members(k) == s.Members(k)
        ensures k != id ==> after.ActiveMembers(k) == s.ActiveMembers(k)
      {
        LeftMembers(s, u, id, k);
      }
      LeftMembers(s, u, id, id);
      CardAdd(after.ActiveMembers(id), s.ActiveMembers(id), u);
      assert Linked(after);
      hide Chats.Members, Chats.ActiveMembers, Linked;
      assert |after.ActiveMembers(id)| >= 1;
      forall k | s.Is(k, DIRECT)
        ensures k != id
      {
      }
      assert after.rows == s.rows && forall k :: after.Is(k, DIRECT) <==> s.Is(k, DIRECT);
    }
  }

  lemma {:induction false} RunSound(s: Chats, ops: seq<Op>, choose: Chooser)
    requires Sound(s)
    ensures Sound(Run(s, ops, choose))
  {
    hide Sound, FoundOrCreated, Opened, LeftBy;
    if ops != [] {
      var n := |ops| - 1;
      RunSound(s, ops[..n], choose);
      match ops[n] {
        case Direct(t, a, b, id) =>
          FindOrCreateSound(Run(s, ops[..n], choose), t, a, b, id, choose);
        case Open(t, creator, dto, id) =>
          OpenSound(Run(s, ops[..n], choose), t, creator, dto, id, choose);
        case Leave(u, id) =>
          LeaveSound(Run(s, ops[..n], choose), u, id);
      }
    }
  }

  lemma {:induction false} EmptySound()
    ensures Sound(Empty)
  {
  }

  /** In every state of every run direct conversations are pairs nobody leaves, at most one for two
      users, communities have at most one chat, and no conversation is empty. */
  lemma {:induction false} AlwaysSound(ops: seq<Op>, choose: Chooser)
    ensures Sound(Run(Empty, ops, choose))
  {
    EmptySound();
    RunSound(Empty, ops, choose);
  }

  // ---- Answers, from the tables alone ----

  /** A call answered without an insert leaves everything as it was; an insert fails on a taken id or an
      unknown user, and otherwise adds the conversation with these participants, none of whom has left. */
  ghost predicate Inserted(s: Chats, after: Chats, r: Outcome, t: Tables, id: int, c: Conversation,
                           users: set<string>) {
    if id in s.rows || !(users <= t.users) then r == Failed && after == s
    else r == Detail(id) && Extends(s, after, id, c, users)
  }

  lemma {:induction false} CreatedInserts(s: Chats, t: Tables, id: int, c: Conversation, users: set<string>)
    requires Linked(s)
    ensures var (after, r) := Created(s, t, id, c, users); Inserted(s, after, r, t, id, c, users)
  {
    if Created(s, t, id, c, users).1.Detail? {
      CreatedExtends(s, t, id, c, users);
    }
    hide Extends, Linked;
  }

  /** Nobody writes to themselves or across a block in either direction; everybody else is given the
      direct conversation of the two, or a new one if there is none. */
  lemma {:induction false} DirectAnswer(s: Chats, t: Tables, a: string, b: string, id: int, choose: Chooser)
    requires Sound(s) && Chooses(choose)
    ensures var (after, r) := FoundOrCreated(s, t, a, b, id, choose);
      var blocked := (a, b) in t.blocks || (b, a) in t.blocks;
      && (a == b <==> r == CannotMessageSelf)
      && (a != b && blocked <==> r == CannotMessageBlocked)
      && (a == b || blocked ==> after == s)
      && (a != b && !blocked ==>
            if exists k :: s.Is(k, DIRECT) && s.Members(k) == {a, b}
            then r.Detail? && s.Is(r.id, DIRECT) && s.Members(r.id) == {a, b} && after == s
            else Inserted(s, after, r, t, id, Conversation(DIRECT, None), {a, b}))
  {
    CreatedInserts(s, t, id, Conversation(DIRECT, None), {a, b});
    if a != b {
      forall k
        ensures k in Directs(s, a, b) <==> s.Is(k, DIRECT) && s.Members(k) == {a, b}
      {
        DirectsAreBetween(s, a, b, k);
      }
    }
    hide Directs, Created, Extends, Chats.Members;
  }

  /** A community's chat is open to its active members alone, who are given the chat there is, or a new
      one that they are in. */
  lemma {:induction false} CommunityAnswer(s: Chats, t: Tables, creator: string, dto: Dto, id: int, choose: Chooser)
    requires Sound(s) && Chooses(choose) && dto.kind == COMMUNITY_CHAT
    ensures var (after, r) := Opened(s, t, creator, dto, id, choose);
      var named := dto.communityId.Some? && dto.communityId.value != "";
      var member := named && (dto.communityId.value, creator) in t.communityMembers;
      && (!named <==> r == CommunityRequired)
      && (named && !member <==> r == MustBeMember)
      && (!member ==> after == s)
      && (member ==>
            if exists k :: s.Is(k, COMMUNITY_CHAT) && s.rows[k].communityId == dto.communityId
            then r.Detail? && s.Is(r.id, COMMUNITY_CHAT) && s.rows[r.id].communityId == dto.communityId && after == s
            else Inserted(s, after, r, t, id, Conversation(COMMUNITY_CHAT, dto.communityId), {creator}))
  {
    if dto.communityId.Some? {
      CreatedInserts(s, t, id, Conversation(COMMUNITY_CHAT, dto.communityId), {creator});
      assert forall k :: k in ChatsOf(s, dto.communityId.value) <==>
        s.Is(k, COMMUNITY_CHAT) && s.rows[k].communityId == dto.communityId;
    }
    hide Created, Extends, Sound, ChatsOf;
  }

  /** A group needs three different users, its creator among them, and consists of exactly these; a direct
      conversation opened by its dto is the one with the first user named. */
  lemma {:induction false} GroupAnswer(s: Chats, t: Tables, creator: string, dto: Dto, id: int, choose: Chooser)
    requires Sound(s) && dto.kind != COMMUNITY_CHAT
    ensures var (after, r) := Opened(s, t, creator, dto, id, choose);
      var users := (set u | u in dto.userIds) + {creator};
      var targeted := |dto.userIds| > 0 && dto.userIds[0] != "";
      && (r == TooFewParticipants <==> dto.kind == GROUP_CHAT && |users| < 3)
      && (r == TargetRequired <==> dto.kind == DIRECT && !targeted)
      && (r == TooFewParticipants || r == TargetRequired ==> after == s)
      && (dto.kind == GROUP_CHAT && |users| >= 3 ==>
            Inserted(s, after, r, t, id, Conversation(GROUP_CHAT, None), users))
      && (dto.kind == DIRECT && targeted ==> (after, r) == FoundOrCreated(s, t, creator, dto.userIds[0], id, choose))
  {
    var users := Elements(dto.userIds) + {creator};
    assert users == (set u | u in dto.userIds) + {creator};
    CreatedInserts(s, t, id, Conversation(GROUP_CHAT, None), users);
    hide Extends, Sound, Directs;
  }

  // ---- Direct conversations ----

  /** A conversation never goes away or changes its kind, and its participants are never replaced; a
      direct one keeps both of them. */
  ghost predicate Persists(s: Chats, after: Chats) {
    forall id :: id in s.rows ==> id in after.rows && after.rows[id] == s.rows[id] && after.Members(id) == s.Members(id)
  }

  lemma {:induction false} CreatePersists(s: Chats, t: Tables, id: int, c: Conversation, users: set<string>)
    requires Linked(s)
    ensures Persists(s, Created(s, t, id, c, users).0)
  {
    if Created(s, t, id, c, users).1.Detail? {
      CreatedExtends(s, t, id, c, users);
      hide Created, Chats.Members, Chats.ActiveMembers, Linked;
    }
  }

  lemma {:induction false} StepPersists(s: Chats, op: Op, choose: Chooser)
    requires Linked(s)
    ensures Persists(s, Step(s, op, choose))
  {
    hide Linked, Created, Chats.Members, Chats.ActiveMembers, Directs, ChatsOf;
    match op {
      case Direct(t, a, b, id) =>
        CreatePersists(s, t, id, Conversation(DIRECT, None), {a, b});
      case Open(t, creator, dto, id) =>
        OpenPersists(s, t, creator, dto, id, choose);
      case Leave(u, id) =>
        LeavePersists(s, u, id);
    }
  }

  lemma {:induction false} OpenPersists(s: Chats, t: Tables, creator: string, dto: Dto, id: int, choose: Chooser)
    requires Linked(s)
    ensures Persists(s, Opened(s, t, creator, dto, id, choose).0)
  {
    hide Linked, Created, Chats.Members, Chats.ActiveMembers, Directs, ChatsOf;
    match dto.kind {
      case DIRECT =>
        if dto.userIds != [] {
          CreatePersists(s, t, id, Conversation(DIRECT, None), {creator, dto.userIds[0]});
        }
      case COMMUNITY_CHAT =>
        CreatePersists(s, t, id, Conversation(COMMUNITY_CHAT, Some(dto.communityId.GetOr(""))), {creator});
      case GROUP_CHAT =>
        CreatePersists(s, t, id, Conversation(GROUP_CHAT, None), Elements(dto.userIds) + {creator});
    }
  }

  lemma {:induction false} LeavePersists(s: Chats, u: string, id: int)
    ensures Persists(s, LeftBy(s, u, id))
  {
    if LeaveDecision(s, u, id) == LeaveOutcome.Left {
      forall k
        ensures LeftBy(s, u, id).Members(k) == s.Members(k)
      {
        LeftMembers(s, u, id, k);
      }
    }
  }

  lemma {:induction false} RunPersists(s: Chats, ops: seq<Op>, choose: Chooser)
    requires Sound(s)
    ensures Persists(s, Run(s, ops, choose))
  {
    hide Step, Chats.Members, DirectsArePairs, DirectsUnique, ChatsUnique, Inhabited;
    if ops != [] {
      var n := |ops| - 1;
      RunPersists(s, ops[..n], choose);
      RunSound(s, ops[..n], choose);
      StepPersists(Run(s, ops[..n], choose), ops[n], choose);
    }
  }

  /** A successful call gives the direct conversation between exactly the two users. */
  lemma {:induction false} DirectIsBetween(s: Chats, t: Tables, a: string, b: string, id: int, choose: Chooser)
    requires Sound(s) && Chooses(choose) && FoundOrCreated(s, t, a, b, id, choose).1.Detail?
    ensures var (after, r) := FoundOrCreated(s, t, a, b, id, choose);
      after.Is(r.id, DIRECT) && after.Members(r.id) == {a, b}
  {
    var (after, r) := FoundOrCreated(s, t, a, b, id, choose);
    if Directs(s, a, b) != {} {
      DirectsAreBetween(s, a, b, r.id);
    } else {
      CreatedExtends(s, t, id, Conversation(DIRECT, None), {a, b});
      hide Created, Chats.Members, Chats.ActiveMembers;
    }
  }

  /** Whoever of the two asks, whenever, whatever happened in between: it is the same conversation,
      and asking again changes nothing. */
  lemma {:induction false} SameDirectAgain(s: Chats, t: Tables, a: string, b: string, id: int, ops: seq<Op>,
                                           later: Tables, otherId: int, choose: Chooser)
    requires Sound(s) && Chooses(choose)
    requires FoundOrCreated(s, t, a, b, id, choose).1.Detail? && !later.HasBlock(a, b)
    ensures var (first, r) := FoundOrCreated(s, t, a, b, id, choose);
      var last := Run(first, ops, choose);
      FoundOrCreated(last, later, b, a, otherId, choose) == (last, r)
        == FoundOrCreated(last, later, a, b, otherId, choose)
  {
    var (first, r) := FoundOrCreated(s, t, a, b, id, choose);
    var last := Run(first, ops, choose);
    DirectIsBetween(s, t, a, b, id, choose);
    FindOrCreateSound(s, t, a, b, id, choose);
    RunSound(first, ops, choose);
    RunPersists(first, ops, choose);
    OnlyDirect(last, a, b, r.id);
    OnlyDirect(last, b, a, r.id);
    hide Run, Directs, Sound, Chats.Members, Created;
  }

  lemma {:induction false} OnlyDirect(s: Chats, a: string, b: string, id: int)
    requires Sound(s) && a != b && s.Is(id, DIRECT) && s.Members(id) == {a, b}
    ensures Directs(s, a, b) == {id}
  {
    forall k
      ensures k in Directs(s, a, b) <==> k == id
    {
      DirectsAreBetween(s, a, b, k);
    }
  }

  // ---- Leaving ----

  /** Leaving succeeds exactly for an active member of a group or community chat that is not its last;
      whoever left is out, and nobody else is affected. */
  lemma {:induction false} LeavingExactly(s: Chats, u: string, id: int)
    requires Sound(s)
    ensures var after := LeftBy(s, u, id); var r := LeaveDecision(s, u, id);
      && (r == NotParticipant <==> u !in s.ActiveMembers(id))
      && (r == CannotLeaveDirect <==> u in s.ActiveMembers(id) && s.Is(id, DIRECT))
      && (r == CannotLeaveSoleMember <==> s.ActiveMembers(id) == {u} && !s.Is(id, DIRECT))
      && (r == LeaveOutcome.Left <==>
            u in s.ActiveMembers(id) && !s.Is(id, DIRECT) && s.ActiveMembers(id) != {u})
      && (r != LeaveOutcome.Left ==> after == s)
      && (r == LeaveOutcome.Left ==>
            && LeaveDecision(after, u, id) == NotParticipant
            && after.ActiveMembers(id) == s.ActiveMembers(id) - {u}
            && forall k :: k != id ==> after.ActiveMembers(k) == s.ActiveMembers(k))
  {
    assert s.Active(id, u) <==> u in s.ActiveMembers(id);
    if s.Active(id, u) {
      assert (id, u) in s.participants;
      CardSubset({u}, s.ActiveMembers(id));
    }
    if LeaveDecision(s, u, id) == LeaveOutcome.Left {
      forall k
        ensures LeftBy(s, u, id).ActiveMembers(k) == (if k == id then s.ActiveMembers(k) - {u} else s.ActiveMembers(k))
      {
        LeftMembers(s, u, id, k);
      }
    }
  }

  /** The comment at the top of the service says that everybody in a community takes part in its chat.
      Opening the chat makes a member a participant exactly if the chat is new or the member is in it. */
  lemma {:induction false} CommunityChatJoinsExactly(s: Chats, t: Tables, u: string, dto: Dto, id: int, choose: Chooser)
    requires Sound(s) && Chooses(choose) && dto.kind == COMMUNITY_CHAT && Opened(s, t, u, dto, id, choose).1.Detail?
    ensures var (after, r) := Opened(s, t, u, dto, id, choose); var chats := ChatsOf(s, dto.communityId.GetOr(""));
      u in after.ActiveMembers(r.id) <==> chats == {} || exists k :: k in chats && u in s.ActiveMembers(k)
  {
    var community := dto.communityId.value;
    if ChatsOf(s, community) == {} {
      CreatedExtends(s, t, id, Conversation(COMMUNITY_CHAT, Some(community)), {u});
    } else {
      var k := choose(ChatsOf(s, community));
      forall j | j in ChatsOf(s, community)
        ensures j == k
      {
        assert s.Is(j, COMMUNITY_CHAT) && s.Is(k, COMMUNITY_CHAT);
      }
    }
    hide Created, Chats.ActiveMembers;
  }
}
