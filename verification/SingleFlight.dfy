/** Client and server of the refresh protocol together. On the client any number of requests meet a
    401 and share one refresh; on the server a refresh is a check, a revocation and an issue that
    other steps may interleave. */
module SingleFlight {
  import opened Prelude
  import opened Tokens

  // ---- The client's module variables ----

  datatype Client = Client(refreshInFlight: Option<nat>, accessToken: Option<Token>, refreshToken: Option<Token>,
                           userId: Option<string>)

  /** What the synchronous part of `tryRefresh` decides. */
  datatype Attempt = Join(call: nat) | NoToken | Start(token: Token)

  function TryRefresh(c: Client): Attempt {
    if c.refreshInFlight.Some? then Join(c.refreshInFlight.value)
    else if c.refreshToken.None? then NoToken
    else Start(c.refreshToken.value)
  }

  function Settled(c: Client, pair: Option<Token>): Client {
    if pair.Some? then c.(refreshInFlight := None, accessToken := pair, refreshToken := pair)
    else c.(refreshInFlight := None)
  }

  function SignedOut(c: Client): Client {
    c.(accessToken := None, refreshToken := None, userId := None)
  }

  /** The segments of `api-client` between two awaits. A pair is named by its refresh token. */
  class ApiClient {
    var refreshInFlight: Option<nat>
    var accessToken: Option<Token>
    var refreshToken: Option<Token>
    var userId: Option<string>

    function Contents(): Client
      reads this
    {
      Client(refreshInFlight, accessToken, refreshToken, userId)
    }

    /** `tryRefresh` up to the request it sends; `call` numbers that request. */
    method BeginRefresh(call: nat) returns (a: Attempt)
      modifies this
      ensures a == TryRefresh(old(Contents()))
      ensures Contents() == if a.Start? then old(Contents()).(refreshInFlight := Some(call)) else old(Contents())
    {
      if refreshInFlight.Some? {
        return Join(refreshInFlight.value);
      }
      if refreshToken.None? {
        return NoToken;
      }
      refreshInFlight := Some(call);
      return Start(refreshToken.value);
    }

    /** The answer arrives (`None` for an error status, a network failure or a bad body). */
    method Settle(pair: Option<Token>)
      modifies this
      ensures Contents() == Settled(old(Contents()), pair)
    {
      if pair.Some? {
        accessToken := pair;
        refreshToken := pair;
      }
      refreshInFlight := None;
    }

    /** A request resumes after `await tryRefresh()`; the result says whether it is sent again. */
    method Resume(refreshed: Option<Token>) returns (retry: bool)
      modifies this
      ensures retry == refreshed.Some?
      ensures Contents() == if retry then old(Contents()) else SignedOut(old(Contents()))
    {
      if refreshed.Some? {
        return true;
      }
      accessToken, refreshToken, userId := None, None, None;
      return false;
    }
  }

  // ---- The system ----

  /** Where a refresh call is on the server. */
  datatype Stage = Arrived | Checked | Revoked | Answered(pair: Option<Token>)

  datatype Call = Call(token: Token, stage: Stage) {
    /** Past the check, and not yet answered. */
    predicate Inside() {
      stage == Checked || stage == Revoked
    }
  }

  /** A request of the app: sent, waiting for a refresh call, or over. */
  datatype Phase = Sent | Waiting(call: nat) | Unrefreshed | Over

  /** `settled` holds what the client got out of each call it no longer waits for; `issued` lists the
      exchanges made and `used` every token id ever handed out. */
  datatype System = System(client: Client, requests: map<nat, Phase>, calls: seq<Call>,
                           settled: map<nat, Option<Token>>, live: set<Token>, used: set<Token>,
                           issued: seq<(Token, Token)>)

  datatype Op =
    | NewRequest(r: nat)
    | Unauthorized(r: nat)
    | Check(c: nat)
    | Revoke(c: nat)
    | Issue(c: nat, next: Token, active: bool)
    | Respond(c: nat)
    | Lose(c: nat)
    | Resume(r: nat)
    | Drop(tokens: set<Token>)
    | SignIn(next: Token)
    | SignOut

  ghost predicate Enabled(s: System, op: Op) {
    match op
    case NewRequest(r) => r !in s.requests
    case Unauthorized(r) => r in s.requests && s.requests[r] == Sent
    case Check(c) => c < |s.calls| && s.calls[c].stage == Arrived
    case Revoke(c) => c < |s.calls| && s.calls[c].stage == Checked
    case Issue(c, next, _) =>
      && c < |s.calls| && s.calls[c].stage == Revoked
      && next !in s.used && next.user == s.calls[c].token.user
    case Respond(c) => c < |s.calls| && s.calls[c].stage.Answered? && s.client.refreshInFlight == Some(c)
    case Lose(c) => s.client.refreshInFlight == Some(c)
    case Resume(r) => r in s.requests &&
      (s.requests[r] == Unrefreshed || (s.requests[r].Waiting? && s.requests[r].call in s.settled))
    case Drop(_) => true
    case SignIn(next) => next !in s.used
    case SignOut => true
  }

  function SetStage(s: System, c: nat, stage: Stage): System
    requires c < |s.calls|
  {
    s.(calls := s.calls[c := s.calls[c].(stage := stage)])
  }

  function Step(s: System, op: Op): System
    requires Enabled(s, op)
  {
    match op
    case NewRequest(r) => s.(requests := s.requests[r := Sent])
    case Unauthorized(r) =>
      (match TryRefresh(s.client)
       case Join(c) => s.(requests := s.requests[r := Waiting(c)])
       case NoToken => s.(requests := s.requests[r := Unrefreshed])
       case Start(token) =>
         s.(requests := s.requests[r := Waiting(|s.calls|)], calls := s.calls + [Call(token, Arrived)],
            client := s.client.(refreshInFlight := Some(|s.calls|))))
    case Check(c) => SetStage(s, c, if s.calls[c].token in s.live then Checked else Answered(None))
    case Revoke(c) => SetStage(s, c, Revoked).(live := s.live - {s.calls[c].token})
    case Issue(c, next, active) =>
      if active then
        SetStage(s, c, Answered(Some(next))).(live := s.live + {next}, used := s.used + {next},
                                               issued := s.issued + [(s.calls[c].token, next)])
      else SetStage(s, c, Answered(None))
    case Respond(c) =>
      s.(client := Settled(s.client, s.calls[c].stage.pair), settled := s.settled[c := s.calls[c].stage.pair])
    case Lose(c) => s.(client := Settled(s.client, None), settled := s.settled[c := None])
    case Resume(r) =>
      var refreshed := if s.requests[r].Waiting? then s.settled[s.requests[r].call] else None;
      s.(requests := s.requests[r := Over], client := if refreshed.Some? then s.client else SignedOut(s.client))
    case Drop(tokens) => s.(live := s.live - tokens)
    case SignIn(next) =>
      s.(live := s.live + {next}, used := s.used + {next},
         client := s.client.(accessToken := Some(next), refreshToken := Some(next), userId := Some(next.user)))
    case SignOut => s.(client := SignedOut(s.client))
  }

  /** A device that has never signed in. */
  const Initial := System(Client(None, None, None, None), map[], [], map[], {}, {}, [])

  ghost predicate EnabledRun(s: System, ops: seq<Op>)
    decreases |ops|
  {
    ops == [] || (Enabled(s, ops[0]) && EnabledRun(Step(s, ops[0]), ops[1..]))
  }

  function Run(s: System, ops: seq<Op>): System
    requires EnabledRun(s, ops)
    decreases |ops|
  {
    if ops == [] then s else Run(Step(s, ops[0]), ops[1..])
  }

  /** Without interleaving, the three sub-steps do to the live tokens what `AuthService.Refresh` does. */
  lemma {:induction false} SubStepsMakeRefresh(s: System, c: nat, next: Token, active: bool)
    requires Enabled(s, Check(c)) && next !in s.used && next.user == s.calls[c].token.user
    ensures var token := s.calls[c].token; var checked := Step(s, Check(c));
      if token !in s.live then checked.live == s.live && checked.calls[c].stage == Answered(None)
      else
        && Enabled(checked, Revoke(c)) && Enabled(Step(checked, Revoke(c)), Issue(c, next, active))
        && (var done := Step(Step(checked, Revoke(c)), Issue(c, next, active));
            && done.live == (s.live - {token}) + (if active then {next} else {})
            && done.calls[c].stage == Answered(if active then Some(next) else None))
  {
  }

  // ---- What the client stores ----

  /** An answer ends the flight; a pair is stored in both places and handed to those who wait for it,
      and without one nothing that is stored changes. */
  lemma {:induction false} AnswerStored(s: System, c: nat)
    requires Enabled(s, Respond(c))
    ensures var after, pair := Step(s, Respond(c)), s.calls[c].stage.pair;
      && after.client.refreshInFlight == None
      && after.client.accessToken == (if pair.Some? then pair else s.client.accessToken)
      && after.client.refreshToken == (if pair.Some? then pair else s.client.refreshToken)
      && after.client.userId == s.client.userId
      && after.settled == s.settled[c := pair] && after.requests == s.requests
  {
  }

  /** A 401 makes its request wait for the call in flight, or for a new call that presents the stored
      refresh token and becomes the one in flight; without a token it waits for nothing. */
  lemma {:induction false} UnauthorizedWaits(s: System, r: nat)
    requires Enabled(s, Unauthorized(r))
    ensures var after := Step(s, Unauthorized(r));
      var flight, stored := s.client.refreshInFlight, s.client.refreshToken;
      && after.requests == s.requests[r := if flight.Some? then Waiting(flight.value)
                                           else if stored.Some? then Waiting(|s.calls|) else Unrefreshed]
      && after.calls == (if flight.None? && stored.Some? then s.calls + [Call(stored.value, Arrived)] else s.calls)
      && after.client == s.client.(refreshInFlight := if flight.None? && stored.Some? then Some(|s.calls|) else flight)
  {
  }

  /** A request that resumes without a pair leaves nothing stored; with one it changes nothing. */
  lemma {:induction false} ResumeStored(s: System, r: nat)
    requires Enabled(s, Resume(r))
    ensures var after := Step(s, Resume(r)); var waited := s.requests[r].Waiting?;
      && after.requests == s.requests[r := Over]
      && after.client.refreshInFlight == s.client.refreshInFlight
      && (waited && s.settled[s.requests[r].call].Some? ==> after.client == s.client)
      && (!waited || s.settled[s.requests[r].call].None? ==>
            after.client.accessToken == None && after.client.refreshToken == None && after.client.userId == None)
  {
  }

  /** The two tokens are of one pair, and a user id is stored only with tokens. */
  ghost predicate Paired(c: Client) {
    c.accessToken == c.refreshToken && (c.userId.Some? ==> c.refreshToken.Some?)
  }

  lemma {:induction false} PairedStep(s: System, op: Op)
    requires Paired(s.client) && Enabled(s, op)
    ensures Paired(Step(s, op).client)
  {
  }

  /** In every state of every run the two stored tokens are of one pair. */
  lemma {:induction false} AlwaysPaired(s: System, ops: seq<Op>)
    requires Paired(s.client) && EnabledRun(s, ops)
    ensures Paired(Run(s, ops).client)
    decreases |ops|
  {
    hide Paired, Step, Enabled;
    if ops != [] {
      PairedStep(s, ops[0]);
      AlwaysPaired(Step(s, ops[0]), ops[1..]);
    }
  }

  /** And the stored user id names the user of that pair. */
  ghost predicate Named(c: Client) {
    c.accessToken == c.refreshToken
    && c.userId == if c.refreshToken.Some? then Some(c.refreshToken.value.user) else None
  }

  /** A pair arrives for a user who is not, or no longer, the one signed in. */
  predicate LatePair(s: System, op: Op) {
    && op.Respond? && op.c < |s.calls| && s.calls[op.c].stage.Answered? && s.calls[op.c].stage.pair.Some?
    && s.client.userId != Some(s.calls[op.c].stage.pair.value.user)
  }

  /** Only such a pair makes the user id and the tokens disagree. */
  lemma {:induction false} NamedExactly(s: System, op: Op)
    requires Named(s.client) && Enabled(s, op)
    ensures Named(Step(s, op).client) <==> !LatePair(s, op)
  {
  }

  ghost predicate AlwaysNamed(s: System, ops: seq<Op>)
    requires EnabledRun(s, ops)
    decreases |ops|
  {
    Named(s.client) && (ops == [] || AlwaysNamed(Step(s, ops[0]), ops[1..]))
  }

  ghost predicate NoLatePair(s: System, ops: seq<Op>)
    requires EnabledRun(s, ops)
    decreases |ops|
  {
    ops == [] || (!LatePair(s, ops[0]) && NoLatePair(Step(s, ops[0]), ops[1..]))
  }

  /** The stored user id names the user of the stored tokens in every state of a run exactly if no pair
      arrives late. */
  lemma {:induction false} AlwaysNamedExactly(s: System, ops: seq<Op>)
    requires Named(s.client) && EnabledRun(s, ops)
    ensures AlwaysNamed(s, ops) <==> NoLatePair(s, ops)
    decreases |ops|
  {
    hide Named, LatePair, Step, Enabled;
    if ops != [] {
      NamedExactly(s, ops[0]);
      if Named(Step(s, ops[0]).client) {
        AlwaysNamedExactly(Step(s, ops[0]), ops[1..]);
      }
    }
  }

  /** Signing out while a refresh is in flight does that: its answer stores tokens for nobody. */
  lemma {:induction false} SignOutInFlight(t: Token, p: Token)
    requires t != p && t.user == p.user
    ensures var ops := [SignIn(t), NewRequest(0), Unauthorized(0), SignOut]
        + [Check(0), Revoke(0), Issue(0, p, true), Respond(0)];
      EnabledRun(Initial, ops) && (var client := Run(Initial, ops).client;
        client.accessToken == Some(p) && client.refreshToken == Some(p) && client.userId == None)
  {
    var first := [SignIn(t), NewRequest(0), Unauthorized(0), SignOut];
    SignedOutInFlight(t);
    var s4 := Run(Initial, first);
    hide Run, EnabledRun;
    AnsweredAnyway(s4, t, p);
    RunConcat(Initial, first, [Check(0), Revoke(0), Issue(0, p, true), Respond(0)]);
  }

  lemma {:induction false} SignedOutInFlight(t: Token)
    ensures var ops := [SignIn(t), NewRequest(0), Unauthorized(0), SignOut];
      EnabledRun(Initial, ops) && Run(Initial, ops)
        == System(Client(Some(0), None, None, None), map[0 := Waiting(0)], [Call(t, Arrived)], map[], {t}, {t}, [])
  {
    FourSteps(Initial, SignIn(t), NewRequest(0), Unauthorized(0), SignOut);
  }

  lemma {:induction false} AnsweredAnyway(s: System, t: Token, p: Token)
    requires t != p && t.user == p.user
    requires s == System(Client(Some(0), None, None, None), map[0 := Waiting(0)], [Call(t, Arrived)],
                         map[], {t}, {t}, [])
    ensures var ops := [Check(0), Revoke(0), Issue(0, p, true), Respond(0)];
      && EnabledRun(s, ops)
      && Run(s, ops).client == Client(None, Some(p), Some(p), None)
  {
    var s2 := Step(Step(s, Check(0)), Revoke(0));
    assert s2.calls == [Call(t, Revoked)] && s2.used == {t} && s2.client == s.client;
    var s3 := Step(s2, Issue(0, p, true));
    assert s3.calls == [Call(t, Answered(Some(p)))] && s3.client == s.client;
    FourSteps(s, Check(0), Revoke(0), Issue(0, p, true), Respond(0));
  }

  // ---- One new pair per token ----

  predicate Exchanged(issued: seq<(Token, Token)>, t: Token) {
    exists k :: 0 <= k < |issued| && issued[k].0 == t
  }

  /** No token has been exchanged for two pairs. */
  ghost predicate OnePairEach(s: System) {
    forall i, j :: 0 <= i < j < |s.issued| ==> s.issued[i].0 != s.issued[j].0
  }

  /** Calls past their check hold tokens that are theirs alone and not exchanged yet. */
  ghost predicate Exclusive(s: System) {
    && (forall c, d :: 0 <= c < d < |s.calls| && s.calls[c].Inside() && s.calls[d].Inside() ==>
          s.calls[c].token != s.calls[d].token)
    && (forall c :: 0 <= c < |s.calls| && s.calls[c].Inside() ==> !Exchanged(s.issued, s.calls[c].token))
  }

  /** Bookkeeping: an exchanged token is dead, and everything known was handed out. */
  ghost predicate Accounted(s: System) {
    && s.live <= s.used
    && (s.client.refreshToken.Some? ==> s.client.refreshToken.value in s.used)
    && (forall c :: 0 <= c < |s.calls| ==> s.calls[c].token in s.used)
    && (forall c :: 0 <= c < |s.calls| && s.calls[c].stage == Revoked ==> s.calls[c].token !in s.live)
    && (forall c :: 0 <= c < |s.calls| && s.calls[c].stage.Answered? && s.calls[c].stage.pair.Some? ==>
          s.calls[c].stage.pair.value in s.used)
    && (forall k :: 0 <= k < |s.issued| ==> s.issued[k].0 in s.used && s.issued[k].0 !in s.live)
  }

  /** The check of call `c` meets no other call that is past its own check of the same token. */
  ghost predicate Alone(s: System, c: nat) {
    forall d :: 0 <= d < |s.calls| && s.calls[d].Inside() && c < |s.calls| ==> s.calls[d].token != s.calls[c].token
  }

  /** A check that succeeds keeps calls exclusive exactly if it is alone. */
  lemma {:induction false} CheckExclusiveExactly(s: System, c: nat)
    requires Accounted(s) && Exclusive(s) && Enabled(s, Check(c)) && s.calls[c].token in s.live
    ensures Exclusive(Step(s, Check(c))) <==> Alone(s, c)
  {
    var after := Step(s, Check(c));
    assert after.calls[c].Inside();
    if Exclusive(after) {
      forall d | 0 <= d < |s.calls| && s.calls[d].Inside()
        ensures s.calls[d].token != s.calls[c].token
      {
        assert after.calls[d] == s.calls[d];
      }
    }
  }

  ghost predicate Safe(s: System) {
    Accounted(s) && Exclusive(s) && OnePairEach(s)
  }

  lemma {:induction false} SafeIssue(s: System, op: Op)
    requires Safe(s) && Enabled(s, op) && op.Issue? && op.active
    ensures Safe(Step(s, op))
  {
    var after := Step(s, op);
    var token := s.calls[op.c].token;
    assert s.calls[op.c].Inside();
    forall k | 0 <= k < |s.issued|
      ensures s.issued[k].0 != token
    {
      assert !Exchanged(s.issued, token);
    }
    forall c | 0 <= c < |after.calls| && after.calls[c].Inside()
      ensures !Exchanged(after.issued, after.calls[c].token)
    {
      assert after.calls[c] == s.calls[c] && !Exchanged(s.issued, s.calls[c].token);
      forall k | 0 <= k < |after.issued|
        ensures after.issued[k].0 != s.calls[c].token
      {
        assert k < |s.issued| ==> after.issued[k] == s.issued[k];
      }
    }
  }

  /** The books stay right whatever happens. */
  lemma {:induction false} AccountedStep(s: System, op: Op)
    requires Accounted(s) && Enabled(s, op)
    ensures Accounted(Step(s, op))
  {
    if op.Issue? && op.active {
      assert s.calls[op.c].token !in s.live;
    }
  }

  /** The check of a token that is not live is refused, and disturbs nobody. */
  predicate Succeeds(s: System, op: Op) {
    op.Check? && op.c < |s.calls| && s.calls[op.c].token in s.live
  }

  /** Nothing was issued, and every call past its check was so before. */
  ghost predicate NoneEntered(s: System, after: System) {
    && after.issued == s.issued
    && forall c :: 0 <= c < |after.calls| && after.calls[c].Inside() ==>
         c < |s.calls| && s.calls[c].Inside() && s.calls[c].token == after.calls[c].token
  }

  lemma {:induction false} OnlyChecksEnter(s: System, op: Op)
    requires Enabled(s, op) && !Succeeds(s, op) && !(op.Issue? && op.active)
    ensures NoneEntered(s, Step(s, op))
  {
  }

  lemma {:induction false} NoneEnteredExclusive(s: System, after: System)
    requires Exclusive(s) && OnePairEach(s) && NoneEntered(s, after)
    ensures Exclusive(after) && OnePairEach(after)
  {
  }

  lemma {:induction false} ExclusiveStep(s: System, op: Op)
    requires Safe(s) && Enabled(s, op) && (Succeeds(s, op) ==> Alone(s, op.c)) && !(op.Issue? && op.active)
    ensures Exclusive(Step(s, op)) && OnePairEach(Step(s, op))
  {
    if Succeeds(s, op) {
      CheckExclusiveExactly(s, op.c);
      assert Step(s, op).issued == s.issued;
    } else {
      OnlyChecksEnter(s, op);
      NoneEnteredExclusive(s, Step(s, op));
    }
  }

  lemma {:induction false} SafeStep(s: System, op: Op)
    requires Safe(s) && Enabled(s, op) && (Succeeds(s, op) ==> Alone(s, op.c))
    ensures Safe(Step(s, op))
  {
    if op.Issue? && op.active {
      SafeIssue(s, op);
    } else {
      AccountedStep(s, op);
      ExclusiveStep(s, op);
    }
  }

  /** Every check of the run that succeeds is alone. */
  ghost predicate AloneRun(s: System, ops: seq<Op>)
    requires EnabledRun(s, ops)
    decreases |ops|
  {
    ops == [] || ((Succeeds(s, ops[0]) ==> Alone(s, ops[0].c)) && AloneRun(Step(s, ops[0]), ops[1..]))
  }

  /** Calls are exclusive in every state of the run. */
  ghost predicate AlwaysExclusive(s: System, ops: seq<Op>)
    requires EnabledRun(s, ops)
    decreases |ops|
  {
    Exclusive(s) && (ops == [] || AlwaysExclusive(Step(s, ops[0]), ops[1..]))
  }

  /** That is so exactly if every check that succeeds is alone, and then each refresh token yields at
      most one new pair. */
  lemma {:induction false} AloneRunIsSafe(s: System, ops: seq<Op>)
    requires Safe(s) && EnabledRun(s, ops)
    ensures AlwaysExclusive(s, ops) <==> AloneRun(s, ops)
    ensures AloneRun(s, ops) ==> Safe(Run(s, ops))
    decreases |ops|
  {
    if ops != [] {
      var op := ops[0];
      if Succeeds(s, op) && !Alone(s, op.c) {
        CheckExclusiveExactly(s, op.c);
        hide Exclusive, Alone, Step, Enabled;
        assert !Exclusive(Step(s, op));
      } else {
        SafeStep(s, op);
        hide Accounted, Exclusive, OnePairEach, Alone, Step, Enabled;
        AloneRunIsSafe(Step(s, op), ops[1..]);
      }
    }
  }

  // ---- When a token can yield two pairs ----

  /** The server only goes on with calls that are past their check. */
  ghost predicate Settling(ops: seq<Op>) {
    forall i :: 0 <= i < |ops| ==> ops[i].Revoke? || ops[i].Issue?
  }

  /** However the calls past their check go on, no token is exchanged twice. */
  ghost predicate Harmless(s: System) {
    forall ops :: Settling(ops) && EnabledRun(s, ops) ==> OnePairEach(Run(s, ops))
  }

  /** The way of one call from past its check to its pair. */
  function Finish(s: System, c: nat, next: Token): seq<Op>
    requires c < |s.calls|
  {
    if s.calls[c].stage == Checked then [Revoke(c), Issue(c, next, true)] else [Issue(c, next, true)]
  }

  lemma {:induction false} FinishIssues(s: System, c: nat, next: Token)
    requires c < |s.calls| && s.calls[c].Inside() && next !in s.used && next.user == s.calls[c].token.user
    ensures Settling(Finish(s, c, next)) && EnabledRun(s, Finish(s, c, next))
    ensures var after := Run(s, Finish(s, c, next));
      && after.issued == s.issued + [(s.calls[c].token, next)]
      && after.used == s.used + {next} && next in after.live
      && after.calls == s.calls[c := s.calls[c].(stage := Answered(Some(next)))]
  {
    var issue := Issue(c, next, true);
    if s.calls[c].stage == Checked {
      var revoked := Step(s, Revoke(c));
      OneStep(revoked, issue);
      assert [Revoke(c), issue][1..] == [issue];
      assert Run(s, [Revoke(c), issue]) == Run(revoked, [issue]) == Step(revoked, issue);
    } else {
      OneStep(s, issue);
    }
  }

  lemma {:induction false} OneStep(s: System, op: Op)
    requires Enabled(s, op)
    ensures EnabledRun(s, [op]) && Run(s, [op]) == Step(s, op)
  {
    hide Enabled, Step;
    assert [op][1..] == [];
  }

  /** There always are two tokens of a user that were never handed out. */
  lemma {:induction false} UnusedTokens(used: set<Token>, user: string) returns (a: Token, b: Token)
    ensures a !in used && b !in used && a != b && a.user == user && b.user == user
  {
    var n := LongerThanAll(used);
    a, b := Token(user, seq(n, _ => '0')), Token(user, seq(n + 1, _ => '0'));
    assert |a.jti| == n && |b.jti| == n + 1;
  }

  lemma {:induction false} LongerThanAll(used: set<Token>) returns (n: nat)
    ensures forall t :: t in used ==> |t.jti| < n
  {
    n := 0;
    if used != {} {
      var t :| t in used;
      var m := LongerThanAll(used - {t});
      n := if m > |t.jti| then m else |t.jti| + 1;
    }
  }

  /** Two calls past the check of one token can both issue. */
  lemma {:induction false} OverlapDoubles(s: System, c: nat, d: nat)
    requires c < d < |s.calls|
    requires s.calls[c].Inside() && s.calls[d].Inside() && s.calls[c].token == s.calls[d].token
    ensures !Harmless(s)
  {
    var a, b := UnusedTokens(s.used, s.calls[c].token.user);
    var first := Finish(s, c, a);
    FinishIssues(s, c, a);
    var s1 := Run(s, first);
    var second := Finish(s1, d, b);
    FinishIssues(s1, d, b);
    RunConcat(s, first, second);
    var s2 := Run(s1, second);
    var n := |s.issued|;
    assert s2.issued[n].0 == s2.issued[n + 1].0;
    assert Settling(first + second) && Run(s, first + second) == s2 && !OnePairEach(s2);
  }

  /** A call past the check of a token that was exchanged already can issue again. */
  lemma {:induction false} ExchangedDoubles(s: System, c: nat)
    requires c < |s.calls| && s.calls[c].Inside() && Exchanged(s.issued, s.calls[c].token)
    ensures !Harmless(s)
  {
    var a, _ := UnusedTokens(s.used, s.calls[c].token.user);
    FinishIssues(s, c, a);
    var after := Run(s, Finish(s, c, a));
    var k :| 0 <= k < |s.issued| && s.issued[k].0 == s.calls[c].token;
    assert after.issued[k].0 == after.issued[|s.issued|].0;
    assert !OnePairEach(after);
  }

  /** While no token has been exchanged twice: the calls under way can do no harm exactly if they are
      exclusive. */
  lemma {:induction false} HarmlessExactly(s: System)
    requires Accounted(s) && OnePairEach(s)
    ensures Exclusive(s) <==> Harmless(s)
  {
    if Exclusive(s) {
      forall ops | Settling(ops) && EnabledRun(s, ops)
        ensures OnePairEach(Run(s, ops))
      {
        SettlingIsAlone(s, ops);
        AloneRunIsSafe(s, ops);
      }
    } else if c :| 0 <= c < |s.calls| && s.calls[c].Inside() && Exchanged(s.issued, s.calls[c].token) {
      ExchangedDoubles(s, c);
    } else {
      var c, d :|
        && 0 <= c < d < |s.calls|
        && s.calls[c].Inside() && s.calls[d].Inside() && s.calls[c].token == s.calls[d].token;
      OverlapDoubles(s, c, d);
    }
  }

  lemma {:induction false} SettlingIsAlone(s: System, ops: seq<Op>)
    requires EnabledRun(s, ops) && Settling(ops)
    ensures AloneRun(s, ops)
    decreases |ops|
  {
    hide Step, Enabled;
    if ops != [] {
      SettlingIsAlone(Step(s, ops[0]), ops[1..]);
    }
  }

  /** In no state of the run the calls under way can do harm. */
  ghost predicate NeverDoubles(s: System, ops: seq<Op>)
    requires EnabledRun(s, ops)
    decreases |ops|
  {
    Harmless(s) && (ops == [] || NeverDoubles(Step(s, ops[0]), ops[1..]))
  }

  /** Over a whole run no token can be exchanged twice exactly if every check that succeeds is alone. */
  lemma {:induction false} NeverDoublesExactly(s: System, ops: seq<Op>)
    requires Safe(s) && EnabledRun(s, ops)
    ensures NeverDoubles(s, ops) <==> AloneRun(s, ops)
    decreases |ops|
  {
    HarmlessExactly(s);
    if ops != [] {
      var op := ops[0];
      if Succeeds(s, op) && !Alone(s, op.c) {
        CheckExclusiveExactly(s, op.c);
        AccountedStep(s, op);
        assert OnePairEach(Step(s, op));
        HarmlessExactly(Step(s, op));
        hide Accounted, Exclusive, OnePairEach, Harmless, Alone, Step, Enabled;
        assert !NeverDoubles(Step(s, op), ops[1..]);
      } else {
        SafeStep(s, op);
        hide Accounted, Exclusive, OnePairEach, Harmless, Alone, Step, Enabled;
        NeverDoublesExactly(Step(s, op), ops[1..]);
      }
    }
  }

  // ---- Single flight makes every check alone ----

  /** The call that the client waits for is the only one that can be unanswered. */
  ghost predicate OneInFlight(s: System) {
    && (s.client.refreshInFlight.Some? ==> s.client.refreshInFlight.value < |s.calls|)
    && (forall c :: 0 <= c < |s.calls| && !s.calls[c].stage.Answered? ==> s.client.refreshInFlight == Some(c))
  }

  lemma {:induction false} OneInFlightStep(s: System, op: Op)
    requires OneInFlight(s) && Enabled(s, op) && !op.Lose?
    ensures OneInFlight(Step(s, op))
    ensures op.Check? ==> Alone(s, op.c)
  {
  }

  /** The server has answered the call that the client is about to give up. */
  predicate LostAnswered(s: System, c: nat) {
    c < |s.calls| && s.calls[c].stage.Answered?
  }

  /** Giving up on a call keeps refreshes from overlapping exactly if the server has answered it: a
      response lost on its way back does no harm, an abandoned request does. */
  lemma {:induction false} LoseExactly(s: System, c: nat)
    requires OneInFlight(s) && Enabled(s, Lose(c))
    ensures OneInFlight(Step(s, Lose(c))) <==> LostAnswered(s, c)
  {
    assert Step(s, Lose(c)).calls == s.calls;
  }

  /** Whenever the client gives up on a call, the server has answered it. */
  ghost predicate LosesAnsweredOnly(s: System, ops: seq<Op>)
    requires EnabledRun(s, ops)
    decreases |ops|
  {
    ops == [] || ((ops[0].Lose? ==> LostAnswered(s, ops[0].c)) && LosesAnsweredOnly(Step(s, ops[0]), ops[1..]))
  }

  lemma {:induction false} SingleFlightRun(s: System, ops: seq<Op>)
    requires OneInFlight(s) && EnabledRun(s, ops) && LosesAnsweredOnly(s, ops)
    ensures OneInFlight(Run(s, ops)) && AloneRun(s, ops)
    decreases |ops|
  {
    hide OneInFlight, Alone, Step, LostAnswered;
    if ops != [] {
      if ops[0].Lose? {
        LoseExactly(s, ops[0].c);
      } else {
        OneInFlightStep(s, ops[0]);
      }
      SingleFlightRun(Step(s, ops[0]), ops[1..]);
    }
  }

  /** In every state of the run only the awaited call can be unanswered. */
  ghost predicate NeverOverlaps(s: System, ops: seq<Op>)
    requires EnabledRun(s, ops)
    decreases |ops|
  {
    OneInFlight(s) && (ops == [] || NeverOverlaps(Step(s, ops[0]), ops[1..]))
  }

  /** That is so exactly if every call that was given up had been answered. */
  lemma {:induction false} NeverOverlapsExactly(s: System, ops: seq<Op>)
    requires OneInFlight(s) && EnabledRun(s, ops)
    ensures NeverOverlaps(s, ops) <==> LosesAnsweredOnly(s, ops)
    decreases |ops|
  {
    hide OneInFlight, Step, LostAnswered;
    if ops != [] {
      if ops[0].Lose? {
        LoseExactly(s, ops[0].c);
      } else {
        OneInFlightStep(s, ops[0]);
      }
      if OneInFlight(Step(s, ops[0])) {
        NeverOverlapsExactly(Step(s, ops[0]), ops[1..]);
      }
    }
  }

  /** From sign-up on, for any number of concurrent requests: refreshes never overlap, and the
      non-atomic check-then-revoke yields at most one new pair per refresh token. */
  lemma {:induction false} OnePairPerToken(ops: seq<Op>)
    requires EnabledRun(Initial, ops) && LosesAnsweredOnly(Initial, ops)
    ensures OneInFlight(Run(Initial, ops)) && OnePairEach(Run(Initial, ops)) && NeverDoubles(Initial, ops)
  {
    SingleFlightRun(Initial, ops);
    AloneRunIsSafe(Initial, ops);
    NeverDoublesExactly(Initial, ops);
  }

  // ---- The stored token stays live ----

  /** No response is lost, no token revoked or expired, and the account stays active. */
  ghost predicate Quiet(ops: seq<Op>) {
    forall i :: 0 <= i < |ops| ==> !ops[i].Lose? && !ops[i].Drop? && (ops[i].Issue? ==> ops[i].active)
  }

  ghost predicate Healthy(s: System) {
    && OneInFlight(s)
    && (forall c :: c in s.settled ==> s.settled[c].Some?)
    && match s.client.refreshInFlight
       case None => s.client.refreshToken.Some? ==> s.client.refreshToken.value in s.live
       case Some(c) =>
         && (s.client.refreshToken.Some? ==>
               s.client.refreshToken.value == s.calls[c].token || s.client.refreshToken.value in s.live)
         && match s.calls[c].stage
            case Answered(pair) => pair.Some? && pair.value in s.live
            case Revoked => true
            case _ => s.calls[c].token in s.live
  }

  lemma {:induction false} HealthyStep(s: System, op: Op)
    requires Healthy(s) && Enabled(s, op) && !op.Lose? && !op.Drop? && (op.Issue? ==> op.active)
    ensures Healthy(Step(s, op))
  {
    OneInFlightStep(s, op);
  }

  lemma {:induction false} HealthyRun(s: System, ops: seq<Op>)
    requires Healthy(s) && EnabledRun(s, ops) && Quiet(ops)
    ensures Healthy(Run(s, ops))
    decreases |ops|
  {
    hide Healthy, Step;
    if ops != [] {
      HealthyStep(s, ops[0]);
      HealthyRun(Step(s, ops[0]), ops[1..]);
    }
  }

  /** Whenever no refresh is in flight the stored refresh token is live, and every refresh that was
      waited for brought a pair. */
  lemma {:induction false} StoredTokenIsLive(ops: seq<Op>)
    requires EnabledRun(Initial, ops) && Quiet(ops)
    ensures var s := Run(Initial, ops);
      && (s.client.refreshInFlight.None? && s.client.refreshToken.Some? ==> s.client.refreshToken.value in s.live)
      && (forall c :: c in s.settled ==> s.settled[c].Some?)
  {
    HealthyRun(Initial, ops);
  }

  // ---- Giving up on an unanswered call breaks the promise ----

  lemma {:induction false} FourSteps(s: System, a: Op, b: Op, c: Op, d: Op)
    requires Enabled(s, a) && Enabled(Step(s, a), b) && Enabled(Step(Step(s, a), b), c)
    requires Enabled(Step(Step(Step(s, a), b), c), d)
    ensures EnabledRun(s, [a, b, c, d]) && Run(s, [a, b, c, d]) == Step(Step(Step(Step(s, a), b), c), d)
  {
    hide Step, Enabled, EnabledRun, Run;
    var s1 := Step(s, a);
    var s2 := Step(s1, b);
    var s3 := Step(s2, c);
    OneStep(s3, d);
    StepFirst(s2, c, [d]);
    StepFirst(s1, b, [c] + [d]);
    StepFirst(s, a, [b] + ([c] + [d]));
    assert [c] + [d] == [c, d] && [b] + [c, d] == [b, c, d] && [a] + [b, c, d] == [a, b, c, d];
  }

  lemma {:induction false} StepFirst(s: System, op: Op, ops: seq<Op>)
    requires Enabled(s, op) && EnabledRun(Step(s, op), ops)
    ensures EnabledRun(s, [op] + ops) && Run(s, [op] + ops) == Run(Step(s, op), ops)
  {
    hide Step, Enabled;
    assert ([op] + ops)[1..] == ops;
  }

  lemma {:induction false} RunConcat(s: System, first: seq<Op>, second: seq<Op>)
    requires EnabledRun(s, first) && EnabledRun(Run(s, first), second)
    ensures EnabledRun(s, first + second) && Run(s, first + second) == Run(Run(s, first), second)
    decreases |first|
  {
    hide Step, Enabled;
    if first == [] {
      assert first + second == second;
    } else {
      RunConcat(Step(s, first[0]), first[1..], second);
      assert (first + second)[1..] == first[1..] + second;
    }
  }

  /** Two calls past the check of one token end in two pairs for it. */
  lemma {:induction false} OverlapIssuesTwice(s: System, c: nat, d: nat, a: Token, b: Token)
    requires c < |s.calls| && d < |s.calls| && c != d && s.calls[c].token == s.calls[d].token
    requires s.calls[c].stage == Checked && s.calls[d].stage == Checked
    requires a !in s.used && b !in s.used && a != b && a.user == b.user == s.calls[c].token.user
    ensures var ops := [Revoke(c), Revoke(d), Issue(c, a, true), Issue(d, b, true)];
      EnabledRun(s, ops) && !OnePairEach(Run(s, ops))
  {
    FourSteps(s, Revoke(c), Revoke(d), Issue(c, a, true), Issue(d, b, true));
    var s4 := Step(Step(Step(Step(s, Revoke(c)), Revoke(d)), Issue(c, a, true)), Issue(d, b, true));
    var n := |s.issued|;
    assert s4.issued[n].0 == s4.issued[n + 1].0;
  }

  /** The client gives up on a call that is still on its way; another request then presents the same
      token, both calls pass the check, and one token is exchanged twice. */
  lemma {:induction false} AbandonedCallDoublesPair(t: Token, a: Token, b: Token)
    requires t != a && t != b && a != b && a.user == b.user == t.user
    ensures var ops := [SignIn(t), NewRequest(0), NewRequest(1), Unauthorized(0)]
        + [Lose(0), Unauthorized(1), Check(0), Check(1)]
        + [Revoke(0), Revoke(1), Issue(0, a, true), Issue(1, b, true)];
      EnabledRun(Initial, ops) && !OnePairEach(Run(Initial, ops))
  {
    FourSteps(Initial, SignIn(t), NewRequest(0), NewRequest(1), Unauthorized(0));
    var s4 := Run(Initial, [SignIn(t), NewRequest(0), NewRequest(1), Unauthorized(0)]);
    assert s4 == System(Client(Some(0), Some(t), Some(t), Some(t.user)), map[0 := Waiting(0), 1 := Sent],
                        [Call(t, Arrived)], map[], {t}, {t}, []);
    SecondHalf(s4, t);
    var s8 := Run(s4, [Lose(0), Unauthorized(1), Check(0), Check(1)]);
    OverlapIssuesTwice(s8, 0, 1, a, b);
    var start := [SignIn(t), NewRequest(0), NewRequest(1), Unauthorized(0)];
    var middle := [Lose(0), Unauthorized(1), Check(0), Check(1)];
    RunConcat(Initial, start, middle);
    RunConcat(Initial, start + middle, [Revoke(0), Revoke(1), Issue(0, a, true), Issue(1, b, true)]);
  }

  lemma {:induction false} SecondHalf(s: System, t: Token)
    requires s == System(Client(Some(0), Some(t), Some(t), Some(t.user)), map[0 := Waiting(0), 1 := Sent],
                         [Call(t, Arrived)], map[], {t}, {t}, [])
    ensures var ops := [Lose(0), Unauthorized(1), Check(0), Check(1)];
      && EnabledRun(s, ops)
      && Run(s, ops).calls == [Call(t, Checked), Call(t, Checked)] && Run(s, ops).used == {t}
  {
    var s2 := Step(Step(s, Lose(0)), Unauthorized(1));
    assert s2.calls == [Call(t, Arrived), Call(t, Arrived)] && s2.live == {t};
    FourSteps(s, Lose(0), Unauthorized(1), Check(0), Check(1));
  }

  // ---- Ending all sessions of a user ----

  /** No call past its check holds a token of `u`. */
  ghost predicate NoneInside(s: System, u: string) {
    forall c :: 0 <= c < |s.calls| && s.calls[c].Inside() ==> s.calls[c].token.user != u
  }

  ghost predicate NoSignIn(ops: seq<Op>, u: string) {
    forall i :: 0 <= i < |ops| && ops[i].SignIn? ==> ops[i].next.user != u
  }

  /** Until `u` signs in again it has no session, whatever happens. */
  ghost predicate StaysOut(s: System, u: string) {
    forall ops :: EnabledRun(s, ops) && NoSignIn(ops, u) ==> SessionsOf(Run(s, ops).live, u) == {}
  }

  lemma {:induction false} OutStep(s: System, op: Op, u: string)
    requires NoneInside(s, u) && SessionsOf(s.live, u) == {} && Enabled(s, op) && (op.SignIn? ==> op.next.user != u)
    ensures NoneInside(Step(s, op), u) && SessionsOf(Step(s, op).live, u) == {}
  {
    assert forall t :: t in s.live ==> t.user != u by {
      assert forall t :: t in s.live && t.user == u ==> t in SessionsOf(s.live, u);
    }
    if op.Issue? {
      assert s.calls[op.c].Inside();
    }
  }

  lemma {:induction false} OutRun(s: System, ops: seq<Op>, u: string)
    requires NoneInside(s, u) && SessionsOf(s.live, u) == {} && EnabledRun(s, ops) && NoSignIn(ops, u)
    ensures SessionsOf(Run(s, ops).live, u) == {}
    decreases |ops|
  {
    hide NoneInside, SessionsOf, Step, Enabled;
    if ops != [] {
      OutStep(s, ops[0], u);
      OutRun(Step(s, ops[0]), ops[1..], u);
    }
  }

  /** Revoking all tokens of a user, as a password change does, ends its sessions for good exactly if
      no refresh with one of its tokens is past its check: such a call goes on to issue a live token. */
  lemma {:induction false} RevokeAllEndsExactly(s: System, u: string)
    ensures StaysOut(Step(s, Drop(SessionsOf(s.live, u))), u) <==> NoneInside(s, u)
  {
    var after := Step(s, Drop(SessionsOf(s.live, u)));
    assert after.calls == s.calls && SessionsOf(after.live, u) == {};
    if NoneInside(s, u) {
      forall ops | EnabledRun(after, ops) && NoSignIn(ops, u)
        ensures SessionsOf(Run(after, ops).live, u) == {}
      {
        OutRun(after, ops, u);
      }
    } else {
      var c :| 0 <= c < |s.calls| && s.calls[c].Inside() && s.calls[c].token.user == u;
      var a, _ := UnusedTokens(after.used, u);
      FinishIssues(after, c, a);
      var ops := Finish(after, c, a);
      assert NoSignIn(ops, u) && a in SessionsOf(Run(after, ops).live, u);
    }
  }
}
