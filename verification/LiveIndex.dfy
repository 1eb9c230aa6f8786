/** The live location index in Redis: one sorted set of riders per shard, a set naming the shards in
    use, a ping key per rider, and the sweeper that removes riders whose ping is gone. */
module LiveIndex {
  import opened Prelude
  import opened FixedWindow

  const PING_TTL_MS := 30_000
  const ZOMBIE_MS := 300_000
  const RATE_WINDOW_MS := 1000
  const PINGS_PER_WINDOW := 1

  /** Members of each shard, the shard index, the pings (instants) and the rate-limit counters. */
  datatype Index = Index(shards: map<string, set<string>>, shardIndex: set<string>,
                         pings: map<string, Expiring<int>>, rates: map<string, Expiring<nat>>) {

    function Members(shard: string): set<string> {
      if shard in shards then shards[shard] else {}
    }

    function Rate(u: string): Counter {
      if u in rates then Some(rates[u]) else None
    }

    /** What the sweeper sees of a rider: a live ping, not older than the threshold. */
    predicate Alive(u: string, now: int) {
      && u in pings && pings[u].Live(now)
      && pings[u].value != 0 && pings[u].value >= now - ZOMBIE_MS
    }
  }

  const Empty := Index(map[], {}, map[], map[])

  /** `userLocationShard`; `normalise` stands for trimming and lower-casing a city name. */
  function ShardOf(city: Option<string>, normalise: string -> string): string {
    if city.Some? && normalise(city.value) != "" then "user_locations:" + normalise(city.value)
    else "user_locations:global"
  }

  datatype User = User(city: Option<string>, sharingOff: bool, isBanned: bool)

  datatype Update = Update(userId: string, city: Option<string>, partyId: Option<string>, user: User)

  // ---- Operations ----

  function Remove(s: Index, u: string, shard: string): Index {
    s.(shards := s.shards[shard := s.Members(shard) - {u}], pings := s.pings - {u})
  }

  function Ping(s: Index, u: string, shard: string, now: int): Index {
    s.(shards := s.shards[shard := s.Members(shard) + {u}], shardIndex := s.shardIndex + {shard},
       pings := s.pings[u := Expiring(now, now + PING_TTL_MS)])
  }

  datatype Outcome = UserBanned | RateLimited(shard: string) | SharingDisabled(shard: string) | Stored(shard: string)

  function TargetShard(up: Update, normalise: string -> string): string {
    ShardOf(if up.city.Some? then up.city else up.user.city, normalise)
  }

  function Decide(s: Index, up: Update, now: int, normalise: string -> string): Outcome {
    if up.user.isBanned then UserBanned
    else if Incr(s.Rate(up.userId), now, RATE_WINDOW_MS).value > PINGS_PER_WINDOW
      then RateLimited(TargetShard(up, normalise))
    else if up.user.sharingOff && (up.partyId.None? || up.partyId.value == "")
      then SharingDisabled(ShardOf(up.user.city, normalise))
    else Stored(TargetShard(up, normalise))
  }

  function Updated(s: Index, up: Update, now: int, normalise: string -> string): Index {
    var outcome := Decide(s, up, now, normalise);
    if outcome.UserBanned? then s
    else
      var counted := s.(rates := s.rates[up.userId := Incr(s.Rate(up.userId), now, RATE_WINDOW_MS)]);
      match outcome
      case Stored(shard) => Ping(counted, up.userId, shard, now)
      case SharingDisabled(shard) => Remove(counted, up.userId, shard)
      case _ => counted
  }

  /** The sweep of the shards `done`. */
  function Swept(s: Index, done: set<string>, now: int): Index {
    s.(shards := map k | k in s.shards ::
         if k in done then (set u | u in s.shards[k] && s.Alive(u, now)) else s.shards[k])
  }

  // ---- Counting entries ----

  /** The (shard, rider) pairs stored in some shards. */
  function EntriesIn(s: Index, ks: set<string>): set<(string, string)> {
    set k, u | k in ks && u in s.Members(k) :: (k, u)
  }

  function Entries(s: Index): set<(string, string)> {
    set k, u | k in s.shards && u in s.shards[k] :: (k, u)
  }

  lemma {:induction false} PairsOfOneShard(k: string, us: set<string>)
    ensures |set u | u in us :: (k, u)| == |us|
    decreases us
  {
    var pairs := set u | u in us :: (k, u);
    if us == {} {
      assert pairs == {};
    } else {
      var x :| x in us;
      PairsOfOneShard(k, us - {x});
      var fewer := set u | u in us - {x} :: (k, u);
      assert pairs == fewer + {(k, x)};
      CardAdd(fewer, pairs, (k, x));
      CardAdd(us - {x}, us, x);
    }
  }

  lemma {:induction false} OneMoreShard(s: Index, ks: set<string>, k: string)
    requires k !in ks
    ensures |EntriesIn(s, ks + {k})| == |EntriesIn(s, ks)| + |s.Members(k)|
  {
    var us := s.Members(k);
    var more := set u | u in us :: (k, u);
    PairsOfOneShard(k, us);
    EntriesSplit(s, ks, k);
    hide EntriesIn, Index.Members;
    assert |EntriesIn(s, ks) + more| == |EntriesIn(s, ks)| + |more|;
  }

  lemma {:induction false} EntriesSplit(s: Index, ks: set<string>, k: string)
    requires k !in ks
    ensures var more := set u | u in s.Members(k) :: (k, u);
      EntriesIn(s, ks + {k}) == EntriesIn(s, ks) + more && EntriesIn(s, ks) !! more
  {
    var us := s.Members(k);
    hide Index.Members;
    var more := set u | u in us :: (k, u);
    forall e
      ensures e in EntriesIn(s, ks + {k}) <==> e in EntriesIn(s, ks) || e in more
      ensures !(e in EntriesIn(s, ks) && e in more)
    {
      assert e in EntriesIn(s, ks) <==> e.0 in ks && e.1 in s.Members(e.0);
      assert e in EntriesIn(s, ks + {k}) <==> e.0 in ks + {k} && e.1 in s.Members(e.0);
      assert e in more <==> e.0 == k && e.1 in us;
    }
  }

  /** The riders of one shard that a sweep removes. */
  function ZombiesOf(s: Index, k: string, now: int): set<string> {
    set u | u in s.Members(k) && !s.Alive(u, now)
  }

  /** The effect of sweeping one shard. */
  function SweptShard(s: Index, k: string, now: int): Index {
    if ZombiesOf(s, k, now) == {} then s
    else s.(shards := s.shards[k := s.Members(k) - ZombiesOf(s, k, now)])
  }

  lemma {:induction false} SweptMembers(s: Index, done: set<string>, k: string, now: int)
    ensures Swept(s, done, now).Members(k) == if k in done then s.Members(k) - ZombiesOf(s, k, now) else s.Members(k)
  {
  }

  /** Sweeping one more shard of a partly swept index. */
  lemma {:induction false} SweepOneShard(s: Index, done: set<string>, k: string, now: int)
    requires k !in done
    ensures Swept(s, done + {k}, now) == SweptShard(Swept(s, done, now), k, now)
  {
    var was, after := Swept(s, done, now), Swept(s, done + {k}, now);
    SweptMembers(s, done, k, now);
    assert ZombiesOf(was, k, now) == ZombiesOf(s, k, now);
    var zombies := ZombiesOf(s, k, now);
    forall j | j in s.shards
      ensures after.shards[j] == if j == k then s.shards[k] - zombies else was.shards[j]
    {
    }
    if zombies == {} {
      assert k in s.shards ==> s.shards[k] - zombies == s.shards[k];
      assert after.shards == was.shards;
    } else {
      assert k in s.shards;
      assert after.shards == was.shards[k := s.Members(k) - zombies];
    }
  }

  lemma {:induction false} KeptAndRemoved(s: Index, k: string, now: int)
    ensures |s.Members(k) - ZombiesOf(s, k, now)| == |s.Members(k)| - |ZombiesOf(s, k, now)|
  {
    var kept := s.Members(k) - ZombiesOf(s, k, now);
    assert s.Members(k) == kept + ZombiesOf(s, k, now);
  }

  /** How many entries sweeping one more shard leaves. */
  lemma {:induction false} SweepCounts(s: Index, done: set<string>, k: string, now: int)
    requires k !in done
    ensures |EntriesIn(Swept(s, done + {k}, now), done + {k})|
      == |EntriesIn(Swept(s, done, now), done)| + |s.Members(k)| - |ZombiesOf(s, k, now)|
  {
    var was, after := Swept(s, done, now), Swept(s, done + {k}, now);
    OneMoreShard(after, done, k);
    SweptMembers(s, done + {k}, k, now);
    KeptAndRemoved(s, k, now);
    forall j | j in done
      ensures after.Members(j) == was.Members(j)
    {
      SweptMembers(s, done + {k}, j, now);
      SweptMembers(s, done, j, now);
    }
    hide Swept, Index.Members;
    assert EntriesIn(after, done) == EntriesIn(was, done);
  }

  // ---- The service ----

  /** `SMEMBERS` and `ZRANGE`: the elements of a set, each once, in some order. */
  method Enumerate(s: set<string>) returns (q: seq<string>)
    ensures Distinct(q) && Elements(q) == s && |q| == |s|
  {
    q := [];
    var todo := s;
    while todo != {}
      invariant todo <= s && Distinct(q) && Elements(q) == s - todo && |q| + |todo| == |s|
      decreases todo
    {
      var x :| x in todo;
      assert x !in Elements(q);
      assert Elements(q + [x]) == Elements(q) + {x};
      CardAdd(todo - {x}, todo, x);
      q := q + [x];
      todo := todo - {x};
    }
  }

  class LocationService {
    var shards: map<string, set<string>>
    var shardIndex: set<string>
    var pings: map<string, Expiring<int>>
    var rates: map<string, Expiring<nat>>
    const normalise: string -> string

    function Contents(): Index
      reads this
    {
      Index(shards, shardIndex, pings, rates)
    }

    constructor (normalise: string -> string)
      ensures this.normalise == normalise && Contents() == Empty
    {
      this.normalise := normalise;
      shards, shardIndex, pings, rates := map[], {}, map[], map[];
    }

    method RemoveFromRedis(userId: string, city: Option<string>)
      modifies this
      ensures Contents() == Remove(old(Contents()), userId, ShardOf(city, normalise))
    {
      var shard := ShardOf(city, normalise);
      shards := shards[shard := Contents().Members(shard) - {userId}];
      pings := pings - {userId};
    }

    method UpdateLocation(up: Update, now: int) returns (outcome: Outcome)
      modifies this
      ensures outcome == Decide(old(Contents()), up, now, normalise)
      ensures Contents() == Updated(old(Contents()), up, now, normalise)
    {
      if up.user.isBanned {
        return UserBanned;
      }
      var rate := Incr(Contents().Rate(up.userId), now, RATE_WINDOW_MS);
      rates := rates[up.userId := rate];
      if rate.value > PINGS_PER_WINDOW {
        return RateLimited(TargetShard(up, normalise));
      }
      if up.user.sharingOff && (up.partyId.None? || up.partyId.value == "") {
        RemoveFromRedis(up.userId, up.user.city);
        return SharingDisabled(ShardOf(up.user.city, normalise));
      }
      var shard := TargetShard(up, normalise);
      shards := shards[shard := Contents().Members(shard) + {up.userId}];
      pings := pings[up.userId := Expiring(now, now + PING_TTL_MS)];
      shardIndex := shardIndex + {shard};
      return Stored(shard);
    }

    /** The members of one shard that the sweeper removes. */
    method Zombies(members: seq<string>, now: int) returns (toRemove: seq<string>)
      requires Distinct(members)
      ensures Distinct(toRemove)
      ensures Elements(toRemove) == set u | u in members && !Contents().Alive(u, now)
    {
      var threshold := now - ZOMBIE_MS;
      toRemove := [];
      for i := 0 to |members|
        invariant Distinct(toRemove)
        invariant Elements(toRemove) == set u | u in members[..i] && !Contents().Alive(u, now)
      {
        assert members[..i + 1] == members[..i] + [members[i]];
        var u := members[i];
        var lastPing := if u in pings && pings[u].Live(now) then pings[u].value else 0;
        if lastPing == 0 || lastPing < threshold {
          assert Elements(toRemove + [u]) == Elements(toRemove) + {u};
          toRemove := toRemove + [u];
        }
      }
      assert members[..|members|] == members;
    }

    /** One round of the sweeper's loop over the shards. */
    method SweepShard(shard: string, now: int) returns (removed: nat, scanned: nat)
      modifies this
      ensures Contents() == SweptShard(old(Contents()), shard, now)
      ensures scanned == |old(Contents()).Members(shard)| && removed == |ZombiesOf(old(Contents()), shard, now)|
    {
      var members := Enumerate(Contents().Members(shard));
      if |members| == 0 {
        assert Contents().Members(shard) == {};
        return 0, 0;
      }
      scanned := |members|;
      var toRemove := Zombies(members, now);
      assert Elements(toRemove) == ZombiesOf(Contents(), shard, now);
      removed := |toRemove|;
      DistinctSize(toRemove);
      if |toRemove| > 0 {
        assert toRemove[0] in Elements(toRemove);
        shards := shards[shard := shards[shard] - Elements(toRemove)];
      }
    }

    method SweepZombies(now: int) returns (removed: nat, scanned: nat, shardsChecked: nat)
      modifies this
      ensures Contents() == Swept(old(Contents()), old(shardIndex), now)
      ensures scanned == |EntriesIn(old(Contents()), old(shardIndex))|
      ensures removed == scanned - |EntriesIn(Contents(), old(shardIndex))|
      ensures shardsChecked == |old(shardIndex)|
    {
      var names := Enumerate(shardIndex);
      removed, scanned := 0, 0;
      ghost var was := Contents();
      ghost var done: set<string> := {};
      SweepNone(was, now);
      hide *;
      for i := 0 to |names|
        invariant done == Elements(names[..i])
        invariant Contents() == Swept(was, done, now)
        invariant scanned == |EntriesIn(was, done)|
        invariant removed + |EntriesIn(Contents(), done)| == scanned
      {
        PrefixElements(names, i);
        SweepOneShard(was, done, names[i], now);
        SweepCounts(was, done, names[i], now);
        OneMoreShard(was, done, names[i]);
        SameShardSeen(was, done, names[i], now);
        var gone, seen := SweepShard(names[i], now);
        removed, scanned := removed + gone, scanned + seen;
        done := done + {names[i]};
      }
      assert names[..|names|] == names;
      shardsChecked := |names|;
    }
  }

  lemma {:induction false} SameShardSeen(s: Index, done: set<string>, k: string, now: int)
    requires k !in done
    ensures Swept(s, done, now).Members(k) == s.Members(k)
      && ZombiesOf(Swept(s, done, now), k, now) == ZombiesOf(s, k, now)
  {
    SweptMembers(s, done, k, now);
  }

  lemma {:induction false} SweepNone(s: Index, now: int)
    ensures Swept(s, {}, now) == s && EntriesIn(s, {}) == {}
  {
    assert Swept(s, {}, now).shards == s.shards;
  }

  // ---- Runs ----

  datatype Op = Move(up: Update, now: int) | Stop(userId: string, city: Option<string>, now: int) | Sweep(now: int)

  function Step(s: Index, op: Op, normalise: string -> string): Index {
    match op
    case Move(up, now) => Updated(s, up, now, normalise)
    case Stop(u, city, now) => Remove(s, u, ShardOf(city, normalise))
    case Sweep(now) => Swept(s, s.shardIndex, now)
  }

  function Run(ops: seq<Op>, normalise: string -> string): Index {
    if ops == [] then Empty else Step(Run(ops[..|ops| - 1], normalise), ops[|ops| - 1], normalise)
  }

  /** A shard with a rider in it is named by the shard index. */
  ghost predicate Covered(s: Index) {
    forall k :: k in s.shards && s.shards[k] != {} ==> k in s.shardIndex
  }

  lemma {:induction false} CoveredStep(s: Index, op: Op, normalise: string -> string)
    requires Covered(s)
    ensures Covered(Step(s, op, normalise))
  {
    hide Incr, ShardOf;
  }

  lemma {:induction false} AlwaysCovered(ops: seq<Op>, normalise: string -> string)
    ensures Covered(Run(ops, normalise))
  {
    hide Covered, Step;
    if ops == [] {
      EmptyCovered();
    } else {
      AlwaysCovered(ops[..|ops| - 1], normalise);
      CoveredStep(Run(ops[..|ops| - 1], normalise), ops[|ops| - 1], normalise);
    }
  }

  lemma {:induction false} EmptyCovered()
    ensures Covered(Empty)
  {
  }

  // ---- The sweep is exact and complete ----

  /** A sweep leaves exactly the entries of riders that are alive, over all shards, and the totals it
      works with are the true ones. */
  lemma {:induction false} SweepIsExact(s: Index, now: int)
    requires Covered(s)
    ensures var after := Swept(s, s.shardIndex, now);
      && Entries(after) == (set e | e in Entries(s) && s.Alive(e.1, now))
      && EntriesIn(s, s.shardIndex) == Entries(s)
      && EntriesIn(after, s.shardIndex) == Entries(after)
  {
    var after := Swept(s, s.shardIndex, now);
    forall k, u
      ensures (k, u) in Entries(after) <==> (k, u) in Entries(s) && s.Alive(u, now)
      ensures (k, u) in EntriesIn(s, s.shardIndex) <==> (k, u) in Entries(s)
      ensures (k, u) in EntriesIn(after, s.shardIndex) <==> (k, u) in Entries(after)
    {
      SweptMembers(s, s.shardIndex, k, now);
    }
  }

  ghost predicate InTimeOrder(ops: seq<Op>) {
    && (forall i :: 0 <= i < |ops| ==> ops[i].now > 0)
    && (forall i, j :: 0 <= i < j < |ops| ==> ops[i].now <= ops[j].now)
  }

  // ---- One update per second ----

  /** The instants of the updates of `u` that reach the rate limit. */
  function UpdateTimes(ops: seq<Op>, u: string): seq<int> {
    if ops == [] then []
    else
      var op := ops[|ops| - 1];
      UpdateTimes(ops[..|ops| - 1], u) + if op.Move? && op.up.userId == u && !op.up.user.isBanned then [op.now] else []
  }

  lemma {:induction false} RateStep(s: Index, op: Op, u: string, normalise: string -> string)
    ensures Step(s, op, normalise).Rate(u) ==
      if op.Move? && op.up.userId == u && !op.up.user.isBanned
      then Some(Incr(s.Rate(u), op.now, RATE_WINDOW_MS)) else s.Rate(u)
  {
    hide Incr, ShardOf;
  }

  lemma {:induction false} RateRefinesLimiter(ops: seq<Op>, u: string, normalise: string -> string)
    ensures Run(ops, normalise).Rate(u) == Calls(UpdateTimes(ops, u), PINGS_PER_WINDOW, RATE_WINDOW_MS).key
  {
    hide Incr, Step;
    if ops != [] {
      var n := |ops| - 1;
      RateRefinesLimiter(ops[..n], u, normalise);
      RateStep(Run(ops[..n], normalise), ops[n], u, normalise);
      CallsAppend(UpdateTimes(ops[..n], u), ops[n].now, PINGS_PER_WINDOW, RATE_WINDOW_MS);
      assert UpdateTimes(ops[..n], u) + [] == UpdateTimes(ops[..n], u);
    }
  }

  /** The updates of `u` that the limiter let through. */
  function Admitted(ops: seq<Op>, u: string): seq<int> {
    Calls(UpdateTimes(ops, u), PINGS_PER_WINDOW, RATE_WINDOW_MS).passed
  }

  /** Two updates of one rider that are let through are more than a second apart, and the next one is
      let through exactly if none was within the last second. */
  lemma {:induction false} OneUpdatePerSecond(ops: seq<Op>, up: Update, now: int, normalise: string -> string)
    requires Ordered(UpdateTimes(ops, up.userId)) && !up.user.isBanned
    ensures var passed := Admitted(ops, up.userId);
      && (forall i, j :: 0 <= i < j < |passed| ==> passed[i] + 1000 < passed[j])
      && (Decide(Run(ops, normalise), up, now, normalise).RateLimited? <==>
            passed != [] && now <= passed[|passed| - 1] + 1000)
  {
    RateRefinesLimiter(ops, up.userId, normalise);
    hide Run, UpdateTimes, Calls, Ordered;
    OneAtATime(UpdateTimes(ops, up.userId), RATE_WINDOW_MS);
  }

  // ---- The index, from the log alone ----

  /** The updates of `u` that come more than a second after the last one let through. */
  function LetThrough(ops: seq<Op>, u: string): seq<int> {
    if ops == [] then []
    else
      var before, op := LetThrough(ops[..|ops| - 1], u), ops[|ops| - 1];
      var spaced := before == [] || before[|before| - 1] + 1000 < op.now;
      before + if op.Move? && op.up.userId == u && !op.up.user.isBanned && spaced then [op.now] else []
  }

  lemma {:induction false} UpdateTimesOrdered(ops: seq<Op>, u: string)
    requires InTimeOrder(ops)
    ensures Ordered(UpdateTimes(ops, u))
    ensures ops != [] ==>
      forall i :: 0 <= i < |UpdateTimes(ops, u)| ==> UpdateTimes(ops, u)[i] <= ops[|ops| - 1].now
  {
    if ops != [] {
      UpdateTimesOrdered(ops[..|ops| - 1], u);
    }
  }

  lemma {:induction false} OneMoreUpdate(ops: seq<Op>, u: string)
    requires ops != []
    ensures var n := |ops| - 1; var times, before := UpdateTimes(ops[..n], u), LetThrough(ops[..n], u);
      var counts := ops[n].Move? && ops[n].up.userId == u && !ops[n].up.user.isBanned;
      && UpdateTimes(ops, u) == (if counts then times + [ops[n].now] else times)
      && LetThrough(ops, u) ==
           if counts && (before == [] || before[|before| - 1] + 1000 < ops[n].now) then before + [ops[n].now]
           else before
  {
    var n := |ops| - 1;
    assert UpdateTimes(ops[..n], u) + [] == UpdateTimes(ops[..n], u);
    assert LetThrough(ops[..n], u) + [] == LetThrough(ops[..n], u);
  }

  /** The limiter lets exactly those through. */
  lemma {:induction false} AdmittedIsSpaced(ops: seq<Op>, u: string)
    requires InTimeOrder(ops)
    ensures Admitted(ops, u) == LetThrough(ops, u)
  {
    if ops != [] {
      var n := |ops| - 1;
      AdmittedIsSpaced(ops[..n], u);
      UpdateTimesOrdered(ops[..n], u);
      OneMoreUpdate(ops, u);
      hide Calls, Ordered, UpdateTimes, LetThrough;
      OneAtATimeNext(UpdateTimes(ops[..n], u), ops[n].now, RATE_WINDOW_MS);
    }
  }

  /** What becomes of an update: turned away, let through by a rider who shares nothing, or kept. */
  datatype Fate = TurnedAway | SharesNothing | Kept

  function FateOf(before: seq<Op>, up: Update, now: int): Fate {
    var passed := LetThrough(before, up.userId);
    if up.user.isBanned || (passed != [] && now <= passed[|passed| - 1] + 1000) then TurnedAway
    else if up.user.sharingOff && (up.partyId == None || up.partyId == Some("")) then SharesNothing
    else Kept
  }

  /** The answer to an update, from the log: its own city's shard if it names one, else the user's. */
  lemma {:induction false} OutcomeFromLog(before: seq<Op>, up: Update, now: int, normalise: string -> string)
    requires InTimeOrder(before)
    ensures Decide(Run(before, normalise), up, now, normalise) ==
      if up.user.isBanned then UserBanned
      else
        var shard := ShardOf(if up.city.Some? then up.city else up.user.city, normalise);
        match FateOf(before, up, now)
        case TurnedAway => RateLimited(shard)
        case SharesNothing => SharingDisabled(ShardOf(up.user.city, normalise))
        case Kept => Stored(shard)
  {
    if !up.user.isBanned {
      RefusedFromLog(before, up, now, normalise);
    }
    hide Run, LetThrough, Incr, ShardOf;
  }

  lemma {:induction false} RefusedFromLog(before: seq<Op>, up: Update, now: int, normalise: string -> string)
    requires InTimeOrder(before) && !up.user.isBanned
    ensures var passed := LetThrough(before, up.userId);
      Incr(Run(before, normalise).Rate(up.userId), now, RATE_WINDOW_MS).value > PINGS_PER_WINDOW <==>
        passed != [] && now <= passed[|passed| - 1] + RATE_WINDOW_MS
  {
    hide Run, LetThrough, Admitted, UpdateTimes, Ordered, ShardOf;
    UpdateTimesOrdered(before, up.userId);
    OneUpdatePerSecond(before, up, now, normalise);
    AdmittedIsSpaced(before, up.userId);
  }

  /** How a shard is told apart: by the normalised city, or as global without one. */
  function CityName(city: Option<string>, normalise: string -> string): string {
    if city.Some? && normalise(city.value) != "" then normalise(city.value) else "global"
  }

  /** Two cities share a shard exactly if they have the same name. */
  lemma {:induction false} SameShardExactly(a: Option<string>, b: Option<string>, normalise: string -> string)
    ensures ShardOf(a, normalise) == ShardOf(b, normalise) <==> CityName(a, normalise) == CityName(b, normalise)
  {
    var lead, p, q := "user_locations:", CityName(a, normalise), CityName(b, normalise);
    assert lead + "global" == "user_locations:global";
    assert ShardOf(a, normalise) == lead + p && ShardOf(b, normalise) == lead + q;
    assert (lead + p)[|lead|..] == p && (lead + q)[|lead|..] == q;
  }

  /** The instant of the latest kept update of `u`, if the rider was not taken off the index after it. */
  function LastStored(ops: seq<Op>, u: string): Option<int> {
    if ops == [] then None
    else
      var before, last := ops[..|ops| - 1], LastStored(ops[..|ops| - 1], u);
      match ops[|ops| - 1]
      case Move(up, now) =>
        if up.userId != u then last
        else
          (match FateOf(before, up, now)
           case Kept => Some(now)
           case SharesNothing => None
           case TurnedAway => last)
      case Stop(v, _, _) => if v == u then None else last
      case Sweep(_) => last
  }

  /** The ping key of `u` repeats the log. */
  ghost predicate PingRepeats(s: Index, u: string, last: Option<int>) {
    && (u in s.pings <==> last.Some?)
    && (last.Some? ==> s.pings[u] == Expiring(last.value, last.value + PING_TTL_MS) && last.value > 0)
  }

  lemma {:induction false} PingsRepeatLog(ops: seq<Op>, u: string, normalise: string -> string)
    requires InTimeOrder(ops)
    ensures PingRepeats(Run(ops, normalise), u, LastStored(ops, u))
  {
    hide Incr, ShardOf, FateOf, Decide;
    if ops != [] {
      var n := |ops| - 1;
      PingsRepeatLog(ops[..n], u, normalise);
      if ops[n].Move? {
        OutcomeFromLog(ops[..n], ops[n].up, ops[n].now, normalise);
        BannedTurnedAway(ops[..n], ops[n].up, ops[n].now);
      }
    }
  }

  lemma {:induction false} BannedTurnedAway(before: seq<Op>, up: Update, now: int)
    ensures up.user.isBanned ==> FateOf(before, up, now) == TurnedAway
  {
  }

  /** On every run in time order the ping key's lifetime decides alone: a sweep keeps exactly the
      entries of riders whose latest kept update is at most 30 seconds old and was not followed by a
      removal. The five-minute threshold never matters. */
  lemma {:induction false} ThirtySecondsDecide(ops: seq<Op>, now: int, normalise: string -> string, k: string,
                                               u: string)
    requires InTimeOrder(ops) && (ops != [] ==> ops[|ops| - 1].now <= now)
    ensures var s := Run(ops, normalise);
      (k, u) in Entries(Swept(s, s.shardIndex, now)) <==> (k, u) in Entries(s) && Recent(ops, u, now)
  {
    var s := Run(ops, normalise);
    AlwaysCovered(ops, normalise);
    PingsRepeatLog(ops, u, normalise);
    hide Run, LastStored, Covered;
    SweepIsExact(s, now);
    hide Entries, Swept, EntriesIn;
  }

  predicate Recent(ops: seq<Op>, u: string, now: int) {
    LastStored(ops, u).Some? && now - 30_000 <= LastStored(ops, u).value
  }

  /** The i-th step puts `u` into the shard. */
  ghost predicate PutAt(ops: seq<Op>, i: int, k: string, u: string, normalise: string -> string) {
    && 0 <= i < |ops| && ops[i].Move? && ops[i].up.userId == u
    && FateOf(ops[..i], ops[i].up, ops[i].now) == Kept
    && ShardOf(if ops[i].up.city.Some? then ops[i].up.city else ops[i].up.user.city, normalise) == k
  }

  /** The j-th step takes `u` out of the shard: a removal from it, or a sweep that finds no recent update. */
  ghost predicate TakenAt(ops: seq<Op>, j: int, k: string, u: string, normalise: string -> string) {
    && 0 <= j < |ops|
    && match ops[j]
       case Move(up, now) =>
         up.userId == u && FateOf(ops[..j], up, now) == SharesNothing && ShardOf(up.user.city, normalise) == k
       case Stop(v, city, _) => v == u && ShardOf(city, normalise) == k
       case Sweep(now) => !Recent(ops[..j], u, now)
  }

  ghost predicate UntakenSince(ops: seq<Op>, i: int, k: string, u: string, normalise: string -> string) {
    forall j :: i < j ==> !TakenAt(ops, j, k, u, normalise)
  }

  /** `u` was put into the shard and not taken out since. */
  ghost predicate InShard(ops: seq<Op>, k: string, u: string, normalise: string -> string) {
    exists i :: PutAt(ops, i, k, u, normalise) && UntakenSince(ops, i, k, u, normalise)
  }

  lemma {:induction false} PrefixPuts(ops: seq<Op>, n: nat, i: int, k: string, u: string, normalise: string -> string)
    requires n <= |ops|
    ensures i < n ==> (PutAt(ops[..n], i, k, u, normalise) <==> PutAt(ops, i, k, u, normalise))
    ensures i < n ==> (TakenAt(ops[..n], i, k, u, normalise) <==> TakenAt(ops, i, k, u, normalise))
    ensures i >= n ==> !PutAt(ops[..n], i, k, u, normalise) && !TakenAt(ops[..n], i, k, u, normalise)
  {
    hide FateOf, Recent, ShardOf;
    if 0 <= i < n {
      assert ops[..n][..i] == ops[..i] && ops[..n][i] == ops[i];
    }
  }

  lemma {:induction false} InShardStep(ops: seq<Op>, k: string, u: string, normalise: string -> string)
    requires ops != []
    ensures var n := |ops| - 1; InShard(ops, k, u, normalise) <==>
      PutAt(ops, n, k, u, normalise) || (InShard(ops[..n], k, u, normalise) && !TakenAt(ops, n, k, u, normalise))
  {
    var n := |ops| - 1;
    hide PutAt, TakenAt, UntakenSince;
    LastPut(ops, k, u, normalise);
    if InShard(ops[..n], k, u, normalise) && !TakenAt(ops, n, k, u, normalise) {
      var i :| PutAt(ops[..n], i, k, u, normalise) && UntakenSince(ops[..n], i, k, u, normalise);
      PrefixPuts(ops, n, i, k, u, normalise);
      UntakenPrefix(ops, i, k, u, normalise);
      assert PutAt(ops, i, k, u, normalise) && UntakenSince(ops, i, k, u, normalise);
    }
    if InShard(ops, k, u, normalise) {
      var i :| PutAt(ops, i, k, u, normalise) && UntakenSince(ops, i, k, u, normalise);
      PrefixPuts(ops, n, i, k, u, normalise);
      UntakenPrefix(ops, i, k, u, normalise);
      assert i == n || (PutAt(ops[..n], i, k, u, normalise) && UntakenSince(ops[..n], i, k, u, normalise));
    }
  }

  lemma {:induction false} UntakenPrefix(ops: seq<Op>, i: int, k: string, u: string, normalise: string -> string)
    requires ops != []
    ensures var n := |ops| - 1; i < n ==> (UntakenSince(ops, i, k, u, normalise) <==>
      UntakenSince(ops[..n], i, k, u, normalise) && !TakenAt(ops, n, k, u, normalise))
  {
    var n := |ops| - 1;
    forall j {
      PrefixPuts(ops, n, j, k, u, normalise);
    }
    forall j | j > n
      ensures !TakenAt(ops, j, k, u, normalise)
    {
    }
    hide TakenAt;
  }

  lemma {:induction false} LastPut(ops: seq<Op>, k: string, u: string, normalise: string -> string)
    requires ops != []
    ensures UntakenSince(ops, |ops| - 1, k, u, normalise)
    ensures forall i :: PutAt(ops, i, k, u, normalise) ==> i <= |ops| - 1
  {
    hide FateOf, Recent, ShardOf;
  }

  /** What one step does to the entry of `u` in the shard. */
  lemma {:induction false} EntryStep(s: Index, op: Op, k: string, u: string, normalise: string -> string)
    ensures var held, after := (k, u) in Entries(s), (k, u) in Entries(Step(s, op, normalise));
      match op
      case Move(up, now) =>
        (match Decide(s, up, now, normalise)
         case Stored(shard) => after <==> held || (up.userId == u && shard == k)
         case SharingDisabled(shard) => after <==> held && !(up.userId == u && shard == k)
         case _ => after <==> held)
      case Stop(v, city, _) => after <==> held && !(v == u && ShardOf(city, normalise) == k)
      case Sweep(now) => after <==> (k, u) in Entries(Swept(s, s.shardIndex, now))
  {
    hide Decide, ShardOf, Incr;
  }

  /** On every run in time order a rider is in a shard exactly if one of its updates put it there and
      nothing took it out since. A later update elsewhere does not. */
  lemma {:induction false} EntriesFromLog(ops: seq<Op>, k: string, u: string, normalise: string -> string)
    requires InTimeOrder(ops)
    ensures (k, u) in Entries(Run(ops, normalise)) <==> InShard(ops, k, u, normalise)
  {
    if ops == [] {
      hide FateOf, Recent, ShardOf;
    } else {
      hide FateOf, Recent, ShardOf, InShard, Step, Entries, Decide;
      var n := |ops| - 1;
      var op, s := ops[n], Run(ops[..n], normalise);
      EntriesFromLog(ops[..n], k, u, normalise);
      InShardStep(ops, k, u, normalise);
      EntryStep(s, op, k, u, normalise);
      match op {
        case Move(up, now) =>
          OutcomeFromLog(ops[..n], up, now, normalise);
          BannedTurnedAway(ops[..n], up, now);
        case Stop(_, _, _) =>
        case Sweep(now) =>
          ThirtySecondsDecide(ops[..n], now, normalise, k, u);
      }
    }
  }

  /** So a sweep leaves exactly the riders that were put into the shard, not taken out since, and pinged
      within the last 30 seconds. */
  lemma {:induction false} AfterSweep(ops: seq<Op>, now: int, k: string, u: string, normalise: string -> string)
    requires InTimeOrder(ops) && (ops != [] ==> ops[|ops| - 1].now <= now)
    ensures var s := Run(ops, normalise);
      (k, u) in Entries(Swept(s, s.shardIndex, now)) <==> InShard(ops, k, u, normalise) && Recent(ops, u, now)
  {
    hide *;
    EntriesFromLog(ops, k, u, normalise);
    ThirtySecondsDecide(ops, now, normalise, k, u);
  }

  /** Some update was stored in the shard. */
  ghost predicate EverUsed(ops: seq<Op>, k: string, normalise: string -> string) {
    exists i, u :: PutAt(ops, i, k, u, normalise)
  }

  lemma {:induction false} EverUsedStep(ops: seq<Op>, k: string, normalise: string -> string)
    requires ops != []
    ensures var n := |ops| - 1; EverUsed(ops, k, normalise) <==>
      EverUsed(ops[..n], k, normalise) || (ops[n].Move? && PutAt(ops, n, k, ops[n].up.userId, normalise))
  {
    var n := |ops| - 1;
    forall i, u {
      PrefixPuts(ops, n, i, k, u, normalise);
    }
    forall i, u | PutAt(ops, i, k, u, normalise)
      ensures 0 <= i <= n && (i == n ==> ops[n].Move? && u == ops[n].up.userId)
    {
    }
    hide PutAt;
    if i, u :| PutAt(ops[..n], i, k, u, normalise) {
      assert PutAt(ops, i, k, u, normalise);
    }
  }

  /** The shard index names exactly the shards that some update was stored in. */
  lemma {:induction false} IndexFromLog(ops: seq<Op>, k: string, normalise: string -> string)
    requires InTimeOrder(ops)
    ensures k in Run(ops, normalise).shardIndex <==> EverUsed(ops, k, normalise)
  {
    if ops != [] {
      hide FateOf, ShardOf, Decide, Step, EverUsed;
      var n := |ops| - 1;
      var op := ops[n];
      IndexFromLog(ops[..n], k, normalise);
      EverUsedStep(ops, k, normalise);
      IndexStep(Run(ops[..n], normalise), op, k, normalise);
      if op.Move? {
        OutcomeFromLog(ops[..n], op.up, op.now, normalise);
        BannedTurnedAway(ops[..n], op.up, op.now);
        assert PutAt(ops, n, k, op.up.userId, normalise) <==>
          Decide(Run(ops[..n], normalise), op.up, op.now, normalise) == Stored(k);
      }
    }
  }

  lemma {:induction false} IndexStep(s: Index, op: Op, k: string, normalise: string -> string)
    ensures k in Step(s, op, normalise).shardIndex <==>
      k in s.shardIndex || (op.Move? && Decide(s, op.up, op.now, normalise) == Stored(k))
  {
    hide Decide, ShardOf, Incr;
  }

  /** Whoever was removed from one shard is gone from every shard after the next sweep. */
  lemma {:induction false} RemovedThenSwept(s: Index, u: string, shard: string, now: int, k: string)
    requires Covered(s)
    ensures var removed := Remove(s, u, shard); u !in Swept(removed, removed.shardIndex, now).Members(k)
  {
    var removed := Remove(s, u, shard);
    SweptMembers(removed, removed.shardIndex, k, now);
    assert !removed.Alive(u, now);
  }
}
