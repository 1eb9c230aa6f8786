/** Who appears on a viewer's map: the raw index result, joined with the riders' status hashes and
    filtered by follows, parties, blocks and sharing modes. */
module NearbyRiders {
  import opened Prelude
  import LiveIndex

  datatype FollowStatus = PENDING | ACCEPTED | BLOCKED

  datatype Account = Account(username: string, isDeleted: bool, isBanned: bool)

  /** The rows the filter consults; follows are keyed (follower, followed), blocks (initiator, target). */
  datatype World = World(follows: map<(string, string), FollowStatus>, blocks: set<(string, string)>,
                         users: map<string, Account>) {

    predicate Accepted(a: string, b: string) {
      (a, b) in follows && follows[(a, b)] == ACCEPTED
    }

    predicate HasBlock(a: string, b: string) {
      (a, b) in blocks || (b, a) in blocks
    }

    predicate Present(u: string) {
      u in users && !users[u].isDeleted && !users[u].isBanned
    }
  }

  /** One row of the `GEOSEARCH` result. */
  datatype Found = Found(userId: string, distance: int, lat: int, lng: int)

  /** A rider as `queryNearbyRaw` returns it; the sharing mode is whatever string the hash holds. */
  datatype Rider = Rider(found: Found, inParty: bool, partyId: Option<string>, privacyMode: string)

  datatype Card = Card(found: Found, username: string, inParty: bool, partyId: Option<string>)

  datatype Filter = NEARBY | FRIENDS | PARTIES | EVENTS

  // ---- Status hashes ----

  /** A live `user:{id}:status` hash; expired ones are absent from the map of statuses. */
  type Status = map<string, string>

  /** The fields of the status hash that `updateLocation` writes and the map reads. */
  function WriteStatus(before: Status, mode: string, partyId: Option<string>): Status {
    before["online" := "true"]["inParty" := partyId.GetOr("")]["privacyMode" := mode]
  }

  /** `removeFromRedis` and the sweeper: the hash is created if it had expired. */
  function MarkOffline(before: Status): Status {
    before["online" := "false"]
  }

  function ReadStatus(f: Found, status: Status): Rider {
    var party := if "inParty" in status then status["inParty"] else "";
    Rider(f, party != "", if party != "" then Some(party) else None,
          if "privacyMode" in status then status["privacyMode"] else "OFF")
  }

  /** The join of a search result with the status hashes. */
  function Joined(raw: seq<Found>, statuses: map<string, Status>): seq<Rider> {
    if raw == [] then []
    else
      var f := raw[|raw| - 1];
      Joined(raw[..|raw| - 1], statuses)
      + if f.userId in statuses && statuses[f.userId] != map[] then [ReadStatus(f, statuses[f.userId])] else []
  }

  method QueryNearbyRaw(raw: seq<Found>, statuses: map<string, Status>) returns (riders: seq<Rider>)
    ensures riders == Joined(raw, statuses)
  {
    riders := [];
    if |raw| == 0 {
      return;
    }
    for i := 0 to |raw|
      invariant riders == Joined(raw[..i], statuses)
    {
      assert raw[..i + 1][..i] == raw[..i];
      var uid := raw[i].userId;
      if uid !in statuses || statuses[uid] == map[] {
        continue;
      }
      var status := statuses[uid];
      var party := if "inParty" in status then status["inParty"] else "";
      riders := riders + [Rider(raw[i], "inParty" in status && |status["inParty"]| > 0,
                                if |party| > 0 then Some(party) else None,
                                if "privacyMode" in status then status["privacyMode"] else "OFF")];
    }
    assert raw[..|raw|] == raw;
  }

  /** What a stored update wrote is what the map reads back. */
  lemma {:induction false} StatusReadBack(f: Found, before: Status, mode: string, partyId: Option<string>)
    ensures ReadStatus(f, WriteStatus(before, mode, partyId))
      == Rider(f, partyId.Some? && partyId.value != "", if partyId == Some("") then None else partyId, mode)
    ensures ReadStatus(f, MarkOffline(WriteStatus(before, mode, partyId)))
      == ReadStatus(f, WriteStatus(before, mode, partyId))
  {
  }

  // ---- Visibility, declaratively ----

  predicate SameParty(viewerParty: Option<string>, r: Rider) {
    viewerParty.Some? && viewerParty.value != "" && r.partyId == viewerParty
  }

  /** What a sharing mode grants somebody outside a shared party. */
  predicate ModeGrants(w: World, viewer: string, target: string, mode: string) {
    || mode == "PUBLIC"
    || (mode == "FOLLOWERS_ONLY" && w.Accepted(viewer, target))
    || (mode == "MUTUAL_FOLLOWERS" && w.Accepted(viewer, target) && w.Accepted(target, viewer))
  }

  predicate Visible(w: World, viewer: string, viewerParty: Option<string>, filter: Filter, r: Rider): (ok: bool)
    ensures ok ==> r.found.userId in w.users && r.found.userId != viewer
  {
    var target := r.found.userId;
    && target != viewer
    && w.Present(target)
    && (filter == FRIENDS ==> w.Accepted(viewer, target) && w.Accepted(target, viewer))
    && (filter == PARTIES ==> r.inParty)
    && (SameParty(viewerParty, r) || (!w.HasBlock(viewer, target) && ModeGrants(w, viewer, target, r.privacyMode)))
  }

  function CardOf(w: World, r: Rider): Card
    requires r.found.userId in w.users
  {
    Card(r.found, w.users[r.found.userId].username, r.inParty, r.partyId)
  }

  /** The visible riders, in the order of the raw result. */
  function Shown(w: World, viewer: string, viewerParty: Option<string>, filter: Filter, riders: seq<Rider>): seq<Card> {
    if riders == [] then []
    else
      var r := riders[|riders| - 1];
      Shown(w, viewer, viewerParty, filter, riders[..|riders| - 1])
      + if Visible(w, viewer, viewerParty, filter, r) then [CardOf(w, r)] else []
  }

  lemma {:induction false} ShownNone(w: World, viewer: string, viewerParty: Option<string>, filter: Filter)
    ensures Shown(w, viewer, viewerParty, filter, []) == []
  {
  }

  lemma {:induction false} ShownAppend(w: World, viewer: string, viewerParty: Option<string>, filter: Filter,
                                       riders: seq<Rider>, r: Rider)
    ensures Shown(w, viewer, viewerParty, filter, riders + [r]) == Shown(w, viewer, viewerParty, filter, riders)
      + if Visible(w, viewer, viewerParty, filter, r) then [CardOf(w, r)] else []
  {
    assert (riders + [r])[..|riders|] == riders;
  }

  lemma {:induction false} ShownPrefix(w: World, viewer: string, viewerParty: Option<string>, filter: Filter,
                                       riders: seq<Rider>, i: nat)
    requires i < |riders|
    ensures Shown(w, viewer, viewerParty, filter, riders[..i + 1]) == Shown(w, viewer, viewerParty, filter, riders[..i])
      + if Visible(w, viewer, viewerParty, filter, riders[i]) then [CardOf(w, riders[i])] else []
    ensures riders[..|riders|] == riders
  {
    ShownAppend(w, viewer, viewerParty, filter, riders[..i], riders[i]);
    assert riders[..i + 1] == riders[..i] + [riders[i]];
  }

  // ---- The service ----

  function MutualFollowerIds(w: World, userId: string): (ids: set<string>)
    ensures forall u :: u in ids <==> w.Accepted(userId, u) && w.Accepted(u, userId)
  {
    var followingIds := set f | f in w.follows && f.0 == userId && w.follows[f] == ACCEPTED :: f.1;
    assert forall u :: w.Accepted(userId, u) ==> (userId, u) in w.follows && u in followingIds;
    if followingIds == {} then {}
    else
      var rows := set f | f in w.follows && f.0 in followingIds && f.1 == userId && w.follows[f] == ACCEPTED :: f.0;
      assert forall u :: w.Accepted(userId, u) && w.Accepted(u, userId) ==> (u, userId) in w.follows && u in rows;
      rows
  }

  /** `canViewBasedOnPrivacy`, branch by branch. */
  function CanView(w: World, viewer: string, target: string, mode: string, targetInParty: bool,
                   sameParty: bool): (ok: bool)
    ensures viewer != target && (sameParty ==> targetInParty) ==>
      (ok <==> sameParty || (!w.HasBlock(viewer, target) && ModeGrants(w, viewer, target, mode)))
  {
    if viewer == target then true
    else if sameParty && targetInParty then true
    else if mode == "OFF" then false
    else if mode == "PUBLIC" then !w.HasBlock(viewer, target)
    else if mode == "PARTY_ONLY" then false
    else if w.HasBlock(viewer, target) then false
    else if mode == "FOLLOWERS_ONLY" then w.Accepted(viewer, target)
    else if mode == "MUTUAL_FOLLOWERS" then w.Accepted(viewer, target) && w.Accepted(target, viewer)
    else false
  }

  /** `partyId` is set exactly for riders in a party, and never empty. */
  ghost predicate FromStatus(r: Rider) {
    && (r.inParty <==> r.partyId.Some?)
    && r.partyId != Some("")
  }

  lemma {:induction false} JoinedFromStatus(raw: seq<Found>, statuses: map<string, Status>)
    ensures forall i :: 0 <= i < |Joined(raw, statuses)| ==> FromStatus(Joined(raw, statuses)[i])
  {
    if raw != [] {
      JoinedFromStatus(raw[..|raw| - 1], statuses);
    }
  }

  function WithoutViewer(viewer: string, riders: seq<Rider>): seq<Rider> {
    if riders == [] then []
    else
      var r := riders[|riders| - 1];
      WithoutViewer(viewer, riders[..|riders| - 1]) + if r.found.userId != viewer then [r] else []
  }

  lemma {:induction false} ShownWithoutViewer(w: World, viewer: string, viewerParty: Option<string>, filter: Filter,
                                              riders: seq<Rider>)
    ensures Shown(w, viewer, viewerParty, filter, WithoutViewer(viewer, riders))
      == Shown(w, viewer, viewerParty, filter, riders)
  {
    hide Visible;
    if riders != [] {
      var n := |riders| - 1;
      ShownWithoutViewer(w, viewer, viewerParty, filter, riders[..n]);
      ShownAppend(w, viewer, viewerParty, filter, WithoutViewer(viewer, riders[..n]), riders[n]);
      var without := WithoutViewer(viewer, riders[..n]);
      assert without + [] == without;
    }
  }

  lemma {:induction false} CandidatesFromStatus(viewer: string, riders: seq<Rider>)
    requires forall i :: 0 <= i < |riders| ==> FromStatus(riders[i])
    ensures forall i :: 0 <= i < |WithoutViewer(viewer, riders)| ==>
      FromStatus(WithoutViewer(viewer, riders)[i]) && WithoutViewer(viewer, riders)[i].found.userId != viewer
  {
    hide FromStatus;
    if riders != [] {
      CandidatesFromStatus(viewer, riders[..|riders| - 1]);
    }
  }

  lemma {:induction false} CandidateFromStatus(viewer: string, raw: seq<Found>, statuses: map<string, Status>, i: nat)
    requires i < |WithoutViewer(viewer, Joined(raw, statuses))|
    ensures var r := WithoutViewer(viewer, Joined(raw, statuses))[i]; FromStatus(r) && r.found.userId != viewer
  {
    JoinedFromStatus(raw, statuses);
    CandidatesFromStatus(viewer, Joined(raw, statuses));
  }

  /** The loop's checks, in its order, amount to visibility. */
  lemma {:induction false} ChecksDecide(w: World, viewer: string, viewerParty: Option<string>, filter: Filter, r: Rider)
    requires FromStatus(r) && r.found.userId != viewer
    ensures Visible(w, viewer, viewerParty, filter, r) <==>
      && (filter == FRIENDS ==> r.found.userId in MutualFollowerIds(w, viewer))
      && (filter == PARTIES ==> r.inParty)
      && CanView(w, viewer, r.found.userId, r.privacyMode, r.inParty, SameParty(viewerParty, r))
      && w.Present(r.found.userId)
  {
  }

  /** `getNearbyRiders`: `search` stands for the geo query on a shard, `statuses` for the live hashes. */
  method GetNearbyRiders(w: World, viewer: string, filter: Filter, city: Option<string>, viewerCity: Option<string>,
                         viewerParty: Option<string>, normalise: string -> string, search: string -> seq<Found>,
                         statuses: map<string, Status>)
    returns (visible: seq<Card>, shard: string)
    ensures shard == LiveIndex.ShardOf(if city.Some? then city else viewerCity, normalise)
    ensures visible == Shown(w, viewer, viewerParty, filter, Joined(search(shard), statuses))
  {
    shard := LiveIndex.ShardOf(if city.Some? then city else viewerCity, normalise);
    var riders := QueryNearbyRaw(search(shard), statuses);
    visible := [];
    if |riders| == 0 {
      return;
    }
    ShownNone(w, viewer, viewerParty, filter);
    hide *;
    var candidates := WithoutViewer(viewer, riders);
    ShownWithoutViewer(w, viewer, viewerParty, filter, riders);
    var allowedIds := None;
    if filter == FRIENDS {
      allowedIds := Some(MutualFollowerIds(w, viewer));
    }
    for i := 0 to |candidates|
      invariant visible == Shown(w, viewer, viewerParty, filter, candidates[..i])
    {
      var r := candidates[i];
      CandidateFromStatus(viewer, search(shard), statuses, i);
      ChecksDecide(w, viewer, viewerParty, filter, r);
      ShownPrefix(w, viewer, viewerParty, filter, candidates, i);
      if allowedIds.Some? && r.found.userId !in allowedIds.value {
        continue;
      }
      if filter == PARTIES && !r.inParty {
        continue;
      }
      if !CanView(w, viewer, r.found.userId, r.privacyMode, r.inParty, SameParty(viewerParty, r)) {
        continue;
      }
      if !w.Present(r.found.userId) {
        continue;
      }
      visible := visible + [CardOf(w, r)];
    }
    assert candidates[..|candidates|] == candidates;
  }

  // ---- What is shown ----

  /** Exactly the visible riders are shown, each with its own data. */
  lemma {:induction false} ShownExactly(w: World, viewer: string, viewerParty: Option<string>, filter: Filter,
                                        riders: seq<Rider>, c: Card)
    ensures c in Shown(w, viewer, viewerParty, filter, riders) <==>
      exists i :: 0 <= i < |riders| && Visible(w, viewer, viewerParty, filter, riders[i]) && c == CardOf(w, riders[i])
  {
    hide Visible, CardOf;
    if riders != [] {
      var n := |riders| - 1;
      ShownExactly(w, viewer, viewerParty, filter, riders[..n], c);
      assert riders == riders[..n] + [riders[n]];
    }
  }

  ghost predicate ByDistance(raw: seq<Found>) {
    forall i, j :: 0 <= i < j < |raw| ==> raw[i].distance <= raw[j].distance
  }

  function FoundOf(cards: seq<Card>): seq<Found> {
    seq(|cards|, i requires 0 <= i < |cards| => cards[i].found)
  }

  /** `a` is `b` with some elements left out. */
  predicate Thinned<T(==)>(a: seq<T>, b: seq<T>) {
    if a == [] then true
    else if b == [] then false
    else Thinned(a, b[..|b| - 1]) || (a[|a| - 1] == b[|b| - 1] && Thinned(a[..|a| - 1], b[..|b| - 1]))
  }

  /** The cards of a search result. */
  function Results(w: World, viewer: string, viewerParty: Option<string>, filter: Filter,
                   raw: seq<Found>, statuses: map<string, Status>): seq<Found> {
    FoundOf(Shown(w, viewer, viewerParty, filter, Joined(raw, statuses)))
  }

  predicate RowShown(w: World, viewer: string, viewerParty: Option<string>, filter: Filter, f: Found,
                     statuses: map<string, Status>) {
    f.userId in statuses && statuses[f.userId] != map[]
      && Visible(w, viewer, viewerParty, filter, ReadStatus(f, statuses[f.userId]))
  }

  lemma {:induction false} FoundAppend(cards: seq<Card>, c: Card)
    ensures FoundOf(cards + [c]) == FoundOf(cards) + [c.found]
  {
  }

  lemma {:induction false} OneMoreRow(w: World, viewer: string, viewerParty: Option<string>, filter: Filter,
                                      raw: seq<Found>, statuses: map<string, Status>)
    requires raw != []
    ensures Results(w, viewer, viewerParty, filter, raw, statuses)
      == Results(w, viewer, viewerParty, filter, raw[..|raw| - 1], statuses)
        + if RowShown(w, viewer, viewerParty, filter, raw[|raw| - 1], statuses) then [raw[|raw| - 1]] else []
  {
    hide Visible, Shown;
    var n := |raw| - 1;
    var before := Joined(raw[..n], statuses);
    if raw[n].userId in statuses && statuses[raw[n].userId] != map[] {
      var r := ReadStatus(raw[n], statuses[raw[n].userId]);
      assert Joined(raw, statuses) == before + [r];
      ShownAppend(w, viewer, viewerParty, filter, before, r);
      var shown := Shown(w, viewer, viewerParty, filter, before);
      if Visible(w, viewer, viewerParty, filter, r) {
        FoundAppend(shown, CardOf(w, r));
      } else {
        assert shown + [] == shown;
      }
      hide Joined, FoundOf;
    } else {
      assert before + [] == before;
    }
  }

  /** Nothing is reordered and nobody appears twice: the cards are the search rows, thinned out. */
  lemma {:induction false} OrderKept(w: World, viewer: string, viewerParty: Option<string>, filter: Filter,
                                     raw: seq<Found>, statuses: map<string, Status>)
    ensures Thinned(Results(w, viewer, viewerParty, filter, raw, statuses), raw)
  {
    if raw == [] {
      hide Visible;
    } else {
      var n := |raw| - 1;
      OrderKept(w, viewer, viewerParty, filter, raw[..n], statuses);
      OneMoreRow(w, viewer, viewerParty, filter, raw, statuses);
      hide Results, RowShown;
      var shown := Results(w, viewer, viewerParty, filter, raw[..n], statuses);
      var all := Results(w, viewer, viewerParty, filter, raw, statuses);
      if RowShown(w, viewer, viewerParty, filter, raw[n], statuses) {
        assert all[..|shown|] == shown;
      } else {
        assert all == shown;
      }
    }
  }

  lemma {:induction false} ThinnedKeepsOrder(a: seq<Found>, b: seq<Found>)
    requires Thinned(a, b) && ByDistance(b)
    ensures ByDistance(a)
    ensures forall x :: x in a ==> x in b
    decreases |b|
  {
    if a != [] {
      var rest := b[..|b| - 1];
      if Thinned(a, rest) {
        ThinnedKeepsOrder(a, rest);
      } else {
        ThinnedKeepsOrder(a[..|a| - 1], rest);
        forall i | 0 <= i < |a| - 1
          ensures a[i].distance <= a[|a| - 1].distance
        {
          assert a[..|a| - 1][i] in rest;
        }
        assert a == a[..|a| - 1] + [a[|a| - 1]];
      }
    }
  }

  /** A search sorted by distance gives cards sorted by distance. */
  lemma {:induction false} NearestFirst(w: World, viewer: string, viewerParty: Option<string>, filter: Filter,
                                        raw: seq<Found>, statuses: map<string, Status>)
    requires ByDistance(raw)
    ensures ByDistance(Results(w, viewer, viewerParty, filter, raw, statuses))
  {
    hide *;
    OrderKept(w, viewer, viewerParty, filter, raw, statuses);
    ThinnedKeepsOrder(Results(w, viewer, viewerParty, filter, raw, statuses), raw);
  }

  /** A search row becomes a card exactly if its rider has a live status that makes it visible. */
  lemma {:induction false} EndToEnd(w: World, viewer: string, viewerParty: Option<string>, filter: Filter,
                                    raw: seq<Found>, statuses: map<string, Status>, f: Found)
    ensures f in Results(w, viewer, viewerParty, filter, raw, statuses)
      <==> f in raw && RowShown(w, viewer, viewerParty, filter, f, statuses)
  {
    hide Visible, RowShown;
    if raw != [] {
      var n := |raw| - 1;
      EndToEnd(w, viewer, viewerParty, filter, raw[..n], statuses, f);
      OneMoreRow(w, viewer, viewerParty, filter, raw, statuses);
      hide Results;
      assert raw == raw[..n] + [raw[n]];
    }
  }

  /** A field of a status hash, absent ones as the empty text. */
  function Text(status: Status, field: string): string {
    if field in status then status[field] else ""
  }

  /** What the map reads for a search row. */
  predicate ReadFor(raw: seq<Found>, statuses: map<string, Status>, r: Rider) {
    && r.found in raw && r.found.userId in statuses && statuses[r.found.userId] != map[]
    && r == ReadStatus(r.found, statuses[r.found.userId])
  }

  lemma {:induction false} JoinedExactly(raw: seq<Found>, statuses: map<string, Status>, r: Rider)
    ensures r in Joined(raw, statuses) <==> ReadFor(raw, statuses, r)
  {
    if raw != [] {
      var n := |raw| - 1;
      JoinedExactly(raw[..n], statuses, r);
      assert raw == raw[..n] + [raw[n]];
      var f := raw[n];
      if f.userId in statuses && statuses[f.userId] != map[] {
        assert Joined(raw, statuses) == Joined(raw[..n], statuses) + [ReadStatus(f, statuses[f.userId])];
        assert ReadStatus(f, statuses[f.userId]).found == f;
      } else {
        assert Joined(raw, statuses) == Joined(raw[..n], statuses) + [];
      }
      hide ReadStatus;
    }
  }

  /** The card of a rider with this status, spelled out: the rider is neither the viewer nor deleted or
      banned, the card has its name from the users' table and the party of its status, the filter lets it
      through, and either both are in that party or no block either way stands between them and its
      sharing mode admits the viewer. */
  predicate Shows(w: World, viewer: string, viewerParty: Option<string>, filter: Filter, status: Status, c: Card) {
    var u, party, mode := c.found.userId, Text(status, "inParty"), Text(status, "privacyMode");
    var follows := (viewer, u) in w.follows && w.follows[(viewer, u)] == ACCEPTED;
    var followed := (u, viewer) in w.follows && w.follows[(u, viewer)] == ACCEPTED;
    && u != viewer
    && u in w.users && !w.users[u].isDeleted && !w.users[u].isBanned && c.username == w.users[u].username
    && (c.inParty <==> party != "") && c.partyId == (if party == "" then None else Some(party))
    && (filter == FRIENDS ==> follows && followed)
    && (filter == PARTIES ==> party != "")
    && (|| (party != "" && viewerParty == Some(party))
        || (&& (viewer, u) !in w.blocks && (u, viewer) !in w.blocks
            && (|| mode == "PUBLIC"
                || (mode == "FOLLOWERS_ONLY" && follows)
                || (mode == "MUTUAL_FOLLOWERS" && follows && followed))))
  }

  lemma {:induction false} ShowsExactly(w: World, viewer: string, viewerParty: Option<string>, filter: Filter,
                                        status: Status, c: Card)
    ensures var r := ReadStatus(c.found, status);
      Shows(w, viewer, viewerParty, filter, status, c) <==>
        Visible(w, viewer, viewerParty, filter, r) && c == CardOf(w, r)
  {
  }

  /** The map, from the tables alone: exactly the cards of found riders with a live status that shows
      them. */
  lemma {:induction false} MapFromTables(w: World, viewer: string, viewerParty: Option<string>, filter: Filter,
                                         raw: seq<Found>, statuses: map<string, Status>, c: Card)
    ensures c in Shown(w, viewer, viewerParty, filter, Joined(raw, statuses)) <==>
      && c.found in raw && c.found.userId in statuses && statuses[c.found.userId] != map[]
      && Shows(w, viewer, viewerParty, filter, statuses[c.found.userId], c)
  {
    var riders, u := Joined(raw, statuses), c.found.userId;
    ShownExactly(w, viewer, viewerParty, filter, riders, c);
    assert forall r: Rider :: r.found.userId in w.users && c == CardOf(w, r) ==> r.found == c.found;
    hide Joined, Shown, Shows, Visible, CardOf;
    forall i | 0 <= i < |riders|
      ensures ReadFor(raw, statuses, riders[i])
    {
      JoinedExactly(raw, statuses, riders[i]);
    }
    if u in statuses {
      ReadHasFound(c.found, statuses[u]);
      ShowsExactly(w, viewer, viewerParty, filter, statuses[u], c);
      JoinedExactly(raw, statuses, ReadStatus(c.found, statuses[u]));
    }
    hide ReadStatus;
  }

  lemma {:induction false} ReadHasFound(f: Found, status: Status)
    ensures ReadStatus(f, status).found == f
  {
  }

  // ---- Sharing modes ----

  /** How much a mode shares; unknown strings share nothing. */
  function Width(mode: string): nat {
    match mode
    case "PUBLIC" => 3
    case "FOLLOWERS_ONLY" => 2
    case "MUTUAL_FOLLOWERS" => 1
    case _ => 0
  }

  /** The same riders, each sharing at least as widely. */
  ghost predicate Widened(riders: seq<Rider>, wider: seq<Rider>) {
    && |riders| == |wider|
    && forall i :: 0 <= i < |riders| ==>
         && wider[i] == riders[i].(privacyMode := wider[i].privacyMode)
         && Width(riders[i].privacyMode) <= Width(wider[i].privacyMode)
  }

  lemma {:induction false} WiderStillVisible(w: World, viewer: string, viewerParty: Option<string>, filter: Filter,
                                             r: Rider, mode: string)
    requires Visible(w, viewer, viewerParty, filter, r) && Width(r.privacyMode) <= Width(mode)
    ensures Visible(w, viewer, viewerParty, filter, r.(privacyMode := mode))
  {
  }

  /** Widening modes hides nobody. */
  lemma {:induction false} WideningHidesNobody(w: World, viewer: string, viewerParty: Option<string>, filter: Filter,
                                               riders: seq<Rider>, wider: seq<Rider>, c: Card)
    requires Widened(riders, wider)
    requires c in Shown(w, viewer, viewerParty, filter, riders)
    ensures c in Shown(w, viewer, viewerParty, filter, wider)
  {
    ShownExactly(w, viewer, viewerParty, filter, riders, c);
    ShownExactly(w, viewer, viewerParty, filter, wider, c);
    var i :| 0 <= i < |riders| && Visible(w, viewer, viewerParty, filter, riders[i]) && c == CardOf(w, riders[i]);
    WiderStillVisible(w, viewer, viewerParty, filter, riders[i], wider[i].privacyMode);
    hide Shown, Visible;
    assert Visible(w, viewer, viewerParty, filter, wider[i]) && c == CardOf(w, wider[i]);
  }

  /** The width order is exactly the order of what modes show. */
  lemma {:induction false} WidthDecides(mode: string, other: string)
    ensures Width(mode) <= Width(other) <==>
      forall w: World, viewer, target :: ModeGrants(w, viewer, target, mode) ==> ModeGrants(w, viewer, target, other)
  {
    var strangers := World(map[], {}, map[]);
    var follower := World(map[("a", "b") := ACCEPTED], {}, map[]);
    var mutual := World(map[("a", "b") := ACCEPTED, ("b", "a") := ACCEPTED], {}, map[]);
    assert ModeGrants(strangers, "a", "b", mode) <==> Width(mode) == 3;
    assert ModeGrants(strangers, "a", "b", other) <==> Width(other) == 3;
    assert !follower.Accepted("b", "a") && follower.Accepted("a", "b");
    assert ModeGrants(follower, "a", "b", mode) <==> Width(mode) >= 2;
    assert ModeGrants(follower, "a", "b", other) <==> Width(other) >= 2;
    assert mutual.Accepted("b", "a") && mutual.Accepted("a", "b");
    assert ModeGrants(mutual, "a", "b", mode) <==> Width(mode) >= 1;
    assert ModeGrants(mutual, "a", "b", other) <==> Width(other) >= 1;
  }

  /** The comment above the privacy rule says that a block hides in every case. It does so exactly if
      the two do not share a party, because the party is checked first, or if the FRIENDS filter leaves
      the rider out. */
  lemma {:induction false} BlockHidesExactly(w: World, viewer: string, viewerParty: Option<string>, filter: Filter,
                                             r: Rider)
    requires w.HasBlock(viewer, r.found.userId) && viewer != r.found.userId && w.Present(r.found.userId)
    requires FromStatus(r)
    ensures Visible(w, viewer, viewerParty, filter, r) <==>
      && SameParty(viewerParty, r)
      && (filter == FRIENDS ==> w.Accepted(viewer, r.found.userId) && w.Accepted(r.found.userId, viewer))
  {
  }

  lemma {:induction false} BlockedButShown(f: Found)
    requires f.userId == "b"
    ensures var w := World(map[], {("b", "a")}, map["b" := Account("bee", false, false)]);
      w.HasBlock("a", "b")
      && (var riders := Joined([f], map["b" := WriteStatus(map[], "OFF", Some("p"))]);
          Shown(w, "a", Some("p"), NEARBY, riders) == [Card(f, "bee", true, Some("p"))])
  {
    var w := World(map[], {("b", "a")}, map["b" := Account("bee", false, false)]);
    assert ("b", "a") in w.blocks;
    var statuses := map["b" := WriteStatus(map[], "OFF", Some("p"))];
    StatusReadBack(f, map[], "OFF", Some("p"));
    assert "online" in statuses["b"];
    assert [f][..0] == [];
    var r := Rider(f, true, Some("p"), "OFF");
    assert Joined([f], statuses) == [] + [r] == [r];
    assert [r][..0] == [];
    assert Visible(w, "a", Some("p"), NEARBY, r);
    assert Shown(w, "a", Some("p"), NEARBY, [r]) == [] + [CardOf(w, r)];
  }

  /** A rider taken off the map whose status had expired leaves a hash without a sharing mode: nobody
      sees it, whatever its follows and blocks. */
  lemma {:induction false} OfflineHidden(w: World, viewer: string, viewerParty: Option<string>, filter: Filter,
                                         raw: seq<Found>, statuses: map<string, Status>, f: Found)
    requires f.userId in statuses && statuses[f.userId] == MarkOffline(map[])
    ensures f !in Results(w, viewer, viewerParty, filter, raw, statuses)
  {
    EndToEnd(w, viewer, viewerParty, filter, raw, statuses, f);
    hide Results;
  }
}
