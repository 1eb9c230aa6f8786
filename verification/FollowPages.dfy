/** Keyset pagination of the follower and following lists, and the client that walks them. */
module FollowPages {
  import opened Prelude

  datatype Status = PENDING | ACCEPTED | BLOCKED

  /** A follow row; ids stand for uuids, of which only the order matters. */
  datatype Row = Row(id: int, follower: string, following: string, status: Status)

  /** The tables at one moment: follow rows by id, (initiator, target) blocks and the users that are
      neither deleted nor banned. */
  datatype World = World(rows: seq<Row>, blocks: seq<(string, string)>, viewable: set<string>)

  /** The id is a primary key, and the sequence lists the rows in its order. */
  ghost predicate Keyed(rows: seq<Row>) {
    forall i, j :: 0 <= i < j < |rows| ==> rows[i].id < rows[j].id
  }

  datatype List = FollowersOf(user: string) | FollowingOf(user: string) {
    function Peer(r: Row): string {
      if FollowersOf? then r.follower else r.following
    }

    predicate Lists(r: Row) {
      (if FollowersOf? then r.following else r.follower) == user && r.status == ACCEPTED
    }
  }

  function BlockedPeers(blocks: seq<(string, string)>, viewer: string): set<string> {
    (set b | b in blocks && b.0 == viewer :: b.1) + (set b | b in blocks && b.1 == viewer :: b.0)
  }

  predicate Matches(w: World, viewer: string, list: List, r: Row) {
    list.Lists(r) && list.Peer(r) !in BlockedPeers(w.blocks, viewer)
  }

  predicate After(cursor: Option<int>, r: Row) {
    cursor.None? || cursor.value < r.id
  }

  /** `where` and `orderBy: id`: the matching rows behind the cursor, in id order. */
  function Select(rows: seq<Row>, w: World, viewer: string, list: List, cursor: Option<int>): seq<Row> {
    if rows == [] then []
    else
      (if Matches(w, viewer, list, rows[0]) && After(cursor, rows[0]) then [rows[0]] else [])
      + Select(rows[1..], w, viewer, list, cursor)
  }

  function Selected(w: World, viewer: string, list: List, cursor: Option<int>): seq<Row> {
    Select(w.rows, w, viewer, list, cursor)
  }

  function Take(rows: seq<Row>, n: nat): seq<Row> {
    if |rows| > n then rows[..n] else rows
  }

  datatype Item = Item(userId: string, isFollowedByMe: bool)

  datatype Page = Page(items: seq<Item>, nextCursor: Option<int>)

  /** The rows of one page. */
  function PageRows(w: World, viewer: string, list: List, limit: nat, cursor: Option<int>): seq<Row> {
    Take(Take(Selected(w, viewer, list, cursor), limit + 1), limit)
  }

  function ItemOf(w: World, viewer: string, list: List, r: Row): Item {
    var u := list.Peer(r);
    Item(u, exists f :: f in w.rows && f.follower == viewer && f.following == u && f.status == ACCEPTED)
  }

  function ItemsOf(w: World, viewer: string, list: List, rows: seq<Row>): seq<Item> {
    seq(|rows|, i requires 0 <= i < |rows| => ItemOf(w, viewer, list, rows[i]))
  }

  /** The list endpoint: no page for a profile that is gone. */
  function ListPage(w: World, viewer: string, list: List, limit: nat, cursor: Option<int>): Option<Page>
    requires limit >= 1
  {
    if list.user !in w.viewable then None
    else
      var page := PageRows(w, viewer, list, limit, cursor);
      var hasMore := |Take(Selected(w, viewer, list, cursor), limit + 1)| > limit;
      Some(Page(ItemsOf(w, viewer, list, page), if hasMore then Some(page[|page| - 1].id) else None))
  }

  /** `viewerBlockedPeerIds` on the block rows that mention the viewer. */
  method ViewerBlockedPeerIds(blocks: seq<(string, string)>, viewerId: string) returns (ids: set<string>)
    requires forall i :: 0 <= i < |blocks| ==> blocks[i].0 == viewerId || blocks[i].1 == viewerId
    ensures ids == BlockedPeers(blocks, viewerId)
  {
    ids := {};
    for i := 0 to |blocks|
      invariant ids == BlockedPeers(blocks[..i], viewerId)
    {
      assert blocks[..i + 1] == blocks[..i] + [blocks[i]];
      ids := ids + {if blocks[i].0 == viewerId then blocks[i].1 else blocks[i].0};
    }
    assert blocks[..|blocks|] == blocks;
  }

  // ---- A page continues where the last one ended ----

  lemma {:induction false} SelectIsPart(rows: seq<Row>, w: World, viewer: string, list: List, cursor: Option<int>,
                                        r: Row)
    ensures r in Select(rows, w, viewer, list, cursor) <==> r in rows && Matches(w, viewer, list, r) && After(cursor, r)
  {
    hide Matches, After;
    if rows != [] {
      SelectIsPart(rows[1..], w, viewer, list, cursor, r);
      assert rows == [rows[0]] + rows[1..];
    }
  }

  lemma {:induction false} SelectKeyed(rows: seq<Row>, w: World, viewer: string, list: List, cursor: Option<int>)
    requires Keyed(rows)
    ensures Keyed(Select(rows, w, viewer, list, cursor))
  {
    hide Matches, After;
    if rows != [] {
      var rest := Select(rows[1..], w, viewer, list, cursor);
      SelectKeyed(rows[1..], w, viewer, list, cursor);
      forall i | 0 <= i < |rest|
        ensures rows[0].id < rest[i].id
      {
        SelectIsPart(rows[1..], w, viewer, list, cursor, rest[i]);
      }
    }
  }

  /** Cursors that lie before every row select the same. */
  lemma {:induction false} CursorBehind(rows: seq<Row>, w: World, viewer: string, list: List, a: Option<int>,
                                        b: Option<int>)
    requires forall i :: 0 <= i < |rows| ==> After(a, rows[i]) && After(b, rows[i])
    ensures Select(rows, w, viewer, list, a) == Select(rows, w, viewer, list, b)
  {
    hide Matches, After;
    if rows != [] {
      CursorBehind(rows[1..], w, viewer, list, a, b);
    }
  }

  /** Behind a selected row of the rest, the first row is out of reach. */
  lemma {:induction false} CursorPastHead(rows: seq<Row>, w: World, viewer: string, list: List, cursor: Option<int>,
                                          r: Row)
    requires Keyed(rows) && rows != [] && r in Select(rows[1..], w, viewer, list, cursor)
    ensures Select(rows, w, viewer, list, Some(r.id)) == Select(rows[1..], w, viewer, list, Some(r.id))
  {
    SelectIsPart(rows[1..], w, viewer, list, cursor, r);
    hide Matches;
    assert rows[0].id < r.id;
  }

  lemma {:induction false} KeyedTail(rows: seq<Row>)
    requires Keyed(rows) && rows != []
    ensures Keyed(rows[1..])
  {
  }

  /** Selecting behind the k-th selected row gives the rows after it. */
  lemma {:induction false} SelectContinues(rows: seq<Row>, w: World, viewer: string, list: List, cursor: Option<int>,
                                           all: seq<Row>, k: nat)
    requires Keyed(rows) && all == Select(rows, w, viewer, list, cursor) && k < |all|
    ensures Select(rows, w, viewer, list, Some(all[k].id)) == all[k + 1..]
    decreases |rows|
  {
    hide *;
    SelectUnfolds(rows, w, viewer, list, cursor);
    KeyedTail(rows);
    var rest := Select(rows[1..], w, viewer, list, cursor);
    if all == rest {
      SelectContinues(rows[1..], w, viewer, list, cursor, rest, k);
      CursorPastHead(rows, w, viewer, list, cursor, rest[k]);
    } else {
      TailOfCons(rows[0], rest, k);
      if k == 0 {
        FirstContinues(rows, w, viewer, list, cursor);
      } else {
        SelectContinues(rows[1..], w, viewer, list, cursor, rest, k - 1);
        CursorPastHead(rows, w, viewer, list, cursor, rest[k - 1]);
      }
    }
  }

  lemma {:induction false} SelectUnfolds(rows: seq<Row>, w: World, viewer: string, list: List, cursor: Option<int>)
    ensures rows == [] ==> Select(rows, w, viewer, list, cursor) == []
    ensures rows != [] ==>
      var all, rest := Select(rows, w, viewer, list, cursor), Select(rows[1..], w, viewer, list, cursor);
      all == rest || (all == [rows[0]] + rest && After(cursor, rows[0]))
  {
  }

  lemma {:induction false} TailOfCons(r: Row, rest: seq<Row>, k: nat)
    requires k <= |rest|
    ensures ([r] + rest)[k + 1..] == rest[k..]
    ensures ([r] + rest)[k] == if k == 0 then r else rest[k - 1]
    ensures rest[0..] == rest
  {
  }

  lemma {:induction false} FirstContinues(rows: seq<Row>, w: World, viewer: string, list: List, cursor: Option<int>)
    requires Keyed(rows) && rows != [] && After(cursor, rows[0])
    ensures Select(rows, w, viewer, list, Some(rows[0].id)) == Select(rows[1..], w, viewer, list, cursor)
  {
    hide Matches;
    CursorBehind(rows[1..], w, viewer, list, Some(rows[0].id), cursor);
  }

  // ---- Walking the pages while the tables change ----

  datatype Ending = Complete | MoreLeft | ProfileGone

  datatype Walked = Walked(rows: seq<Row>, ending: Ending)

  /** Following `nextCursor`: the i-th request sees the i-th world. */
  function Walk(worlds: seq<World>, viewer: string, list: List, limit: nat, cursor: Option<int>): Walked
    requires limit >= 1
  {
    if worlds == [] then Walked([], MoreLeft)
    else
      var page := ListPage(worlds[0], viewer, list, limit, cursor);
      if page.None? then Walked([], ProfileGone)
      else
        var rows := PageRows(worlds[0], viewer, list, limit, cursor);
        if page.value.nextCursor.None? then Walked(rows, Complete)
        else
          var further := Walk(worlds[1..], viewer, list, limit, page.value.nextCursor);
          Walked(rows + further.rows, further.ending)
  }

  ghost predicate AllKeyed(worlds: seq<World>) {
    forall i :: 0 <= i < |worlds| ==> Keyed(worlds[i].rows)
  }

  /** Taking one row more than a page holds shows whether there are more. */
  lemma {:induction false} TakeOneMore(all: seq<Row>, limit: nat)
    requires limit >= 1
    ensures Take(Take(all, limit + 1), limit) == Take(all, limit)
    ensures |Take(all, limit + 1)| > limit <==> |all| > limit
    ensures |all| > limit ==> |Take(all, limit)| == limit && Take(all, limit)[limit - 1] == all[limit - 1]
  {
  }

  /** What a page holds: the first rows behind the cursor, and a cursor exactly if there are more. */
  lemma {:induction false} PageIsNext(w: World, viewer: string, list: List, limit: nat, cursor: Option<int>)
    requires limit >= 1 && Keyed(w.rows) && list.user in w.viewable
    ensures var all := Selected(w, viewer, list, cursor); var rows := PageRows(w, viewer, list, limit, cursor);
      var next := PageCursor(w, viewer, list, limit, cursor);
      && rows == Take(all, limit)
      && (next.None? <==> |all| <= limit)
      && (next.Some? ==> rows != [] && next == Some(rows[|rows| - 1].id))
      && (next.Some? ==> Selected(w, viewer, list, next) == all[limit..])
  {
    hide Take, Select, Keyed, ItemsOf;
    var all := Selected(w, viewer, list, cursor);
    TakeOneMore(all, limit);
    if |all| > limit {
      SelectContinues(w.rows, w, viewer, list, cursor, all, limit - 1);
    }
  }

  lemma {:induction false} KeyedConcat(a: seq<Row>, b: seq<Row>, cursor: Option<int>, mid: int)
    requires Keyed(a) && Keyed(b) && (cursor.Some? ==> cursor.value < mid)
    requires forall i :: 0 <= i < |a| ==> After(cursor, a[i]) && !After(Some(mid), a[i])
    requires forall i :: 0 <= i < |b| ==> After(Some(mid), b[i])
    ensures Keyed(a + b) && forall i :: 0 <= i < |a + b| ==> After(cursor, (a + b)[i])
  {
  }

  /** Whatever changes between the requests, a walk lists rows behind its cursor, in id order and so
      each at most once. */
  lemma {:induction false} WalkNeverRepeats(worlds: seq<World>, viewer: string, list: List, limit: nat,
                                            cursor: Option<int>)
    requires limit >= 1 && AllKeyed(worlds)
    ensures var rows := Walk(worlds, viewer, list, limit, cursor).rows;
      Keyed(rows) && forall i :: 0 <= i < |rows| ==> After(cursor, rows[i])
  {
    hide Select, Selected, Matches, PageRows, ListPage;
    if worlds != [] && list.user in worlds[0].viewable {
      var w, next := worlds[0], PageCursor(worlds[0], viewer, list, limit, cursor);
      PageFacts(w, viewer, list, limit, cursor);
      if next.Some? {
        WalkNeverRepeats(worlds[1..], viewer, list, limit, next);
        var further := Walk(worlds[1..], viewer, list, limit, next).rows;
        KeyedConcat(PageRows(w, viewer, list, limit, cursor), further, cursor, next.value);
      }
    } else {
      EmptyWalk(worlds, viewer, list, limit, cursor);
    }
  }

  lemma {:induction false} WalkUnfolds(worlds: seq<World>, viewer: string, list: List, limit: nat, cursor: Option<int>)
    requires limit >= 1 && worlds != [] && list.user in worlds[0].viewable
    ensures var rows := PageRows(worlds[0], viewer, list, limit, cursor);
      var next := PageCursor(worlds[0], viewer, list, limit, cursor);
      var further := Walk(worlds[1..], viewer, list, limit, next);
      Walk(worlds, viewer, list, limit, cursor)
        == if next.None? then Walked(rows, Complete) else Walked(rows + further.rows, further.ending)
  {
  }

  lemma {:induction false} EmptyWalk(worlds: seq<World>, viewer: string, list: List, limit: nat, cursor: Option<int>)
    requires limit >= 1 && (worlds == [] || list.user !in worlds[0].viewable)
    ensures Walk(worlds, viewer, list, limit, cursor) == Walked([], if worlds == [] then MoreLeft else ProfileGone)
  {
  }

  function PageCursor(w: World, viewer: string, list: List, limit: nat, cursor: Option<int>): Option<int>
    requires limit >= 1 && list.user in w.viewable
  {
    ListPage(w, viewer, list, limit, cursor).value.nextCursor
  }

  /** The rows of a page are matching rows behind the cursor, up to the next cursor, none left out. */
  lemma {:induction false} PageFacts(w: World, viewer: string, list: List, limit: nat, cursor: Option<int>)
    requires limit >= 1 && Keyed(w.rows) && list.user in w.viewable
    ensures var rows := PageRows(w, viewer, list, limit, cursor);
      var next := PageCursor(w, viewer, list, limit, cursor);
      && Keyed(rows)
      && (next.Some? && cursor.Some? ==> cursor.value < next.value)
      && (forall i :: 0 <= i < |rows| ==> After(cursor, rows[i]) && !(next.Some? && After(next, rows[i])))
      && forall r :: r in rows <==>
           r in w.rows && Matches(w, viewer, list, r) && After(cursor, r) && !(next.Some? && After(next, r))
  {
    hide Matches;
    PageIsNext(w, viewer, list, limit, cursor);
    SelectKeyed(w.rows, w, viewer, list, cursor);
    var all := Selected(w, viewer, list, cursor);
    var rows, next := PageRows(w, viewer, list, limit, cursor), PageCursor(w, viewer, list, limit, cursor);
    if next.Some? {
      SelectIsPart(w.rows, w, viewer, list, cursor, all[limit - 1]);
    }
    forall r
      ensures r in rows <==>
        r in w.rows && Matches(w, viewer, list, r) && After(cursor, r) && !(next.Some? && After(next, r))
      ensures r in rows ==> After(cursor, r) && !(next.Some? && After(next, r))
    {
      SelectIsPart(w.rows, w, viewer, list, cursor, r);
      if next.Some? {
        SelectIsPart(w.rows, w, viewer, list, next, r);
        hide Select, Selected, PageRows, PageCursor;
        assert all == all[..limit] + all[limit..];
        assert r in rows ==> r.id <= rows[limit - 1].id;
      }
    }
  }

  // ---- Walks over changing tables ----

  /** A walk that ends lists everybody who stays listed throughout, whatever else comes and goes. */
  lemma {:induction false} WalkMissesNobody(worlds: seq<World>, viewer: string, list: List, limit: nat,
                                            cursor: Option<int>, r: Row)
    requires limit >= 1 && AllKeyed(worlds) && Walk(worlds, viewer, list, limit, cursor).ending == Complete
    requires forall i :: 0 <= i < |worlds| ==> r in worlds[i].rows && Matches(worlds[i], viewer, list, r)
    requires After(cursor, r)
    ensures r in Walk(worlds, viewer, list, limit, cursor).rows
  {
    hide Select, Selected, Matches, PageRows, ListPage;
    if worlds == [] || list.user !in worlds[0].viewable {
      EmptyWalk(worlds, viewer, list, limit, cursor);
    } else {
      var w, next := worlds[0], PageCursor(worlds[0], viewer, list, limit, cursor);
      PageFacts(w, viewer, list, limit, cursor);
      if r !in PageRows(w, viewer, list, limit, cursor) {
        WalkMissesNobody(worlds[1..], viewer, list, limit, next, r);
      }
    }
  }

  /** Nothing is listed that did not match when its page was read. */
  lemma {:induction false} WalkListsOnlyMatches(worlds: seq<World>, viewer: string, list: List, limit: nat,
                                                cursor: Option<int>, r: Row)
    requires limit >= 1 && AllKeyed(worlds) && r in Walk(worlds, viewer, list, limit, cursor).rows
    ensures exists i :: 0 <= i < |worlds| && r in worlds[i].rows && Matches(worlds[i], viewer, list, r)
  {
    hide Select, Selected, Matches, PageRows, ListPage;
    if worlds == [] || list.user !in worlds[0].viewable {
      EmptyWalk(worlds, viewer, list, limit, cursor);
    } else {
      var w, next := worlds[0], PageCursor(worlds[0], viewer, list, limit, cursor);
      PageFacts(w, viewer, list, limit, cursor);
      if r in PageRows(w, viewer, list, limit, cursor) {
        assert r in worlds[0].rows && Matches(worlds[0], viewer, list, r);
      } else {
        WalkListsOnlyMatches(worlds[1..], viewer, list, limit, next, r);
        var i :| 0 <= i < |worlds| - 1 && r in worlds[1..][i].rows && Matches(worlds[1..][i], viewer, list, r);
        assert worlds[1..][i] == worlds[i + 1];
      }
    }
  }

  // ---- Walks over unchanged tables ----

  /** What n full pages hold. */
  function Reach(n: nat, limit: nat): nat {
    n * limit
  }

  lemma {:induction false} OnePageMore(n: nat, limit: nat)
    ensures Reach(n + 1, limit) == limit + Reach(n, limit) && Reach(0, limit) == 0
  {
  }

  /** n requests against one world list its first n * limit rows, and the walk is over exactly if
      there were no more. */
  lemma {:induction false} StillWalk(w: World, n: nat, viewer: string, list: List, limit: nat, cursor: Option<int>)
    requires limit >= 1 && Keyed(w.rows) && list.user in w.viewable && n >= 1
    ensures var all := Selected(w, viewer, list, cursor);
      Walk(seq(n, _ => w), viewer, list, limit, cursor)
        == Walked(Take(all, Reach(n, limit)), if |all| <= Reach(n, limit) then Complete else MoreLeft)
  {
    hide Selected, PageRows, PageCursor, Walk, Reach, Keyed;
    var worlds := seq(n, _ => w);
    var all := Selected(w, viewer, list, cursor);
    var next := PageCursor(w, viewer, list, limit, cursor);
    PageIsNext(w, viewer, list, limit, cursor);
    WalkUnfolds(worlds, viewer, list, limit, cursor);
    OnePageMore(n - 1, limit);
    if next.Some? {
      assert worlds[1..] == seq(n - 1, _ => w);
      if n == 1 {
        OnePageMore(0, limit);
        EmptyWalk(worlds[1..], viewer, list, limit, next);
      } else {
        StillWalk(w, n - 1, viewer, list, limit, next);
        TakeFurther(all, limit, Reach(n - 1, limit));
      }
    }
  }

  lemma {:induction false} TakeFurther(all: seq<Row>, a: nat, b: nat)
    requires a < |all|
    ensures Take(all, a) + Take(all[a..], b) == Take(all, a + b)
  {
    if |all| > a + b {
      assert all[..a + b] == all[..a] + all[a..][..b];
    } else {
      assert all == all[..a] + all[a..];
    }
  }

  /** With enough requests a walk lists exactly the matching rows, each once and in id order, for
      every page size. */
  lemma {:induction false} WalkIsTheList(w: World, n: nat, viewer: string, list: List, limit: nat)
    requires limit >= 1 && Keyed(w.rows) && list.user in w.viewable
    requires n >= 1 && |Selected(w, viewer, list, None)| <= Reach(n, limit)
    ensures var walked := Walk(seq(n, _ => w), viewer, list, limit, None);
      && walked == Walked(Selected(w, viewer, list, None), Complete)
      && Keyed(walked.rows)
      && forall r :: r in walked.rows <==> r in w.rows && Matches(w, viewer, list, r)
  {
    StillWalk(w, n, viewer, list, limit, None);
    SelectKeyed(w.rows, w, viewer, list, None);
    forall r
      ensures r in Selected(w, viewer, list, None) <==> r in w.rows && Matches(w, viewer, list, r)
    {
      SelectIsPart(w.rows, w, viewer, list, None, r);
    }
    hide Select, Walk, Matches;
  }

  // ---- What the client has been shown ----

  /** a follows b, and b has accepted. */
  ghost predicate Follows(w: World, a: string, b: string) {
    exists f :: f in w.rows && f.follower == a && f.following == b && f.status == ACCEPTED
  }

  /** The items of all pages of a walk, one after the other. */
  function ShownItems(worlds: seq<World>, viewer: string, list: List, limit: nat, cursor: Option<int>): seq<Item>
    requires limit >= 1
  {
    if worlds == [] then []
    else
      var page := ListPage(worlds[0], viewer, list, limit, cursor);
      if page.None? then []
      else if page.value.nextCursor.None? then page.value.items
      else page.value.items + ShownItems(worlds[1..], viewer, list, limit, page.value.nextCursor)
  }

  lemma {:induction false} ItemsConcat(w: World, viewer: string, list: List, a: seq<Row>, b: seq<Row>)
    ensures ItemsOf(w, viewer, list, a) + ItemsOf(w, viewer, list, b) == ItemsOf(w, viewer, list, a + b)
  {
    hide ItemOf;
  }

  /** On unchanged tables the items shown are those of the rows walked. */
  lemma {:induction false} ShownAreWalked(w: World, n: nat, viewer: string, list: List, limit: nat,
                                          cursor: Option<int>)
    requires limit >= 1 && list.user in w.viewable
    ensures ShownItems(seq(n, _ => w), viewer, list, limit, cursor)
         == ItemsOf(w, viewer, list, Walk(seq(n, _ => w), viewer, list, limit, cursor).rows)
  {
    hide Selected, PageRows, ItemOf, Take;
    var worlds := seq(n, _ => w);
    if n > 0 {
      var next := PageCursor(w, viewer, list, limit, cursor);
      assert worlds[1..] == seq(n - 1, _ => w);
      WalkUnfolds(worlds, viewer, list, limit, cursor);
      if next.Some? {
        ShownAreWalked(w, n - 1, viewer, list, limit, next);
        ItemsConcat(w, viewer, list, PageRows(w, viewer, list, limit, cursor),
                    Walk(worlds[1..], viewer, list, limit, next).rows);
      }
    }
  }

  /** Whom a finished walk shows, from the tables alone: the users on the other side of an accepted
      follow of the profile, except those with a block either way between them and the viewer; marked
      exactly if the viewer follows them. A profile that is gone shows nobody. */
  lemma {:induction false} ShownExactly(w: World, n: nat, viewer: string, list: List, limit: nat, u: string, mine: bool)
    requires limit >= 1 && n >= 1 && Keyed(w.rows)
    requires Walk(seq(n, _ => w), viewer, list, limit, None).ending != MoreLeft
    ensures Item(u, mine) in ShownItems(seq(n, _ => w), viewer, list, limit, None) <==>
      && list.user in w.viewable
      && (match list case FollowersOf(user) => Follows(w, u, user) case FollowingOf(user) => Follows(w, user, u))
      && (viewer, u) !in w.blocks && (u, viewer) !in w.blocks
      && (mine <==> Follows(w, viewer, u))
  {
    if list.user in w.viewable {
      StillWalk(w, n, viewer, list, limit, None);
      WalkIsTheList(w, n, viewer, list, limit);
      ShownAreWalked(w, n, viewer, list, limit, None);
      MatchesExactly(w, viewer, list, u);
      ItemsInRows(w, viewer, list, Walk(seq(n, _ => w), viewer, list, limit, None).rows, u, mine);
    }
    hide Walk, Selected, ItemsOf, Reach, Keyed, Follows, Matches;
  }

  lemma {:induction false} MatchesExactly(w: World, viewer: string, list: List, u: string)
    ensures (exists r :: r in w.rows && Matches(w, viewer, list, r) && list.Peer(r) == u) <==>
      && (match list case FollowersOf(user) => Follows(w, u, user) case FollowingOf(user) => Follows(w, user, u))
      && (viewer, u) !in w.blocks && (u, viewer) !in w.blocks
  {
    BlockedPeersExactly(w.blocks, viewer, u);
  }

  lemma {:induction false} BlockedPeersExactly(blocks: seq<(string, string)>, viewer: string, u: string)
    ensures u in BlockedPeers(blocks, viewer) <==> (viewer, u) in blocks || (u, viewer) in blocks
  {
    if u in BlockedPeers(blocks, viewer) {
      var b :| b in blocks && ((b.0 == viewer && b.1 == u) || (b.1 == viewer && b.0 == u));
      assert b == (viewer, u) || b == (u, viewer);
    } else {
      assert forall b :: b in blocks && b.0 == viewer ==> b.1 != u;
      assert forall b :: b in blocks && b.1 == viewer ==> b.0 != u;
    }
  }

  lemma {:induction false} ItemsInRows(w: World, viewer: string, list: List, rows: seq<Row>, u: string, mine: bool)
    ensures Item(u, mine) in ItemsOf(w, viewer, list, rows) <==>
      (exists r :: r in rows && list.Peer(r) == u) && (mine <==> Follows(w, viewer, u))
  {
    var items := ItemsOf(w, viewer, list, rows);
    if Item(u, mine) in items {
      var i :| 0 <= i < |items| && items[i] == Item(u, mine);
      assert rows[i] in rows && list.Peer(rows[i]) == u;
    }
    if r :| r in rows && list.Peer(r) == u {
      var i :| 0 <= i < |rows| && rows[i] == r;
      assert items[i] == ItemOf(w, viewer, list, rows[i]);
      assert items[i] in items;
    }
  }

  /** An item carries the viewer's own follow: in its own following list every item is marked. */
  lemma {:induction false} OwnListAllFollowed(w: World, viewer: string, limit: nat, cursor: Option<int>)
    requires limit >= 1 && viewer in w.viewable
    ensures var page := ListPage(w, viewer, FollowingOf(viewer), limit, cursor).value;
      forall i :: 0 <= i < |page.items| ==> page.items[i].isFollowedByMe
  {
    var rows := PageRows(w, viewer, FollowingOf(viewer), limit, cursor);
    var all := Selected(w, viewer, FollowingOf(viewer), cursor);
    forall i | 0 <= i < |rows|
      ensures ItemOf(w, viewer, FollowingOf(viewer), rows[i]).isFollowedByMe
    {
      assert rows[i] == all[i];
      SelectIsPart(w.rows, w, viewer, FollowingOf(viewer), cursor, rows[i]);
    }
  }

  // ---- The client's check ----

  const PAGES := 10
  const PAGE_LIMIT := 50

  function Peers(list: List, rows: seq<Row>): set<string> {
    set r | r in rows :: list.Peer(r)
  }

  /** `checkIsFollowingUser`, with the worlds its ten requests would see. `None` stands for the error
      of a failed request. */
  method CheckIsFollowingUser(worlds: seq<World>, me: string, target: string) returns (answer: Option<bool>)
    requires |worlds| == PAGES
    ensures var walked := Walk(worlds, me, FollowingOf(me), PAGE_LIMIT, None);
      answer == if target in Peers(FollowingOf(me), walked.rows) then Some(true)
                else if walked.ending == ProfileGone then None else Some(false)
  {
    hide Peers, PageRows, ItemsOf;
    var list := FollowingOf(me);
    var cursor := None;
    ghost var whole := Walk(worlds, me, list, PAGE_LIMIT, None);
    ghost var seen: seq<Row> := [];
    NoPeers(list, target);
    assert worlds[0..] == worlds && seen + whole.rows == whole.rows;
    for i := 0 to PAGES
      invariant target !in Peers(list, seen)
      invariant whole.rows == seen + Walk(worlds[i..], me, list, PAGE_LIMIT, cursor).rows
      invariant whole.ending == Walk(worlds[i..], me, list, PAGE_LIMIT, cursor).ending
    {
      ghost var left := Walk(worlds[i..], me, list, PAGE_LIMIT, cursor).rows;
      ghost var rows := PageRows(worlds[i], me, list, PAGE_LIMIT, cursor);
      assert worlds[i..][0] == worlds[i] && worlds[i..][1..] == worlds[i + 1..];
      PeersConcat(list, seen, left);
      var page := ListPage(worlds[i], me, list, PAGE_LIMIT, cursor);
      if page.None? {
        NoPeers(list, target);
        return None;
      }
      assert list.user in worlds[i].viewable;
      PageItems(worlds[i], me, list, cursor, target);
      if exists u :: u in page.value.items && u.userId == target {
        assert left[..|rows|] == rows && left == rows + left[|rows|..];
        PeersConcat(list, rows, left[|rows|..]);
        return Some(true);
      }
      if page.value.nextCursor.None? {
        return Some(false);
      }
      PeersConcat(list, seen, rows);
      ConcatAssociates(seen, rows, Walk(worlds[i + 1..], me, list, PAGE_LIMIT, page.value.nextCursor).rows);
      seen := seen + rows;
      cursor := page.value.nextCursor;
    }
    assert worlds[PAGES..] == [] && seen + [] == seen;
    return Some(false);
  }

  lemma {:induction false} NoPeers(list: List, target: string)
    ensures target !in Peers(list, [])
  {
  }

  lemma {:induction false} PeersConcat(list: List, a: seq<Row>, b: seq<Row>)
    ensures Peers(list, a + b) == Peers(list, a) + Peers(list, b)
  {
  }

  /** The users on a page are the peers of its rows. */
  lemma {:induction false} PageItems(w: World, viewer: string, list: List, cursor: Option<int>, target: string)
    requires list.user in w.viewable
    ensures var page := ListPage(w, viewer, list, PAGE_LIMIT, cursor).value;
      (exists u :: u in page.items && u.userId == target) <==>
        target in Peers(list, PageRows(w, viewer, list, PAGE_LIMIT, cursor))
  {
    var rows := PageRows(w, viewer, list, PAGE_LIMIT, cursor);
    var items := ItemsOf(w, viewer, list, rows);
    if target in Peers(list, rows) {
      var i :| 0 <= i < |rows| && list.Peer(rows[i]) == target;
      assert items[i].userId == target;
    }
  }

  /** On unchanged tables the check is true exactly if the target is among the first 500 followed,
      unblocked users, in id order. */
  lemma {:induction false} FirstFiveHundred(w: World, me: string, target: string)
    requires Keyed(w.rows) && me in w.viewable
    ensures var list := FollowingOf(me); var all := Selected(w, me, list, None);
      var walked := Walk(seq(PAGES, _ => w), me, list, PAGE_LIMIT, None);
      && walked.ending != ProfileGone
      && (target in Peers(list, walked.rows) <==> exists k :: 0 <= k < |all| && k < 500 && all[k].following == target)
  {
    StillWalk(w, PAGES, me, FollowingOf(me), PAGE_LIMIT, None);
    hide Walk, Select, Selected;
    var all := Selected(w, me, FollowingOf(me), None);
    var list, rows := FollowingOf(me), Take(all, 500);
    if k :| 0 <= k < |all| && k < 500 && all[k].following == target {
      assert rows[k] == all[k] && list.Peer(rows[k]) == target;
    }
    if target in Peers(list, rows) {
      var k :| 0 <= k < |rows| && list.Peer(rows[k]) == target;
      assert all[k] == rows[k];
    }
  }

  /** So the check finds a followed user exactly if fewer than 500 listed rows have smaller ids. */
  lemma {:induction false} CheckAgrees(w: World, me: string, r: Row)
    requires Keyed(w.rows) && me in w.viewable && r in w.rows && Matches(w, me, FollowingOf(me), r)
    requires forall q :: q in w.rows && q.follower == me && q.following == r.following ==> q == r
    ensures var list := FollowingOf(me);
      && var found := r.following in Peers(list, Walk(seq(PAGES, _ => w), me, list, PAGE_LIMIT, None).rows);
      && (found <==> |set q | q in w.rows && Matches(w, me, list, q) && q.id < r.id| < 500)
  {
    var list := FollowingOf(me);
    var all := Selected(w, me, list, None);
    FirstFiveHundred(w, me, r.following);
    SelectIsPart(w.rows, w, me, list, None, r);
    var k :| 0 <= k < |all| && all[k] == r;
    BeforeInOrder(w, me, list, k);
    SelectKeyed(w.rows, w, me, list, None);
    forall j | 0 <= j < |all| && all[j].following == r.following
      ensures j == k
    {
      SelectIsPart(w.rows, w, me, list, None, all[j]);
    }
    hide Walk, Select, Selected, Peers, Matches;
  }

  lemma {:induction false} BeforeInOrder(w: World, viewer: string, list: List, k: nat)
    requires Keyed(w.rows) && k < |Selected(w, viewer, list, None)|
    ensures |set q | q in w.rows && Matches(w, viewer, list, q) && q.id < Selected(w, viewer, list, None)[k].id| == k
  {
    var all := Selected(w, viewer, list, None);
    SelectKeyed(w.rows, w, viewer, list, None);
    var earlier := set q | q in w.rows && Matches(w, viewer, list, q) && q.id < all[k].id;
    forall q
      ensures q in earlier <==> q in all[..k]
    {
      SelectIsPart(w.rows, w, viewer, list, None, q);
    }
    hide Matches, Select, Selected;
    assert earlier == Elements(all[..k]);
    DistinctSize(all[..k]);
  }
}
