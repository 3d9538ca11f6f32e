/** UsersRepo.ListV2: a page of users, with a cursor that keeps milliseconds and compares
    ids as text. */
module UserList {
  import opened Common
  import opened Paging
  import opened UuidText

  datatype User = User(id: Uuid, email: string, lastLogin: Option<Time>, createdAt: Time)

  // Other is any sort string without a cursor condition of its own; the handler passes
  // the query parameter on unchecked.
  datatype Sort = LastLoginDesc | CreatedAtDesc | EmailAsc | Other

  datatype Position = Position(lastLoginMs: Option<int>, createdMs: int, email: string, id: string)

  datatype Cursor = NoCursor | BadCursor | At(p: Position)

  datatype Page = Page(users: seq<User>, hasMore: bool, next: Cursor)

  datatype Response = Response(page: Page, total: nat)

  const MILLI := 1000

  function Millis(t: Time): int {
    t / MILLI
  }

  function PositionOf(u: User): Position {
    Position(if u.lastLogin.Some? then Some(Millis(u.lastLogin.value)) else None, Millis(u.createdAt), u.email,
      Text(u.id))
  }

  // The cursor condition. A comparison with a NULL last_login_at is not TRUE.
  predicate Admits(sort: Sort, c: Position, u: User) {
    match sort
    case LastLoginDesc =>
      if c.lastLoginMs.Some? then
        || u.lastLogin.None?
        || u.lastLogin.value < c.lastLoginMs.value * MILLI
        || (u.lastLogin.value == c.lastLoginMs.value * MILLI && TextLess(Text(u.id), c.id))
      else u.lastLogin.None? && TextLess(Text(u.id), c.id)
    case CreatedAtDesc =>
      || u.createdAt < c.createdMs * MILLI
      || (u.createdAt == c.createdMs * MILLI && TextLess(Text(u.id), c.id))
    case EmailAsc =>
      TextLess(c.email, u.email) || (u.email == c.email && TextLess(c.id, Text(u.id)))
    case Other => true
  }

  // ORDER BY ... DESC NULLS LAST, id DESC, or email ASC, id ASC.
  predicate Precedes(sort: Sort, a: User, b: User) {
    match sort
    case LastLoginDesc | Other =>
      || (a.lastLogin.Some? && (b.lastLogin.None? || b.lastLogin.value < a.lastLogin.value))
      || (a.lastLogin == b.lastLogin && b.id < a.id)
    case CreatedAtDesc => b.createdAt < a.createdAt || (a.createdAt == b.createdAt && b.id < a.id)
    case EmailAsc => TextLess(a.email, b.email) || (a.email == b.email && a.id < b.id)
  }

  function OrderOf(sort: Sort): (User, User) -> bool {
    (a, b) => Precedes(sort, a, b)
  }

  predicate Listed(matches: User -> bool, sort: Sort, cursor: Cursor, u: User) {
    matches(u) && (cursor.At? ==> Admits(sort, cursor.p, u))
  }

  function Listing(matches: User -> bool, sort: Sort, cursor: Cursor): User -> bool {
    u => Listed(matches, sort, cursor, u)
  }

  // All users beyond the cursor, in order.
  function Found(rows: seq<User>, matches: User -> bool, sort: Sort, cursor: Cursor): seq<User> {
    OrderBy(Where(rows, Listing(matches, sort, cursor)), OrderOf(sort))
  }

  // The page: the first n of them, and a cursor at the last one shown if there are more.
  function ListPage(rows: seq<User>, matches: User -> bool, sort: Sort, cursor: Cursor, n: nat): Page
    requires 1 <= n
  {
    var all := Found(rows, matches, sort, cursor);
    Page(Limit(all, n), |all| > n, if |all| > n then At(PositionOf(all[n - 1])) else NoCursor)
  }

  // It learns whether more exist by asking for one user more than the page. The count is a
  // statement of its own, without the cursor, and may see different rows.
  method ListV2(
    counted: seq<User>, rows: seq<User>, matches: User -> bool, sort: Sort, cursor: Cursor, limit: int)
    returns (r: Result<Response, string>)
    ensures r.Err? <==> cursor == BadCursor
    ensures r.Ok? ==> r.value.total == |Where(counted, matches)|
    ensures r.Ok? ==> var all, n, page := Found(rows, matches, sort, cursor), PageLimit(limit, 200), r.value.page;
              && page.users == Limit(all, n)
              && (page.hasMore <==> |all| > n) && !page.next.BadCursor? && (page.next.At? <==> page.hasMore)
              && (page.hasMore ==> page.next.p == PositionOf(page.users[n - 1]))
    ensures r.Ok? ==> r.value.page == ListPage(rows, matches, sort, cursor, PageLimit(limit, 200))
  {
    var n := limit;
    if n <= 0 || n > 200 {
      n := 50;
    }
    if cursor.BadCursor? {
      return Err("invalid cursor");
    }
    var total := |Where(counted, matches)|;
    var users := Select(rows, Listing(matches, sort, cursor), OrderOf(sort), n + 1);
    var hasMore := |users| > n;
    if hasMore {
      users := users[..n];
    }
    var next := NoCursor;
    if hasMore {
      next := At(PositionOf(users[|users| - 1]));
    }
    return Ok(Response(Page(users, hasMore, next), total));
  }

  // ---- The cursor condition against the order ---------------------------------------

  predicate ValidID(u: User) {
    u.id < ID_LIMIT
  }

  // The user as the cursor remembers it: its timestamps cut to milliseconds.
  function Truncated(u: User): User {
    u.(lastLogin := if u.lastLogin.Some? then Some(Millis(u.lastLogin.value) * MILLI) else None,
       createdAt := Millis(u.createdAt) * MILLI)
  }

  predicate WholeMillis(sort: Sort, u: User) {
    match sort
    case LastLoginDesc | Other => u.lastLogin.Some? ==> u.lastLogin.value % MILLI == 0
    case CreatedAtDesc => u.createdAt % MILLI == 0
    case EmailAsc => true
  }

  // The cursor of a user admits what follows the truncated user in the ORDER BY.
  lemma CursorMeans(sort: Sort, a: User, b: User)
    requires sort != Other && ValidID(a) && ValidID(b)
    ensures Admits(sort, PositionOf(a), b) <==> Precedes(sort, Truncated(a), b)
  {
    TextOrder(a.id, b.id);
    TextOrder(b.id, a.id);
  }

  // Nothing is admitted that does not follow the cursor user, so no page repeats a user.
  lemma CursorIsSound(sort: Sort, a: User, b: User)
    requires sort != Other && ValidID(a) && ValidID(b)
    requires Admits(sort, PositionOf(a), b)
    ensures Precedes(sort, a, b)
  {
    CursorMeans(sort, a, b);
  }

  // Everything that follows is admitted exactly if the cursor user's timestamp is a whole
  // number of milliseconds, or NULL, or the sort is by email.
  lemma CursorIsExact(sort: Sort, a: User)
    requires sort != Other && ValidID(a)
    ensures (forall b :: ValidID(b) && b.id != a.id ==>
              (Admits(sort, PositionOf(a), b) <==> Precedes(sort, a, b))) <==>
            WholeMillis(sort, a)
  {
    if WholeMillis(sort, a) {
      forall b | ValidID(b) ensures Admits(sort, PositionOf(a), b) <==> Precedes(sort, a, b) {
        CursorMeans(sort, a, b);
      }
    } else {
      var b := Lost(sort, a);
      CursorMeans(sort, a, b);
    }
  }

  // A user the cursor of a passes over: as recent with a smaller id, or a microsecond older.
  function Lost(sort: Sort, a: User): (b: User)
    requires sort != Other && ValidID(a) && !WholeMillis(sort, a)
    ensures ValidID(b) && b.id != a.id && Precedes(sort, a, b) && !Precedes(sort, Truncated(a), b)
  {
    if a.id > 0 then a.(id := a.id - 1)
    else if sort.LastLoginDesc? then a.(id := 1, lastLogin := Some(a.lastLogin.value - 1))
    else a.(id := 1, createdAt := a.createdAt - 1)
  }

  // ---- Places: the part of a user that the order looks at -----------------------------

  datatype Place = Dated(at: Time, id: Uuid) | Undated(id: Uuid) | Named(email: string, id: Uuid)

  function PlaceOf(sort: Sort, u: User): Place {
    match sort
    case LastLoginDesc | Other => if u.lastLogin.Some? then Dated(u.lastLogin.value, u.id) else Undated(u.id)
    case CreatedAtDesc => Dated(u.createdAt, u.id)
    case EmailAsc => Named(u.email, u.id)
  }

  function Placing(sort: Sort): User -> Place {
    u => PlaceOf(sort, u)
  }

  function Places(sort: Sort, users: seq<User>): seq<Place> {
    Map(users, Placing(sort))
  }

  predicate Ahead(a: Place, b: Place) {
    match a
    case Dated(t, i) => (b.Dated? && (b.at < t || (b.at == t && b.id < i))) || b.Undated? || b.Named?
    case Undated(i) => (b.Undated? && b.id < i) || b.Named?
    case Named(e, i) => b.Named? && (TextLess(e, b.email) || (e == b.email && i < b.id))
  }

  const AHEAD: (Place, Place) -> bool := (a, b) => Ahead(a, b)

  // The place a cursor remembers.
  function Kept(p: Place): Place {
    if p.Dated? then p.(at := Millis(p.at) * MILLI) else p
  }

  const FOLLOWS: (Place, Place) -> bool := (a, b) => Ahead(Kept(a), b)

  lemma AheadIsStrict()
    ensures StrictOrder(AHEAD) && Sound(FOLLOWS, AHEAD)
  {
    forall a, b ensures !AHEAD(a, a) && (a == b || AHEAD(a, b) || AHEAD(b, a)) {
      if a.Named? && b.Named? {
        TextLessTotal(a.email, b.email);
      } else if a.Named? {
        TextLessTotal(a.email, a.email);
      }
    }
    forall a, b, c | AHEAD(a, b) && AHEAD(b, c) ensures AHEAD(a, c) {
      if a.Named? && TextLess(a.email, b.email) && TextLess(b.email, c.email) {
        TextLessTransitive(a.email, b.email, c.email);
      }
    }
  }

  lemma PlacesOrder(sort: Sort, a: User, b: User)
    ensures Precedes(sort, a, b) <==> Ahead(PlaceOf(sort, a), PlaceOf(sort, b))
    ensures Kept(PlaceOf(sort, a)) == PlaceOf(sort, Truncated(a))
  {
  }

  // The primary key of users is id.
  ghost predicate ProperTable(rows: seq<User>) {
    && (forall i, j :: 0 <= i < j < |rows| ==> rows[i].id != rows[j].id)
    && (forall u :: u in rows ==> ValidID(u))
  }

  lemma {:induction false} MatchingDistinct(rows: seq<User>, matches: User -> bool, sort: Sort)
    requires ProperTable(rows)
    ensures Distinct(Places(sort, Where(rows, matches)))
  {
    WhereComparable(rows, matches, (a: User, b: User) => a.id != b.id);
    MapAt(Where(rows, matches), Placing(sort));
  }

  // The cursor that resumes after out.
  ghost predicate Resumes(cursor: Cursor, out: seq<User>) {
    cursor == if out == [] then NoCursor else At(PositionOf(out[|out| - 1]))
  }

  lemma {:induction false} ListedPlaces(
    rows: seq<User>, matches: User -> bool, sort: Sort, cursor: Cursor, n: nat, out: seq<User>)
    requires sort != Other && ProperTable(rows) && Resumes(cursor, out)
    requires forall u :: u in out ==> ValidID(u)
    ensures Places(sort, Select(rows, Listing(matches, sort, cursor), OrderOf(sort), n)) ==
            Select(Places(sort, Where(rows, matches)), k => After(Places(sort, out), FOLLOWS, k), AHEAD, n)
  {
    var kept, listed := Where(rows, matches), Listing(matches, sort, cursor);
    var beyond := (u: User) => cursor.At? ==> Admits(sort, cursor.p, u);
    var after := (k: Place) => After(Places(sort, out), FOLLOWS, k);
    WhereWhere(rows, matches, beyond, listed);
    WhereIn(rows, matches);
    MapAt(out, Placing(sort));
    forall u | u in kept ensures beyond(u) == after(Placing(sort)(u)) {
      if out != [] {
        CursorMeans(sort, out[|out| - 1], u);
        PlacesOrder(sort, out[|out| - 1], u);
        PlacesOrder(sort, Truncated(out[|out| - 1]), u);
      }
    }
    forall a, b ensures OrderOf(sort)(a, b) == AHEAD(Placing(sort)(a), Placing(sort)(b)) {
      PlacesOrder(sort, a, b);
    }
    MapSelect(kept, Placing(sort), beyond, after, OrderOf(sort), AHEAD, n);
  }

  lemma {:induction false} ListIsPage(
    rows: seq<User>, matches: User -> bool, sort: Sort, cursor: Cursor, n: nat, out: seq<User>)
    requires sort != Other && ProperTable(rows) && Resumes(cursor, out) && 1 <= n
    requires forall u :: u in out ==> ValidID(u)
    ensures var page := ListPage(rows, matches, sort, cursor, n);
            IsPage(Places(sort, Where(rows, matches)), k => After(Places(sort, out), FOLLOWS, k), AHEAD,
              Places(sort, page.users), page.hasMore)
  {
    var table, admit := Places(sort, Where(rows, matches)), (k: Place) => After(Places(sort, out), FOLLOWS, k);
    var all := Found(rows, matches, sort, cursor);
    ListedPlaces(rows, matches, sort, cursor, n, out);
    ListedPlaces(rows, matches, sort, cursor, |all| + |table|, out);
    UncutSelect(table, admit, AHEAD, |all| + |table|);
    MapAt(all, Placing(sort));
    MatchingDistinct(rows, matches, sort);
    AheadIsStrict();
    DistinctComparable(table, AHEAD);
    PrefixIsPage(table, admit, AHEAD, n, |all| > n);
  }

  // ---- Walking the pages while users come and go ----------------------------------------

  datatype Walk = Walk(users: seq<User>, next: Cursor, done: bool)

  // One more page, unless the last one was the end.
  function Read(w: Walk, rows: seq<User>, matches: User -> bool, sort: Sort, n: nat): Walk
    requires 1 <= n
  {
    if w.done then w
    else
      var page := ListPage(rows, matches, sort, w.next, n);
      Walk(w.users + page.users, page.next, !page.hasMore)
  }

  // What a client that follows the cursors has after reading a page of each table.
  function WalkOver(views: seq<seq<User>>, matches: User -> bool, sort: Sort, n: nat): Walk
    requires 1 <= n
  {
    if views == [] then Walk([], NoCursor, false)
    else Read(WalkOver(views[..|views| - 1], matches, sort, n), views[|views| - 1], matches, sort, n)
  }

  ghost function Seen(views: seq<seq<User>>, matches: User -> bool, sort: Sort): seq<seq<Place>> {
    if views == [] then []
    else Seen(views[..|views| - 1], matches, sort) + [Places(sort, Where(views[|views| - 1], matches))]
  }

  ghost predicate ProperTables(views: seq<seq<User>>) {
    forall i :: 0 <= i < |views| ==> ProperTable(views[i])
  }

  lemma PageUsers(rows: seq<User>, matches: User -> bool, sort: Sort, cursor: Cursor, n: nat, u: User)
    requires 1 <= n && u in ListPage(rows, matches, sort, cursor, n).users
    ensures u in rows && Listed(matches, sort, cursor, u)
  {
    var listed := Listing(matches, sort, cursor);
    WhereIn(rows, listed);
    OrderByIn(Where(rows, listed), OrderOf(sort));
    assert u in OrderBy(Where(rows, listed), OrderOf(sort));
  }

  lemma ReadAdds(w: Walk, rows: seq<User>, matches: User -> bool, sort: Sort, n: nat)
    requires 1 <= n
    ensures var r := Read(w, rows, matches, sort, n);
            !r.done ==> !w.done && |r.users| == |w.users| + n && Resumes(r.next, r.users)
  {
  }

  lemma OnePageMore(n: nat, pages: nat)
    ensures n * (pages + 1) == n * pages + n
  {
  }

  lemma {:induction false} WalkState(views: seq<seq<User>>, matches: User -> bool, sort: Sort, n: nat)
    requires 1 <= n
    ensures var w := WalkOver(views, matches, sort, n);
            !w.done ==> Resumes(w.next, w.users) && |w.users| == n * |views|
  {
    if views != [] {
      var init := views[..|views| - 1];
      WalkState(init, matches, sort, n);
      ReadAdds(WalkOver(init, matches, sort, n), views[|views| - 1], matches, sort, n);
      OnePageMore(n, |init|);
    }
  }

  lemma {:induction false} WalkedFrom(views: seq<seq<User>>, matches: User -> bool, sort: Sort, n: nat, u: User)
    requires 1 <= n && u in WalkOver(views, matches, sort, n).users
    ensures exists i :: 0 <= i < |views| && u in views[i]
  {
    var init := views[..|views| - 1];
    var w := WalkOver(init, matches, sort, n);
    if u in w.users {
      WalkedFrom(init, matches, sort, n, u);
      var i :| 0 <= i < |init| && u in init[i];
      assert u in views[i];
    } else {
      PageUsers(views[|views| - 1], matches, sort, w.next, n, u);
    }
  }

  lemma {:induction false} WalkedAreValid(views: seq<seq<User>>, matches: User -> bool, sort: Sort, n: nat)
    requires 1 <= n && ProperTables(views)
    ensures forall u :: u in WalkOver(views, matches, sort, n).users ==> ValidID(u)
  {
    forall u | u in WalkOver(views, matches, sort, n).users ensures ValidID(u) {
      WalkedFrom(views, matches, sort, n, u);
    }
  }

  lemma {:induction false} ReadReadsOnce(
    w: Walk, rows: seq<User>, matches: User -> bool, sort: Sort, n: nat, seen: seq<seq<Place>>)
    requires sort != Other && ProperTable(rows) && 1 <= n
    requires !w.done ==> Resumes(w.next, w.users)
    requires forall u :: u in w.users ==> ValidID(u)
    requires ReadOnce(seen, Places(sort, w.users), AHEAD)
    ensures ReadOnce(seen + [Places(sort, Where(rows, matches))],
              Places(sort, Read(w, rows, matches, sort, n).users), AHEAD)
  {
    var table := Places(sort, Where(rows, matches));
    if w.done {
      StillReadOnce(seen, Places(sort, w.users), table);
    } else {
      ListIsPage(rows, matches, sort, w.next, n, w.users);
      var page := ListPage(rows, matches, sort, w.next, n);
      AheadIsStrict();
      DrainReadsOnce(seen, Places(sort, w.users), AHEAD, FOLLOWS, table, Places(sort, page.users), page.hasMore);
      MapAppend(w.users, page.users, Placing(sort));
    }
  }

  // Whatever changes between the pages, the walk returns users in order and no place
  // twice.
  lemma {:induction false} WalkReadsOnce(views: seq<seq<User>>, matches: User -> bool, sort: Sort, n: nat)
    requires sort != Other && ProperTables(views) && 1 <= n
    ensures ReadOnce(Seen(views, matches, sort), Places(sort, WalkOver(views, matches, sort, n).users), AHEAD)
  {
    if views != [] {
      var init := views[..|views| - 1];
      WalkReadsOnce(init, matches, sort, n);
      WalkState(init, matches, sort, n);
      WalkedAreValid(init, matches, sort, n);
      ReadReadsOnce(WalkOver(init, matches, sort, n), views[|views| - 1], matches, sort, n,
        Seen(init, matches, sort));
    }
  }

  lemma StillReadOnce(seen: seq<seq<Place>>, out: seq<Place>, table: seq<Place>)
    requires ReadOnce(seen, out, AHEAD)
    ensures ReadOnce(seen + [table], out, AHEAD)
  {
    forall k | k in out ensures InSome(seen + [table], k) {
      var i :| 0 <= i < |seen| && k in seen[i];
      assert (seen + [table])[i] == seen[i];
    }
  }

  // b follows the cursor user a in the order, but a's cursor passes over it: it lies between
  // a's truncated timestamp and the real one.
  predicate InGap(sort: Sort, a: User, b: User) {
    Precedes(sort, a, b) && !Admits(sort, PositionOf(a), b)
  }

  // The cursor of the last page read passes over nobody in the table.
  ghost predicate NoGap(w: Walk, rows: seq<User>, matches: User -> bool, sort: Sort) {
    w.users != [] ==> forall b :: b in rows && matches(b) ==> !InGap(sort, w.users[|w.users| - 1], b)
  }

  ghost predicate Gapless(views: seq<seq<User>>, matches: User -> bool, sort: Sort, n: nat)
    requires 1 <= n
  {
    views == [] ||
    (Gapless(views[..|views| - 1], matches, sort, n) &&
     NoGap(WalkOver(views[..|views| - 1], matches, sort, n), views[|views| - 1], matches, sort))
  }

  lemma {:induction false} FollowsExactly(w: Walk, rows: seq<User>, matches: User -> bool, sort: Sort, k: Place)
    requires sort != Other && ProperTable(rows) && NoGap(w, rows, matches, sort)
    requires w.users != [] && (forall u :: u in w.users ==> ValidID(u))
    requires k in Places(sort, Where(rows, matches))
    ensures var last := PlaceOf(sort, w.users[|w.users| - 1]); FOLLOWS(last, k) <==> AHEAD(last, k)
  {
    var a := w.users[|w.users| - 1];
    var b := MapIn(Where(rows, matches), Placing(sort), k);
    WhereIn(rows, matches);
    assert !InGap(sort, a, b);
    PlacesOrder(sort, a, b);
    PlacesOrder(sort, Truncated(a), b);
    CursorMeans(sort, a, b);
    AheadIsStrict();
  }

  lemma {:induction false} ReadSkipsNothing(
    w: Walk, rows: seq<User>, matches: User -> bool, sort: Sort, n: nat, seen: seq<seq<Place>>)
    requires sort != Other && ProperTable(rows) && 1 <= n
    requires !w.done && Resumes(w.next, w.users) && NoGap(w, rows, matches, sort)
    requires forall u :: u in w.users ==> ValidID(u)
    requires NothingSkipped(seen, Places(sort, w.users), AHEAD)
    ensures var r, table := Read(w, rows, matches, sort, n), Places(sort, Where(rows, matches));
            && NothingSkipped(seen + [table], Places(sort, r.users), AHEAD)
            && (r.done ==> forall k :: InAll(seen + [table], k) ==> k in Places(sort, r.users))
  {
    var out, table := Places(sort, w.users), Places(sort, Where(rows, matches));
    ListIsPage(rows, matches, sort, w.next, n, w.users);
    var page := ListPage(rows, matches, sort, w.next, n);
    MapAt(w.users, Placing(sort));
    if out != [] {
      forall k | k in table ensures FOLLOWS(out[|out| - 1], k) <==> AHEAD(out[|out| - 1], k) {
        FollowsExactly(w, rows, matches, sort, k);
      }
    }
    AheadIsStrict();
    DrainSkipsNothing(seen, out, AHEAD, FOLLOWS, table, Places(sort, page.users), page.hasMore);
    MapAppend(w.users, page.users, Placing(sort));
  }

  // If no cursor it followed passed over anybody, the walk skipped nothing: once done it has
  // every user that matched, in the same place, at every page.
  lemma {:induction false} WalkSkipsNothing(views: seq<seq<User>>, matches: User -> bool, sort: Sort, n: nat)
    requires sort != Other && ProperTables(views) && 1 <= n
    requires views != [] ==> !WalkOver(views[..|views| - 1], matches, sort, n).done
    requires Gapless(views, matches, sort, n)
    ensures var w := WalkOver(views, matches, sort, n);
            Drained(Seen(views, matches, sort), Places(sort, w.users), AHEAD, w.done)
  {
    WalkReadsOnce(views, matches, sort, n);
    if views != [] {
      var init, last := views[..|views| - 1], views[|views| - 1];
      var w, seen := WalkOver(init, matches, sort, n), Seen(init, matches, sort);
      WalkState(init, matches, sort, n);
      WalkedAreValid(init, matches, sort, n);
      assert init != [] ==> !WalkOver(init[..|init| - 1], matches, sort, n).done;
      WalkSkipsNothing(init, matches, sort, n);
      ReadSkipsNothing(w, last, matches, sort, n, seen);
    }
  }

  // Cursor users with whole milliseconds leave no gap.
  lemma {:induction false} WholeIsGapless(views: seq<seq<User>>, matches: User -> bool, sort: Sort, n: nat)
    requires sort != Other && ProperTables(views) && 1 <= n
    requires forall u :: u in WalkOver(views, matches, sort, n).users ==> WholeMillis(sort, u)
    ensures Gapless(views, matches, sort, n)
  {
    if views != [] {
      var init, last := views[..|views| - 1], views[|views| - 1];
      var w := WalkOver(init, matches, sort, n);
      assert forall u :: u in w.users ==> u in WalkOver(views, matches, sort, n).users;
      WholeIsGapless(init, matches, sort, n);
      WalkedAreValid(init, matches, sort, n);
      if w.users != [] {
        var a := w.users[|w.users| - 1];
        assert a in w.users;
        forall b | b in last && matches(b) ensures !InGap(sort, a, b) {
          CursorMeans(sort, a, b);
        }
      }
    }
  }

  // ---- A walk over a table at rest --------------------------------------------------------

  ghost predicate Resting(rows: seq<User>, views: seq<seq<User>>) {
    forall i :: 0 <= i < |views| ==> views[i] == rows
  }

  // The walk is beyond b without having listed it.
  ghost predicate Passed(sort: Sort, w: Walk, b: User) {
    w.users != [] && b !in w.users && !Admits(sort, PositionOf(w.users[|w.users| - 1]), b)
  }

  // Whoever a cursor does not admit, no later cursor admits.
  lemma NeverAdmittedAgain(sort: Sort, a: User, c: User, b: User)
    requires sort != Other && ValidID(a) && ValidID(b) && ValidID(c)
    requires !Admits(sort, PositionOf(a), b) && Admits(sort, PositionOf(a), c)
    ensures !Admits(sort, PositionOf(c), b)
  {
    CursorMeans(sort, a, b);
    CursorMeans(sort, a, c);
    CursorMeans(sort, c, b);
    PlacesOrder(sort, Truncated(a), b);
    PlacesOrder(sort, Truncated(a), c);
    PlacesOrder(sort, Truncated(c), b);
    PlacesOrder(sort, c, b);
    KeptIsLater(PlaceOf(sort, Truncated(a)), PlaceOf(sort, c), PlaceOf(sort, b));
  }

  lemma KeptIsLater(k: Place, c: Place, b: Place)
    requires AHEAD(k, c) && !AHEAD(k, b)
    ensures !AHEAD(Kept(c), b)
  {
    AheadIsStrict();
    assert Kept(c) == c || AHEAD(c, Kept(c));
  }

  lemma {:induction false} PageKeepsPassed(users: seq<User>, page: seq<User>, sort: Sort, b: User)
    requires sort != Other && users != [] && ValidID(b) && (forall u :: u in users + page ==> ValidID(u))
    requires b !in users && !Admits(sort, PositionOf(users[|users| - 1]), b)
    requires forall u :: u in page ==> Admits(sort, PositionOf(users[|users| - 1]), u)
    ensures var all := users + page; b !in all && !Admits(sort, PositionOf(all[|all| - 1]), b)
  {
    var a := users[|users| - 1];
    assert a in users + page;
    if page == [] {
      assert users + page == users;
    } else {
      var c := page[|page| - 1];
      assert c in page && c in users + page;
      NeverAdmittedAgain(sort, a, c, b);
    }
  }

  lemma {:induction false} ReadKeepsPassed(
    w: Walk, rows: seq<User>, matches: User -> bool, sort: Sort, n: nat, b: User)
    requires sort != Other && ProperTable(rows) && 1 <= n && b in rows
    requires !w.done ==> Resumes(w.next, w.users)
    requires (forall u :: u in w.users ==> ValidID(u)) && Passed(sort, w, b)
    ensures Passed(sort, Read(w, rows, matches, sort, n), b)
  {
    if !w.done {
      var page := ListPage(rows, matches, sort, w.next, n).users;
      forall u | u in page ensures ValidID(u) && Admits(sort, PositionOf(w.users[|w.users| - 1]), u) {
        PageUsers(rows, matches, sort, w.next, n, u);
      }
      PageKeepsPassed(w.users, page, sort, b);
    }
  }

  // Nobody that follows the last user listed has been listed.
  lemma {:induction false} FollowerIsNew(views: seq<seq<User>>, matches: User -> bool, sort: Sort, n: nat, b: User)
    requires sort != Other && ProperTables(views) && 1 <= n
    requires var w := WalkOver(views, matches, sort, n);
             w.users != [] && Precedes(sort, w.users[|w.users| - 1], b)
    ensures b !in WalkOver(views, matches, sort, n).users
  {
    var users := WalkOver(views, matches, sort, n).users;
    WalkReadsOnce(views, matches, sort, n);
    MapAt(users, Placing(sort));
    AheadIsStrict();
    if j :| 0 <= j < |users| && users[j] == b {
      PlacesOrder(sort, users[|users| - 1], b);
      Asymmetric(Places(sort, users), j);
    }
  }

  lemma Asymmetric(out: seq<Place>, j: nat)
    requires Sorted(out, AHEAD) && j < |out|
    ensures !AHEAD(out[|out| - 1], out[j])
  {
    AheadIsStrict();
  }

  // A user in the gap of the next cursor is passed.
  lemma {:induction false} GapIsPassed(
    views: seq<seq<User>>, rows: seq<User>, matches: User -> bool, sort: Sort, n: nat) returns (b: User)
    requires sort != Other && ProperTables(views) && 1 <= n
    requires !NoGap(WalkOver(views, matches, sort, n), rows, matches, sort)
    ensures b in rows && matches(b) && Passed(sort, WalkOver(views, matches, sort, n), b)
  {
    var users := WalkOver(views, matches, sort, n).users;
    b :| b in rows && matches(b) && InGap(sort, users[|users| - 1], b);
    FollowerIsNew(views, matches, sort, n, b);
  }

  // A user in the gap of some cursor is lost for the walk.
  lemma {:induction false} GapIsLost(
    rows: seq<User>, views: seq<seq<User>>, matches: User -> bool, sort: Sort, n: nat) returns (b: User)
    requires sort != Other && ProperTable(rows) && 1 <= n && Resting(rows, views)
    requires !Gapless(views, matches, sort, n)
    ensures b in rows && matches(b) && Passed(sort, WalkOver(views, matches, sort, n), b)
  {
    var init := views[..|views| - 1];
    if !Gapless(init, matches, sort, n) {
      b := GapIsLost(rows, init, matches, sort, n);
    } else {
      b := GapIsPassed(init, rows, matches, sort, n);
    }
    WalkState(init, matches, sort, n);
    WalkedAreValid(init, matches, sort, n);
    ReadKeepsPassed(WalkOver(init, matches, sort, n), rows, matches, sort, n, b);
  }

  lemma {:induction false} WalkEnds(
    rows: seq<User>, views: seq<seq<User>>, matches: User -> bool, sort: Sort, n: nat)
    requires sort != Other && ProperTable(rows) && 1 <= n && Resting(rows, views) && n * |views| > |rows|
    ensures WalkOver(views, matches, sort, n).done
  {
    var w, table := WalkOver(views, matches, sort, n), Places(sort, Where(rows, matches));
    var seen, out := Seen(views, matches, sort), Places(sort, w.users);
    WalkState(views, matches, sort, n);
    WalkReadsOnce(views, matches, sort, n);
    SeenStatic(rows, views, matches, sort);
    WhereIn(rows, matches);
    MapAt(w.users, Placing(sort));
    MapAt(Where(rows, matches), Placing(sort));
    AheadIsStrict();
    forall k | k in out ensures k in table {
      assert InSome(seen, k);
    }
    SortedSelectionIsShort(out, table, AHEAD);
  }

  // Without gaps the finished walk is the matching users, once each and in order, as many as
  // the total of a page says.
  lemma {:induction false} GaplessWalk(
    rows: seq<User>, views: seq<seq<User>>, matches: User -> bool, sort: Sort, n: nat)
    requires sort != Other && ProperTable(rows) && 1 <= n && views != [] && Resting(rows, views)
    requires !WalkOver(views[..|views| - 1], matches, sort, n).done && WalkOver(views, matches, sort, n).done
    requires Gapless(views, matches, sort, n)
    ensures var w := WalkOver(views, matches, sort, n);
            && Places(sort, w.users) == OrderBy(Places(sort, Where(rows, matches)), AHEAD)
            && |w.users| == |Where(rows, matches)|
  {
    var w, table := WalkOver(views, matches, sort, n), Places(sort, Where(rows, matches));
    var seen, out := Seen(views, matches, sort), Places(sort, w.users);
    WalkSkipsNothing(views, matches, sort, n);
    SeenStatic(rows, views, matches, sort);
    MapAt(w.users, Placing(sort));
    MapAt(Where(rows, matches), Placing(sort));
    AheadIsStrict();
    MatchingDistinct(rows, matches, sort);
    DrainOfStaticTable(table, seen, out, AHEAD);
    OrderByIn(table, AHEAD);
  }

  lemma {:induction false} ListedInPlace(
    rows: seq<User>, views: seq<seq<User>>, matches: User -> bool, sort: Sort, n: nat, u: User)
    requires sort != Other && ProperTable(rows) && 1 <= n && Resting(rows, views) && u in rows
    requires PlaceOf(sort, u) in Places(sort, WalkOver(views, matches, sort, n).users)
    ensures u in WalkOver(views, matches, sort, n).users
  {
    var v := MapIn(WalkOver(views, matches, sort, n).users, Placing(sort), PlaceOf(sort, u));
    WalkedFrom(views, matches, sort, n, v);
    assert u.id == v.id;
  }

  // With no writers a walk ends, and it has then listed every matching user exactly if no
  // cursor it followed passed over one.
  lemma {:induction false} StaticWalk(
    rows: seq<User>, views: seq<seq<User>>, matches: User -> bool, sort: Sort, n: nat)
    requires sort != Other && ProperTable(rows) && 1 <= n && views != [] && Resting(rows, views)
    requires !WalkOver(views[..|views| - 1], matches, sort, n).done && WalkOver(views, matches, sort, n).done
    ensures (forall u :: u in rows && matches(u) ==> u in WalkOver(views, matches, sort, n).users) <==>
            Gapless(views, matches, sort, n)
  {
    if Gapless(views, matches, sort, n) {
      GaplessWalk(rows, views, matches, sort, n);
      forall u | u in rows && matches(u) ensures u in WalkOver(views, matches, sort, n).users {
        MatchIsPlaced(rows, matches, sort, u);
        ListedInPlace(rows, views, matches, sort, n, u);
      }
    } else {
      var b := GapIsLost(rows, views, matches, sort, n);
    }
  }

  lemma {:induction false} MatchIsPlaced(rows: seq<User>, matches: User -> bool, sort: Sort, u: User)
    requires u in rows && matches(u)
    ensures PlaceOf(sort, u) in OrderBy(Places(sort, Where(rows, matches)), AHEAD)
  {
    var kept := Where(rows, matches);
    WhereIn(rows, matches);
    MapAt(kept, Placing(sort));
    var i :| 0 <= i < |kept| && kept[i] == u;
    assert Places(sort, kept)[i] == PlaceOf(sort, u);
    OrderByIn(Places(sort, kept), AHEAD);
  }

  lemma {:induction false} SeenStatic(rows: seq<User>, views: seq<seq<User>>, matches: User -> bool, sort: Sort)
    requires forall i :: 0 <= i < |views| ==> views[i] == rows
    ensures |Seen(views, matches, sort)| == |views|
    ensures forall i :: 0 <= i < |views| ==> Seen(views, matches, sort)[i] == Places(sort, Where(rows, matches))
  {
    if views != [] {
      SeenStatic(rows, views[..|views| - 1], matches, sort);
    }
  }

  // ---- Where the code falls short -----------------------------------------------------

  // An unknown sort gets the default order but no cursor condition: every page is the
  // first page.
  lemma UnknownSortNeverAdvances(rows: seq<User>, matches: User -> bool, cursor: Cursor, n: nat)
    requires 1 <= n
    ensures ListPage(rows, matches, Other, cursor, n) == ListPage(rows, matches, Other, NoCursor, n)
  {
    WhereAgrees(rows, Listing(matches, Other, cursor), Listing(matches, Other, NoCursor));
  }

  // So a walk of a table at rest ends exactly if the first page shows all matching users.
  lemma {:induction false} UnknownSortEnds(
    rows: seq<User>, views: seq<seq<User>>, matches: User -> bool, n: nat)
    requires 1 <= n && views != [] && Resting(rows, views)
    ensures WalkOver(views, matches, Other, n).done <==> |Where(rows, matches)| <= n
  {
    var init := views[..|views| - 1];
    if init != [] {
      UnknownSortEnds(rows, init, matches, n);
    }
    UnknownSortNeverAdvances(rows, matches, WalkOver(init, matches, Other, n).next, n);
    WhereAgrees(rows, Listing(matches, Other, NoCursor), matches);
    OrderByIn(Where(rows, matches), OrderOf(Other));
  }
}
