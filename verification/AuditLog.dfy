/** AuditLogRepo.List and ListAfter, the export loop over List and the polling loop of
    the live stream over ListAfter. */
module AuditLog {
  import opened Common
  import opened Paging

  // The columns that order, locate and group audit records; the filter is a predicate.
  datatype Record = Record(
    createdAt: Time, id: Uuid, userID: Option<Uuid>, verb: string, action: Option<string>,
    resourceType: Option<string>, resourceID: Option<string>)

  datatype Key = Key(createdAt: Time, id: Uuid)

  datatype Cursor = NoCursor | BadCursor | At(key: Key)

  datatype Page = Page(records: seq<Record>, next: Cursor)

  function KeyOf(r: Record): Key {
    Key(r.createdAt, r.id)
  }

  function Keys(rows: seq<Record>): seq<Key> {
    Map(rows, KeyOf)
  }

  predicate Earlier(a: Key, b: Key) {
    a.createdAt < b.createdAt || (a.createdAt == b.createdAt && a.id < b.id)
  }

  // ORDER BY created_at ASC, id ASC
  const OLDEST_FIRST: (Key, Key) -> bool := (a, b) => Earlier(a, b)

  // ORDER BY created_at DESC, id DESC
  const NEWEST_FIRST: (Key, Key) -> bool := (a, b) => Earlier(b, a)

  function ByKey(less: (Key, Key) -> bool): (Record, Record) -> bool {
    (a, b) => less(KeyOf(a), KeyOf(b))
  }

  // The primary key of audit_log is (created_at, id).
  ghost predicate KeysDistinct(rows: seq<Record>) {
    Distinct(Keys(rows))
  }

  lemma Orders()
    ensures StrictOrder(OLDEST_FIRST) && StrictOrder(NEWEST_FIRST)
  {
  }

  lemma {:induction false} MatchingDistinct(rows: seq<Record>, matches: Record -> bool)
    requires KeysDistinct(rows)
    ensures KeysDistinct(Where(rows, matches))
  {
    MapAt(rows, KeyOf);
    WhereComparable(rows, matches, (a: Record, b: Record) => KeyOf(a) != KeyOf(b));
    MapAt(Where(rows, matches), KeyOf);
  }

  // The keys of selected records are selected among the keys of the matching records.
  lemma {:induction false} SelectKeys(rows: seq<Record>, matches: Record -> bool, p: Record -> bool, q: Key -> bool,
    less: (Key, Key) -> bool, n: nat)
    requires forall r :: p(r) == (matches(r) && q(KeyOf(r)))
    ensures Keys(Select(rows, p, ByKey(less), n)) == Select(Keys(Where(rows, matches)), q, less, n)
  {
    var byKey := (r: Record) => q(KeyOf(r));
    WhereWhere(rows, matches, byKey, p);
    assert Select(rows, p, ByKey(less), n) == Select(Where(rows, matches), byKey, ByKey(less), n);
    MapSelect(Where(rows, matches), KeyOf, byKey, q, ByKey(less), less, n);
  }

  // ---- List: newest first, one record more than the page to see whether more exist ----

  predicate Listed(matches: Record -> bool, cursor: Cursor, r: Record) {
    matches(r) && (cursor.At? ==> Earlier(KeyOf(r), cursor.key))
  }

  function Listing(matches: Record -> bool, cursor: Cursor): Record -> bool {
    r => Listed(matches, cursor, r)
  }

  // All records beyond the cursor, newest first.
  function Found(rows: seq<Record>, matches: Record -> bool, cursor: Cursor): seq<Record> {
    OrderBy(Where(rows, Listing(matches, cursor)), ByKey(NEWEST_FIRST))
  }

  // The page: the first n of them, and a cursor at the last one shown if there are more.
  function ListPage(rows: seq<Record>, matches: Record -> bool, cursor: Cursor, n: nat): Page
    requires 1 <= n
  {
    var all := Found(rows, matches, cursor);
    Page(Limit(all, n), if |all| > n then At(KeyOf(all[n - 1])) else NoCursor)
  }

  // It learns whether more exist by asking for one record more than the page.
  method List(rows: seq<Record>, matches: Record -> bool, cursor: Cursor, limit: int)
    returns (r: Result<Page, string>)
    ensures r.Err? <==> cursor == BadCursor
    ensures r.Ok? ==> var all, n := Found(rows, matches, cursor), PageLimit(limit, 200);
              && r.value.records == Limit(all, n)
              && (r.value.next.At? <==> |all| > n) && !r.value.next.BadCursor?
              && (r.value.next.At? ==> r.value.next.key == KeyOf(r.value.records[n - 1]))
    ensures r.Ok? ==> r.value == ListPage(rows, matches, cursor, PageLimit(limit, 200))
  {
    var n := limit;
    if n <= 0 || n > 200 {
      n := 50;
    }
    if cursor.BadCursor? {
      return Err("invalid cursor");
    }
    var out := Select(rows, Listing(matches, cursor), ByKey(NEWEST_FIRST), n + 1);
    var next := NoCursor;
    if |out| > n {
      var last := out[n - 1];
      next := At(Key(last.createdAt, last.id));
      out := out[..n];
    }
    return Ok(Page(out, next));
  }

  // The keys of one List page after the keys in out.
  lemma {:induction false} ListIsPage(rows: seq<Record>, matches: Record -> bool, cursor: Cursor, n: nat, out: seq<Key>)
    requires KeysDistinct(rows) && 1 <= n
    requires cursor == if out == [] then NoCursor else At(out[|out| - 1])
    ensures var page := ListPage(rows, matches, cursor, n);
            IsPage(Keys(Where(rows, matches)), k => After(out, NEWEST_FIRST, k), NEWEST_FIRST,
              Keys(page.records), page.next.At?)
  {
    var table, admit := Keys(Where(rows, matches)), (k: Key) => After(out, NEWEST_FIRST, k);
    var all := Found(rows, matches, cursor);
    SelectKeys(rows, matches, Listing(matches, cursor), admit, NEWEST_FIRST, n);
    SelectKeys(rows, matches, Listing(matches, cursor), admit, NEWEST_FIRST, |all| + |table|);
    UncutSelect(table, admit, NEWEST_FIRST, |all| + |table|);
    MapAt(all, KeyOf);
    MatchingDistinct(rows, matches);
    Orders();
    DistinctComparable(table, NEWEST_FIRST);
    PrefixIsPage(table, admit, NEWEST_FIRST, n, |all| > n);
  }

  const EXPORT_LIMIT := 200

  // The matching keys at each view.
  ghost function Seen(views: seq<seq<Record>>, matches: Record -> bool): seq<seq<Key>> {
    if views == [] then []
    else Seen(views[..|views| - 1], matches) + [Keys(Where(views[|views| - 1], matches))]
  }

  // The cursor of the next page, when the export of a request with a cursor of its own has
  // written out so far.
  ghost predicate Resumes(start: Cursor, cursor: Cursor, out: seq<Record>) {
    if out == [] then cursor == start
    else
      var last := KeyOf(out[|out| - 1]);
      cursor == At(last) && (start.At? ==> Earlier(last, start.key))
  }

  // That page is one of the records beyond the request's cursor.
  lemma PageFromStart(rows: seq<Record>, matches: Record -> bool, start: Cursor, cursor: Cursor, out: seq<Record>)
    requires !start.BadCursor? && Resumes(start, cursor, out)
    ensures ListPage(rows, matches, cursor, EXPORT_LIMIT) ==
            ListPage(rows, Listing(matches, start), if out == [] then NoCursor else cursor, EXPORT_LIMIT)
  {
    WhereAgrees(rows, Listing(matches, cursor),
      Listing(Listing(matches, start), if out == [] then NoCursor else cursor));
  }

  lemma PageRecords(rows: seq<Record>, matches: Record -> bool, cursor: Cursor, n: nat, r: Record)
    requires 1 <= n && r in ListPage(rows, matches, cursor, n).records
    ensures r in rows && Listed(matches, cursor, r)
  {
    WhereIn(rows, Listing(matches, cursor));
    OrderByIn(Where(rows, Listing(matches, cursor)), ByKey(NEWEST_FIRST));
    assert r in Found(rows, matches, cursor);
  }

  // The state of the export loop after so many pages.
  ghost predicate Exported(
    views: seq<seq<Record>>, matches: Record -> bool, start: Cursor, cursor: Cursor, out: seq<Record>, done: bool,
    used: nat)
  {
    && used <= |views| && (done ==> used > 0)
    && (!done ==> |out| == EXPORT_LIMIT * used && Resumes(start, cursor, out))
    && Drained(Seen(views[..used], Listing(matches, start)), Keys(out), NEWEST_FIRST, done)
  }

  lemma ExportStep(
    views: seq<seq<Record>>, i: nat, matches: Record -> bool, start: Cursor, cursor: Cursor, out: seq<Record>)
    requires i < |views| && AllDistinct(views) && !start.BadCursor?
    requires Exported(views, matches, start, cursor, out, false, i)
    ensures var page := ListPage(views[i], matches, cursor, EXPORT_LIMIT);
            Exported(views, matches, start, page.next, out + page.records, page.next.NoCursor?, i + 1)
  {
    var from, at := Listing(matches, start), if out == [] then NoCursor else cursor;
    var page := ListPage(views[i], from, at, EXPORT_LIMIT);
    PageFromStart(views[i], matches, start, cursor, out);
    MapAt(out, KeyOf);
    ListIsPage(views[i], from, at, EXPORT_LIMIT, Keys(out));
    Orders();
    DrainStep(Seen(views[..i], from), Keys(out), NEWEST_FIRST, Keys(Where(views[i], from)), Keys(page.records),
      page.next.At?);
    assert views[..i + 1][..i] == views[..i];
    MapAppend(out, page.records, KeyOf);
    if page.next.At? {
      PageRecords(views[i], from, at, EXPORT_LIMIT, page.records[EXPORT_LIMIT - 1]);
    }
  }

  ghost predicate AllDistinct(views: seq<seq<Record>>) {
    forall i :: 0 <= i < |views| ==> KeysDistinct(views[i])
  }

  // Nobody writes to the log while it is read.
  ghost predicate Resting(views: seq<seq<Record>>) {
    views != [] && forall i :: 0 <= i < |views| ==> views[i] == views[0]
  }

  // handleAuditExport's loop, from the cursor of the request. Over any sequence of table
  // states it writes records newest first, none twice, and when it ends it has written every
  // record that matched at every read; from a log at rest it writes the matching records
  // and ends. A cursor that does not decode ends it at once.
  method Export(views: seq<seq<Record>>, matches: Record -> bool, start: Cursor)
    returns (out: seq<Record>, done: bool, used: nat)
    requires AllDistinct(views)
    ensures used <= |views| && (views != [] ==> used > 0)
    ensures start.BadCursor? ==> out == []
    ensures !start.BadCursor? && !done ==> used == |views| && |out| == EXPORT_LIMIT * used
    ensures !start.BadCursor? ==> Drained(Seen(views[..used], Listing(matches, start)), Keys(out), NEWEST_FIRST, done)
    ensures !start.BadCursor? && Resting(views) ==>
              && (|views| * EXPORT_LIMIT > |views[0]| ==> done)
              && (done ==> Keys(out) == OrderBy(Keys(Where(views[0], Listing(matches, start))), NEWEST_FIRST))
  {
    assert Seen(views[..0], Listing(matches, start)) == [] && Keys([]) == [];
    var cursor := start;
    out, done, used := [], false, 0;
    while used < |views| && !done
      invariant used <= |views| && (done ==> used > 0)
      invariant start.BadCursor? ==> out == [] && cursor == start && (used > 0 ==> done)
      invariant !start.BadCursor? ==>
                  Exported(views, matches, start, cursor, out, done, used) && (done || !cursor.BadCursor?)
      decreases |views| - used
    {
      var r := List(views[used], matches, cursor, EXPORT_LIMIT);
      if r.Err? {
        done, used := true, used + 1;
        break;
      }
      ExportStep(views, used, matches, start, cursor, out);
      out := out + r.value.records;
      used := used + 1;
      if r.value.next.NoCursor? {
        done := true;
      } else {
        cursor := r.value.next;
      }
    }
    if !start.BadCursor? && Resting(views) {
      StaticExport(views[0], views[..used], Listing(matches, start), out, done);
    }
  }

  // With no writers the loop ends, and what it has written is the matching log, newest
  // first.
  lemma {:induction false} StaticExport(
    rows: seq<Record>, views: seq<seq<Record>>, matches: Record -> bool, out: seq<Record>, done: bool)
    requires KeysDistinct(rows)
    requires views != [] && forall i :: 0 <= i < |views| ==> views[i] == rows
    requires done || |out| == |views| * EXPORT_LIMIT
    requires Drained(Seen(views, matches), Keys(out), NEWEST_FIRST, done)
    ensures |views| * EXPORT_LIMIT > |rows| ==> done
    ensures done ==> Keys(out) == OrderBy(Keys(Where(rows, matches)), NEWEST_FIRST)
  {
    var table := Keys(Where(rows, matches));
    Orders();
    SeenStatic(rows, views, matches);
    MapAt(out, KeyOf);
    MapAt(Where(rows, matches), KeyOf);
    WhereIn(rows, matches);
    forall k | k in Keys(out) ensures k in table {
      assert InSome(Seen(views, matches), k);
    }
    SortedSelectionIsShort(Keys(out), table, NEWEST_FIRST);
    MatchingDistinct(rows, matches);
    if done {
      DrainOfStaticTable(table, Seen(views, matches), Keys(out), NEWEST_FIRST);
    }
  }

  lemma {:induction false} SeenStatic(rows: seq<Record>, views: seq<seq<Record>>, matches: Record -> bool)
    requires forall i :: 0 <= i < |views| ==> views[i] == rows
    ensures |Seen(views, matches)| == |views|
    ensures forall i :: 0 <= i < |views| ==> Seen(views, matches)[i] == Keys(Where(rows, matches))
  {
    if views != [] {
      SeenStatic(rows, views[..|views| - 1], matches);
    }
  }
}
