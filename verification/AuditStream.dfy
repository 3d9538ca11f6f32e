/** The live audit stream: a loop that polls ListAfter and remembers the last key sent. */
module AuditStream {
  import opened Common
  import opened Paging
  import opened AuditLog

  const POLL_LIMIT := 100

  predicate Later(from: Key, k: Key) {
    Earlier(from, k)
  }

  // ListAfter(filter, after, 100): the matching records beyond a key, oldest first.
  function ListAfter(rows: seq<Record>, matches: Record -> bool, after: Key): seq<Record> {
    Select(rows, r => matches(r) && Later(after, KeyOf(r)), ByKey(OLDEST_FIRST), POLL_LIMIT)
  }

  function Poll(table: seq<Key>, after: Key): seq<Key> {
    Select(table, k => Later(after, k), OLDEST_FIRST, POLL_LIMIT)
  }

  // ---- Runs: the matching keys at each poll ---------------------------------------

  function Position(start: Key, sent: seq<Key>): Key {
    if sent == [] then start else sent[|sent| - 1]
  }

  // Everything sent over the polls of tables, beginning after start.
  function Sent(start: Key, tables: seq<seq<Key>>): seq<Key> {
    if tables == [] then []
    else
      var before := Sent(start, tables[..|tables| - 1]);
      before + Poll(tables[|tables| - 1], Position(start, before))
  }

  // ---- The handler -----------------------------------------------------------------

  // GetByID: the newest record with that id.
  function GetByID(rows: seq<Record>, id: Uuid): Option<Record> {
    if rows == [] then None
    else
      var rest := GetByID(rows[1..], id);
      if rows[0].id == id && (rest.None? || rest.value.createdAt <= rows[0].createdAt) then Some(rows[0])
      else rest
  }

  // Where a connection starts: after the event the client saw last if it still exists,
  // otherwise three seconds ago.
  function StartKey(rows: seq<Record>, now: Time, lastEventID: Option<Uuid>): Key {
    var event := if lastEventID.Some? then GetByID(rows, lastEventID.value) else None;
    if event.Some? then Key(event.value.createdAt, lastEventID.value) else Key(now - 3 * SECOND, NIL)
  }

  class Connection {
    var lastCreatedAt: Time
    var lastID: Uuid
    var sent: seq<Record>
    ghost const start: Key
    ghost var polled: seq<seq<Key>>

    // What was written to the client is what the polls so far send.
    ghost predicate Valid()
      reads this
    {
      && Keys(sent) == Sent(start, polled)
      && Key(lastCreatedAt, lastID) == Position(start, Keys(sent))
    }

    constructor (rows: seq<Record>, now: Time, lastEventID: Option<Uuid>)
      ensures Valid() && start == StartKey(rows, now, lastEventID) && sent == [] && polled == []
    {
      var at, id := now - 3 * SECOND, NIL;
      if lastEventID.Some? {
        var event := GetByID(rows, lastEventID.value);
        if event.Some? {
          at, id := event.value.createdAt, lastEventID.value;
        }
      }
      lastCreatedAt, lastID, sent := at, id, [];
      start, polled := Key(at, id), [];
    }

    // One tick: read the next records and write them one by one.
    method Tick(rows: seq<Record>, matches: Record -> bool)
      requires Valid()
      modifies this
      ensures Valid()
      ensures polled == old(polled) + [Keys(Where(rows, matches))]
      ensures sent == old(sent) + ListAfter(rows, matches, old(Key(lastCreatedAt, lastID)))
    {
      var items := ListAfter(rows, matches, Key(lastCreatedAt, lastID));
      ghost var from, before := Key(lastCreatedAt, lastID), sent;
      for i := 0 to |items|
        invariant sent == before + items[..i]
        invariant Key(lastCreatedAt, lastID) == if i == 0 then from else KeyOf(items[i - 1])
        invariant polled == old(polled)
      {
        OneMore(before, items, i);
        sent := sent + [items[i]];
        lastCreatedAt := items[i].createdAt;
        lastID := items[i].id;
      }
      polled := polled + [Keys(Where(rows, matches))];
      Ticked(start, old(polled), before, rows, matches, from);
    }
  }

  lemma OneMore(before: seq<Record>, items: seq<Record>, i: nat)
    requires i < |items|
    ensures before + items[..i] + [items[i]] == before + items[..i + 1]
  {
  }

  // What a tick writes is what the poll sends, and its last key is the new position.
  lemma {:induction false} Ticked(
    start: Key, polled: seq<seq<Key>>, before: seq<Record>, rows: seq<Record>, matches: Record -> bool, from: Key)
    requires Keys(before) == Sent(start, polled) && from == Position(start, Keys(before))
    ensures var items := ListAfter(rows, matches, from);
            && before + items[..|items|] == before + items
            && Keys(before + items) == Sent(start, polled + [Keys(Where(rows, matches))])
            && Position(start, Keys(before + items)) == (if items == [] then from else KeyOf(items[|items| - 1]))
  {
    var items := ListAfter(rows, matches, from);
    SelectKeys(rows, matches, r => matches(r) && Later(from, KeyOf(r)), k => Later(from, k), OLDEST_FIRST, POLL_LIMIT);
    SentNext(start, polled, Keys(Where(rows, matches)));
    MapAppend(before, items, KeyOf);
    MapAt(items, KeyOf);
    if items == [] {
      assert before + items == before;
    }
  }

  // ---- Claims over all runs -----------------------------------------------------------

  lemma PollIsPage(table: seq<Key>, after: Key)
    requires Distinct(table)
    ensures IsPage(table, k => Later(after, k), OLDEST_FIRST, Poll(table, after), |Poll(table, after)| == POLL_LIMIT)
  {
    Orders();
    DistinctComparable(table, OLDEST_FIRST);
    FullPage(table, k => Later(after, k), OLDEST_FIRST, POLL_LIMIT);
  }

  ghost predicate AllDistinct(tables: seq<seq<Key>>) {
    forall i :: 0 <= i < |tables| ==> Distinct(tables[i])
  }

  // Whatever is inserted or deleted between polls, the keys sent strictly increase and
  // all lie beyond the start: nothing is sent twice.
  lemma {:induction false} SentIncreases(start: Key, tables: seq<seq<Key>>)
    requires AllDistinct(tables)
    ensures Sorted([start] + Sent(start, tables), OLDEST_FIRST)
  {
    if tables != [] {
      var init, last := tables[..|tables| - 1], tables[|tables| - 1];
      SentIncreases(start, init);
      var before := Sent(start, init);
      var page := Poll(last, Position(start, before));
      PollIsPage(last, Position(start, before));
      var all := [start] + before;
      assert [start] + Sent(start, tables) == all + page;
      assert Position(start, before) == all[|all| - 1];
      forall i, j | 0 <= i < j < |all + page| ensures Earlier((all + page)[i], (all + page)[j]) {
        if i < |all| <= j {
          assert (all + page)[j] in page;
          assert Earlier(all[|all| - 1], (all + page)[j]);
        }
      }
    }
  }

  // A record inserted between two polls and kept since then.
  ghost predicate InsertedAt(tables: seq<seq<Key>>, p: nat, k: Key) {
    && p < |tables|
    && (forall i :: 0 <= i < p ==> k !in tables[i])
    && (forall i :: p <= i < |tables| ==> k in tables[i])
  }

  lemma {:induction false} NotSentBefore(start: Key, tables: seq<seq<Key>>, k: Key)
    requires AllDistinct(tables)
    requires forall i :: 0 <= i < |tables| ==> k !in tables[i]
    ensures k !in Sent(start, tables)
  {
    if tables != [] {
      var init := tables[..|tables| - 1];
      NotSentBefore(start, init, k);
      PollIsPage(tables[|tables| - 1], Position(start, Sent(start, init)));
    }
  }

  ghost predicate SentOrAhead(start: Key, tables: seq<seq<Key>>, k: Key) {
    k in Sent(start, tables) || Earlier(Position(start, Sent(start, tables)), k)
  }

  // A poll neither passes over a record that is there nor brings back one it has passed.
  lemma {:induction false} PollKeeps(start: Key, init: seq<seq<Key>>, last: seq<Key>, k: Key)
    requires Distinct(last) && k in last
    ensures SentOrAhead(start, init + [last], k) <==> SentOrAhead(start, init, k)
    ensures |Poll(last, Position(start, Sent(start, init)))| < POLL_LIMIT && SentOrAhead(start, init, k) ==>
              k in Sent(start, init + [last])
  {
    var before := Sent(start, init);
    var at := Position(start, before);
    var page := Poll(last, at);
    PollIsPage(last, at);
    SentNext(start, init, last);
    if page != [] {
      assert page[|page| - 1] in page;
      assert Position(start, before + page) == page[|page| - 1];
    } else {
      assert before + page == before;
    }
  }

  lemma {:induction false} LandedAheadIsKept(start: Key, tables: seq<seq<Key>>, p: nat, k: Key)
    requires AllDistinct(tables) && InsertedAt(tables, p, k)
    ensures SentOrAhead(start, tables[..|tables| - 1], k) <==> Earlier(Position(start, Sent(start, tables[..p])), k)
  {
    var n := |tables| - 1;
    if p == n {
      NotSentBefore(start, tables[..n], k);
    } else {
      LandedAheadIsKept(start, tables[..n], p, k);
      assert tables[..n][..p] == tables[..p];
      assert tables[..n] == tables[..n][..n - 1] + [tables[n - 1]];
      PollKeeps(start, tables[..n][..n - 1], tables[n - 1], k);
    }
  }

  // Once a poll comes back short, a record inserted during the connection and kept has
  // been sent exactly if it landed beyond the stream's position when it was inserted.
  lemma {:induction false} SentIffLandedAhead(start: Key, tables: seq<seq<Key>>, p: nat, k: Key)
    requires AllDistinct(tables) && InsertedAt(tables, p, k)
    requires var n := |tables| - 1;
             |Poll(tables[n], Position(start, Sent(start, tables[..n])))| < POLL_LIMIT
    ensures k in Sent(start, tables) <==> Earlier(Position(start, Sent(start, tables[..p])), k)
  {
    var n := |tables| - 1;
    LandedAheadIsKept(start, tables, p, k);
    assert tables == tables[..n] + [tables[n]];
    PollKeeps(start, tables[..n], tables[n], k);
  }

  function Repeat(table: seq<Key>, n: nat): seq<seq<Key>> {
    if n == 0 then [] else Repeat(table, n - 1) + [table]
  }

  // Over an unchanged log everything sent is in the log, a hundred records with each full
  // poll.
  lemma {:induction false} StaticPolls(start: Key, table: seq<Key>, n: nat)
    requires Distinct(table)
    requires forall i :: 0 <= i < n ==> |Poll(table, Position(start, Sent(start, Repeat(table, i))))| >= POLL_LIMIT
    ensures AllDistinct(Repeat(table, n))
    ensures |Sent(start, Repeat(table, n))| >= POLL_LIMIT * n
    ensures forall k :: k in Sent(start, Repeat(table, n)) ==> k in table
  {
    if n > 0 {
      StaticPolls(start, table, n - 1);
      SentNext(start, Repeat(table, n - 1), table);
      PollIsPage(table, Position(start, Sent(start, Repeat(table, n - 1))));
    }
  }

  // So once the log rests, a poll comes back short before long.
  lemma PollComesShort(start: Key, table: seq<Key>, n: nat) returns (i: nat)
    requires Distinct(table) && POLL_LIMIT * n > |table|
    ensures i < n && |Poll(table, Position(start, Sent(start, Repeat(table, i))))| < POLL_LIMIT
  {
    if j :| 0 <= j < n && |Poll(table, Position(start, Sent(start, Repeat(table, j))))| < POLL_LIMIT {
      i := j;
    } else {
      StaticPolls(start, table, n);
      SentIncreases(start, Repeat(table, n));
      var sent := Sent(start, Repeat(table, n));
      assert sent == ([start] + sent)[1..];
      Orders();
      SortedSelectionIsShort(sent, table, OLDEST_FIRST);
      assert false;
    }
  }

  // Disconnecting and resuming after the last key sent continues the same stream.
  lemma {:induction false} Resume(start: Key, first: seq<seq<Key>>, second: seq<seq<Key>>)
    ensures Sent(start, first + second) ==
            Sent(start, first) + Sent(Position(start, Sent(start, first)), second)
  {
    if second == [] {
      assert first + second == first;
    } else {
      var init, last := second[..|second| - 1], second[|second| - 1];
      var a := Sent(start, first);
      Resume(start, first, init);
      ResumeStep(start, first + init, init, last, a);
      assert second == init + [last] && first + second == first + init + [last];
    }
  }

  // One more poll, when a was sent before the resumption and joined are all polls so far.
  lemma {:induction false} ResumeStep(
    start: Key, joined: seq<seq<Key>>, init: seq<seq<Key>>, last: seq<Key>, a: seq<Key>)
    requires Sent(start, joined) == a + Sent(Position(start, a), init)
    ensures Sent(start, joined + [last]) == a + Sent(Position(start, a), init + [last])
  {
    var b := Sent(Position(start, a), init);
    var page := Poll(last, Position(start, a + b));
    SentNext(start, joined, last);
    SentNext(Position(start, a), init, last);
    PositionJoins(start, a, b);
    Appended(Sent(start, joined + [last]), a, b, page, Sent(Position(start, a), init + [last]));
  }

  lemma Appended(whole: seq<Key>, a: seq<Key>, b: seq<Key>, page: seq<Key>, rest: seq<Key>)
    requires whole == a + b + page && rest == b + page
    ensures whole == a + rest
  {
  }

  lemma PositionJoins(start: Key, a: seq<Key>, b: seq<Key>)
    ensures Position(start, a + b) == Position(Position(start, a), b)
  {
    if b == [] {
      assert a + b == a;
    }
  }

  lemma {:induction false} SentNext(start: Key, tables: seq<seq<Key>>, last: seq<Key>)
    ensures Sent(start, tables + [last]) ==
            Sent(start, tables) + Poll(last, Position(start, Sent(start, tables)))
  {
    assert (tables + [last])[..|tables|] == tables;
  }

  // The event id of the last record sent finds the stream's position again as long as
  // that record is still in the log and ids do not repeat.
  lemma {:induction false} LastEventFindsPosition(rows: seq<Record>, now: Time, r: Record)
    requires r in rows
    requires forall a, b :: a in rows && b in rows && a.id == b.id ==> a == b
    ensures StartKey(rows, now, Some(r.id)) == KeyOf(r)
  {
    GetByIDFinds(rows, r.id);
  }

  lemma {:induction false} GetByIDFinds(rows: seq<Record>, id: Uuid)
    ensures GetByID(rows, id).Some? <==> exists r :: r in rows && r.id == id
    ensures GetByID(rows, id).Some? ==> GetByID(rows, id).value in rows && GetByID(rows, id).value.id == id
  {
    if rows != [] {
      GetByIDFinds(rows[1..], id);
      assert rows == [rows[0]] + rows[1..];
    }
  }
}
