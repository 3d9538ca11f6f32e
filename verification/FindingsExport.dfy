/** collectFindings: the export loop drains List while the table changes under it. */
module FindingsExport {
  import opened Common
  import opened Sql
  import opened Paging
  import opened FindingsQuery
  import opened FindingsRepo

  const EXPORT_BATCH_SIZE := 1000

  // What one query sees: the committed rows at that moment, the catalogues, the clock.
  datatype Snapshot = Snapshot(rows: seq<Finding>, w: World)

  function KeyOrder(ascending: bool): (Key, Key) -> bool {
    (a, b) => KeyBeyond(ascending, a, b)
  }

  function Keys(rows: seq<Finding>): seq<Key> {
    Map(rows, KeyOf)
  }

  // The keys of the findings that the filter selected when each page was read.
  ghost function Seen(views: seq<Snapshot>, f: Filter): seq<seq<Key>> {
    if views == [] then []
    else
      var v := views[|views| - 1];
      Seen(views[..|views| - 1], f) + [Keys(Filtered(v.rows, f, v.w))]
  }

  lemma KeyOrderStrict(ascending: bool)
    ensures StrictOrder(KeyOrder(ascending)) && Sound(KeyOrder(ascending), KeyOrder(ascending))
  {
  }

  lemma FilteredKeysDistinct(rows: seq<Finding>, f: Filter, w: World)
    requires DistinctIDs(rows)
    ensures Distinct(Keys(Filtered(rows, f, w)))
  {
    WhereComparable(rows, r => InFilter(f, r, w), (a: Finding, b: Finding) => a.id != b.id);
    MapAt(Filtered(rows, f, w), KeyOf);
  }

  // The keys of a page of List sorted by first_seen are selected from the filter's keys.
  lemma ShownKeys(s: Snapshot, q: Request, out: seq<Key>)
    requires SortColumnOf(q.sortField) == FirstSeen
    requires q.cursor == if out == [] then NoCursor else At(out[|out| - 1])
    ensures Keys(Shown(s.rows, s.w, q)) ==
            Select(Keys(Filtered(s.rows, q.filter, s.w)), k => After(out, KeyOrder(q.ascending), k),
              KeyOrder(q.ascending), PageLimit(q.limit, MAX_LIMIT))
  {
    var kept, order := Filtered(s.rows, q.filter, s.w), RowOrder(FirstSeen, q.ascending);
    var beyond := (r: Finding) => Beyond(q, r);
    WhereWhere(s.rows, r => InFilter(q.filter, r, s.w), beyond, r => InFilter(q.filter, r, s.w) && Beyond(q, r));
    assert Shown(s.rows, s.w, q) == Select(kept, beyond, order, PageLimit(q.limit, MAX_LIMIT));
    MapSelect(kept, KeyOf, beyond, k => After(out, KeyOrder(q.ascending), k), order,
      KeyOrder(q.ascending), PageLimit(q.limit, MAX_LIMIT));
  }

  // A page of List, sorted by first_seen, is a page of the filter's keys.
  lemma ShownIsPage(s: Snapshot, q: Request, out: seq<Key>)
    requires DistinctIDs(s.rows)
    requires SortColumnOf(q.sortField) == FirstSeen
    requires q.cursor == if out == [] then NoCursor else At(out[|out| - 1])
    ensures var page := Shown(s.rows, s.w, q);
            IsPage(Keys(Filtered(s.rows, q.filter, s.w)), k => After(out, KeyOrder(q.ascending), k),
              KeyOrder(q.ascending), Keys(page), |page| == PageLimit(q.limit, MAX_LIMIT))
  {
    var table, less := Keys(Filtered(s.rows, q.filter, s.w)), KeyOrder(q.ascending);
    ShownKeys(s, q, out);
    MapAt(Shown(s.rows, s.w, q), KeyOf);
    KeyOrderStrict(q.ascending);
    FilteredKeysDistinct(s.rows, q.filter, s.w);
    DistinctComparable(table, less);
    FullPage(table, k => After(out, less, k), less, PageLimit(q.limit, MAX_LIMIT));
  }

  lemma KeyDrainStep(seen: seq<seq<Key>>, out: seq<Key>, s: Snapshot, q: Request)
    requires DistinctIDs(s.rows)
    requires SortColumnOf(q.sortField) == FirstSeen
    requires q.cursor == if out == [] then NoCursor else At(out[|out| - 1])
    requires Drained(seen, out, KeyOrder(q.ascending), false)
    ensures var page := Shown(s.rows, s.w, q);
            Drained(seen + [Keys(Filtered(s.rows, q.filter, s.w))], out + Keys(page),
              KeyOrder(q.ascending), |page| != PageLimit(q.limit, MAX_LIMIT))
  {
    KeyOrderStrict(q.ascending);
    ShownIsPage(s, q, out);
    var page := Shown(s.rows, s.w, q);
    DrainStep(seen, out, KeyOrder(q.ascending), Keys(Filtered(s.rows, q.filter, s.w)), Keys(page),
      |page| == PageLimit(q.limit, MAX_LIMIT));
  }

  ghost predicate AllDistinct(views: seq<Snapshot>) {
    forall i :: 0 <= i < |views| ==> DistinctIDs(views[i].rows)
  }

  // One page of the loop: what was out before, followed by the page, is what drains the
  // views so far.
  lemma ExportStep(views: seq<Snapshot>, i: nat, q: Request, out: seq<Finding>)
    requires i < |views| && AllDistinct(views)
    requires SortColumnOf(q.sortField) == FirstSeen
    requires q.cursor == if out == [] then NoCursor else At(KeyOf(out[|out| - 1]))
    requires Drained(Seen(views[..i], q.filter), Keys(out), KeyOrder(q.ascending), false)
    ensures var page := Shown(views[i].rows, views[i].w, q);
            Drained(Seen(views[..i + 1], q.filter), Keys(out + page), KeyOrder(q.ascending),
              |page| != PageLimit(q.limit, MAX_LIMIT))
  {
    var page := Shown(views[i].rows, views[i].w, q);
    MapAt(out, KeyOf);
    KeyDrainStep(Seen(views[..i], q.filter), Keys(out), views[i], q);
    MapAppend(out, page, KeyOf);
    assert views[..i + 1][..i] == views[..i];
  }

  // Nobody writes to the findings while they are read.
  ghost predicate Resting(views: seq<Snapshot>) {
    views != [] && forall i :: 0 <= i < |views| ==> views[i] == views[0]
  }

  // Over any run of page views, whatever changes in between: sorted by first_seen the
  // export returns keys in order, none twice; and once the loop ends, every key the
  // filter selected at every view is there. From findings at rest it returns the whole
  // filtered set in order, and ends.
  method CollectFindings(views: seq<Snapshot>, q0: Request) returns (out: seq<Finding>, done: bool, used: nat)
    requires AllDistinct(views)
    ensures used <= |views| && (views != [] ==> used > 0)
    ensures !done ==> used == |views| && |out| == EXPORT_BATCH_SIZE * used
    ensures SortColumnOf(q0.sortField) == FirstSeen ==>
              Drained(Seen(views[..used], q0.filter), Keys(out), KeyOrder(q0.ascending), done)
    ensures SortColumnOf(q0.sortField) == FirstSeen && Resting(views) ==> ExportsAll(views, q0, out, done)
  {
    var q := q0.(limit := EXPORT_BATCH_SIZE, cursor := NoCursor);
    out, done, used := [], false, 0;
    assert Seen(views[..0], q0.filter) == [] && Keys([]) == [];
    while used < |views| && !done
      invariant used <= |views| && (done ==> used > 0)
      invariant !done ==> |out| == EXPORT_BATCH_SIZE * used
      invariant q == q0.(limit := EXPORT_BATCH_SIZE, cursor := q.cursor)
      invariant !done ==> q.cursor == if out == [] then NoCursor else At(KeyOf(out[|out| - 1]))
      invariant SortColumnOf(q0.sortField) == FirstSeen ==>
                  Drained(Seen(views[..used], q0.filter), Keys(out), KeyOrder(q0.ascending), done)
      decreases |views| - used
    {
      var r := List(views[used].rows, views[used].rows, views[used].w, q);
      var batch, next := r.value.findings, r.value.next;
      if SortColumnOf(q0.sortField) == FirstSeen {
        ExportStep(views, used, q, out);
      }
      used := used + 1;
      if |batch| == 0 {
        done := true;
        assert out + batch == out;
      } else {
        out := out + batch;
        if next.NoCursor? {
          done := true;
        } else {
          q := q.(cursor := next);
        }
      }
    }
    if SortColumnOf(q0.sortField) == FirstSeen && Resting(views) {
      StaticExport(views[0], views[..used], q0, out, done);
    }
  }

  // The loop ends if it gets enough pages, and then it has the filtered set in order.
  ghost predicate ExportsAll(views: seq<Snapshot>, q: Request, out: seq<Finding>, done: bool)
    requires views != []
  {
    var s := views[0];
    && (|views| * EXPORT_BATCH_SIZE > |s.rows| ==> done)
    && (done ==> Keys(out) == OrderBy(Keys(Filtered(s.rows, q.filter, s.w)), KeyOrder(q.ascending)))
  }

  // With no writers the loop ends, and then the export is the whole filtered set in order.
  lemma {:induction false} StaticExport(s: Snapshot, views: seq<Snapshot>, q: Request, out: seq<Finding>, done: bool)
    requires DistinctIDs(s.rows)
    requires views != [] && forall i :: 0 <= i < |views| ==> views[i] == s
    requires done || |out| == |views| * EXPORT_BATCH_SIZE
    requires Drained(Seen(views, q.filter), Keys(out), KeyOrder(q.ascending), done)
    ensures |views| * EXPORT_BATCH_SIZE > |s.rows| ==> done
    ensures done ==> Keys(out) == OrderBy(Keys(Filtered(s.rows, q.filter, s.w)), KeyOrder(q.ascending))
  {
    var seen, less := Seen(views, q.filter), KeyOrder(q.ascending);
    var table := Keys(Filtered(s.rows, q.filter, s.w));
    KeyOrderStrict(q.ascending);
    SeenStatic(s, views, q.filter);
    WhereIn(s.rows, r => InFilter(q.filter, r, s.w));
    MapAt(Filtered(s.rows, q.filter, s.w), KeyOf);
    MapAt(out, KeyOf);
    forall k | k in Keys(out) ensures k in table {
      assert InSome(seen, k);
    }
    SortedSelectionIsShort(Keys(out), table, less);
    FilteredKeysDistinct(s.rows, q.filter, s.w);
    if done {
      DrainOfStaticTable(table, seen, Keys(out), less);
    }
  }

  lemma {:induction false} SeenStatic(s: Snapshot, views: seq<Snapshot>, f: Filter)
    requires forall i :: 0 <= i < |views| ==> views[i] == s
    ensures |Seen(views, f)| == |views|
    ensures forall i :: 0 <= i < |views| ==> Seen(views, f)[i] == Keys(Filtered(s.rows, f, s.w))
  {
    if views != [] {
      SeenStatic(s, views[..|views| - 1], f);
    }
  }

  ghost predicate SteadyFirstSeen(views: seq<Snapshot>) {
    forall i, j, a, b | 0 <= i < |views| && 0 <= j < |views| && a in views[i].rows && b in views[j].rows ::
      a.id == b.id ==> a.firstSeen == b.firstSeen
  }

  // first_seen of a finding never changes (the upsert keeps it), so no finding is
  // exported twice however often its other columns change.
  lemma {:induction false} NoFindingTwice(views: seq<Snapshot>, q: Request, out: seq<Finding>, done: bool)
    requires Drained(Seen(views, q.filter), Keys(out), KeyOrder(q.ascending), done)
    requires SteadyFirstSeen(views)
    ensures DistinctIDs(out)
  {
    MapAt(out, KeyOf);
    forall i, j | 0 <= i < j < |out| ensures out[i].id != out[j].id {
      assert KeyOrder(q.ascending)(Keys(out)[i], Keys(out)[j]);
      var v, a := Origin(views, q.filter, KeyOf(out[i]), Keys(out)[i]);
      var u, b := Origin(views, q.filter, KeyOf(out[j]), Keys(out)[j]);
    }
  }

  lemma {:induction false} Origin(views: seq<Snapshot>, f: Filter, k: Key, k': Key) returns (i: nat, r: Finding)
    requires k == k' && InSome(Seen(views, f), k)
    ensures i < |views| && r in views[i].rows && KeyOf(r) == k
  {
    var n := |views| - 1;
    var v := views[n];
    if k in Keys(Filtered(v.rows, f, v.w)) {
      i := n;
      r := MapIn(Filtered(v.rows, f, v.w), KeyOf, k);
      WhereIn(v.rows, x => InFilter(f, x, v.w));
    } else {
      var seen := Seen(views[..n], f);
      var j :| 0 <= j < |Seen(views, f)| && k in Seen(views, f)[j];
      assert j < |seen| && seen[j] == Seen(views, f)[j];
      i, r := Origin(views[..n], f, k, k');
    }
  }

  // The cursor always compares (first_seen, id). It selects what follows the cursor row
  // in the ORDER BY, for every two findings, exactly when the sort column is first_seen.
  lemma CursorFollowsOrder(col: SortColumn, ascending: bool)
    ensures (forall a: Finding, b: Finding :: a.id != b.id ==>
              (KeyBeyond(ascending, KeyOf(a), KeyOf(b)) <==> RowLess(col, ascending, a, b))) <==>
            col == FirstSeen
  {
    if col != FirstSeen {
      var a, b := Sample(1, 2, 2), Sample(2, 1, 1);
      assert KeyBeyond(ascending, KeyOf(a), KeyOf(b)) != RowLess(col, ascending, a, b);
    }
  }

  // A finding first seen, last seen and graded as given.
  function Sample(id: Uuid, last: Time, grade: nat): Finding {
    Finding(id, id, last, grade, 0, 0, 0, "", None, None, None, None, None, None, None, None, None, None, None,
            Some(grade as real))
  }

  const NO_FILTER := Filter(None, NIL, [], [], [], None, None, None, None, None, None, None, [], [], [], [], [], "",
                            "", "", [], None, false, "", "", 0)

  // Sorted by severity, a finding that List counts can be on no page: the page that
  // follows the only row of the first one is empty.
  lemma SeveritySortLosesFinding(w: World)
    ensures var rows := [Sample(1, 0, 2), Sample(2, 0, 1)];
            var q := Request(NO_FILTER, 1, NoCursor, "severity", false);
            && Total(rows, NO_FILTER, w) == 2
            && Shown(rows, w, q) == [rows[0]]
            && Shown(rows, w, q.(cursor := At(KeyOf(rows[0])))) == []
  {
    var a, b := Sample(1, 0, 2), Sample(2, 0, 1);
    assert InFilter(NO_FILTER, a, w) && InFilter(NO_FILTER, b, w);
    var q := Request(NO_FILTER, 1, NoCursor, "severity", false);
    assert [a, b][1..] == [b] && [b][1..] == [];
    assert Filtered([], NO_FILTER, w) == [] && FilteredBeyond([], q, w) == [];
    assert Filtered([b], NO_FILTER, w) == [b];
    assert Filtered([a, b], NO_FILTER, w) == [a, b];
    assert FilteredBeyond([b], q, w) == [b];
    assert FilteredBeyond([a, b], q, w) == [a, b];
  }
}
