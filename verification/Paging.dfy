/** Keyset paging: what SELECT ... WHERE key > cursor ORDER BY key LIMIT n returns,
    and what a loop that drains such pages collects while other writers change the
    table between the reads. */
module Paging {

  // ---- The SELECT statement ------------------------------------------------

  function Where<T>(rows: seq<T>, p: T -> bool): seq<T> {
    if rows == [] then []
    else if p(rows[0]) then [rows[0]] + Where(rows[1..], p)
    else Where(rows[1..], p)
  }

  function Insert<T>(x: T, rows: seq<T>, less: (T, T) -> bool): seq<T> {
    if rows == [] then [x]
    else if less(rows[0], x) then [rows[0]] + Insert(x, rows[1..], less)
    else [x] + rows
  }

  function OrderBy<T>(rows: seq<T>, less: (T, T) -> bool): seq<T> {
    if rows == [] then [] else Insert(rows[0], OrderBy(rows[1..], less), less)
  }

  function Limit<T>(rows: seq<T>, n: nat): seq<T> {
    if |rows| <= n then rows else rows[..n]
  }

  function Select<T>(rows: seq<T>, p: T -> bool, less: (T, T) -> bool, n: nat): seq<T> {
    Limit(OrderBy(Where(rows, p), less), n)
  }

  // A limit that is missing or out of range becomes 50.
  function PageLimit(limit: int, max: nat): (n: nat)
    ensures 1 <= n
    ensures 1 <= limit <= max ==> n == limit
  {
    if limit <= 0 || limit > max then 50 else limit
  }

  // ---- Orders and sorted sequences -----------------------------------------

  ghost predicate Transitive<T(!new)>(less: (T, T) -> bool) {
    forall a, b, c :: less(a, b) && less(b, c) ==> less(a, c)
  }

  ghost predicate StrictOrder<T(!new)>(less: (T, T) -> bool) {
    && (forall a :: !less(a, a))
    && (forall a, b :: a == b || less(a, b) || less(b, a))
    && Transitive(less)
  }

  // No two rows tie, as when the key ends in the primary key.
  ghost predicate Comparable<T>(rows: seq<T>, less: (T, T) -> bool) {
    forall i, j :: 0 <= i < j < |rows| ==> less(rows[i], rows[j]) || less(rows[j], rows[i])
  }

  ghost predicate Sorted<T>(rows: seq<T>, less: (T, T) -> bool) {
    forall i, j :: 0 <= i < j < |rows| ==> less(rows[i], rows[j])
  }

  ghost predicate Distinct<T>(rows: seq<T>) {
    forall i, j :: 0 <= i < j < |rows| ==> rows[i] != rows[j]
  }

  lemma {:induction false} WhereIn<T(!new)>(rows: seq<T>, p: T -> bool)
    ensures |Where(rows, p)| <= |rows|
    ensures forall x :: x in Where(rows, p) <==> x in rows && p(x)
  {
    if rows != [] {
      WhereIn(rows[1..], p);
      assert rows == [rows[0]] + rows[1..];
    }
  }

  lemma {:induction false} WhereAgrees<T(!new)>(rows: seq<T>, p: T -> bool, q: T -> bool)
    requires forall x :: x in rows ==> p(x) == q(x)
    ensures Where(rows, p) == Where(rows, q)
  {
    if rows != [] {
      assert rows[0] in rows;
      WhereAgrees(rows[1..], p, q);
    }
  }

  lemma {:induction false} WhereWhere<T(!new)>(rows: seq<T>, p: T -> bool, q: T -> bool, both: T -> bool)
    requires forall x :: x in rows ==> both(x) == (p(x) && q(x))
    ensures Where(Where(rows, p), q) == Where(rows, both)
  {
    if rows != [] {
      assert rows[0] in rows;
      WhereWhere(rows[1..], p, q, both);
      if p(rows[0]) {
        assert ([rows[0]] + Where(rows[1..], p))[1..] == Where(rows[1..], p);
      }
    }
  }

  lemma {:induction false} WhereComparable<T(!new)>(rows: seq<T>, p: T -> bool, less: (T, T) -> bool)
    requires Comparable(rows, less)
    ensures Comparable(Where(rows, p), less)
  {
    if rows != [] {
      WhereComparable(rows[1..], p, less);
      WhereIn(rows[1..], p);
      forall x | x in Where(rows[1..], p) ensures less(rows[0], x) || less(x, rows[0]) {
        assert x in rows[1..];
      }
    }
  }

  lemma {:induction false} InsertIn<T(!new)>(x: T, rows: seq<T>, less: (T, T) -> bool)
    ensures forall y :: y in Insert(x, rows, less) <==> y == x || y in rows
    ensures |Insert(x, rows, less)| == |rows| + 1
  {
    if rows != [] {
      InsertIn(x, rows[1..], less);
      assert rows == [rows[0]] + rows[1..];
    }
  }

  lemma {:induction false} OrderByIn<T(!new)>(rows: seq<T>, less: (T, T) -> bool)
    ensures forall x :: x in OrderBy(rows, less) <==> x in rows
    ensures |OrderBy(rows, less)| == |rows|
  {
    if rows != [] {
      OrderByIn(rows[1..], less);
      InsertIn(rows[0], OrderBy(rows[1..], less), less);
      assert rows == [rows[0]] + rows[1..];
    }
  }

  lemma {:induction false} InsertSorted<T(!new)>(x: T, rows: seq<T>, less: (T, T) -> bool)
    requires Transitive(less) && Sorted(rows, less)
    requires forall y :: y in rows ==> less(x, y) || less(y, x)
    ensures Sorted(Insert(x, rows, less), less)
  {
    if rows != [] {
      assert rows[0] in rows;
      if less(rows[0], x) {
        InsertSorted(x, rows[1..], less);
        InsertIn(x, rows[1..], less);
        forall y | y in Insert(x, rows[1..], less) ensures less(rows[0], y) {}
      }
    }
  }

  // SELECT's result is the sorted matching rows.
  lemma {:induction false} OrderBySorts<T(!new)>(rows: seq<T>, less: (T, T) -> bool)
    requires Transitive(less) && Comparable(rows, less)
    ensures Sorted(OrderBy(rows, less), less)
    ensures |OrderBy(rows, less)| == |rows|
    ensures forall x :: x in OrderBy(rows, less) <==> x in rows
  {
    OrderByIn(rows, less);
    if rows != [] {
      OrderBySorts(rows[1..], less);
      InsertSorted(rows[0], OrderBy(rows[1..], less), less);
    }
  }

  lemma DistinctComparable<T(!new)>(rows: seq<T>, less: (T, T) -> bool)
    requires StrictOrder(less) && Distinct(rows)
    ensures Comparable(rows, less)
  {
  }

  // A strictly sorted sequence is determined by its elements.
  lemma {:induction false} SortedUnique<T(!new)>(a: seq<T>, b: seq<T>, less: (T, T) -> bool)
    requires StrictOrder(less) && Sorted(a, less) && Sorted(b, less)
    requires forall x :: x in a <==> x in b
    ensures a == b
  {
    if a != [] { assert a[0] in b; }
    if b != [] { assert b[0] in a; }
    if a != [] && b != [] {
      assert a[0] == b[0];
      assert a == [a[0]] + a[1..] && b == [b[0]] + b[1..];
      assert a[0] !in a[1..] && b[0] !in b[1..];
      forall x ensures x in a[1..] <==> x in b[1..] {
        assert x in a <==> x in b;
      }
      SortedUnique(a[1..], b[1..], less);
    }
  }

  // ---- Rows and their keys ---------------------------------------------------

  function Map<R, K>(rows: seq<R>, key: R -> K): seq<K> {
    if rows == [] then [] else [key(rows[0])] + Map(rows[1..], key)
  }

  lemma {:induction false} MapAt<R, K>(rows: seq<R>, key: R -> K)
    ensures |Map(rows, key)| == |rows|
    ensures forall i :: 0 <= i < |rows| ==> Map(rows, key)[i] == key(rows[i])
  {
    if rows != [] {
      MapAt(rows[1..], key);
      assert forall i :: 0 < i < |rows| ==> rows[i] == rows[1..][i - 1];
    }
  }

  lemma {:induction false} MapAppend<R, K>(a: seq<R>, b: seq<R>, key: R -> K)
    ensures Map(a + b, key) == Map(a, key) + Map(b, key)
  {
    if a == [] {
      assert a + b == b;
    } else {
      MapAppend(a[1..], b, key);
      MapFirst(a, b, key);
    }
  }

  lemma {:induction false} MapFirst<R, K>(a: seq<R>, b: seq<R>, key: R -> K)
    requires a != []
    ensures Map(a + b, key) == [key(a[0])] + Map(a[1..] + b, key)
  {
    assert (a + b)[1..] == a[1..] + b;
  }

  lemma {:induction false} MapWhere<R(!new), K>(rows: seq<R>, key: R -> K, p: R -> bool, q: K -> bool)
    requires forall r :: r in rows ==> p(r) == q(key(r))
    ensures Map(Where(rows, p), key) == Where(Map(rows, key), q)
  {
    if rows != [] {
      assert rows[0] in rows;
      MapWhere(rows[1..], key, p, q);
    }
  }

  lemma {:induction false} MapInsert<R(!new), K>(
    x: R, rows: seq<R>, key: R -> K, less: (R, R) -> bool, kless: (K, K) -> bool)
    requires forall a, b :: less(a, b) == kless(key(a), key(b))
    ensures Map(Insert(x, rows, less), key) == Insert(key(x), Map(rows, key), kless)
  {
    if rows != [] {
      MapInsert(x, rows[1..], key, less, kless);
    }
  }

  lemma {:induction false} MapOrderBy<R(!new), K>(
    rows: seq<R>, key: R -> K, less: (R, R) -> bool, kless: (K, K) -> bool)
    requires forall a, b :: less(a, b) == kless(key(a), key(b))
    ensures Map(OrderBy(rows, less), key) == OrderBy(Map(rows, key), kless)
  {
    if rows != [] {
      MapOrderBy(rows[1..], key, less, kless);
      MapInsert(rows[0], OrderBy(rows[1..], less), key, less, kless);
    }
  }

  lemma {:induction false} MapLimit<R, K>(rows: seq<R>, key: R -> K, n: nat)
    ensures Map(Limit(rows, n), key) == Limit(Map(rows, key), n)
  {
    MapAt(rows, key);
    MapAt(Limit(rows, n), key);
  }

  // When the order and the condition look only at the key, the keys of the selected
  // rows are the selected keys.
  lemma {:induction false} MapSelect<R(!new), K>(
    rows: seq<R>, key: R -> K, p: R -> bool, q: K -> bool, less: (R, R) -> bool, kless: (K, K) -> bool, n: nat)
    requires forall r :: r in rows ==> p(r) == q(key(r))
    requires forall a, b :: less(a, b) == kless(key(a), key(b))
    ensures Map(Select(rows, p, less, n), key) == Select(Map(rows, key), q, kless, n)
  {
    MapWhere(rows, key, p, q);
    MapOrderBy(Where(rows, p), key, less, kless);
    MapLimit(OrderBy(Where(rows, p), less), key, n);
  }

  lemma MapIn<R, K>(rows: seq<R>, key: R -> K, k: K) returns (r: R)
    requires k in Map(rows, key)
    ensures r in rows && key(r) == k
  {
    MapAt(rows, key);
    var i :| 0 <= i < |Map(rows, key)| && Map(rows, key)[i] == k;
    r := rows[i];
  }

  // ---- One page ------------------------------------------------------------

  // What a caller relies on: the page is a sorted run of admitted rows, and an
  // admitted row it lacks lies beyond its end and is announced by more.
  ghost predicate IsPage<K>(
    table: seq<K>, admit: K -> bool, less: (K, K) -> bool, page: seq<K>, more: bool)
  {
    && Sorted(page, less)
    && (forall k :: k in page ==> k in table && admit(k))
    && (more ==> page != [])
    && (forall k :: k in table && admit(k) && k !in page ==>
          more && less(page[|page| - 1], k))
  }

  lemma {:induction false} PrefixIsPage<K(!new)>(
    table: seq<K>, admit: K -> bool, less: (K, K) -> bool, n: nat, more: bool)
    requires Transitive(less) && Comparable(table, less)
    requires 1 <= n
    requires var all := OrderBy(Where(table, admit), less);
             (|all| > n ==> more) && (more ==> all != [])
    ensures IsPage(table, admit, less, Select(table, admit, less, n), more)
  {
    var all := OrderBy(Where(table, admit), less);
    WhereComparable(table, admit, less);
    WhereIn(table, admit);
    OrderBySorts(Where(table, admit), less);
    var page := Limit(all, n);
    forall k | k in table && admit(k) && k !in page
      ensures more && less(page[|page| - 1], k)
    {
      assert k in all;
      var i :| 0 <= i < |all| && all[i] == k;
      assert i >= n;
      assert page[|page| - 1] == all[n - 1];
    }
  }

  // The page that asks for n rows and offers a cursor exactly when it gets all n.
  lemma FullPage<K(!new)>(table: seq<K>, admit: K -> bool, less: (K, K) -> bool, n: nat)
    requires Transitive(less) && Comparable(table, less) && 1 <= n
    ensures var page := Select(table, admit, less, n);
            IsPage(table, admit, less, page, |page| == n)
  {
    PrefixIsPage(table, admit, less, n, |Select(table, admit, less, n)| == n);
  }

  // A limit as large as the table does not cut.
  lemma {:induction false} UncutSelect<K(!new)>(table: seq<K>, admit: K -> bool, less: (K, K) -> bool, n: nat)
    requires n >= |table|
    ensures Select(table, admit, less, n) == OrderBy(Where(table, admit), less)
  {
    WhereIn(table, admit);
    OrderByIn(Where(table, admit), less);
  }

  // ---- Draining pages while the table changes --------------------------------

  // The rows a page may return after the rows in out: all of them at the start,
  // then those that follow the last row returned.
  predicate After<K>(out: seq<K>, follows: (K, K) -> bool, k: K) {
    out == [] || follows(out[|out| - 1], k)
  }

  ghost predicate InAll<K>(tables: seq<seq<K>>, k: K) {
    forall i :: 0 <= i < |tables| ==> k in tables[i]
  }

  ghost predicate InSome<K>(tables: seq<seq<K>>, k: K) {
    exists i :: 0 <= i < |tables| && k in tables[i]
  }

  // out was read from the tables seen so far, each row once and in order.
  ghost predicate ReadOnce<K>(seen: seq<seq<K>>, out: seq<K>, less: (K, K) -> bool) {
    Sorted(out, less) && forall k :: k in out ==> InSome(seen, k)
  }

  // Rows that were there at every read and do not lie beyond the last row returned
  // have been returned.
  ghost predicate NothingSkipped<K(!new)>(seen: seq<seq<K>>, out: seq<K>, less: (K, K) -> bool) {
    forall k :: InAll(seen, k) && out != [] && !less(out[|out| - 1], k) ==> k in out
  }

  ghost predicate Sound<K(!new)>(follows: (K, K) -> bool, less: (K, K) -> bool) {
    forall a, b :: follows(a, b) ==> less(a, b)
  }

  lemma DrainReadsOnce<K(!new)>(
    seen: seq<seq<K>>, out: seq<K>, less: (K, K) -> bool, follows: (K, K) -> bool,
    table: seq<K>, page: seq<K>, more: bool)
    requires Transitive(less) && Sound(follows, less)
    requires ReadOnce(seen, out, less)
    requires IsPage(table, k => After(out, follows, k), less, page, more)
    ensures ReadOnce(seen + [table], out + page, less)
  {
    var next := out + page;
    forall i, j | 0 <= i < j < |next| ensures less(next[i], next[j]) {
      if i < |out| <= j {
        assert next[j] in page;
        assert less(out[|out| - 1], next[j]);
      }
    }
    forall k | k in next ensures InSome(seen + [table], k) {
      if k in out {
        var i :| 0 <= i < |seen| && k in seen[i];
        assert (seen + [table])[i] == seen[i];
      } else {
        assert (seen + [table])[|seen|] == table;
      }
    }
  }

  lemma DrainSkipsNothing<K(!new)>(
    seen: seq<seq<K>>, out: seq<K>, less: (K, K) -> bool, follows: (K, K) -> bool,
    table: seq<K>, page: seq<K>, more: bool)
    requires StrictOrder(less) && NothingSkipped(seen, out, less)
    requires out != [] ==> forall k :: k in table ==> (follows(out[|out| - 1], k) <==> less(out[|out| - 1], k))
    requires IsPage(table, k => After(out, follows, k), less, page, more)
    ensures NothingSkipped(seen + [table], out + page, less)
    ensures !more ==> forall k :: InAll(seen + [table], k) ==> k in out + page
  {
    forall k | InAll(seen + [table], k) && k !in out + page
      ensures more && out + page != [] && less((out + page)[|out + page| - 1], k)
    {
      assert (seen + [table])[|seen|] == table;
      assert InAll(seen, k) by {
        forall i | 0 <= i < |seen| ensures k in seen[i] {
          assert (seen + [table])[i] == seen[i];
        }
      }
      assert After(out, follows, k);
      assert k in table && k !in page;
    }
  }

  // The state of a drain loop: what it returned is in order and without repeats, and it
  // has skipped nothing; once done it has everything that was there at every read.
  ghost predicate Drained<K(!new)>(seen: seq<seq<K>>, out: seq<K>, less: (K, K) -> bool, done: bool) {
    && ReadOnce(seen, out, less)
    && (if done then forall k :: InAll(seen, k) ==> k in out else NothingSkipped(seen, out, less))
  }

  lemma DrainStep<K(!new)>(
    seen: seq<seq<K>>, out: seq<K>, less: (K, K) -> bool, table: seq<K>, page: seq<K>, more: bool)
    requires StrictOrder(less) && Drained(seen, out, less, false)
    requires IsPage(table, k => After(out, less, k), less, page, more)
    ensures Drained(seen + [table], out + page, less, !more)
  {
    DrainReadsOnce(seen, out, less, less, table, page, more);
    DrainSkipsNothing(seen, out, less, less, table, page, more);
  }

  // With no writers the pages add up to the sorted table.
  lemma {:induction false} DrainOfStaticTable<K(!new)>(
    table: seq<K>, seen: seq<seq<K>>, out: seq<K>, less: (K, K) -> bool)
    requires StrictOrder(less) && Distinct(table)
    requires seen != [] && forall i :: 0 <= i < |seen| ==> seen[i] == table
    requires ReadOnce(seen, out, less)
    requires forall k :: InAll(seen, k) ==> k in out
    ensures out == OrderBy(table, less)
  {
    DistinctComparable(table, less);
    OrderBySorts(table, less);
    forall k ensures k in out <==> k in OrderBy(table, less) {
      if k in out { assert InSome(seen, k); }
      if k in table { assert InAll(seen, k); }
    }
    SortedUnique(out, OrderBy(table, less), less);
  }

  // A sorted selection of a table's rows is no longer than the table.
  lemma {:induction false} SortedSelectionIsShort<K(!new)>(out: seq<K>, table: seq<K>, less: (K, K) -> bool)
    requires StrictOrder(less) && Sorted(out, less)
    requires forall k :: k in out ==> k in table
    ensures |out| <= |table|
  {
    if out != [] {
      var k := out[0];
      assert k in table;
      var i :| 0 <= i < |table| && table[i] == k;
      var rest := table[..i] + table[i + 1..];
      forall x | x in out[1..] ensures x in rest {
        assert x in out && x != k;
        var j :| 0 <= j < |table| && table[j] == x;
        if j < i { assert rest[j] == x; } else { assert rest[j - 1] == x; }
      }
      SortedSelectionIsShort(out[1..], rest, less);
    }
  }
}
