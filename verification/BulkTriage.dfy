/** ApplyBulkTriageAction: one goroutine a finding, at most ten at a time, each a
    transaction under a row lock. */
module BulkTriage {
  import opened Common
  import opened Triage

  const WORKERS := 10

  // Where a goroutine is. It holds its row's lock in Locked and Decided.
  datatype Phase =
    | Waiting
    | Started
    | Locked(row: Finding)
    | Decided(row: Finding, event: Event)
    | Ended(err: Option<Failure>)
    | Recorded(err: Option<Failure>)

  // order lists the goroutines whose transactions are over, in that order.
  datatype State = State(
    db: Db, phases: seq<Phase>, locks: map<Uuid, nat>, succeeded: seq<Uuid>, failed: map<Uuid, Failure>,
    order: seq<nat>)

  function Idle(n: nat): (r: seq<Phase>)
    ensures |r| == n && forall i :: 0 <= i < n ==> r[i] == Waiting
  {
    if n == 0 then [] else Idle(n - 1) + [Waiting]
  }

  function Init(db: Db, n: nat): State {
    State(db, Idle(n), map[], [], map[], [])
  }

  predicate IsActive(p: Phase) {
    !p.Waiting? && !p.Recorded?
  }

  function Active(phases: seq<Phase>): nat {
    if phases == [] then 0
    else Active(phases[..|phases| - 1]) + if IsActive(phases[|phases| - 1]) then 1 else 0
  }

  // Goroutines are launched in order; the next one waits for a free slot. One that needs
  // a locked row waits for the lock.
  predicate Enabled(calls: seq<Call>, s: State, i: nat)
    requires |s.phases| == |calls|
  {
    && i < |calls|
    && match s.phases[i]
       case Waiting => (i > 0 ==> !s.phases[i - 1].Waiting?) && Active(s.phases) < WORKERS
       case Started => calls[i].fault == AtBegin || calls[i].findingID !in s.locks
       case Recorded(_) => false
       case _ => true
  }

  // The transaction is over: its lock is free and its error is known.
  function End(s: State, i: nat, id: Uuid, err: Option<Failure>): State
    requires i < |s.phases|
  {
    s.(phases := s.phases[i := Ended(err)], order := s.order + [i],
       locks := if id in s.locks && s.locks[id] == i then s.locks - {id} else s.locks)
  }

  // One step of goroutine i.
  function Next(calls: seq<Call>, s: State, i: nat): State
    requires |s.phases| == |calls| && Enabled(calls, s, i)
  {
    var c := calls[i];
    match s.phases[i]
    case Waiting => s.(phases := s.phases[i := Started])
    case Started =>
      if c.fault == AtBegin then End(s, i, c.findingID, Some(Storage))
      else if c.findingID !in s.db.findings then End(s, i, c.findingID, Some(NotFound))
      else
        s.(phases := s.phases[i := Locked(s.db.findings[c.findingID])], locks := s.locks[c.findingID := i])
    case Locked(row) =>
      var r := Effect(Some(row), c);
      if r.Err? then End(s, i, c.findingID, Some(r.error))
      else s.(phases := s.phases[i := Decided(r.value.0, r.value.1)])
    case Decided(row, event) =>
      End(s.(db := Db(s.db.findings[c.findingID := row], s.db.events + [event])), i, c.findingID, None)
    case Ended(err) =>
      if err.Some? then
        s.(phases := s.phases[i := Recorded(err)], failed := s.failed[c.findingID := err.value])
      else s.(phases := s.phases[i := Recorded(err)], succeeded := s.succeeded + [c.findingID])
    case Recorded(_) => s
  }

  // A schedule names the goroutine that tries to move at each moment; one that is not
  // enabled stays where it is.
  function Exec(db: Db, calls: seq<Call>, schedule: seq<nat>): (s: State)
    ensures |s.phases| == |calls|
  {
    if schedule == [] then Init(db, |calls|)
    else
      var s := Exec(db, calls, schedule[..|schedule| - 1]);
      var i := schedule[|schedule| - 1];
      if Enabled(calls, s, i) then Next(calls, s, i) else s
  }

  // ---- Every schedule is serializable -----------------------------------------------------

  predicate Indices(order: seq<nat>, n: nat) {
    forall k :: 0 <= k < |order| ==> order[k] < n
  }

  // The calls applied one after another in the given order.
  function Fold(db: Db, calls: seq<Call>, order: seq<nat>): Db
    requires Indices(order, |calls|)
  {
    if order == [] then db
    else Commit(Fold(db, calls, order[..|order| - 1]), calls[order[|order| - 1]])
  }

  function ErrorOf(row: Option<Finding>, c: Call): Option<Failure> {
    if Effect(row, c).Err? then Some(Effect(row, c).error) else None
  }

  predicate Over(p: Phase) {
    p.Ended? || p.Recorded?
  }

  predicate HasLock(p: Phase) {
    p.Locked? || p.Decided?
  }

  // A lock has the one holder whose finding it is.
  ghost predicate LocksAgree(calls: seq<Call>, s: State)
    requires |s.phases| == |calls|
  {
    && (forall id :: id in s.locks ==>
          s.locks[id] < |calls| && HasLock(s.phases[s.locks[id]]) && calls[s.locks[id]].findingID == id)
    && (forall i :: 0 <= i < |calls| && HasLock(s.phases[i]) ==>
          calls[i].findingID in s.locks && s.locks[calls[i].findingID] == i)
  }

  // What a lock holder read is still there, and what it decided follows from it.
  predicate Current(db: Db, c: Call, p: Phase) {
    match p
    case Locked(row) => RowOf(db, c.findingID) == Some(row) && c.fault != AtBegin
    case Decided(row, event) => Effect(RowOf(db, c.findingID), c) == Ok((row, event))
    case _ => true
  }

  ghost predicate AllCurrent(calls: seq<Call>, s: State)
    requires |s.phases| == |calls|
  {
    forall i :: 0 <= i < |calls| ==> Current(s.db, calls[i], s.phases[i])
  }

  // The order lists each finished goroutine once.
  ghost predicate OrderLists(calls: seq<Call>, s: State)
    requires |s.phases| == |calls|
  {
    && Indices(s.order, |calls|)
    && (forall j, k :: 0 <= j < k < |s.order| ==> s.order[j] != s.order[k])
    && (forall i: nat :: i < |calls| ==> (Over(s.phases[i]) <==> i in s.order))
  }

  // The goroutine listed at k got the error it gets in that order.
  predicate OutcomeAt(db: Db, calls: seq<Call>, s: State, k: nat)
    requires |s.phases| == |calls| && Indices(s.order, |calls|) && k < |s.order|
  {
    var i, p := s.order[k], s.phases[s.order[k]];
    Over(p) && p.err == ErrorOf(RowOf(Fold(db, calls, s.order[..k]), calls[i].findingID), calls[i])
  }

  ghost predicate OutcomesAgree(db: Db, calls: seq<Call>, s: State)
    requires |s.phases| == |calls| && Indices(s.order, |calls|)
  {
    forall k :: 0 <= k < |s.order| ==> OutcomeAt(db, calls, s, k)
  }

  ghost predicate Serial(db: Db, calls: seq<Call>, s: State)
    requires |s.phases| == |calls|
  {
    && LocksAgree(calls, s)
    && AllCurrent(calls, s)
    && OrderLists(calls, s)
    && OutcomesAgree(db, calls, s)
    && s.db == Fold(db, calls, s.order)
  }

  lemma EndIsListed(calls: seq<Call>, s: State, i: nat, t: State)
    requires |s.phases| == |calls| == |t.phases| && OrderLists(calls, s)
    requires i < |calls| && !Over(s.phases[i]) && Over(t.phases[i])
    requires t.phases == s.phases[i := t.phases[i]] && t.order == s.order + [i]
    ensures OrderLists(calls, t)
  {
  }

  lemma {:induction false} EndKeepsOutcomes(db: Db, calls: seq<Call>, s: State, i: nat, t: State)
    requires |s.phases| == |calls| == |t.phases| && Indices(s.order, |calls|) && OutcomesAgree(db, calls, s)
    requires i < |calls| && i !in s.order && t.phases == s.phases[i := t.phases[i]] && t.order == s.order + [i]
    requires Over(t.phases[i])
    requires t.phases[i].err == ErrorOf(RowOf(Fold(db, calls, s.order), calls[i].findingID), calls[i])
    ensures Indices(t.order, |calls|) && OutcomesAgree(db, calls, t)
    ensures Fold(db, calls, t.order) == Commit(Fold(db, calls, s.order), calls[i])
  {
    assert t.order[..|s.order|] == s.order;
    forall k | 0 <= k < |t.order| ensures OutcomeAt(db, calls, t, k) {
      if k < |s.order| {
        assert OutcomeAt(db, calls, s, k);
        assert s.order[k] in s.order;
        assert t.order[..k] == s.order[..k];
      }
    }
  }

  lemma MoveKeepsOrder(db: Db, calls: seq<Call>, s: State, i: nat, t: State)
    requires |s.phases| == |calls| == |t.phases| && OrderLists(calls, s) && OutcomesAgree(db, calls, s)
    requires i < |calls| && t.phases == s.phases[i := t.phases[i]] && t.order == s.order
    requires Over(s.phases[i]) == Over(t.phases[i]) && (Over(s.phases[i]) ==> s.phases[i].err == t.phases[i].err)
    ensures OrderLists(calls, t) && OutcomesAgree(db, calls, t)
  {
    forall k | 0 <= k < |t.order| ensures OutcomeAt(db, calls, t, k) {
      assert OutcomeAt(db, calls, s, k);
    }
  }

  lemma OthersStayCurrent(calls: seq<Call>, s: State, i: nat, t: State)
    requires |s.phases| == |calls| == |t.phases| && LocksAgree(calls, s) && AllCurrent(calls, s)
    requires i < |calls| && t.phases == s.phases[i := t.phases[i]]
    requires Current(t.db, calls[i], t.phases[i])
    requires t.db == s.db ||
             (HasLock(s.phases[i]) && forall id :: id != calls[i].findingID ==> RowOf(t.db, id) == RowOf(s.db, id))
    ensures AllCurrent(calls, t)
  {
    forall j | 0 <= j < |calls| ensures Current(t.db, calls[j], t.phases[j]) {
      if j != i {
        assert Current(s.db, calls[j], s.phases[j]);
      }
    }
  }

  lemma ReleaseKeepsLocks(calls: seq<Call>, s: State, i: nat, err: Option<Failure>)
    requires |s.phases| == |calls| && LocksAgree(calls, s) && i < |calls|
    ensures LocksAgree(calls, End(s, i, calls[i].findingID, err))
  {
  }

  lemma AcquireKeepsLocks(calls: seq<Call>, s: State, i: nat, t: State)
    requires |s.phases| == |calls| == |t.phases| && LocksAgree(calls, s) && i < |calls|
    requires !HasLock(s.phases[i]) && HasLock(t.phases[i]) && t.phases == s.phases[i := t.phases[i]]
    requires calls[i].findingID !in s.locks && t.locks == s.locks[calls[i].findingID := i]
    ensures LocksAgree(calls, t)
  {
  }

  lemma MoveKeepsLocks(calls: seq<Call>, s: State, i: nat, t: State)
    requires |s.phases| == |calls| == |t.phases| && LocksAgree(calls, s) && i < |calls|
    requires HasLock(s.phases[i]) == HasLock(t.phases[i]) && t.phases == s.phases[i := t.phases[i]]
    requires t.locks == s.locks
    ensures LocksAgree(calls, t)
  {
  }

  lemma NextKeepsLocks(calls: seq<Call>, s: State, i: nat)
    requires |s.phases| == |calls| && LocksAgree(calls, s) && Enabled(calls, s, i)
    ensures LocksAgree(calls, Next(calls, s, i))
  {
    var t := Next(calls, s, i);
    if t.phases[i].Ended? {
      ReleaseKeepsLocks(calls, s, i, t.phases[i].err);
      assert LocksAgree(calls, End(s, i, calls[i].findingID, t.phases[i].err));
    } else if t.phases[i].Locked? {
      AcquireKeepsLocks(calls, s, i, t);
    } else {
      MoveKeepsLocks(calls, s, i, t);
    }
  }

  predicate Ends(s: State, t: State, i: nat)
    requires i < |s.phases| == |t.phases|
  {
    Over(t.phases[i]) && !Over(s.phases[i])
  }

  // A transaction that ends got the error its call has now, and did what the call does.
  lemma EndDoes(calls: seq<Call>, s: State, i: nat)
    requires |s.phases| == |calls| && Enabled(calls, s, i) && Current(s.db, calls[i], s.phases[i])
    requires Ends(s, Next(calls, s, i), i)
    ensures var t := Next(calls, s, i);
            && t.order == s.order + [i] && t.db == Commit(s.db, calls[i])
            && t.phases[i].err == ErrorOf(RowOf(s.db, calls[i].findingID), calls[i])
  {
  }

  // Any other step leaves the database and the order alone.
  lemma MoveDoes(calls: seq<Call>, s: State, i: nat)
    requires |s.phases| == |calls| && Enabled(calls, s, i) && !Ends(s, Next(calls, s, i), i)
    ensures var t := Next(calls, s, i);
            && t.order == s.order && t.db == s.db && Over(s.phases[i]) == Over(t.phases[i])
            && (Over(s.phases[i]) ==> s.phases[i].err == t.phases[i].err)
  {
  }

  lemma NextIsCurrent(calls: seq<Call>, s: State, i: nat)
    requires |s.phases| == |calls| && LocksAgree(calls, s) && AllCurrent(calls, s) && Enabled(calls, s, i)
    ensures AllCurrent(calls, Next(calls, s, i))
  {
    assert Current(s.db, calls[i], s.phases[i]);
    OthersStayCurrent(calls, s, i, Next(calls, s, i));
  }

  lemma NextIsSerial(db: Db, calls: seq<Call>, s: State, i: nat)
    requires |s.phases| == |calls| && Serial(db, calls, s) && Enabled(calls, s, i)
    ensures Serial(db, calls, Next(calls, s, i))
  {
    var t := Next(calls, s, i);
    NextKeepsLocks(calls, s, i);
    NextIsCurrent(calls, s, i);
    assert t.phases == s.phases[i := t.phases[i]];
    if Ends(s, t, i) {
      assert Current(s.db, calls[i], s.phases[i]);
      EndDoes(calls, s, i);
      EndIsListed(calls, s, i, t);
      EndKeepsOutcomes(db, calls, s, i, t);
    } else {
      MoveDoes(calls, s, i);
      MoveKeepsOrder(db, calls, s, i, t);
    }
  }

  // In every reachable state the database is the calls that are over, applied one by one,
  // each with the outcome it has in that order. This holds with repeated ids too.
  lemma {:induction false} EverySchedule(db: Db, calls: seq<Call>, schedule: seq<nat>)
    ensures Serial(db, calls, Exec(db, calls, schedule))
  {
    if schedule != [] {
      var s := Exec(db, calls, schedule[..|schedule| - 1]);
      EverySchedule(db, calls, schedule[..|schedule| - 1]);
      if Enabled(calls, s, schedule[|schedule| - 1]) {
        NextIsSerial(db, calls, s, schedule[|schedule| - 1]);
      }
    }
  }

  // ---- With distinct ids the schedule does not matter ------------------------------------

  ghost predicate DistinctFindings(calls: seq<Call>) {
    forall i, j :: 0 <= i < j < |calls| ==> calls[i].findingID != calls[j].findingID
  }

  function RowAfter(row: Option<Finding>, c: Call): Option<Finding> {
    if Effect(row, c).Ok? then Some(Effect(row, c).value.0) else row
  }

  function LogAfter(row: Option<Finding>, c: Call): seq<Event> {
    if Effect(row, c).Ok? then [Effect(row, c).value.1] else []
  }

  lemma {:induction false} CommitTouchesOne(db: Db, c: Call, id: Uuid)
    ensures RowOf(Commit(db, c), id) ==
            if id == c.findingID then RowAfter(RowOf(db, id), c) else RowOf(db, id)
    ensures EventsOf(Commit(db, c).events, id) ==
            EventsOf(db.events, id) + if id == c.findingID then LogAfter(RowOf(db, id), c) else []
  {
    var r := Effect(RowOf(db, c.findingID), c);
    if r.Ok? {
      assert (db.events + [r.value.1])[..|db.events|] == db.events;
    }
  }

  lemma {:induction false} FoldSkips(db: Db, calls: seq<Call>, order: seq<nat>, id: Uuid)
    requires Indices(order, |calls|)
    requires forall k :: 0 <= k < |order| ==> calls[order[k]].findingID != id
    ensures RowOf(Fold(db, calls, order), id) == RowOf(db, id)
    ensures EventsOf(Fold(db, calls, order).events, id) == EventsOf(db.events, id)
  {
    if order != [] {
      var init, last := order[..|order| - 1], order[|order| - 1];
      FoldSkips(db, calls, init, id);
      CommitTouchesOne(Fold(db, calls, init), calls[last], id);
    }
  }

  // A finding named by one of the calls gets that call's effect on its first state.
  lemma {:induction false} FoldAt(db: Db, calls: seq<Call>, order: seq<nat>, k: nat)
    requires Indices(order, |calls|) && DistinctFindings(calls) && k < |order|
    requires forall i, j :: 0 <= i < j < |order| ==> order[i] != order[j]
    ensures var c := calls[order[k]];
            && RowOf(Fold(db, calls, order), c.findingID) == RowAfter(RowOf(db, c.findingID), c)
            && EventsOf(Fold(db, calls, order).events, c.findingID) ==
                 EventsOf(db.events, c.findingID) + LogAfter(RowOf(db, c.findingID), c)
  {
    var init, last, id := order[..|order| - 1], order[|order| - 1], calls[order[k]].findingID;
    CommitTouchesOne(Fold(db, calls, init), calls[last], id);
    if k == |init| {
      FoldSkips(db, calls, init, id);
    } else {
      FoldAt(db, calls, init, k);
    }
  }

  function UpTo(n: nat): (r: seq<nat>)
    ensures |r| == n && forall i :: 0 <= i < n ==> r[i] == i
  {
    if n == 0 then [] else UpTo(n - 1) + [n - 1]
  }

  lemma {:induction false} FoldInOrder(db: Db, calls: seq<Call>, n: nat)
    requires n <= |calls|
    ensures Fold(db, calls, UpTo(n)) == Run(db, calls[..n])
  {
    if n > 0 {
      FoldInOrder(db, calls, n - 1);
      assert UpTo(n)[..n - 1] == UpTo(n - 1);
      assert calls[..n][..n - 1] == calls[..n - 1];
    }
  }

  // The same rows, and the same log for every finding.
  ghost predicate SameTables(a: Db, b: Db) {
    && a.findings == b.findings
    && forall id :: EventsOf(a.events, id) == EventsOf(b.events, id)
  }

  ghost predicate Finished(s: State) {
    forall i :: 0 <= i < |s.phases| ==> s.phases[i].Recorded?
  }

  lemma {:induction false} FoldsAgree(db: Db, calls: seq<Call>, a: seq<nat>, b: seq<nat>, id: Uuid)
    requires Indices(a, |calls|) && Indices(b, |calls|) && DistinctFindings(calls)
    requires forall i, j :: 0 <= i < j < |a| ==> a[i] != a[j]
    requires forall i, j :: 0 <= i < j < |b| ==> b[i] != b[j]
    requires forall i: nat :: i < |calls| ==> i in a
    requires forall i: nat :: i < |calls| ==> i in b
    ensures RowOf(Fold(db, calls, a), id) == RowOf(Fold(db, calls, b), id)
    ensures EventsOf(Fold(db, calls, a).events, id) == EventsOf(Fold(db, calls, b).events, id)
  {
    if i: nat :| i < |calls| && calls[i].findingID == id {
      assert i in a && i in b;
      var j :| 0 <= j < |a| && a[j] == i;
      var k :| 0 <= k < |b| && b[k] == i;
      FoldAt(db, calls, a, j);
      FoldAt(db, calls, b, k);
    } else {
      FoldSkips(db, calls, a, id);
      FoldSkips(db, calls, b, id);
    }
  }

  // Each goroutine that is over got the error its call has on the first state.
  lemma Fate(db: Db, calls: seq<Call>, s: State, i: nat) returns (k: nat)
    requires |s.phases| == |calls| && OrderLists(calls, s) && OutcomesAgree(db, calls, s)
    requires DistinctFindings(calls) && i < |calls| && Over(s.phases[i])
    ensures s.phases[i].err == ErrorOf(RowOf(db, calls[i].findingID), calls[i])
    ensures k < |s.order| && s.order[k] == i
  {
    k :| 0 <= k < |s.order| && s.order[k] == i;
    assert OutcomeAt(db, calls, s, k);
    forall j | 0 <= j < k ensures calls[s.order[..k][j]].findingID != calls[i].findingID {
      assert s.order[j] != s.order[k];
    }
    FoldSkips(db, calls, s.order[..k], calls[i].findingID);
  }

  lemma {:induction false} FinishedFold(db: Db, calls: seq<Call>, s: State)
    requires |s.phases| == |calls| && OrderLists(calls, s) && DistinctFindings(calls) && Finished(s)
    ensures SameTables(Fold(db, calls, s.order), Run(db, calls))
  {
    var t := Fold(db, calls, s.order);
    FoldInOrder(db, calls, |calls|);
    assert calls[..|calls|] == calls;
    forall i: nat | i < |calls| ensures i in s.order && i in UpTo(|calls|) {
      assert Over(s.phases[i]) && UpTo(|calls|)[i] == i;
    }
    forall id
      ensures RowOf(t, id) == RowOf(Run(db, calls), id)
      ensures EventsOf(t.events, id) == EventsOf(Run(db, calls).events, id)
    {
      FoldsAgree(db, calls, s.order, UpTo(|calls|), id);
    }
    SameRows(t, Run(db, calls));
  }

  // Whatever the schedule, the finished run leaves the rows and the event logs of the
  // left-to-right fold, and each goroutine reports what its call does to the first state.
  lemma {:induction false} ScheduleIndependence(db: Db, calls: seq<Call>, schedule: seq<nat>)
    requires DistinctFindings(calls) && Finished(Exec(db, calls, schedule))
    ensures SameTables(Exec(db, calls, schedule).db, Run(db, calls))
    ensures forall i :: 0 <= i < |calls| ==>
              Exec(db, calls, schedule).phases[i] == Recorded(ErrorOf(RowOf(db, calls[i].findingID), calls[i]))
  {
    var s := Exec(db, calls, schedule);
    EverySchedule(db, calls, schedule);
    FinishedFold(db, calls, s);
    forall i | 0 <= i < |calls|
      ensures s.phases[i] == Recorded(ErrorOf(RowOf(db, calls[i].findingID), calls[i]))
    {
      var k := Fate(db, calls, s, i);
    }
  }

  lemma SameRows(a: Db, b: Db)
    requires forall id :: RowOf(a, id) == RowOf(b, id)
    ensures a.findings == b.findings
  {
    forall id ensures id in a.findings <==> id in b.findings {
      assert RowOf(a, id) == RowOf(b, id);
    }
    forall id | id in a.findings ensures a.findings[id] == b.findings[id] {
      assert RowOf(a, id) == RowOf(b, id);
    }
  }

  // A call that fails leaves its finding and that finding's log untouched, whatever the
  // others do.
  lemma {:induction false} FailureTouchesNothing(db: Db, calls: seq<Call>, schedule: seq<nat>, i: nat)
    requires DistinctFindings(calls) && i < |calls|
    requires var p := Exec(db, calls, schedule).phases[i]; Over(p) ==> p.err.Some?
    ensures var t, id := Exec(db, calls, schedule).db, calls[i].findingID;
            RowOf(t, id) == RowOf(db, id) && EventsOf(t.events, id) == EventsOf(db.events, id)
  {
    var s, id := Exec(db, calls, schedule), calls[i].findingID;
    EverySchedule(db, calls, schedule);
    if Over(s.phases[i]) {
      var k := Fate(db, calls, s, i);
      FoldAt(db, calls, s.order, k);
    } else {
      NotYetTouched(db, calls, s, i);
    }
  }

  lemma {:induction false} NotYetTouched(db: Db, calls: seq<Call>, s: State, i: nat)
    requires |s.phases| == |calls| && OrderLists(calls, s) && DistinctFindings(calls)
    requires i < |calls| && !Over(s.phases[i])
    ensures var t, id := Fold(db, calls, s.order), calls[i].findingID;
            RowOf(t, id) == RowOf(db, id) && EventsOf(t.events, id) == EventsOf(db.events, id)
  {
    forall k | 0 <= k < |s.order| ensures calls[s.order[k]].findingID != calls[i].findingID {
      assert s.order[k] in s.order;
    }
    FoldSkips(db, calls, s.order, calls[i].findingID);
  }

  // ---- The report ---------------------------------------------------------------------------

  // succeeded and failed list what the goroutines recorded.
  ghost predicate Reports(calls: seq<Call>, s: State)
    requires |s.phases| == |calls|
  {
    && (forall i :: 0 <= i < |calls| && s.phases[i].Recorded? ==> Reported(s, calls[i].findingID, s.phases[i].err))
    && (forall id :: id in s.succeeded || id in s.failed ==> SomeRecorded(calls, s, id))
    && (forall i, j :: 0 <= i < j < |s.succeeded| ==> s.succeeded[i] != s.succeeded[j])
  }

  predicate Reported(s: State, id: Uuid, err: Option<Failure>) {
    if err.Some? then id !in s.succeeded && id in s.failed && s.failed[id] == err.value
    else id in s.succeeded && id !in s.failed
  }

  ghost predicate SomeRecorded(calls: seq<Call>, s: State, id: Uuid)
    requires |s.phases| == |calls|
  {
    exists i :: 0 <= i < |calls| && calls[i].findingID == id && s.phases[i].Recorded?
  }

  // Goroutine i records its result.
  lemma RecordReports(calls: seq<Call>, s: State, i: nat, t: State)
    requires |s.phases| == |calls| == |t.phases| && DistinctFindings(calls) && Reports(calls, s)
    requires i < |calls| && !s.phases[i].Recorded? && t.phases == s.phases[i := t.phases[i]]
    requires t.phases[i].Recorded?
    requires var id := calls[i].findingID;
             if t.phases[i].err.Some? then
               t.succeeded == s.succeeded && t.failed == s.failed[id := t.phases[i].err.value]
             else
               t.succeeded == s.succeeded + [id] && t.failed == s.failed
    ensures Reports(calls, t)
  {
    var id := calls[i].findingID;
    assert !SomeRecorded(calls, s, id);
    forall x | x in t.succeeded || x in t.failed ensures SomeRecorded(calls, t, x) {
      if x == id {
        assert calls[i].findingID == x && t.phases[i].Recorded?;
      } else {
        StillRecorded(calls, s, i, t, x);
      }
    }
    forall j | 0 <= j < |calls| && t.phases[j].Recorded? ensures Reported(t, calls[j].findingID, t.phases[j].err) {
      if j != i {
        assert Reported(s, calls[j].findingID, s.phases[j].err);
        assert calls[j].findingID != id;
      }
    }
  }

  lemma StillRecorded(calls: seq<Call>, s: State, i: nat, t: State, id: Uuid)
    requires |s.phases| == |calls| == |t.phases| && SomeRecorded(calls, s, id)
    requires i < |calls| && !s.phases[i].Recorded? && t.phases == s.phases[i := t.phases[i]]
    ensures SomeRecorded(calls, t, id)
  {
    var j :| 0 <= j < |calls| && calls[j].findingID == id && s.phases[j].Recorded?;
    assert t.phases[j].Recorded?;
  }

  lemma MoveReports(calls: seq<Call>, s: State, i: nat, t: State)
    requires |s.phases| == |calls| == |t.phases| && Reports(calls, s)
    requires i < |calls| && !s.phases[i].Recorded? && !t.phases[i].Recorded?
    requires t.phases == s.phases[i := t.phases[i]] && t.succeeded == s.succeeded && t.failed == s.failed
    ensures Reports(calls, t)
  {
    forall x | x in t.succeeded || x in t.failed ensures SomeRecorded(calls, t, x) {
      StillRecorded(calls, s, i, t, x);
    }
  }

  lemma NextReports(calls: seq<Call>, s: State, i: nat)
    requires |s.phases| == |calls| && DistinctFindings(calls) && Reports(calls, s) && Enabled(calls, s, i)
    ensures Reports(calls, Next(calls, s, i))
  {
    if s.phases[i].Ended? {
      RecordReports(calls, s, i, Next(calls, s, i));
    } else {
      MoveReports(calls, s, i, Next(calls, s, i));
    }
  }

  lemma {:induction false} EveryScheduleReports(db: Db, calls: seq<Call>, schedule: seq<nat>)
    requires DistinctFindings(calls)
    ensures Reports(calls, Exec(db, calls, schedule))
  {
    if schedule != [] {
      EveryScheduleReports(db, calls, schedule[..|schedule| - 1]);
      var s := Exec(db, calls, schedule[..|schedule| - 1]);
      if Enabled(calls, s, schedule[|schedule| - 1]) {
        NextReports(calls, s, schedule[|schedule| - 1]);
      }
    }
  }

  // ---- The run always finishes -----------------------------------------------------------

  lemma {:induction false} ActiveUpdate(phases: seq<Phase>, i: nat, p: Phase)
    requires i < |phases|
    ensures Active(phases[i := p]) ==
            Active(phases) - (if IsActive(phases[i]) then 1 else 0) + (if IsActive(p) then 1 else 0)
  {
    var n := |phases| - 1;
    if i == n {
      assert phases[i := p][..n] == phases[..n];
    } else {
      ActiveUpdate(phases[..n], i, p);
      assert phases[i := p][..n] == phases[..n][i := p];
    }
  }

  lemma {:induction false} NoneActive(phases: seq<Phase>)
    requires forall i :: 0 <= i < |phases| ==> !IsActive(phases[i])
    ensures Active(phases) == 0
  {
    if phases != [] {
      NoneActive(phases[..|phases| - 1]);
    }
  }

  // Goroutines start in order, and at most ten run at once.
  ghost predicate Launched(phases: seq<Phase>) {
    && Active(phases) <= WORKERS
    && forall i :: 0 < i < |phases| && !phases[i].Waiting? ==> !phases[i - 1].Waiting?
  }

  lemma NextIsOrdered(calls: seq<Call>, s: State, i: nat)
    requires |s.phases| == |calls| && Launched(s.phases) && Enabled(calls, s, i)
    ensures var t := Next(calls, s, i).phases;
            forall j :: 0 < j < |t| && !t[j].Waiting? ==> !t[j - 1].Waiting?
  {
    var t := Next(calls, s, i).phases;
    assert t == s.phases[i := t[i]] && !t[i].Waiting?;
  }

  lemma NextLaunches(calls: seq<Call>, s: State, i: nat)
    requires |s.phases| == |calls| && Launched(s.phases) && Enabled(calls, s, i)
    ensures Launched(Next(calls, s, i).phases)
  {
    var t := Next(calls, s, i).phases;
    NextIsOrdered(calls, s, i);
    ActiveUpdate(s.phases, i, t[i]);
    assert t == s.phases[i := t[i]];
  }

  lemma {:induction false} EveryScheduleLaunches(db: Db, calls: seq<Call>, schedule: seq<nat>)
    ensures Launched(Exec(db, calls, schedule).phases)
  {
    if schedule == [] {
      NoneActive(Idle(|calls|));
    } else {
      EveryScheduleLaunches(db, calls, schedule[..|schedule| - 1]);
      var s, i := Exec(db, calls, schedule[..|schedule| - 1]), schedule[|schedule| - 1];
      if Enabled(calls, s, i) {
        NextLaunches(calls, s, i);
      }
    }
  }

  lemma {:induction false} FirstWaiting(phases: seq<Phase>, n: nat) returns (i: nat)
    requires n < |phases| && phases[n].Waiting?
    ensures i < |phases| && phases[i].Waiting? && (i > 0 ==> !phases[i - 1].Waiting?)
  {
    if n > 0 && phases[n - 1].Waiting? {
      i := FirstWaiting(phases, n - 1);
    } else {
      i := n;
    }
  }

  // Until the run is finished some goroutine can move: no set of goroutines blocks itself.
  lemma NoDeadlock(db: Db, calls: seq<Call>, schedule: seq<nat>) returns (i: nat)
    requires !Finished(Exec(db, calls, schedule))
    ensures Enabled(calls, Exec(db, calls, schedule), i)
  {
    var s := Exec(db, calls, schedule);
    EverySchedule(db, calls, schedule);
    EveryScheduleLaunches(db, calls, schedule);
    if a :| 0 <= a < |calls| && IsActive(s.phases[a]) {
      if Enabled(calls, s, a) {
        i := a;
      } else {
        i := s.locks[calls[a].findingID];
      }
    } else {
      NoneActive(s.phases);
      var n :| 0 <= n < |calls| && !s.phases[n].Recorded?;
      i := FirstWaiting(s.phases, n);
    }
  }

  function Left(p: Phase): nat {
    match p
    case Waiting => 5
    case Started => 4
    case Locked(_) => 3
    case Decided(_, _) => 2
    case Ended(_) => 1
    case Recorded(_) => 0
  }

  function StepsLeft(phases: seq<Phase>): nat {
    if phases == [] then 0 else StepsLeft(phases[..|phases| - 1]) + Left(phases[|phases| - 1])
  }

  lemma {:induction false} StepsLeftUpdate(phases: seq<Phase>, i: nat, p: Phase)
    requires i < |phases|
    ensures StepsLeft(phases[i := p]) == StepsLeft(phases) - Left(phases[i]) + Left(p)
  {
    var n := |phases| - 1;
    if i == n {
      assert phases[i := p][..n] == phases[..n];
    } else {
      StepsLeftUpdate(phases[..n], i, p);
      assert phases[i := p][..n] == phases[..n][i := p];
    }
  }

  // Each move uses up one of at most five steps a goroutine.
  lemma EveryMoveAdvances(calls: seq<Call>, s: State, i: nat)
    requires |s.phases| == |calls| && Enabled(calls, s, i)
    ensures StepsLeft(Next(calls, s, i).phases) < StepsLeft(s.phases)
  {
    StepsLeftUpdate(s.phases, i, Next(calls, s, i).phases[i]);
  }
}
