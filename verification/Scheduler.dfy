/** The sync scheduler: periodic, manual and full syncs that exclude each other by source
    name. */
module Scheduler {
  import opened Common

  datatype Syncer = Syncer(name: string, hasFullSync: bool)

  // What is run: a syncer, or the adapter that runs its full sync under the same name.
  datatype Job = Incremental(syncer: Syncer) | Full(syncer: Syncer)

  datatype Outcome = Success | Failure(message: string) | Panic

  datatype Refusal = UnknownSource | FullSyncNotSupported | AlreadyRunning | SyncFailed(message: string) | SyncPanicked

  function NameOf(j: Job): string {
    j.syncer.name
  }

  // What runIfNotRunning returns: a panic is recovered into an error.
  function ErrorOf(o: Outcome): Option<Refusal> {
    match o
    case Success => None
    case Failure(message) => Some(SyncFailed(message))
    case Panic => Some(SyncPanicked)
  }

  function GetSyncer(syncers: seq<Syncer>, name: string): Option<Syncer> {
    if syncers == [] then None
    else if syncers[0].name == name then Some(syncers[0])
    else GetSyncer(syncers[1..], name)
  }

  // The job behind a request, with the name the request asked for.
  function Requested(syncers: seq<Syncer>, name: string, full: bool): (r: Result<Job, Refusal>)
    ensures r.Ok? ==> NameOf(r.value) == name && r.value.Full? == full
    ensures r.Ok? ==> full ==> r.value.syncer.hasFullSync
    ensures r == Err(UnknownSource) <==> forall s :: s in syncers ==> s.name != name
  {
    var s := GetSyncer(syncers, name);
    GetSyncerFinds(syncers, name);
    if s.None? then Err(UnknownSource)
    else if full && !s.value.hasFullSync then Err(FullSyncNotSupported)
    else Ok(if full then Full(s.value) else Incremental(s.value))
  }

  lemma {:induction false} GetSyncerFinds(syncers: seq<Syncer>, name: string)
    ensures GetSyncer(syncers, name).Some? ==>
              GetSyncer(syncers, name).value in syncers && GetSyncer(syncers, name).value.name == name
    ensures GetSyncer(syncers, name).None? <==> forall s :: s in syncers ==> s.name != name
  {
    if syncers != [] {
      GetSyncerFinds(syncers[1..], name);
      assert syncers == [syncers[0]] + syncers[1..];
    }
  }

  // ---- The object and its lock-held sections ----------------------------------------------

  datatype Marks = Marks(running: map<string, bool>, since: map<string, Time>)

  function Claimed(m: Marks, name: string, now: Time): Marks {
    if name in m.running && m.running[name] then m
    else Marks(m.running[name := true], m.since[name := now])
  }

  function Released(m: Marks, name: string): Marks {
    Marks(m.running - {name}, m.since - {name})
  }

  class SchedulerState {
    var syncers: seq<Syncer>
    var running: map<string, bool>
    var runningSince: map<string, Time>

    function Value(): Marks
      reads this
    {
      Marks(running, runningSince)
    }

    constructor ()
      ensures syncers == [] && Value() == Marks(map[], map[])
    {
      syncers, running, runningSince := [], map[], map[];
    }

    method Register(s: Syncer)
      modifies this`syncers
      ensures syncers == old(syncers) + [s]
    {
      syncers := syncers + [s];
    }

    // The first section of runIfNotRunning.
    method Claim(name: string, now: Time) returns (ok: bool)
      modifies this`running, this`runningSince
      ensures ok <==> !(name in old(running) && old(running)[name])
      ensures Value() == Claimed(old(Value()), name, now)
    {
      if name in running && running[name] {
        return false;
      }
      running := running[name := true];
      runningSince := runningSince[name := now];
      return true;
    }

    // The deferred section.
    method Release(name: string)
      modifies this`running, this`runningSince
      ensures Value() == Released(old(Value()), name)
    {
      running := running - {name};
      runningSince := runningSince - {name};
    }

    // One run with nothing in between: whatever the outcome, the marks are as before.
    method RunIfNotRunning(job: Job, now: Time, outcome: Outcome) returns (err: Option<Refusal>)
      requires NameOf(job) in runningSince <==> NameOf(job) in running
      modifies this`running, this`runningSince
      ensures NameOf(job) !in old(running) ==> err == ErrorOf(outcome) && Value() == old(Value())
      ensures NameOf(job) in old(running) && old(running)[NameOf(job)] ==>
                err == Some(AlreadyRunning) && Value() == old(Value())
    {
      ghost var before := Value();
      var ok := Claim(NameOf(job), now);
      if !ok {
        return Some(AlreadyRunning);
      }
      err := ErrorOf(outcome);
      Release(NameOf(job));
      if NameOf(job) !in before.running {
        assert running == before.running && runningSince == before.since;
      }
    }
  }

  // ---- All interleavings --------------------------------------------------------------------

  // Where a call of runIfNotRunning is. It holds the mark of its name in Syncing and in
  // Leaving, when the sync has ended in some way and the deferred release is due.
  datatype Phase = Entering | Syncing(since: Time) | Leaving(since: Time, outcome: Outcome) | Left(err: Option<Refusal>)

  datatype Call = Call(job: Job, phase: Phase)

  datatype State = State(marks: Marks, calls: seq<Call>)

  const INIT := State(Marks(map[], map[]), [])

  // A tick, a manual or a full sync begins; a call enters the lock; its sync ends; it
  // releases its mark.
  datatype Event =
    | Begin(job: Job)
    | Enter(c: nat, now: Time)
    | End(c: nat, outcome: Outcome)
    | Leave(c: nat)

  function SetPhase(s: State, c: nat, p: Phase): State
    requires c < |s.calls|
  {
    s.(calls := s.calls[c := s.calls[c].(phase := p)])
  }

  predicate IsMarked(m: Marks, name: string) {
    name in m.running && m.running[name]
  }

  function Next(s: State, e: Event): State {
    match e
    case Begin(job) => s.(calls := s.calls + [Call(job, Entering)])
    case Enter(c, now) =>
      if c >= |s.calls| || !s.calls[c].phase.Entering? then s
      else if IsMarked(s.marks, NameOf(s.calls[c].job)) then SetPhase(s, c, Left(Some(AlreadyRunning)))
      else SetPhase(s, c, Syncing(now)).(marks := Claimed(s.marks, NameOf(s.calls[c].job), now))
    case End(c, outcome) =>
      if c >= |s.calls| || !s.calls[c].phase.Syncing? then s
      else SetPhase(s, c, Leaving(s.calls[c].phase.since, outcome))
    case Leave(c) =>
      if c >= |s.calls| || !s.calls[c].phase.Leaving? then s
      else
        SetPhase(s, c, Left(ErrorOf(s.calls[c].phase.outcome)))
          .(marks := Released(s.marks, NameOf(s.calls[c].job)))
  }

  function Run(events: seq<Event>): State {
    if events == [] then INIT else Next(Run(events[..|events| - 1]), events[|events| - 1])
  }

  predicate IsActive(c: Call) {
    c.phase.Syncing? || c.phase.Leaving?
  }

  predicate ActiveAs(s: State, c: nat, name: string) {
    c < |s.calls| && IsActive(s.calls[c]) && NameOf(s.calls[c].job) == name
  }

  // Both maps hold the same names, and all marks are set.
  ghost predicate MarksAgree(m: Marks) {
    m.running.Keys == m.since.Keys && forall n :: n in m.running ==> m.running[n]
  }

  predicate MarkedBy(m: Marks, c: Call)
    requires IsActive(c)
  {
    NameOf(c.job) in m.since && m.since[NameOf(c.job)] == c.phase.since
  }

  // Every active call has its mark, with the time it was claimed.
  ghost predicate ActiveAreMarked(s: State) {
    forall c :: 0 <= c < |s.calls| && IsActive(s.calls[c]) ==> MarkedBy(s.marks, s.calls[c])
  }

  ghost predicate MarkedAreActive(s: State) {
    forall n :: n in s.marks.running ==> exists c: nat :: ActiveAs(s, c, n)
  }

  // No two active calls have the same name.
  ghost predicate Apart(s: State) {
    forall c, d :: 0 <= c < d < |s.calls| && IsActive(s.calls[c]) && IsActive(s.calls[d]) ==>
      NameOf(s.calls[c].job) != NameOf(s.calls[d].job)
  }

  ghost predicate Exclusive(s: State) {
    MarksAgree(s.marks) && ActiveAreMarked(s) && MarkedAreActive(s) && Apart(s)
  }

  lemma NextAgrees(s: State, e: Event)
    requires MarksAgree(s.marks)
    ensures MarksAgree(Next(s, e).marks)
  {
  }

  lemma NextMarks(s: State, e: Event)
    requires MarksAgree(s.marks) && ActiveAreMarked(s) && Apart(s)
    ensures ActiveAreMarked(Next(s, e))
  {
    var t := Next(s, e);
    forall c | 0 <= c < |t.calls| && IsActive(t.calls[c]) ensures MarkedBy(t.marks, t.calls[c]) {
      if c < |s.calls| && IsActive(s.calls[c]) {
        assert MarkedBy(s.marks, s.calls[c]);
      }
    }
  }

  lemma NextKeepsApart(s: State, e: Event)
    requires MarksAgree(s.marks) && ActiveAreMarked(s) && Apart(s)
    ensures Apart(Next(s, e))
  {
    var t := Next(s, e);
    if e.Enter? && t != s {
      forall d | 0 <= d < |s.calls| && IsActive(s.calls[d])
        ensures IsMarked(s.marks, NameOf(s.calls[d].job))
      {
        assert MarkedBy(s.marks, s.calls[d]);
      }
    }
  }

  lemma NextActive(s: State, e: Event)
    requires MarkedAreActive(s)
    ensures MarkedAreActive(Next(s, e))
  {
    var t := Next(s, e);
    forall n | n in t.marks.running ensures exists d: nat :: ActiveAs(t, d, n) {
      if e.Enter? && t != s && n == NameOf(s.calls[e.c].job) && n !in s.marks.running {
        assert ActiveAs(t, e.c, n);
      } else {
        ActiveStays(s, e, n);
      }
    }
  }

  lemma ActiveStays(s: State, e: Event, n: string)
    requires n in Next(s, e).marks.running && exists d: nat :: ActiveAs(s, d, n)
    ensures exists d: nat :: ActiveAs(Next(s, e), d, n)
  {
    var d: nat :| ActiveAs(s, d, n);
    assert ActiveAs(Next(s, e), d, n);
  }

  // In every interleaving at most one run of a source is active, the two maps have the
  // names of the active runs, and nothing else.
  lemma {:induction false} MutualExclusion(events: seq<Event>)
    ensures Exclusive(Run(events))
  {
    if events != [] {
      var s, e := Run(events[..|events| - 1]), events[|events| - 1];
      MutualExclusion(events[..|events| - 1]);
      NextAgrees(s, e);
      NextMarks(s, e);
      NextKeepsApart(s, e);
      NextActive(s, e);
    }
  }

  // A call is turned away exactly if a run of the same name, incremental or full, is
  // active when it enters.
  lemma {:induction false} RefusedIffActive(events: seq<Event>, c: nat, now: Time)
    requires var s := Run(events); c < |s.calls| && s.calls[c].phase.Entering?
    ensures var s, t := Run(events), Next(Run(events), Enter(c, now));
            && t.calls[c].phase == (if exists d: nat :: ActiveAs(s, d, NameOf(s.calls[c].job))
                                    then Left(Some(AlreadyRunning)) else Syncing(now))
  {
    var s := Run(events);
    MutualExclusion(events);
    if d: nat :| ActiveAs(s, d, NameOf(s.calls[c].job)) {
      assert MarkedBy(s.marks, s.calls[d]);
    }
  }

  // However a sync ends, its call can leave, reports the outcome, and the name is free.
  lemma {:induction false} LeavingFrees(events: seq<Event>, c: nat, outcome: Outcome)
    requires var s := Run(events); c < |s.calls| && s.calls[c].phase.Syncing?
    ensures var s := Run(events);
            var t, name := Next(Next(s, End(c, outcome)), Leave(c)), NameOf(s.calls[c].job);
            && t.calls[c].phase == Left(ErrorOf(outcome))
            && name !in t.marks.running && name !in t.marks.since
            && t.marks.running == s.marks.running - {name} && t.marks.since == s.marks.since - {name}
  {
  }

  // When no call is active both maps are empty.
  lemma {:induction false} QuietIsUnmarked(events: seq<Event>)
    requires forall c :: 0 <= c < |Run(events).calls| ==> !IsActive(Run(events).calls[c])
    ensures Run(events).marks == Marks(map[], map[])
  {
    MutualExclusion(events);
    var s := Run(events);
    assert forall n :: n !in s.marks.running;
    assert s.marks.running.Keys == {};
  }
}
