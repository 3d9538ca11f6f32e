/** The triage actions, the transaction that applies one to a finding, and the event log
    it leaves. */
module Triage {
  import opened Common
  import opened Strings

  const OPEN := 0
  const CONFIRMED := 1
  const FP := 2
  const RESOLVED := 3
  const RISK_ACCEPTED := 4

  predicate IsClosed(status: int) {
    status == FP || status == RESOLVED || status == RISK_ACCEPTED
  }

  // The columns of a finding that triage touches.
  datatype Finding = Finding(
    id: Uuid, status: int, assignedTo: Option<Uuid>, reasonID: Option<int>, note: Option<string>,
    closedAt: Option<Time>, closedBy: Option<Uuid>)

  datatype Reason = Reason(id: int, targetStatus: int, requiresNote: bool, isActive: bool)

  // A snapshot of the closure reasons by code.
  type Reasons = map<string, Reason>

  datatype Action =
    | ChangeStatus(newStatus: int, note: string)
    | Close(code: string, note: string, userID: Uuid)
    | Reopen(note: string)
    | Assign(to: Uuid, email: string)
    | Unassign

  datatype Payload =
    | StatusChanged(from: int, to: int, note: string)
    | Closed(code: string, note: string, status: int)
    | Reopened(previousStatus: int, previousReasonID: Option<int>, note: string)
    | Assigned(toUserID: Uuid, toEmail: string)
    | Unassigned

  datatype Event = Event(id: Uuid, findingID: Uuid, userID: Uuid, payload: Payload, createdAt: Time)

  datatype Failure = NotFound | UseClose | InvalidReason | NoteRequired | NotClosed | InvalidStatus | Storage

  // ---- What an action does -----------------------------------------------------------

  // The finding after ApplyTo.
  function Applied(a: Action, f: Finding, reasons: Reasons, now: Time): Result<Finding, Failure> {
    match a
    case ChangeStatus(status, _) =>
      if status != OPEN && status != CONFIRMED then Err(UseClose) else Ok(f.(status := status))
    case Close(code, note, userID) =>
      if code !in reasons || !reasons[code].isActive then Err(InvalidReason)
      else if reasons[code].requiresNote && TrimSpace(note) == "" then Err(NoteRequired)
      else
        Ok(f.(status := reasons[code].targetStatus, reasonID := Some(reasons[code].id),
              note := Some(TrimSpace(note)), closedAt := Some(now), closedBy := Some(userID)))
    case Reopen(_) =>
      if !IsClosed(f.status) then Err(NotClosed)
      else Ok(f.(status := OPEN, reasonID := None, note := None, closedAt := None, closedBy := None))
    case Assign(to, _) => Ok(f.(assignedTo := Some(to)))
    case Unassign => Ok(f.(assignedTo := None))
  }

  // The payload of the event for an action applied to f.
  function PayloadOf(a: Action, f: Finding, reasons: Reasons): Payload {
    match a
    case ChangeStatus(status, note) => StatusChanged(f.status, status, TrimSpace(note))
    case Close(code, note, _) =>
      Closed(code, TrimSpace(note), if code in reasons then reasons[code].targetStatus else 0)
    case Reopen(note) => Reopened(f.status, f.reasonID, TrimSpace(note))
    case Assign(to, email) => Assigned(to, email)
    case Unassign => Unassigned
  }

  // A finding loaded into memory for update.
  class Loaded {
    const id: Uuid
    var status: int
    var assignedTo: Option<Uuid>
    var reasonID: Option<int>
    var note: Option<string>
    var closedAt: Option<Time>
    var closedBy: Option<Uuid>

    function Value(): Finding
      reads this
    {
      Finding(id, status, assignedTo, reasonID, note, closedAt, closedBy)
    }

    constructor (f: Finding)
      ensures Value() == f
    {
      id, status, assignedTo, reasonID := f.id, f.status, f.assignedTo, f.reasonID;
      note, closedAt, closedBy := f.note, f.closedAt, f.closedBy;
    }
  }

  // An action object: what was asked, and what ApplyTo saves for BuildEvent.
  class TriageAction {
    const asked: Action
    var oldStatus: int
    var target: int
    var previousReasonID: Option<int>

    constructor (asked: Action)
      ensures this.asked == asked
    {
      this.asked := asked;
      oldStatus, target, previousReasonID := 0, 0, None;
    }

    ghost predicate Remembers(before: Finding, reasons: Reasons)
      reads this
    {
      match asked
      case ChangeStatus(_, _) => oldStatus == before.status
      case Close(code, _, _) => code in reasons && target == reasons[code].targetStatus
      case Reopen(_) => oldStatus == before.status && previousReasonID == before.reasonID
      case Assign(_, _) => true
      case Unassign => true
    }

    method ApplyTo(f: Loaded, reasons: Reasons, now: Time) returns (err: Option<Failure>)
      modifies this, f
      ensures err.Some? <==> Applied(asked, old(f.Value()), reasons, now).Err?
      ensures err.Some? ==>
                f.Value() == old(f.Value()) && err.value == Applied(asked, old(f.Value()), reasons, now).error
      ensures err.None? ==> f.Value() == Applied(asked, old(f.Value()), reasons, now).value
      ensures err.None? ==> Remembers(old(f.Value()), reasons)
    {
      match asked
      case ChangeStatus(newStatus, _) =>
        if newStatus != OPEN && newStatus != CONFIRMED {
          return Some(UseClose);
        }
        oldStatus := f.status;
        f.status := newStatus;
        return None;
      case Close(code, text, userID) =>
        if code !in reasons || !reasons[code].isActive {
          return Some(InvalidReason);
        }
        var reason, trimmed := reasons[code], TrimSpace(text);
        if reason.requiresNote && trimmed == "" {
          return Some(NoteRequired);
        }
        f.status := reason.targetStatus;
        f.reasonID := Some(reason.id);
        f.note := Some(trimmed);
        f.closedAt := Some(now);
        f.closedBy := Some(userID);
        target := reason.targetStatus;
        return None;
      case Reopen(_) =>
        if f.status != FP && f.status != RESOLVED && f.status != RISK_ACCEPTED {
          return Some(NotClosed);
        }
        oldStatus := f.status;
        previousReasonID := f.reasonID;
        f.status := OPEN;
        f.reasonID, f.note, f.closedAt, f.closedBy := None, None, None, None;
        return None;
      case Assign(to, _) =>
        f.assignedTo := Some(to);
        return None;
      case Unassign =>
        f.assignedTo := None;
        return None;
    }

    method BuildEvent(userID: Uuid, f: Loaded, id: Uuid, now: Time, ghost before: Finding, ghost reasons: Reasons)
      returns (e: Event)
      requires Remembers(before, reasons)
      ensures e == Event(id, f.id, userID, PayloadOf(asked, before, reasons), now)
    {
      var payload;
      match asked {
        case ChangeStatus(newStatus, text) => payload := StatusChanged(oldStatus, newStatus, TrimSpace(text));
        case Close(code, text, _) => payload := Closed(code, TrimSpace(text), target);
        case Reopen(text) => payload := Reopened(oldStatus, previousReasonID, TrimSpace(text));
        case Assign(to, email) => payload := Assigned(to, email);
        case Unassign => payload := Unassigned;
      }
      return Event(id, f.id, userID, payload, now);
    }
  }

  // ---- The transaction -----------------------------------------------------------------

  datatype Db = Db(findings: map<Uuid, Finding>, events: seq<Event>)

  // One request with what the outside world contributes: the reason snapshot, two clock
  // readings, the event's id, and whether a statement of the transaction fails.
  datatype Call = Call(
    userID: Uuid, findingID: Uuid, action: Action, reasons: Reasons, now: Time, eventID: Uuid, later: Time,
    fault: Fault)

  datatype Fault = NoFault | AtBegin | AtLoad | AtUpdate | AtEvent | AtCommit

  predicate ProperDb(db: Db) {
    forall id :: id in db.findings ==> db.findings[id].id == id
  }

  // The row and the event a call commits, or why it fails.
  function Effect(row: Option<Finding>, c: Call): Result<(Finding, Event), Failure> {
    if c.fault == AtBegin then Err(Storage)
    else if row.None? then Err(NotFound)
    else if c.fault == AtLoad then Err(Storage)
    else
      var r := Applied(c.action, row.value, c.reasons, c.now);
      if r.Err? then Err(r.error)
      else if c.fault != NoFault then Err(Storage)
      else Ok((r.value, Event(c.eventID, c.findingID, c.userID, PayloadOf(c.action, row.value, c.reasons), c.later)))
  }

  function RowOf(db: Db, id: Uuid): Option<Finding> {
    if id in db.findings then Some(db.findings[id]) else None
  }

  function Commit(db: Db, c: Call): Db {
    var r := Effect(RowOf(db, c.findingID), c);
    if r.Err? then db else Db(db.findings[c.findingID := r.value.0], db.events + [r.value.1])
  }

  class FindingsRepo {
    var findings: map<Uuid, Finding>
    var events: seq<Event>

    function Value(): Db
      reads this
    {
      Db(findings, events)
    }

    method ApplyTriageAction(c: Call) returns (err: Option<Failure>)
      requires ProperDb(Value())
      modifies this
      ensures Value() == Commit(old(Value()), c) && ProperDb(Value())
      ensures err == (if Effect(old(RowOf(Value(), c.findingID)), c).Err?
                      then Some(Effect(old(RowOf(Value(), c.findingID)), c).error) else None)
    {
      if c.fault == AtBegin {
        return Some(Storage);
      }
      var tx := Value();
      if c.findingID !in tx.findings {
        return Some(NotFound);
      }
      var finding := new Loaded(tx.findings[c.findingID]);
      ghost var before := finding.Value();
      if c.fault == AtLoad {
        return Some(Storage);
      }
      var action := new TriageAction(c.action);
      err := action.ApplyTo(finding, c.reasons, c.now);
      if err.Some? {
        return;
      }
      if c.fault == AtUpdate {
        return Some(Storage);
      }
      tx := tx.(findings := tx.findings[finding.id := finding.Value()]);
      var event := action.BuildEvent(c.userID, finding, c.eventID, c.later, before, c.reasons);
      if c.fault == AtEvent {
        return Some(Storage);
      }
      tx := tx.(events := tx.events + [event]);
      if c.fault == AtCommit {
        return Some(Storage);
      }
      findings, events := tx.findings, tx.events;
      return None;
    }
  }

  // ---- Histories -------------------------------------------------------------------------

  function Run(db: Db, calls: seq<Call>): Db {
    if calls == [] then db else Commit(Run(db, calls[..|calls| - 1]), calls[|calls| - 1])
  }

  function EventsOf(events: seq<Event>, id: Uuid): seq<Event> {
    if events == [] then []
    else
      var last := events[|events| - 1];
      EventsOf(events[..|events| - 1], id) + if last.findingID == id then [last] else []
  }

  // What one event says happened, given the id of each reason code.
  function ReplayEvent(f: Finding, e: Event, ids: map<string, int>): Finding {
    match e.payload
    case StatusChanged(_, to, _) => f.(status := to)
    case Closed(code, note, status) =>
      f.(status := status, reasonID := if code in ids then Some(ids[code]) else None, note := Some(note),
         closedAt := Some(e.createdAt), closedBy := Some(e.userID))
    case Reopened(_, _, _) => f.(status := OPEN, reasonID := None, note := None, closedAt := None, closedBy := None)
    case Assigned(to, _) => f.(assignedTo := Some(to))
    case Unassigned => f.(assignedTo := None)
  }

  function Replay(f: Finding, events: seq<Event>, ids: map<string, int>): Finding {
    if events == [] then f
    else ReplayEvent(Replay(f, events[..|events| - 1], ids), events[|events| - 1], ids)
  }

  // The finding without the instant of its closure, of which the log keeps another reading
  // of the clock.
  function Timeless(f: Finding): Finding {
    f.(closedAt := if f.closedAt.Some? then Some(0) else None)
  }

  // Codes keep their ids from one snapshot to the next.
  predicate KnownIDs(c: Call, ids: map<string, int>) {
    forall code :: code in c.reasons ==> code in ids && ids[code] == c.reasons[code].id
  }

  // The handlers close on behalf of the acting user.
  predicate ClosesAsActor(c: Call) {
    c.action.Close? ==> c.action.userID == c.userID
  }

  // The event records what it changed from.
  predicate Honest(f: Finding, e: Event) {
    match e.payload
    case StatusChanged(from, _, _) => from == f.status
    case Reopened(status, reasonID, _) => status == f.status && reasonID == f.reasonID
    case _ => true
  }

  predicate HonestLog(f: Finding, events: seq<Event>, ids: map<string, int>) {
    events == [] ||
    (HonestLog(f, events[..|events| - 1], ids) &&
     Honest(Replay(f, events[..|events| - 1], ids), events[|events| - 1]))
  }

  // One committed call: its event replays what the call did and records what was there.
  lemma EffectReplays(f: Finding, g: Finding, c: Call, ids: map<string, int>, closerToo: bool)
    requires Effect(Some(f), c).Ok? && KnownIDs(c, ids) && (closerToo ==> ClosesAsActor(c))
    requires Agree(f, g, closerToo)
    ensures var (f', e) := Effect(Some(f), c).value;
            Agree(f', ReplayEvent(g, e, ids), closerToo) && Honest(g, e)
  {
  }

  // The log names the closer of a finding exactly if it was closed by the acting user.
  lemma CloserIsLogged(f: Finding, c: Call, ids: map<string, int>)
    requires c.action.Close? && Effect(Some(f), c).Ok? && KnownIDs(c, ids)
    ensures var (f', e) := Effect(Some(f), c).value;
            Timeless(ReplayEvent(f, e, ids)) == Timeless(f') <==> c.userID == c.action.userID
  {
  }

  lemma {:induction false} RunKeeps(db: Db, calls: seq<Call>)
    requires ProperDb(db)
    ensures ProperDb(Run(db, calls)) && Run(db, calls).findings.Keys == db.findings.Keys
    ensures |db.events| <= |Run(db, calls).events| && Run(db, calls).events[..|db.events|] == db.events
  {
    if calls != [] {
      RunKeeps(db, calls[..|calls| - 1]);
    }
  }

  // The events that a history adds for one finding.
  function NewEvents(db: Db, calls: seq<Call>, id: Uuid): seq<Event>
    requires |db.events| <= |Run(db, calls).events|
  {
    EventsOf(Run(db, calls).events[|db.events|..], id)
  }

  // What the last call does to one finding.
  function LastEffect(db: Db, calls: seq<Call>): Result<(Finding, Event), Failure>
    requires calls != []
  {
    Effect(RowOf(Run(db, calls[..|calls| - 1]), calls[|calls| - 1].findingID), calls[|calls| - 1])
  }

  lemma RunStep(db: Db, calls: seq<Call>, id: Uuid)
    requires calls != [] && ProperDb(db) && id in db.findings
    ensures var init, r := calls[..|calls| - 1], LastEffect(db, calls);
            var hit := r.Ok? && calls[|calls| - 1].findingID == id;
            && id in Run(db, init).findings && id in Run(db, calls).findings
            && |db.events| <= |Run(db, init).events| && |db.events| <= |Run(db, calls).events|
            && Run(db, calls).findings[id] == (if hit then r.value.0 else Run(db, init).findings[id])
            && NewEvents(db, calls, id) ==
                 if hit then NewEvents(db, init, id) + [r.value.1] else NewEvents(db, init, id)
  {
    var init, r := calls[..|calls| - 1], LastEffect(db, calls);
    RunKeeps(db, init);
    RunKeeps(db, calls);
    if r.Ok? {
      var added := Run(db, init).events[|db.events|..];
      assert Run(db, calls).events[|db.events|..] == added + [r.value.1];
      assert (added + [r.value.1])[..|added|] == added;
    }
  }

  lemma {:induction false} ReplayNext(f: Finding, log: seq<Event>, e: Event, ids: map<string, int>)
    ensures Replay(f, log + [e], ids) == ReplayEvent(Replay(f, log, ids), e, ids)
    ensures HonestLog(f, log + [e], ids) <==> HonestLog(f, log, ids) && Honest(Replay(f, log, ids), e)
  {
    assert (log + [e])[..|log|] == log;
  }

  predicate Agree(f: Finding, g: Finding, closerToo: bool) {
    && Timeless(f).(closedBy := None) == Timeless(g).(closedBy := None)
    && (closerToo ==> f.closedBy == g.closedBy)
  }

  // Over every history, a finding's new events replayed from its initial state give its
  // state, up to the instant of closure; each event records what was there before it.
  lemma {:induction false} LogDeterminesFinding(
    db: Db, calls: seq<Call>, id: Uuid, ids: map<string, int>, asActor: bool)
    requires ProperDb(db) && id in db.findings
    requires forall i :: 0 <= i < |calls| ==> KnownIDs(calls[i], ids)
    requires asActor ==> forall i :: 0 <= i < |calls| ==> ClosesAsActor(calls[i])
    ensures |db.events| <= |Run(db, calls).events| && id in Run(db, calls).findings
    ensures Agree(Run(db, calls).findings[id], Replay(db.findings[id], NewEvents(db, calls, id), ids), asActor)
    ensures HonestLog(db.findings[id], NewEvents(db, calls, id), ids)
  {
    if calls == [] {
      assert db.events[|db.events|..] == [];
    } else {
      var init, c, r := calls[..|calls| - 1], calls[|calls| - 1], LastEffect(db, calls);
      LogDeterminesFinding(db, init, id, ids, asActor);
      RunStep(db, calls, id);
      if c.findingID == id && r.Ok? {
        var f, log := Run(db, init).findings[id], NewEvents(db, init, id);
        ReplayNext(db.findings[id], log, r.value.1, ids);
        EffectReplays(f, Replay(db.findings[id], log, ids), c, ids, asActor);
      }
    }
  }

  // ---- Closure data -------------------------------------------------------------------------

  // The four closure columns are set together.
  predicate Coherent(f: Finding) {
    f.reasonID.Some? == f.note.Some? == f.closedAt.Some? == f.closedBy.Some?
  }

  predicate ClosedHasReason(f: Finding) {
    IsClosed(f.status) ==> f.reasonID.Some?
  }

  lemma EffectIsCoherent(f: Finding, c: Call)
    requires Effect(Some(f), c).Ok?
    ensures var f' := Effect(Some(f), c).value.0;
            (Coherent(f) ==> Coherent(f')) && (ClosedHasReason(f) ==> ClosedHasReason(f'))
  {
  }

  // They stay together through every history.
  lemma {:induction false} ClosureDataIsCoherent(db: Db, calls: seq<Call>, id: Uuid)
    requires ProperDb(db) && id in db.findings && Coherent(db.findings[id])
    ensures id in Run(db, calls).findings && Coherent(Run(db, calls).findings[id])
  {
    if calls != [] {
      ClosureDataIsCoherent(db, calls[..|calls| - 1], id);
      RunStep(db, calls, id);
      if LastEffect(db, calls).Ok? && calls[|calls| - 1].findingID == id {
        EffectIsCoherent(Run(db, calls[..|calls| - 1]).findings[id], calls[|calls| - 1]);
      }
    }
  }

  // A finding that was not closed without a reason at the start, an open one for instance,
  // never is.
  lemma {:induction false} ClosedFindingsHaveReasons(db: Db, calls: seq<Call>, id: Uuid)
    requires ProperDb(db) && id in db.findings && ClosedHasReason(db.findings[id])
    ensures id in Run(db, calls).findings && ClosedHasReason(Run(db, calls).findings[id])
  {
    if calls != [] {
      ClosedFindingsHaveReasons(db, calls[..|calls| - 1], id);
      RunStep(db, calls, id);
      if LastEffect(db, calls).Ok? && calls[|calls| - 1].findingID == id {
        EffectIsCoherent(Run(db, calls[..|calls| - 1]).findings[id], calls[|calls| - 1]);
      }
    }
  }

  // Closure data exactly on closed findings.
  predicate Exact(f: Finding) {
    Coherent(f) && (IsClosed(f.status) <==> f.reasonID.Some?)
  }

  // ChangeStatus leaves the closure columns alone, so it keeps closure data exact exactly
  // if the finding was not closed.
  lemma ChangeStatusLeavesClosure(f: Finding, status: int, note: string, reasons: Reasons, now: Time)
    requires Exact(f) && Applied(ChangeStatus(status, note), f, reasons, now).Ok?
    ensures Exact(Applied(ChangeStatus(status, note), f, reasons, now).value) <==> !IsClosed(f.status)
  {
  }

  // A reason table that closes only into closed states makes every other action keep it exact.
  lemma OtherActionsKeepExact(a: Action, f: Finding, reasons: Reasons, now: Time)
    requires Exact(f) && !a.ChangeStatus? && Applied(a, f, reasons, now).Ok?
    requires forall code :: code in reasons ==> IsClosed(reasons[code].targetStatus)
    ensures Exact(Applied(a, f, reasons, now).value)
  {
  }

  // ---- The status handler ---------------------------------------------------------------------

  // handleUpdateStatus's choice of action, from the row it read without a lock.
  function ActionFor(status: int, note: string, user: Uuid, current: Option<Finding>): Result<Action, Failure> {
    if status == OPEN then
      if current.None? then Err(NotFound)
      else if IsClosed(current.value.status) then Ok(Reopen(note))
      else Ok(ChangeStatus(status, note))
    else if status == CONFIRMED then Ok(ChangeStatus(status, note))
    else if status == FP then Ok(Close("false_positive", note, user))
    else if status == RESOLVED then Ok(Close("mitigated", note, user))
    else if status == RISK_ACCEPTED then Ok(Close("acceptable_risk", note, user))
    else Err(InvalidStatus)
  }

  // The reasons the schema starts with.
  const SEEDED: Reasons := map[
    "false_positive" := Reason(1, FP, false, true),
    "acceptable_risk" := Reason(2, RISK_ACCEPTED, true, true),
    "mitigated" := Reason(3, RESOLVED, false, true),
    "duplicate" := Reason(4, RESOLVED, false, true),
    "not_applicable" := Reason(5, FP, true, true)]

  // If the row does not change between the handler's read and its lock, the request brings
  // the finding to the requested status, unless the status is unknown or accepts a risk
  // without a note.
  lemma UpdateReachesStatus(status: int, note: string, user: Uuid, f: Finding, now: Time)
    ensures var a := ActionFor(status, note, user, Some(f));
            && ((a.Ok? && Applied(a.value, f, SEEDED, now).Ok?) <==>
                OPEN <= status <= RISK_ACCEPTED && (status == RISK_ACCEPTED ==> TrimSpace(note) != ""))
            && (a.Ok? && Applied(a.value, f, SEEDED, now).Ok? ==>
                  Applied(a.value, f, SEEDED, now).value.status == status)
            && (a.Ok? && a.value.Close? ==> a.value.userID == user)
  {
  }

  // Reopening through the handler clears the closure data; the same request racing with a
  // close that commits in between finds the finding open but keeps the closure data.
  lemma ReopenRace(f: Finding, close: Action, user: Uuid, note: string, now: Time)
    requires Exact(f) && !IsClosed(f.status)
    requires close.Close? && Applied(close, f, SEEDED, now).Ok?
    ensures var closed := Applied(close, f, SEEDED, now).value;
            var stale, current := ActionFor(OPEN, note, user, Some(f)), ActionFor(OPEN, note, user, Some(closed));
            && Exact(Applied(current.value, closed, SEEDED, now).value)
            && Applied(stale.value, closed, SEEDED, now).value.status == OPEN
            && !Exact(Applied(stale.value, closed, SEEDED, now).value)
  {
  }
}
