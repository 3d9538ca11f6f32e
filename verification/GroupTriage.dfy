/** The group bulk handlers: split the group's findings by the user's access, run the bulk
    action on the allowed ones and merge the failures. */
module GroupTriage {
  import opened Common
  import opened Triage
  import opened BulkTriage
  import opened Paging

  const TRIAGER := 1

  // What the permission queries answer: the projects of the findings that exist, and the
  // user's role in a project, None where the lookup breaks.
  datatype Access = Access(admin: bool, projectOf: map<Uuid, Uuid>, roleIn: Uuid -> Option<Option<int>>)

  predicate MayTriage(a: Access, project: Uuid) {
    var role := a.roleIn(project);
    role.Some? && role.value.Some? && role.value.value >= TRIAGER
  }

  // SELECT DISTINCT project_id FROM findings WHERE id = ANY(ids)
  function ProjectsOf(a: Access, ids: seq<Uuid>): set<Uuid> {
    set id | id in ids && id in a.projectOf :: a.projectOf[id]
  }

  // A finding that no longer exists reads as the nil project.
  function ProjectOf(a: Access, id: Uuid): Uuid {
    if id in a.projectOf then a.projectOf[id] else NIL
  }

  predicate Permitted(a: Access, ids: seq<Uuid>, id: Uuid) {
    a.admin || (ProjectOf(a, id) in ProjectsOf(a, ids) && MayTriage(a, ProjectOf(a, id)))
  }

  function Allowed(a: Access, group: seq<Uuid>, ids: seq<Uuid>): seq<Uuid> {
    if ids == [] then []
    else
      Allowed(a, group, ids[..|ids| - 1]) +
      if Permitted(a, group, ids[|ids| - 1]) then [ids[|ids| - 1]] else []
  }

  lemma {:induction false} AllowedIn(a: Access, group: seq<Uuid>, ids: seq<Uuid>)
    ensures forall id :: id in Allowed(a, group, ids) <==> id in ids && Permitted(a, group, id)
  {
    if ids != [] {
      AllowedIn(a, group, ids[..|ids| - 1]);
      assert ids == ids[..|ids| - 1] + [ids[|ids| - 1]];
    }
  }

  lemma {:induction false} AllowedAll(a: Access, group: seq<Uuid>, ids: seq<Uuid>)
    requires a.admin
    ensures Allowed(a, group, ids) == ids
  {
    if ids != [] {
      AllowedAll(a, group, ids[..|ids| - 1]);
    }
  }

  lemma {:induction false} AllowedDistinct(a: Access, group: seq<Uuid>, ids: seq<Uuid>)
    requires Distinct(ids)
    ensures Distinct(Allowed(a, group, ids))
  {
    if ids != [] {
      var init, last := ids[..|ids| - 1], ids[|ids| - 1];
      AllowedDistinct(a, group, init);
      AllowedIn(a, group, init);
      assert last !in Allowed(a, group, init);
    }
  }

  // Every finding that exists is judged by the user's role in its own project; one that
  // does not exist is refused unless the nil project is among the group's.
  lemma PermittedMeans(a: Access, ids: seq<Uuid>, id: Uuid)
    requires id in ids
    ensures id in a.projectOf ==> (Permitted(a, ids, id) <==> a.admin || MayTriage(a, a.projectOf[id]))
    ensures id !in a.projectOf && NIL !in a.projectOf.Values ==> (Permitted(a, ids, id) <==> a.admin)
  {
  }

  method SplitByTriagerAccess(a: Access, ids: seq<Uuid>)
    returns (r: Result<(seq<Uuid>, set<Uuid>), string>)
    ensures r.Err? <==> !a.admin && exists p :: p in ProjectsOf(a, ids) && a.roleIn(p).None?
    ensures r.Ok? ==> r.value.0 == Allowed(a, ids, ids)
    ensures r.Ok? ==> forall id :: id in r.value.1 <==> id in ids && !Permitted(a, ids, id)
  {
    if a.admin {
      AllowedAll(a, ids, ids);
      return Ok((ids, {}));
    }
    var todo := ProjectsOf(a, ids);
    var allowedProjects: map<Uuid, bool> := map[];
    while todo != {}
      invariant todo <= ProjectsOf(a, ids)
      invariant allowedProjects.Keys == ProjectsOf(a, ids) - todo
      invariant forall p :: p in allowedProjects ==>
                  a.roleIn(p).Some? && (allowedProjects[p] <==> MayTriage(a, p))
      decreases todo
    {
      var p :| p in todo;
      var role := a.roleIn(p);
      if role.None? {
        return Err("get role");
      }
      allowedProjects := allowedProjects[p := role.value.Some? && role.value.value >= TRIAGER];
      todo := todo - {p};
    }
    var allowed: seq<Uuid>, forbidden: set<Uuid> := [], {};
    for i := 0 to |ids|
      invariant allowed == Allowed(a, ids, ids[..i])
      invariant forall id :: id in forbidden <==> id in ids[..i] && !Permitted(a, ids, id)
    {
      var pid := if ids[i] in a.projectOf then a.projectOf[ids[i]] else NIL;
      assert ids[..i + 1] == ids[..i] + [ids[i]];
      assert ids[..i + 1][..i] == ids[..i];
      if pid in allowedProjects && allowedProjects[pid] {
        allowed := allowed + [ids[i]];
      } else {
        forbidden := forbidden + {ids[i]};
      }
    }
    assert ids[..|ids|] == ids;
    return Ok((allowed, forbidden));
  }

  // ---- The handler ----------------------------------------------------------------------

  datatype Refusal = AccessDenied | Because(failure: Failure)

  datatype Report = Report(succeeded: seq<Uuid>, failed: map<Uuid, Refusal>)

  // One call per allowed finding.
  function CallsFor(ids: seq<Uuid>, call: Uuid -> Call): (r: seq<Call>)
    ensures |r| == |ids| && forall i :: 0 <= i < |ids| ==> r[i] == call(ids[i]).(findingID := ids[i])
  {
    if ids == [] then []
    else CallsFor(ids[..|ids| - 1], call) + [call(ids[|ids| - 1]).(findingID := ids[|ids| - 1])]
  }

  lemma {:induction false} CallsDistinct(ids: seq<Uuid>, call: Uuid -> Call)
    requires Distinct(ids)
    ensures DistinctFindings(CallsFor(ids, call))
  {
    var calls := CallsFor(ids, call);
    forall i, j | 0 <= i < j < |calls| ensures calls[i].findingID != calls[j].findingID {
      assert calls[i].findingID == ids[i] && calls[j].findingID == ids[j];
    }
  }

  // The report covers exactly the group: a finding the user may not triage is refused, any
  // other one is reported as its call turned out.
  ghost predicate Covers(db: Db, a: Access, ids: seq<Uuid>, call: Uuid -> Call, r: Report) {
    && (forall id :: id in r.succeeded || id in r.failed ==> id in ids)
    && Distinct(r.succeeded)
    && (forall id :: id in ids ==> Fared(db, a, ids, call, r, id))
  }

  predicate Fared(db: Db, a: Access, ids: seq<Uuid>, call: Uuid -> Call, r: Report, id: Uuid) {
    if !Permitted(a, ids, id) then id !in r.succeeded && id in r.failed && r.failed[id] == AccessDenied
    else
      var err := ErrorOf(RowOf(db, id), call(id).(findingID := id));
      if err.None? then id in r.succeeded && id !in r.failed
      else id !in r.succeeded && id in r.failed && r.failed[id] == Because(err.value)
  }

  // What the bulk run of the allowed ids reports.
  lemma {:induction false} BulkReport(
    db: Db, a: Access, ids: seq<Uuid>, call: Uuid -> Call, schedule: seq<nat>, id: Uuid)
    requires Distinct(ids)
    requires Finished(Exec(db, CallsFor(Allowed(a, ids, ids), call), schedule))
    ensures var s := Exec(db, CallsFor(Allowed(a, ids, ids), call), schedule);
            && (id in s.succeeded || id in s.failed ==> id in ids && Permitted(a, ids, id))
            && (id in ids && Permitted(a, ids, id) ==>
                  Reported(s, id, ErrorOf(RowOf(db, id), call(id).(findingID := id))))
  {
    var allowed := Allowed(a, ids, ids);
    var calls := CallsFor(allowed, call);
    var s := Exec(db, calls, schedule);
    AllowedIn(a, ids, ids);
    AllowedDistinct(a, ids, ids);
    CallsDistinct(allowed, call);
    ScheduleIndependence(db, calls, schedule);
    EveryScheduleReports(db, calls, schedule);
    if id in s.succeeded || id in s.failed {
      assert SomeRecorded(calls, s, id);
    }
    if id in ids && Permitted(a, ids, id) {
      assert id in allowed;
      var i :| 0 <= i < |allowed| && allowed[i] == id;
      assert s.phases[i].Recorded? && calls[i].findingID == id;
    }
  }

  // The handler after its group has been resolved to ids: succeeded and failed partition
  // the group, and the tables are those of the allowed calls made one after another.
  method HandleGroupBulk(db: Db, a: Access, ids: seq<Uuid>, call: Uuid -> Call, schedule: seq<nat>)
    returns (after: Db, r: Result<Report, string>)
    requires Distinct(ids)
    requires Finished(Exec(db, CallsFor(Allowed(a, ids, ids), call), schedule))
    ensures r.Err? <==> !a.admin && exists p :: p in ProjectsOf(a, ids) && a.roleIn(p).None?
    ensures r.Err? ==> after == db
    ensures r.Ok? ==> Covers(db, a, ids, call, r.value)
    ensures r.Ok? ==> SameTables(after, Run(db, CallsFor(Allowed(a, ids, ids), call)))
  {
    var split := SplitByTriagerAccess(a, ids);
    if split.Err? {
      return db, Err(split.error);
    }
    var (allowed, forbidden) := split.value;
    var failed: map<Uuid, Refusal> := map id | id in forbidden :: AccessDenied;
    var succeeded: seq<Uuid> := [];
    after := db;
    if |allowed| > 0 {
      var s := Exec(db, CallsFor(allowed, call), schedule);
      after, succeeded := s.db, s.succeeded;
      failed := Merge(failed, s.failed);
      AllowedIn(a, ids, ids);
      AllowedDistinct(a, ids, ids);
      CallsDistinct(allowed, call);
      ScheduleIndependence(db, CallsFor(allowed, call), schedule);
      EveryScheduleReports(db, CallsFor(allowed, call), schedule);
    }
    forall id
      ensures id in succeeded || id in failed ==> id in ids
      ensures id in ids ==> Fared(db, a, ids, call, Report(succeeded, failed), id)
    {
      AllowedIn(a, ids, ids);
      if |allowed| > 0 {
        BulkReport(db, a, ids, call, schedule, id);
      }
    }
    return after, Ok(Report(succeeded, failed));
  }

  // The loop that adds the failures of the bulk run, in any order, to the refusals.
  method Merge(failed: map<Uuid, Refusal>, more: map<Uuid, Failure>) returns (r: map<Uuid, Refusal>)
    ensures r.Keys == failed.Keys + more.Keys
    ensures forall id :: id in r ==> r[id] == if id in more then Because(more[id]) else failed[id]
  {
    r := failed;
    var todo := more.Keys;
    while todo != {}
      invariant todo <= more.Keys
      invariant r.Keys == failed.Keys + (more.Keys - todo)
      invariant forall id :: id in r ==>
                  r[id] == if id in more && id !in todo then Because(more[id]) else failed[id]
      decreases todo
    {
      var id :| id in todo;
      r := r[id := Because(more[id])];
      todo := todo - {id};
    }
  }
}
