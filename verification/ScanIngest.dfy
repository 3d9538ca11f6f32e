/** handleCreateScan: one transaction that upserts the findings of a report by fingerprint,
    links them to the scan and counts what was new. */
module ScanIngest {
  import opened Common

  // The columns that an upsert of an existing finding leaves alone.
  datatype Rest = Rest(title: string, status: int, projectID: Uuid, commitSHA: string, kind: int)

  datatype Row = Row(
    id: Uuid, fingerprint: string, firstSeen: Time, lastSeen: Time, timesSeen: int,
    secretFingerprint: Option<string>, rest: Rest)

  // A parsed finding; None, 0, "" and the nil id mean that the parser left the field out.
  datatype Parsed = Parsed(
    id: Uuid, fingerprint: string, firstSeen: Option<Time>, lastSeen: Option<Time>, timesSeen: int,
    secretFingerprint: Option<string>, title: string, status: int, kind: int)

  datatype Link = Link(findingID: Uuid, scanID: Uuid, isNew: bool)

  datatype Status = Running | Completed | Failed

  datatype Scan = Scan(id: Uuid, projectID: Uuid, commitSHA: string, scanner: string, status: Status,
    imported: nat, updated: nat)

  // finding.fingerprint and finding.id are unique; (finding_id, scan_id) is the links' key.
  datatype Db = Db(findings: seq<Row>, scans: map<Uuid, Scan>, links: seq<Link>)

  // What the request and the outside world contribute: the clock, the fingerprint hash and
  // the generated ids.
  datatype Context = Context(
    projectID: Uuid, commitSHA: string, now: Time, hash: Parsed -> string, newID: nat -> Uuid)

  datatype Fault = NoFault | AtBegin | AtCreateScan | AtUpsert(i: nat) | AtLink(i: nat) | AtComplete | AtCommit

  // ---- The statements -------------------------------------------------------------------

  // The position of the row with that fingerprint, or the number of rows.
  function IndexOf(rows: seq<Row>, fp: string): (i: nat)
    ensures i <= |rows|
    ensures i < |rows| ==> rows[i].fingerprint == fp
  {
    if rows == [] || rows[0].fingerprint == fp then 0 else 1 + IndexOf(rows[1..], fp)
  }

  predicate HasID(rows: seq<Row>, id: Uuid) {
    exists i :: 0 <= i < |rows| && rows[i].id == id
  }

  datatype Upserted = Upserted(rows: seq<Row>, id: Uuid, inserted: bool)

  // The row as ON CONFLICT DO UPDATE leaves it.
  function SeenAgain(known: Row, row: Row): Row {
    known.(lastSeen := row.lastSeen, timesSeen := known.timesSeen + 1,
           secretFingerprint := if row.secretFingerprint.Some? then row.secretFingerprint else known.secretFingerprint)
  }

  // The insert breaks the primary key if another finding has the id.
  function Upsert(rows: seq<Row>, row: Row): Option<Upserted> {
    var i := IndexOf(rows, row.fingerprint);
    if i < |rows| then Some(Upserted(rows[i := SeenAgain(rows[i], row)], rows[i].id, false))
    else if HasID(rows, row.id) then None
    else Some(Upserted(rows + [row], row.id, true))
  }

  predicate Linked(links: seq<Link>, findingID: Uuid, scanID: Uuid) {
    exists i :: 0 <= i < |links| && links[i].findingID == findingID && links[i].scanID == scanID
  }

  function LinkFinding(links: seq<Link>, l: Link): seq<Link> {
    if Linked(links, l.findingID, l.scanID) then links else links + [l]
  }

  function FailScan(db: Db, id: Uuid): Db {
    if id in db.scans then db.(scans := db.scans[id := db.scans[id].(status := Failed, imported := 0, updated := 0)])
    else db
  }

  function FingerprintOf(c: Context, f: Parsed): string {
    if f.fingerprint == "" then c.hash(f) else f.fingerprint
  }

  // The row that the i-th finding of the report proposes.
  function Prepared(c: Context, i: nat, f: Parsed): Row {
    Row(if f.id == NIL then c.newID(i) else f.id, FingerprintOf(c, f), f.firstSeen.GetOr(c.now),
      f.lastSeen.GetOr(c.now), if f.timesSeen == 0 then 1 else f.timesSeen, f.secretFingerprint,
      Rest(f.title, f.status, c.projectID, c.commitSHA, f.kind))
  }

  predicate KindFits(kind: int) {
    -0x8000 <= kind <= 0x7fff
  }

  // ---- The loop over the report -------------------------------------------------------------

  datatype Work = Work(findings: seq<Row>, links: seq<Link>, imported: nat, updated: nat, ids: seq<Uuid>)

  // One finding, or None if the statement fails.
  function Ingest(c: Context, scanID: Uuid, w: Work, i: nat, f: Parsed): Option<Work> {
    if !KindFits(f.kind) then None
    else
      var u := Upsert(w.findings, Prepared(c, i, f));
      if u.None? then None
      else
        var (rows, id, isNew) := (u.value.rows, u.value.id, u.value.inserted);
        Some(Work(rows, LinkFinding(w.links, Link(id, scanID, isNew)),
          if isNew then w.imported + 1 else w.imported, if isNew then w.updated else w.updated + 1, w.ids + [id]))
  }

  function IngestAll(c: Context, scanID: Uuid, db: Db, report: seq<Parsed>): Option<Work> {
    if report == [] then Some(Work(db.findings, db.links, 0, 0, []))
    else
      var n := |report| - 1;
      var w := IngestAll(c, scanID, db, report[..n]);
      if w.None? then None else Ingest(c, scanID, w.value, n, report[n])
  }

  function Finished(scan: Scan, scanner: string, w: Work): Scan {
    scan.(status := Completed, scanner := scanner, imported := w.imported, updated := w.updated)
  }

  function ScannerOf(scan: Scan, detected: string): string {
    if detected != "" && scan.scanner == "unknown" then detected else scan.scanner
  }

  datatype Response = Response(scanID: Uuid, scanner: string, imported: nat, updated: nat, publish: seq<Uuid>)

  // The loop reads neither the scans nor anything else but findings and links.
  lemma {:induction false} ScansDoNotMatter(c: Context, scanID: Uuid, a: Db, b: Db, report: seq<Parsed>)
    requires a.findings == b.findings && a.links == b.links
    ensures IngestAll(c, scanID, a, report) == IngestAll(c, scanID, b, report)
  {
    if report != [] {
      ScansDoNotMatter(c, scanID, a, b, report[..|report| - 1]);
    }
  }

  lemma {:induction false} PrefixFails(c: Context, scanID: Uuid, db: Db, report: seq<Parsed>, i: nat)
    requires i <= |report| && IngestAll(c, scanID, db, report[..i]).None?
    ensures IngestAll(c, scanID, db, report).None?
    decreases |report|
  {
    if i < |report| {
      var n := |report| - 1;
      assert report[..n][..i] == report[..i];
      PrefixFails(c, scanID, db, report[..n], i);
    } else {
      assert report[..i] == report;
    }
  }

  // The fault hits a statement for one of the first n findings.
  predicate Struck(fault: Fault, n: nat) {
    (fault.AtUpsert? || fault.AtLink?) && fault.i < n
  }

  // The fault hits a statement that the request gets to unless it fails before.
  predicate Surfaces(fault: Fault, parsed: Result<(string, seq<Parsed>), string>) {
    fault in {AtBegin, AtCreateScan, AtComplete, AtCommit} || (parsed.Ok? && Struck(fault, |parsed.value.1|))
  }

  class Store {
    var db: Db

    // A request succeeds exactly if no statement fails; then its whole effect is there.
    // Otherwise the tables are as before: the scan's row was part of the transaction, so
    // marking the scan failed after the rollback finds no row.
    method CreateScan(c: Context, scan: Scan, parsed: Result<(string, seq<Parsed>), string>, fault: Fault)
      returns (r: Result<Response, string>)
      modifies this
      ensures r.Ok? ==> scan.id !in old(db).scans && parsed.Ok?
      ensures r.Ok? ==> var (detected, report) := parsed.value;
                var w := IngestAll(c, scan.id, old(db), report);
                var scanner := ScannerOf(scan, detected);
                && w.Some?
                && r.value == Response(scan.id, scanner, w.value.imported, w.value.updated, w.value.ids)
                && db == Db(w.value.findings, old(db).scans[scan.id := Finished(scan, scanner, w.value)], w.value.links)
      ensures r.Err? ==> db == old(db)
      ensures r.Err? <==> Surfaces(fault, parsed) || scan.id in old(db).scans || parsed.Err? ||
                          IngestAll(c, scan.id, old(db), parsed.value.1).None?
    {
      if fault == AtBegin {
        return Err("failed to begin transaction");
      }
      var tx := db;
      if fault == AtCreateScan || scan.id in tx.scans {
        return Err("failed to create scan");
      }
      tx := tx.(scans := tx.scans[scan.id := scan]);
      if parsed.Err? {
        db := FailScan(db, scan.id);
        return Err(parsed.error);
      }
      var (detected, report) := parsed.value;
      var scanner := scan.scanner;
      if detected != "" && scanner == "unknown" {
        scanner := detected;
      }
      ScansDoNotMatter(c, scan.id, db, tx, report);
      var work := IngestReport(c, scan.id, tx, report, fault);
      if work.Err? {
        db := FailScan(db, scan.id);
        return Err(work.error);
      }
      var w := work.value;
      if fault == AtComplete {
        db := FailScan(db, scan.id);
        return Err("failed to finalize scan");
      }
      var done := scan.(status := Completed, scanner := scanner, imported := w.imported, updated := w.updated);
      tx := Db(w.findings, tx.scans[scan.id := done], w.links);
      if fault == AtCommit {
        db := FailScan(db, scan.id);
        return Err("failed to commit scan");
      }
      db := tx;
      return Ok(Response(scan.id, scanner, w.imported, w.updated, w.ids));
    }
  }

  lemma {:induction false} IngestNext(c: Context, scanID: Uuid, tx: Db, report: seq<Parsed>, i: nat)
    requires i < |report| && IngestAll(c, scanID, tx, report[..i]).Some?
    ensures IngestAll(c, scanID, tx, report[..i + 1]) ==
            Ingest(c, scanID, IngestAll(c, scanID, tx, report[..i]).value, i, report[i])
    ensures IngestAll(c, scanID, tx, report[..i + 1]).None? ==> IngestAll(c, scanID, tx, report).None?
  {
    assert report[..i + 1][..i] == report[..i];
    if IngestAll(c, scanID, tx, report[..i + 1]).None? {
      PrefixFails(c, scanID, tx, report, i + 1);
    }
  }

  // One turn of the loop: the upsert, the link and the counters.
  method UpsertAndLink(c: Context, scanID: Uuid, w: Work, i: nat, f: Parsed, fault: Fault)
    returns (r: Result<Work, string>)
    ensures r.Ok? ==> Ingest(c, scanID, w, i, f) == Some(r.value)
    ensures r.Err? <==> fault == AtUpsert(i) || fault == AtLink(i) || Ingest(c, scanID, w, i, f).None?
  {
    var u := if KindFits(f.kind) then Upsert(w.findings, Prepared(c, i, f)) else None;
    if fault == AtUpsert(i) || u.None? {
      return Err("failed to upsert finding");
    }
    var id, isNew, imported, updated := u.value.id, u.value.inserted, w.imported, w.updated;
    if fault == AtLink(i) {
      return Err("failed to link finding to scan");
    }
    var links := LinkFinding(w.links, Link(id, scanID, isNew));
    if isNew {
      imported := imported + 1;
    } else {
      updated := updated + 1;
    }
    return Ok(Work(u.value.rows, links, imported, updated, w.ids + [id]));
  }

  // The loop over the parsed findings, within the transaction.
  method IngestReport(c: Context, scanID: Uuid, tx: Db, report: seq<Parsed>, fault: Fault)
    returns (r: Result<Work, string>)
    ensures r.Ok? ==> IngestAll(c, scanID, tx, report) == Some(r.value)
    ensures Struck(fault, |report|) ==> r.Err?
    ensures r.Err? ==> Struck(fault, |report|) || IngestAll(c, scanID, tx, report).None?
  {
    var w := Work(tx.findings, tx.links, 0, 0, []);
    for i := 0 to |report|
      invariant IngestAll(c, scanID, tx, report[..i]) == Some(w)
      invariant !Struck(fault, i)
    {
      IngestNext(c, scanID, tx, report, i);
      var next := UpsertAndLink(c, scanID, w, i, report[i], fault);
      if next.Err? {
        return Err(next.error);
      }
      w := next.value;
    }
    assert report[..|report|] == report;
    return Ok(w);
  }

  // ---- Counts that agree -----------------------------------------------------------------------

  // Fingerprints and ids are unique.
  ghost predicate ProperRows(rows: seq<Row>) {
    && (forall i, j :: 0 <= i < j < |rows| ==> rows[i].fingerprint != rows[j].fingerprint)
    && (forall i, j :: 0 <= i < j < |rows| ==> rows[i].id != rows[j].id)
  }

  lemma {:induction false} IndexOfAbsent(rows: seq<Row>, fp: string)
    ensures IndexOf(rows, fp) == |rows| ==> forall i :: 0 <= i < |rows| ==> rows[i].fingerprint != fp
  {
    if rows != [] {
      IndexOfAbsent(rows[1..], fp);
      assert forall i :: 0 < i < |rows| ==> rows[i] == rows[1..][i - 1];
    }
  }

  function TotalSeen(rows: seq<Row>): int {
    if rows == [] then 0 else TotalSeen(rows[..|rows| - 1]) + rows[|rows| - 1].timesSeen
  }

  lemma {:induction false} TotalSeenUpdate(rows: seq<Row>, i: nat, r: Row)
    requires i < |rows|
    ensures TotalSeen(rows[i := r]) == TotalSeen(rows) - rows[i].timesSeen + r.timesSeen
  {
    var n := |rows| - 1;
    if i == n {
      assert rows[i := r][..n] == rows[..n];
    } else {
      TotalSeenUpdate(rows[..n], i, r);
      assert rows[i := r][..n] == rows[..n][i := r];
    }
  }

  lemma {:induction false} UpsertKeepsProper(rows: seq<Row>, row: Row)
    requires ProperRows(rows) && Upsert(rows, row).Some?
    ensures ProperRows(Upsert(rows, row).value.rows)
    ensures TotalSeen(Upsert(rows, row).value.rows) ==
            TotalSeen(rows) + if Upsert(rows, row).value.inserted then row.timesSeen else 1
  {
    IndexOfAbsent(rows, row.fingerprint);
    var i := IndexOf(rows, row.fingerprint);
    if i < |rows| {
      TotalSeenUpdate(rows, i, SeenAgain(rows[i], row));
    } else {
      assert (rows + [row])[..|rows|] == rows;
    }
  }

  // The times_seen of the inserted rows, added up.
  function InsertedSeen(c: Context, scanID: Uuid, db: Db, report: seq<Parsed>): int {
    if report == [] then 0
    else
      var n := |report| - 1;
      var w, f := IngestAll(c, scanID, db, report[..n]), Prepared(c, n, report[n]);
      InsertedSeen(c, scanID, db, report[..n]) +
      if w.Some? && IndexOf(w.value.findings, f.fingerprint) == |w.value.findings| then f.timesSeen else 0
  }

  // Every finding is counted once, as imported or as updated; the table grows by the
  // imported ones, and the total of times_seen by the updated ones and what was inserted.
  lemma {:induction false} CountsAgree(c: Context, scanID: Uuid, db: Db, report: seq<Parsed>)
    requires ProperRows(db.findings) && IngestAll(c, scanID, db, report).Some?
    ensures var w := IngestAll(c, scanID, db, report).value;
            && w.imported + w.updated == |report| == |w.ids|
            && |w.findings| == |db.findings| + w.imported
            && ProperRows(w.findings)
            && TotalSeen(w.findings) == TotalSeen(db.findings) + w.updated + InsertedSeen(c, scanID, db, report)
  {
    if report != [] {
      var n := |report| - 1;
      CountsAgree(c, scanID, db, report[..n]);
      UpsertKeepsProper(IngestAll(c, scanID, db, report[..n]).value.findings, Prepared(c, n, report[n]));
    }
  }

  // When no parser sets times_seen above one, the total grows by the number of findings.
  lemma {:induction false} TotalGrowsByReport(c: Context, scanID: Uuid, db: Db, report: seq<Parsed>)
    requires ProperRows(db.findings) && IngestAll(c, scanID, db, report).Some?
    requires forall i :: 0 <= i < |report| ==> report[i].timesSeen == 0 || report[i].timesSeen == 1
    ensures TotalSeen(IngestAll(c, scanID, db, report).value.findings) == TotalSeen(db.findings) + |report|
  {
    CountsAgree(c, scanID, db, report);
    if report != [] {
      var n := |report| - 1;
      TotalGrowsByReport(c, scanID, db, report[..n]);
      CountsAgree(c, scanID, db, report[..n]);
    }
  }

  // ---- What happens to the rows -----------------------------------------------------------------

  function Occurrences(c: Context, report: seq<Parsed>, fp: string): nat {
    if report == [] then 0
    else
      Occurrences(c, report[..|report| - 1], fp) + if FingerprintOf(c, report[|report| - 1]) == fp then 1 else 0
  }

  // The last_seen of the last finding with the fingerprint, if there is one.
  function LastSeen(c: Context, report: seq<Parsed>, fp: string, before: Time): Time {
    if report == [] then before
    else if FingerprintOf(c, report[|report| - 1]) == fp then report[|report| - 1].lastSeen.GetOr(c.now)
    else LastSeen(c, report[..|report| - 1], fp, before)
  }

  // Its last secret fingerprint, if one of them has any.
  function LastSecret(c: Context, report: seq<Parsed>, fp: string, before: Option<string>): Option<string> {
    if report == [] then before
    else
      var f := report[|report| - 1];
      if FingerprintOf(c, f) == fp && f.secretFingerprint.Some? then f.secretFingerprint
      else LastSecret(c, report[..|report| - 1], fp, before)
  }

  // A row that was there keeps its id, first_seen and all that triage and other imports
  // gave it; it is seen once more for each finding of the report with its fingerprint.
  lemma {:induction false} OldRowsKeep(c: Context, scanID: Uuid, db: Db, report: seq<Parsed>, i: nat)
    requires ProperRows(db.findings) && IngestAll(c, scanID, db, report).Some? && i < |db.findings|
    ensures var rows, r := IngestAll(c, scanID, db, report).value.findings, db.findings[i];
            && i < |rows|
            && rows[i].id == r.id && rows[i].fingerprint == r.fingerprint
            && rows[i].firstSeen == r.firstSeen && rows[i].rest == r.rest
            && rows[i].timesSeen == r.timesSeen + Occurrences(c, report, r.fingerprint)
            && rows[i].lastSeen == LastSeen(c, report, r.fingerprint, r.lastSeen)
            && rows[i].secretFingerprint == LastSecret(c, report, r.fingerprint, r.secretFingerprint)
  {
    if report != [] {
      var n := |report| - 1;
      var fp := FingerprintOf(c, report[n]);
      OldRowsKeep(c, scanID, db, report[..n], i);
      CountsAgree(c, scanID, db, report[..n]);
      IndexOfAbsent(IngestAll(c, scanID, db, report[..n]).value.findings, fp);
    }
  }

  // ---- The links --------------------------------------------------------------------------------

  function Fingerprints(c: Context, report: seq<Parsed>): set<string> {
    if report == [] then {} else Fingerprints(c, report[..|report| - 1]) + {FingerprintOf(c, report[|report| - 1])}
  }

  function LinksOf(links: seq<Link>, scanID: Uuid): nat {
    if links == [] then 0
    else LinksOf(links[..|links| - 1], scanID) + if links[|links| - 1].scanID == scanID then 1 else 0
  }

  function NewLinksOf(links: seq<Link>, scanID: Uuid): nat {
    if links == [] then 0
    else
      NewLinksOf(links[..|links| - 1], scanID) +
      if links[|links| - 1].scanID == scanID && links[|links| - 1].isNew then 1 else 0
  }

  // The scan links exactly the rows whose fingerprints the report had so far.
  ghost predicate RowsLinked(scanID: Uuid, w: Work, seen: set<string>) {
    forall i :: 0 <= i < |w.findings| ==>
      (Linked(w.links, w.findings[i].id, scanID) <==> w.findings[i].fingerprint in seen)
  }

  ghost predicate LinksHaveRows(scanID: Uuid, w: Work) {
    forall l :: l in w.links && l.scanID == scanID ==> HasID(w.findings, l.findingID)
  }

  ghost predicate SeenAreStored(w: Work, seen: set<string>) {
    forall fp :: fp in seen ==> IndexOf(w.findings, fp) < |w.findings|
  }

  ghost predicate LinksAgree(scanID: Uuid, w: Work, seen: set<string>) {
    RowsLinked(scanID, w, seen) && LinksHaveRows(scanID, w) && SeenAreStored(w, seen)
  }

  lemma {:induction false} LinkAdds(links: seq<Link>, l: Link)
    ensures forall f :: Linked(LinkFinding(links, l), f, l.scanID) <==> Linked(links, f, l.scanID) || f == l.findingID
    ensures LinksOf(LinkFinding(links, l), l.scanID) ==
            LinksOf(links, l.scanID) + if Linked(links, l.findingID, l.scanID) then 0 else 1
    ensures NewLinksOf(LinkFinding(links, l), l.scanID) ==
            NewLinksOf(links, l.scanID) + if !Linked(links, l.findingID, l.scanID) && l.isNew then 1 else 0
    ensures links <= LinkFinding(links, l)
    ensures forall k :: k in LinkFinding(links, l) ==> k in links || k == l
  {
    if !Linked(links, l.findingID, l.scanID) {
      assert (links + [l])[..|links|] == links;
      forall f ensures Linked(links + [l], f, l.scanID) <==> Linked(links, f, l.scanID) || f == l.findingID {
        if Linked(links, f, l.scanID) {
          var i :| 0 <= i < |links| && links[i].findingID == f && links[i].scanID == l.scanID;
          assert (links + [l])[i] == links[i];
        }
        assert (links + [l])[|links|] == l;
      }
    }
  }

  lemma {:induction false} IndexOfExtends(rows: seq<Row>, more: seq<Row>, fp: string)
    requires |rows| <= |more|
    requires forall i :: 0 <= i < |rows| ==> rows[i].fingerprint == more[i].fingerprint
    ensures IndexOf(rows, fp) < |rows| ==> IndexOf(more, fp) == IndexOf(rows, fp)
  {
    if rows != [] && rows[0].fingerprint != fp {
      IndexOfExtends(rows[1..], more[1..], fp);
    }
  }

  // An upsert keeps each row's id and fingerprint in its place, and its own row is there.
  lemma {:induction false} UpsertPlaces(rows: seq<Row>, row: Row)
    requires Upsert(rows, row).Some?
    ensures var u, i := Upsert(rows, row).value, IndexOf(rows, row.fingerprint);
            && |rows| <= |u.rows| && i < |u.rows| && u.rows[i].id == u.id && u.rows[i].fingerprint == row.fingerprint
            && IndexOf(u.rows, row.fingerprint) < |u.rows|
            && (forall j :: 0 <= j < |rows| ==>
                  u.rows[j].id == rows[j].id && u.rows[j].fingerprint == rows[j].fingerprint)
            && (u.inserted <==> i == |rows|) && |u.rows| == |rows| + (if u.inserted then 1 else 0)
            && (u.inserted ==> !HasID(rows, u.id))
  {
    var u := Upsert(rows, row).value;
    IndexOfAbsent(u.rows, row.fingerprint);
  }

  lemma LinkedHasRow(scanID: Uuid, w: Work, id: Uuid)
    requires LinksHaveRows(scanID, w)
    ensures Linked(w.links, id, scanID) ==> HasID(w.findings, id)
  {
    if k :| 0 <= k < |w.links| && w.links[k].findingID == id && w.links[k].scanID == scanID {
      assert w.links[k] in w.links;
    }
  }

  lemma {:induction false} LinksStep(c: Context, scanID: Uuid, w: Work, i: nat, f: Parsed, seen: set<string>)
    requires ProperRows(w.findings) && LinksAgree(scanID, w, seen) && Ingest(c, scanID, w, i, f).Some?
    ensures var t := Ingest(c, scanID, w, i, f).value;
            && LinksOf(t.links, scanID) == LinksOf(w.links, scanID) + (if FingerprintOf(c, f) in seen then 0 else 1)
            && NewLinksOf(t.links, scanID) == NewLinksOf(w.links, scanID) + t.imported - w.imported
            && w.links <= t.links
  {
    var row := Prepared(c, i, f);
    var u := Upsert(w.findings, row).value;
    UpsertPlaces(w.findings, row);
    LinkAdds(w.links, Link(u.id, scanID, u.inserted));
    LinkedHasRow(scanID, w, u.id);
    assert Linked(w.links, u.id, scanID) <==> row.fingerprint in seen;
  }

  lemma RowsStayLinked(c: Context, scanID: Uuid, w: Work, i: nat, f: Parsed, seen: set<string>)
    requires ProperRows(w.findings) && LinksAgree(scanID, w, seen) && Ingest(c, scanID, w, i, f).Some?
    ensures RowsLinked(scanID, Ingest(c, scanID, w, i, f).value, seen + {FingerprintOf(c, f)})
  {
    var t, row := Ingest(c, scanID, w, i, f).value, Prepared(c, i, f);
    var u := Upsert(w.findings, row).value;
    UpsertPlaces(w.findings, row);
    UpsertKeepsProper(w.findings, row);
    LinkAdds(w.links, Link(u.id, scanID, u.inserted));
    var at := IndexOf(w.findings, row.fingerprint);
    forall j | 0 <= j < |t.findings|
      ensures Linked(t.links, t.findings[j].id, scanID) <==> t.findings[j].fingerprint in seen + {row.fingerprint}
    {
      if j != at {
        assert t.findings[j].id != t.findings[at].id;
        assert t.findings[j].fingerprint != t.findings[at].fingerprint;
      }
    }
  }

  lemma LinksKeepRows(c: Context, scanID: Uuid, w: Work, i: nat, f: Parsed)
    requires LinksHaveRows(scanID, w) && Ingest(c, scanID, w, i, f).Some?
    ensures LinksHaveRows(scanID, Ingest(c, scanID, w, i, f).value)
  {
    var t, row := Ingest(c, scanID, w, i, f).value, Prepared(c, i, f);
    var u := Upsert(w.findings, row).value;
    UpsertPlaces(w.findings, row);
    LinkAdds(w.links, Link(u.id, scanID, u.inserted));
    forall l | l in t.links && l.scanID == scanID ensures HasID(t.findings, l.findingID) {
      if l in w.links {
        var j :| 0 <= j < |w.findings| && w.findings[j].id == l.findingID;
        assert t.findings[j].id == l.findingID;
      }
    }
  }

  lemma SeenStayStored(c: Context, scanID: Uuid, w: Work, i: nat, f: Parsed, seen: set<string>)
    requires SeenAreStored(w, seen) && Ingest(c, scanID, w, i, f).Some?
    ensures SeenAreStored(Ingest(c, scanID, w, i, f).value, seen + {FingerprintOf(c, f)})
  {
    var t, row := Ingest(c, scanID, w, i, f).value, Prepared(c, i, f);
    UpsertPlaces(w.findings, row);
    forall fp | fp in seen + {row.fingerprint} ensures IndexOf(t.findings, fp) < |t.findings| {
      IndexOfExtends(w.findings, t.findings, fp);
    }
  }

  lemma {:induction false} NoLinksYet(links: seq<Link>, scanID: Uuid)
    requires forall l :: l in links ==> l.scanID != scanID
    ensures LinksOf(links, scanID) == 0 && NewLinksOf(links, scanID) == 0
    ensures forall f :: !Linked(links, f, scanID)
  {
    if links != [] {
      NoLinksYet(links[..|links| - 1], scanID);
    }
    assert forall k :: 0 <= k < |links| ==> links[k] in links;
  }

  lemma LinksAgreeNext(c: Context, scanID: Uuid, w: Work, i: nat, f: Parsed, seen: set<string>)
    requires ProperRows(w.findings) && LinksAgree(scanID, w, seen) && Ingest(c, scanID, w, i, f).Some?
    ensures LinksAgree(scanID, Ingest(c, scanID, w, i, f).value, seen + {FingerprintOf(c, f)})
  {
    RowsStayLinked(c, scanID, w, i, f, seen);
    LinksKeepRows(c, scanID, w, i, f);
    SeenStayStored(c, scanID, w, i, f, seen);
  }

  // Having seen these fingerprints the scan has one link for each, of which those marked
  // new are the imported ones; links of other scans stay.
  ghost predicate Matched(scanID: Uuid, db: Db, w: Work, seen: set<string>) {
    && LinksOf(w.links, scanID) == |seen|
    && NewLinksOf(w.links, scanID) == w.imported
    && db.links <= w.links
  }

  lemma AddOne(seen: set<string>, fp: string)
    ensures |seen + {fp}| == |seen| + if fp in seen then 0 else 1
  {
    assert fp in seen ==> seen + {fp} == seen;
  }

  lemma MatchedNext(c: Context, scanID: Uuid, db: Db, w: Work, i: nat, f: Parsed, seen: set<string>)
    requires ProperRows(w.findings) && LinksAgree(scanID, w, seen) && Matched(scanID, db, w, seen)
    requires Ingest(c, scanID, w, i, f).Some?
    ensures Matched(scanID, db, Ingest(c, scanID, w, i, f).value, seen + {FingerprintOf(c, f)})
  {
    LinksStep(c, scanID, w, i, f, seen);
    AddOne(seen, FingerprintOf(c, f));
  }

  lemma {:induction false} LinksMatch(c: Context, scanID: Uuid, db: Db, report: seq<Parsed>)
    requires ProperRows(db.findings) && IngestAll(c, scanID, db, report).Some?
    requires forall l :: l in db.links ==> l.scanID != scanID
    ensures Matched(scanID, db, IngestAll(c, scanID, db, report).value, Fingerprints(c, report))
    ensures LinksAgree(scanID, IngestAll(c, scanID, db, report).value, Fingerprints(c, report))
  {
    if report == [] {
      NoLinksYet(db.links, scanID);
    } else {
      var n := |report| - 1;
      var w, seen := IngestAll(c, scanID, db, report[..n]), Fingerprints(c, report[..n]);
      LinksMatch(c, scanID, db, report[..n]);
      CountsAgree(c, scanID, db, report[..n]);
      LinksAgreeNext(c, scanID, w.value, n, report[n], seen);
      MatchedNext(c, scanID, db, w.value, n, report[n], seen);
    }
  }

  predicate StoredAs(rows: seq<Row>, fp: string, id: Uuid) {
    IndexOf(rows, fp) < |rows| && rows[IndexOf(rows, fp)].id == id
  }

  lemma StaysStored(rows: seq<Row>, row: Row, fp: string, id: Uuid)
    requires Upsert(rows, row).Some? && StoredAs(rows, fp, id)
    ensures StoredAs(Upsert(rows, row).value.rows, fp, id)
  {
    UpsertPlaces(rows, row);
    IndexOfExtends(rows, Upsert(rows, row).value.rows, fp);
  }

  // Each published id is the finding with that entry's fingerprint.
  lemma {:induction false} PublishedAreStored(c: Context, scanID: Uuid, db: Db, report: seq<Parsed>, i: nat)
    requires IngestAll(c, scanID, db, report).Some? && i < |report|
    ensures var w := IngestAll(c, scanID, db, report).value;
            |w.ids| == |report| && StoredAs(w.findings, FingerprintOf(c, report[i]), w.ids[i])
  {
    var n := |report| - 1;
    var w, row := IngestAll(c, scanID, db, report[..n]).value, Prepared(c, n, report[n]);
    IDsCount(c, scanID, db, report[..n]);
    if i < n {
      PublishedAreStored(c, scanID, db, report[..n], i);
      StaysStored(w.findings, row, FingerprintOf(c, report[i]), w.ids[i]);
    } else {
      UpsertFinds(w.findings, row);
    }
  }

  lemma UpsertFinds(rows: seq<Row>, row: Row)
    requires Upsert(rows, row).Some?
    ensures var u := Upsert(rows, row).value;
            IndexOf(u.rows, row.fingerprint) < |u.rows| && u.rows[IndexOf(u.rows, row.fingerprint)].id == u.id
  {
    UpsertPlaces(rows, row);
    if IndexOf(rows, row.fingerprint) < |rows| {
      IndexOfExtends(rows, Upsert(rows, row).value.rows, row.fingerprint);
    } else {
      IndexOfLast(rows, row);
    }
  }

  lemma {:induction false} IDsCount(c: Context, scanID: Uuid, db: Db, report: seq<Parsed>)
    requires IngestAll(c, scanID, db, report).Some?
    ensures |IngestAll(c, scanID, db, report).value.ids| == |report|
  {
    if report != [] {
      IDsCount(c, scanID, db, report[..|report| - 1]);
    }
  }

  lemma {:induction false} IndexOfLast(rows: seq<Row>, row: Row)
    requires IndexOf(rows, row.fingerprint) == |rows|
    ensures IndexOf(rows + [row], row.fingerprint) == |rows|
  {
    if rows != [] {
      IndexOfLast(rows[1..], row);
      assert (rows + [row])[1..] == rows[1..] + [row];
    }
  }
}
