/** The fragment of SQL that findings queries are compiled to: conditions over one
    row with numbered placeholders, evaluated in three-valued logic. */
module Sql {
  import opened Common

  type Smallint = k: int | -0x8000 <= k < 0x8000

  /** A row of the findings table, as far as queries read it. */
  datatype Finding = Finding(
    id: Uuid, firstSeen: Time, lastSeen: Time, severity: int, status: int, kind: Smallint,
    projectID: Uuid, sourceType: string,
    component: Option<string>, componentVersion: Option<string>,
    cveIDs: Option<seq<string>>, cweIDs: Option<seq<int>>,
    fixedVersion: Option<string>, packageEcosystem: Option<string>,
    iacProvider: Option<string>, secretKind: Option<string>,
    ruleID: Option<string>, secretFingerprint: Option<string>,
    assignedTo: Option<Uuid>, priorityScore: Option<real>)

  /** What a query reads besides the row: the catalogues, the clock, and Postgres'
      pattern and text matching, which stay uninterpreted. */
  datatype World = World(
    kev: set<string>, bdu: set<string>, epss: map<string, real>, cvss: map<string, real>,
    now: Time, ilike: (string, string) -> bool, textMatch: (Uuid, string) -> bool)

  datatype Truth = True | False | Null
    | Broken  // a missing or ill-typed argument: the statement fails

  datatype Val = VNull | VInt(i: int) | VStr(s: string) | VUuid(u: Uuid)

  datatype Arg = One(v: Val) | Many(vs: seq<Val>) | Num(x: real)

  datatype Column = ProjectID | Severity | Status | Kind | AssignedTo | Ecosystem
    | IacProvider | SecretKind | SourceType | RuleID | SecretFingerprint | FixedVersion

  datatype Cond =
    | Never                                // 1 = 0
    | EqAny(col: Column, k: nat)           // col = ANY($k)
    | Eq(col: Column, k: nat)              // col = $k
    | IsNull(col: Column)
    | NotNull(col: Column)
    | KindIs(kind: int)                    // finding_kind = a number in the text
    | HasCVE                               // array_length(cve_ids, 1) > 0
    | InKEV
    | InBDU
    | EpssAtLeast(k: nat)                  // COALESCE((SELECT MAX(epss_score) ...), 0) >= $k
    | CvssAtLeast(k: nat)
    | SeenWithinDays(k: nat)
    | ComponentLikeAny(k: nat)             // component ILIKE ANY($k)
    | VersionOrEmptyEq(k: nat)             // COALESCE(component_version, '') = $k
    | TextSearch(k: nat)
    | CveContains(k: nat)                  // cve_ids @> ARRAY[$k]
    | CweContains(k: nat)
    | KeyBefore(k1: nat, k2: nat)          // (first_seen, id) < ($k1, $k2)
    | KeyAfter(k1: nat, k2: nat)

  const DAY: int := 86_400 * SECOND

  function Str(s: Option<string>): Val {
    if s.Some? then VStr(s.value) else VNull
  }

  function Col(c: Column, r: Finding): Val {
    match c
    case ProjectID => VUuid(r.projectID)
    case Severity => VInt(r.severity)
    case Status => VInt(r.status)
    case Kind => VInt(r.kind)
    case AssignedTo => if r.assignedTo.Some? then VUuid(r.assignedTo.value) else VNull
    case Ecosystem => Str(r.packageEcosystem)
    case IacProvider => Str(r.iacProvider)
    case SecretKind => Str(r.secretKind)
    case SourceType => VStr(r.sourceType)
    case RuleID => Str(r.ruleID)
    case SecretFingerprint => Str(r.secretFingerprint)
    case FixedVersion => Str(r.fixedVersion)
  }

  // SELECT MAX(score) ... WHERE cve = ANY(cves); NULL when no CVE has a score.
  function MaxScore(cves: seq<string>, scores: map<string, real>): Option<real> {
    if cves == [] then None
    else
      var rest := MaxScore(cves[1..], scores);
      if cves[0] !in scores then rest
      else if rest.Some? && rest.value >= scores[cves[0]] then rest
      else Some(scores[cves[0]])
  }

  function MaxScoreOrZero(cves: Option<seq<string>>, scores: map<string, real>): real {
    var m := if cves.Some? then MaxScore(cves.value, scores) else None;
    if m.Some? then m.value else 0.0
  }

  function Bool(b: bool): Truth {
    if b then True else False
  }

  // The argument bound to $k when the placeholders start at start.
  function Bound(args: seq<Arg>, start: nat, k: nat): Option<Arg> {
    if start <= k < start + |args| then Some(args[k - start]) else None
  }

  predicate KeyLess(t1: Time, id1: Uuid, t2: Time, id2: Uuid) {
    t1 < t2 || (t1 == t2 && id1 < id2)
  }

  // EXISTS (SELECT 1 FROM catalog WHERE cve = ANY(cves))
  predicate Listed(cves: Option<seq<string>>, catalog: set<string>) {
    cves.Some? && exists c :: c in cves.value && c in catalog
  }

  predicate LikeAny(s: string, patterns: seq<Val>, w: World) {
    exists v :: v in patterns && v.VStr? && w.ilike(s, v.s)
  }

  function Eval(c: Cond, args: seq<Arg>, start: nat, r: Finding, w: World): Truth {
    match c
    case Never => False
    case EqAny(col, k) =>
      (match Bound(args, start, k)
       case Some(Many(vs)) => if Col(col, r).VNull? then Null else Bool(Col(col, r) in vs)
       case _ => Broken)
    case Eq(col, k) =>
      (match Bound(args, start, k)
       case Some(One(v)) => if Col(col, r).VNull? then Null else Bool(Col(col, r) == v)
       case _ => Broken)
    case IsNull(col) => Bool(Col(col, r).VNull?)
    case NotNull(col) => Bool(!Col(col, r).VNull?)
    case KindIs(n) => Bool(r.kind == n)
    case HasCVE => if r.cveIDs.None? || r.cveIDs.value == [] then Null else True
    case InKEV => Bool(Listed(r.cveIDs, w.kev))
    case InBDU => Bool(Listed(r.cveIDs, w.bdu))
    case EpssAtLeast(k) =>
      (match Bound(args, start, k)
       case Some(Num(x)) => Bool(MaxScoreOrZero(r.cveIDs, w.epss) >= x)
       case _ => Broken)
    case CvssAtLeast(k) =>
      (match Bound(args, start, k)
       case Some(Num(x)) => Bool(MaxScoreOrZero(r.cveIDs, w.cvss) >= x)
       case _ => Broken)
    case SeenWithinDays(k) =>
      (match Bound(args, start, k)
       case Some(One(VInt(days))) => Bool(r.firstSeen >= w.now - days * DAY)
       case _ => Broken)
    case ComponentLikeAny(k) =>
      (match Bound(args, start, k)
       case Some(Many(vs)) =>
         if r.component.None? then Null
         else Bool(LikeAny(r.component.value, vs, w))
       case _ => Broken)
    case VersionOrEmptyEq(k) =>
      (match Bound(args, start, k)
       case Some(One(VStr(s))) =>
         Bool((if r.componentVersion.Some? then r.componentVersion.value else "") == s)
       case _ => Broken)
    case TextSearch(k) =>
      (match Bound(args, start, k)
       case Some(One(VStr(s))) => Bool(w.textMatch(r.id, s))
       case _ => Broken)
    case CveContains(k) =>
      (match Bound(args, start, k)
       case Some(One(VStr(s))) => if r.cveIDs.None? then Null else Bool(s in r.cveIDs.value)
       case _ => Broken)
    case CweContains(k) =>
      (match Bound(args, start, k)
       case Some(One(VInt(i))) => if r.cweIDs.None? then Null else Bool(i in r.cweIDs.value)
       case _ => Broken)
    case KeyBefore(k1, k2) =>
      (match (Bound(args, start, k1), Bound(args, start, k2))
       case (Some(One(VInt(t))), Some(One(VUuid(id)))) => Bool(KeyLess(r.firstSeen, r.id, t, id))
       case _ => Broken)
    case KeyAfter(k1, k2) =>
      (match (Bound(args, start, k1), Bound(args, start, k2))
       case (Some(One(VInt(t))), Some(One(VUuid(id)))) => Bool(KeyLess(t, id, r.firstSeen, r.id))
       case _ => Broken)
  }

  // The row passes WHERE c1 AND c2 AND ...
  predicate Passes(conds: seq<Cond>, args: seq<Arg>, start: nat, r: Finding, w: World) {
    forall i :: 0 <= i < |conds| ==> Eval(conds[i], args, start, r, w) == True
  }

  // Every placeholder is one of $start .. $(limit-1).
  predicate RefersBelow(c: Cond, start: nat, limit: nat) {
    match c
    case Never | IsNull(_) | NotNull(_) | KindIs(_) | HasCVE | InKEV | InBDU => true
    case KeyBefore(k1, k2) => start <= k1 < limit && start <= k2 < limit
    case KeyAfter(k1, k2) => start <= k1 < limit && start <= k2 < limit
    case EqAny(_, k) => start <= k < limit
    case Eq(_, k) => start <= k < limit
    case EpssAtLeast(k) => start <= k < limit
    case CvssAtLeast(k) => start <= k < limit
    case SeenWithinDays(k) => start <= k < limit
    case ComponentLikeAny(k) => start <= k < limit
    case VersionOrEmptyEq(k) => start <= k < limit
    case TextSearch(k) => start <= k < limit
    case CveContains(k) => start <= k < limit
    case CweContains(k) => start <= k < limit
  }

  // Binding more arguments after the existing ones does not disturb a condition.
  lemma MoreArgs(c: Cond, args: seq<Arg>, more: seq<Arg>, start: nat, r: Finding, w: World)
    requires RefersBelow(c, start, start + |args|)
    ensures Eval(c, args + more, start, r, w) == Eval(c, args, start, r, w)
  {
    assert forall k :: start <= k < start + |args| ==>
        Bound(args + more, start, k) == Bound(args, start, k);
  }

  // MAX over the scored CVEs reaches x exactly when one of them does, or when none
  // is scored and zero, the COALESCE default, reaches x.
  lemma {:induction false} MaxScoreReaches(cves: seq<string>, scores: map<string, real>, x: real)
    ensures MaxScore(cves, scores).None? <==> forall c :: c in cves ==> c !in scores
    ensures MaxScore(cves, scores).Some? ==>
              (MaxScore(cves, scores).value >= x <==>
               exists c :: c in cves && c in scores && scores[c] >= x)
  {
    if cves != [] {
      MaxScoreReaches(cves[1..], scores, x);
      assert cves == [cves[0]] + cves[1..];
    }
  }
}
