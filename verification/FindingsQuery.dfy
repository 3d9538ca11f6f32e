/** FindingsRepo's query compiler: a filter becomes SQL conditions with numbered
    placeholders, optionally with one facet axis left out. */
module FindingsQuery {
  import opened Common
  import opened Sql

  datatype Filter = Filter(
    accessibleProjectIDs: Option<seq<Uuid>>, projectID: Uuid,
    severities: seq<int>, statuses: seq<int>, kinds: seq<int>,
    hasCVE: Option<bool>, hasFix: Option<bool>, inKEV: Option<bool>, inBDU: Option<bool>,
    epssMin: Option<real>, cvssMin: Option<real>, ageMaxDays: Option<int>,
    packageEcosystems: seq<string>, iacProviders: seq<string>, secretKinds: seq<string>,
    sourceTypes: seq<string>, components: seq<string>, componentVersion: string,
    ruleID: string, secretFingerprint: string,
    assigneeUserIDs: seq<Uuid>, assigneeMeUserID: Option<Uuid>, unassigned: bool,
    query: string, cve: string, cwe: int)

  // The axes excludeField can name, and NoFacet for the empty string.
  datatype Facet = NoFacet | FacetSeverity | FacetStatus | FacetKind | FacetProject
    | FacetEcosystem | FacetIacProvider | FacetSecretKind | FacetSource
    | FacetHasCVE | FacetHasFix | FacetInKEV | FacetInBDU

  // ---- What a filter means, without SQL --------------------------------------

  predicate OneOf<T(==)>(wanted: seq<T>, v: T) {
    wanted == [] || v in wanted
  }

  predicate KnownOneOf<T(==)>(wanted: seq<T>, v: Option<T>) {
    wanted == [] || (v.Some? && v.value in wanted)
  }

  ghost predicate ScoreReaches(cves: Option<seq<string>>, scores: map<string, real>, x: real) {
    || (cves.Some? && exists c :: c in cves.value && c in scores && scores[c] >= x)
    || (x <= 0.0 && (cves.Some? ==> forall c :: c in cves.value ==> c !in scores))
  }

  ghost predicate ProjectMatches(f: Filter, ex: Facet, r: Finding) {
    && (f.accessibleProjectIDs.Some? ==> r.projectID in f.accessibleProjectIDs.value)
    && (f.projectID != NIL && ex != FacetProject ==> r.projectID == f.projectID)
  }

  ghost predicate ClassMatches(f: Filter, ex: Facet, r: Finding) {
    && (ex == FacetSeverity || OneOf(f.severities, r.severity))
    && (ex == FacetStatus || OneOf(f.statuses, r.status))
  }

  ghost predicate KindMatches(f: Filter, ex: Facet, r: Finding) {
    ex == FacetKind || OneOf(f.kinds, r.kind)
  }

  ghost predicate PresenceMatches(f: Filter, ex: Facet, r: Finding) {
    && (f.hasCVE == Some(true) && ex != FacetHasCVE ==> r.cveIDs.Some? && r.cveIDs.value != [])
    && (f.hasFix == Some(true) && ex != FacetHasFix ==> r.fixedVersion.Some?)
  }

  ghost predicate CatalogMatches(f: Filter, ex: Facet, r: Finding, w: World) {
    && (f.inKEV == Some(true) && ex != FacetInKEV ==> Listed(r.cveIDs, w.kev))
    && (f.inBDU == Some(true) && ex != FacetInBDU ==> Listed(r.cveIDs, w.bdu))
  }

  ghost predicate ScoreMatches(f: Filter, r: Finding, w: World) {
    && (f.epssMin.Some? ==> ScoreReaches(r.cveIDs, w.epss, f.epssMin.value))
    && (f.cvssMin.Some? ==> ScoreReaches(r.cveIDs, w.cvss, f.cvssMin.value))
  }

  ghost predicate AssigneeMatches(f: Filter, r: Finding) {
    && (f.assigneeMeUserID.Some? ==> r.assignedTo == f.assigneeMeUserID)
    && (f.unassigned ==> r.assignedTo.None?)
    && KnownOneOf(f.assigneeUserIDs, r.assignedTo)
  }

  ghost predicate AgeMatches(f: Filter, ex: Facet, r: Finding, w: World) {
    && (f.ageMaxDays.Some? && f.ageMaxDays.value > 0 ==>
          w.now - r.firstSeen <= f.ageMaxDays.value * DAY)
    && (ex == FacetEcosystem || KnownOneOf(f.packageEcosystems, r.packageEcosystem))
  }

  ghost predicate AttributeMatches(f: Filter, ex: Facet, r: Finding) {
    && (ex == FacetIacProvider || KnownOneOf(f.iacProviders, r.iacProvider))
    && (ex == FacetSecretKind || KnownOneOf(f.secretKinds, r.secretKind))
  }

  ghost predicate ComponentMatches(f: Filter, ex: Facet, r: Finding, w: World) {
    && (ex == FacetSource || OneOf(f.sourceTypes, r.sourceType))
    && (f.components == [] || (r.component.Some? &&
          exists c :: c in f.components && w.ilike(r.component.value, "%" + c + "%")))
  }

  ghost predicate TextMatches(f: Filter, r: Finding, w: World) {
    && (f.componentVersion == "" || r.componentVersion == Some(f.componentVersion))
    && (f.ruleID == "" || r.ruleID == Some(f.ruleID))
    && (f.query == "" || w.textMatch(r.id, f.query))
  }

  ghost predicate WeaknessMatches(f: Filter, r: Finding) {
    && (f.cve == "" || (r.cveIDs.Some? && f.cve in r.cveIDs.value))
    && (f.cwe <= 0 || (r.cweIDs.Some? && f.cwe in r.cweIDs.value))
    && (f.secretFingerprint == "" || r.secretFingerprint == Some(f.secretFingerprint))
  }

  ghost predicate ScopeMatches(f: Filter, ex: Facet, r: Finding, w: World) {
    && ProjectMatches(f, ex, r)
    && ClassMatches(f, ex, r)
    && KindMatches(f, ex, r)
    && PresenceMatches(f, ex, r)
    && CatalogMatches(f, ex, r, w)
    && ScoreMatches(f, r, w)
  }

  ghost predicate DetailMatches(f: Filter, ex: Facet, r: Finding, w: World) {
    && AssigneeMatches(f, r)
    && AgeMatches(f, ex, r, w)
    && AttributeMatches(f, ex, r)
    && ComponentMatches(f, ex, r, w)
    && TextMatches(f, r, w)
    && WeaknessMatches(f, r)
  }

  // The row satisfies the filter with the axis ex dropped.
  ghost predicate Matches(f: Filter, ex: Facet, r: Finding, w: World) {
    ScopeMatches(f, ex, r, w) && DetailMatches(f, ex, r, w)
  }

  // A kind outside int16 makes the compiler emit a condition that is never true.
  predicate KindsFit(f: Filter, ex: Facet) {
    ex == FacetKind || forall k :: k in f.kinds ==> -0x8000 <= k < 0x8000
  }

  // ---- The conditions, in the order they are emitted -----------------------------

  function Ints(s: seq<int>): seq<Val> {
    if s == [] then [] else Ints(s[..|s| - 1]) + [VInt(s[|s| - 1])]
  }

  function Strs(s: seq<string>): seq<Val> {
    if s == [] then [] else Strs(s[..|s| - 1]) + [VStr(s[|s| - 1])]
  }

  function Uuids(s: seq<Uuid>): seq<Val> {
    if s == [] then [] else Uuids(s[..|s| - 1]) + [VUuid(s[|s| - 1])]
  }

  // "%" + component + "%", the argument of ILIKE ANY.
  function Patterns(s: seq<string>): seq<Val> {
    if s == [] then [] else Patterns(s[..|s| - 1]) + [VStr("%" + s[|s| - 1] + "%")]
  }

  datatype Compiled = Compiled(conds: seq<Cond>, args: seq<Arg>)

  // One if statement: nothing, a condition, or a condition with its argument.
  function Add(b: Compiled, on: bool, c: Cond): Compiled {
    if on then b.(conds := b.conds + [c]) else b
  }

  function Bind(b: Compiled, on: bool, c: Cond, arg: Arg): Compiled {
    if on then Compiled(b.conds + [c], b.args + [arg]) else b
  }

  function Next(b: Compiled, start: nat): nat { start + |b.args| }

  function ProjectWhere(b: Compiled, f: Filter, ex: Facet, start: nat): Compiled {
    var ids := f.accessibleProjectIDs;
    var b := Add(b, ids == Some([]), Never);
    var b := Bind(b, ids.Some? && ids != Some([]), EqAny(ProjectID, Next(b, start)), Many(Uuids(ids.GetOr([]))));
    Bind(b, f.projectID != NIL && ex != FacetProject, Eq(ProjectID, Next(b, start)), One(VUuid(f.projectID)))
  }

  function ClassWhere(b: Compiled, f: Filter, ex: Facet, start: nat): Compiled {
    var b := Bind(b, |f.severities| > 0 && ex != FacetSeverity, EqAny(Severity, Next(b, start)),
                  Many(Ints(f.severities)));
    Bind(b, |f.statuses| > 0 && ex != FacetStatus, EqAny(Status, Next(b, start)), Many(Ints(f.statuses)))
  }

  function KindWhere(b: Compiled, f: Filter, ex: Facet, start: nat): Compiled {
    var b := Add(b, |f.kinds| > 0 && !KindsFit(f, ex), Never);
    Bind(b, |f.kinds| > 0 && ex != FacetKind && KindsFit(f, ex), EqAny(Kind, Next(b, start)), Many(Ints(f.kinds)))
  }

  function PresenceWhere(b: Compiled, f: Filter, ex: Facet, start: nat): Compiled {
    var b := Add(b, f.hasCVE == Some(true) && ex != FacetHasCVE, HasCVE);
    Add(b, f.hasFix == Some(true) && ex != FacetHasFix, NotNull(FixedVersion))
  }

  function CatalogWhere(b: Compiled, f: Filter, ex: Facet, start: nat): Compiled {
    var b := Add(b, f.inKEV == Some(true) && ex != FacetInKEV, InKEV);
    Add(b, f.inBDU == Some(true) && ex != FacetInBDU, InBDU)
  }

  function ScoreWhere(b: Compiled, f: Filter, start: nat): Compiled {
    var b := Bind(b, f.epssMin.Some?, EpssAtLeast(Next(b, start)), Num(f.epssMin.GetOr(0.0)));
    Bind(b, f.cvssMin.Some?, CvssAtLeast(Next(b, start)), Num(f.cvssMin.GetOr(0.0)))
  }

  function AssigneeWhere(b: Compiled, f: Filter, start: nat): Compiled {
    var b := Bind(b, f.assigneeMeUserID.Some?, Eq(AssignedTo, Next(b, start)),
                  One(VUuid(f.assigneeMeUserID.GetOr(NIL))));
    var b := Add(b, f.unassigned, IsNull(AssignedTo));
    Bind(b, |f.assigneeUserIDs| > 0, EqAny(AssignedTo, Next(b, start)), Many(Uuids(f.assigneeUserIDs)))
  }

  function AgeWhere(b: Compiled, f: Filter, ex: Facet, start: nat): Compiled {
    var b := Bind(b, f.ageMaxDays.GetOr(0) > 0, SeenWithinDays(Next(b, start)), One(VInt(f.ageMaxDays.GetOr(0))));
    Bind(b, |f.packageEcosystems| > 0 && ex != FacetEcosystem, EqAny(Ecosystem, Next(b, start)),
         Many(Strs(f.packageEcosystems)))
  }

  function AttributeWhere(b: Compiled, f: Filter, ex: Facet, start: nat): Compiled {
    var b := Bind(b, |f.iacProviders| > 0 && ex != FacetIacProvider, EqAny(IacProvider, Next(b, start)),
                  Many(Strs(f.iacProviders)));
    Bind(b, |f.secretKinds| > 0 && ex != FacetSecretKind, EqAny(SecretKind, Next(b, start)), Many(Strs(f.secretKinds)))
  }

  function ComponentWhere(b: Compiled, f: Filter, ex: Facet, start: nat): Compiled {
    var b := Bind(b, |f.sourceTypes| > 0 && ex != FacetSource, EqAny(SourceType, Next(b, start)),
                  Many(Strs(f.sourceTypes)));
    Bind(b, |f.components| > 0, ComponentLikeAny(Next(b, start)), Many(Patterns(f.components)))
  }

  function TextWhere(b: Compiled, f: Filter, start: nat): Compiled {
    var b := Bind(b, f.componentVersion != "", VersionOrEmptyEq(Next(b, start)), One(VStr(f.componentVersion)));
    var b := Bind(b, f.ruleID != "", Eq(RuleID, Next(b, start)), One(VStr(f.ruleID)));
    Bind(b, f.query != "", TextSearch(Next(b, start)), One(VStr(f.query)))
  }

  function WeaknessWhere(b: Compiled, f: Filter, start: nat): Compiled {
    var b := Bind(b, f.cve != "", CveContains(Next(b, start)), One(VStr(f.cve)));
    var b := Bind(b, f.cwe > 0, CweContains(Next(b, start)), One(VInt(f.cwe)));
    Bind(b, f.secretFingerprint != "", Eq(SecretFingerprint, Next(b, start)), One(VStr(f.secretFingerprint)))
  }

  function ScopeWhere(b: Compiled, f: Filter, ex: Facet, start: nat): Compiled {
    var b := ProjectWhere(b, f, ex, start);
    var b := ClassWhere(b, f, ex, start);
    var b := KindWhere(b, f, ex, start);
    var b := PresenceWhere(b, f, ex, start);
    var b := CatalogWhere(b, f, ex, start);
    ScoreWhere(b, f, start)
  }

  function DetailWhere(b: Compiled, f: Filter, ex: Facet, start: nat): Compiled {
    var b := AssigneeWhere(b, f, start);
    var b := AgeWhere(b, f, ex, start);
    var b := AttributeWhere(b, f, ex, start);
    var b := ComponentWhere(b, f, ex, start);
    var b := TextWhere(b, f, start);
    WeaknessWhere(b, f, start)
  }

  // The WHERE clause of a filter with the axis ex left out.
  function BaseWhere(f: Filter, ex: Facet, start: nat): Compiled {
    DetailWhere(ScopeWhere(Compiled([], []), f, ex, start), f, ex, start)
  }

  // buildBaseWhere: the conditions, their arguments and the next free placeholder.
  // Its if statements run in twelve parts.
  method BuildBaseWhere(f: Filter, ex: Facet, startArg: nat)
    returns (conditions: seq<Cond>, args: seq<Arg>, argN: nat)
    ensures Compiled(conditions, args) == BaseWhere(f, ex, startArg)
    ensures argN == startArg + |args|
  {
    conditions, args, argN := [], [], startArg;
    conditions, args, argN := BuildProjectWhere(f, ex, startArg, conditions, args, argN);
    conditions, args, argN := BuildClassWhere(f, ex, startArg, conditions, args, argN);
    conditions, args, argN := BuildKindWhere(f, ex, startArg, conditions, args, argN);
    conditions, args, argN := BuildPresenceWhere(f, ex, startArg, conditions, args, argN);
    conditions, args, argN := BuildCatalogWhere(f, ex, startArg, conditions, args, argN);
    conditions, args, argN := BuildScoreWhere(f, startArg, conditions, args, argN);
    conditions, args, argN := BuildAssigneeWhere(f, startArg, conditions, args, argN);
    conditions, args, argN := BuildAgeWhere(f, ex, startArg, conditions, args, argN);
    conditions, args, argN := BuildAttributeWhere(f, ex, startArg, conditions, args, argN);
    conditions, args, argN := BuildComponentWhere(f, ex, startArg, conditions, args, argN);
    conditions, args, argN := BuildTextWhere(f, startArg, conditions, args, argN);
    conditions, args, argN := BuildWeaknessWhere(f, startArg, conditions, args, argN);
  }

  method BuildProjectWhere(f: Filter, ex: Facet, startArg: nat, conditions0: seq<Cond>, args0: seq<Arg>, argN0: nat)
    returns (conditions: seq<Cond>, args: seq<Arg>, argN: nat)
    requires argN0 == startArg + |args0|
    ensures Compiled(conditions, args) == ProjectWhere(Compiled(conditions0, args0), f, ex, startArg)
    ensures argN == startArg + |args|
  {
    conditions, args, argN := conditions0, args0, argN0;
    if f.accessibleProjectIDs.Some? {
      if |f.accessibleProjectIDs.value| == 0 {
        conditions := conditions + [Never];
      } else {
        conditions := conditions + [EqAny(ProjectID, argN)];
        args := args + [Many(Uuids(f.accessibleProjectIDs.value))];
        argN := argN + 1;
      }
    }
    if f.projectID != NIL && ex != FacetProject {
      conditions := conditions + [Eq(ProjectID, argN)];
      args := args + [One(VUuid(f.projectID))];
      argN := argN + 1;
    }
  }

  method BuildClassWhere(f: Filter, ex: Facet, startArg: nat, conditions0: seq<Cond>, args0: seq<Arg>, argN0: nat)
    returns (conditions: seq<Cond>, args: seq<Arg>, argN: nat)
    requires argN0 == startArg + |args0|
    ensures Compiled(conditions, args) == ClassWhere(Compiled(conditions0, args0), f, ex, startArg)
    ensures argN == startArg + |args|
  {
    conditions, args, argN := conditions0, args0, argN0;
    if |f.severities| > 0 && ex != FacetSeverity {
      conditions := conditions + [EqAny(Severity, argN)];
      args := args + [Many(Ints(f.severities))];
      argN := argN + 1;
    }
    if |f.statuses| > 0 && ex != FacetStatus {
      conditions := conditions + [EqAny(Status, argN)];
      args := args + [Many(Ints(f.statuses))];
      argN := argN + 1;
    }
  }

  method BuildKindWhere(f: Filter, ex: Facet, startArg: nat, conditions0: seq<Cond>, args0: seq<Arg>, argN0: nat)
    returns (conditions: seq<Cond>, args: seq<Arg>, argN: nat)
    requires argN0 == startArg + |args0|
    ensures Compiled(conditions, args) == KindWhere(Compiled(conditions0, args0), f, ex, startArg)
    ensures argN == startArg + |args|
  {
    conditions, args, argN := conditions0, args0, argN0;
    if |f.kinds| > 0 && ex != FacetKind {
      var fit, kinds := NarrowKinds(f.kinds);
      if !fit {
        conditions := conditions + [Never];
      }
      if |kinds| > 0 {
        conditions := conditions + [EqAny(Kind, argN)];
        args := args + [Many(kinds)];
        argN := argN + 1;
      }
    }
  }

  method BuildPresenceWhere(f: Filter, ex: Facet, startArg: nat, conditions0: seq<Cond>, args0: seq<Arg>, argN0: nat)
    returns (conditions: seq<Cond>, args: seq<Arg>, argN: nat)
    requires argN0 == startArg + |args0|
    ensures Compiled(conditions, args) == PresenceWhere(Compiled(conditions0, args0), f, ex, startArg)
    ensures argN == startArg + |args|
  {
    conditions, args, argN := conditions0, args0, argN0;
    if f.hasCVE == Some(true) && ex != FacetHasCVE {
      conditions := conditions + [HasCVE];
    }
    if f.hasFix == Some(true) && ex != FacetHasFix {
      conditions := conditions + [NotNull(FixedVersion)];
    }
  }

  method BuildCatalogWhere(f: Filter, ex: Facet, startArg: nat, conditions0: seq<Cond>, args0: seq<Arg>, argN0: nat)
    returns (conditions: seq<Cond>, args: seq<Arg>, argN: nat)
    requires argN0 == startArg + |args0|
    ensures Compiled(conditions, args) == CatalogWhere(Compiled(conditions0, args0), f, ex, startArg)
    ensures argN == startArg + |args|
  {
    conditions, args, argN := conditions0, args0, argN0;
    if f.inKEV == Some(true) && ex != FacetInKEV {
      conditions := conditions + [InKEV];
    }
    if f.inBDU == Some(true) && ex != FacetInBDU {
      conditions := conditions + [InBDU];
    }
  }

  method BuildScoreWhere(f: Filter, startArg: nat, conditions0: seq<Cond>, args0: seq<Arg>, argN0: nat)
    returns (conditions: seq<Cond>, args: seq<Arg>, argN: nat)
    requires argN0 == startArg + |args0|
    ensures Compiled(conditions, args) == ScoreWhere(Compiled(conditions0, args0), f, startArg)
    ensures argN == startArg + |args|
  {
    conditions, args, argN := conditions0, args0, argN0;
    if f.epssMin.Some? {
      conditions := conditions + [EpssAtLeast(argN)];
      args := args + [Num(f.epssMin.GetOr(0.0))];
      argN := argN + 1;
    }
    if f.cvssMin.Some? {
      conditions := conditions + [CvssAtLeast(argN)];
      args := args + [Num(f.cvssMin.GetOr(0.0))];
      argN := argN + 1;
    }
  }

  method BuildAssigneeWhere(f: Filter, startArg: nat, conditions0: seq<Cond>, args0: seq<Arg>, argN0: nat)
    returns (conditions: seq<Cond>, args: seq<Arg>, argN: nat)
    requires argN0 == startArg + |args0|
    ensures Compiled(conditions, args) == AssigneeWhere(Compiled(conditions0, args0), f, startArg)
    ensures argN == startArg + |args|
  {
    conditions, args, argN := conditions0, args0, argN0;
    if f.assigneeMeUserID.Some? {
      conditions := conditions + [Eq(AssignedTo, argN)];
      args := args + [One(VUuid(f.assigneeMeUserID.GetOr(NIL)))];
      argN := argN + 1;
    }
    if f.unassigned {
      conditions := conditions + [IsNull(AssignedTo)];
    }
    if |f.assigneeUserIDs| > 0 {
      conditions := conditions + [EqAny(AssignedTo, argN)];
      args := args + [Many(Uuids(f.assigneeUserIDs))];
      argN := argN + 1;
    }
  }

  method BuildAgeWhere(f: Filter, ex: Facet, startArg: nat, conditions0: seq<Cond>, args0: seq<Arg>, argN0: nat)
    returns (conditions: seq<Cond>, args: seq<Arg>, argN: nat)
    requires argN0 == startArg + |args0|
    ensures Compiled(conditions, args) == AgeWhere(Compiled(conditions0, args0), f, ex, startArg)
    ensures argN == startArg + |args|
  {
    conditions, args, argN := conditions0, args0, argN0;
    if f.ageMaxDays.GetOr(0) > 0 {
      conditions := conditions + [SeenWithinDays(argN)];
      args := args + [One(VInt(f.ageMaxDays.GetOr(0)))];
      argN := argN + 1;
    }
    if |f.packageEcosystems| > 0 && ex != FacetEcosystem {
      conditions := conditions + [EqAny(Ecosystem, argN)];
      args := args + [Many(Strs(f.packageEcosystems))];
      argN := argN + 1;
    }
  }

  method BuildAttributeWhere(f: Filter, ex: Facet, startArg: nat, conditions0: seq<Cond>, args0: seq<Arg>, argN0: nat)
    returns (conditions: seq<Cond>, args: seq<Arg>, argN: nat)
    requires argN0 == startArg + |args0|
    ensures Compiled(conditions, args) == AttributeWhere(Compiled(conditions0, args0), f, ex, startArg)
    ensures argN == startArg + |args|
  {
    conditions, args, argN := conditions0, args0, argN0;
    if |f.iacProviders| > 0 && ex != FacetIacProvider {
      conditions := conditions + [EqAny(IacProvider, argN)];
      args := args + [Many(Strs(f.iacProviders))];
      argN := argN + 1;
    }
    if |f.secretKinds| > 0 && ex != FacetSecretKind {
      conditions := conditions + [EqAny(SecretKind, argN)];
      args := args + [Many(Strs(f.secretKinds))];
      argN := argN + 1;
    }
  }

  method BuildComponentWhere(f: Filter, ex: Facet, startArg: nat, conditions0: seq<Cond>, args0: seq<Arg>, argN0: nat)
    returns (conditions: seq<Cond>, args: seq<Arg>, argN: nat)
    requires argN0 == startArg + |args0|
    ensures Compiled(conditions, args) == ComponentWhere(Compiled(conditions0, args0), f, ex, startArg)
    ensures argN == startArg + |args|
  {
    conditions, args, argN := conditions0, args0, argN0;
    if |f.sourceTypes| > 0 && ex != FacetSource {
      conditions := conditions + [EqAny(SourceType, argN)];
      args := args + [Many(Strs(f.sourceTypes))];
      argN := argN + 1;
    }
    if |f.components| > 0 {
      conditions := conditions + [ComponentLikeAny(argN)];
      args := args + [Many(Patterns(f.components))];
      argN := argN + 1;
    }
  }

  method BuildTextWhere(f: Filter, startArg: nat, conditions0: seq<Cond>, args0: seq<Arg>, argN0: nat)
    returns (conditions: seq<Cond>, args: seq<Arg>, argN: nat)
    requires argN0 == startArg + |args0|
    ensures Compiled(conditions, args) == TextWhere(Compiled(conditions0, args0), f, startArg)
    ensures argN == startArg + |args|
  {
    conditions, args, argN := conditions0, args0, argN0;
    if f.componentVersion != "" {
      conditions := conditions + [VersionOrEmptyEq(argN)];
      args := args + [One(VStr(f.componentVersion))];
      argN := argN + 1;
    }
    if f.ruleID != "" {
      conditions := conditions + [Eq(RuleID, argN)];
      args := args + [One(VStr(f.ruleID))];
      argN := argN + 1;
    }
    if f.query != "" {
      conditions := conditions + [TextSearch(argN)];
      args := args + [One(VStr(f.query))];
      argN := argN + 1;
    }
  }

  method BuildWeaknessWhere(f: Filter, startArg: nat, conditions0: seq<Cond>, args0: seq<Arg>, argN0: nat)
    returns (conditions: seq<Cond>, args: seq<Arg>, argN: nat)
    requires argN0 == startArg + |args0|
    ensures Compiled(conditions, args) == WeaknessWhere(Compiled(conditions0, args0), f, startArg)
    ensures argN == startArg + |args|
  {
    conditions, args, argN := conditions0, args0, argN0;
    if f.cve != "" {
      conditions := conditions + [CveContains(argN)];
      args := args + [One(VStr(f.cve))];
      argN := argN + 1;
    }
    if f.cwe > 0 {
      conditions := conditions + [CweContains(argN)];
      args := args + [One(VInt(f.cwe))];
      argN := argN + 1;
    }
    if f.secretFingerprint != "" {
      conditions := conditions + [Eq(SecretFingerprint, argN)];
      args := args + [One(VStr(f.secretFingerprint))];
      argN := argN + 1;
    }
  }

  // The loop over filter.Kinds: it stops at a kind that does not fit an int16.
  method NarrowKinds(kinds: seq<int>) returns (fit: bool, narrowed: seq<Val>)
    ensures fit <==> forall k :: k in kinds ==> -0x8000 <= k < 0x8000
    ensures narrowed == if fit then Ints(kinds) else []
  {
    fit, narrowed := true, [];
    var i := 0;
    while i < |kinds|
      invariant 0 <= i <= |kinds|
      invariant fit && narrowed == Ints(kinds[..i])
      invariant forall j :: 0 <= j < i ==> -0x8000 <= kinds[j] < 0x8000
    {
      if kinds[i] < -0x8000 || kinds[i] > 0x7fff {
        assert kinds[i] in kinds;
        return false, [];
      }
      assert kinds[..i + 1][..i] == kinds[..i];
      narrowed := narrowed + [VInt(kinds[i])];
      i := i + 1;
    }
    assert kinds[..i] == kinds;
  }
  // ---- What the conditions mean --------------------------------------------------

  // Every placeholder is bound.
  predicate Wf(b: Compiled, start: nat) {
    forall i :: 0 <= i < |b.conds| ==> RefersBelow(b.conds[i], start, Next(b, start))
  }

  predicate Holds(b: Compiled, start: nat, r: Finding, w: World) {
    Passes(b.conds, b.args, start, r, w)
  }

  lemma AddMeans(b: Compiled, on: bool, c: Cond, start: nat, r: Finding, w: World) returns (b': Compiled)
    requires Wf(b, start) && RefersBelow(c, start, Next(b, start))
    ensures b' == Add(b, on, c) && Wf(b', start)
    ensures Holds(b', start, r, w) <==>
              Holds(b, start, r, w) && (on ==> Eval(c, b.args, start, r, w) == True)
  {
    b' := Add(b, on, c);
    if on {
      assert b'.conds[|b.conds|] == c;
      assert forall i :: 0 <= i < |b.conds| ==> b'.conds[i] == b.conds[i];
    }
  }

  lemma BindMeans(b: Compiled, on: bool, c: Cond, arg: Arg, start: nat, r: Finding, w: World)
    returns (b': Compiled)
    requires Wf(b, start) && RefersBelow(c, start, Next(b, start) + 1)
    ensures b' == Bind(b, on, c, arg) && Wf(b', start)
    ensures Holds(b', start, r, w) <==>
              Holds(b, start, r, w) && (on ==> Eval(c, b.args + [arg], start, r, w) == True)
    ensures Bound(b.args + [arg], start, Next(b, start)) == Some(arg)
  {
    b' := Bind(b, on, c, arg);
    if on {
      assert b'.conds[|b.conds|] == c;
      forall i | 0 <= i < |b.conds|
        ensures b'.conds[i] == b.conds[i]
        ensures Eval(b'.conds[i], b'.args, start, r, w) == Eval(b.conds[i], b.args, start, r, w)
      {
        MoreArgs(b.conds[i], b.args, [arg], start, r, w);
      }
    }
  }

  // col = ANY(vs) is TRUE when the column is set and listed.
  lemma AnyMeans(b: Compiled, on: bool, col: Column, vs: seq<Val>, start: nat, r: Finding, w: World)
    returns (b': Compiled)
    requires Wf(b, start)
    ensures b' == Bind(b, on, EqAny(col, Next(b, start)), Many(vs)) && Wf(b', start)
    ensures Holds(b', start, r, w) <==>
              Holds(b, start, r, w) && (on ==> !Col(col, r).VNull? && Col(col, r) in vs)
  {
    b' := BindMeans(b, on, EqAny(col, Next(b, start)), Many(vs), start, r, w);
  }

  lemma EqMeans(b: Compiled, on: bool, col: Column, v: Val, start: nat, r: Finding, w: World)
    returns (b': Compiled)
    requires Wf(b, start)
    ensures b' == Bind(b, on, Eq(col, Next(b, start)), One(v)) && Wf(b', start)
    ensures Holds(b', start, r, w) <==>
              Holds(b, start, r, w) && (on ==> !Col(col, r).VNull? && Col(col, r) == v)
  {
    b' := BindMeans(b, on, Eq(col, Next(b, start)), One(v), start, r, w);
  }

  lemma {:induction false} IntsContain(s: seq<int>, x: int)
    ensures VInt(x) in Ints(s) <==> x in s
  {
    if s != [] {
      IntsContain(s[..|s| - 1], x);
      assert s == s[..|s| - 1] + [s[|s| - 1]];
    }
  }

  lemma {:induction false} StrsContain(s: seq<string>, x: string)
    ensures VStr(x) in Strs(s) <==> x in s
  {
    if s != [] {
      StrsContain(s[..|s| - 1], x);
      assert s == s[..|s| - 1] + [s[|s| - 1]];
    }
  }

  lemma {:induction false} UuidsContain(s: seq<Uuid>, x: Uuid)
    ensures VUuid(x) in Uuids(s) <==> x in s
  {
    if s != [] {
      UuidsContain(s[..|s| - 1], x);
      assert s == s[..|s| - 1] + [s[|s| - 1]];
    }
  }

  lemma ProjectMeans(b: Compiled, f: Filter, ex: Facet, start: nat, r: Finding, w: World)
    returns (b': Compiled)
    requires Wf(b, start)
    ensures b' == ProjectWhere(b, f, ex, start) && Wf(b', start)
    ensures Holds(b', start, r, w) <==> Holds(b, start, r, w) && ProjectMatches(f, ex, r)
  {
    var ids := f.accessibleProjectIDs;
    UuidsContain(ids.GetOr([]), r.projectID);
    b' := AddMeans(b, ids == Some([]), Never, start, r, w);
    b' := AnyMeans(b', ids.Some? && ids != Some([]), ProjectID, Uuids(ids.GetOr([])), start, r, w);
    b' := EqMeans(b', f.projectID != NIL && ex != FacetProject, ProjectID, VUuid(f.projectID), start, r, w);
  }

  lemma ClassMeans(b: Compiled, f: Filter, ex: Facet, start: nat, r: Finding, w: World)
    returns (b': Compiled)
    requires Wf(b, start)
    ensures b' == ClassWhere(b, f, ex, start) && Wf(b', start)
    ensures Holds(b', start, r, w) <==> Holds(b, start, r, w) && ClassMatches(f, ex, r)
  {
    IntsContain(f.severities, r.severity);
    IntsContain(f.statuses, r.status);
    b' := AnyMeans(b, |f.severities| > 0 && ex != FacetSeverity, Severity, Ints(f.severities), start, r, w);
    b' := AnyMeans(b', |f.statuses| > 0 && ex != FacetStatus, Status, Ints(f.statuses), start, r, w);
  }

  lemma KindMeans(b: Compiled, f: Filter, ex: Facet, start: nat, r: Finding, w: World)
    returns (b': Compiled)
    requires Wf(b, start)
    ensures b' == KindWhere(b, f, ex, start) && Wf(b', start)
    ensures Holds(b', start, r, w) <==> Holds(b, start, r, w) && KindMatches(f, ex, r) && KindsFit(f, ex)
  {
    IntsContain(f.kinds, r.kind);
    b' := AddMeans(b, |f.kinds| > 0 && !KindsFit(f, ex), Never, start, r, w);
    b' := AnyMeans(b', |f.kinds| > 0 && ex != FacetKind && KindsFit(f, ex), Kind, Ints(f.kinds), start, r, w);
  }

  lemma PresenceMeans(b: Compiled, f: Filter, ex: Facet, start: nat, r: Finding, w: World)
    returns (b': Compiled)
    requires Wf(b, start)
    ensures b' == PresenceWhere(b, f, ex, start) && Wf(b', start)
    ensures Holds(b', start, r, w) <==> Holds(b, start, r, w) && PresenceMatches(f, ex, r)
  {
    b' := AddMeans(b, f.hasCVE == Some(true) && ex != FacetHasCVE, HasCVE, start, r, w);
    b' := AddMeans(b', f.hasFix == Some(true) && ex != FacetHasFix, NotNull(FixedVersion), start, r, w);
  }

  lemma CatalogMeans(b: Compiled, f: Filter, ex: Facet, start: nat, r: Finding, w: World)
    returns (b': Compiled)
    requires Wf(b, start)
    ensures b' == CatalogWhere(b, f, ex, start) && Wf(b', start)
    ensures Holds(b', start, r, w) <==> Holds(b, start, r, w) && CatalogMatches(f, ex, r, w)
  {
    b' := AddMeans(b, f.inKEV == Some(true) && ex != FacetInKEV, InKEV, start, r, w);
    b' := AddMeans(b', f.inBDU == Some(true) && ex != FacetInBDU, InBDU, start, r, w);
  }

  lemma ScoreOrZeroReaches(cves: Option<seq<string>>, scores: map<string, real>, x: real)
    ensures MaxScoreOrZero(cves, scores) >= x <==> ScoreReaches(cves, scores, x)
  {
    if cves.Some? { MaxScoreReaches(cves.value, scores, x); }
  }

  lemma ScoreMeans(b: Compiled, f: Filter, start: nat, r: Finding, w: World) returns (b': Compiled)
    requires Wf(b, start)
    ensures b' == ScoreWhere(b, f, start) && Wf(b', start)
    ensures Holds(b', start, r, w) <==> Holds(b, start, r, w) && ScoreMatches(f, r, w)
  {
    ScoreOrZeroReaches(r.cveIDs, w.epss, f.epssMin.GetOr(0.0));
    ScoreOrZeroReaches(r.cveIDs, w.cvss, f.cvssMin.GetOr(0.0));
    b' := BindMeans(b, f.epssMin.Some?, EpssAtLeast(Next(b, start)), Num(f.epssMin.GetOr(0.0)), start, r, w);
    b' := BindMeans(b', f.cvssMin.Some?, CvssAtLeast(Next(b', start)), Num(f.cvssMin.GetOr(0.0)), start, r, w);
  }

  lemma AssigneeMeans(b: Compiled, f: Filter, start: nat, r: Finding, w: World) returns (b': Compiled)
    requires Wf(b, start)
    ensures b' == AssigneeWhere(b, f, start) && Wf(b', start)
    ensures Holds(b', start, r, w) <==> Holds(b, start, r, w) && AssigneeMatches(f, r)
  {
    UuidsContain(f.assigneeUserIDs, r.assignedTo.GetOr(NIL));
    b' := EqMeans(b, f.assigneeMeUserID.Some?, AssignedTo, VUuid(f.assigneeMeUserID.GetOr(NIL)), start, r, w);
    b' := AddMeans(b', f.unassigned, IsNull(AssignedTo), start, r, w);
    b' := AnyMeans(b', |f.assigneeUserIDs| > 0, AssignedTo, Uuids(f.assigneeUserIDs), start, r, w);
  }

  lemma AgeMeans(b: Compiled, f: Filter, ex: Facet, start: nat, r: Finding, w: World)
    returns (b': Compiled)
    requires Wf(b, start)
    ensures b' == AgeWhere(b, f, ex, start) && Wf(b', start)
    ensures Holds(b', start, r, w) <==> Holds(b, start, r, w) && AgeMatches(f, ex, r, w)
  {
    StrsContain(f.packageEcosystems, r.packageEcosystem.GetOr(""));
    b' := BindMeans(b, f.ageMaxDays.GetOr(0) > 0, SeenWithinDays(Next(b, start)),
      One(VInt(f.ageMaxDays.GetOr(0))), start, r, w);
    b' := AnyMeans(b', |f.packageEcosystems| > 0 && ex != FacetEcosystem, Ecosystem,
      Strs(f.packageEcosystems), start, r, w);
  }

  lemma AttributeMeans(b: Compiled, f: Filter, ex: Facet, start: nat, r: Finding, w: World)
    returns (b': Compiled)
    requires Wf(b, start)
    ensures b' == AttributeWhere(b, f, ex, start) && Wf(b', start)
    ensures Holds(b', start, r, w) <==> Holds(b, start, r, w) && AttributeMatches(f, ex, r)
  {
    StrsContain(f.iacProviders, r.iacProvider.GetOr(""));
    StrsContain(f.secretKinds, r.secretKind.GetOr(""));
    b' := AnyMeans(b, |f.iacProviders| > 0 && ex != FacetIacProvider, IacProvider,
      Strs(f.iacProviders), start, r, w);
    b' := AnyMeans(b', |f.secretKinds| > 0 && ex != FacetSecretKind, SecretKind,
      Strs(f.secretKinds), start, r, w);
  }

  lemma {:induction false} PatternsMatch(components: seq<string>, name: string, w: World)
    ensures LikeAny(name, Patterns(components), w) <==>
              exists c :: c in components && w.ilike(name, "%" + c + "%")
  {
    if components != [] {
      var rest, last := components[..|components| - 1], components[|components| - 1];
      assert components == rest + [last];
      PatternsMatch(rest, name, w);
      assert Patterns(components) == Patterns(rest) + [VStr("%" + last + "%")];
    }
  }

  lemma ComponentMeans(b: Compiled, f: Filter, ex: Facet, start: nat, r: Finding, w: World)
    returns (b': Compiled)
    requires Wf(b, start)
    ensures b' == ComponentWhere(b, f, ex, start) && Wf(b', start)
    ensures Holds(b', start, r, w) <==> Holds(b, start, r, w) && ComponentMatches(f, ex, r, w)
  {
    StrsContain(f.sourceTypes, r.sourceType);
    PatternsMatch(f.components, r.component.GetOr(""), w);
    b' := AnyMeans(b, |f.sourceTypes| > 0 && ex != FacetSource, SourceType, Strs(f.sourceTypes), start, r, w);
    b' := BindMeans(b', |f.components| > 0, ComponentLikeAny(Next(b', start)),
      Many(Patterns(f.components)), start, r, w);
  }

  lemma TextMeans(b: Compiled, f: Filter, start: nat, r: Finding, w: World)
    returns (b': Compiled)
    requires Wf(b, start)
    ensures b' == TextWhere(b, f, start) && Wf(b', start)
    ensures Holds(b', start, r, w) <==> Holds(b, start, r, w) && TextMatches(f, r, w)
  {
    b' := BindMeans(b, f.componentVersion != "", VersionOrEmptyEq(Next(b, start)),
      One(VStr(f.componentVersion)), start, r, w);
    b' := EqMeans(b', f.ruleID != "", RuleID, VStr(f.ruleID), start, r, w);
    b' := BindMeans(b', f.query != "", TextSearch(Next(b', start)), One(VStr(f.query)), start, r, w);
  }

  lemma WeaknessMeans(b: Compiled, f: Filter, start: nat, r: Finding, w: World) returns (b': Compiled)
    requires Wf(b, start)
    ensures b' == WeaknessWhere(b, f, start) && Wf(b', start)
    ensures Holds(b', start, r, w) <==> Holds(b, start, r, w) && WeaknessMatches(f, r)
  {
    b' := BindMeans(b, f.cve != "", CveContains(Next(b, start)), One(VStr(f.cve)), start, r, w);
    b' := BindMeans(b', f.cwe > 0, CweContains(Next(b', start)), One(VInt(f.cwe)), start, r, w);
    b' := EqMeans(b', f.secretFingerprint != "", SecretFingerprint, VStr(f.secretFingerprint), start, r, w);
  }

  lemma ScopeMeans(b: Compiled, f: Filter, ex: Facet, start: nat, r: Finding, w: World)
    returns (b': Compiled)
    requires Wf(b, start)
    ensures b' == ScopeWhere(b, f, ex, start) && Wf(b', start)
    ensures Holds(b', start, r, w) <==> Holds(b, start, r, w) && ScopeMatches(f, ex, r, w) && KindsFit(f, ex)
  {
    b' := b;
    b' := ProjectMeans(b', f, ex, start, r, w);
    b' := ClassMeans(b', f, ex, start, r, w);
    b' := KindMeans(b', f, ex, start, r, w);
    b' := PresenceMeans(b', f, ex, start, r, w);
    b' := CatalogMeans(b', f, ex, start, r, w);
    b' := ScoreMeans(b', f, start, r, w);
  }

  lemma DetailMeans(b: Compiled, f: Filter, ex: Facet, start: nat, r: Finding, w: World)
    returns (b': Compiled)
    requires Wf(b, start)
    ensures b' == DetailWhere(b, f, ex, start) && Wf(b', start)
    ensures Holds(b', start, r, w) <==> Holds(b, start, r, w) && DetailMatches(f, ex, r, w)
  {
    b' := b;
    b' := AssigneeMeans(b', f, start, r, w);
    b' := AgeMeans(b', f, ex, start, r, w);
    b' := AttributeMeans(b', f, ex, start, r, w);
    b' := ComponentMeans(b', f, ex, start, r, w);
    b' := TextMeans(b', f, start, r, w);
    b' := WeaknessMeans(b', f, start, r, w);
  }

  // For every filter, axis left out, first placeholder, row and catalogue: the row
  // passes the compiled WHERE clause exactly when it satisfies the filter without
  // that axis, except that a kind outside int16 makes the clause unsatisfiable.
  lemma CompiledMeansFilter(f: Filter, ex: Facet, start: nat, r: Finding, w: World)
    ensures Wf(BaseWhere(f, ex, start), start)
    ensures Holds(BaseWhere(f, ex, start), start, r, w) <==> Matches(f, ex, r, w) && KindsFit(f, ex)
  {
    var b := ScopeMeans(Compiled([], []), f, ex, start, r, w);
    b := DetailMeans(b, f, ex, start, r, w);
  }

  // The clause, its placeholders starting at $1, asks for the filter without that axis.
  ghost predicate Means(b: Compiled, f: Filter, ex: Facet, w: World) {
    Wf(b, 1) && forall r: Finding :: Holds(b, 1, r, w) <==> Matches(f, ex, r, w) && KindsFit(f, ex)
  }

  lemma BaseWhereMeans(f: Filter, ex: Facet, w: World)
    ensures Means(BaseWhere(f, ex, 1), f, ex, w)
  {
    var r := Finding(0, 0, 0, 0, 0, 0, 0, "", None, None, None, None, None, None, None, None, None, None, None, None);
    CompiledMeansFilter(f, ex, 1, r, w);
    forall r: Finding
      ensures Holds(BaseWhere(f, ex, 1), 1, r, w) <==> Matches(f, ex, r, w) && KindsFit(f, ex)
    {
      CompiledMeansFilter(f, ex, 1, r, w);
    }
  }
}
