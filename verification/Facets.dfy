/** FindingsRepo.Facets: each bucket is what List would report with that axis set to
    the bucket's value. */
module Facets {
  import opened Common
  import opened Sql
  import opened Paging
  import opened FindingsQuery
  import opened FindingsRepo

  // An axis set to a value.
  datatype Axis = BySeverity(v: int) | ByStatus(v: int) | ByKind(v: int) | BySource(s: string)
    | InKEV | HasCVE | HasFix | InBDU

  function Facet(a: Axis): FindingsQuery.Facet {
    match a
    case BySeverity(_) => FacetSeverity
    case ByStatus(_) => FacetStatus
    case ByKind(_) => FacetKind
    case BySource(_) => FacetSource
    case InKEV => FacetInKEV
    case HasCVE => FacetHasCVE
    case HasFix => FacetHasFix
    case InBDU => FacetInBDU
  }

  // The filter with the axis set to that value alone.
  function Chosen(f: Filter, a: Axis): Filter {
    match a
    case BySeverity(v) => f.(severities := [v])
    case ByStatus(v) => f.(statuses := [v])
    case ByKind(v) => f.(kinds := [v])
    case BySource(s) => f.(sourceTypes := [s])
    case InKEV => f.(inKEV := Some(true))
    case HasCVE => f.(hasCVE := Some(true))
    case HasFix => f.(hasFix := Some(true))
    case InBDU => f.(inBDU := Some(true))
  }

  // The row falls in the bucket: a GROUP BY value, or the extra condition of a flag.
  predicate InBucket(a: Axis, r: Finding, w: World) {
    match a
    case BySeverity(v) => r.severity == v
    case ByStatus(v) => r.status == v
    case ByKind(v) => r.kind == v
    case BySource(s) => r.sourceType == s
    case InKEV => Listed(r.cveIDs, w.kev)
    case HasCVE => r.cveIDs.Some? && r.cveIDs.value != []
    case HasFix => r.fixedVersion.Some?
    case InBDU => Listed(r.cveIDs, w.bdu)
  }

  function BucketRows(rows: seq<Finding>, a: Axis, w: World): seq<Finding> {
    Where(rows, r => InBucket(a, r, w))
  }

  // ---- Each facet count is a List total --------------------------------------------

  lemma ChosenClass(f: Filter, a: Axis, r: Finding, w: World)
    ensures ClassMatches(f, Facet(a), r) && (a.BySeverity? || a.ByStatus? ==> InBucket(a, r, w)) <==>
              ClassMatches(Chosen(f, a), NoFacet, r)
    ensures KindMatches(f, Facet(a), r) && KindsFit(f, Facet(a)) && (a.ByKind? ==> InBucket(a, r, w)) <==>
              KindMatches(Chosen(f, a), NoFacet, r) && KindsFit(Chosen(f, a), NoFacet)
  {
  }

  lemma ChosenPresence(f: Filter, a: Axis, r: Finding, w: World)
    ensures PresenceMatches(f, Facet(a), r) && (a.HasCVE? || a.HasFix? ==> InBucket(a, r, w)) <==>
              PresenceMatches(Chosen(f, a), NoFacet, r)
    ensures CatalogMatches(f, Facet(a), r, w) && (a.InKEV? || a.InBDU? ==> InBucket(a, r, w)) <==>
              CatalogMatches(Chosen(f, a), NoFacet, r, w)
  {
  }

  lemma ChosenScope(f: Filter, a: Axis, r: Finding, w: World)
    ensures ScopeMatches(f, Facet(a), r, w) && KindsFit(f, Facet(a)) && (InBucket(a, r, w) || a.BySource?) <==>
              ScopeMatches(Chosen(f, a), NoFacet, r, w) && KindsFit(Chosen(f, a), NoFacet)
  {
    ChosenClass(f, a, r, w);
    ChosenPresence(f, a, r, w);
    assert ProjectMatches(f, Facet(a), r) == ProjectMatches(Chosen(f, a), NoFacet, r);
    assert ScoreMatches(f, r, w) == ScoreMatches(Chosen(f, a), r, w);
  }

  lemma ChosenComponent(f: Filter, a: Axis, r: Finding, w: World)
    ensures ComponentMatches(f, Facet(a), r, w) && (a.BySource? ==> InBucket(a, r, w)) <==>
              ComponentMatches(Chosen(f, a), NoFacet, r, w)
  {
  }

  lemma ChosenOthers(f: Filter, a: Axis, r: Finding, w: World)
    ensures AssigneeMatches(f, r) == AssigneeMatches(Chosen(f, a), r)
    ensures AgeMatches(f, Facet(a), r, w) == AgeMatches(Chosen(f, a), NoFacet, r, w)
    ensures AttributeMatches(f, Facet(a), r) == AttributeMatches(Chosen(f, a), NoFacet, r)
  {
  }

  lemma ChosenText(f: Filter, a: Axis, r: Finding, w: World)
    ensures TextMatches(f, r, w) == TextMatches(Chosen(f, a), r, w)
    ensures WeaknessMatches(f, r) == WeaknessMatches(Chosen(f, a), r)
  {
  }

  lemma ChosenDetail(f: Filter, a: Axis, r: Finding, w: World)
    ensures DetailMatches(f, Facet(a), r, w) && (a.BySource? ==> InBucket(a, r, w)) <==>
              DetailMatches(Chosen(f, a), NoFacet, r, w)
  {
    ChosenComponent(f, a, r, w);
    ChosenOthers(f, a, r, w);
    ChosenText(f, a, r, w);
  }

  lemma ChosenMatches(f: Filter, a: Axis, r: Finding, w: World)
    ensures Matches(f, Facet(a), r, w) && KindsFit(f, Facet(a)) && InBucket(a, r, w) <==>
              InFilter(Chosen(f, a), r, w)
  {
    ChosenScope(f, a, r, w);
    ChosenDetail(f, a, r, w);
  }

  // For every filter, axis and value: the rows that pass the filter compiled without the
  // axis and fall in the bucket are as many as List counts with the axis set to the value.
  lemma {:induction false} FacetIsTotal(rows: seq<Finding>, w: World, f: Filter, a: Axis, b: Compiled)
    requires Means(b, f, Facet(a), w)
    ensures |BucketRows(Query(rows, b, w), a, w)| == Total(rows, Chosen(f, a), w)
  {
    if rows != [] {
      FacetIsTotal(rows[1..], w, f, a, b);
      ChosenMatches(f, a, rows[0], w);
    }
  }

  // ---- GROUP BY and the facet queries ------------------------------------------------

  // SELECT col, count(*) ... GROUP BY col
  function GroupBy(rows: seq<Finding>, col: Column): map<Val, nat> {
    if rows == [] then map[]
    else
      var m, k := GroupBy(rows[1..], col), Col(col, rows[0]);
      m[k := Bucket(m, k) + 1]
  }

  function Bucket(m: map<Val, nat>, k: Val): nat {
    if k in m then m[k] else 0
  }

  predicate Grouped(a: Axis) {
    a.BySeverity? || a.ByStatus? || a.ByKind? || a.BySource?
  }

  function GroupColumn(a: Axis): Column
    requires Grouped(a)
  {
    match a
    case BySeverity(_) => Severity
    case ByStatus(_) => Status
    case ByKind(_) => Kind
    case BySource(_) => SourceType
  }

  function GroupValue(a: Axis): Val
    requires Grouped(a)
  {
    match a
    case BySource(s) => VStr(s)
    case BySeverity(v) => VInt(v)
    case ByStatus(v) => VInt(v)
    case ByKind(v) => VInt(v)
  }

  lemma {:induction false} GroupByCounts(rows: seq<Finding>, a: Axis, w: World)
    requires Grouped(a)
    ensures Bucket(GroupBy(rows, GroupColumn(a)), GroupValue(a)) == |BucketRows(rows, a, w)|
    ensures GroupValue(a) in GroupBy(rows, GroupColumn(a)) <==> BucketRows(rows, a, w) != []
  {
    if rows != [] {
      GroupByCounts(rows[1..], a, w);
    }
  }

  // A grouped facet lists a value exactly when some finding would be listed for it, with
  // the count List would report.
  method GroupFacet(rows: seq<Finding>, w: World, f: Filter, kind: Axis) returns (buckets: map<Val, nat>)
    requires Grouped(kind)
    ensures forall a {:trigger Chosen(f, a)} :: Grouped(a) && Facet(a) == Facet(kind) ==>
              && Bucket(buckets, GroupValue(a)) == Total(rows, Chosen(f, a), w)
              && (GroupValue(a) in buckets <==> Total(rows, Chosen(f, a), w) > 0)
  {
    var conds, args, _ := BuildBaseWhere(f, Facet(kind), 1);
    var kept := Query(rows, Compiled(conds, args), w);
    buckets := GroupBy(kept, GroupColumn(kind));
    BaseWhereMeans(f, Facet(kind), w);
    forall a {:trigger Chosen(f, a)} | Grouped(a) && Facet(a) == Facet(kind)
      ensures Bucket(buckets, GroupValue(a)) == Total(rows, Chosen(f, a), w)
      ensures GroupValue(a) in buckets <==> Total(rows, Chosen(f, a), w) > 0
    {
      GroupByCounts(kept, a, w);
      FacetIsTotal(rows, w, f, a, Compiled(conds, args));
    }
  }

  function FlagCond(a: Axis): Cond
    requires !Grouped(a)
  {
    match a
    case InKEV => Cond.InKEV
    case HasCVE => Cond.HasCVE
    case HasFix => NotNull(FixedVersion)
    case InBDU => Cond.InBDU
  }

  // The enrichment facets append their own condition and count.
  method FlagFacet(rows: seq<Finding>, w: World, f: Filter, a: Axis) returns (count: nat)
    requires !Grouped(a)
    ensures count == Total(rows, Chosen(f, a), w)
  {
    var conds, args, _ := BuildBaseWhere(f, Facet(a), 1);
    ghost var b := Compiled(conds, args);
    conds := conds + [FlagCond(a)];
    var kept := Query(rows, Compiled(conds, args), w);
    count := |kept|;
    BaseWhereMeans(f, Facet(a), w);
    FlagRows(rows, w, a, b);
    FacetIsTotal(rows, w, f, a, b);
  }

  lemma FlagRow(r: Finding, w: World, a: Axis, b: Compiled)
    requires !Grouped(a) && Wf(b, 1)
    ensures Holds(b.(conds := b.conds + [FlagCond(a)]), 1, r, w) <==> Holds(b, 1, r, w) && InBucket(a, r, w)
  {
    ExtendedPasses(b, FlagCond(a), [], 1, r, w);
    assert b.args + [] == b.args;
  }

  lemma {:induction false} FlagRows(rows: seq<Finding>, w: World, a: Axis, b: Compiled)
    requires !Grouped(a) && Wf(b, 1)
    ensures |Query(rows, b.(conds := b.conds + [FlagCond(a)]), w)| == |BucketRows(Query(rows, b, w), a, w)|
  {
    if rows != [] {
      FlagRows(rows[1..], w, a, b);
      FlagRow(rows[0], w, a, b);
    }
  }

  // ---- The facets by an attribute that one kind of finding has -------------------------------

  datatype Attribute = OfEcosystem | OfIacProvider | OfSecretKind

  const SCA := 0
  const IAC := 3
  const SECRETS := 4

  function KindOf(o: Attribute): int {
    match o
    case OfEcosystem => SCA
    case OfIacProvider => IAC
    case OfSecretKind => SECRETS
  }

  function DroppedBy(o: Attribute): FindingsQuery.Facet {
    match o
    case OfEcosystem => FacetEcosystem
    case OfIacProvider => FacetIacProvider
    case OfSecretKind => FacetSecretKind
  }

  function ColumnOf(o: Attribute): Column {
    match o
    case OfEcosystem => Ecosystem
    case OfIacProvider => IacProvider
    case OfSecretKind => SecretKind
  }

  function ValueOf(o: Attribute, r: Finding): Option<string> {
    match o
    case OfEcosystem => r.packageEcosystem
    case OfIacProvider => r.iacProvider
    case OfSecretKind => r.secretKind
  }

  // The filter with the attribute set to that value alone and the kind to its kind alone.
  function Narrowed(f: Filter, o: Attribute, s: string): Filter {
    match o
    case OfEcosystem => f.(packageEcosystems := [s], kinds := [SCA])
    case OfIacProvider => f.(iacProviders := [s], kinds := [IAC])
    case OfSecretKind => f.(secretKinds := [s], kinds := [SECRETS])
  }

  // The filter's own kinds leave room for the attribute's kind.
  predicate Admits(f: Filter, o: Attribute) {
    OneOf(f.kinds, KindOf(o)) && KindsFit(f, NoFacet)
  }

  lemma NarrowedScope(f: Filter, o: Attribute, s: string, r: Finding, w: World)
    ensures ScopeMatches(f, DroppedBy(o), r, w) && KindsFit(f, DroppedBy(o)) && r.kind == KindOf(o) <==>
              Admits(f, o) && ScopeMatches(Narrowed(f, o, s), NoFacet, r, w) && KindsFit(Narrowed(f, o, s), NoFacet)
  {
  }

  lemma NarrowedDetail(f: Filter, o: Attribute, s: string, r: Finding, w: World)
    ensures DetailMatches(f, DroppedBy(o), r, w) && ValueOf(o, r) == Some(s) <==>
              DetailMatches(Narrowed(f, o, s), NoFacet, r, w)
  {
  }

  // The statement of the facet: two conditions more than the filter without the attribute.
  function AttributeQuery(b: Compiled, o: Attribute): Compiled {
    b.(conds := b.conds + [KindIs(KindOf(o))] + [NotNull(ColumnOf(o))])
  }

  lemma AttributeRow(b: Compiled, o: Attribute, r: Finding, w: World)
    requires Wf(b, 1)
    ensures Holds(AttributeQuery(b, o), 1, r, w) <==>
              Holds(b, 1, r, w) && r.kind == KindOf(o) && ValueOf(o, r).Some?
  {
    var b1 := b.(conds := b.conds + [KindIs(KindOf(o))]);
    ExtendedPasses(b, KindIs(KindOf(o)), [], 1, r, w);
    ExtendedPasses(b1, NotNull(ColumnOf(o)), [], 1, r, w);
    assert b.args + [] == b.args;
  }

  function ValueRows(rows: seq<Finding>, o: Attribute, s: string): seq<Finding> {
    Where(rows, r => ValueOf(o, r) == Some(s))
  }

  lemma NarrowedRow(f: Filter, o: Attribute, s: string, b: Compiled, r: Finding, w: World)
    requires Means(b, f, DroppedBy(o), w)
    ensures Holds(AttributeQuery(b, o), 1, r, w) && ValueOf(o, r) == Some(s) <==>
              Admits(f, o) && InFilter(Narrowed(f, o, s), r, w)
  {
    AttributeRow(b, o, r, w);
    NarrowedScope(f, o, s, r, w);
    NarrowedDetail(f, o, s, r, w);
  }

  lemma {:induction false} AttributeCounts(
    rows: seq<Finding>, w: World, f: Filter, o: Attribute, s: string, b: Compiled)
    requires Means(b, f, DroppedBy(o), w)
    ensures |ValueRows(Query(rows, AttributeQuery(b, o), w), o, s)| ==
            if Admits(f, o) then Total(rows, Narrowed(f, o, s), w) else 0
  {
    if rows != [] {
      AttributeCounts(rows[1..], w, f, o, s, b);
      NarrowedRow(f, o, s, b, rows[0], w);
    }
  }

  lemma {:induction false} GroupByAttribute(rows: seq<Finding>, o: Attribute, s: string)
    ensures Bucket(GroupBy(rows, ColumnOf(o)), VStr(s)) == |ValueRows(rows, o, s)|
  {
    if rows != [] {
      GroupByAttribute(rows[1..], o, s);
    }
  }

  method GroupByValue(rows: seq<Finding>, w: World, conds: seq<Cond>, args: seq<Arg>, o: Attribute)
    returns (buckets: map<Val, nat>)
    ensures buckets == GroupBy(Query(rows, AttributeQuery(Compiled(conds, args), o), w), ColumnOf(o))
  {
    var all := conds + [KindIs(KindOf(o))] + [NotNull(ColumnOf(o))];
    buckets := GroupBy(Query(rows, Compiled(all, args), w), ColumnOf(o));
  }

  lemma AttributeBuckets(rows: seq<Finding>, w: World, f: Filter, o: Attribute, s: string, b: Compiled)
    requires Means(b, f, DroppedBy(o), w)
    ensures Bucket(GroupBy(Query(rows, AttributeQuery(b, o), w), ColumnOf(o)), VStr(s)) ==
            if Admits(f, o) then Total(rows, Narrowed(f, o, s), w) else 0
  {
    GroupByAttribute(Query(rows, AttributeQuery(b, o), w), o, s);
    AttributeCounts(rows, w, f, o, s, b);
  }

  // The count of the value is what List reports with the attribute set to it and the kind
  // to the attribute's kind; or zero if the filter asks for other kinds.
  ghost predicate CountsValue(
    buckets: map<Val, nat>, rows: seq<Finding>, w: World, f: Filter, o: Attribute, s: string)
  {
    Bucket(buckets, VStr(s)) == if Admits(f, o) then Total(rows, Narrowed(f, o, s), w) else 0
  }

  lemma AllBuckets(rows: seq<Finding>, w: World, f: Filter, o: Attribute, b: Compiled, buckets: map<Val, nat>)
    requires Means(b, f, DroppedBy(o), w)
    requires buckets == GroupBy(Query(rows, AttributeQuery(b, o), w), ColumnOf(o))
    ensures forall s :: CountsValue(buckets, rows, w, f, o, s)
  {
    forall s ensures CountsValue(buckets, rows, w, f, o, s) {
      AttributeBuckets(rows, w, f, o, s, b);
    }
  }

  method AttributeFacet(rows: seq<Finding>, w: World, f: Filter, o: Attribute) returns (buckets: map<Val, nat>)
    ensures forall s :: CountsValue(buckets, rows, w, f, o, s)
  {
    var conds, args, _ := BuildBaseWhere(f, DroppedBy(o), 1);
    buckets := GroupByValue(rows, w, conds, args, o);
    BaseWhereMeans(f, DroppedBy(o), w);
    AllBuckets(rows, w, f, o, Compiled(conds, args), buckets);
  }
}
