/** FindingsRepo.List and Facets, and the export loop that drains List. */
module FindingsRepo {
  import opened Common
  import opened Sql
  import opened Paging
  import opened FindingsQuery

  datatype SortColumn = FirstSeen | LastSeen | SeverityColumn | PriorityScore

  // A cursor string decodes to the key of the last row shown, or not at all.
  datatype Cursor = NoCursor | BadCursor | At(key: Key)

  datatype Key = Key(firstSeen: Time, id: Uuid)

  const MAX_LIMIT := 1000

  datatype Request = Request(filter: Filter, limit: int, cursor: Cursor, sortField: string, ascending: bool)

  datatype Page = Page(findings: seq<Finding>, next: Cursor, total: nat)

  function SortColumnOf(field: string): SortColumn {
    if field == "last_seen" then LastSeen
    else if field == "severity" then SeverityColumn
    else if field == "priority_score" then PriorityScore
    else FirstSeen
  }

  // ---- ORDER BY col dir, id dir ------------------------------------------------

  predicate ColumnLess(col: SortColumn, a: Finding, b: Finding) {
    match col
    case FirstSeen => a.firstSeen < b.firstSeen
    case LastSeen => a.lastSeen < b.lastSeen
    case SeverityColumn => a.severity < b.severity
    case PriorityScore =>  // NULL sorts above every score
      a.priorityScore.Some? && (b.priorityScore.Some? ==> a.priorityScore.value < b.priorityScore.value)
  }

  predicate Above(col: SortColumn, a: Finding, b: Finding) {
    ColumnLess(col, a, b) || (!ColumnLess(col, b, a) && a.id < b.id)
  }

  predicate RowLess(col: SortColumn, ascending: bool, a: Finding, b: Finding) {
    if ascending then Above(col, a, b) else Above(col, b, a)
  }

  function RowOrder(col: SortColumn, ascending: bool): (Finding, Finding) -> bool {
    (a, b) => RowLess(col, ascending, a, b)
  }

  // The primary key.
  ghost predicate DistinctIDs(rows: seq<Finding>) {
    forall i, j :: 0 <= i < j < |rows| ==> rows[i].id != rows[j].id
  }

  // ---- List -----------------------------------------------------------------------

  ghost predicate InFilter(f: Filter, r: Finding, w: World) {
    Matches(f, NoFacet, r, w) && KindsFit(f, NoFacet)
  }

  function KeyOf(r: Finding): Key {
    Key(r.firstSeen, r.id)
  }

  predicate KeyBeyond(ascending: bool, from: Key, k: Key) {
    if ascending then KeyLess(from.firstSeen, from.id, k.firstSeen, k.id)
    else KeyLess(k.firstSeen, k.id, from.firstSeen, from.id)
  }

  predicate Beyond(q: Request, r: Finding) {
    q.cursor.At? ==> KeyBeyond(q.ascending, q.cursor.key, KeyOf(r))
  }

  // SELECT FROM findings f WHERE conds, the placeholders starting at $1.
  function Query(rows: seq<Finding>, b: Compiled, w: World): seq<Finding> {
    Where(rows, r => Holds(b, 1, r, w))
  }

  ghost function Filtered(rows: seq<Finding>, f: Filter, w: World): seq<Finding> {
    Where(rows, r => InFilter(f, r, w))
  }

  ghost function FilteredBeyond(rows: seq<Finding>, q: Request, w: World): seq<Finding> {
    Where(rows, r => InFilter(q.filter, r, w) && Beyond(q, r))
  }

  // The number of findings a filter selects.
  ghost function Total(rows: seq<Finding>, f: Filter, w: World): nat {
    |Filtered(rows, f, w)|
  }

  // Conditions keep their meaning when further conditions and arguments follow.
  lemma ExtendedPasses(b: Compiled, c: Cond, more: seq<Arg>, start: nat, r: Finding, w: World)
    requires Wf(b, start)
    ensures Passes(b.conds, b.args + more, start, r, w) <==> Holds(b, start, r, w)
    ensures Passes(b.conds + [c], b.args + more, start, r, w) <==>
              Holds(b, start, r, w) && Eval(c, b.args + more, start, r, w) == True
  {
    forall i | 0 <= i < |b.conds|
      ensures Eval(b.conds[i], b.args + more, start, r, w) == Eval(b.conds[i], b.args, start, r, w)
    {
      MoreArgs(b.conds[i], b.args, more, start, r, w);
    }
    var all := b.conds + [c];
    assert all[|b.conds|] == c;
    assert forall i :: 0 <= i < |b.conds| ==> all[i] == b.conds[i];
  }

  // The rows of the page: those of the filter beyond the cursor, sorted, cut at the limit.
  ghost function Shown(rows: seq<Finding>, w: World, q: Request): seq<Finding> {
    Limit(OrderBy(FilteredBeyond(rows, q, w), RowOrder(SortColumnOf(q.sortField), q.ascending)),
      PageLimit(q.limit, MAX_LIMIT))
  }

  // The cursor condition, if there is a cursor, after the conditions of the filter.
  method AddCursor(conds: seq<Cond>, params: seq<Arg>, n: nat, q: Request)
    returns (conditions: seq<Cond>, args: seq<Arg>, argN: nat)
    requires n == Next(Compiled(conds, params), 1)
    ensures Compiled(conditions, args) == WithCursor(Compiled(conds, params), q)
    ensures argN == Next(Compiled(conditions, args), 1)
  {
    conditions, args, argN := conds, params, n;
    if q.cursor.At? {
      if !q.ascending {
        conditions := conditions + [KeyBefore(argN, argN + 1)];
      } else {
        conditions := conditions + [KeyAfter(argN, argN + 1)];
      }
      args := args + [One(VInt(q.cursor.key.firstSeen)), One(VUuid(q.cursor.key.id))];
      argN := argN + 2;
    }
  }

  // The statement of the page, its LIMIT placeholder, and the statement of the count,
  // which is the former without the cursor.
  method CompilePage(conds: seq<Cond>, params: seq<Arg>, n: nat, q: Request)
    returns (page: Compiled, count: Compiled, limitArg: nat)
    requires n == Next(Compiled(conds, params), 1)
    ensures count == Compiled(conds, params)
    ensures page == Statement(count, q)
    ensures Bound(page.args, 1, limitArg) == Some(One(VInt(PageLimit(q.limit, MAX_LIMIT))))
  {
    var limit := q.limit;
    if limit <= 0 || limit > 1000 {
      limit := 50;
    }
    var conditions, args, argN := AddCursor(conds, params, n, q);
    var countConds, countArgs := conditions, args;
    if q.cursor.At? {
      countConds := conditions[..|conditions| - 1];
      countArgs := args[..|args| - 2];
    }
    CutBack(Compiled(conds, params), q);
    args := args + [One(VInt(limit))];
    return Compiled(conditions, args), Compiled(countConds, countArgs), argN;
  }

  method CompileList(q: Request) returns (page: Compiled, count: Compiled, limitArg: nat)
    requires !q.cursor.BadCursor?
    ensures count == BaseWhere(q.filter, NoFacet, 1)
    ensures page == Statement(count, q)
    ensures Bound(page.args, 1, limitArg) == Some(One(VInt(PageLimit(q.limit, MAX_LIMIT))))
  {
    var conds, params, n := BuildBaseWhere(q.filter, NoFacet, 1);
    page, count, limitArg := CompilePage(conds, params, n, q);
  }

  lemma CutBack(b: Compiled, q: Request)
    ensures var c := WithCursor(b, q);
            q.cursor.At? ==> c.conds[..|c.conds| - 1] == b.conds && c.args[..|c.args| - 2] == b.args
  {
  }

  // The count and the page are two statements, so they may see different rows.
  method List(counted: seq<Finding>, rows: seq<Finding>, w: World, q: Request) returns (r: Result<Page, string>)
    ensures r.Err? <==> q.cursor == BadCursor
    ensures r.Ok? ==> r.value.findings == Shown(rows, w, q)
    ensures r.Ok? ==> r.value.total == Total(counted, q.filter, w)
    ensures r.Ok? ==> var page := r.value.findings;
              r.value.next == if |page| == PageLimit(q.limit, MAX_LIMIT) then At(KeyOf(page[|page| - 1])) else NoCursor
  {
    if q.cursor.BadCursor? {
      return Err("storage.FindingsRepo.List");
    }
    var page, count, _ := CompileList(q);
    BaseWhereMeans(q.filter, NoFacet, w);
    TotalMeans(counted, w, q.filter, count);
    ListMeans(rows, w, q, count);
    var total := |Query(counted, count, w)|;
    var limit := PageLimit(q.limit, MAX_LIMIT);
    var findings := Limit(OrderBy(Query(rows, page, w), RowOrder(SortColumnOf(q.sortField), q.ascending)), limit);
    var next := NoCursor;
    if |findings| == limit {
      var last := findings[|findings| - 1];
      next := At(Key(last.firstSeen, last.id));
    }
    return Ok(Page(findings, next, total));
  }

  lemma TotalMeans(rows: seq<Finding>, w: World, f: Filter, b: Compiled)
    requires Means(b, f, NoFacet, w)
    ensures Query(rows, b, w) == Filtered(rows, f, w)
  {
    WhereAgrees(rows, x => Holds(b, 1, x, w), x => InFilter(f, x, w));
  }

  // The filter's conditions b and the cursor condition.
  function WithCursor(b: Compiled, q: Request): Compiled {
    var n := Next(b, 1);
    match q.cursor
    case At(k) =>
      Compiled(b.conds + [if q.ascending then KeyAfter(n, n + 1) else KeyBefore(n, n + 1)],
               b.args + [One(VInt(k.firstSeen)), One(VUuid(k.id))])
    case _ => b
  }

  // The statement List sends: those conditions, and the limit.
  function Statement(b: Compiled, q: Request): Compiled {
    var c := WithCursor(b, q);
    c.(args := c.args + [One(VInt(PageLimit(q.limit, MAX_LIMIT)))])
  }

  // The cursor condition of a statement reads the cursor's key from its arguments.
  lemma CursorMeans(b: Compiled, q: Request, x: Finding, w: World)
    requires q.cursor.At?
    ensures var n, args := Next(b, 1), Statement(b, q).args;
            var c := if q.ascending then KeyAfter(n, n + 1) else KeyBefore(n, n + 1);
            Eval(c, args, 1, x, w) == Bool(Beyond(q, x))
  {
    var args, n := Statement(b, q).args, Next(b, 1);
    assert Bound(args, 1, n) == Some(One(VInt(q.cursor.key.firstSeen)));
    assert Bound(args, 1, n + 1) == Some(One(VUuid(q.cursor.key.id)));
  }

  lemma StatementMeans(b: Compiled, q: Request, x: Finding, w: World)
    requires Wf(b, 1)
    ensures Holds(Statement(b, q), 1, x, w) <==> Holds(b, 1, x, w) && Beyond(q, x)
  {
    var s := Statement(b, q);
    var more := s.args[|b.args|..];
    assert s.args == b.args + more;
    var n := Next(b, 1);
    var c := if q.ascending then KeyAfter(n, n + 1) else KeyBefore(n, n + 1);
    ExtendedPasses(b, c, more, 1, x, w);
    if q.cursor.At? {
      CursorMeans(b, q, x, w);
    }
  }

  lemma ListMeans(rows: seq<Finding>, w: World, q: Request, b: Compiled)
    requires Means(b, q.filter, NoFacet, w)
    ensures Query(rows, Statement(b, q), w) == FilteredBeyond(rows, q, w)
  {
    var s := Statement(b, q);
    forall x: Finding ensures Holds(s, 1, x, w) <==> InFilter(q.filter, x, w) && Beyond(q, x) {
      StatementMeans(b, q, x, w);
    }
    WhereAgrees(rows, x => Holds(s, 1, x, w), x => InFilter(q.filter, x, w) && Beyond(q, x));
  }
}
