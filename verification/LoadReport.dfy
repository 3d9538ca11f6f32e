/** The load test report: nearest-rank percentiles and the collector's totals. */
module LoadReport {
  import opened Common
  import opened Sorting

  const LE: (int, int) -> bool := (a, b) => a <= b

  function Clamp(n: nat, idx: int): (i: nat)
    requires n > 0
    ensures i < n
  {
    if idx < 0 then 0 else if idx >= n then n - 1 else idx
  }

  // The nearest rank, kept within the list.
  function Rank(n: nat, p: int): (i: nat)
    requires n > 0
    ensures i < n
  {
    Clamp(n, (p * n + 99) / 100 - 1)
  }

  function Percentile(values: seq<int>, p: int): int {
    if values == [] then 0
    else
      SortSorts(values, LE);
      Sort(values, LE)[Rank(|values|, p)]
  }

  // percentile sorts a copy.
  method PercentileOf(values: array<int>, p: int) returns (r: int)
    ensures r == Percentile(values[..], p)
    ensures values.Length > 0 && 1 <= p <= 100 ==> IsNearestRank(values[..], p, r)
    ensures values.Length == 0 ==> r == 0
  {
    if values.Length > 0 && 1 <= p <= 100 {
      PercentileIsNearestRank(values[..], p, Percentile(values[..], p));
    }
    if values.Length == 0 {
      return 0;
    }
    var cp := Sort(values[..], LE);
    SortSorts(values[..], LE);
    var idx := (p * |cp| + 99) / 100 - 1;
    if idx < 0 {
      idx := 0;
    }
    if idx >= |cp| {
      idx := |cp| - 1;
    }
    return cp[idx];
  }

  function CountBelow(values: seq<int>, bound: int): nat {
    if values == [] then 0 else (if values[0] < bound then 1 else 0) + CountBelow(values[1..], bound)
  }

  function CountAtMost(values: seq<int>, bound: int): nat {
    CountBelow(values, bound + 1)
  }

  lemma {:induction false} CountInsert(x: int, s: seq<int>, bound: int)
    ensures CountBelow(Insert(x, s, LE), bound) == CountBelow([x] + s, bound)
  {
    assert ([x] + s)[1..] == s;
    if s != [] && !LE(x, s[0]) {
      CountInsert(x, s[1..], bound);
      assert ([x] + s[1..])[1..] == s[1..];
      assert ([s[0]] + Insert(x, s[1..], LE))[1..] == Insert(x, s[1..], LE);
    }
  }

  lemma {:induction false} CountSorted(s: seq<int>, bound: int)
    ensures CountBelow(Sort(s, LE), bound) == CountBelow(s, bound)
  {
    if s != [] {
      CountSorted(s[1..], bound);
      CountInsert(s[0], Sort(s[1..], LE), bound);
      assert ([s[0]] + Sort(s[1..], LE))[1..] == Sort(s[1..], LE);
    }
  }

  // In an ascending list the values below a bound are a prefix.
  lemma {:induction false} CountPrefix(s: seq<int>, bound: int, i: nat)
    requires Ascending(s, LE) && i < |s|
    ensures CountBelow(s, bound) <= i <==> s[i] >= bound
  {
    if i > 0 {
      assert LE(s[0], s[i]);
      if s[0] < bound {
        CountPrefix(s[1..], bound, i - 1);
      } else {
        NoneBelow(s, bound);
      }
    } else if s[0] >= bound {
      NoneBelow(s, bound);
    }
  }

  lemma {:induction false} NoneBelow(s: seq<int>, bound: int)
    requires Ascending(s, LE) && s != [] && s[0] >= bound
    ensures CountBelow(s, bound) == 0
  {
    if |s| > 1 {
      assert LE(s[0], s[1]);
      NoneBelow(s[1..], bound);
    }
  }

  // r is the nearest-rank percentile: at least p percent of the values are at most r, and
  // fewer than p percent are below it.
  predicate IsNearestRank(values: seq<int>, p: int, r: int) {
    100 * CountAtMost(values, r) >= p * |values| && 100 * CountBelow(values, r) < p * |values|
  }

  lemma {:induction false} CountMonotone(s: seq<int>, a: int, b: int)
    requires a <= b
    ensures CountBelow(s, a) <= CountBelow(s, b)
  {
    if s != [] {
      CountMonotone(s[1..], a, b);
    }
  }

  lemma RankMeans(n: nat, p: int)
    requires n > 0 && 1 <= p <= 100
    ensures 100 * Rank(n, p) < p * n <= 100 * (Rank(n, p) + 1)
  {
    Times(n, p, 100);
    Times(n, 1, p);
  }

  lemma Times(n: nat, p: int, q: int)
    requires p <= q
    ensures p * n <= q * n
  {
  }

  // It is the only number with that property.
  lemma PercentileIsNearestRank(values: seq<int>, p: int, r: int)
    requires values != [] && 1 <= p <= 100
    ensures IsNearestRank(values, p, r) <==> r == Percentile(values, p)
  {
    var s, i, q := Sort(values, LE), Rank(|values|, p), Percentile(values, p);
    SortSorts(values, LE);
    CountSorted(values, q);
    CountSorted(values, q + 1);
    CountPrefix(s, q, i);
    CountPrefix(s, q + 1, i);
    RankMeans(|values|, p);
    assert IsNearestRank(values, p, q);
    if r < q {
      CountMonotone(values, r + 1, q);
    } else if q < r {
      CountMonotone(values, q + 1, r);
    }
  }

  lemma RankMonotone(n: nat, p: int, q: int)
    requires n > 0 && p <= q
    ensures Rank(n, p) <= Rank(n, q)
  {
    Times(n, p, q);
  }

  // A higher percentile is no smaller.
  lemma PercentileMonotone(values: seq<int>, p: int, q: int)
    requires p <= q
    ensures Percentile(values, p) <= Percentile(values, q)
  {
    if values != [] {
      SortSorts(values, LE);
      RankMonotone(|values|, p, q);
      var s, i, j := Sort(values, LE), Rank(|values|, p), Rank(|values|, q);
      assert i < j ==> LE(s[i], s[j]);
    }
  }

  // ---- The collector -------------------------------------------------------------------

  datatype Event = Event(endpoint: string, duration: int, status: int, error: string, ttfb: Option<int>)

  datatype Agg = Agg(count: nat, success: nat, errorCount: nat, durations: seq<int>, ttfb: seq<int>)

  datatype Summary = Summary(endpoint: string, status: int, error: string, count: nat)

  predicate Succeeded(ev: Event) {
    ev.error == "" && 200 <= ev.status < 300
  }

  function Decimal(n: nat): string {
    (if n < 10 then "" else Decimal(n / 10)) + ["0123456789"[n % 10]]
  }

  function StatusText(status: int): string {
    if status < 0 then "-" + Decimal(-status) else Decimal(status)
  }

  function ErrorKey(ev: Event): string {
    ev.endpoint + "|" + ev.error + "|" + StatusText(ev.status)
  }

  const NEW_AGG := Agg(0, 0, 0, [], [])

  function AddTo(a: Agg, ev: Event): Agg {
    Agg(a.count + 1, if Succeeded(ev) then a.success + 1 else a.success,
      if Succeeded(ev) then a.errorCount else a.errorCount + 1, a.durations + [ev.duration],
      if ev.ttfb.Some? then a.ttfb + [ev.ttfb.value] else a.ttfb)
  }

  // What the log says of one endpoint.
  function AggOf(log: seq<Event>, endpoint: string): Agg {
    if log == [] then NEW_AGG
    else if log[|log| - 1].endpoint != endpoint then AggOf(log[..|log| - 1], endpoint)
    else AddTo(AggOf(log[..|log| - 1], endpoint), log[|log| - 1])
  }

  function ErrorsWith(log: seq<Event>, key: string): nat {
    if log == [] then 0
    else
      var ev := log[|log| - 1];
      ErrorsWith(log[..|log| - 1], key) + if !Succeeded(ev) && ErrorKey(ev) == key then 1 else 0
  }

  function Errors(log: seq<Event>): nat {
    if log == [] then 0 else Errors(log[..|log| - 1]) + if Succeeded(log[|log| - 1]) then 0 else 1
  }

  // The two maps after a call of Record.
  function EndpointsAfter(endpoints: map<string, Agg>, ev: Event): map<string, Agg> {
    endpoints[ev.endpoint := AddTo(if ev.endpoint in endpoints then endpoints[ev.endpoint] else NEW_AGG, ev)]
  }

  function ErrorsAfter(errors: map<string, Summary>, ev: Event): map<string, Summary> {
    if Succeeded(ev) then errors
    else
      var key := ErrorKey(ev);
      var es := if key in errors then errors[key]
                else Summary(ev.endpoint, ev.status, if ev.error == "" then "http_non_2xx" else ev.error, 0);
      errors[key := es.(count := es.count + 1)]
  }

  class Collector {
    var endpoints: map<string, Agg>
    var errors: map<string, Summary>

    constructor ()
      ensures endpoints == map[] && errors == map[]
    {
      endpoints, errors := map[], map[];
    }

    method Record(ev: Event)
      modifies this
      ensures endpoints == EndpointsAfter(old(endpoints), ev)
      ensures errors == ErrorsAfter(old(errors), ev)
    {
      var agg := if ev.endpoint in endpoints then endpoints[ev.endpoint] else NEW_AGG;
      agg := agg.(count := agg.count + 1, durations := agg.durations + [ev.duration]);
      if ev.ttfb.Some? {
        agg := agg.(ttfb := agg.ttfb + [ev.ttfb.value]);
      }
      if ev.error == "" && ev.status >= 200 && ev.status < 300 {
        endpoints := endpoints[ev.endpoint := agg.(success := agg.success + 1)];
        return;
      }
      endpoints := endpoints[ev.endpoint := agg.(errorCount := agg.errorCount + 1)];
      var errKey := ErrorKey(ev);
      var es := if errKey in errors then errors[errKey]
                else Summary(ev.endpoint, ev.status, if ev.error == "" then "http_non_2xx" else ev.error, 0);
      errors := errors[errKey := es.(count := es.count + 1)];
    }
  }

  // The maps after a whole log.
  function Endpoints(log: seq<Event>): map<string, Agg> {
    if log == [] then map[] else EndpointsAfter(Endpoints(log[..|log| - 1]), log[|log| - 1])
  }

  function Summaries(log: seq<Event>): map<string, Summary> {
    if log == [] then map[] else ErrorsAfter(Summaries(log[..|log| - 1]), log[|log| - 1])
  }

  // Each endpoint's aggregate is that of its calls.
  lemma {:induction false} EndpointsAgree(log: seq<Event>, endpoint: string)
    ensures AggOf(log, endpoint) == if endpoint in Endpoints(log) then Endpoints(log)[endpoint] else NEW_AGG
  {
    if log != [] {
      EndpointsAgree(log[..|log| - 1], endpoint);
    }
  }

  // Each error summary has the number of calls that failed with its key.
  lemma {:induction false} SummariesAgree(log: seq<Event>, key: string)
    ensures ErrorsWith(log, key) == if key in Summaries(log) then Summaries(log)[key].count else 0
  {
    if log != [] {
      SummariesAgree(log[..|log| - 1], key);
    }
  }

  // Together the summaries count every error once.
  lemma {:induction false} SummariesCountErrors(log: seq<Event>)
    ensures SumCounts(Summaries(log)) == Errors(log)
  {
    if log != [] {
      var m, ev := Summaries(log[..|log| - 1]), log[|log| - 1];
      SummariesCountErrors(log[..|log| - 1]);
      if !Succeeded(ev) {
        SumCountsPut(m, ErrorKey(ev), Summaries(log)[ErrorKey(ev)]);
      }
    }
  }

  ghost function SumCounts(m: map<string, Summary>): nat {
    if m == map[] then 0
    else
      var k :| k in m;
      m[k].count + SumCounts(m - {k})
  }

  lemma {:induction false} SumCountsAt(m: map<string, Summary>, k: string)
    requires k in m
    ensures SumCounts(m) == m[k].count + SumCounts(m - {k})
    decreases |m|
  {
    var j :| j in m && SumCounts(m) == m[j].count + SumCounts(m - {j});
    if j != k {
      SumCountsAt(m - {j}, k);
      SumCountsAt(m - {k}, j);
      assert m - {j} - {k} == m - {k} - {j};
    }
  }

  lemma SumCountsPut(m: map<string, Summary>, k: string, s: Summary)
    ensures SumCounts(m[k := s]) == SumCounts(m) - (if k in m then m[k].count else 0) + s.count
  {
    SumCountsAt(m[k := s], k);
    if k in m {
      SumCountsAt(m, k);
    }
    assert m[k := s] - {k} == m - {k};
    assert k !in m ==> m - {k} == m;
  }

  // Every call of an endpoint is a success or an error and has one duration.
  lemma {:induction false} EndpointTotals(log: seq<Event>, endpoint: string)
    ensures var a := AggOf(log, endpoint);
            a.count == a.success + a.errorCount == |a.durations| && |a.ttfb| <= a.count
  {
    if log != [] {
      EndpointTotals(log[..|log| - 1], endpoint);
    }
  }

  // ---- Exactly which errors share a summary ------------------------------------------------

  function Number(digits: string): nat {
    if digits == "" then 0
    else Number(digits[..|digits| - 1]) * 10 + if '0' <= digits[|digits| - 1] <= '9'
                                               then (digits[|digits| - 1] - '0') as nat else 0
  }

  lemma {:induction false} DecimalIsNumber(n: nat)
    ensures Number(Decimal(n)) == n && Decimal(n) != "" && Decimal(n)[0] != '-' && '|' !in Decimal(n)
  {
    var d := ["0123456789"[n % 10]];
    assert d[0] == '0' + (n % 10) as char;
    if n >= 10 {
      DecimalIsNumber(n / 10);
      assert Decimal(n)[..|Decimal(n)| - 1] == Decimal(n / 10);
    } else {
      assert Decimal(n) == d && d[..0] == "";
    }
  }

  lemma StatusIsRead(a: int, b: int)
    ensures '|' !in StatusText(a)
    ensures StatusText(a) == StatusText(b) <==> a == b
  {
    DecimalIsNumber(if a < 0 then -a else a);
    DecimalIsNumber(if b < 0 then -b else b);
    if a < 0 { assert StatusText(a)[1..] == Decimal(-a); }
    if b < 0 { assert StatusText(b)[1..] == Decimal(-b); }
  }

  lemma BarBetween(x: string, s: string, y: string, t: string)
    requires x + "|" + s == y + "|" + t
    ensures |x| < |y| ==> '|' in s
    ensures |x| == |y| ==> x == y && s == t
  {
    var k, l := x + "|" + s, y + "|" + t;
    assert k[..|x|] == x && l[..|y|] == y;
    assert k[|x| + 1..] == s && l[|y| + 1..] == t;
    if |x| < |y| {
      assert l[|y|] == '|' && k[|y|] == s[|y| - |x| - 1];
    }
  }

  // The last bar of a key separates the status.
  lemma LastBar(x: string, s: string, y: string, t: string)
    requires '|' !in s && '|' !in t && x + "|" + s == y + "|" + t
    ensures x == y && s == t
  {
    BarBetween(x, s, y, t);
    BarBetween(y, t, x, s);
  }

  // Within an endpoint keys tell errors and statuses apart, whatever the error text.
  lemma KeySeparatesErrors(a: Event, b: Event)
    requires a.endpoint == b.endpoint
    ensures ErrorKey(a) == ErrorKey(b) <==> a.error == b.error && a.status == b.status
  {
    StatusIsRead(a.status, b.status);
    StatusIsRead(b.status, a.status);
    if ErrorKey(a) == ErrorKey(b) {
      LastBar(a.endpoint + "|" + a.error, StatusText(a.status), b.endpoint + "|" + b.error, StatusText(b.status));
      var u, n := a.endpoint + "|" + a.error, |a.endpoint| + 1;
      assert u[n..] == a.error && (b.endpoint + "|" + b.error)[n..] == b.error;
    }
  }

  // Some failed calls of the two endpoints have the same key.
  ghost predicate CanShare(e: string, f: string) {
    exists a: Event, b: Event ::
      a.endpoint == e && b.endpoint == f && !Succeeded(a) && !Succeeded(b) && ErrorKey(a) == ErrorKey(b)
  }

  lemma SharedPrefix(a: Event, b: Event)
    requires ErrorKey(a) == ErrorKey(b) && |a.endpoint| < |b.endpoint|
    ensures a.endpoint + "|" <= b.endpoint
  {
    var k, n := ErrorKey(a), |a.endpoint|;
    assert k[..n] == a.endpoint && k[n] == '|';
    assert k[..|b.endpoint|] == b.endpoint;
    assert b.endpoint[..n + 1] == k[..n + 1] == a.endpoint + "|";
  }

  lemma Extended(e: string, f: string)
    requires e + "|" <= f
    ensures CanShare(e, f) && CanShare(f, e)
  {
    var rest := f[|e| + 1..];
    assert f == e + "|" + rest;
    var a, b := Event(e, 0, 500, rest + "|x", None), Event(f, 0, 500, "x", None);
    assert e + "|" + (rest + "|x") == f + "|" + "x";
    assert ErrorKey(a) == ErrorKey(b);
  }

  lemma SameLength(a: Event, b: Event)
    requires ErrorKey(a) == ErrorKey(b) && |a.endpoint| == |b.endpoint|
    ensures a.endpoint == b.endpoint
  {
    assert ErrorKey(a)[..|a.endpoint|] == a.endpoint && ErrorKey(b)[..|b.endpoint|] == b.endpoint;
  }

  lemma SharersExtend(e: string, f: string)
    requires CanShare(e, f)
    ensures e == f || e + "|" <= f || f + "|" <= e
  {
    var a: Event, b: Event :| a.endpoint == e && b.endpoint == f && ErrorKey(a) == ErrorKey(b);
    if |e| < |f| {
      SharedPrefix(a, b);
    } else if |f| < |e| {
      SharedPrefix(b, a);
    } else {
      SameLength(a, b);
    }
  }

  // Different endpoints can share a summary exactly if one is the other with a bar and
  // more text after it.
  lemma SharedExactly(e: string, f: string)
    requires e != f
    ensures CanShare(e, f) <==> e + "|" <= f || f + "|" <= e
  {
    if e + "|" <= f {
      Extended(e, f);
    } else if f + "|" <= e {
      Extended(f, e);
    } else if CanShare(e, f) {
      SharersExtend(e, f);
    }
  }

  lemma ExtendedHasBar(e: string, f: string)
    ensures e + "|" <= f ==> '|' in f
  {
    if e + "|" <= f {
      assert f[|e|] == '|';
    }
  }

  // So for endpoints without a bar, like those of the scenarios, a summary counts one
  // endpoint, error and status.
  lemma PlainEndpointsKeepApart(a: Event, b: Event)
    requires '|' !in a.endpoint && '|' !in b.endpoint && !Succeeded(a) && !Succeeded(b)
    ensures ErrorKey(a) == ErrorKey(b) <==> a.endpoint == b.endpoint && a.error == b.error && a.status == b.status
  {
    if a.endpoint == b.endpoint {
      KeySeparatesErrors(a, b);
    } else {
      SharedExactly(a.endpoint, b.endpoint);
      ExtendedHasBar(a.endpoint, b.endpoint);
      ExtendedHasBar(b.endpoint, a.endpoint);
    }
  }

  function ErrorTotal(log: seq<Event>, endpoints: seq<string>): nat {
    if endpoints == [] then 0 else AggOf(log, endpoints[0]).errorCount + ErrorTotal(log, endpoints[1..])
  }

  lemma {:induction false} ErrorTotalNext(log: seq<Event>, ev: Event, endpoints: seq<string>)
    requires forall i, j :: 0 <= i < j < |endpoints| ==> endpoints[i] != endpoints[j]
    ensures ErrorTotal(log + [ev], endpoints) ==
            ErrorTotal(log, endpoints) + if ev.endpoint in endpoints && !Succeeded(ev) then 1 else 0
  {
    assert (log + [ev])[..|log|] == log;
    if endpoints != [] {
      ErrorTotalNext(log, ev, endpoints[1..]);
      assert endpoints == [endpoints[0]] + endpoints[1..];
      assert endpoints[0] !in endpoints[1..];
    }
  }

  // The endpoints' error counts add up to all errors, as the summaries do.
  lemma {:induction false} ErrorsAddUp(log: seq<Event>, endpoints: seq<string>)
    requires forall i, j :: 0 <= i < j < |endpoints| ==> endpoints[i] != endpoints[j]
    requires forall i :: 0 <= i < |log| ==> log[i].endpoint in endpoints
    ensures ErrorTotal(log, endpoints) == Errors(log)
  {
    if log == [] {
      NoErrorsYet(endpoints);
    } else {
      var n := |log| - 1;
      ErrorsAddUp(log[..n], endpoints);
      ErrorTotalNext(log[..n], log[n], endpoints);
      assert log == log[..n] + [log[n]];
    }
  }

  lemma {:induction false} NoErrorsYet(endpoints: seq<string>)
    ensures ErrorTotal([], endpoints) == 0
  {
    if endpoints != [] {
      NoErrorsYet(endpoints[1..]);
    }
  }
}
