/** HistogramVec used by one goroutine: atomic buckets that are not cumulative, rendered as
    cumulative counts. */
module Histogram {
  import opened Common
  import opened Labels
  import opened Sorting

  // A float64, with its comparison; NaN is below no bound.
  datatype Float = NaN | NegInf | Finite(x: real) | PosInf

  predicate AtMost(v: Float, bound: real) {
    v.NegInf? || (v.Finite? && v.x <= bound)
  }

  datatype Entry = Entry(sum: Float, count: nat, buckets: seq<nat>)

  function Zeros(n: nat): (r: seq<nat>)
    ensures |r| == n && forall i :: 0 <= i < n ==> r[i] == 0
  {
    if n == 0 then [] else Zeros(n - 1) + [0]
  }

  const NEW_SUM := Finite(0.0)

  function NewEntry(bounds: seq<real>): Entry {
    Entry(NEW_SUM, 0, Zeros(|bounds| + 1))
  }

  // The first bound that is not below v, or the overflow bucket.
  function BucketOf(bounds: seq<real>, v: Float): (i: nat)
    ensures i <= |bounds|
  {
    if bounds == [] || AtMost(v, bounds[0]) then 0 else 1 + BucketOf(bounds[1..], v)
  }

  const LE: (real, real) -> bool := (a, b) => a <= b

  lemma {:induction false} BucketOfMeans(bounds: seq<real>, v: Float, i: nat)
    requires Ascending(bounds, LE) && i < |bounds|
    ensures BucketOf(bounds, v) <= i <==> AtMost(v, bounds[i])
  {
    if AtMost(v, bounds[0]) {
      assert i > 0 ==> LE(bounds[0], bounds[i]);
    } else if i > 0 {
      BucketOfMeans(bounds[1..], v, i - 1);
    }
  }

  // ---- What the entry of some observations holds ---------------------------------------------

  // How many values fall in bucket i; how many are at most the bound.
  function InBucket(bounds: seq<real>, vs: seq<Float>, i: nat): nat {
    if vs == [] then 0
    else InBucket(bounds, vs[..|vs| - 1], i) + if BucketOf(bounds, vs[|vs| - 1]) == i then 1 else 0
  }

  function CountAtMost(vs: seq<Float>, bound: real): nat {
    if vs == [] then 0
    else CountAtMost(vs[..|vs| - 1], bound) + if AtMost(vs[|vs| - 1], bound) then 1 else 0
  }

  function Sum(vs: seq<Float>, add: (Float, Float) -> Float): Float {
    if vs == [] then NEW_SUM else add(Sum(vs[..|vs| - 1], add), vs[|vs| - 1])
  }

  ghost predicate Holds(e: Entry, bounds: seq<real>, vs: seq<Float>, add: (Float, Float) -> Float) {
    && e.sum == Sum(vs, add)
    && e.count == |vs|
    && |e.buckets| == |bounds| + 1
    && forall i :: 0 <= i <= |bounds| ==> e.buckets[i] == InBucket(bounds, vs, i)
  }

  // The first k buckets together.
  function Prefix(buckets: seq<nat>, k: nat): nat
    requires k <= |buckets|
  {
    if k == 0 then 0 else Prefix(buckets, k - 1) + buckets[k - 1]
  }

  function Below(bounds: seq<real>, vs: seq<Float>, k: nat): nat {
    if vs == [] then 0
    else Below(bounds, vs[..|vs| - 1], k) + if BucketOf(bounds, vs[|vs| - 1]) < k then 1 else 0
  }

  lemma {:induction false} BelowNext(bounds: seq<real>, vs: seq<Float>, k: nat)
    ensures Below(bounds, vs, 0) == 0
    ensures Below(bounds, vs, k + 1) == Below(bounds, vs, k) + InBucket(bounds, vs, k)
  {
    if vs != [] {
      BelowNext(bounds, vs[..|vs| - 1], k);
    }
  }

  lemma {:induction false} PrefixIsBelow(buckets: seq<nat>, bounds: seq<real>, vs: seq<Float>, k: nat)
    requires |buckets| == |bounds| + 1 && k <= |buckets|
    requires forall i :: 0 <= i <= |bounds| ==> buckets[i] == InBucket(bounds, vs, i)
    ensures Prefix(buckets, k) == Below(bounds, vs, k)
  {
    if k == 0 {
      BelowNext(bounds, vs, 0);
    } else {
      PrefixIsBelow(buckets, bounds, vs, k - 1);
      BelowNext(bounds, vs, k - 1);
    }
  }

  lemma {:induction false} BelowMeans(bounds: seq<real>, vs: seq<Float>, i: nat)
    requires Ascending(bounds, LE)
    ensures i < |bounds| ==> Below(bounds, vs, i + 1) == CountAtMost(vs, bounds[i])
    ensures Below(bounds, vs, |bounds| + 1) == |vs|
  {
    if vs != [] {
      BelowMeans(bounds, vs[..|vs| - 1], i);
      if i < |bounds| {
        BucketOfMeans(bounds, vs[|vs| - 1], i);
      }
    }
  }

  // Accumulating the buckets gives, at each bound, the number of values not above it, and
  // in the end the number of all values.
  lemma {:induction false} CumulativeCounts(buckets: seq<nat>, bounds: seq<real>, vs: seq<Float>, i: nat)
    requires Ascending(bounds, LE) && i <= |bounds| && |buckets| == |bounds| + 1
    requires forall i :: 0 <= i <= |bounds| ==> buckets[i] == InBucket(bounds, vs, i)
    ensures Prefix(buckets, i + 1) == if i < |bounds| then CountAtMost(vs, bounds[i]) else |vs|
  {
    PrefixIsBelow(buckets, bounds, vs, i + 1);
    BelowMeans(bounds, vs, i);
  }

  // ---- The object ------------------------------------------------------------------------------

  // One entry as a scrape shows it; the last of cumulative is the +Inf bucket.
  datatype Rendered = Rendered(cumulative: seq<nat>, sum: Float, count: nat)

  class HistogramVec {
    const names: seq<string>
    const bounds: seq<real>
    const add: (Float, Float) -> Float
    var entries: map<Bytes, Entry>
    ghost var observed: map<Bytes, seq<Float>>

    ghost predicate Valid()
      reads this
    {
      && Ascending(bounds, LE)
      && entries.Keys == observed.Keys
      && forall k :: k in entries ==> Holds(entries[k], bounds, observed[k], add)
    }

    constructor (names: seq<string>, buckets: seq<real>, add: (Float, Float) -> Float)
      ensures Valid() && entries == map[] && observed == map[]
      ensures this.names == names && this.add == add && multiset(bounds) == multiset(buckets)
    {
      SortSorts(buckets, LE);
      this.names, this.add := names, add;
      bounds := Sort(buckets, LE);
      entries, observed := map[], map[];
    }

    method Observe(labels: map<string, Bytes>, v: Float)
      requires Valid()
      modifies this
      ensures Valid()
      ensures var key := LabelsKey(names, labels);
              observed == old(observed)[key := (if key in old(observed) then old(observed)[key] else []) + [v]]
    {
      var key := LabelsKey(names, labels);
      ghost var before := if key in observed then observed[key] else [];
      if key !in entries {
        entries := entries[key := NewEntry(bounds)];
      }
      var e := entries[key];
      assert Holds(e, bounds, before, add);
      e := e.(sum := add(e.sum, v));
      e := e.(count := e.count + 1);
      var bucketIdx := |bounds|;
      for i := 0 to |bounds|
        invariant BucketOf(bounds, v) == i + BucketOf(bounds[i..], v)
        invariant bucketIdx == |bounds|
      {
        assert bounds[i..][1..] == bounds[i + 1..];
        if AtMost(v, bounds[i]) {
          bucketIdx := i;
          break;
        }
      }
      e := e.(buckets := e.buckets[bucketIdx := e.buckets[bucketIdx] + 1]);
      entries := entries[key := e];
      observed := observed[key := before + [v]];
      assert (before + [v])[..|before|] == before;
      assert Holds(e, bounds, before + [v], add);
    }

    // The part of writePrometheus for one entry: each bound shows the number of observed
    // values not above it, +Inf shows the count.
    method Render(key: Bytes) returns (r: Rendered)
      requires Valid() && key in entries
      ensures |r.cumulative| == |bounds| + 1
      ensures forall i :: 0 <= i < |bounds| ==> r.cumulative[i] == CountAtMost(observed[key], bounds[i])
      ensures r.cumulative[|bounds|] == r.count == |observed[key]|
      ensures r.sum == Sum(observed[key], add)
    {
      var e := entries[key];
      var cumulative, shown: seq<nat> := 0, [];
      for i := 0 to |bounds|
        invariant |shown| == i && cumulative == Prefix(e.buckets, i)
        invariant forall j :: 0 <= j < i ==> shown[j] == CountAtMost(observed[key], bounds[j])
      {
        cumulative := cumulative + e.buckets[i];
        shown := shown + [cumulative];
        CumulativeCounts(e.buckets, bounds, observed[key], i);
      }
      cumulative := cumulative + e.buckets[|bounds|];
      CumulativeCounts(e.buckets, bounds, observed[key], |bounds|);
      return Rendered(shown + [cumulative], e.sum, e.count);
    }
  }
}
