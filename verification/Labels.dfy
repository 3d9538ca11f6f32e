/** Label keys of the metric vectors: the label values joined with byte 0xff. */
module Labels {
  import opened Common

  type Bytes = seq<Byte>

  const SEPARATOR: Byte := 0xff

  function Join(values: seq<Bytes>): Bytes {
    if values == [] then [] else if |values| == 1 then values[0]
    else values[0] + [SEPARATOR] + Join(values[1..])
  }

  function Split(s: Bytes): (r: seq<Bytes>)
    ensures r != []
  {
    if s == [] then [[]]
    else
      var rest := Split(s[1..]);
      if s[0] == SEPARATOR then [[]] + rest else [[s[0]] + rest[0]] + rest[1..]
  }

  // labels[name] in a Go map: the empty string where the name is missing.
  function ValuesOf(names: seq<string>, labels: map<string, Bytes>): (r: seq<Bytes>)
    ensures |r| == |names|
  {
    if names == [] then []
    else [if names[0] in labels then labels[names[0]] else []] + ValuesOf(names[1..], labels)
  }

  function LabelsKey(names: seq<string>, labels: map<string, Bytes>): Bytes {
    Join(ValuesOf(names, labels))
  }

  function DecodeLabels(names: seq<string>, key: Bytes): seq<Bytes> {
    if names == [] then [] else Split(key)
  }

  ghost predicate Clean(values: seq<Bytes>) {
    forall i :: 0 <= i < |values| ==> SEPARATOR !in values[i]
  }

  lemma {:induction false} SplitIsClean(s: Bytes)
    ensures Clean(Split(s))
  {
    if s != [] {
      SplitIsClean(s[1..]);
    }
  }

  lemma {:induction false} SplitWord(v: Bytes, s: Bytes)
    requires SEPARATOR !in v
    ensures Split(v) == [v]
    ensures Split(v + [SEPARATOR] + s) == [v] + Split(s)
  {
    if v == [] {
      assert ([] + [SEPARATOR] + s)[1..] == s;
    } else {
      SplitWord(v[1..], s);
      assert v == [v[0]] + v[1..];
      assert (v + [SEPARATOR] + s)[1..] == v[1..] + [SEPARATOR] + s;
    }
  }

  lemma {:induction false} SplitJoin(values: seq<Bytes>)
    requires values != [] && Clean(values)
    ensures Split(Join(values)) == values
  {
    if |values| == 1 {
      SplitWord(values[0], []);
    } else {
      assert Clean(values[1..]) by {
        forall i | 0 <= i < |values[1..]| ensures SEPARATOR !in values[1..][i] {
          assert values[1..][i] == values[i + 1];
        }
      }
      SplitJoin(values[1..]);
      SplitWord(values[0], Join(values[1..]));
    }
  }

  // A scrape shows the label values of an entry exactly if none contains the separator.
  lemma {:induction false} DecodeInvertsKey(names: seq<string>, labels: map<string, Bytes>)
    ensures DecodeLabels(names, LabelsKey(names, labels)) == ValuesOf(names, labels) <==>
            Clean(ValuesOf(names, labels))
  {
    if names != [] {
      SplitIsClean(LabelsKey(names, labels));
      if Clean(ValuesOf(names, labels)) {
        SplitJoin(ValuesOf(names, labels));
      }
    }
  }

  // So clean label sets share an entry only if their values agree.
  lemma {:induction false} KeysSeparateCleanLabels(names: seq<string>, a: map<string, Bytes>, b: map<string, Bytes>)
    requires Clean(ValuesOf(names, a)) && Clean(ValuesOf(names, b))
    ensures LabelsKey(names, a) == LabelsKey(names, b) <==> ValuesOf(names, a) == ValuesOf(names, b)
  {
    DecodeInvertsKey(names, a);
    DecodeInvertsKey(names, b);
  }

  // ---- Exactly which label sets share their entry ---------------------------------------

  lemma {:induction false} FirstSeparator(v: Bytes) returns (p: Bytes, q: Bytes)
    requires SEPARATOR in v
    ensures v == p + [SEPARATOR] + q
  {
    if v[0] == SEPARATOR {
      p, q := [], v[1..];
    } else {
      p, q := FirstSeparator(v[1..]);
      p := [v[0]] + p;
      assert v == [v[0]] + v[1..];
    }
  }

  lemma {:induction false} JoinTwo(u: Bytes, v: Bytes, rest: seq<Bytes>)
    ensures Join([u, v] + rest) == u + [SEPARATOR] + Join([v] + rest)
  {
    assert ([u, v] + rest)[1..] == [v] + rest;
  }

  // What stands before and after a separator can move between neighbours.
  lemma {:induction false} MoveSeparator(p: Bytes, q: Bytes, v: Bytes, rest: seq<Bytes>)
    ensures Join([p + [SEPARATOR] + q, v] + rest) == Join([p, q + [SEPARATOR] + v] + rest)
  {
    JoinTwo(p + [SEPARATOR] + q, v, rest);
    JoinTwo(p, q + [SEPARATOR] + v, rest);
    if rest == [] {
      assert [v] + rest == [v] && [q + [SEPARATOR] + v] + rest == [q + [SEPARATOR] + v];
      assert p + [SEPARATOR] + q + [SEPARATOR] + v == p + [SEPARATOR] + (q + [SEPARATOR] + v);
    } else {
      JoinFirst(v, rest);
      JoinFirst(q + [SEPARATOR] + v, rest);
      assert p + [SEPARATOR] + q + [SEPARATOR] + (v + [SEPARATOR] + Join(rest)) ==
             p + [SEPARATOR] + (q + [SEPARATOR] + v + [SEPARATOR] + Join(rest));
    }
  }

  lemma {:induction false} JoinFirst(v: Bytes, rest: seq<Bytes>)
    requires rest != []
    ensures Join([v] + rest) == v + [SEPARATOR] + Join(rest)
  {
    assert ([v] + rest)[1..] == rest;
  }

  lemma {:induction false} OtherValues(values: seq<Bytes>) returns (others: seq<Bytes>)
    requires |values| >= 2 && !Clean(values)
    ensures |others| == |values| && others != values && Join(others) == Join(values)
  {
    var a, b, rest := values[0], values[1], values[2..];
    assert values == [a, b] + rest;
    if SEPARATOR in a {
      var p, q := FirstSeparator(a);
      MoveSeparator(p, q, b, rest);
      others := [p, q + [SEPARATOR] + b] + rest;
      assert |others[0]| < |a|;
    } else if SEPARATOR in b {
      var p, q := FirstSeparator(b);
      MoveSeparator(a, p, q, rest);
      others := [a + [SEPARATOR] + p, q] + rest;
      assert |others[0]| > |a|;
    } else {
      var tail := values[1..];
      assert !Clean(tail) by {
        var i :| 0 <= i < |values| && SEPARATOR in values[i];
        assert tail[i - 1] == values[i];
      }
      var t := OtherValues(tail);
      others := [a] + t;
      assert others[1..] == t;
    }
  }

  ghost predicate DistinctNames(names: seq<string>) {
    forall i, j :: 0 <= i < j < |names| ==> names[i] != names[j]
  }

  function Labelling(names: seq<string>, values: seq<Bytes>): map<string, Bytes>
    requires |names| == |values|
  {
    if names == [] then map[] else Labelling(names[1..], values[1..])[names[0] := values[0]]
  }

  lemma {:induction false} IgnoresOthers(names: seq<string>, labels: map<string, Bytes>, name: string, v: Bytes)
    requires name !in names
    ensures ValuesOf(names, labels[name := v]) == ValuesOf(names, labels)
  {
    if names != [] {
      IgnoresOthers(names[1..], labels, name, v);
    }
  }

  lemma {:induction false} LabellingHas(names: seq<string>, values: seq<Bytes>)
    requires |names| == |values| && DistinctNames(names)
    ensures ValuesOf(names, Labelling(names, values)) == values
  {
    if names != [] {
      LabellingHas(names[1..], values[1..]);
      IgnoresOthers(names[1..], Labelling(names[1..], values[1..]), names[0], values[0]);
    }
  }

  ghost predicate SharesEntry(names: seq<string>, a: map<string, Bytes>, b: map<string, Bytes>) {
    ValuesOf(names, b) != ValuesOf(names, a) && LabelsKey(names, b) == LabelsKey(names, a)
  }

  lemma {:induction false} CleanCount(values: seq<Bytes>, s: Bytes)
    requires values != [] && s == Join(values)
    ensures |Split(s)| >= |values|
    ensures Clean(values) ==> |Split(s)| == |values|
    ensures |Split(s)| == |values| ==> Clean(values)
  {
    if |values| == 1 {
      Parts(values[0]);
    } else {
      CleanCount(values[1..], Join(values[1..]));
      PartsAppend(values[0], Join(values[1..]));
      Parts(values[0]);
      assert values == [values[0]] + values[1..];
      assert forall i :: 0 < i < |values| ==> values[i] == values[1..][i - 1];
      assert forall i :: 0 <= i < |values[1..]| ==> values[1..][i] == values[i + 1];
    }
  }

  lemma {:induction false} Parts(v: Bytes)
    ensures |Split(v)| >= 1
    ensures |Split(v)| == 1 <==> SEPARATOR !in v
  {
    if v != [] {
      Parts(v[1..]);
      assert v == [v[0]] + v[1..];
    }
  }

  lemma {:induction false} PartsAppend(v: Bytes, s: Bytes)
    ensures |Split(v + [SEPARATOR] + s)| == |Split(v)| + |Split(s)|
  {
    if v == [] {
      assert ([] + [SEPARATOR] + s)[1..] == s;
    } else {
      PartsAppend(v[1..], s);
      assert (v + [SEPARATOR] + s)[1..] == v[1..] + [SEPARATOR] + s;
    }
  }

  // A label set shares its entry with a different one exactly if the vector has at least
  // two names and one of the values contains the separator.
  lemma {:induction false} SharedExactly(names: seq<string>, a: map<string, Bytes>)
    requires DistinctNames(names)
    ensures (exists b :: SharesEntry(names, a, b)) <==> |names| >= 2 && !Clean(ValuesOf(names, a))
  {
    var values := ValuesOf(names, a);
    if |names| >= 2 && !Clean(values) {
      var others := OtherValues(values);
      LabellingHas(names, others);
      assert SharesEntry(names, a, Labelling(names, others));
    } else {
      forall b ensures !SharesEntry(names, a, b) {
        NotShared(names, a, b);
      }
    }
  }

  lemma {:induction false} NotShared(names: seq<string>, a: map<string, Bytes>, b: map<string, Bytes>)
    requires |names| < 2 || Clean(ValuesOf(names, a))
    ensures !SharesEntry(names, a, b)
  {
    var u, v := ValuesOf(names, a), ValuesOf(names, b);
    if |names| >= 2 && Join(u) == Join(v) {
      CleanCount(u, Join(u));
      CleanCount(v, Join(u));
      KeysSeparateCleanLabels(names, a, b);
    }
  }
}
