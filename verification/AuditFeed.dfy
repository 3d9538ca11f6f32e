/** groupAuditFeed: neighbouring records of the same action are shown as one group. */
module AuditFeed {
  import opened Common
  import opened AuditLog

  const WINDOW := 30 * SECOND

  datatype Item =
    | Single(record: Record)
    | Group(count: nat, first: Time, last: Time, sample: Record, events: seq<Record>)

  predicate CanGroup(a: Record, b: Record) {
    && a.userID.Some? && b.userID.Some? && a.userID == b.userID
    && a.verb == b.verb && a.action.Some? && b.action.Some? && a.action == b.action
    && a.resourceType.Some? && b.resourceType.Some? && a.resourceType == b.resourceType
    && a.resourceID.Some? && b.resourceID.Some? && a.resourceID == b.resourceID
    && -WINDOW <= a.createdAt - b.createdAt <= WINDOW
  }

  function Grouped(events: seq<Record>): Item
    requires events != []
  {
    Group(|events|, events[0].createdAt, events[|events| - 1].createdAt, events[0], events)
  }

  // How many records from the front of rest group with a.
  function RunLength(a: Record, rest: seq<Record>): (n: nat)
    ensures n <= |rest|
  {
    if rest == [] || !CanGroup(a, rest[0]) then 0 else 1 + RunLength(a, rest[1..])
  }

  lemma {:induction false} RunLengthMeans(a: Record, rest: seq<Record>)
    ensures forall k :: 0 <= k < RunLength(a, rest) ==> CanGroup(a, rest[k])
    ensures RunLength(a, rest) < |rest| ==> !CanGroup(a, rest[RunLength(a, rest)])
  {
    if rest != [] && CanGroup(a, rest[0]) {
      RunLengthMeans(a, rest[1..]);
    }
  }

  lemma {:induction false} RunLengthIs(a: Record, rest: seq<Record>, n: nat)
    requires n <= |rest| && forall k :: 0 <= k < n ==> CanGroup(a, rest[k])
    requires n < |rest| ==> !CanGroup(a, rest[n])
    ensures RunLength(a, rest) == n
  {
    if n > 0 {
      RunLengthIs(a, rest[1..], n - 1);
    }
  }

  // The item that the loop emits for the front of the records, how many it covers, and
  // the comparisons made for it.
  function Head(items: seq<Record>): Item
    requires items != []
  {
    var run := RunLength(items[0], items[1..]);
    if run + 1 >= 3 then Grouped(items[..run + 1]) else Single(items[0])
  }

  function Width(items: seq<Record>): (n: nat)
    requires items != []
    ensures 1 <= n <= |items|
  {
    var run := RunLength(items[0], items[1..]);
    if run + 1 >= 3 then run + 1 else 1
  }

  function Made(items: seq<Record>): (n: nat)
    requires items != []
    ensures n <= 2 * Width(items)
  {
    var run := RunLength(items[0], items[1..]);
    if run < |items| - 1 then run + 1 else run
  }

  function Feed(items: seq<Record>): seq<Item>
    decreases |items|
  {
    if items == [] then [] else [Head(items)] + Feed(items[Width(items)..])
  }

  function Comparisons(items: seq<Record>): nat
    decreases |items|
  {
    if items == [] then 0 else Made(items) + Comparisons(items[Width(items)..])
  }

  lemma {:induction false} RunNext(a: Record, items: seq<Record>, j: nat)
    requires j < |items|
    ensures RunLength(a, items[j..]) == if CanGroup(a, items[j]) then 1 + RunLength(a, items[j + 1..]) else 0
  {
    assert items[j..][1..] == items[j + 1..];
  }

  lemma TurnIs(rest: seq<Record>, run: nat)
    requires rest != [] && run == RunLength(rest[0], rest[1..])
    ensures Head(rest) == if run + 1 >= 3 then Grouped(rest[..run + 1]) else Single(rest[0])
    ensures Width(rest) == if run + 1 >= 3 then run + 1 else 1
    ensures Made(rest) == if run < |rest| - 1 then run + 1 else run
  {
  }

  // The inner loop collects the records that group with the i-th.
  method CollectRun(items: seq<Record>, i: nat) returns (groupEvents: seq<Record>, ghost made: nat)
    requires i < |items|
    ensures groupEvents == items[i..i + 1 + RunLength(items[i], items[i + 1..])]
    ensures made == |groupEvents| - if |groupEvents| < |items| - i then 0 else 1
  {
    groupEvents, made := [items[i]], 0;
    var j := i + 1;
    while j < |items|
      invariant i < j <= |items| && made == j - i - 1
      invariant groupEvents == items[i..j]
      invariant RunLength(items[i], items[i + 1..]) == made + RunLength(items[i], items[j..])
    {
      RunNext(items[i], items, j);
      made := made + 1;
      if !CanGroup(groupEvents[0], items[j]) {
        break;
      }
      groupEvents := groupEvents + [items[j]];
      j := j + 1;
    }
  }

  // One turn of the outer loop; next is where the loop goes on.
  method NextItem(items: seq<Record>, i: nat) returns (item: Item, next: nat, ghost made: nat)
    requires i < |items|
    ensures item == Head(items[i..]) && next == i + Width(items[i..]) && made == Made(items[i..])
  {
    var groupEvents;
    groupEvents, made := CollectRun(items, i);
    assert items[i..][1..] == items[i + 1..] && items[i..][..|groupEvents|] == groupEvents;
    TurnIs(items[i..], |groupEvents| - 1);
    if |groupEvents| >= 3 {
      return Grouped(groupEvents), i + |groupEvents|, made;
    }
    return Single(items[i]), i + 1, made;
  }

  lemma FeedNext(items: seq<Record>, i: nat)
    requires i < |items|
    ensures var n := Width(items[i..]);
            && Feed(items[i..]) == [Head(items[i..])] + Feed(items[i + n..])
            && Comparisons(items[i..]) == Made(items[i..]) + Comparisons(items[i + n..])
  {
    var n := Width(items[i..]);
    assert items[i..][n..] == items[i + n..];
  }

  // After the first i records the loop has emitted out and made so many comparisons.
  predicate Emitted(items: seq<Record>, i: nat, out: seq<Item>, comparisons: nat) {
    && i <= |items|
    && out + Feed(items[i..]) == Feed(items)
    && comparisons + Comparisons(items[i..]) == Comparisons(items)
  }

  lemma EmittedNext(items: seq<Record>, i: nat, out: seq<Item>, comparisons: nat)
    requires i < |items| && Emitted(items, i, out, comparisons)
    ensures Emitted(items, i + Width(items[i..]), out + [Head(items[i..])], comparisons + Made(items[i..]))
  {
    FeedNext(items, i);
    var rest := Feed(items[i + Width(items[i..])..]);
    assert (out + [Head(items[i..])]) + rest == out + ([Head(items[i..])] + rest);
  }

  lemma {:induction false} EmittedEnds(items: seq<Record>, out: seq<Item>, comparisons: nat)
    ensures Emitted(items, 0, [], 0)
    ensures Emitted(items, |items|, out, comparisons) <==> out == Feed(items) && comparisons == Comparisons(items)
  {
    assert items[0..] == items && items[|items|..] == [];
  }

  method GroupAuditFeed(items: seq<Record>) returns (out: seq<Item>, ghost comparisons: nat)
    ensures out == Feed(items)
    ensures comparisons == Comparisons(items)
  {
    out, comparisons := [], 0;
    var i := 0;
    EmittedEnds(items, out, comparisons);
    while i < |items|
      invariant i <= |items| && Emitted(items, i, out, comparisons)
    {
      var item, next, made := NextItem(items, i);
      EmittedNext(items, i, out, comparisons);
      out, comparisons := out + [item], comparisons + made;
      i := next;
    }
    EmittedEnds(items, out, comparisons);
  }

  // ---- What the feed is ------------------------------------------------------------------

  function EventsOf(item: Item): seq<Record> {
    match item
    case Single(r) => [r]
    case Group(_, _, _, _, events) => events
  }

  function Flatten(out: seq<Item>): seq<Record> {
    if out == [] then [] else EventsOf(out[0]) + Flatten(out[1..])
  }

  // A group of at least three, all of which go with its first, to which the record after
  // it cannot be added; or a single one that does not go with both records after it.
  predicate Rightful(item: Item, items: seq<Record>) {
    match item
    case Single(r) =>
      items != [] && r == items[0] &&
      !(|items| >= 3 && CanGroup(items[0], items[1]) && CanGroup(items[0], items[2]))
    case Group(count, first, last, sample, events) =>
      && 3 <= |events| <= |items| && events == items[..|events|]
      && (forall k :: 1 <= k < |events| ==> CanGroup(events[0], events[k]))
      && (|events| < |items| ==> !CanGroup(events[0], items[|events|]))
      && count == |events| && first == events[0].createdAt && last == events[|events| - 1].createdAt
      && sample == events[0]
  }

  // The items cut the records into rightful pieces, in order and without loss.
  predicate Faithful(out: seq<Item>, items: seq<Record>)
    decreases |out|
  {
    if out == [] then items == []
    else
      var n := |EventsOf(out[0])|;
      n <= |items| && Rightful(out[0], items) && Faithful(out[1..], items[n..])
  }

  lemma HeadIsRightful(items: seq<Record>)
    requires items != []
    ensures Rightful(Head(items), items) && |EventsOf(Head(items))| == Width(items)
  {
    var run := RunLength(items[0], items[1..]);
    RunLengthMeans(items[0], items[1..]);
    assert forall k :: 1 <= k < |items| ==> items[k] == items[1..][k - 1];
  }

  lemma {:induction false} FeedIsFaithful(items: seq<Record>)
    ensures Faithful(Feed(items), items)
    decreases |items|
  {
    if items != [] {
      HeadIsRightful(items);
      FeedIsFaithful(items[Width(items)..]);
      assert Feed(items)[1..] == Feed(items[Width(items)..]);
    }
  }

  lemma RightfulEvents(item: Item, items: seq<Record>)
    requires Rightful(item, items)
    ensures |EventsOf(item)| <= |items| && EventsOf(item) == items[..|EventsOf(item)|]
  {
  }

  lemma {:induction false} FaithfulFlattens(out: seq<Item>, items: seq<Record>)
    requires Faithful(out, items)
    ensures Flatten(out) == items
  {
    if out != [] {
      var n := |EventsOf(out[0])|;
      FaithfulFlattens(out[1..], items[n..]);
      RightfulEvents(out[0], items);
      assert items == items[..n] + items[n..];
    }
  }

  lemma GroupRun(item: Item, items: seq<Record>)
    requires item.Group? && Rightful(item, items)
    ensures RunLength(items[0], items[1..]) + 1 == |item.events|
  {
    forall k | 0 <= k < |item.events| - 1 ensures CanGroup(items[0], items[1..][k]) {
      assert items[1..][k] == item.events[k + 1];
    }
    RunLengthIs(items[0], items[1..], |item.events| - 1);
  }

  lemma SingleRun(items: seq<Record>)
    requires items != [] && RunLength(items[0], items[1..]) >= 2
    ensures |items| >= 3 && CanGroup(items[0], items[1]) && CanGroup(items[0], items[2])
  {
    RunLengthMeans(items[0], items[1..]);
    assert CanGroup(items[0], items[1..][0]) && CanGroup(items[0], items[1..][1]);
  }

  // The first item has to be the one the loop puts there.
  lemma RightfulIsHead(item: Item, items: seq<Record>)
    requires Rightful(item, items)
    ensures items != [] && item == Head(items)
  {
    if item.Group? {
      GroupRun(item, items);
    } else if RunLength(items[0], items[1..]) >= 2 {
      SingleRun(items);
    }
  }

  // Only one list of items does that: groups and singles leave no choice.
  lemma {:induction false} FaithfulIsUnique(out: seq<Item>, items: seq<Record>)
    requires Faithful(out, items)
    ensures out == Feed(items)
  {
    if out != [] {
      RightfulIsHead(out[0], items);
      HeadIsRightful(items);
      FaithfulIsUnique(out[1..], items[Width(items)..]);
    }
  }

  // No more than two comparisons a record.
  lemma {:induction false} ComparisonsAreFew(items: seq<Record>)
    ensures Comparisons(items) <= 2 * |items|
    decreases |items|
  {
    if items != [] {
      ComparisonsAreFew(items[Width(items)..]);
    }
  }
}
