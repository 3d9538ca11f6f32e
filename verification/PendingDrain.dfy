/** processPending: a restarted worker rereads its own pending messages from the start, ten
    at a time, until none is left. */
module PendingDrain {
  import opened Common

  const BATCH := 10

  // How a message will fare: its processing or its acknowledgement fails so many times
  // more and then succeeds, or it fails every time.
  datatype Fate = Left(failures: nat) | Poison

  datatype Entry = Entry(id: nat, fate: Fate)

  // The entry after one more attempt.
  function Attempt(e: Entry): seq<Entry> {
    match e.fate
    case Left(n) => if n == 0 then [] else [Entry(e.id, Left(n - 1))]
    case Poison => [e]
  }

  // One attempt at each of the first k entries.
  function AttemptFirst(p: seq<Entry>, k: nat): seq<Entry> {
    if p == [] || k == 0 then p else Attempt(p[0]) + AttemptFirst(p[1..], k - 1)
  }

  // The pending list after a round of the loop, and after n rounds.
  function Round(p: seq<Entry>): seq<Entry> {
    AttemptFirst(p, BATCH)
  }

  function Rounds(p: seq<Entry>, n: nat): seq<Entry> {
    if n == 0 then p else Round(Rounds(p, n - 1))
  }

  // ---- The loop ----------------------------------------------------------------------------

  // Pending entries plus remaining failures, not counting poison.
  function Work(p: seq<Entry>): nat {
    if p == [] then 0 else (if p[0].fate.Left? then p[0].fate.failures + 1 else 0) + Work(p[1..])
  }

  predicate AllPoison(p: seq<Entry>) {
    forall i :: 0 <= i < |p| ==> p[i].fate.Poison?
  }

  predicate NoPoison(p: seq<Entry>) {
    forall i :: 0 <= i < |p| ==> p[i].fate.Left?
  }

  function Take(p: seq<Entry>, k: nat): seq<Entry> {
    if |p| <= k then p else p[..k]
  }

  lemma {:induction false} WorkAppend(a: seq<Entry>, b: seq<Entry>)
    ensures Work(a + b) == Work(a) + Work(b)
  {
    if a == [] {
      assert a + b == b;
    } else {
      WorkAppend(a[1..], b);
      assert (a + b)[1..] == a[1..] + b;
    }
  }

  lemma TakeFirst(p: seq<Entry>, k: nat)
    requires p != [] && k > 0
    ensures AllPoison(Take(p, k)) <==> p[0].fate.Poison? && AllPoison(Take(p[1..], k - 1))
  {
    var t, rest := Take(p, k), Take(p[1..], k - 1);
    assert t == [p[0]] + rest;
    if AllPoison(t) {
      assert t[0].fate.Poison?;
      forall i | 0 <= i < |rest| ensures rest[i].fate.Poison? {
        assert t[i + 1] == rest[i];
      }
    }
  }

  lemma {:induction false} AttemptWorks(p: seq<Entry>, k: nat)
    ensures Work(AttemptFirst(p, k)) <= Work(p)
    ensures Work(AttemptFirst(p, k)) == Work(p) <==> AllPoison(Take(p, k))
    ensures AllPoison(Take(p, k)) ==> AttemptFirst(p, k) == p
  {
    if p != [] && k > 0 {
      AttemptWorks(p[1..], k - 1);
      WorkAppend(Attempt(p[0]), AttemptFirst(p[1..], k - 1));
      TakeFirst(p, k);
    }
  }

  lemma {:induction false} AttemptAddsNoPoison(p: seq<Entry>, k: nat)
    requires NoPoison(p)
    ensures NoPoison(AttemptFirst(p, k))
  {
    if p != [] && k > 0 {
      AttemptAddsNoPoison(p[1..], k - 1);
    }
  }

  // A round makes progress exactly if its batch holds a message that is not poison.
  lemma {:induction false} RoundWorks(p: seq<Entry>)
    ensures Work(Round(p)) <= Work(p)
    ensures Work(Round(p)) < Work(p) <==> !AllPoison(Take(p, BATCH))
    ensures AllPoison(Take(p, BATCH)) ==> Round(p) == p
    ensures NoPoison(p) ==> NoPoison(Round(p))
  {
    AttemptWorks(p, BATCH);
    if NoPoison(p) {
      AttemptAddsNoPoison(p, BATCH);
    }
  }

  // What is left of the first i entries after an attempt at each.
  function Tried(p: seq<Entry>, i: nat): seq<Entry>
    requires i <= |p|
  {
    if i == 0 then [] else Tried(p, i - 1) + Attempt(p[i - 1])
  }

  lemma {:induction false} TriedFirst(p: seq<Entry>, i: nat)
    requires 0 < i <= |p|
    ensures Tried(p, i) == Attempt(p[0]) + Tried(p[1..], i - 1)
  {
    if i > 1 {
      TriedFirst(p, i - 1);
      assert p[1..][i - 2] == p[i - 1];
    }
  }

  lemma {:induction false} TriedAll(p: seq<Entry>, n: nat)
    requires n <= |p|
    ensures Tried(p, n) + p[n..] == AttemptFirst(p, n)
  {
    if n > 0 {
      TriedFirst(p, n);
      TriedAll(p[1..], n - 1);
      assert p[1..][n - 1..] == p[n..];
    }
  }

  // The i-th message stands behind what is left of those before it.
  lemma TriedNext(was: seq<Entry>, i: nat)
    requires i < |was|
    ensures var done, pending := Tried(was, i), Tried(was, i) + was[i..];
            && pending[|done|] == was[i] && pending == done + [was[i]] + was[i + 1..]
            && Tried(was, i + 1) == done + Attempt(was[i])
            && |done + Attempt(was[i]) + was[i + 1..]| == |pending| - 1 + |Attempt(was[i])|
            && |Attempt(was[i])| <= 1
  {
  }

  // The worker's view: the group's pending list and the code that goes through a batch.
  class Consumer {
    var pending: seq<Entry>

    constructor (pending: seq<Entry>)
      ensures this.pending == pending
    {
      this.pending := pending;
    }

    // processMessage of the entry at position at: it is acknowledged or stays.
    method ProcessMessage(at: nat, ghost done: seq<Entry>, ghost rest: seq<Entry>)
      requires at == |done| < |pending| && pending == done + [pending[at]] + rest
      modifies this
      ensures pending == done + Attempt(old(pending[at])) + rest
    {
      var e := pending[at];
      assert pending[..at] == done && pending[at + 1..] == rest;
      if e.fate.Left? && e.fate.failures == 0 {
        pending := pending[..at] + pending[at + 1..];
        assert pending == done + [] + rest;
      } else if e.fate.Left? {
        pending := pending[..at] + [Entry(e.id, Left(e.fate.failures - 1))] + pending[at + 1..];
      }
    }

    // One batch, message by message; those that fail stay in front of the rest.
    method ProcessBatch(n: nat)
      requires n <= |pending|
      modifies this
      ensures pending == AttemptFirst(old(pending), n)
    {
      ghost var was := pending;
      var at := 0;
      for i := 0 to n
        invariant at == |Tried(was, i)| && pending == Tried(was, i) + was[i..]
      {
        TriedNext(was, i);
        var size := |pending|;
        ProcessMessage(at, Tried(was, i), was[i + 1..]);
        if |pending| == size {
          at := at + 1;
        }
      }
      TriedAll(was, n);
    }

    // The loop ends with the list empty whenever the failures are finite, unless a read
    // breaks; the measure is entries plus remaining failures.
    method ProcessPending(breaksAt: Option<nat>) returns (rounds: nat)
      requires NoPoison(pending)
      modifies this
      ensures pending == Rounds(old(pending), rounds)
      ensures rounds <= Work(old(pending))
      ensures pending == [] || breaksAt == Some(rounds)
    {
      rounds := 0;
      while true
        invariant NoPoison(pending)
        invariant pending == Rounds(old(pending), rounds)
        invariant rounds + Work(pending) <= Work(old(pending))
        decreases Work(pending)
      {
        if breaksAt == Some(rounds) {
          return;
        }
        var n := if |pending| <= BATCH then |pending| else BATCH;
        if n == 0 {
          return;
        }
        RoundWorks(pending);
        assert Take(pending, BATCH)[0].fate.Left?;
        ShortRound(pending);
        ProcessBatch(n);
        rounds := rounds + 1;
      }
    }
  }

  lemma {:induction false} AttemptAll(p: seq<Entry>, k: nat)
    requires |p| <= k
    ensures AttemptFirst(p, k) == AttemptFirst(p, |p|)
  {
    if p != [] {
      AttemptAll(p[1..], k - 1);
    }
  }

  lemma {:induction false} ShortRound(p: seq<Entry>)
    ensures Round(p) == AttemptFirst(p, if |p| <= BATCH then |p| else BATCH)
  {
    if |p| <= BATCH {
      AttemptAll(p, BATCH);
    }
  }

  // ---- Exactly which messages get through ---------------------------------------------------

  predicate Has(p: seq<Entry>, id: nat) {
    exists i :: 0 <= i < |p| && p[i].id == id
  }

  predicate DistinctEntries(p: seq<Entry>) {
    forall i, j :: 0 <= i < j < |p| ==> p[i].id != p[j].id
  }

  // The poison entries ahead of id, 0 if it is not there.
  function PoisonAhead(p: seq<Entry>, id: nat): nat {
    if p == [] || p[0].id == id then 0
    else (if p[0].fate.Poison? then 1 else 0) + PoisonAhead(p[1..], id)
  }

  function FateOf(p: seq<Entry>, id: nat): Option<Fate> {
    if p == [] then None else if p[0].id == id then Some(p[0].fate) else FateOf(p[1..], id)
  }

  lemma {:induction false} FateOfHas(p: seq<Entry>, id: nat)
    ensures FateOf(p, id).Some? <==> Has(p, id)
  {
    if p != [] {
      FateOfHas(p[1..], id);
      if Has(p, id) && p[0].id != id {
        var i :| 0 <= i < |p| && p[i].id == id;
        assert p[1..][i - 1].id == id;
      }
      if Has(p[1..], id) {
        var i :| 0 <= i < |p[1..]| && p[1..][i].id == id;
        assert p[i + 1].id == id;
      }
    }
  }

  lemma {:induction false} Untried(p: seq<Entry>, k: nat, id: nat)
    requires PoisonAhead(p, id) >= k && FateOf(p, id).Some?
    ensures FateOf(AttemptFirst(p, k), id) == FateOf(p, id)
    ensures PoisonAhead(AttemptFirst(p, k), id) == PoisonAhead(p, id)
  {
    if p != [] && k > 0 {
      var rest := AttemptFirst(p[1..], k - 1);
      Untried(p[1..], k - 1, id);
      AttemptThen(p[0], rest, id);
      if Attempt(p[0]) == [] {
        assert [] + rest == rest;
      }
    }
  }

  lemma {:induction false} AttemptThen(e: Entry, rest: seq<Entry>, id: nat)
    requires e.id != id
    ensures FateOf(Attempt(e) + rest, id) == FateOf(rest, id)
    ensures PoisonAhead(Attempt(e) + rest, id) ==
            (if e.fate.Poison? then 1 else 0) + PoisonAhead(rest, id)
  {
    if Attempt(e) == [] {
      assert [] + rest == rest;
    } else {
      assert (Attempt(e) + rest)[1..] == rest;
    }
  }

  // What a round does to one message: nothing if it is poison, and the poison ahead of it
  // never changes while it is there.
  lemma {:induction false} AttemptOne(p: seq<Entry>, k: nat, id: nat)
    requires DistinctEntries(p) && FateOf(p, id).Some?
    ensures FateOf(p, id).value.Poison? ==> FateOf(AttemptFirst(p, k), id) == FateOf(p, id)
    ensures FateOf(AttemptFirst(p, k), id).Some? ==>
              PoisonAhead(AttemptFirst(p, k), id) == PoisonAhead(p, id)
    ensures FateOf(AttemptFirst(p, k), id).Some? ==>
              FateOf(AttemptFirst(p, k), id).value.Poison? == FateOf(p, id).value.Poison?
  {
    if p != [] && k > 0 {
      var rest := AttemptFirst(p[1..], k - 1);
      if p[0].id == id {
        if Attempt(p[0]) == [] {
          NotAfter(p, k, id);
        }
      } else {
        AttemptOne(p[1..], k - 1, id);
        AttemptThen(p[0], rest, id);
      }
    }
  }

  // Rounds bring no message in and keep the ids apart.
  lemma {:induction false} AttemptHas(p: seq<Entry>, k: nat, id: nat)
    ensures FateOf(AttemptFirst(p, k), id).Some? ==> FateOf(p, id).Some?
  {
    if p != [] && k > 0 && p[0].id != id {
      AttemptHas(p[1..], k - 1, id);
      AttemptThen(p[0], AttemptFirst(p[1..], k - 1), id);
    }
  }

  lemma {:induction false} NotAfter(p: seq<Entry>, k: nat, id: nat)
    requires DistinctEntries(p) && p != [] && k > 0 && p[0].id == id && Attempt(p[0]) == []
    ensures FateOf(AttemptFirst(p, k), id).None?
  {
    var rest := AttemptFirst(p[1..], k - 1);
    assert [] + rest == rest;
    AttemptHas(p[1..], k - 1, id);
    FateOfHas(p[1..], id);
    OnlyOnce(p);
  }

  lemma OnlyOnce(p: seq<Entry>)
    requires DistinctEntries(p) && p != []
    ensures !Has(p[1..], p[0].id)
  {
    forall i | 0 <= i < |p[1..]| ensures p[1..][i].id != p[0].id {
      assert p[1..][i] == p[i + 1];
    }
  }

  lemma DistinctAttempt(e: Entry, rest: seq<Entry>)
    requires DistinctEntries(rest) && !Has(rest, e.id)
    ensures DistinctEntries(Attempt(e) + rest)
  {
  }

  lemma {:induction false} RestLacksFirst(p: seq<Entry>, k: nat)
    requires DistinctEntries(p) && p != []
    ensures !Has(AttemptFirst(p[1..], k), p[0].id)
  {
    OnlyOnce(p);
    AttemptHas(p[1..], k, p[0].id);
    FateOfHas(p[1..], p[0].id);
    FateOfHas(AttemptFirst(p[1..], k), p[0].id);
  }

  lemma {:induction false} AttemptDistinct(p: seq<Entry>, k: nat)
    requires DistinctEntries(p)
    ensures DistinctEntries(AttemptFirst(p, k))
  {
    if p != [] && k > 0 {
      AttemptDistinct(p[1..], k - 1);
      RestLacksFirst(p, k - 1);
      DistinctAttempt(p[0], AttemptFirst(p[1..], k - 1));
    }
  }

  // Rounds until the batch is all poison: no later round changes anything.
  lemma {:induction false} Settles(p: seq<Entry>) returns (n: nat)
    ensures n <= Work(p) && AllPoison(Take(Rounds(p, n), BATCH))
    ensures Round(Rounds(p, n)) == Rounds(p, n)
    decreases Work(p)
  {
    RoundWorks(p);
    if AllPoison(Take(p, BATCH)) {
      n := 0;
    } else {
      n := Settles(Round(p));
      RoundsFromFirst(p, n);
      n := n + 1;
    }
  }

  lemma {:induction false} RoundsFromFirst(p: seq<Entry>, n: nat)
    ensures Rounds(Round(p), n) == Rounds(p, n + 1)
  {
    if n > 0 {
      RoundsFromFirst(p, n - 1);
    }
  }

  // One message over any number of rounds.
  lemma {:induction false} RoundsOne(p: seq<Entry>, n: nat, id: nat)
    requires DistinctEntries(p) && FateOf(p, id).Some?
    ensures DistinctEntries(Rounds(p, n))
    ensures FateOf(Rounds(p, n), id).Some? ==>
              && PoisonAhead(Rounds(p, n), id) == PoisonAhead(p, id)
              && FateOf(Rounds(p, n), id).value.Poison? == FateOf(p, id).value.Poison?
    ensures FateOf(p, id).value.Poison? || PoisonAhead(p, id) >= BATCH ==> FateOf(Rounds(p, n), id).Some?
  {
    if n > 0 {
      var q := Rounds(p, n - 1);
      RoundsOne(p, n - 1, id);
      AttemptDistinct(q, BATCH);
      AttemptHas(q, BATCH, id);
      if FateOf(q, id).Some? {
        AttemptOne(q, BATCH, id);
        if PoisonAhead(q, id) >= BATCH {
          Untried(q, BATCH, id);
        }
      }
    }
  }

  lemma {:induction false} BehindPoison(p: seq<Entry>, k: nat, id: nat)
    requires AllPoison(Take(p, k)) && FateOf(p, id).Some? && FateOf(p, id).value.Left?
    ensures PoisonAhead(p, id) >= k
  {
    if k > 0 {
      TakeFirst(p, k);
      BehindPoison(p[1..], k - 1, id);
    }
  }

  // A pending message is eventually acknowledged exactly if it is not poison and fewer
  // than ten poison messages are pending ahead of it.
  lemma {:induction false} EventuallyAcked(p: seq<Entry>, id: nat)
    requires DistinctEntries(p) && Has(p, id)
    ensures (exists n :: !Has(Rounds(p, n), id)) <==>
            FateOf(p, id) != Some(Poison) && PoisonAhead(p, id) < BATCH
  {
    FateOfHas(p, id);
    if FateOf(p, id) != Some(Poison) && PoisonAhead(p, id) < BATCH {
      var n := Settles(p);
      var q := Rounds(p, n);
      RoundsOne(p, n, id);
      FateOfHas(q, id);
      if Has(q, id) {
        BehindPoison(q, BATCH, id);
      }
      assert !Has(Rounds(p, n), id);
    } else {
      forall n ensures Has(Rounds(p, n), id) {
        RoundsOne(p, n, id);
        FateOfHas(Rounds(p, n), id);
      }
    }
  }

  // The list becomes empty, and the loop ends, exactly if no message is poison.
  lemma {:induction false} EventuallyEmpty(p: seq<Entry>)
    requires DistinctEntries(p)
    ensures (exists n :: Rounds(p, n) == []) <==> NoPoison(p)
  {
    if NoPoison(p) {
      var n := Settles(p);
      RoundsNoPoison(p, n);
      BothEmpty(Rounds(p, n));
    } else {
      var i :| 0 <= i < |p| && p[i].fate.Poison?;
      FateAt(p, i);
      forall n ensures Rounds(p, n) != [] {
        RoundsOne(p, n, p[i].id);
      }
    }
  }

  lemma BothEmpty(p: seq<Entry>)
    requires NoPoison(p)
    ensures AllPoison(Take(p, BATCH)) ==> p == []
  {
    if p != [] {
      assert Take(p, BATCH)[0].fate.Left?;
    }
  }

  lemma {:induction false} RoundsNoPoison(p: seq<Entry>, n: nat)
    requires NoPoison(p)
    ensures NoPoison(Rounds(p, n))
  {
    if n > 0 {
      RoundsNoPoison(p, n - 1);
      RoundWorks(Rounds(p, n - 1));
    }
  }

  lemma {:induction false} FateAt(p: seq<Entry>, i: nat)
    requires DistinctEntries(p) && i < |p|
    ensures FateOf(p, p[i].id) == Some(p[i].fate)
  {
    if i > 0 {
      assert p[1..][i - 1] == p[i];
      FateAt(p[1..], i - 1);
    }
  }
}
