/** The Redis stream consumer group that enriches findings: publishers, workers that read,
    process and acknowledge, crashes and restarts. */
module EnrichmentStream {
  import opened Common

  const BATCH := 10

  // A message holds a finding id, or something the worker cannot parse.
  datatype Message = Message(findingID: Option<Uuid>)

  // What a worker is doing: reading its pending messages after a start, reading new ones,
  // working through a batch, or acknowledging the first message of the batch.
  datatype Phase =
    | ReadingPending
    | ReadingNew
    | Handling(batch: seq<nat>, recovering: bool)
    | Acking(id: nat, rest: seq<nat>, recovering: bool)
    | Dead

  datatype Worker = Worker(consumer: nat, phase: Phase)

  // A message's id is its position in the stream. Messages before next were delivered;
  // pending maps those not acknowledged to their consumer. enriched lists the messages
  // whose finding was enriched.
  datatype State = State(
    stream: seq<Message>, next: nat, pending: map<nat, nat>, acked: set<nat>, enriched: set<nat>,
    workers: seq<Worker>)

  const INIT := State([], 0, map[], {}, {}, [])

  // One atomic event, with what the outside world decides: whether a command or its reply
  // is lost and whether enrichment succeeds. A pipeline of XADDs is a series of Publish.
  datatype Event =
    | Publish(m: Message)
    | Start(consumer: nat)
    | Crash(w: nat)
    | ReadPending(w: nat, fails: bool)
    | ReadNew(w: nat, replyLost: bool)
    | Process(w: nat, succeeds: bool)
    | Ack(w: nat, fails: bool)

  // The ids below n pending at a consumer, oldest first.
  function PendingAt(pending: map<nat, nat>, consumer: nat, n: nat): seq<nat> {
    if n == 0 then []
    else
      PendingAt(pending, consumer, n - 1) +
      if n - 1 in pending && pending[n - 1] == consumer then [n - 1] else []
  }

  function First(ids: seq<nat>): seq<nat> {
    if |ids| <= BATCH then ids else ids[..BATCH]
  }

  function Range(from: nat, to: nat): seq<nat>
    requires from <= to
  {
    if from == to then [] else Range(from, to - 1) + [to - 1]
  }

  function Deliver(pending: map<nat, nat>, consumer: nat, from: nat, to: nat): map<nat, nat>
    requires from <= to
  {
    if from == to then pending else Deliver(pending, consumer, from, to - 1)[to - 1 := consumer]
  }

  function Move(s: State, w: nat, p: Phase): State
    requires w < |s.workers|
  {
    s.(workers := s.workers[w := s.workers[w].(phase := p)])
  }

  function Malformed(s: State, id: nat): bool {
    id < |s.stream| && s.stream[id].findingID.None?
  }

  // processMessage up to the point where it acknowledges or gives up.
  function Handle(s: State, w: nat, succeeds: bool): State
    requires w < |s.workers| && s.workers[w].phase.Handling?
  {
    var p := s.workers[w].phase;
    if p.batch == [] then Move(s, w, if p.recovering then ReadingPending else ReadingNew)
    else if Malformed(s, p.batch[0]) then Move(s, w, Acking(p.batch[0], p.batch[1..], p.recovering))
    else if succeeds then
      Move(s.(enriched := s.enriched + {p.batch[0]}), w, Acking(p.batch[0], p.batch[1..], p.recovering))
    else Move(s, w, Handling(p.batch[1..], p.recovering))
  }

  function Acknowledge(s: State, w: nat, fails: bool): State
    requires w < |s.workers| && s.workers[w].phase.Acking?
  {
    var p := s.workers[w].phase;
    var t := Move(s, w, Handling(p.rest, p.recovering));
    if fails || p.id !in s.pending then t else t.(pending := s.pending - {p.id}, acked := s.acked + {p.id})
  }

  function FetchPending(s: State, w: nat, fails: bool): State
    requires w < |s.workers|
  {
    var ids := First(PendingAt(s.pending, s.workers[w].consumer, s.next));
    Move(s, w, if fails || ids == [] then ReadingNew else Handling(ids, true))
  }

  function FetchNew(s: State, w: nat, replyLost: bool): State
    requires w < |s.workers| && s.next <= |s.stream|
  {
    var to := if |s.stream| - s.next <= BATCH then |s.stream| else s.next + BATCH;
    var t := s.(next := to, pending := Deliver(s.pending, s.workers[w].consumer, s.next, to));
    if replyLost || to == s.next then t else Move(t, w, Handling(Range(s.next, to), false))
  }

  // An event that is not possible changes nothing.
  function Next(s: State, e: Event): State {
    match e
    case Publish(m) => s.(stream := s.stream + [m])
    case Start(consumer) => s.(workers := s.workers + [Worker(consumer, ReadingPending)])
    case Crash(w) => if w < |s.workers| then Move(s, w, Dead) else s
    case ReadPending(w, fails) =>
      if w < |s.workers| && s.workers[w].phase.ReadingPending? then FetchPending(s, w, fails) else s
    case ReadNew(w, lost) =>
      if w < |s.workers| && s.workers[w].phase.ReadingNew? && s.next <= |s.stream| then FetchNew(s, w, lost) else s
    case Process(w, succeeds) =>
      if w < |s.workers| && s.workers[w].phase.Handling? then Handle(s, w, succeeds) else s
    case Ack(w, fails) =>
      if w < |s.workers| && s.workers[w].phase.Acking? then Acknowledge(s, w, fails) else s
  }

  function Run(s: State, events: seq<Event>): State {
    if events == [] then s else Next(Run(s, events[..|events| - 1]), events[|events| - 1])
  }

  // ---- No message is lost -----------------------------------------------------------------

  predicate Undelivered(s: State, id: nat) {
    s.next <= id < |s.stream|
  }

  // Each published message is in exactly one place.
  predicate InOnePlace(s: State, id: nat) {
    if Undelivered(s, id) then id !in s.pending && id !in s.acked
    else (id in s.pending) != (id in s.acked)
  }

  predicate Justified(s: State, id: nat) {
    Malformed(s, id) || id in s.enriched
  }

  predicate PhaseFits(s: State, p: Phase) {
    match p
    case Handling(batch, _) => forall id :: id in batch ==> id < s.next
    case Acking(id, rest, _) => id < s.next && Justified(s, id) && forall i :: i in rest ==> i < s.next
    case _ => true
  }

  ghost predicate WorkersFit(s: State) {
    forall w :: 0 <= w < |s.workers| ==> PhaseFits(s, s.workers[w].phase)
  }

  ghost predicate Kept(s: State) {
    && s.next <= |s.stream|
    && (forall id :: 0 <= id < |s.stream| ==> InOnePlace(s, id))
    && (forall id :: id in s.pending || id in s.acked ==> id < s.next)
    && (forall id :: id in s.acked ==> Justified(s, id))
  }

  lemma {:induction false} PendingAtMeans(pending: map<nat, nat>, consumer: nat, n: nat)
    ensures forall id :: id in PendingAt(pending, consumer, n) <==> id < n && id in pending && pending[id] == consumer
  {
    if n > 0 {
      PendingAtMeans(pending, consumer, n - 1);
    }
  }

  lemma {:induction false} RangeMeans(from: nat, to: nat)
    requires from <= to
    ensures forall id :: id in Range(from, to) <==> from <= id < to
  {
    if from < to {
      RangeMeans(from, to - 1);
    }
  }

  lemma {:induction false} DeliverMeans(pending: map<nat, nat>, consumer: nat, from: nat, to: nat)
    requires from <= to
    ensures var d := Deliver(pending, consumer, from, to);
            && (forall id :: id in d <==> id in pending || from <= id < to)
            && (forall id :: id in d ==> d[id] == if from <= id < to then consumer else pending[id])
  {
    if from < to {
      DeliverMeans(pending, consumer, from, to - 1);
    }
  }

  // Nothing that a worker relies on is taken back.
  predicate Grows(s: State, t: State) {
    s.stream <= t.stream && s.next <= t.next && s.enriched <= t.enriched && s.acked <= t.acked
  }

  lemma NextGrows(s: State, e: Event)
    ensures Grows(s, Next(s, e))
  {
  }

  lemma FetchPendingFits(s: State, w: nat, fails: bool)
    requires w < |s.workers|
    ensures PhaseFits(s, FetchPending(s, w, fails).workers[w].phase)
  {
    var ids := PendingAt(s.pending, s.workers[w].consumer, s.next);
    PendingAtMeans(s.pending, s.workers[w].consumer, s.next);
    forall id | id in First(ids) ensures id in ids {}
  }

  lemma FetchNewFits(s: State, w: nat, lost: bool)
    requires s.next <= |s.stream| && w < |s.workers| && PhaseFits(s, s.workers[w].phase)
    requires s.workers[w].phase.ReadingNew?
    ensures PhaseFits(FetchNew(s, w, lost), FetchNew(s, w, lost).workers[w].phase)
  {
    RangeMeans(s.next, FetchNew(s, w, lost).next);
  }

  lemma HandleFits(s: State, w: nat, succeeds: bool)
    requires w < |s.workers| && PhaseFits(s, s.workers[w].phase) && s.workers[w].phase.Handling?
    ensures PhaseFits(Handle(s, w, succeeds), Handle(s, w, succeeds).workers[w].phase)
  {
    var batch := s.workers[w].phase.batch;
    if batch != [] {
      assert batch[0] in batch;
      assert forall id :: id in batch[1..] ==> id in batch;
    }
  }

  // A worker of s fits t as well.
  lemma StillFits(s: State, t: State, p: Phase)
    requires Grows(s, t) && s.next <= |s.stream| && PhaseFits(s, p)
    ensures PhaseFits(t, p)
  {
  }

  lemma MovedFits(s: State, e: Event)
    requires s.next <= |s.stream| && !e.Publish? && !e.Start? && e.w < |s.workers|
    requires PhaseFits(s, s.workers[e.w].phase)
    ensures PhaseFits(Next(s, e), Next(s, e).workers[e.w].phase)
  {
    if e.ReadPending? {
      FetchPendingFits(s, e.w, e.fails);
    } else if e.ReadNew? && s.workers[e.w].phase.ReadingNew? {
      FetchNewFits(s, e.w, e.replyLost);
    } else if e.Process? && s.workers[e.w].phase.Handling? {
      HandleFits(s, e.w, e.succeeds);
    }
  }

  lemma NextFits(s: State, e: Event)
    requires s.next <= |s.stream| && WorkersFit(s)
    ensures WorkersFit(Next(s, e))
  {
    var t := Next(s, e);
    NextGrows(s, e);
    forall v | 0 <= v < |t.workers| ensures PhaseFits(t, t.workers[v].phase) {
      if v < |s.workers| {
        assert PhaseFits(s, s.workers[v].phase);
        StillFits(s, t, s.workers[v].phase);
        if !e.Publish? && !e.Start? && e.w == v {
          MovedFits(s, e);
        } else {
          OthersStay(s, e, v);
        }
      }
    }
  }

  lemma OthersStay(s: State, e: Event, v: nat)
    requires v < |s.workers| && (e.Publish? || e.Start? || e.w != v)
    ensures v < |Next(s, e).workers| && Next(s, e).workers[v] == s.workers[v]
  {
  }

  lemma FetchNewKeeps(s: State, w: nat, lost: bool)
    requires Kept(s) && w < |s.workers|
    ensures Kept(FetchNew(s, w, lost))
  {
    var t := FetchNew(s, w, lost);
    DeliverMeans(s.pending, s.workers[w].consumer, s.next, t.next);
    forall id | id in t.pending || id in t.acked ensures id < t.next {
      assert id in s.pending || id in s.acked || s.next <= id < t.next;
    }
    forall id | 0 <= id < |t.stream| ensures InOnePlace(t, id) {
      assert InOnePlace(s, id);
    }
  }

  lemma AcknowledgeKeeps(s: State, w: nat, fails: bool)
    requires Kept(s) && w < |s.workers| && s.workers[w].phase.Acking? && PhaseFits(s, s.workers[w].phase)
    ensures Kept(Acknowledge(s, w, fails))
  {
    var t := Acknowledge(s, w, fails);
    forall id | 0 <= id < |t.stream| ensures InOnePlace(t, id) {
      assert InOnePlace(s, id);
    }
  }

  lemma NextKeeps(s: State, e: Event)
    requires Kept(s) && WorkersFit(s)
    ensures Kept(Next(s, e))
  {
    if e.Ack? && e.w < |s.workers| && s.workers[e.w].phase.Acking? {
      assert PhaseFits(s, s.workers[e.w].phase);
      AcknowledgeKeeps(s, e.w, e.fails);
    } else if e.ReadNew? && e.w < |s.workers| && s.workers[e.w].phase.ReadingNew? {
      FetchNewKeeps(s, e.w, e.replyLost);
    } else {
      forall id | 0 <= id < |Next(s, e).stream| ensures InOnePlace(Next(s, e), id) {
        if id < |s.stream| {
          assert InOnePlace(s, id);
        }
      }
    }
  }

  // In every reachable state each published message is undelivered, pending at one
  // consumer or acknowledged; and it is acknowledged only if it is malformed or its
  // finding was enriched.
  lemma {:induction false} NoMessageIsLost(events: seq<Event>)
    ensures Kept(Run(INIT, events)) && WorkersFit(Run(INIT, events))
  {
    if events != [] {
      NoMessageIsLost(events[..|events| - 1]);
      NextKeeps(Run(INIT, events[..|events| - 1]), events[|events| - 1]);
      NextFits(Run(INIT, events[..|events| - 1]), events[|events| - 1]);
    }
  }

  // ---- A message stays with its consumer -----------------------------------------------

  lemma NextStays(s: State, e: Event, id: nat)
    requires id < s.next && id in s.pending
    ensures var t := Next(s, e); (id in t.pending && t.pending[id] == s.pending[id]) || id in t.acked
  {
    if e.ReadNew? && e.w < |s.workers| && s.next <= |s.stream| {
      DeliverMeans(s.pending, s.workers[e.w].consumer, s.next, FetchNew(s, e.w, e.replyLost).next);
    }
  }

  // A pending message stays at its consumer until it is acknowledged.
  lemma {:induction false} StaysAtConsumer(s: State, events: seq<Event>, id: nat)
    requires id < s.next && id in s.pending
    ensures var t := Run(s, events);
            (id in t.pending && t.pending[id] == s.pending[id]) || id in t.acked
    ensures Run(s, events).next >= s.next
  {
    if events != [] {
      var t := Run(s, events[..|events| - 1]);
      StaysAtConsumer(s, events[..|events| - 1], id);
      NextGrows(t, events[|events| - 1]);
      if id in t.pending {
        NextStays(t, events[|events| - 1], id);
      }
    }
  }

  predicate Holds(p: Phase, id: nat) {
    (p.Handling? && id in p.batch) || (p.Acking? && (id == p.id || id in p.rest))
  }

  predicate Recovering(p: Phase) {
    p.ReadingPending? || ((p.Handling? || p.Acking?) && p.recovering)
  }

  // A pending message that no worker holds and no recovering worker of its consumer will
  // read, for instance after its enrichment failed.
  ghost predicate Stranded(s: State, id: nat) {
    && id < s.next && id in s.pending
    && forall w :: 0 <= w < |s.workers| ==> StrandedFrom(s, s.workers[w], id)
  }

  predicate StrandedFrom(s: State, w: Worker, id: nat)
    requires id in s.pending
  {
    !Holds(w.phase, id) && (w.consumer == s.pending[id] ==> !Recovering(w.phase))
  }

  lemma MovedStrands(s: State, e: Event, id: nat)
    requires !e.Publish? && !e.Start? && e.w < |s.workers|
    requires id < s.next && id in s.pending && StrandedFrom(s, s.workers[e.w], id)
    ensures var t := Next(s, e); id in t.pending && t.pending[id] == s.pending[id]
    ensures StrandedFrom(Next(s, e), Next(s, e).workers[e.w], id)
  {
    PendingAtMeans(s.pending, s.workers[e.w].consumer, s.next);
    if e.ReadNew? && s.next <= |s.stream| {
      RangeMeans(s.next, FetchNew(s, e.w, e.replyLost).next);
      DeliverMeans(s.pending, s.workers[e.w].consumer, s.next, FetchNew(s, e.w, e.replyLost).next);
    }
  }

  lemma NextStrands(s: State, e: Event, id: nat)
    requires Stranded(s, id) && e != Start(s.pending[id])
    ensures Stranded(Next(s, e), id) && Next(s, e).pending[id] == s.pending[id]
  {
    var t := Next(s, e);
    if !e.Publish? && !e.Start? && e.w < |s.workers| {
      MovedStrands(s, e, id);
    }
    NextGrows(s, e);
    forall v | 0 <= v < |t.workers| ensures StrandedFrom(t, t.workers[v], id) {
      if v < |s.workers| {
        assert StrandedFrom(s, s.workers[v], id);
        if e.Publish? || e.Start? || e.w != v {
          OthersStay(s, e, v);
        }
      }
    }
  }

  // It stays so until a worker of its consumer is started again: the main loop reads new
  // messages only.
  lemma {:induction false} RetriedOnlyAfterRestart(s: State, events: seq<Event>, id: nat)
    requires Stranded(s, id)
    requires Start(s.pending[id]) !in events
    ensures Stranded(Run(s, events), id) && Run(s, events).pending[id] == s.pending[id]
  {
    if events != [] {
      RetriedOnlyAfterRestart(s, events[..|events| - 1], id);
      NextStrands(Run(s, events[..|events| - 1]), events[|events| - 1], id);
    }
  }
}
