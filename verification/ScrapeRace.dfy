/** HistogramVec under concurrent observers and scrapes; each atomic access is one step. */
module ScrapeRace {
  import opened Common
  import opened Labels
  import opened Sorting
  import opened Histogram

  // An observer looks up or creates its entry, adds to the sum by compare-and-swap, then bumps
  // the count, then a bucket. Its phase holds the entry and the sum it loaded.
  datatype Phase =
    | Looking
    | Creating
    | Loading(e: nat)
    | Swapping(e: nat, loaded: Float)
    | Counting(e: nat)
    | Bucketing(e: nat)
    | Finished(e: nat)

  datatype Observer = Observer(key: Bytes, v: Float, phase: Phase)

  // added lists the values added to the sum, in order.
  datatype Cell = Cell(entry: Entry, added: seq<Float>)

  // A scrape reads the buckets of an entry, then the sum, then the count. shown is what it has
  // accumulated, atStart the buckets when it started.
  datatype Scrape = Scrape(e: nat, shown: seq<nat>, sum: Option<Float>, count: Option<nat>, atStart: seq<nat>)

  // entries maps a key to its cell's position in heap.
  datatype State = State(entries: map<Bytes, nat>, heap: seq<Cell>, observers: seq<Observer>, scrapes: seq<Scrape>)

  const INIT := State(map[], [], [], [])

  datatype Setup = Setup(bounds: seq<real>, add: (Float, Float) -> Float)

  datatype Event = Observe(key: Bytes, v: Float) | StepObserver(o: nat) | StartScrape(key: Bytes) | StepScrape(r: nat)

  function NewCell(c: Setup): Cell {
    Cell(NewEntry(c.bounds), [])
  }

  function SetPhase(s: State, o: nat, p: Phase): State
    requires o < |s.observers|
  {
    s.(observers := s.observers[o := s.observers[o].(phase := p)])
  }

  function SetCell(s: State, e: nat, c: Cell): State
    requires e < |s.heap|
  {
    s.(heap := s.heap[e := c])
  }

  // Creation checks again under the lock, for another observer may have come first.
  function Create(c: Setup, s: State, o: nat): State
    requires o < |s.observers|
  {
    var key := s.observers[o].key;
    if key in s.entries then SetPhase(s, o, Loading(s.entries[key]))
    else
      SetPhase(s, o, Loading(|s.heap|)).(entries := s.entries[key := |s.heap|], heap := s.heap + [NewCell(c)])
  }

  function CompareAndSwap(c: Setup, s: State, o: nat): State
    requires o < |s.observers| && s.observers[o].phase.Swapping? && s.observers[o].phase.e < |s.heap|
  {
    var p, v := s.observers[o].phase, s.observers[o].v;
    var cell := s.heap[p.e];
    if cell.entry.sum != p.loaded then SetPhase(s, o, Loading(p.e))
    else
      SetCell(SetPhase(s, o, Counting(p.e)), p.e,
        Cell(cell.entry.(sum := c.add(p.loaded, v)), cell.added + [v]))
  }

  function BumpCount(s: State, o: nat): State
    requires o < |s.observers| && s.observers[o].phase.Counting? && s.observers[o].phase.e < |s.heap|
  {
    var e := s.observers[o].phase.e;
    var cell := s.heap[e];
    SetCell(SetPhase(s, o, Bucketing(e)), e, cell.(entry := cell.entry.(count := cell.entry.count + 1)))
  }

  function BumpBucket(c: Setup, s: State, o: nat): State
    requires o < |s.observers| && s.observers[o].phase.Bucketing? && s.observers[o].phase.e < |s.heap|
  {
    var e, b := s.observers[o].phase.e, BucketOf(c.bounds, s.observers[o].v);
    var cell := s.heap[e];
    if b >= |cell.entry.buckets| then s
    else
      SetCell(SetPhase(s, o, Finished(e)), e,
        cell.(entry := cell.entry.(buckets := cell.entry.buckets[b := cell.entry.buckets[b] + 1])))
  }

  predicate Fits(s: State, o: Observer) {
    match o.phase
    case Looking => true
    case Creating => true
    case p => p.e < |s.heap| && o.key in s.entries && s.entries[o.key] == p.e
  }

  function MoveObserver(c: Setup, s: State, o: nat): State
    requires o < |s.observers| && Fits(s, s.observers[o])
  {
    match s.observers[o].phase
    case Looking =>
      var key := s.observers[o].key;
      SetPhase(s, o, if key in s.entries then Loading(s.entries[key]) else Creating)
    case Creating => Create(c, s, o)
    case Loading(e) => SetPhase(s, o, Swapping(e, s.heap[e].entry.sum))
    case Swapping(_, _) => CompareAndSwap(c, s, o)
    case Counting(_) => BumpCount(s, o)
    case Bucketing(_) => BumpBucket(c, s, o)
    case Finished(_) => s
  }

  // What has been accumulated so far.
  function LastOf(shown: seq<nat>): nat {
    if shown == [] then 0 else shown[|shown| - 1]
  }

  function MoveScrape(s: State, r: Scrape): Scrape
    requires r.e < |s.heap|
  {
    var entry := s.heap[r.e].entry;
    if |r.shown| < |entry.buckets| then
      r.(shown := r.shown + [LastOf(r.shown) + entry.buckets[|r.shown|]])
    else if r.sum.None? then r.(sum := Some(entry.sum))
    else if r.count.None? then r.(count := Some(entry.count))
    else r
  }

  function Next(c: Setup, s: State, ev: Event): State {
    match ev
    case Observe(key, v) => s.(observers := s.observers + [Observer(key, v, Looking)])
    case StepObserver(o) => if o < |s.observers| && Fits(s, s.observers[o]) then MoveObserver(c, s, o) else s
    case StartScrape(key) =>
      if key in s.entries && s.entries[key] < |s.heap| then
        s.(scrapes := s.scrapes + [Scrape(s.entries[key], [], None, None, s.heap[s.entries[key]].entry.buckets)])
      else s
    case StepScrape(r) =>
      if r < |s.scrapes| && s.scrapes[r].e < |s.heap| then
        s.(scrapes := s.scrapes[r := MoveScrape(s, s.scrapes[r])])
      else s
  }

  function Run(c: Setup, events: seq<Event>): State {
    if events == [] then INIT else Next(c, Run(c, events[..|events| - 1]), events[|events| - 1])
  }

  // ---- What the entries hold -----------------------------------------------------------------

  // How far an observer has come with entry e.
  predicate HasAdded(o: Observer, e: nat) {
    (o.phase.Counting? || o.phase.Bucketing? || o.phase.Finished?) && o.phase.e == e
  }

  predicate HasCounted(o: Observer, e: nat) {
    (o.phase.Bucketing? || o.phase.Finished?) && o.phase.e == e
  }

  predicate HasFinished(o: Observer, e: nat) {
    o.phase.Finished? && o.phase.e == e
  }

  function Added(os: seq<Observer>, e: nat): multiset<Float> {
    if os == [] then multiset{}
    else
      var last := os[|os| - 1];
      Added(os[..|os| - 1], e) + if HasAdded(last, e) then multiset{last.v} else multiset{}
  }

  function Counted(os: seq<Observer>, e: nat): nat {
    if os == [] then 0
    else Counted(os[..|os| - 1], e) + if HasCounted(os[|os| - 1], e) then 1 else 0
  }

  // The values of the observers that are done with entry e.
  function Done(os: seq<Observer>, e: nat): seq<Float> {
    if os == [] then []
    else
      var last := os[|os| - 1];
      Done(os[..|os| - 1], e) + if HasFinished(last, e) then [last.v] else []
  }

  // An entry is exactly the work done on it.
  ghost predicate CellAgrees(c: Setup, cell: Cell, os: seq<Observer>, e: nat) {
    && cell.entry.sum == Sum(cell.added, c.add)
    && multiset(cell.added) == Added(os, e)
    && cell.entry.count == Counted(os, e)
    && |cell.entry.buckets| == |c.bounds| + 1
    && forall i :: 0 <= i <= |c.bounds| ==> cell.entry.buckets[i] == InBucket(c.bounds, Done(os, e), i)
  }

  ghost predicate CellsAgree(c: Setup, s: State) {
    forall e :: 0 <= e < |s.heap| ==> CellAgrees(c, s.heap[e], s.observers, e)
  }

  ghost predicate AllFit(s: State) {
    forall o :: 0 <= o < |s.observers| ==> Fits(s, s.observers[o])
  }

  // Each key has an entry of its own.
  ghost predicate EntriesApart(s: State) {
    && (forall k :: k in s.entries ==> s.entries[k] < |s.heap|)
    && (forall k, l :: k in s.entries && l in s.entries && k != l ==> s.entries[k] != s.entries[l])
  }

  // Changing one observer changes the work done by what that observer did.
  function Addition(o: Observer, e: nat): multiset<Float> {
    if HasAdded(o, e) then multiset{o.v} else multiset{}
  }

  lemma {:induction false} AddedLast(os: seq<Observer>, x: Observer, e: nat)
    ensures Added(os + [x], e) == Added(os, e) + Addition(x, e)
  {
    assert (os + [x])[..|os|] == os;
  }

  lemma {:induction false} AddedSwap(os: seq<Observer>, o: nat, x: Observer, e: nat)
    requires o < |os|
    ensures Added(os[o := x], e) + Addition(os[o], e) == Added(os, e) + Addition(x, e)
  {
    var n := |os| - 1;
    assert os == os[..n] + [os[n]];
    AddedLast(os[..n], os[n], e);
    if o == n {
      assert os[o := x] == os[..n] + [x];
      AddedLast(os[..n], x, e);
    } else {
      AddedSwap(os[..n], o, x, e);
      assert os[o := x] == os[..n][o := x] + [os[n]];
      AddedLast(os[..n][o := x], os[n], e);
    }
  }

  lemma AddedUpdate(os: seq<Observer>, o: nat, x: Observer, e: nat)
    requires o < |os| && x.v == os[o].v && (HasAdded(os[o], e) ==> HasAdded(x, e))
    ensures Added(os[o := x], e) ==
            Added(os, e) + if HasAdded(x, e) && !HasAdded(os[o], e) then multiset{x.v} else multiset{}
  {
    AddedSwap(os, o, x, e);
    Cancel(Added(os[o := x], e), Added(os, e), Addition(os[o], e));
  }

  lemma Cancel(a: multiset<Float>, b: multiset<Float>, m: multiset<Float>)
    ensures a + m == b + m ==> a == b
  {
    assert (a + m) - m == a && (b + m) - m == b;
  }

  lemma {:induction false} CountedUpdate(os: seq<Observer>, o: nat, x: Observer, e: nat)
    requires o < |os| && (HasCounted(os[o], e) ==> HasCounted(x, e))
    ensures Counted(os[o := x], e) ==
            Counted(os, e) + if HasCounted(x, e) && !HasCounted(os[o], e) then 1 else 0
  {
    var n := |os| - 1;
    if o == n {
      assert os[o := x][..n] == os[..n];
    } else {
      CountedUpdate(os[..n], o, x, e);
      assert os[o := x][..n] == os[..n][o := x];
    }
  }

  lemma {:induction false} InBucketNext(bounds: seq<real>, vs: seq<Float>, v: Float, i: nat)
    ensures InBucket(bounds, vs + [v], i) == InBucket(bounds, vs, i) + if BucketOf(bounds, v) == i then 1 else 0
  {
    assert (vs + [v])[..|vs|] == vs;
  }

  lemma {:induction false} DoneNext(bounds: seq<real>, os: seq<Observer>, x: Observer, e: nat, i: nat)
    ensures InBucket(bounds, Done(os + [x], e), i) ==
            InBucket(bounds, Done(os, e), i) + if HasFinished(x, e) && BucketOf(bounds, x.v) == i then 1 else 0
  {
    assert (os + [x])[..|os|] == os;
    assert Done(os + [x], e) == if HasFinished(x, e) then Done(os, e) + [x.v] else Done(os, e);
    InBucketNext(bounds, Done(os, e), x.v, i);
  }

  lemma {:induction false} DoneUpdate(bounds: seq<real>, os: seq<Observer>, o: nat, x: Observer, e: nat, i: nat)
    requires o < |os| && x.v == os[o].v && (HasFinished(os[o], e) ==> HasFinished(x, e))
    ensures InBucket(bounds, Done(os[o := x], e), i) ==
            InBucket(bounds, Done(os, e), i) +
            if HasFinished(x, e) && !HasFinished(os[o], e) && BucketOf(bounds, x.v) == i then 1 else 0
  {
    var n := |os| - 1;
    assert os == os[..n] + [os[n]];
    DoneNext(bounds, os[..n], os[n], e, i);
    if o == n {
      assert os[o := x] == os[..n] + [x];
      DoneNext(bounds, os[..n], x, e, i);
    } else {
      DoneUpdate(bounds, os[..n], o, x, e, i);
      assert os[o := x] == os[..n][o := x] + [os[n]];
      DoneNext(bounds, os[..n][o := x], os[n], e, i);
    }
  }

  // An observer that neither adds, counts nor finishes with e leaves the work on e alone.
  lemma CellStays(c: Setup, cell: Cell, os: seq<Observer>, o: nat, x: Observer, e: nat)
    requires o < |os| && x.v == os[o].v && CellAgrees(c, cell, os, e)
    requires HasAdded(os[o], e) == HasAdded(x, e) && HasCounted(os[o], e) == HasCounted(x, e)
    requires HasFinished(os[o], e) == HasFinished(x, e)
    ensures CellAgrees(c, cell, os[o := x], e)
  {
    AddedUpdate(os, o, x, e);
    CountedUpdate(os, o, x, e);
    forall i: nat ensures InBucket(c.bounds, Done(os[o := x], e), i) == InBucket(c.bounds, Done(os, e), i) {
      DoneUpdate(c.bounds, os, o, x, e, i);
    }
  }

  lemma CellAdds(c: Setup, cell: Cell, os: seq<Observer>, o: nat, x: Observer, e: nat)
    requires o < |os| && x.v == os[o].v && CellAgrees(c, cell, os, e)
    requires os[o].phase.Swapping? && x.phase == Counting(e)
    ensures CellAgrees(c, Cell(cell.entry.(sum := c.add(cell.entry.sum, x.v)), cell.added + [x.v]), os[o := x], e)
  {
    assert (cell.added + [x.v])[..|cell.added|] == cell.added;
    AddedUpdate(os, o, x, e);
    CountedUpdate(os, o, x, e);
    forall i: nat ensures InBucket(c.bounds, Done(os[o := x], e), i) == InBucket(c.bounds, Done(os, e), i) {
      DoneUpdate(c.bounds, os, o, x, e, i);
    }
  }

  lemma CellCounts(c: Setup, cell: Cell, os: seq<Observer>, o: nat, x: Observer, e: nat)
    requires o < |os| && x.v == os[o].v && CellAgrees(c, cell, os, e)
    requires os[o].phase == Counting(e) && x.phase == Bucketing(e)
    ensures CellAgrees(c, cell.(entry := cell.entry.(count := cell.entry.count + 1)), os[o := x], e)
  {
    AddedUpdate(os, o, x, e);
    CountedUpdate(os, o, x, e);
    forall i: nat ensures InBucket(c.bounds, Done(os[o := x], e), i) == InBucket(c.bounds, Done(os, e), i) {
      DoneUpdate(c.bounds, os, o, x, e, i);
    }
  }

  lemma CellFills(c: Setup, cell: Cell, os: seq<Observer>, o: nat, x: Observer, e: nat)
    requires o < |os| && x.v == os[o].v && CellAgrees(c, cell, os, e)
    requires os[o].phase == Bucketing(e) && x.phase == Finished(e)
    ensures var b := BucketOf(c.bounds, x.v);
            CellAgrees(c, cell.(entry := cell.entry.(buckets := cell.entry.buckets[b := cell.entry.buckets[b] + 1])),
              os[o := x], e)
  {
    AddedUpdate(os, o, x, e);
    CountedUpdate(os, o, x, e);
    forall i: nat
      ensures InBucket(c.bounds, Done(os[o := x], e), i) ==
              InBucket(c.bounds, Done(os, e), i) + if BucketOf(c.bounds, x.v) == i then 1 else 0
    {
      DoneUpdate(c.bounds, os, o, x, e, i);
    }
  }

  lemma {:induction false} NoWorkYet(os: seq<Observer>, e: nat)
    requires forall o :: 0 <= o < |os| ==> !HasAdded(os[o], e)
    ensures Added(os, e) == multiset{} && Counted(os, e) == 0 && Done(os, e) == []
  {
    if os != [] {
      NoWorkYet(os[..|os| - 1], e);
    }
  }

  // ---- Every step keeps this ---------------------------------------------------------------

  // The step leaves the heap alone and does no work on it.
  lemma QuietStep(c: Setup, s: State, o: nat, t: State)
    requires CellsAgree(c, s) && o < |s.observers| && t.heap == s.heap
    requires |t.observers| == |s.observers| && t.observers == s.observers[o := t.observers[o]]
    requires t.observers[o].v == s.observers[o].v
    requires forall e: nat :: !HasAdded(s.observers[o], e) && !HasAdded(t.observers[o], e)
    ensures CellsAgree(c, t)
  {
    forall e | 0 <= e < |t.heap| ensures CellAgrees(c, t.heap[e], t.observers, e) {
      CellStays(c, s.heap[e], s.observers, o, t.observers[o], e);
    }
  }

  // The step changes one cell and does that cell's share of the work.
  lemma WorkStep(c: Setup, s: State, o: nat, t: State, e: nat)
    requires CellsAgree(c, s) && o < |s.observers| && e < |s.heap| == |t.heap|
    requires t.heap == s.heap[e := t.heap[e]] && CellAgrees(c, t.heap[e], t.observers, e)
    requires |t.observers| == |s.observers| && t.observers == s.observers[o := t.observers[o]]
    requires t.observers[o].v == s.observers[o].v
    requires HasAdded(t.observers[o], e)
    requires HasAdded(s.observers[o], e) || s.observers[o].phase.Swapping?
    ensures CellsAgree(c, t)
  {
    forall d | 0 <= d < |t.heap| ensures CellAgrees(c, t.heap[d], t.observers, d) {
      if d != e {
        CellStays(c, s.heap[d], s.observers, o, t.observers[o], d);
      }
    }
  }

  lemma CreateStep(c: Setup, s: State, o: nat)
    requires CellsAgree(c, s) && AllFit(s) && o < |s.observers| && s.observers[o].phase.Creating?
    ensures CellsAgree(c, Create(c, s, o))
  {
    var t := Create(c, s, o);
    forall e | 0 <= e < |t.heap| ensures CellAgrees(c, t.heap[e], t.observers, e) {
      if e < |s.heap| {
        CellStays(c, s.heap[e], s.observers, o, t.observers[o], e);
      } else {
        forall i | 0 <= i < |t.observers| ensures !HasAdded(t.observers[i], e) {
          assert Fits(s, s.observers[i]);
        }
        NoWorkYet(t.observers, e);
      }
    }
  }

  lemma SwapStep(c: Setup, s: State, o: nat)
    requires CellsAgree(c, s) && o < |s.observers|
    requires s.observers[o].phase.Swapping? && s.observers[o].phase.e < |s.heap|
    ensures CellsAgree(c, CompareAndSwap(c, s, o))
  {
    var p, t := s.observers[o].phase, CompareAndSwap(c, s, o);
    if s.heap[p.e].entry.sum != p.loaded {
      QuietStep(c, s, o, t);
    } else {
      CellAdds(c, s.heap[p.e], s.observers, o, t.observers[o], p.e);
      WorkStep(c, s, o, t, p.e);
    }
  }

  lemma CountStep(c: Setup, s: State, o: nat)
    requires CellsAgree(c, s) && o < |s.observers|
    requires s.observers[o].phase.Counting? && s.observers[o].phase.e < |s.heap|
    ensures CellsAgree(c, BumpCount(s, o))
  {
    var e, t := s.observers[o].phase.e, BumpCount(s, o);
    CellCounts(c, s.heap[e], s.observers, o, t.observers[o], e);
    WorkStep(c, s, o, t, e);
  }

  lemma FillStep(c: Setup, s: State, o: nat)
    requires CellsAgree(c, s) && o < |s.observers|
    requires s.observers[o].phase.Bucketing? && s.observers[o].phase.e < |s.heap|
    ensures CellsAgree(c, BumpBucket(c, s, o))
  {
    var e, t := s.observers[o].phase.e, BumpBucket(c, s, o);
    assert CellAgrees(c, s.heap[e], s.observers, e);
    CellFills(c, s.heap[e], s.observers, o, t.observers[o], e);
    WorkStep(c, s, o, t, e);
  }

  lemma ObserverStep(c: Setup, s: State, o: nat)
    requires CellsAgree(c, s) && AllFit(s) && o < |s.observers| && Fits(s, s.observers[o])
    ensures CellsAgree(c, MoveObserver(c, s, o))
  {
    match s.observers[o].phase {
      case Looking => QuietStep(c, s, o, MoveObserver(c, s, o));
      case Creating => CreateStep(c, s, o);
      case Loading(_) => QuietStep(c, s, o, MoveObserver(c, s, o));
      case Swapping(_, _) => SwapStep(c, s, o);
      case Counting(_) => CountStep(c, s, o);
      case Bucketing(_) => FillStep(c, s, o);
      case Finished(_) =>
    }
  }

  lemma NewObserverStep(c: Setup, s: State, key: Bytes, v: Float)
    requires CellsAgree(c, s)
    ensures CellsAgree(c, Next(c, s, Observe(key, v)))
  {
    var t := Next(c, s, Observe(key, v));
    assert t.observers[..|s.observers|] == s.observers;
    forall e | 0 <= e < |t.heap| ensures CellAgrees(c, t.heap[e], t.observers, e) {
      assert CellAgrees(c, s.heap[e], s.observers, e);
      assert Done(t.observers, e) == Done(s.observers, e);
    }
  }

  // Entries stay where they are, and the heap does not shrink.
  predicate Extends(s: State, t: State) {
    && |s.heap| <= |t.heap|
    && forall k :: k in s.entries ==> k in t.entries && t.entries[k] == s.entries[k]
  }

  lemma StillFits(s: State, t: State, o: Observer)
    requires Extends(s, t) && Fits(s, o)
    ensures Fits(t, o)
  {
  }

  lemma MoveExtends(c: Setup, s: State, o: nat)
    requires o < |s.observers| && Fits(s, s.observers[o])
    ensures Extends(s, MoveObserver(c, s, o))
    ensures |MoveObserver(c, s, o).observers| == |s.observers|
    ensures forall i :: 0 <= i < |s.observers| && i != o ==> MoveObserver(c, s, o).observers[i] == s.observers[i]
  {
  }

  lemma MovedFits(c: Setup, s: State, o: nat)
    requires EntriesApart(s) && o < |s.observers| && Fits(s, s.observers[o])
    ensures Fits(MoveObserver(c, s, o), MoveObserver(c, s, o).observers[o])
    ensures EntriesApart(MoveObserver(c, s, o))
  {
  }

  lemma StepFits(c: Setup, s: State, o: nat)
    requires AllFit(s) && EntriesApart(s) && o < |s.observers| && Fits(s, s.observers[o])
    ensures AllFit(MoveObserver(c, s, o)) && EntriesApart(MoveObserver(c, s, o))
  {
    var t := MoveObserver(c, s, o);
    MoveExtends(c, s, o);
    MovedFits(c, s, o);
    forall i | 0 <= i < |t.observers| ensures Fits(t, t.observers[i]) {
      if i != o {
        StillFits(s, t, s.observers[i]);
      }
    }
  }

  // In every reachable state each entry is exactly the work done on it: the count, the
  // buckets, and the sum of the values added, in some order. No update is lost.
  lemma {:induction false} NoUpdateIsLost(c: Setup, events: seq<Event>)
    ensures CellsAgree(c, Run(c, events)) && AllFit(Run(c, events)) && EntriesApart(Run(c, events))
  {
    if events != [] {
      var s, ev := Run(c, events[..|events| - 1]), events[|events| - 1];
      NoUpdateIsLost(c, events[..|events| - 1]);
      if ev.Observe? {
        NewObserverStep(c, s, ev.key, ev.v);
        forall i | 0 <= i < |s.observers| ensures Fits(Next(c, s, ev), s.observers[i]) {
          assert Fits(s, s.observers[i]);
        }
      } else if ev.StepObserver? && ev.o < |s.observers| {
        assert Fits(s, s.observers[ev.o]);
        ObserverStep(c, s, ev.o);
        StepFits(c, s, ev.o);
      } else {
        ScrapeChangesNothing(c, s, ev);
      }
    }
  }

  lemma ScrapeChangesNothing(c: Setup, s: State, ev: Event)
    requires CellsAgree(c, s) && AllFit(s) && EntriesApart(s)
    requires ev.StartScrape? || ev.StepScrape? || Next(c, s, ev) == s
    ensures CellsAgree(c, Next(c, s, ev)) && AllFit(Next(c, s, ev)) && EntriesApart(Next(c, s, ev))
  {
    var t := Next(c, s, ev);
    assert t.heap == s.heap && t.observers == s.observers && t.entries == s.entries;
    forall i | 0 <= i < |t.observers| ensures Fits(t, t.observers[i]) {
      assert Fits(s, s.observers[i]);
    }
  }

  // ---- When the observers are done -----------------------------------------------------------

  ghost predicate Quiet(s: State) {
    forall o :: 0 <= o < |s.observers| ==> s.observers[o].phase.Finished?
  }

  // The values observed under a key.
  function ValuesOf(os: seq<Observer>, key: Bytes): seq<Float> {
    if os == [] then []
    else ValuesOf(os[..|os| - 1], key) + if os[|os| - 1].key == key then [os[|os| - 1].v] else []
  }

  lemma {:induction false} QuietWork(os: seq<Observer>, key: Bytes, e: nat)
    requires forall o :: 0 <= o < |os| ==> os[o].phase.Finished? && (os[o].key == key <==> os[o].phase.e == e)
    ensures Done(os, e) == ValuesOf(os, key)
    ensures Added(os, e) == multiset(ValuesOf(os, key))
    ensures Counted(os, e) == |ValuesOf(os, key)|
  {
    if os != [] {
      QuietWork(os[..|os| - 1], key, e);
    }
  }

  // At quiescence a key's entry is that of its values observed one after another, with the
  // sum taken in some order of them; what is rendered counts them exactly.
  lemma QuietIsExact(c: Setup, events: seq<Event>, key: Bytes) returns (order: seq<Float>)
    requires Ascending(c.bounds, LE)
    requires Quiet(Run(c, events)) && key in Run(c, events).entries
    ensures var s := Run(c, events);
            && s.entries[key] < |s.heap|
            && var entry, vs := s.heap[s.entries[key]].entry, ValuesOf(s.observers, key);
               && multiset(order) == multiset(vs) && entry.sum == Sum(order, c.add)
               && entry.count == |vs| && |entry.buckets| == |c.bounds| + 1
               && Prefix(entry.buckets, |c.bounds| + 1) == entry.count
               && forall i :: 0 <= i < |c.bounds| ==>
                    Prefix(entry.buckets, i + 1) == CountAtMost(vs, c.bounds[i])
  {
    NoUpdateIsLost(c, events);
    var s := Run(c, events);
    var e := s.entries[key];
    forall o | 0 <= o < |s.observers| ensures s.observers[o].key == key <==> s.observers[o].phase.e == e {
      assert Fits(s, s.observers[o]);
    }
    QuietWork(s.observers, key, e);
    assert CellAgrees(c, s.heap[e], s.observers, e);
    order := s.heap[e].added;
    QuietRenders(c, s.heap[e].entry.buckets, ValuesOf(s.observers, key));
  }

  lemma {:induction false} QuietRenders(c: Setup, buckets: seq<nat>, vs: seq<Float>)
    requires Ascending(c.bounds, LE) && |buckets| == |c.bounds| + 1
    requires forall i :: 0 <= i <= |c.bounds| ==> buckets[i] == InBucket(c.bounds, vs, i)
    ensures Prefix(buckets, |c.bounds| + 1) == |vs|
    ensures forall i :: 0 <= i < |c.bounds| ==> Prefix(buckets, i + 1) == CountAtMost(vs, c.bounds[i])
  {
    CumulativeCounts(buckets, c.bounds, vs, |c.bounds|);
    forall i | 0 <= i < |c.bounds| ensures Prefix(buckets, i + 1) == CountAtMost(vs, c.bounds[i]) {
      CumulativeCounts(buckets, c.bounds, vs, i);
    }
  }

  // Every observer that is through has found its key's entry, so nothing it did is
  // scattered over two entries.
  lemma {:induction false} KeyHasOneEntry(c: Setup, events: seq<Event>, o: nat, p: nat)
    requires var os := Run(c, events).observers;
             o < |os| && p < |os| && os[o].phase.Finished? && os[p].phase.Finished?
    ensures var os := Run(c, events).observers;
            os[o].key == os[p].key <==> os[o].phase.e == os[p].phase.e
  {
    NoUpdateIsLost(c, events);
    var s := Run(c, events);
    assert Fits(s, s.observers[o]) && Fits(s, s.observers[p]);
  }

  // ---- A scrape while observers are at work ----------------------------------------------------

  ghost predicate PointwiseAtMost(a: seq<nat>, b: seq<nat>) {
    |a| == |b| && forall i :: 0 <= i < |a| ==> a[i] <= b[i]
  }

  lemma {:induction false} PrefixMonotone(a: seq<nat>, b: seq<nat>, k: nat)
    requires PointwiseAtMost(a, b) && k <= |a|
    ensures Prefix(a, k) <= Prefix(b, k)
  {
    if k > 0 {
      PrefixMonotone(a, b, k - 1);
    }
  }

  predicate Between(low: seq<nat>, shown: seq<nat>, high: seq<nat>, j: nat)
    requires j < |shown| <= |low| && |low| == |high|
  {
    Prefix(low, j + 1) <= shown[j] <= Prefix(high, j + 1)
  }

  // What has been shown lies between the buckets at the start and the buckets now, and
  // never decreases.
  ghost predicate Series(low: seq<nat>, shown: seq<nat>, high: seq<nat>) {
    && |shown| <= |low| && |low| == |high|
    && (forall j :: 0 <= j < |shown| ==> Between(low, shown, high, j))
    && (forall i, j :: 0 <= i < j < |shown| ==> shown[i] <= shown[j])
  }

  // The whole of it is no more than the count read after it.
  ghost predicate ScrapeAgrees(c: Setup, s: State, r: Scrape) {
    && r.e < |s.heap| && |r.atStart| == |c.bounds| + 1
    && PointwiseAtMost(r.atStart, s.heap[r.e].entry.buckets)
    && Series(r.atStart, r.shown, s.heap[r.e].entry.buckets)
    && (r.count.Some? ==> |r.shown| == |c.bounds| + 1 && r.shown[|c.bounds|] <= r.count.value)
  }

  lemma SeriesGrows(low: seq<nat>, shown: seq<nat>, high: seq<nat>, higher: seq<nat>)
    requires Series(low, shown, high) && PointwiseAtMost(high, higher)
    ensures Series(low, shown, higher)
  {
    forall j | 0 <= j < |shown| ensures Between(low, shown, higher, j) {
      assert Between(low, shown, high, j);
      PrefixMonotone(high, higher, j + 1);
    }
  }

  lemma NextBetween(low: seq<nat>, shown: seq<nat>, high: seq<nat>)
    requires Series(low, shown, high) && PointwiseAtMost(low, high) && |shown| < |high|
    ensures Between(low, shown + [LastOf(shown) + high[|shown|]], high, |shown|)
  {
    if shown != [] {
      assert Between(low, shown, high, |shown| - 1);
    }
  }

  // One more bucket.
  lemma SeriesNext(low: seq<nat>, shown: seq<nat>, high: seq<nat>)
    requires Series(low, shown, high) && PointwiseAtMost(low, high) && |shown| < |high|
    ensures Series(low, shown + [LastOf(shown) + high[|shown|]], high)
  {
    var next := shown + [LastOf(shown) + high[|shown|]];
    NextBetween(low, shown, high);
    forall j | 0 <= j < |next| ensures Between(low, next, high, j) {
      if j < |shown| {
        assert Between(low, shown, high, j);
      }
    }
  }

  lemma SeriesEnds(low: seq<nat>, shown: seq<nat>, high: seq<nat>)
    requires Series(low, shown, high) && |shown| == |high| && shown != []
    ensures shown[|shown| - 1] <= Prefix(high, |high|)
  {
    assert Between(low, shown, high, |shown| - 1);
  }

  ghost predicate ScrapesAgree(c: Setup, s: State) {
    forall r :: 0 <= r < |s.scrapes| ==> ScrapeAgrees(c, s, s.scrapes[r])
  }

  // Buckets only grow.
  ghost predicate Grows(s: State, t: State) {
    && |s.heap| <= |t.heap|
    && forall e :: 0 <= e < |s.heap| ==> PointwiseAtMost(s.heap[e].entry.buckets, t.heap[e].entry.buckets)
  }

  lemma NextGrows(c: Setup, s: State, ev: Event)
    ensures Grows(s, Next(c, s, ev))
  {
  }

  lemma ScrapeStays(c: Setup, s: State, t: State, r: Scrape)
    requires ScrapeAgrees(c, s, r) && Grows(s, t)
    ensures ScrapeAgrees(c, t, r)
  {
    var was, now := s.heap[r.e].entry.buckets, t.heap[r.e].entry.buckets;
    assert PointwiseAtMost(was, now);
    SeriesGrows(r.atStart, r.shown, was, now);
  }

  // The buckets together never exceed the count: each is bumped after it.
  lemma {:induction false} FinishedAreCounted(os: seq<Observer>, e: nat)
    ensures |Done(os, e)| <= Counted(os, e)
  {
    if os != [] {
      FinishedAreCounted(os[..|os| - 1], e);
    }
  }

  lemma BucketsWithinCount(c: Setup, cell: Cell, os: seq<Observer>, e: nat)
    requires Ascending(c.bounds, LE) && CellAgrees(c, cell, os, e)
    ensures Prefix(cell.entry.buckets, |c.bounds| + 1) <= cell.entry.count
  {
    FinishedAreCounted(os, e);
    CumulativeCounts(cell.entry.buckets, c.bounds, Done(os, e), |c.bounds|);
  }

  lemma BucketMove(c: Setup, s: State, r: Scrape)
    requires ScrapeAgrees(c, s, r) && |r.shown| <= |c.bounds|
    ensures ScrapeAgrees(c, s, MoveScrape(s, r))
  {
    SeriesNext(r.atStart, r.shown, s.heap[r.e].entry.buckets);
  }

  // Then the sum, and the count.
  lemma CountMove(c: Setup, s: State, r: Scrape)
    requires ScrapeAgrees(c, s, r) && |r.shown| == |c.bounds| + 1
    requires r.shown[|c.bounds|] <= s.heap[r.e].entry.count
    ensures ScrapeAgrees(c, s, MoveScrape(s, r))
  {
  }

  lemma ShownWithinCount(c: Setup, s: State, r: Scrape)
    requires Ascending(c.bounds, LE) && CellsAgree(c, s) && ScrapeAgrees(c, s, r) && |r.shown| == |c.bounds| + 1
    ensures r.shown[|c.bounds|] <= s.heap[r.e].entry.count
  {
    assert CellAgrees(c, s.heap[r.e], s.observers, r.e);
    BucketsWithinCount(c, s.heap[r.e], s.observers, r.e);
    SeriesEnds(r.atStart, r.shown, s.heap[r.e].entry.buckets);
  }

  lemma ScrapeMoves(c: Setup, s: State, r: Scrape)
    requires Ascending(c.bounds, LE) && CellsAgree(c, s) && ScrapeAgrees(c, s, r)
    ensures ScrapeAgrees(c, s, MoveScrape(s, r))
  {
    if |r.shown| <= |c.bounds| {
      BucketMove(c, s, r);
    } else {
      ShownWithinCount(c, s, r);
      CountMove(c, s, r);
    }
  }

  lemma NextScrapes(c: Setup, s: State, ev: Event)
    requires Ascending(c.bounds, LE) && CellsAgree(c, s) && ScrapesAgree(c, s)
    ensures ScrapesAgree(c, Next(c, s, ev))
  {
    var t := Next(c, s, ev);
    NextGrows(c, s, ev);
    forall r | 0 <= r < |t.scrapes| ensures ScrapeAgrees(c, t, t.scrapes[r]) {
      if r < |s.scrapes| {
        assert ScrapeAgrees(c, s, s.scrapes[r]);
        ScrapeStays(c, s, t, s.scrapes[r]);
        if ev == StepScrape(r) {
          ScrapeMoves(c, s, s.scrapes[r]);
          ScrapeStays(c, s, t, t.scrapes[r]);
        }
      } else {
        assert CellAgrees(c, s.heap[s.entries[ev.key]], s.observers, s.entries[ev.key]);
      }
    }
  }

  // However scrapes and observers interleave, a scrape never shows a +Inf bucket above the
  // count, its cumulative series never decreases, and each bucket shows at least what had
  // been finished when the scrape began.
  lemma {:induction false} EveryScrapeIsConsistent(c: Setup, events: seq<Event>)
    requires Ascending(c.bounds, LE)
    ensures ScrapesAgree(c, Run(c, events))
  {
    if events != [] {
      EveryScrapeIsConsistent(c, events[..|events| - 1]);
      NoUpdateIsLost(c, events[..|events| - 1]);
      NextScrapes(c, Run(c, events[..|events| - 1]), events[|events| - 1]);
    }
  }
}
