/** APITokensRepo.TouchLastUsed: at most one database touch per token and minute, with a
    map that forgets old entries. */
module Debounce {
  import opened Common

  // A minute in nanoseconds, the tick of Go's clock.
  const DEBOUNCE := 60_000_000_000

  type Touches = map<Uuid, Time>

  // A call of TouchLastUsed and the clock it reads.
  datatype Call = Call(id: Uuid, now: Time)

  predicate Skips(m: Touches, c: Call) {
    c.id in m && c.now - m[c.id] < DEBOUNCE
  }

  function Evict(m: Touches, now: Time): Touches {
    map k | k in m && now - m[k] <= 2 * DEBOUNCE :: m[k]
  }

  // The map after a call, and after one that never evicts.
  function Next(m: Touches, c: Call): Touches {
    if Skips(m, c) then m else Evict(m[c.id := c.now], c.now)
  }

  function NextKept(m: Touches, c: Call): Touches {
    if Skips(m, c) then m else m[c.id := c.now]
  }

  function Run(calls: seq<Call>): Touches {
    if calls == [] then map[] else Next(Run(calls[..|calls| - 1]), calls[|calls| - 1])
  }

  function RunKept(calls: seq<Call>): Touches {
    if calls == [] then map[] else NextKept(RunKept(calls[..|calls| - 1]), calls[|calls| - 1])
  }

  class TokenTouches {
    var lastTouchMap: Touches

    constructor ()
      ensures lastTouchMap == map[]
    {
      lastTouchMap := map[];
    }

    // The section under the lock; the caller then updates the database if touched.
    method TouchLastUsed(c: Call) returns (touched: bool)
      modifies this
      ensures touched <==> !Skips(old(lastTouchMap), c)
      ensures lastTouchMap == Next(old(lastTouchMap), c)
    {
      if c.id in lastTouchMap && c.now - lastTouchMap[c.id] < DEBOUNCE {
        return false;
      }
      lastTouchMap := lastTouchMap[c.id := c.now];
      ghost var full := lastTouchMap;
      var todo := lastTouchMap.Keys;
      while todo != {}
        invariant todo <= full.Keys
        invariant lastTouchMap.Keys == todo + Evict(full, c.now).Keys
        invariant forall k :: k in lastTouchMap ==> lastTouchMap[k] == full[k]
        decreases todo
      {
        var k :| k in todo;
        if c.now - lastTouchMap[k] > 2 * DEBOUNCE {
          lastTouchMap := lastTouchMap - {k};
        }
        todo := todo - {k};
      }
      return true;
    }
  }

  // ---- Evicting makes no difference ------------------------------------------------------

  // No call has a reading of the clock more than slack behind that of an earlier call.
  ghost predicate Steady(slack: int, calls: seq<Call>) {
    forall i, j :: 0 <= i < j < |calls| ==> calls[j].now >= calls[i].now - slack
  }

  ghost predicate Follows(slack: int, calls: seq<Call>, c: Call) {
    forall i :: 0 <= i < |calls| ==> c.now >= calls[i].now - slack
  }

  // The largest slack that goes unnoticed.
  const SLACK := DEBOUNCE + 1

  // The evicting map is the other one without some entries that no later call within the
  // slack would take for recent.
  ghost predicate Agree(m: Touches, kept: Touches, calls: seq<Call>) {
    && (forall k :: k in m ==> k in kept && m[k] == kept[k])
    && (forall k :: k in kept && k !in m ==> exists i :: 0 <= i < |calls| && calls[i].now - kept[k] > 2 * DEBOUNCE)
  }

  lemma AgreeSkips(m: Touches, kept: Touches, calls: seq<Call>, c: Call)
    requires Agree(m, kept, calls) && Follows(SLACK, calls, c)
    ensures Skips(m, c) <==> Skips(kept, c)
  {
  }

  lemma AgreeNext(m: Touches, kept: Touches, calls: seq<Call>, c: Call)
    requires Agree(m, kept, calls) && Follows(SLACK, calls, c)
    ensures Agree(Next(m, c), NextKept(kept, c), calls + [c])
  {
    AgreeSkips(m, kept, calls, c);
    var m', kept' := Next(m, c), NextKept(kept, c);
    forall k | k in kept' && k !in m'
      ensures exists i :: 0 <= i < |calls + [c]| && (calls + [c])[i].now - kept'[k] > 2 * DEBOUNCE
    {
      if k !in m && k != c.id {
        var i :| 0 <= i < |calls| && calls[i].now - kept[k] > 2 * DEBOUNCE;
        assert (calls + [c])[i] == calls[i];
      } else {
        assert (calls + [c])[|calls|] == c;
      }
    }
  }

  lemma SteadyNext(slack: int, calls: seq<Call>, c: Call)
    ensures Steady(slack, calls + [c]) <==> Steady(slack, calls) && Follows(slack, calls, c)
  {
    var all := calls + [c];
    assert all[|calls|] == c;
    if Steady(slack, all) {
      forall i, j | 0 <= i < j < |calls| ensures calls[j].now >= calls[i].now - slack {
        assert all[i] == calls[i] && all[j] == calls[j];
      }
      forall i | 0 <= i < |calls| ensures c.now >= calls[i].now - slack {
        assert all[i] == calls[i];
      }
    }
  }

  lemma {:induction false} MapsAgree(calls: seq<Call>)
    requires Steady(SLACK, calls)
    ensures Agree(Run(calls), RunKept(calls), calls)
  {
    if calls != [] {
      var init, last := calls[..|calls| - 1], calls[|calls| - 1];
      assert calls == init + [last];
      SteadyNext(SLACK, init, last);
      MapsAgree(init);
      AgreeNext(Run(init), RunKept(init), init, last);
    }
  }

  ghost predicate SameDecision(calls: seq<Call>, c: Call) {
    Skips(Run(calls), c) <==> Skips(RunKept(calls), c)
  }

  // For every call sequence whose readings never fall back by more than the slack, the
  // evicting map skips and touches exactly as one that never evicts.
  lemma EvictionIsInvisible(calls: seq<Call>, c: Call)
    requires Steady(SLACK, calls + [c])
    ensures SameDecision(calls, c)
  {
    SteadyNext(SLACK, calls, c);
    MapsAgree(calls);
    AgreeSkips(Run(calls), RunKept(calls), calls, c);
  }

  lemma SteadierIsSteady(slack: int, calls: seq<Call>, c: Call)
    requires slack <= SLACK && Steady(slack, calls + [c])
    ensures SameDecision(calls, c)
  {
    assert Steady(SLACK, calls + [c]);
    EvictionIsInvisible(calls, c);
  }

  // Readings that fall back by one tick more touch a token twice within a debounce.
  lemma FallTouchesAgain(id: Uuid, other: Uuid)
    requires id != other
    ensures var calls, c := [Call(id, 0), Call(other, 2 * DEBOUNCE + 1)], Call(id, DEBOUNCE - 1);
            Steady(SLACK + 1, calls + [c]) && !Skips(Run(calls), c) && Skips(RunKept(calls), c)
  {
    var calls := [Call(id, 0), Call(other, 2 * DEBOUNCE + 1)];
    assert calls[..1] == [Call(id, 0)] && calls[..1][..0] == [];
    assert Run(calls[..1]) == map[id := 0];
    assert RunKept(calls[..1]) == map[id := 0];
  }

  // Eviction never shows, whatever the calls, exactly if readings fall back by no more than
  // a debounce and one tick.
  lemma ExactSlack(slack: int)
    ensures (forall calls: seq<Call>, c: Call :: Steady(slack, calls + [c]) ==> SameDecision(calls, c)) <==>
            slack <= SLACK
  {
    if slack <= SLACK {
      forall calls: seq<Call>, c: Call | Steady(slack, calls + [c]) ensures SameDecision(calls, c) {
        SteadierIsSteady(slack, calls, c);
      }
    } else {
      FallTouchesAgain(1, 2);
      var calls, c := [Call(1, 0), Call(2, 2 * DEBOUNCE + 1)], Call(1, DEBOUNCE - 1);
      assert Steady(slack, calls + [c]);
      assert !SameDecision(calls, c);
    }
  }

  // ---- Database touches are spaced and the map stays small --------------------------------

  predicate Touched(calls: seq<Call>, i: nat)
    requires i < |calls|
  {
    !Skips(Run(calls[..i]), calls[i])
  }

  // The remembered touch of a token is its last one.
  lemma {:induction false} LastTouch(calls: seq<Call>, i: nat)
    requires Steady(SLACK, calls) && i < |calls| && Touched(calls, i)
    requires forall j :: i < j < |calls| ==> calls[j].id == calls[i].id ==> !Touched(calls, j)
    ensures calls[i].id in RunKept(calls) && RunKept(calls)[calls[i].id] == calls[i].now
  {
    var n := |calls| - 1;
    assert calls == calls[..n] + [calls[n]];
    SteadyNext(SLACK, calls[..n], calls[n]);
    EvictionIsInvisible(calls[..n], calls[n]);
    if i < n {
      assert calls[..n][..i] == calls[..i];
      forall j | i < j < n && calls[..n][j].id == calls[i].id ensures !Touched(calls[..n], j) {
        assert calls[..n][..j] == calls[..j];
        assert !Touched(calls, j);
      }
      LastTouch(calls[..n], i);
      assert calls[n].id == calls[i].id ==> !Touched(calls, n);
    }
  }

  lemma ConsecutiveTouches(calls: seq<Call>, i: nat, j: nat)
    requires Steady(SLACK, calls) && i < j < |calls| && calls[i].id == calls[j].id
    requires Touched(calls, i) && Touched(calls, j)
    requires forall k :: i < k < j && calls[k].id == calls[i].id ==> !Touched(calls, k)
    ensures calls[j].now >= calls[i].now + DEBOUNCE
  {
    var before := calls[..j];
    assert before[..i] == calls[..i];
    forall k | i < k < j && before[k].id == before[i].id ensures !Touched(before, k) {
      assert before[..k] == calls[..k];
      assert !Touched(calls, k);
    }
    LastTouch(before, i);
    assert Steady(SLACK, before + [calls[j]]) by {
      assert before + [calls[j]] == calls[..j + 1];
    }
    EvictionIsInvisible(before, calls[j]);
  }

  // Any two touches of one token are at least a debounce apart.
  lemma {:induction false} TouchesAreSpaced(calls: seq<Call>, i: nat, j: nat)
    requires Steady(SLACK, calls) && i < j < |calls| && calls[i].id == calls[j].id
    requires Touched(calls, i) && Touched(calls, j)
    ensures calls[j].now >= calls[i].now + DEBOUNCE
    decreases j - i
  {
    if k :| i < k < j && calls[k].id == calls[i].id && Touched(calls, k) {
      TouchesAreSpaced(calls, i, k);
      TouchesAreSpaced(calls, k, j);
    } else {
      ConsecutiveTouches(calls, i, j);
    }
  }

  // After a touch no entry is older than twice the debounce.
  lemma {:induction false} TouchEvicts(calls: seq<Call>, c: Call, k: Uuid)
    requires !Skips(Run(calls), c) && k in Run(calls + [c])
    ensures c.now - Run(calls + [c])[k] <= 2 * DEBOUNCE
    ensures Run(calls + [c])[c.id] == c.now
  {
    assert (calls + [c])[..|calls|] == calls;
  }
}
