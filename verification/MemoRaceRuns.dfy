/** Whole runs of the concurrent cache: exactly which ones stay within capacity, and what a clear
leaves behind. */
module MemoRaceRuns {
  import opened Prelude
  import opened ResultMemo
  import opened MemoRaces

  // ----- Exactly which runs stay bounded -------------------------------------------------------------

  /** The state before event `n` of a run. */
  function StateAt<V>(capacity: nat, events: seq<Event<V>>, n: nat): State<V>
    requires n <= |events|
  {
    After(capacity, events[..n])
  }

  lemma {:induction false} StateStep<V>(capacity: nat, events: seq<Event<V>>, n: nat)
    requires n < |events|
    ensures StateAt(capacity, events, n + 1) == Step(StateAt(capacity, events, n), capacity, events[n])
  {
    assert events[..n + 1][..n] == events[..n];
  }

  lemma {:induction false} EnabledInRun<V>(capacity: nat, events: seq<Event<V>>, n: nat)
    requires IsRun(capacity, events) && n < |events|
    ensures Enabled(StateAt(capacity, events, n), events[n])
  {
    var before := events[..|events| - 1];
    if n < |before| {
      EnabledInRun(capacity, before, n);
      assert before[..n] == events[..n];
    }
  }

  /** A `put` of a new key that finds no room and cannot make any. */
  predicate Overfills<V>(s: Store<V>, capacity: nat, event: Event<V>) {
    event.Put? && event.key !in s.entries && |Untracked(s)| >= capacity
  }

  lemma {:induction false} StepSize<V>(s: State<V>, capacity: nat, event: Event<V>)
    requires capacity > 0 && Enabled(s, event) && |s.store.entries| <= capacity
    ensures |Step(s, capacity, event).store.entries| <= capacity <==> !Overfills(s.store, capacity, event)
  {
    if event.Put? { PutBoundExact(s.store, capacity, event.key, event.value); }
  }

  ghost predicate AlwaysWithin<V>(capacity: nat, events: seq<Event<V>>) {
    forall n :: 0 <= n <= |events| ==> |StateAt(capacity, events, n).store.entries| <= capacity
  }

  ghost predicate NeverOverfills<V>(capacity: nat, events: seq<Event<V>>) {
    forall n :: 0 <= n < |events| ==> !Overfills(StateAt(capacity, events, n).store, capacity, events[n])
  }

  lemma {:induction false} WithinSoFar<V>(capacity: nat, events: seq<Event<V>>, n: nat)
    requires capacity > 0 && IsRun(capacity, events) && n <= |events|
    requires NeverOverfills(capacity, events)
    ensures |StateAt(capacity, events, n).store.entries| <= capacity
  {
    if n > 0 {
      WithinSoFar(capacity, events, n - 1);
      EnabledInRun(capacity, events, n - 1);
      StateStep(capacity, events, n - 1);
      StepSize(StateAt(capacity, events, n - 1), capacity, events[n - 1]);
    }
  }

  /** Over every interleaving, clears at any point included: the map stays within capacity throughout
      if and only if no `put` of a new key meets `capacity` or more untracked entries. */
  lemma {:induction false} RunBoundExact<V>(capacity: nat, events: seq<Event<V>>)
    requires capacity > 0 && IsRun(capacity, events)
    ensures AlwaysWithin(capacity, events) <==> NeverOverfills(capacity, events)
  {
    if NeverOverfills(capacity, events) {
      forall n | 0 <= n <= |events| ensures |StateAt(capacity, events, n).store.entries| <= capacity {
        WithinSoFar(capacity, events, n);
      }
    } else {
      var n :| 0 <= n < |events| && Overfills(StateAt(capacity, events, n).store, capacity, events[n]);
      EnabledInRun(capacity, events, n);
      StateStep(capacity, events, n);
      if |StateAt(capacity, events, n).store.entries| <= capacity {
        StepSize(StateAt(capacity, events, n), capacity, events[n]);
        assert |StateAt(capacity, events, n + 1).store.entries| > capacity;
      }
    }
  }

  // ----- What a clear strands --------------------------------------------------------------------------

  /** The key the event puts, if it puts one. */
  function KeyPut<V>(event: Event<V>): set<string> {
    if event.Put? then {event.key} else {}
  }

  /** The keys put by the events from `i` up to `j`. */
  function PutKeys<V>(events: seq<Event<V>>, i: nat, j: nat): set<string>
    requires i <= j <= |events|
  {
    if i == j then {} else PutKeys(events, i, j - 1) + KeyPut(events[j - 1])
  }

  lemma {:induction false} StepEntries<V>(s: State<V>, capacity: nat, event: Event<V>)
    ensures Step(s, capacity, event).store.entries.Keys <= s.store.entries.Keys + KeyPut(event)
  {
    if event.Put? { EvictOutcome(s.store, capacity); }
  }

  lemma {:induction false} ClearEmpties<V>(capacity: nat, events: seq<Event<V>>, i: nat)
    requires IsRun(capacity, events) && i < |events| && events[i].ClearEntries?
    ensures StateAt(capacity, events, i + 1).store.entries == map[]
  {
    EnabledInRun(capacity, events, i);
    StateStep(capacity, events, i);
  }

  /** Behind the first half of a clear, only what was put since is in the map. */
  lemma {:induction false} EntriesSinceClear<V>(capacity: nat, events: seq<Event<V>>, i: nat, j: nat)
    requires IsRun(capacity, events) && i < j <= |events| && events[i].ClearEntries?
    ensures StateAt(capacity, events, j).store.entries.Keys <= PutKeys(events, i + 1, j)
    decreases j
  {
    if j == i + 1 {
      ClearEmpties(capacity, events, i);
    } else {
      StateStep(capacity, events, j - 1);
      EntriesSinceClear(capacity, events, i, j - 1);
      StepEntries(StateAt(capacity, events, j - 1), capacity, events[j - 1]);
    }
  }

  predicate NoClearBetween<V>(events: seq<Event<V>>, i: nat, j: nat)
    requires j <= |events|
  {
    forall k :: i < k < j ==> !events[k].ClearEntries?
  }

  lemma {:induction false} PutKeysGrow<V>(events: seq<Event<V>>, i: nat, j: nat)
    requires i < j <= |events|
    ensures |PutKeys(events, i, j - 1)| <= |PutKeys(events, i, j)|
    ensures PutKeys(events, i, j) == PutKeys(events, i, j - 1) + KeyPut(events[j - 1])
  {
    SubsetCardinality(PutKeys(events, i, j - 1), PutKeys(events, i, j));
  }

  lemma {:induction false} PutsStayOnce<V>(capacity: nat, events: seq<Event<V>>, n: nat, puts: set<string>)
    requires IsRun(capacity, events) && n < |events| && !events[n].ClearEntries?
    requires StateAt(capacity, events, n).store.entries.Keys == puts
    requires |puts + KeyPut(events[n])| <= capacity
    ensures StateAt(capacity, events, n + 1).store.entries.Keys == puts + KeyPut(events[n])
  {
    EnabledInRun(capacity, events, n);
    StateStep(capacity, events, n);
  }

  /** With room for them and no other clear, everything put since the first half is still there. */
  lemma {:induction false} PutsStay<V>(capacity: nat, events: seq<Event<V>>, i: nat, j: nat)
    requires IsRun(capacity, events) && i < j <= |events| && events[i].ClearEntries?
    requires NoClearBetween(events, i, j)
    requires |PutKeys(events, i + 1, j)| <= capacity
    ensures StateAt(capacity, events, j).store.entries.Keys == PutKeys(events, i + 1, j)
    decreases j
  {
    if j == i + 1 {
      ClearEmpties(capacity, events, i);
    } else {
      var n := j - 1;
      PutKeysGrow(events, i + 1, j);
      PutsStay(capacity, events, i, n);
      PutsStayOnce(capacity, events, n, PutKeys(events, i + 1, n));
    }
  }

  /** The second half of a `clear` strands exactly the entries put since its first half that are still
      there, which is all of them if there was room and no other clear: no queue position can evict
      them any more. */
  lemma {:induction false} ClearOrderStrands<V>(capacity: nat, events: seq<Event<V>>, i: nat, j: nat, thread: nat)
    requires IsRun(capacity, events) && i < j < |events|
    requires events[i] == ClearEntries(thread) && events[j] == ClearOrder(thread)
    ensures Untracked(StateAt(capacity, events, j + 1).store) ==
      PutKeys(events, i + 1, j) * StateAt(capacity, events, j).store.entries.Keys
    ensures |PutKeys(events, i + 1, j)| <= capacity && NoClearBetween(events, i, j) ==>
      Untracked(StateAt(capacity, events, j + 1).store) == PutKeys(events, i + 1, j)
  {
    StateStep(capacity, events, j);
    EnabledInRun(capacity, events, j);
    EntriesSinceClear(capacity, events, i, j);
    var before := StateAt(capacity, events, j).store;
    assert Untracked(before.(order := [])) == before.entries.Keys;
    if |PutKeys(events, i + 1, j)| <= capacity && NoClearBetween(events, i, j) {
      PutsStay(capacity, events, i, j);
    }
  }
}
