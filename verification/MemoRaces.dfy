/** The cache under concurrent callers, one critical section at a time.

`put` holds both mutexes for its whole body and is one step.  `get` drops the map before it takes
the queue, and `clear` empties the map before it empties the queue: each is two steps, and any
number of other steps may run in between.  Queue and map then drift apart: stale keys, duplicates,
and, after a `clear`, entries that no queue position tracks.
*/
module MemoRaces {
  import opened Prelude
  import opened ResultMemo

  datatype Thread = Idle | Promoting(key: string) | Clearing

  datatype State<+V> = State(store: Store<V>, threads: map<nat, Thread>)

  datatype Event<+V> =
    | GetLookup(thread: nat, key: string)
    | GetPromote(thread: nat)
    | Put(thread: nat, key: string, value: V)
    | ClearEntries(thread: nat)
    | ClearOrder(thread: nat)

  function At<V>(s: State<V>, thread: nat): Thread {
    if thread in s.threads then s.threads[thread] else Idle
  }

  predicate Enabled<V>(s: State<V>, event: Event<V>) {
    match event
    case GetPromote(t) => At(s, t).Promoting?
    case ClearOrder(t) => At(s, t).Clearing?
    case GetLookup(t, _) => At(s, t).Idle?
    case Put(t, _, _) => At(s, t).Idle?
    case ClearEntries(t) => At(s, t).Idle?
  }

  function Step<V>(s: State<V>, capacity: nat, event: Event<V>): State<V> {
    if !Enabled(s, event) then s
    else match event
    case GetLookup(t, key) =>
      if Lookup(s.store, capacity, key).None? then s else s.(threads := s.threads[t := Promoting(key)])
    case GetPromote(t) =>
      State(s.store.(order := Promote(s.store.order, At(s, t).key)), s.threads[t := Idle])
    case Put(_, key, value) => s.(store := PutStore(s.store, capacity, key, value))
    case ClearEntries(t) => State(s.store.(entries := map[]), s.threads[t := Clearing])
    case ClearOrder(t) => State(s.store.(order := []), s.threads[t := Idle])
  }

  function After<V>(capacity: nat, events: seq<Event<V>>): State<V> {
    if events == [] then State(EmptyStore(), map[])
    else Step(After(capacity, events[..|events| - 1]), capacity, events[|events| - 1])
  }

  predicate IsRun<V>(capacity: nat, events: seq<Event<V>>) {
    events == [] ||
    (IsRun(capacity, events[..|events| - 1]) && Enabled(After(capacity, events[..|events| - 1]), events[|events| - 1]))
  }

  // ----- What survives -------------------------------------------------------------------------

  /** Entries that no queue position can evict. */
  function Untracked<V>(s: Store<V>): set<string> {
    set k | k in s.entries && k !in s.order
  }

  predicate ClearPending<V>(s: State<V>) {
    exists t :: t in s.threads && s.threads[t].Clearing?
  }

  ghost predicate Bounded<V>(s: State<V>, capacity: nat) {
    && Untracked(s.store) == {}
    && |s.store.entries| <= capacity
    && (ClearPending(s) ==> s.store.entries == map[])
  }

  /** No `put` runs between the two halves of a `clear`. */
  predicate ClearsUndisturbed<V>(capacity: nat, events: seq<Event<V>>) {
    events == [] ||
    (var before := events[..|events| - 1];
     && ClearsUndisturbed(capacity, before)
     && (events[|events| - 1].Put? ==> !ClearPending(After(capacity, before))))
  }

  lemma {:induction false} RemoveFirstMembers(order: seq<string>, key: string, k: string)
    ensures k != key ==> (k in RemoveFirst(order, key) <==> k in order)
  {
    if order != [] { RemoveFirstMembers(order[1..], key, k); }
  }

  lemma PromoteMembers(order: seq<string>, key: string)
    ensures forall k :: k in Promote(order, key) <==> k in order || k == key
  {
    forall k ensures k in Promote(order, key) <==> k in order || k == key {
      RemoveFirstMembers(order, key, k);
    }
  }

  /** Eviction never touches an untracked entry, and stops early only when there is room. */
  lemma {:induction false} EvictOutcome<V>(s: Store<V>, capacity: nat)
    ensures var r := Evict(s, capacity);
      && Untracked(r) == Untracked(s)
      && r.entries.Keys <= s.entries.Keys
      && (|r.entries| < capacity || r.entries.Keys == Untracked(s))
    decreases |s.order|
  {
    if |s.entries| < capacity {
    } else if s.order == [] {
      assert s.entries.Keys == Untracked(s);
    } else {
      var next := Store(s.entries - {s.order[0]}, s.order[1..]);
      EvictOutcome(next, capacity);
      forall k ensures k in Untracked(next) <==> k in Untracked(s) {
        assert k in s.order <==> k == s.order[0] || k in next.order;
      }
    }
  }

  /** From any state whatever, a `put` of a new key ends within capacity exactly when fewer than
      `capacity` entries were untracked; replacing a value never changes the size. */
  lemma PutBoundExact<V>(s: Store<V>, capacity: nat, key: string, value: V)
    requires capacity > 0
    ensures |PutStore(s, capacity, key, value).entries| <= capacity <==>
      if key in s.entries then |s.entries| <= capacity else |Untracked(s)| < capacity
  {
    if key in s.entries {
      assert s.entries[key := value].Keys == s.entries.Keys;
      assert |s.entries[key := value].Keys| == |s.entries[key := value]|;
      assert |s.entries.Keys| == |s.entries|;
    } else {
      var room := Evict(s, capacity);
      EvictOutcome(s, capacity);
      assert room.entries[key := value].Keys == room.entries.Keys + {key};
      assert |room.entries[key := value].Keys| == |room.entries[key := value]|;
      assert |room.entries.Keys| == |room.entries|;
      assert Untracked(room) <= room.entries.Keys;
      SubsetCardinality(Untracked(s), room.entries.Keys);
    }
  }

  lemma PutKeepsBounded<V>(s: Store<V>, capacity: nat, key: string, value: V)
    requires Untracked(s) == {} && |s.entries| <= capacity
    ensures var r := PutStore(s, capacity, key, value); Untracked(r) == {} && |r.entries| <= capacity
  {
    if capacity > 0 {
      PutBoundExact(s, capacity, key, value);
      EvictOutcome(s, capacity);
      PromoteMembers(s.order, key);
      var r := PutStore(s, capacity, key, value);
      forall k | k in r.entries ensures k in r.order {
        if key in s.entries {
          assert k !in Untracked(s);
        } else {
          assert k !in Untracked(Evict(s, capacity));
        }
      }
    }
  }

  lemma StepKeepsBounded<V>(s: State<V>, capacity: nat, event: Event<V>)
    requires Enabled(s, event) && Bounded(s, capacity)
    requires event.Put? ==> !ClearPending(s)
    ensures Bounded(Step(s, capacity, event), capacity)
  {
    var r := Step(s, capacity, event);
    match event
    case GetLookup(t, key) =>
      assert ClearPending(r) ==> ClearPending(s);
    case GetPromote(t) =>
      PromoteMembers(s.store.order, At(s, t).key);
      assert Untracked(r.store) <= Untracked(s.store);
      assert ClearPending(r) ==> ClearPending(s);
    case Put(_, key, value) => PutKeepsBounded(s.store, capacity, key, value);
    case ClearEntries(t) =>
    case ClearOrder(t) =>
      assert ClearPending(s);
  }

  /** Every interleaving of any number of threads keeps every entry tracked and the map within
      capacity, as long as no `put` falls between the two halves of a `clear`. */
  lemma {:induction false} RacesKeepBound<V>(capacity: nat, events: seq<Event<V>>)
    requires IsRun(capacity, events) && ClearsUndisturbed(capacity, events)
    ensures Bounded(After(capacity, events), capacity)
  {
    if events != [] {
      var before := events[..|events| - 1];
      RacesKeepBound(capacity, before);
      StepKeepsBounded(After(capacity, before), capacity, events[|events| - 1]);
    }
  }

  lemma {:induction false} OneMore<V>(capacity: nat, before: seq<Event<V>>, event: Event<V>)
    ensures After(capacity, before + [event]) == Step(After(capacity, before), capacity, event)
    ensures IsRun(capacity, before + [event]) <==> IsRun(capacity, before) && Enabled(After(capacity, before), event)
    ensures ClearsUndisturbed(capacity, before + [event]) <==>
      ClearsUndisturbed(capacity, before) && (event.Put? ==> !ClearPending(After(capacity, before)))
  {
    assert (before + [event])[..|before|] == before;
  }

  /** A `put` between the halves of a `clear`, then one more `put`: for any two threads, keys and values
      a legal run that leaves an entry nothing evicts, so that the map outgrows a capacity of one. */
  lemma {:induction false} PutInsideClearBreaksBound<V>(t: nat, u: nat, a: string, b: string, x: V, y: V)
    requires t != u && a != b
    ensures var events := [ClearEntries(t), Put(u, a, x), ClearOrder(t), Put(u, b, y)];
      IsRun(1, events) && !ClearsUndisturbed(1, events) && |After(1, events).store.entries| == 2
  {
    var none: seq<Event<V>> := [];
    var e1 := none + [ClearEntries(t)];
    var e2 := e1 + [Put(u, a, x)];
    var e3 := e2 + [ClearOrder(t)];
    var s1, s3 := After(1, e1), After(1, e3);
    OneMore(1, none, ClearEntries(t));
    OneMore(1, e1, Put(u, a, x));
    OneMore(1, e2, ClearOrder(t));
    OneMore(1, e3, Put(u, b, y));
    assert t in s1.threads && ClearPending(s1);
    assert s3.store == Store(map[a := x], []);
    assert s3.store.entries.Keys == {a} && |s3.store.entries| == |s3.store.entries.Keys|;
    var both := s3.store.entries[b := y];
    assert both.Keys == {a, b} && |both| == |both.Keys|;
    assert [ClearEntries(t), Put(u, a, x), ClearOrder(t), Put(u, b, y)] == e3 + [Put(u, b, y)];
  }
}
