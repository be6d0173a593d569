/** The queue under concurrent callers: how far it outgrows the map. */
module MemoQueues {
  import opened Prelude
  import opened ResultMemo
  import opened MemoRaces

  // ----- One critical section --------------------------------------------------------------------------

  /** Promoting lengthens the queue by one exactly when the key is not in it. */
  lemma PromoteLength(order: seq<string>, key: string)
    ensures |Promote(order, key)| == |order| + if key in order then 0 else 1
  {
  }

  lemma RemoveOne(entries: set<string>, key: string)
    ensures |entries| - 1 <= |entries - {key}|
  {
    SubsetCardinality(entries, (entries - {key}) + {key});
  }

  /** Eviction takes at least as many keys off the queue as entries out of the map. */
  lemma {:induction false} EvictExcess<V>(s: Store<V>, capacity: nat)
    ensures var r := Evict(s, capacity); |r.order| - |r.entries| <= |s.order| - |s.entries|
    decreases |s.order|
  {
    if |s.entries| >= capacity && s.order != [] {
      var next := Store(s.entries - {s.order[0]}, s.order[1..]);
      EvictExcess(next, capacity);
      RemoveOne(s.entries.Keys, s.order[0]);
      assert next.entries.Keys == s.entries.Keys - {s.order[0]};
      assert |next.entries.Keys| == |next.entries| && |s.entries.Keys| == |s.entries|;
    }
  }

  /** From any state, a `put` raises the queue's lead over the map only by replacing an untracked entry. */
  lemma {:induction false} PutExcess<V>(s: Store<V>, capacity: nat, key: string, value: V)
    ensures var r := PutStore(s, capacity, key, value);
      |r.order| - |r.entries| <= |s.order| - |s.entries| + if key in Untracked(s) then 1 else 0
  {
    var r := PutStore(s, capacity, key, value);
    assert |r.entries.Keys| == |r.entries| && |s.entries.Keys| == |s.entries|;
    if capacity > 0 && key in s.entries {
      PromoteLength(s.order, key);
      assert r.entries.Keys == s.entries.Keys;
    } else if capacity > 0 {
      var room := Evict(s, capacity);
      EvictExcess(s, capacity);
      EvictOutcome(s, capacity);
      assert |room.entries.Keys| == |room.entries|;
      assert r.entries.Keys == room.entries.Keys + {key};
    }
  }

  // ----- Whole runs --------------------------------------------------------------------------------------

  /** Promotions, since the queue was last cleared, of a key that had left the queue. */
  function Strays<V>(capacity: nat, events: seq<Event<V>>): nat {
    if events == [] then 0
    else
      var before, last := events[..|events| - 1], events[|events| - 1];
      if last.ClearOrder? then 0 else Strays(capacity, before) + Stray(After(capacity, before), last)
  }

  function Stray<V>(s: State<V>, event: Event<V>): nat {
    if event.GetPromote? && At(s, event.thread).Promoting? && At(s, event.thread).key !in s.store.order then 1 else 0
  }

  lemma {:induction false} StraysNext<V>(capacity: nat, before: seq<Event<V>>, event: Event<V>)
    ensures Strays(capacity, before + [event]) ==
      if event.ClearOrder? then 0 else Strays(capacity, before) + Stray(After(capacity, before), event)
  {
    assert (before + [event])[..|before|] == before;
  }

  /** While a `clear` is half done the map is empty, and the queue is measured against the capacity. */
  ghost predicate QueueWithin<V>(s: State<V>, capacity: nat, strays: nat) {
    |s.store.order| <= strays + if ClearPending(s) then capacity else |s.store.entries|
  }

  /** Only a `clear` changes whether one is half done. */
  lemma {:induction false} SamePending<V>(s: State<V>, capacity: nat, event: Event<V>)
    requires Enabled(s, event) && !event.ClearEntries? && !event.ClearOrder?
    ensures ClearPending(Step(s, capacity, event)) == ClearPending(s)
  {
    var r := Step(s, capacity, event);
    forall t ensures (t in r.threads && r.threads[t].Clearing?) <==> (t in s.threads && s.threads[t].Clearing?) {
    }
  }

  lemma {:induction false} StepQueue<V>(s: State<V>, capacity: nat, event: Event<V>, strays: nat)
    requires Enabled(s, event) && Bounded(s, capacity) && QueueWithin(s, capacity, strays)
    requires event.Put? ==> !ClearPending(s)
    requires !event.ClearOrder?
    ensures QueueWithin(Step(s, capacity, event), capacity, strays + Stray(s, event))
  {
    match event
    case GetLookup(_, _) => SamePending(s, capacity, event);
    case GetPromote(t) =>
      SamePending(s, capacity, event);
      PromoteLength(s.store.order, At(s, t).key);
    case Put(_, key, value) =>
      SamePending(s, capacity, event);
      PutExcess(s.store, capacity, key, value);
    case ClearEntries(t) =>
      assert t in Step(s, capacity, event).threads && ClearPending(Step(s, capacity, event));
  }

  /** Over every interleaving without a `put` inside a `clear`: the queue holds at most `capacity` keys
      and one more for every promotion, since it was last cleared, of a key that had left it. */
  lemma {:induction false} RacesKeepQueue<V>(capacity: nat, events: seq<Event<V>>)
    requires IsRun(capacity, events) && ClearsUndisturbed(capacity, events)
    ensures QueueWithin(After(capacity, events), capacity, Strays(capacity, events))
    ensures |After(capacity, events).store.order| <= capacity + Strays(capacity, events)
  {
    RacesKeepBound(capacity, events);
    if events != [] {
      var before, last := events[..|events| - 1], events[|events| - 1];
      RacesKeepQueue(capacity, before);
      RacesKeepBound(capacity, before);
      if !last.ClearOrder? {
        StepQueue(After(capacity, before), capacity, last, Strays(capacity, before));
      }
    }
  }

  /** The bound is met: a key evicted between the two halves of a `get` comes back as one key too many. */
  lemma {:induction false} StrayPromotion<V>(t: nat, u: nat, a: string, b: string, x: V, y: V)
    requires t != u && a != b
    ensures var events := [Put(u, a, x), GetLookup(t, a), Put(u, b, y), GetPromote(t)];
      && IsRun(1, events) && ClearsUndisturbed(1, events)
      && Strays(1, events) == 1 && |After(1, events).store.order| == 2
  {
    var none: seq<Event<V>> := [];
    var e1 := none + [Put(u, a, x)];
    var e2 := e1 + [GetLookup(t, a)];
    var e3 := e2 + [Put(u, b, y)];
    var events := e3 + [GetPromote(t)];
    OneMore(1, none, Put(u, a, x));
    OneMore(1, e1, GetLookup(t, a));
    OneMore(1, e2, Put(u, b, y));
    OneMore(1, e3, GetPromote(t));
    assert EmptyStore<V>().entries[a := x] == map[a := x];
    assert After(1, e1).store == Store(map[a := x], [a]);
    assert After(1, e2) == State(Store(map[a := x], [a]), map[t := Promoting(a)]);
    OneEvicted(a, x, b, y);
    assert After(1, e3) == State(Store(map[b := y], [b]), map[t := Promoting(a)]);
    StraysNext(1, none, Put(u, a, x));
    StraysNext(1, e1, GetLookup(t, a));
    StraysNext(1, e2, Put(u, b, y));
    StraysNext(1, e3, GetPromote(t));
    assert events == [Put(u, a, x), GetLookup(t, a), Put(u, b, y), GetPromote(t)];
  }

  lemma {:induction false} OneEvicted<V>(a: string, x: V, b: string, y: V)
    requires a != b
    ensures PutStore(Store(map[a := x], [a]), 1, b, y) == Store(map[b := y], [b])
  {
    var s := Store(map[a := x], [a]);
    assert s.entries.Keys == {a} && |s.entries| == |s.entries.Keys|;
    var next := Store(s.entries - {a}, s.order[1..]);
    assert next.entries == map[] && next.order == [];
    assert Evict(s, 1) == next && next.entries[b := y] == map[b := y];
  }
}
