/** The sequential cache is an exact LRU list.

Three results: the queue always holds the `capacity` most recently touched keys; a key hits exactly
when fewer than `capacity` other keys were touched since its own last touch; and a smaller cache
never holds a key that a larger one, fed the same calls, has lost.
*/
module MemoRecency {
  import opened Prelude
  import opened ResultMemo
  import Subsequences

  datatype Op<+V> = Get(key: string) | Put(key: string, value: V) | Clear

  function Do<V>(s: Store<V>, capacity: nat, op: Op<V>): Store<V> {
    match op
    case Get(key) => GetStore(s, capacity, key)
    case Put(key, value) => PutStore(s, capacity, key, value)
    case Clear => EmptyStore()
  }

  function RunOps<V>(capacity: nat, ops: seq<Op<V>>): Store<V> {
    if ops == [] then EmptyStore()
    else Do(RunOps(capacity, ops[..|ops| - 1]), capacity, ops[|ops| - 1])
  }

  /** Queue and map agree: no stale key, no duplicate, no untracked entry. */
  ghost predicate Coherent<V>(s: Store<V>, capacity: nat) {
    NoDuplicates(s.order) && s.entries.Keys == ToSet(s.order) && |s.order| <= capacity
  }

  // ----- Independent description: the log of touches -------------------------------------------

  datatype Touch = Touched(key: string) | Reset

  /** What each call touches: a `put` its key, a `get` its key if it hits. */
  function TouchOf<V>(s: Store<V>, capacity: nat, op: Op<V>): seq<Touch> {
    match op
    case Get(key) => if Lookup(s, capacity, key).Some? then [Touched(key)] else []
    case Put(key, _) => [Touched(key)]
    case Clear => [Reset]
  }

  function TouchLog<V>(capacity: nat, ops: seq<Op<V>>): seq<Touch> {
    if ops == [] then []
    else
      var before := ops[..|ops| - 1];
      TouchLog(capacity, before) + TouchOf(RunOps(capacity, before), capacity, ops[|ops| - 1])
  }

  /** Other keys touched since the last touch of `key`; None if it was not touched since a reset. */
  function OthersSince(log: seq<Touch>, key: string): Option<set<string>> {
    if log == [] then None
    else match log[|log| - 1]
      case Reset => None
      case Touched(k) =>
        if k == key then Some({})
        else match OthersSince(log[..|log| - 1], key)
          case None => None
          case Some(others) => Some(others + {k})
  }

  /** The value of the last `put` of `key` since the last `clear`. */
  function LastPut<V>(ops: seq<Op<V>>, key: string): Option<V> {
    if ops == [] then None
    else match ops[|ops| - 1]
      case Clear => None
      case Put(k, v) => if k == key then Some(v) else LastPut(ops[..|ops| - 1], key)
      case Get(_) => LastPut(ops[..|ops| - 1], key)
  }

  /** Every key touched since the last reset, least recent first. */
  function Recency(log: seq<Touch>): seq<string> {
    if log == [] then []
    else match log[|log| - 1]
      case Reset => []
      case Touched(k) => Promote(Recency(log[..|log| - 1]), k)
  }

  function Newest(n: nat, xs: seq<string>): (r: seq<string>)
    ensures |xs| <= n ==> r == xs
    ensures |xs| >= n ==> |r| == n
  {
    if |xs| <= n then xs else xs[|xs| - n..]
  }

  // ----- Queue facts ------------------------------------------------------------------------

  lemma {:induction false} RemoveFirstInFront(a: seq<string>, b: seq<string>, key: string)
    requires key in a
    ensures RemoveFirst(a + b, key) == RemoveFirst(a, key) + b
  {
    assert (a + b)[1..] == a[1..] + b && (a + b)[0] == a[0];
    if a[0] != key {
      RemoveFirstInFront(a[1..], b, key);
      assert [a[0]] + (RemoveFirst(a[1..], key) + b) == [a[0]] + RemoveFirst(a[1..], key) + b;
    }
  }

  lemma {:induction false} RemoveFirstPast(a: seq<string>, b: seq<string>, key: string)
    requires key !in a
    ensures RemoveFirst(a + b, key) == a + RemoveFirst(b, key)
  {
    if a == [] {
      assert a + b == b;
    } else {
      assert (a + b)[1..] == a[1..] + b && (a + b)[0] == a[0];
      RemoveFirstPast(a[1..], b, key);
      assert [a[0]] + (a[1..] + RemoveFirst(b, key)) == a + RemoveFirst(b, key);
    }
  }

  lemma {:induction false} RemoveFirstSplit(a: seq<string>, b: seq<string>, key: string)
    ensures RemoveFirst(a + b, key) == if key in a then RemoveFirst(a, key) + b else a + RemoveFirst(b, key)
  {
    if key in a { RemoveFirstInFront(a, b, key); } else { RemoveFirstPast(a, b, key); }
  }

  lemma {:induction false} RemoveFirstDistinct(order: seq<string>, key: string)
    requires NoDuplicates(order)
    ensures NoDuplicates(RemoveFirst(order, key))
    ensures ToSet(RemoveFirst(order, key)) == ToSet(order) - {key}
  {
    if order != [] {
      RemoveFirstDistinct(order[1..], key);
      var rest := RemoveFirst(order[1..], key);
      assert ToSet(order) == {order[0]} + ToSet(order[1..]);
      assert order[0] !in ToSet(order[1..]);
      if order[0] != key {
        assert order[0] !in ToSet(rest);
        assert ToSet([order[0]] + rest) == {order[0]} + ToSet(rest);
      }
    }
  }

  lemma PromoteDistinct(order: seq<string>, key: string)
    requires NoDuplicates(order)
    ensures NoDuplicates(Promote(order, key))
    ensures ToSet(Promote(order, key)) == ToSet(order) + {key}
  {
    RemoveFirstDistinct(order, key);
    assert key !in ToSet(RemoveFirst(order, key));
    assert ToSet(Promote(order, key)) == ToSet(RemoveFirst(order, key)) + {key};
  }

  lemma {:induction false} RecencyDistinct(log: seq<Touch>)
    ensures NoDuplicates(Recency(log))
  {
    if log != [] {
      RecencyDistinct(log[..|log| - 1]);
      if log[|log| - 1].Touched? {
        PromoteDistinct(Recency(log[..|log| - 1]), log[|log| - 1].key);
      }
    }
  }

  // ----- A step keeps queue and map in agreement ---------------------------------------------

  /** The queue after a `put`, on a coherent store: promote, or drop the oldest if full and append. */
  function OrderAfterPut(order: seq<string>, capacity: nat, key: string): seq<string> {
    if capacity == 0 then order
    else if key in order then Promote(order, key)
    else if |order| < capacity then order + [key]
    else if order == [] then [key]
    else order[1..] + [key]
  }

  lemma CoherentSize<V>(s: Store<V>, capacity: nat)
    requires Coherent(s, capacity)
    ensures |s.entries| == |s.order|
  {
    CardinalityOfDistinct(s.order);
    assert |s.entries.Keys| == |s.entries|;
  }

  /** A full coherent store evicts exactly its oldest key. */
  lemma EvictOldest<V>(s: Store<V>, capacity: nat)
    requires Coherent(s, capacity) && |s.order| == capacity > 0
    ensures Evict(s, capacity) == Store(s.entries - {s.order[0]}, s.order[1..])
    ensures Coherent(Evict(s, capacity), capacity)
  {
    CoherentSize(s, capacity);
    var popped := Store(s.entries - {s.order[0]}, s.order[1..]);
    assert ToSet(s.order) == {s.order[0]} + ToSet(s.order[1..]);
    assert popped.entries.Keys == s.entries.Keys - {s.order[0]};
    assert s.order[0] !in ToSet(s.order[1..]);
    CoherentSize(popped, capacity);
  }

  lemma {:induction false} AppendNew<V>(s: Store<V>, capacity: nat, key: string, value: V)
    requires Coherent(s, capacity) && |s.order| < capacity && key !in s.entries
    ensures Coherent(Store(s.entries[key := value], s.order + [key]), capacity)
  {
    assert key !in ToSet(s.order);
    assert ToSet(s.order + [key]) == ToSet(s.order) + {key};
    assert s.entries[key := value].Keys == s.entries.Keys + {key};
  }

  lemma {:induction false} PutStep<V>(s: Store<V>, capacity: nat, key: string, value: V)
    requires Coherent(s, capacity)
    ensures var r := PutStore(s, capacity, key, value);
      && Coherent(r, capacity)
      && r.order == OrderAfterPut(s.order, capacity, key)
      && (capacity > 0 ==> key in r.entries && r.entries[key] == value)
      && forall k :: k in r.entries && k != key ==> k in s.entries && r.entries[k] == s.entries[k]
  {
    assert key in s.entries <==> key in ToSet(s.order);
    if capacity == 0 {
    } else if key in s.entries {
      PromoteDistinct(s.order, key);
      assert s.entries[key := value].Keys == s.entries.Keys + {key};
    } else {
      CoherentSize(s, capacity);
      if |s.order| == capacity { EvictOldest(s, capacity); }
      AppendNew(Evict(s, capacity), capacity, key, value);
    }
  }

  lemma GetStep<V>(s: Store<V>, capacity: nat, key: string)
    requires Coherent(s, capacity)
    ensures Coherent(GetStore(s, capacity, key), capacity)
  {
    if key in s.entries {
      PromoteDistinct(s.order, key);
      assert ToSet(s.order) + {key} == ToSet(s.order);
    }
  }

  /** On every trace the sequential cache is coherent, bounded, and returns the last value put. */
  lemma {:induction false} SequentialRun<V>(capacity: nat, ops: seq<Op<V>>)
    ensures Coherent(RunOps(capacity, ops), capacity)
    ensures |RunOps(capacity, ops).entries| <= capacity
    ensures forall k :: k in RunOps(capacity, ops).entries ==> LastPut(ops, k) == Some(RunOps(capacity, ops).entries[k])
  {
    if ops != [] {
      var before := ops[..|ops| - 1];
      SequentialRun(capacity, before);
      var s := RunOps(capacity, before);
      match ops[|ops| - 1]
      case Get(key) => GetStep(s, capacity, key);
      case Put(key, value) => PutStep(s, capacity, key, value);
      case Clear =>
    }
    CoherentSize(RunOps(capacity, ops), capacity);
  }

  // ----- Refinement to the recency list ------------------------------------------------------

  /** Touching a key commutes with keeping the newest `n`. */
  lemma PromoteNewest(xs: seq<string>, n: nat, key: string)
    requires NoDuplicates(xs)
    ensures Newest(n, Promote(xs, key)) == OrderAfterPut(Newest(n, xs), n, key)
  {
    if |xs| > n {
      PromoteNewestOf(xs[..|xs| - n], xs[|xs| - n..], key);
      assert xs == xs[..|xs| - n] + xs[|xs| - n..];
    } else if key !in xs {
      assert Promote(xs, key) == xs + [key];
    }
  }

  lemma {:induction false} NewestOfAppend(older: seq<string>, recent: seq<string>, key: string)
    ensures Newest(|recent|, older + recent + [key]) == (recent + [key])[1..]
  {
    assert (older + recent + [key])[|older| + 1..] == (recent + [key])[1..];
  }

  lemma {:induction false} PromoteNewestOf(older: seq<string>, recent: seq<string>, key: string)
    requires older != [] && forall k :: k in recent ==> k !in older
    ensures Newest(|recent|, Promote(older + recent, key)) == OrderAfterPut(recent, |recent|, key)
  {
    RemoveFirstSplit(older, recent, key);
    if key in recent {
      var r := RemoveFirst(recent, key) + [key];
      assert Promote(older + recent, key) == older + r && (older + r)[|older|..] == r;
    } else {
      var front := if key in older then RemoveFirst(older, key) else older;
      assert Promote(older + recent, key) == front + recent + [key];
      NewestOfAppend(front, recent, key);
      if recent != [] { assert (recent + [key])[1..] == recent[1..] + [key]; }
    }
  }

  /** The queue holds the newest `capacity` keys of the touch log. */
  lemma {:induction false} QueueIsNewest<V>(capacity: nat, ops: seq<Op<V>>)
    ensures RunOps(capacity, ops).order == Newest(capacity, Recency(TouchLog(capacity, ops)))
  {
    if ops != [] {
      var before := ops[..|ops| - 1];
      QueueIsNewest(capacity, before);
      SequentialRun(capacity, before);
      QueueStep(RunOps(capacity, before), capacity, TouchLog(capacity, before), ops[|ops| - 1]);
    }
  }

  lemma {:induction false} TouchStep(log: seq<Touch>, capacity: nat, key: string)
    ensures Newest(capacity, Recency(log + [Touched(key)])) ==
      OrderAfterPut(Newest(capacity, Recency(log)), capacity, key)
  {
    assert (log + [Touched(key)])[..|log|] == log;
    RecencyDistinct(log);
    PromoteNewest(Recency(log), capacity, key);
  }

  lemma {:induction false} QueueStep<V>(s: Store<V>, capacity: nat, log: seq<Touch>, op: Op<V>)
    requires Coherent(s, capacity) && s.order == Newest(capacity, Recency(log))
    ensures Do(s, capacity, op).order == Newest(capacity, Recency(log + TouchOf(s, capacity, op)))
  {
    match op
    case Get(key) =>
      assert key in s.entries.Keys <==> key in ToSet(s.order);
      if Lookup(s, capacity, key).Some? {
        TouchStep(log, capacity, key);
      } else {
        assert log + TouchOf(s, capacity, op) == log;
      }
    case Put(key, value) =>
      PutStep(s, capacity, key, value);
      TouchStep(log, capacity, key);
    case Clear =>
      assert (log + [Reset])[|log|] == Reset;
  }

  /** The keys behind position `pos` of a recency list. */
  function Behind(xs: seq<string>, pos: int): set<string> {
    if 0 <= pos < |xs| then ToSet(xs[pos + 1..]) else {}
  }

  /** Promoting a key from in front of position `pos` moves that position one forward. */
  lemma {:induction false} PromoteFromFront(front: seq<string>, key: string, back: seq<string>, other: string)
    requires other in front
    ensures var r := Promote(front + [key] + back, other); var pos := |front| - 1;
      pos < |r| && r[pos] == key && Behind(r, pos) == ToSet(back) + {other}
  {
    assert front + [key] + back == front + ([key] + back);
    RemoveFirstSplit(front, [key] + back, other);
    var rest := RemoveFirst(front, other);
    assert Promote(front + [key] + back, other) == rest + [key] + (back + [other]);
    assert ToSet(back + [other]) == ToSet(back) + {other};
  }

  /** Promoting a key from behind it, or a new one, leaves the position alone. */
  lemma {:induction false} PromoteFromBehind(front: seq<string>, key: string, back: seq<string>, other: string)
    requires other !in front && other != key && NoDuplicates(back)
    ensures var r := Promote(front + [key] + back, other); var pos := |front|;
      pos < |r| && r[pos] == key && Behind(r, pos) == ToSet(back) + {other}
  {
    RemoveFirstSplit(front + [key], back, other);
    var r := Promote(front + [key] + back, other);
    assert r == front + [key] + Promote(back, other);
    PromoteDistinct(back, other);
  }

  /** Promoting another key leaves `key` in the list, with that key now behind it. */
  lemma {:induction false} PromoteBehind(xs: seq<string>, pos: nat, other: string) returns (pos': nat)
    requires NoDuplicates(xs) && pos < |xs| && xs[pos] != other
    ensures pos' < |Promote(xs, other)| && Promote(xs, other)[pos'] == xs[pos]
    ensures Behind(Promote(xs, other), pos') == Behind(xs, pos) + {other}
  {
    var front, key, back := xs[..pos], xs[pos], xs[pos + 1..];
    assert xs == front + [key] + back;
    if other in front {
      pos' := pos - 1;
      PromoteFromFront(front, key, back, other);
    } else {
      pos' := pos;
      PromoteFromBehind(front, key, back, other);
    }
  }

  /** The keys behind `key` in the recency list are the others touched since. */
  lemma {:induction false} BehindIsOthersSince(log: seq<Touch>, key: string) returns (pos: nat)
    ensures key in Recency(log) <==> OthersSince(log, key).Some?
    ensures key in Recency(log) ==>
      && pos < |Recency(log)| && Recency(log)[pos] == key
      && Behind(Recency(log), pos) == OthersSince(log, key).value
  {
    pos := 0;
    if log != [] && log[|log| - 1].Touched? {
      var before := log[..|log| - 1];
      var k := log[|log| - 1].key;
      if k == key {
        pos := |RemoveFirst(Recency(before), k)|;
        assert Recency(log)[pos + 1..] == [];
      } else {
        pos := BehindIsOthersSince(before, key);
        RecencyDistinct(before);
        PromoteDistinct(Recency(before), k);
        assert key in ToSet(Recency(log)) <==> key in ToSet(Recency(before));
        if key in Recency(before) {
          pos := PromoteBehind(Recency(before), pos, k);
        }
      }
    }
  }

  /** A lookup hits exactly when the key was touched since the last clear and fewer than
      `capacity` other keys were touched after it; the hit is the last value put. */
  lemma HitWindow<V>(capacity: nat, ops: seq<Op<V>>, key: string)
    ensures var others := OthersSince(TouchLog(capacity, ops), key);
      var found := Lookup(RunOps(capacity, ops), capacity, key);
      && (found.Some? <==> others.Some? && |others.value| < capacity)
      && (found.Some? ==> found == LastPut(ops, key))
  {
    var s := RunOps(capacity, ops);
    var log := TouchLog(capacity, ops);
    SequentialRun(capacity, ops);
    QueueIsNewest(capacity, ops);
    RecencyDistinct(log);
    var pos := BehindIsOthersSince(log, key);
    var all := Recency(log);
    assert key in s.entries <==> key in ToSet(s.order);
    if key in all {
      CardinalityOfDistinct(all[pos + 1..]);
      assert |OthersSince(log, key).value| == |all| - pos - 1;
      if pos >= |all| - capacity {
        assert all[pos] in s.order by {
          if |all| > capacity { assert s.order[pos - (|all| - capacity)] == all[pos]; }
        }
      }
    }
  }

  // ----- Inclusion: a larger cache remembers more ---------------------------------------------

  lemma {:induction false} RemoveFirstShrinks(a: seq<string>, key: string)
    ensures Subsequences.Subseq(RemoveFirst(a, key), a)
  {
    if a != [] {
      if a[0] == key {
        Subsequences.Reflexive(a[1..]);
      } else {
        RemoveFirstShrinks(a[1..], key);
      }
    }
  }

  lemma {:induction false} RemoveFirstBoth(a: seq<string>, b: seq<string>, key: string)
    requires Subsequences.Subseq(a, b)
    ensures Subsequences.Subseq(RemoveFirst(a, key), RemoveFirst(b, key))
    decreases |b|
  {
    if a != [] {
      if a[0] == b[0] && Subsequences.Subseq(a[1..], b[1..]) {
        if a[0] != key { RemoveFirstBoth(a[1..], b[1..], key); }
      } else if b[0] == key {
        RemoveFirstShrinks(a, key);
        Subsequences.Transitive(RemoveFirst(a, key), a, b[1..]);
      } else {
        RemoveFirstBoth(a, b[1..], key);
      }
    }
  }

  lemma PromoteBoth(a: seq<string>, b: seq<string>, key: string)
    requires Subsequences.Subseq(a, b)
    ensures Subsequences.Subseq(Promote(a, key), Promote(b, key))
  {
    RemoveFirstBoth(a, b, key);
    Subsequences.Reflexive([key]);
    Subsequences.Beside(RemoveFirst(a, key), RemoveFirst(b, key), [key], [key]);
  }

  /** The smaller queue is a subsequence of the larger, and equal to it until it first fills up. */
  ghost predicate Nested(small: seq<string>, big: seq<string>, c: nat) {
    Subsequences.Subseq(small, big) && (|small| < c ==> small == big)
  }

  /** A full small queue drops its oldest key; the big one promotes, appends, or drops as well. */
  lemma {:induction false} NestedWhenFull(small: seq<string>, big: seq<string>, key: string)
    requires small != [] && Subsequences.Subseq(small, big) && key !in small
    ensures key in big ==> Subsequences.Subseq(small[1..] + [key], Promote(big, key))
    ensures key !in big ==> Subsequences.Subseq(small[1..] + [key], big + [key])
    ensures key !in big ==> Subsequences.Subseq(small[1..] + [key], big[1..] + [key])
  {
    Subsequences.DropHead(small, big);
    if key in big {
      RemoveFirstBoth(small, big, key);
      var rest := RemoveFirst(big, key);
      Subsequences.DropHead(small, rest);
      Subsequences.Beside(small[1..], rest[1..], [key], [key]);
      assert Promote(big, key) == [rest[0]] + (rest[1..] + [key]);
    } else {
      Subsequences.Beside(small[1..], big[1..], [key], [key]);
      assert big + [key] == [big[0]] + (big[1..] + [key]);
    }
  }

  lemma {:induction false} NestedPut(small: seq<string>, big: seq<string>, c1: nat, c2: nat, key: string)
    requires c1 <= c2 && |small| <= c1 && |big| <= c2 && Nested(small, big, c1)
    ensures Nested(OrderAfterPut(small, c1, key), OrderAfterPut(big, c2, key), c1)
  {
    if c1 > 0 {
      if key in small {
        Subsequences.Members(small, big, key);
        PromoteBoth(small, big, key);
      } else if |small| == c1 {
        NestedWhenFull(small, big, key);
      } else {
        Subsequences.Reflexive(small + [key]);
      }
    }
  }

  lemma NestedGet(small: seq<string>, big: seq<string>, c: nat, key: string)
    requires Nested(small, big, c)
    ensures Nested(if key in small then Promote(small, key) else small,
                   if key in big then Promote(big, key) else big, c)
  {
    if key in small {
      Subsequences.Members(small, big, key);
      PromoteBoth(small, big, key);
    } else if key in big {
      RemoveFirstBoth(small, big, key);
      Subsequences.Beside(small, RemoveFirst(big, key), [], [key]);
      assert small + [] == small;
    }
  }

  lemma {:induction false} NestedRun<V>(c1: nat, c2: nat, ops: seq<Op<V>>)
    requires c1 <= c2
    ensures Nested(RunOps(c1, ops).order, RunOps(c2, ops).order, c1)
  {
    if ops != [] {
      var before := ops[..|ops| - 1];
      NestedRun(c1, c2, before);
      SequentialRun(c1, before);
      SequentialRun(c2, before);
      var s1, s2 := RunOps(c1, before), RunOps(c2, before);
      match ops[|ops| - 1]
      case Get(key) =>
        assert key in s1.entries.Keys <==> key in s1.order;
        assert key in s2.entries.Keys <==> key in s2.order;
        NestedGet(s1.order, s2.order, c1, key);
      case Put(key, value) =>
        PutStep(s1, c1, key, value);
        PutStep(s2, c2, key, value);
        NestedPut(s1.order, s2.order, c1, c2, key);
      case Clear =>
    }
  }

  /** On any trace of calls, a hit at one capacity is a hit, with the same value, at every larger one. */
  lemma LargerCacheHitsMore<V>(c1: nat, c2: nat, ops: seq<Op<V>>, key: string)
    requires c1 <= c2
    ensures Lookup(RunOps(c1, ops), c1, key).Some? ==>
      Lookup(RunOps(c2, ops), c2, key) == Lookup(RunOps(c1, ops), c1, key)
  {
    var s1, s2 := RunOps(c1, ops), RunOps(c2, ops);
    SequentialRun(c1, ops);
    SequentialRun(c2, ops);
    NestedRun(c1, c2, ops);
    if Lookup(s1, c1, key).Some? {
      assert key in ToSet(s1.order);
      Subsequences.Members(s1.order, s2.order, key);
      assert key in ToSet(s2.order);
    }
  }

  // ----- The caller: a get, and a put on a miss ------------------------------------------------

  // What the runner and the renderer would deliver for the statement, or None if one of them fails.
  datatype Query<+V> = Access(key: string, answer: Option<V>) | Flush

  /** `run_sql_unchecked` on a memo: look up; on a miss store the answer, if there is one. */
  function QueryStore<V>(s: Store<V>, capacity: nat, query: Query<V>): Store<V> {
    match query
    case Flush => EmptyStore()
    case Access(key, answer) =>
      if Lookup(s, capacity, key).Some? then GetStore(s, capacity, key)
      else if answer.None? then s
      else PutStore(s, capacity, key, answer.value)
  }

  function RunQueries<V>(capacity: nat, queries: seq<Query<V>>): Store<V> {
    if queries == [] then EmptyStore()
    else QueryStore(RunQueries(capacity, queries[..|queries| - 1]), capacity, queries[|queries| - 1])
  }

  lemma {:induction false} QueriesCoherent<V>(capacity: nat, queries: seq<Query<V>>)
    ensures Coherent(RunQueries(capacity, queries), capacity)
  {
    if queries != [] {
      var s := RunQueries(capacity, queries[..|queries| - 1]);
      QueriesCoherent(capacity, queries[..|queries| - 1]);
      match queries[|queries| - 1]
      case Flush =>
      case Access(key, answer) =>
        GetStep(s, capacity, key);
        if answer.Some? { PutStep(s, capacity, key, answer.value); }
    }
  }

  lemma NestedQuery<V>(small: Store<V>, big: Store<V>, c1: nat, c2: nat, query: Query<V>)
    requires c1 <= c2 && Coherent(small, c1) && Coherent(big, c2) && Nested(small.order, big.order, c1)
    ensures Nested(QueryStore(small, c1, query).order, QueryStore(big, c2, query).order, c1)
  {
    match query
    case Flush =>
    case Access(key, answer) =>
      if key in small.order { Subsequences.Members(small.order, big.order, key); }
      if answer.None? || key in small.order {
        NestedGet(small.order, big.order, c1, key);
      } else {
        PutStep(small, c1, key, answer.value);
        PutStep(big, c2, key, answer.value);
        NestedPut(small.order, big.order, c1, c2, key);
      }
  }

  lemma {:induction false} NestedQueries<V>(c1: nat, c2: nat, queries: seq<Query<V>>)
    requires c1 <= c2
    ensures Nested(RunQueries(c1, queries).order, RunQueries(c2, queries).order, c1)
  {
    if queries != [] {
      var before := queries[..|queries| - 1];
      NestedQueries(c1, c2, before);
      QueriesCoherent(c1, before);
      QueriesCoherent(c2, before);
      NestedQuery(RunQueries(c1, before), RunQueries(c2, before), c1, c2, queries[|queries| - 1]);
    }
  }

  /** Over any trace of `run_sql` calls, failing ones included, each of which stores only on its own
      miss: a hit at one capacity is a hit at every larger one. */
  lemma {:induction false} LargerMemoHitsMore<V>(c1: nat, c2: nat, queries: seq<Query<V>>, key: string)
    requires c1 <= c2
    ensures Lookup(RunQueries(c1, queries), c1, key).Some? ==> Lookup(RunQueries(c2, queries), c2, key).Some?
  {
    var s1, s2 := RunQueries(c1, queries), RunQueries(c2, queries);
    QueriesCoherent(c1, queries);
    QueriesCoherent(c2, queries);
    NestedQueries(c1, c2, queries);
    if key in s1.order { Subsequences.Members(s1.order, s2.order, key); }
  }

  // ----- Which answer a hit gives ----------------------------------------------------------------

  /** The position of the access that last called `put` for `key`; None if a flush came since. */
  function StoredAt<V>(capacity: nat, queries: seq<Query<V>>, key: string): (r: Option<nat>)
    ensures r.Some? ==> r.value < |queries| && queries[r.value].Access? && queries[r.value].answer.Some?
  {
    if queries == [] then None
    else
      var before, last := queries[..|queries| - 1], queries[|queries| - 1];
      if last.Flush? then None
      else if last.key == key && last.answer.Some? && Lookup(RunQueries(capacity, before), capacity, key).None?
      then Some(|queries| - 1)
      else StoredAt(capacity, before, key)
  }

  /** A hit gives the answer put there. */
  lemma {:induction false} HitIsStoredAnswer<V>(capacity: nat, queries: seq<Query<V>>, key: string)
    requires Lookup(RunQueries(capacity, queries), capacity, key).Some?
    ensures var i := StoredAt(capacity, queries, key);
      i.Some? && Lookup(RunQueries(capacity, queries), capacity, key) == queries[i.value].answer
  {
    var before, last := queries[..|queries| - 1], queries[|queries| - 1];
    var s := RunQueries(capacity, before);
    QueriesCoherent(capacity, before);
    if last.Access? && last.answer.Some? { PutStep(s, capacity, last.key, last.answer.value); }
    if Lookup(s, capacity, key).Some? { HitIsStoredAnswer(capacity, before, key); }
  }

  /** Where the larger memo hits, its answer is as old as the smaller one's or older: the smaller one
      calls `put` whenever the larger one does. */
  lemma {:induction false} LargerMemoIsNoFresher<V>(c1: nat, c2: nat, queries: seq<Query<V>>, key: string)
    requires c1 <= c2 && StoredAt(c2, queries, key).Some?
    ensures StoredAt(c1, queries, key).Some? && StoredAt(c2, queries, key).value <= StoredAt(c1, queries, key).value
  {
    var before := queries[..|queries| - 1];
    LargerMemoHitsMore(c1, c2, before, key);
    if StoredAt(c2, before, key).Some? { LargerMemoIsNoFresher(c1, c2, before, key); }
  }

  lemma {:induction false} FirstStored<V>(capacity: nat, key: string, v: V)
    requires capacity > 0
    ensures RunQueries(capacity, [Access(key, Some(v))]) == Store(map[key := v], [key])
  {
    assert [Access(key, Some(v))] == [] + [Access(key, Some(v))];
    assert EmptyStore<V>().entries[key := v] == map[key := v];
  }

  lemma {:induction false} SecondEvicts<V>(a: string, x: V, b: string, y: V)
    requires a != b
    ensures PutStore(Store(map[a := x], [a]), 1, b, y) == Store(map[b := y], [b])
  {
    var s := Store(map[a := x], [a]);
    assert s.entries.Keys == {a} == ToSet(s.order);
    EvictOldest(s, 1);
    assert s.entries - {a} == map[] && s.order[1..] == [];
    assert (s.entries - {a})[b := y] == map[b := y];
  }

  /** Older it can be: a memo of two still gives the first answer where a memo of one has a new one. */
  lemma {:induction false} LargerMemoCanBeOlder<V>(a: string, b: string, x: V, y: V, z: V)
    requires a != b
    ensures var queries := [Access(a, Some(x)), Access(b, Some(y)), Access(a, Some(z))];
      Lookup(RunQueries(1, queries), 1, a) == Some(z) && Lookup(RunQueries(2, queries), 2, a) == Some(x)
  {
    var q1 := [Access(a, Some(x))];
    var q2 := q1 + [Access(b, Some(y))];
    var queries := [Access(a, Some(x)), Access(b, Some(y)), Access(a, Some(z))];
    assert queries == q2 + [Access(a, Some(z))];
    FirstStored(1, a, x);
    SecondEvicts(a, x, b, y);
    SecondEvicts(b, y, a, z);
    FirstStored(2, a, x);
  }
}
