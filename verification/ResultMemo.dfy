/** The process-local LRU result cache: a map of entries and a queue of keys in access order,
each behind its own mutex.

`Store` is the pair of values the two mutexes guard.  The functions below say what each critical
section does to it, from any state, consistent or not; the class performs them in place.
*/
module ResultMemo {
  import opened Prelude

  datatype CachedResult = CachedResult(rendered: string, tokens: nat)

  datatype Store<+V> = Store(entries: map<string, V>, order: seq<string>)

  function EmptyStore<V>(): Store<V> {
    Store(map[], [])
  }

  /** Cache keys: the fingerprint, a colon, the statement. */
  function Key(fingerprint: string, sql: string): string {
    fingerprint + ":" + sql
  }

  /** The queue without the first occurrence of `key`. */
  function RemoveFirst(order: seq<string>, key: string): (r: seq<string>)
    ensures key !in order ==> r == order
    ensures key in order ==> |r| == |order| - 1
  {
    if order == [] then []
    else if order[0] == key then order[1..]
    else [order[0]] + RemoveFirst(order[1..], key)
  }

  /** Second critical section of `get`, and the queue half of a replacing `put`. */
  function Promote(order: seq<string>, key: string): seq<string> {
    RemoveFirst(order, key) + [key]
  }

  /** The eviction loop: pop the oldest key until there is room or the queue is empty. */
  function Evict<V>(s: Store<V>, capacity: nat): Store<V>
    decreases |s.order|
  {
    if |s.entries| < capacity || s.order == [] then s
    else Evict(Store(s.entries - {s.order[0]}, s.order[1..]), capacity)
  }

  function PutStore<V>(s: Store<V>, capacity: nat, key: string, value: V): Store<V> {
    if capacity == 0 then s
    else if key in s.entries then Store(s.entries[key := value], Promote(s.order, key))
    else
      var room := Evict(s, capacity);
      Store(room.entries[key := value], room.order + [key])
  }

  function GetStore<V>(s: Store<V>, capacity: nat, key: string): Store<V> {
    if capacity == 0 || key !in s.entries then s else s.(order := Promote(s.order, key))
  }

  function Lookup<V>(s: Store<V>, capacity: nat, key: string): Option<V> {
    if capacity == 0 || key !in s.entries then None else Some(s.entries[key])
  }

  lemma {:induction false} RemoveFirstAt(order: seq<string>, key: string, pos: nat)
    requires pos < |order| && order[pos] == key && key !in order[..pos]
    ensures RemoveFirst(order, key) == order[..pos] + order[pos + 1..]
  {
    if pos > 0 {
      assert order[..pos][0] == order[0];
      assert order[1..][..pos - 1] == order[..pos][1..];
      RemoveFirstAt(order[1..], key, pos - 1);
      assert order[..pos] + order[pos + 1..] == [order[0]] + (order[1..][..pos - 1] + order[1..][pos..]);
    }
  }

  class ResultCache {
    const capacity: nat
    var entries: map<string, CachedResult>
    var order: seq<string>

    constructor (capacity: nat)
      ensures this.capacity == capacity
      ensures View() == EmptyStore()
    {
      this.capacity := capacity;
      entries := map[];
      order := [];
    }

    function View(): Store<CachedResult>
      reads this
    {
      Store(entries, order)
    }

    /** Move `key` to the back of the queue, dropping its first occurrence if it has one. */
    method PromoteKey(key: string)
      modifies this`order
      ensures order == Promote(old(order), key)
    {
      var pos := 0;
      while pos < |order| && order[pos] != key
        invariant 0 <= pos <= |order|
        invariant key !in order[..pos]
        invariant order == old(order)
      {
        pos := pos + 1;
      }
      if pos < |order| {
        RemoveFirstAt(order, key, pos);
        order := order[..pos] + order[pos + 1..];
      }
      order := order + [key];
    }

    method Get(fingerprint: string, sql: string) returns (r: Option<CachedResult>)
      modifies this
      ensures r == Lookup(old(View()), capacity, Key(fingerprint, sql))
      ensures View() == GetStore(old(View()), capacity, Key(fingerprint, sql))
    {
      if capacity == 0 {
        return None;
      }
      var key := Key(fingerprint, sql);
      if key !in entries {
        return None;
      }
      var value := entries[key];
      PromoteKey(key);
      return Some(value);
    }

    method Put(fingerprint: string, sql: string, value: CachedResult)
      modifies this
      ensures View() == PutStore(old(View()), capacity, Key(fingerprint, sql), value)
    {
      if capacity == 0 {
        return;
      }
      var key := Key(fingerprint, sql);
      if key in entries {
        entries := entries[key := value];
        PromoteKey(key);
        return;
      }
      while |entries| >= capacity
        invariant Evict(View(), capacity) == Evict(old(View()), capacity)
        decreases |order|
      {
        if order == [] {
          break;
        }
        var oldest := order[0];
        order := order[1..];
        entries := entries - {oldest};
      }
      entries := entries[key := value];
      order := order + [key];
    }

    method Clear()
      modifies this
      ensures View() == EmptyStore()
    {
      entries := map[];
      order := [];
    }

    method Size() returns (n: nat)
      ensures n == |View().entries|
    {
      n := |entries|;
    }
  }
}
