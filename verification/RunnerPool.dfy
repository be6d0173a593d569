/** The process-wide runner pool: look up, build outside the lock, then insert unless someone else
has.  A runner is a number, fresh for each build. */
module RunnerPools {
  import opened Prelude

  type Runner = nat
  type Pool = map<string, Runner>

  /** The entry of the second critical section: the runner stored already, or the one just built. */
  function EntryOr(pool: Pool, url: string, built: Runner): Runner {
    if url in pool then pool[url] else built
  }

  class RunnerPool {
    var pool: Pool

    constructor ()
      ensures pool == map[]
    {
      pool := map[];
    }

    /** First critical section. */
    method Lookup(url: string) returns (r: Option<Runner>)
      ensures r == if url in pool then Some(pool[url]) else None
    {
      r := if url in pool then Some(pool[url]) else None;
    }

    /** Second critical section. */
    method InsertOrGet(url: string, built: Runner) returns (r: Runner)
      modifies this
      ensures r == EntryOr(old(pool), url, built)
      ensures pool == old(pool)[url := r]
    {
      if url !in pool {
        pool := pool[url := built];
      }
      r := pool[url];
    }

    method ClearPoolCache()
      modifies this
      ensures pool == map[]
    {
      pool := map[];
    }

    method PoolSize() returns (n: nat)
      ensures n == |pool|
    {
      n := |pool|;
    }

    /** `shared_runner` with no other caller in between; `build` is what connecting would deliver. */
    method SharedRunner<E>(url: string, build: Result<Runner, E>) returns (r: Result<Runner, E>)
      modifies this
      ensures r == if url in old(pool) then Ok(old(pool)[url]) else build
      ensures pool == if r.Ok? then old(pool)[url := r.value] else old(pool)
    {
      var cached := Lookup(url);
      if cached.Some? {
        return Ok(cached.value);
      }
      if build.Err? {
        return build;
      }
      var entry := InsertOrGet(url, build.value);
      return Ok(entry);
    }
  }

  // ----- Racing callers --------------------------------------------------------------------------

  datatype Caller = Idle | Connecting(url: string) | Built(url: string, runner: Runner)

  // `published` records every runner that was ever inserted; it is read by the statements only.
  datatype State = State(pool: Pool, callers: map<nat, Caller>, next: Runner, published: set<Runner>)

  datatype Event =
    | Enter(caller: nat, url: string)
    | Connect(caller: nat)
    | ConnectFailed(caller: nat)
    | Insert(caller: nat)
    | Clear

  const START := State(map[], map[], 0, {})

  function At(s: State, caller: nat): Caller {
    if caller in s.callers then s.callers[caller] else Idle
  }

  predicate Enabled(s: State, event: Event) {
    match event
    case Enter(c, _) => At(s, c).Idle?
    case Connect(c) => At(s, c).Connecting?
    case ConnectFailed(c) => At(s, c).Connecting?
    case Insert(c) => At(s, c).Built?
    case Clear => true
  }

  function Step(s: State, event: Event): State {
    if !Enabled(s, event) then s
    else match event
      case Enter(c, url) => if url in s.pool then s else s.(callers := s.callers[c := Connecting(url)])
      case Connect(c) => s.(callers := s.callers[c := Built(At(s, c).url, s.next)], next := s.next + 1)
      case ConnectFailed(c) => s.(callers := s.callers[c := Idle])
      case Insert(c) =>
        var (url, built) := (At(s, c).url, At(s, c).runner);
        s.(pool := s.pool[url := EntryOr(s.pool, url, built)], callers := s.callers[c := Idle],
           published := s.published + {EntryOr(s.pool, url, built)})
      case Clear => s.(pool := map[])
  }

  /** What the step hands back to its caller: the URL asked for and the runner. */
  function Returned(s: State, event: Event): Option<(string, Runner)> {
    if !Enabled(s, event) then None
    else match event
      case Enter(_, url) => if url in s.pool then Some((url, s.pool[url])) else None
      case Insert(c) => Some((At(s, c).url, EntryOr(s.pool, At(s, c).url, At(s, c).runner)))
      case Connect(_) => None
      case ConnectFailed(_) => None
      case Clear => None
  }

  /** The state before event `n` of a run. */
  function Before(events: seq<Event>, n: nat): State
    requires n <= |events|
  {
    if n == 0 then START else Step(Before(events, n - 1), events[n - 1])
  }

  // ----- One runner for everybody ------------------------------------------------------------------

  /** A stored runner is only removed, and never replaced, by a clear. */
  lemma OnlyClearRemoves(s: State, event: Event, url: string)
    requires url in s.pool && !event.Clear?
    ensures url in Step(s, event).pool && Step(s, event).pool[url] == s.pool[url]
  {
  }

  lemma {:induction false} StaysStored(events: seq<Event>, i: nat, j: nat, url: string)
    requires i <= j <= |events| && url in Before(events, i).pool
    requires forall k :: i <= k < j ==> !events[k].Clear?
    ensures url in Before(events, j).pool && Before(events, j).pool[url] == Before(events, i).pool[url]
    decreases j - i
  {
    if i < j {
      StaysStored(events, i, j - 1, url);
      OnlyClearRemoves(Before(events, j - 1), events[j - 1], url);
    }
  }

  /** Over every interleaving: two calls whose lookup hit or insert have no clear between them are
      handed the same runner for the same URL. */
  lemma {:induction false} SameRunnerUnlessCleared(events: seq<Event>, i: nat, j: nat, url: string, a: Runner,
                                                   b: Runner)
    requires i < j < |events|
    requires Returned(Before(events, i), events[i]) == Some((url, a))
    requires Returned(Before(events, j), events[j]) == Some((url, b))
    requires forall k :: i < k < j ==> !events[k].Clear?
    ensures a == b
  {
    StaysStored(events, i + 1, j, url);
  }

  // ----- Each URL its own runner -------------------------------------------------------------------

  /** The URL that the caller's last accepted `Enter` named. */
  function Asked(events: seq<Event>, n: nat, caller: nat): Option<string>
    requires n <= |events|
  {
    if n == 0 then None
    else match events[n - 1]
      case Enter(c, url) =>
        if c == caller && Enabled(Before(events, n - 1), events[n - 1]) then Some(url) else Asked(events, n - 1, caller)
      case Connect(_) => Asked(events, n - 1, caller)
      case ConnectFailed(_) => Asked(events, n - 1, caller)
      case Insert(_) => Asked(events, n - 1, caller)
      case Clear => Asked(events, n - 1, caller)
  }

  lemma {:induction false} WaitsForItsOwn(events: seq<Event>, n: nat, caller: nat)
    requires n <= |events| && !At(Before(events, n), caller).Idle?
    ensures Asked(events, n, caller) == Some(At(Before(events, n), caller).url)
  {
    if n > 0 && !At(Before(events, n - 1), caller).Idle? { WaitsForItsOwn(events, n - 1, caller); }
  }

  /** The caller an event belongs to. */
  function CallerOf(event: Event): Option<nat> {
    match event
    case Enter(c, _) => Some(c)
    case Connect(c) => Some(c)
    case ConnectFailed(c) => Some(c)
    case Insert(c) => Some(c)
    case Clear => None
  }

  /** Over every interleaving, what a caller is handed is for the URL it asked for. */
  lemma {:induction false} ReturnedForTheUrlAsked(events: seq<Event>, n: nat, url: string, r: Runner)
    requires n < |events| && Returned(Before(events, n), events[n]) == Some((url, r))
    ensures CallerOf(events[n]).Some? && Asked(events, n + 1, CallerOf(events[n]).value) == Some(url)
  {
    if events[n].Insert? { WaitsForItsOwn(events, n, events[n].caller); }
  }

  /** The URL each runner was connected to. */
  function Homes(events: seq<Event>, n: nat): map<Runner, string>
    requires n <= |events|
  {
    if n == 0 then map[]
    else
      var s, event := Before(events, n - 1), events[n - 1];
      if event.Connect? && Enabled(s, event) then Homes(events, n - 1)[s.next := At(s, event.caller).url]
      else Homes(events, n - 1)
  }

  /** Runners are numbered as they are built, and wait and are stored under the URL they were built for. */
  ghost predicate AtHome(s: State, homes: map<Runner, string>) {
    && (forall r :: r in homes <==> 0 <= r < s.next)
    && (forall c :: c in s.callers && s.callers[c].Built?
          ==> s.callers[c].runner in homes && homes[s.callers[c].runner] == s.callers[c].url)
    && (forall url :: url in s.pool ==> s.pool[url] in homes && homes[s.pool[url]] == url)
  }

  lemma {:induction false} RunAtHome(events: seq<Event>, n: nat)
    requires n <= |events|
    ensures AtHome(Before(events, n), Homes(events, n))
  {
    if n > 0 { RunAtHome(events, n - 1); }
  }

  lemma {:induction false} HomesGrow(events: seq<Event>, i: nat, j: nat, r: Runner)
    requires i <= j <= |events| && r in Homes(events, i)
    ensures r in Homes(events, j) && Homes(events, j)[r] == Homes(events, i)[r]
    decreases j - i
  {
    if i < j {
      HomesGrow(events, i, j - 1, r);
      RunAtHome(events, j - 1);
    }
  }

  lemma ReturnedAtHome(events: seq<Event>, n: nat, url: string, r: Runner)
    requires n < |events| && Returned(Before(events, n), events[n]) == Some((url, r))
    ensures r in Homes(events, n) && Homes(events, n)[r] == url
  {
    RunAtHome(events, n);
  }

  /** Over every interleaving, a runner handed out for one URL was connected to that URL and is handed
      out for no other. */
  lemma {:induction false} EachUrlItsOwnRunner(events: seq<Event>, i: nat, j: nat, url: string, a: Runner,
                                               other: string, b: Runner)
    requires i < |events| && j < |events|
    requires Returned(Before(events, i), events[i]) == Some((url, a))
    requires Returned(Before(events, j), events[j]) == Some((other, b))
    ensures a in Homes(events, |events|) && Homes(events, |events|)[a] == url
    ensures url != other ==> a != b
  {
    ReturnedAtHome(events, i, url, a);
    ReturnedAtHome(events, j, other, b);
    HomesGrow(events, i, |events|, a);
    HomesGrow(events, j, |events|, b);
  }

  // ----- The course of a call ----------------------------------------------------------------------

  /** A step moves only its own caller, and only an insert or a clear touches the pool.  Whoever is
      handed a runner or fails to connect is done and may call again; whoever misses is not. */
  lemma StepOfACall(s: State, event: Event, caller: nat)
    requires Enabled(s, event)
    ensures CallerOf(event) != Some(caller) ==> At(Step(s, event), caller) == At(s, caller)
    ensures !event.Insert? && !event.Clear? ==> Step(s, event).pool == s.pool
    ensures CallerOf(event) == Some(caller) ==>
      (At(Step(s, event), caller).Idle? <==> Returned(s, event).Some? || event.ConnectFailed?)
    ensures At(Step(s, event), caller).Idle? ==> forall url :: Enabled(Step(s, event), Enter(caller, url))
  {
  }

  /** Over every interleaving, a caller connects only for a call that found the pool without its URL. */
  lemma {:induction false} ConnectsOnlyAfterMiss(events: seq<Event>, n: nat, caller: nat) returns (k: nat)
    requires n <= |events| && At(Before(events, n), caller).Connecting?
    ensures k < n && events[k] == Enter(caller, At(Before(events, n), caller).url)
    ensures At(Before(events, k), caller).Idle? && At(Before(events, n), caller).url !in Before(events, k).pool
    ensures forall m :: k < m < n && CallerOf(events[m]) == Some(caller) ==> !Enabled(Before(events, m), events[m])
  {
    if At(Before(events, n - 1), caller).Connecting? {
      k := ConnectsOnlyAfterMiss(events, n - 1, caller);
    } else {
      k := n - 1;
    }
  }

  // ----- Losers ------------------------------------------------------------------------------------

  /** Runners are built once and held by one caller at a time, and a held one was never stored. */
  ghost predicate Tidy(s: State) {
    && (forall url :: url in s.pool ==> s.pool[url] in s.published)
    && (forall r :: r in s.published ==> r < s.next)
    && (forall c :: c in s.callers && s.callers[c].Built?
          ==> s.callers[c].runner < s.next && s.callers[c].runner !in s.published)
    && (forall c, d :: c in s.callers && d in s.callers && c != d && s.callers[c].Built? && s.callers[d].Built?
          ==> s.callers[c].runner != s.callers[d].runner)
  }

  lemma {:induction false} RunTidy(events: seq<Event>, n: nat)
    requires n <= |events|
    ensures Tidy(Before(events, n))
  {
    if n > 0 {
      RunTidy(events, n - 1);
    }
  }

  /** A runner that no one holds and that was never stored. */
  ghost predicate Lost(s: State, r: Runner) {
    r < s.next && r !in s.published && forall c :: c in s.callers && s.callers[c].Built? ==> s.callers[c].runner != r
  }

  lemma {:induction false} StaysLost(events: seq<Event>, i: nat, j: nat, r: Runner)
    requires i <= j <= |events| && Lost(Before(events, i), r)
    ensures Lost(Before(events, j), r)
    decreases j - i
  {
    if i < j {
      StaysLost(events, i, j - 1, r);
      RunTidy(events, j - 1);
    }
  }

  lemma {:induction false} PublishedGrows(events: seq<Event>, i: nat, j: nat)
    requires i <= j <= |events|
    ensures Before(events, i).published <= Before(events, j).published
    decreases j - i
  {
    if i < j { PublishedGrows(events, i, j - 1); }
  }

  /** Whatever is returned has been published. */
  lemma ReturnedIsPublished(events: seq<Event>, n: nat, url: string, r: Runner)
    requires n < |events| && Returned(Before(events, n), events[n]) == Some((url, r))
    ensures r in Before(events, n + 1).published
  {
    RunTidy(events, n);
  }

  /** A caller that finds the URL taken when it comes to insert has built in vain: its runner is never
      returned to anyone, before or after, over the whole run. */
  lemma LosersAreNeverReturned(events: seq<Event>, i: nat, j: nat, url: string, r: Runner)
    requires i < |events| && j < |events|
    requires events[i].Insert? && At(Before(events, i), events[i].caller).Built?
    requires At(Before(events, i), events[i].caller).url in Before(events, i).pool
    requires Returned(Before(events, j), events[j]) == Some((url, r))
    ensures r != At(Before(events, i), events[i].caller).runner
  {
    var s := Before(events, i);
    var mine := At(s, events[i].caller).runner;
    RunTidy(events, i);
    ReturnedIsPublished(events, j, url, r);
    if j < i {
      PublishedGrows(events, j + 1, i);
    } else {
      assert Before(events, i + 1) == Step(s, events[i]);
      assert Lost(Before(events, i + 1), mine);
      StaysLost(events, i + 1, j + 1, mine);
    }
  }

  // ----- Clears ------------------------------------------------------------------------------------

  /** A runner that was stored once and is stored no longer. */
  ghost predicate Gone(s: State, r: Runner) {
    r in s.published && forall url :: url in s.pool ==> s.pool[url] != r
  }

  lemma {:induction false} StaysGone(events: seq<Event>, i: nat, j: nat, r: Runner)
    requires i <= j <= |events| && Gone(Before(events, i), r)
    ensures Gone(Before(events, j), r)
    decreases j - i
  {
    if i < j {
      StaysGone(events, i, j - 1, r);
      RunTidy(events, j - 1);
    }
  }

  /** Every clear separates: what was returned before it is never returned after it. */
  lemma {:induction false} ClearSeparatesCallers(events: seq<Event>, i: nat, k: nat, j: nat, url: string, a: Runner,
                                                 other: string, b: Runner)
    requires i < k < j < |events| && events[k].Clear?
    requires Returned(Before(events, i), events[i]) == Some((url, a))
    requires Returned(Before(events, j), events[j]) == Some((other, b))
    ensures a != b
  {
    ReturnedIsPublished(events, i, url, a);
    PublishedGrows(events, i + 1, k);
    assert Before(events, k + 1) == Step(Before(events, k), events[k]);
    assert Gone(Before(events, k + 1), a);
    StaysGone(events, k + 1, j, a);
    RunTidy(events, j);
  }

  /** Over every interleaving, two calls for one URL are handed the same runner if and only if no clear
      falls between their lookup hit or insert points. */
  lemma {:induction false} SameRunnerExactly(events: seq<Event>, i: nat, j: nat, url: string, a: Runner, b: Runner)
    requires i < j < |events|
    requires Returned(Before(events, i), events[i]) == Some((url, a))
    requires Returned(Before(events, j), events[j]) == Some((url, b))
    ensures a == b <==> forall k :: i < k < j ==> !events[k].Clear?
  {
    if k :| i < k < j && events[k].Clear? {
      ClearSeparatesCallers(events, i, k, j, url, a, url, b);
    } else {
      SameRunnerUnlessCleared(events, i, j, url, a, b);
    }
  }
}
