/** What holds over every run of the schema cache. */
module SchemaCacheRuns {
  import opened Prelude
  import opened StableSort
  import opened SchemaModel
  import opened Fingerprints
  import opened ResultMemo
  import opened SchemaCaching

  datatype Op =
    | Open(live: Live, urlHash: string, ttl: nat, memoCapacity: Option<nat>, now: nat, w: WriteOutcome)
    | Refresh(live: Live, now: nat, w: WriteOutcome)
    | RefreshTable(live: Live, name: string, now: nat, w: WriteOutcome)
    | Invalidate(name: string, now: nat, w: WriteOutcome)
    | RunSql(sql: string, answer: Result<CachedResult, Error>)

  // A process holds at most one open cache; the disk outlives it.
  datatype World = Closed(disk: Disk) | Active(cache: Cache)

  function DiskOf(world: World): Disk {
    match world case Closed(d) => d case Active(c) => c.disk
  }

  function Next(world: World, op: Op, h: string -> string): World {
    if op.Open? then
      var (disk, r) := OpenCache(DiskOf(world), op.live, op.urlHash, op.ttl, op.memoCapacity, op.now, op.w, h);
      if r.Ok? then Active(r.value) else Closed(disk)
    else if world.Closed? then world
    else match op
      case Refresh(live, now, w) => Active(RefreshCache(world.cache, live, now, w, h).0)
      case RefreshTable(live, name, now, w) => Active(RefreshTableCache(world.cache, live, name, now, w, h).0)
      case Invalidate(name, now, w) => Active(InvalidateCache(world.cache, name, now, w, h).0)
      case RunSql(sql, answer) => Active(RunSqlCache(world.cache, sql, answer).0)
  }

  /** From an empty cache directory. */
  function Run(ops: seq<Op>, h: string -> string): World {
    if ops == [] then Closed(Missing) else Next(Run(ops[..|ops| - 1], h), ops[|ops| - 1], h)
  }

  // ----- The invariant -------------------------------------------------------------------------

  ghost predicate TableHashed(t: Table) {
    t.ddlHash.Some? && WellFormedHash(t.ddlHash.value)
  }

  ghost predicate DatabaseOk(db: Database, h: string -> string) {
    && Sorted(db.tables, NameLe)
    && db.fingerprint == Fingerprint(db.tables, h)
    && forall i :: 0 <= i < |db.tables| ==> TableHashed(db.tables[i])
  }

  ghost predicate WorldOk(world: World, h: string -> string) {
    && (DiskOf(world).Stored? ==> DatabaseOk(DiskOf(world).envelope.database, h))
    && (world.Active? ==> DatabaseOk(world.cache.database, h))
  }

  lemma {:induction false} FreshTablesHashed(live: Live, refs: seq<TableRef>, h: string -> string)
    requires IdealDigest(h) && FreshTables(live, refs, h).Ok?
    ensures var ts := FreshTables(live, refs, h).value;
      |ts| == |refs| && forall i :: 0 <= i < |ts| ==> TableHashed(ts[i]) && Ok(ts[i]) == FreshTable(live, refs[i], h)
  {
    if refs != [] {
      FreshTablesHashed(live, refs[..|refs| - 1], h);
    }
  }

  lemma SortKeepsHashed(ts: seq<Table>)
    requires forall i :: 0 <= i < |ts| ==> TableHashed(ts[i])
    ensures Sorted(Sort(ts, NameLe), NameLe)
    ensures forall i :: 0 <= i < |ts| ==> |Sort(ts, NameLe)| == |ts| && TableHashed(Sort(ts, NameLe)[i])
  {
    NameLeIsPreorder();
    SortIsSorted(ts, NameLe);
    SortIsPermutation(ts, NameLe);
    forall i | 0 <= i < |ts| ensures TableHashed(Sort(ts, NameLe)[i]) {
      assert Sort(ts, NameLe)[i] in ToSet(ts);
    }
  }

  lemma IntrospectedOk(live: Live, urlHash: string, h: string -> string)
    requires IdealDigest(h) && IntrospectAll(live, urlHash, h).Ok?
    ensures DatabaseOk(IntrospectAll(live, urlHash, h).value, h)
  {
    FreshTablesHashed(live, live.names.value, h);
    SortKeepsHashed(FreshTables(live, live.names.value, h).value);
  }

  /** Replacing a table by one with the same name re-sorts to the same positions. */
  lemma SwapInPlace(db: Database, i: nat, t: Table, h: string -> string)
    requires i < |db.tables| && Sorted(db.tables, NameLe) && t.QualifiedName() == db.tables[i].QualifiedName()
    ensures WithTable(db, i, t, h).tables == db.tables[i := t]
  {
    var swapped := db.tables[i := t];
    forall a, b | 0 <= a < b < |swapped| ensures NameLe(swapped[a], swapped[b]) {
      assert NameLe(db.tables[a], db.tables[b]);
    }
    SortOfSorted(swapped, NameLe);
  }

  lemma {:induction false} RefreshedTableOk(db: Database, i: nat, live: Live, h: string -> string)
    requires IdealDigest(h) && DatabaseOk(db, h) && i < |db.tables|
    requires FreshTable(live, RefOf(db.tables[i]), h).Ok?
    ensures var t := FreshTable(live, RefOf(db.tables[i]), h).value;
      WithTable(db, i, t, h).tables == db.tables[i := t] && DatabaseOk(WithTable(db, i, t, h), h)
  {
    var t := FreshTable(live, RefOf(db.tables[i]), h).value;
    assert t.QualifiedName() == db.tables[i].QualifiedName();
    SwapInPlace(db, i, t, h);
    SortKeepsHashed(db.tables[i := t]);
  }

  lemma InvalidatedOk(db: Database, i: nat, h: string -> string)
    requires DatabaseOk(db, h) && i < |db.tables|
    ensures var tables := db.tables[i := db.tables[i].(ddlHash := Some(INVALIDATED_DDL_HASH))];
      DatabaseOk(db.(tables := tables, fingerprint := Fingerprint(tables, h)), h)
  {
    var t := db.tables[i].(ddlHash := Some(INVALIDATED_DDL_HASH));
    var tables := db.tables[i := t];
    assert t.QualifiedName() == db.tables[i].QualifiedName();
    forall a, b | 0 <= a < b < |tables| ensures NameLe(tables[a], tables[b]) {
      assert NameLe(db.tables[a], db.tables[b]);
    }
    assert INVALIDATED_DDL_HASH[0] == '_' && TableHashed(t);
  }

  ghost predicate CacheOk(c: Cache, h: string -> string) {
    DatabaseOk(c.database, h) && (c.disk.Stored? ==> DatabaseOk(c.disk.envelope.database, h))
  }

  lemma PersistOk(c: Cache, db: Database, now: nat, w: WriteOutcome, h: string -> string)
    requires CacheOk(c, h) && DatabaseOk(db, h)
    ensures CacheOk(Persist(c, db, now, w), h)
  {
  }

  lemma {:induction false} RefreshOk(c: Cache, live: Live, now: nat, w: WriteOutcome, h: string -> string)
    requires IdealDigest(h) && CacheOk(c, h)
    ensures CacheOk(RefreshCache(c, live, now, w, h).0, h)
  {
    var r := IntrospectAll(live, c.database.urlHash, h);
    if r.Ok? {
      IntrospectedOk(live, c.database.urlHash, h);
      PersistOk(c, r.value, now, w, h);
    }
  }

  lemma RefreshTableOk(c: Cache, live: Live, name: string, now: nat, w: WriteOutcome, h: string -> string)
    requires IdealDigest(h) && CacheOk(c, h)
    ensures CacheOk(RefreshTableCache(c, live, name, now, w, h).0, h)
  {
    var db := c.database;
    var i := FindTable(db.tables, name);
    if i.Some? {
      var t := FreshTable(live, RefOf(db.tables[i.value]), h);
      if t.Ok? {
        RefreshedTableOk(db, i.value, live, h);
        PersistOk(c, WithTable(db, i.value, t.value, h), now, w, h);
      }
    }
  }

  lemma InvalidateOk(c: Cache, name: string, now: nat, w: WriteOutcome, h: string -> string)
    requires CacheOk(c, h)
    ensures CacheOk(InvalidateCache(c, name, now, w, h).0, h)
  {
    var i := FindTable(c.database.tables, name);
    if i.Some? { InvalidatedOk(c.database, i.value, h); }
  }

  lemma {:induction false} OpenCacheOk(disk: Disk, live: Live, urlHash: string, ttl: nat, memoCapacity: Option<nat>,
                                       now: nat, w: WriteOutcome, h: string -> string)
    requires IdealDigest(h) && (disk.Stored? ==> DatabaseOk(disk.envelope.database, h))
    ensures var (after, r) := OpenCache(disk, live, urlHash, ttl, memoCapacity, now, w, h);
      (after.Stored? ==> DatabaseOk(after.envelope.database, h)) && (r.Ok? ==> CacheOk(r.value, h))
  {
    if IntrospectAll(live, urlHash, h).Ok? { IntrospectedOk(live, urlHash, h); }
  }

  lemma {:induction false} OpenOk(world: World, op: Op, h: string -> string)
    requires IdealDigest(h) && WorldOk(world, h) && op.Open?
    ensures WorldOk(Next(world, op, h), h)
  {
    OpenCacheOk(DiskOf(world), op.live, op.urlHash, op.ttl, op.memoCapacity, op.now, op.w, h);
  }

  lemma {:induction false} NextKeepsOk(world: World, op: Op, h: string -> string)
    requires IdealDigest(h) && WorldOk(world, h)
    ensures WorldOk(Next(world, op, h), h)
  {
    match op
    case Open(_, _, _, _, _, _) => OpenOk(world, op, h);
    case Refresh(live, now, w) =>
      if world.Active? { RefreshOk(world.cache, live, now, w, h); }
    case RefreshTable(live, name, now, w) =>
      if world.Active? { RefreshTableOk(world.cache, live, name, now, w, h); }
    case Invalidate(name, now, w) =>
      if world.Active? { InvalidateOk(world.cache, name, now, w, h); }
    case RunSql(_, _) =>
  }

  /** Over every run: tables sorted by name, the fingerprint that of the tables, and every DDL hash
      present, in memory and on disk alike, whichever writes failed. */
  lemma {:induction false} RunKeepsOk(ops: seq<Op>, h: string -> string)
    requires IdealDigest(h)
    ensures WorldOk(Run(ops, h), h)
  {
    if ops != [] {
      RunKeepsOk(ops[..|ops| - 1], h);
      NextKeepsOk(Run(ops[..|ops| - 1], h), ops[|ops| - 1], h);
    }
  }

  // ----- Disk and memory -------------------------------------------------------------------------

  /** Whether the operation reports success. */
  predicate Succeeds(world: World, op: Op, h: string -> string) {
    match op
    case Open(live, urlHash, ttl, memoCapacity, now, w) =>
      OpenCache(DiskOf(world), live, urlHash, ttl, memoCapacity, now, w, h).1.Ok?
    case Refresh(live, now, w) => world.Active? && RefreshCache(world.cache, live, now, w, h).1.Ok?
    case RefreshTable(live, name, now, w) =>
      world.Active? && RefreshTableCache(world.cache, live, name, now, w, h).1.Ok?
    case Invalidate(name, now, w) => world.Active? && InvalidateCache(world.cache, name, now, w, h).1.Ok?
    case RunSql(sql, answer) => world.Active? && RunSqlCache(world.cache, sql, answer).1.Ok?
  }

  ghost predicate InSync(world: World) {
    world.Active? && world.cache.disk.Stored? && world.cache.disk.envelope.database == world.cache.database
  }

  /** A successful operation leaves the disk equal to memory, whatever earlier writes failed. */
  lemma SuccessLeavesDiskEqual(world: World, op: Op, h: string -> string)
    requires Succeeds(world, op, h) && !op.RunSql?
    ensures InSync(Next(world, op, h))
  {
    match op
    case Open(_, _, _, _, _, _) =>
    case Refresh(_, _, _) =>
    case RefreshTable(_, _, _, _) =>
    case Invalidate(_, _, _) =>
  }

  /** Only a failed write takes the disk out of step: not a failed introspection, not an unknown name. */
  lemma OnlyFailedWritesDiverge(world: World, op: Op, h: string -> string)
    requires world.Active? ==> InSync(world)
    requires Next(world, op, h).Active? && !InSync(Next(world, op, h))
    ensures !op.RunSql? && op.w.WriteFailed? && !Succeeds(world, op, h)
  {
    match op
    case Open(_, _, _, _, _, _) =>
    case Refresh(_, _, _) =>
    case RefreshTable(_, _, _, _) =>
    case Invalidate(_, _, _) =>
    case RunSql(_, _) =>
  }

  /** Over every run without a failed write, an open cache is what is on disk. */
  lemma {:induction false} RunInSync(ops: seq<Op>, h: string -> string)
    requires forall i :: 0 <= i < |ops| && !ops[i].RunSql? ==> ops[i].w.Written?
    ensures Run(ops, h).Active? ==> InSync(Run(ops, h))
  {
    if ops != [] {
      RunInSync(ops[..|ops| - 1], h);
      if Run(ops, h).Active? && !InSync(Run(ops, h)) {
        OnlyFailedWritesDiverge(Run(ops[..|ops| - 1], h), ops[|ops| - 1], h);
      }
    }
  }

  // ----- What the next call finds ------------------------------------------------------------------

  /** Right after a successful operation other than a query no statement hits the memo. */
  lemma SuccessEmptiesMemo(world: World, op: Op, sql: string, h: string -> string)
    requires Succeeds(world, op, h) && !op.RunSql?
    ensures MemoHit(Next(world, op, h).cache, sql).None?
  {
    match op
    case Open(_, _, _, _, _, _) =>
    case Refresh(_, _, _) =>
    case RefreshTable(_, _, _, _) =>
    case Invalidate(_, _, _) =>
  }

  /** With a memo that holds anything at all, asking again right after a success gives the same answer,
      whatever the runner would say now. */
  lemma {:induction false} SecondCallHits(c: Cache, sql: string, answer: Result<CachedResult, Error>,
                                          other: Result<CachedResult, Error>)
    requires MemoKey(c, sql).Some? && c.memo.value.capacity > 0 && RunSqlCache(c, sql, answer).1.Ok?
    ensures RunSqlCache(RunSqlCache(c, sql, answer).0, sql, other).1 == RunSqlCache(c, sql, answer).1
  {
    var after := RunSqlCache(c, sql, answer).0;
    assert MemoHit(after, sql) == Some(RunSqlCache(c, sql, answer).1.value);
  }

  /** What a successful write at time `saved` leaves for the next process to open: within the
      time-to-live the database in memory, and after it what an empty directory would give. */
  lemma {:induction false} ReopenExactly(world: World, op: Op, live: Live, urlHash: string, ttl: nat,
                                         memoCapacity: Option<nat>, now: nat, w: WriteOutcome, h: string -> string)
    requires Succeeds(world, op, h) && !op.RunSql? && !op.Open?
    ensures var c := Next(world, op, h).cache;
      var (after, r) := OpenCache(c.disk, live, urlHash, ttl, memoCapacity, now, w, h);
      if now <= op.now + ttl then after == c.disk && r.Ok? && r.value.database == c.database && r.value.disk == c.disk
      else r == OpenCache(Missing, live, urlHash, ttl, memoCapacity, now, w, h).1
    ensures var r := OpenCache(Next(world, op, h).cache.disk, live, urlHash, ttl, memoCapacity, now, w, h).1;
      r.Ok? ==> match memoCapacity
        case None => r.value.memo.None?
        case Some(n) => r.value.memo.Some? && r.value.memo.value.capacity == n
  {
    match op
    case Refresh(_, _, _) =>
    case RefreshTable(_, _, _, _) =>
    case Invalidate(_, _, _) =>
  }

  /** A name that is no cached table's, in any letter case, is reported and changes nothing. */
  lemma {:induction false} UnknownNameChangesNothing(c: Cache, live: Live, name: string, now: nat, w: WriteOutcome,
                                                     h: string -> string)
    requires forall t :: t in c.database.tables ==>
      !SameButCase(t.name, name) && !SameButCase(t.QualifiedName(), name)
    ensures RefreshTableCache(c, live, name, now, w, h) == (c, Err(TableNotFound(name)))
    ensures InvalidateCache(c, name, now, w, h) == (c, Err(TableNotFound(name)))
  {
    FoundInAnyCase(c.database.tables, name);
    assert forall i :: 0 <= i < |c.database.tables| ==> c.database.tables[i] in c.database.tables;
  }

  /** `failed` against `done`, the same call with a write that succeeds: had the call failed anyway it
      changes nothing; else memory is the new database all the same, the memo is kept, and the disk is
      as it was or damaged. */
  ghost predicate FailsOnlyToWrite<T>(c: Cache, failed: (Cache, Result<T, Error>), done: (Cache, Result<T, Error>),
                                      w: WriteOutcome)
  {
    if done.1.Err? then failed == done && done.0 == c
    else
      && w.WriteFailed? && failed.1 == Err(w.error)
      && failed.0 == Cache(done.0.database, if w.damaged then Damaged else c.disk, c.memo)
  }

  /** A failed write is reported and costs nothing but the file and the clearing of the memo. */
  lemma FailedWriteReported(c: Cache, live: Live, name: string, now: nat, w: WriteOutcome, h: string -> string)
    requires w.WriteFailed?
    ensures FailsOnlyToWrite(c, RefreshCache(c, live, now, w, h), RefreshCache(c, live, now, Written, h), w)
    ensures FailsOnlyToWrite(c, RefreshTableCache(c, live, name, now, w, h),
                             RefreshTableCache(c, live, name, now, Written, h), w)
    ensures FailsOnlyToWrite(c, InvalidateCache(c, name, now, w, h), InvalidateCache(c, name, now, Written, h), w)
  {
  }

  // ----- Reports ---------------------------------------------------------------------------------

  function QualifiedNameOf(t: Table): string {
    t.QualifiedName()
  }

  function NamesOf(tables: seq<Table>): seq<string> {
    MapSeq(tables, QualifiedNameOf)
  }

  function RefName(r: TableRef): string {
    if r.schema.Some? then r.schema.value + "." + r.name else r.name
  }

  function RefNames(refs: seq<TableRef>): seq<string> {
    MapSeq(refs, RefName)
  }

  lemma OneGoes(a: seq<string>, b: seq<string>, all: seq<string>, name: string, first: bool)
    requires multiset(a) + multiset(b) == multiset(all)
    ensures multiset(a + if first then [name] else []) + multiset(b + if first then [] else [name]) ==
      multiset(all + [name])
  {
  }

  lemma {:induction false} SplitByTest(tables: seq<Table>, yes: Table -> bool, no: Table -> bool)
    requires forall t :: yes(t) != no(t)
    ensures multiset(NamesWhere(tables, yes)) + multiset(NamesWhere(tables, no)) == multiset(NamesOf(tables))
  {
    if tables != [] {
      var before, name := tables[..|tables| - 1], QualifiedNameOf(tables[|tables| - 1]);
      SplitByTest(before, yes, no);
      OneGoes(NamesWhere(before, yes), NamesWhere(before, no), NamesOf(before), name, yes(tables[|tables| - 1]));
      assert NamesOf(tables) == NamesOf(before) + [name];
      assert no(tables[|tables| - 1]) == !yes(tables[|tables| - 1]);
    }
  }

  lemma FreshTablesNames(live: Live, refs: seq<TableRef>, h: string -> string)
    requires IdealDigest(h) && FreshTables(live, refs, h).Ok?
    ensures NamesOf(FreshTables(live, refs, h).value) == RefNames(refs)
  {
    FreshTablesHashed(live, refs, h);
    var ts := FreshTables(live, refs, h).value;
    forall i | 0 <= i < |refs| ensures NamesOf(ts)[i] == RefNames(refs)[i] {
      assert Ok(ts[i]) == FreshTable(live, refs[i], h);
      assert QualifiedNameOf(ts[i]) == RefName(refs[i]);
    }
  }

  /** A refresh report lists each table of the live database exactly once. */
  lemma {:induction false} RefreshReportsEachTableOnce(c: Cache, live: Live, now: nat, w: WriteOutcome,
                                                       h: string -> string)
    requires IdealDigest(h) && RefreshCache(c, live, now, w, h).1.Ok?
    ensures var report := RefreshCache(c, live, now, w, h).1.value;
      multiset(report.changed) + multiset(report.unaltered) == multiset(RefNames(live.names.value))
  {
    var ts := FreshTables(live, live.names.value, h).value;
    SplitByTest(Sort(ts, NameLe), HashTest(c.database.tables, false), HashTest(c.database.tables, true));
    SortMapped(ts, QualifiedNameOf, NameLe);
    FreshTablesNames(live, live.names.value, h);
  }

  // ----- Rewriting only what changed ---------------------------------------------------------------

  /** The cached entry, if the refresh reports the table as unaltered. */
  function KeptEntry(cached: seq<Table>, renewed: Table): Table {
    if SameHash(cached, renewed) then cached[FindTable(cached, renewed.QualifiedName()).value] else renewed
  }

  /** The refreshed tables if only changed entries were rewritten. */
  function Rewritten(cached: seq<Table>, renewed: seq<Table>): seq<Table> {
    seq(|renewed|, i requires 0 <= i < |renewed| => KeptEntry(cached, renewed[i]))
  }

  lemma {:induction false} HashesAlike(a: seq<Table>, b: seq<Table>)
    requires |a| == |b| && forall i :: 0 <= i < |a| ==> a[i].ddlHash == b[i].ddlHash
    ensures Hashes(a) == Hashes(b)
  {
    if a != [] { HashesAlike(a[1..], b[1..]); }
  }

  lemma {:induction false} RewrittenExactly(cached: seq<Table>, renewed: seq<Table>)
    ensures Hashes(Rewritten(cached, renewed)) == Hashes(renewed)
    ensures Rewritten(cached, renewed) == renewed <==>
      forall t :: t in renewed && SameHash(cached, t) ==> KeptEntry(cached, t) == t
  {
    var kept := Rewritten(cached, renewed);
    HashesAlike(kept, renewed);
    if kept == renewed {
      forall t | t in renewed && SameHash(cached, t) ensures KeptEntry(cached, t) == t {
        var i :| 0 <= i < |renewed| && renewed[i] == t;
        assert kept[i] == renewed[i];
      }
    }
  }

  /** Rewriting only the changed entries always gives the refreshed fingerprint, and gives the refreshed
      tables if and only if the cached entry of every table reported unaltered is the fresh one. */
  lemma {:induction false} RewritingChangedExactly(c: Cache, live: Live, now: nat, w: WriteOutcome, h: string -> string)
    requires IntrospectAll(live, c.database.urlHash, h).Ok?
    ensures var cached, db := c.database.tables, RefreshCache(c, live, now, w, h).0.database;
      Fingerprint(Rewritten(cached, db.tables), h) == db.fingerprint
    ensures var cached, db := c.database.tables, RefreshCache(c, live, now, w, h).0.database;
      Rewritten(cached, db.tables) == db.tables <==>
      forall t :: t in db.tables && SameHash(cached, t) ==> KeptEntry(cached, t) == t
  {
    RewrittenExactly(c.database.tables, RefreshCache(c, live, now, w, h).0.database.tables);
  }

  /** The default signature leaves the table comment out: changed in that alone, a table is reported
      unaltered and its cached entry is not the fresh one. */
  lemma {:induction false} CommentOnlyChange(t: Table, comment: Option<string>)
    requires t.ddlHash.Some? && comment != t.comment
    ensures SameHash([t], t.(comment := comment)) && KeptEntry([t], t.(comment := comment)) != t.(comment := comment)
  {
    var renewed := t.(comment := comment);
    assert renewed.QualifiedName() == t.QualifiedName() && AnswersTo(t, renewed.QualifiedName());
  }

  /** `refresh_table` right after `invalidate_table`, whether or not the latter's write succeeded,
      reports the table as changed. */
  lemma InvalidateForcesChange(c: Cache, live: Live, name: string, now1: nat, w1: WriteOutcome,
                               now2: nat, w2: WriteOutcome, h: string -> string)
    requires IdealDigest(h) && FindTable(c.database.tables, name).Some?
    ensures var marked := InvalidateCache(c, name, now1, w1, h).0;
      var r := RefreshTableCache(marked, live, name, now2, w2, h).1;
      r.Ok? ==> r.value == Report([c.database.tables[FindTable(c.database.tables, name).value].QualifiedName()], [])
  {
    var tables := c.database.tables;
    var i := FindTable(tables, name).value;
    var marked := tables[i := tables[i].(ddlHash := Some(INVALIDATED_DDL_HASH))];
    forall j | 0 <= j < |tables| ensures AnswersTo(marked[j], name) == AnswersTo(tables[j], name) {
      assert marked[j].QualifiedName() == tables[j].QualifiedName() && marked[j].name == tables[j].name;
    }
  }
}
