/** The schema cache: a database in memory, its envelope on disk, and the result memo.

A live database is a value of `Live`: what each introspection call would answer.  File writes and
the clock are arguments.  The functions give each operation's whole effect; the class performs it.
*/
module SchemaCaching {
  import opened Prelude
  import opened StableSort
  import opened SchemaModel
  import opened Fingerprints
  import opened ResultMemo

  datatype Error = Failed(reason: string) | TableNotFound(name: string)

  datatype TableRef = TableRef(schema: Option<string>, name: string)

  datatype Details = Details(
    comment: Option<string>,
    columns: seq<Column>,
    primaryKey: Option<seq<string>>,
    foreignKeys: seq<ForeignKey>)

  datatype Live = Live(
    backend: string,
    names: Result<seq<TableRef>, Error>,
    details: TableRef -> Result<Details, Error>,
    signature: TableRef -> Result<string, Error>)

  datatype Envelope = Envelope(savedAt: nat, database: Database)

  datatype Disk = Missing | Stored(envelope: Envelope) | Damaged

  // A failed write leaves the old file or a damaged one.
  datatype WriteOutcome = Written | WriteFailed(error: Error, damaged: bool)

  datatype Report = Report(changed: seq<string>, unaltered: seq<string>)

  datatype Memo = Memo(store: Store<CachedResult>, capacity: nat)

  datatype Cache = Cache(database: Database, disk: Disk, memo: Option<Memo>)

  // ----- Introspection -------------------------------------------------------------------------

  function RefOf(t: Table): TableRef {
    TableRef(t.schema, t.name)
  }

  /** One table as introspection delivers it, with its DDL hash. */
  function FreshTable(live: Live, r: TableRef, h: string -> string): Result<Table, Error> {
    match live.details(r)
    case Err(e) => Err(e)
    case Ok(d) =>
      match live.signature(r)
      case Err(e) => Err(e)
      case Ok(sig) =>
        Ok(Table(r.schema, r.name, d.comment, d.columns, d.primaryKey, d.foreignKeys, Some(h(sig))))
  }

  /** All tables in order, or the error of the first that fails. */
  function FreshTables(live: Live, refs: seq<TableRef>, h: string -> string): Result<seq<Table>, Error> {
    if refs == [] then Ok([])
    else match FreshTables(live, refs[..|refs| - 1], h)
      case Err(e) => Err(e)
      case Ok(ts) =>
        match FreshTable(live, refs[|refs| - 1], h)
        case Err(e) => Err(e)
        case Ok(t) => Ok(ts + [t])
  }

  function MakeDatabase(backend: string, urlHash: string, tables: seq<Table>, h: string -> string): Database {
    Database(backend, urlHash, tables, Fingerprint(tables, h))
  }

  function IntrospectAll(live: Live, urlHash: string, h: string -> string): Result<Database, Error> {
    match live.names
    case Err(e) => Err(e)
    case Ok(refs) =>
      match FreshTables(live, refs, h)
      case Err(e) => Err(e)
      case Ok(ts) => Ok(MakeDatabase(live.backend, urlHash, Sort(ts, NameLe), h))
  }

  /** Errors come back in table order: the first failure decides, whatever follows it. */
  lemma {:induction false} FirstFailureDecides(live: Live, refs: seq<TableRef>, i: nat, h: string -> string)
    requires i < |refs| && FreshTables(live, refs[..i], h).Ok? && FreshTable(live, refs[i], h).Err?
    ensures FreshTables(live, refs, h) == Err(FreshTable(live, refs[i], h).error)
    decreases |refs|
  {
    var before := refs[..|refs| - 1];
    if i < |refs| - 1 {
      assert before[..i] == refs[..i];
      FirstFailureDecides(live, before, i, h);
    }
  }

  /** Sequential and parallel introspection: the same loop result, including which error wins. */
  method IntrospectAllTables(live: Live, urlHash: string, h: string -> string, parallel: bool)
    returns (r: Result<Database, Error>)
    ensures r == IntrospectAll(live, urlHash, h)
  {
    if live.names.Err? {
      return Err(live.names.error);
    }
    var refs := live.names.value;
    var tables: seq<Table> := [];
    if parallel {
      // Every task runs to its end before any result is looked at.
      var results := seq(|refs|, i requires 0 <= i < |refs| => FreshTable(live, refs[i], h));
      for i := 0 to |results|
        invariant FreshTables(live, refs[..i], h) == Ok(tables)
      {
        assert refs[..i + 1][..i] == refs[..i];
        if results[i].Err? {
          FirstFailureDecides(live, refs, i, h);
          return Err(results[i].error);
        }
        tables := tables + [results[i].value];
      }
    } else {
      for i := 0 to |refs|
        invariant FreshTables(live, refs[..i], h) == Ok(tables)
      {
        assert refs[..i + 1][..i] == refs[..i];
        var t := FreshTable(live, refs[i], h);
        if t.Err? {
          FirstFailureDecides(live, refs, i, h);
          return Err(t.error);
        }
        tables := tables + [t.value];
      }
    }
    assert refs[..|refs|] == refs;
    r := Ok(MakeDatabase(live.backend, urlHash, Sort(tables, NameLe), h));
  }

  // ----- Effects -------------------------------------------------------------------------------

  function DiskAfter(disk: Disk, database: Database, now: nat, w: WriteOutcome): Disk {
    match w
    case Written => Stored(Envelope(now, database))
    case WriteFailed(_, damaged) => if damaged then Damaged else disk
  }

  /** Replace the database in memory, write it, and only then clear the memo. */
  function Persist(c: Cache, database: Database, now: nat, w: WriteOutcome): Cache {
    Cache(database, DiskAfter(c.disk, database, now, w),
          if w.Written? && c.memo.Some? then Some(c.memo.value.(store := EmptyStore())) else c.memo)
  }

  /** `fresh` has the hash that the cached table of the same name had. */
  predicate SameHash(cached: seq<Table>, newTable: Table) {
    var i := FindTable(cached, newTable.QualifiedName());
    i.Some? && newTable.ddlHash.Some? && cached[i.value].ddlHash == newTable.ddlHash
  }

  function NamesWhere(tables: seq<Table>, test: Table -> bool): seq<string> {
    if tables == [] then []
    else
      var last := tables[|tables| - 1];
      NamesWhere(tables[..|tables| - 1], test) + if test(last) then [last.QualifiedName()] else []
  }

  function HashTest(cached: seq<Table>, same: bool): Table -> bool {
    t => SameHash(cached, t) == same
  }

  function NamesBySameHash(cached: seq<Table>, tables: seq<Table>, same: bool): seq<string> {
    NamesWhere(tables, HashTest(cached, same))
  }

  function RefreshCache(c: Cache, live: Live, now: nat, w: WriteOutcome, h: string -> string)
    : (Cache, Result<Report, Error>)
  {
    match IntrospectAll(live, c.database.urlHash, h)
    case Err(e) => (c, Err(e))
    case Ok(db) =>
      var report := Report(NamesBySameHash(c.database.tables, db.tables, false),
                           NamesBySameHash(c.database.tables, db.tables, true));
      (Persist(c, db, now, w), if w.Written? then Ok(report) else Err(w.error))
  }

  /** The database with table `i` replaced. */
  function WithTable(db: Database, i: nat, t: Table, h: string -> string): Database
    requires i < |db.tables|
  {
    var tables := Sort(db.tables[i := t], NameLe);
    db.(tables := tables, fingerprint := Fingerprint(tables, h))
  }

  function RefreshTableCache(c: Cache, live: Live, name: string, now: nat, w: WriteOutcome, h: string -> string)
    : (Cache, Result<Report, Error>)
  {
    match FindTable(c.database.tables, name)
    case None => (c, Err(TableNotFound(name)))
    case Some(i) =>
      match FreshTable(live, RefOf(c.database.tables[i]), h)
      case Err(e) => (c, Err(e))
      case Ok(t) =>
        var qn := [t.QualifiedName()];
        var report := if c.database.tables[i].ddlHash == t.ddlHash then Report([], qn) else Report(qn, []);
        (Persist(c, WithTable(c.database, i, t, h), now, w), if w.Written? then Ok(report) else Err(w.error))
  }

  function InvalidateCache(c: Cache, name: string, now: nat, w: WriteOutcome, h: string -> string)
    : (Cache, Result<(), Error>)
  {
    match FindTable(c.database.tables, name)
    case None => (c, Err(TableNotFound(name)))
    case Some(i) =>
      var tables := c.database.tables[i := c.database.tables[i].(ddlHash := Some(INVALIDATED_DDL_HASH))];
      var db := c.database.(tables := tables, fingerprint := Fingerprint(tables, h));
      (Persist(c, db, now, w), if w.Written? then Ok(()) else Err(w.error))
  }

  predicate Stale(e: Envelope, ttl: nat, now: nat) {
    now > e.savedAt && now - e.savedAt > ttl
  }

  /** `from_introspector`: reuse a fresh envelope, else introspect and write.  The memo starts empty. */
  function OpenCache(disk: Disk, live: Live, urlHash: string, ttl: nat, memoCapacity: Option<nat>,
                     now: nat, w: WriteOutcome, h: string -> string): (Disk, Result<Cache, Error>)
  {
    var memo := if memoCapacity.Some? then Some(Memo(EmptyStore(), memoCapacity.value)) else None;
    if disk.Damaged? then (disk, Err(Failed("decode failed")))
    else if disk.Stored? && !Stale(disk.envelope, ttl, now) then
      (disk, Ok(Cache(disk.envelope.database, disk, memo)))
    else match IntrospectAll(live, urlHash, h)
      case Err(e) => (disk, Err(e))
      case Ok(db) =>
        var after := DiskAfter(disk, db, now, w);
        (after, if w.Written? then Ok(Cache(db, after, memo)) else Err(w.error))
  }

  /** The memo key of a statement, if results are memoized at all. */
  function MemoKey(c: Cache, sql: string): Option<string> {
    if c.memo.Some? && c.database.fingerprint.Some? then Some(Key(c.database.fingerprint.value, sql)) else None
  }

  function MemoHit(c: Cache, sql: string): Option<CachedResult> {
    match MemoKey(c, sql)
    case None => None
    case Some(key) => Lookup(c.memo.value.store, c.memo.value.capacity, key)
  }

  /** `run_sql_unchecked`; `answer` is what the runner and the renderer deliver when asked. */
  function RunSqlCache(c: Cache, sql: string, answer: Result<CachedResult, Error>)
    : (Cache, Result<CachedResult, Error>)
  {
    var key := MemoKey(c, sql);
    if key.None? then (c, answer)
    else
      var m := c.memo.value;
      var hit := MemoHit(c, sql);
      if hit.Some? then (c.(memo := Some(m.(store := GetStore(m.store, m.capacity, key.value)))), Ok(hit.value))
      else if answer.Err? then (c, answer)
      else (c.(memo := Some(m.(store := PutStore(m.store, m.capacity, key.value, answer.value)))), answer)
  }

  // ----- The object ------------------------------------------------------------------------------

  class SchemaCache {
    const h: string -> string
    const memo: ResultCache?
    var database: Database
    var disk: Disk

    constructor (h: string -> string, memo: ResultCache?, database: Database, disk: Disk)
      ensures this.h == h && this.memo == memo && this.database == database && this.disk == disk
    {
      this.h := h;
      this.memo := memo;
      this.database := database;
      this.disk := disk;
    }

    function View(): Cache
      reads this, memo
    {
      Cache(database, disk, if memo == null then None else Some(Memo(memo.View(), memo.capacity)))
    }

    method FindPosition(name: string) returns (r: Option<nat>)
      ensures r == FindTable(database.tables, name)
    {
      var i := 0;
      while i < |database.tables| && !AnswersTo(database.tables[i], name)
        invariant 0 <= i <= |database.tables|
        invariant forall j :: 0 <= j < i ==> !AnswersTo(database.tables[j], name)
      {
        i := i + 1;
      }
      r := if i < |database.tables| then Some(i) else None;
      ghost var found := FindTable(database.tables, name);
      assert found.Some? <==> r.Some?;
    }

    /** Write the database out; on success clear the memo. */
    method WriteOut(now: nat, w: WriteOutcome) returns (r: Result<(), Error>)
      modifies this`disk, memo
      ensures View() == Persist(old(View()), database, now, w)
      ensures r == if w.Written? then Ok(()) else Err(w.error)
    {
      if w.WriteFailed? {
        if w.damaged { disk := Damaged; }
        return Err(w.error);
      }
      disk := Stored(Envelope(now, database));
      if memo != null {
        memo.Clear();
      }
      return Ok(());
    }

    /** Which of `tables` kept the DDL hash they have in the cache. */
    method Compare(tables: seq<Table>) returns (report: Report)
      ensures report.changed == NamesBySameHash(database.tables, tables, false)
      ensures report.unaltered == NamesBySameHash(database.tables, tables, true)
    {
      var changed: seq<string> := [];
      var unaltered: seq<string> := [];
      for i := 0 to |tables|
        invariant changed == NamesBySameHash(database.tables, tables[..i], false)
        invariant unaltered == NamesBySameHash(database.tables, tables[..i], true)
      {
        var t := tables[i];
        assert tables[..i + 1][..i] == tables[..i];
        var prev := FindPosition(t.QualifiedName());
        var same := prev.Some? && t.ddlHash.Some? && database.tables[prev.value].ddlHash == t.ddlHash;
        assert same == SameHash(database.tables, t);
        if same {
          unaltered := unaltered + [t.QualifiedName()];
        } else {
          changed := changed + [t.QualifiedName()];
        }
      }
      assert tables[..|tables|] == tables;
      report := Report(changed, unaltered);
    }

    method Refresh(live: Live, parallel: bool, now: nat, w: WriteOutcome) returns (r: Result<Report, Error>)
      modifies this, memo
      ensures (View(), r) == RefreshCache(old(View()), live, now, w, h)
    {
      var outcome := IntrospectAllTables(live, database.urlHash, h, parallel);
      if outcome.Err? {
        return Err(outcome.error);
      }
      var report := Compare(outcome.value.tables);
      database := outcome.value;
      var written := WriteOut(now, w);
      if written.Err? {
        return Err(written.error);
      }
      return Ok(report);
    }

    method RefreshTable(live: Live, name: string, now: nat, w: WriteOutcome) returns (r: Result<Report, Error>)
      modifies this, memo
      ensures (View(), r) == RefreshTableCache(old(View()), live, name, now, w, h)
    {
      var position := FindPosition(name);
      if position.None? {
        return Err(TableNotFound(name));
      }
      var i := position.value;
      var outcome := FreshTable(live, RefOf(database.tables[i]), h);
      if outcome.Err? {
        return Err(outcome.error);
      }
      var same := database.tables[i].ddlHash == outcome.value.ddlHash;
      var qn := outcome.value.QualifiedName();
      database := database.(tables := database.tables[i := outcome.value]);
      database := database.(tables := Sort(database.tables, NameLe));
      database := database.(fingerprint := Fingerprint(database.tables, h));
      var written := WriteOut(now, w);
      if written.Err? {
        return Err(written.error);
      }
      return Ok(if same then Report([], [qn]) else Report([qn], []));
    }

    method InvalidateTable(name: string, now: nat, w: WriteOutcome) returns (r: Result<(), Error>)
      modifies this, memo
      ensures (View(), r) == InvalidateCache(old(View()), name, now, w, h)
    {
      var position := FindPosition(name);
      if position.None? {
        return Err(TableNotFound(name));
      }
      var i := position.value;
      database := database.(tables := database.tables[i := database.tables[i].(ddlHash := Some(INVALIDATED_DDL_HASH))]);
      database := database.(fingerprint := Fingerprint(database.tables, h));
      r := WriteOut(now, w);
    }

    method RunSqlUnchecked(sql: string, answer: Result<CachedResult, Error>) returns (r: Result<CachedResult, Error>)
      modifies memo
      ensures (View(), r) == RunSqlCache(old(View()), sql, answer)
    {
      var fingerprint := if memo == null then None else database.fingerprint;
      if memo != null && fingerprint.Some? {
        var hit := memo.Get(fingerprint.value, sql);
        if hit.Some? {
          return Ok(hit.value);
        }
      }
      if answer.Err? {
        return answer;
      }
      if memo != null && fingerprint.Some? {
        memo.Put(fingerprint.value, sql, answer.value);
      }
      return answer;
    }
  }

  /** `SchemaCache::from_introspector`: the object over the envelope at `disk`, and the disk after. */
  method FromIntrospector(disk: Disk, live: Live, urlHash: string, ttl: nat, memoCapacity: Option<nat>,
                          parallel: bool, now: nat, w: WriteOutcome, h: string -> string)
    returns (after: Disk, r: Result<SchemaCache, Error>)
    ensures after == OpenCache(disk, live, urlHash, ttl, memoCapacity, now, w, h).0
    ensures match OpenCache(disk, live, urlHash, ttl, memoCapacity, now, w, h).1
            case Err(e) => r == Err(e)
            case Ok(c) => r.Ok? && fresh(r.value) && r.value.View() == c && r.value.h == h
  {
    if disk.Damaged? {
      return disk, Err(Failed("decode failed"));
    }
    var memo := null;
    if memoCapacity.Some? {
      memo := new ResultCache(memoCapacity.value);
    }
    if disk.Stored? && !Stale(disk.envelope, ttl, now) {
      var reused := new SchemaCache(h, memo, disk.envelope.database, disk);
      return disk, Ok(reused);
    }
    var outcome := IntrospectAllTables(live, urlHash, h, parallel);
    if outcome.Err? {
      return disk, Err(outcome.error);
    }
    after := DiskAfter(disk, outcome.value, now, w);
    if w.WriteFailed? {
      return after, Err(w.error);
    }
    var populated := new SchemaCache(h, memo, outcome.value, after);
    return after, Ok(populated);
  }
}
