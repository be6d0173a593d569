/** What the cache and its reports say about the live DDL: tables are what introspection answered, hashes
are those of live signatures, and a table counts as unaltered exactly if its signature is. */
module SchemaSignatures {
  import opened Prelude
  import opened StableSort
  import opened SchemaModel
  import opened Fingerprints
  import opened ResultMemo
  import opened SchemaCaching
  import opened SchemaCacheRuns
  import opened IncrementalRefresh
  import opened MemoProvenance

  // ----- What introspection delivers -----------------------------------------------------------------

  function DetailsOf(t: Table): Details {
    Details(t.comment, t.columns, t.primaryKey, t.foreignKeys)
  }

  /** `t` is what `live` says about it, with the hash of its live signature. */
  ghost predicate Mirrors(t: Table, live: Live, h: string -> string) {
    && live.details(RefOf(t)) == Ok(DetailsOf(t))
    && live.signature(RefOf(t)).Ok? && t.ddlHash == Some(h(live.signature(RefOf(t)).value))
  }

  lemma FreshMirrors(live: Live, r: TableRef, t: Table, h: string -> string)
    ensures FreshTable(live, r, h) == Ok(t) <==> RefOf(t) == r && Mirrors(t, live, h)
  {
  }

  lemma {:induction false} FreshTablesMirror(live: Live, refs: seq<TableRef>, h: string -> string)
    requires FreshTables(live, refs, h).Ok?
    ensures var ts := FreshTables(live, refs, h).value;
      Refs(ts) == refs && forall t :: t in ts ==> Mirrors(t, live, h)
  {
    if refs != [] {
      var before, last := refs[..|refs| - 1], refs[|refs| - 1];
      FreshTablesMirror(live, before, h);
      var t := FreshTable(live, last, h).value;
      FreshMirrors(live, last, t, h);
      assert Refs(FreshTables(live, before, h).value + [t]) == Refs(FreshTables(live, before, h).value) + [last];
      assert refs == before + [last];
    }
  }

  /** A successful introspection lists every live table as often as the database does, each with exactly
      the live comment, columns and keys and with the hash of its live signature. */
  lemma {:induction false} IntrospectedMirrors(live: Live, urlHash: string, h: string -> string)
    requires IntrospectAll(live, urlHash, h).Ok?
    ensures var ts := IntrospectAll(live, urlHash, h).value.tables;
      multiset(Refs(ts)) == multiset(live.names.value) && forall t :: t in ts ==> Mirrors(t, live, h)
  {
    var ts := FreshTables(live, live.names.value, h).value;
    FreshTablesMirror(live, live.names.value, h);
    SortMapped(ts, RefOf, NameLe);
    SortIsPermutation(ts, NameLe);
    forall t | t in Sort(ts, NameLe) ensures t in ts {
      assert t in ToSet(Sort(ts, NameLe));
    }
  }

  // ----- What a report says --------------------------------------------------------------------------

  /** `refresh_table` reports a table introspected from `prior` as unaltered exactly if its signature is
      what it was. */
  lemma {:induction false} RefreshTableReports(c: Cache, prior: Live, live: Live, name: string, now: nat,
                                               w: WriteOutcome, h: string -> string)
    requires IdealDigest(h) && FindTable(c.database.tables, name).Some?
    requires Mirrors(c.database.tables[FindTable(c.database.tables, name).value], prior, h)
    requires RefreshTableCache(c, live, name, now, w, h).1.Ok?
    ensures var t := c.database.tables[FindTable(c.database.tables, name).value];
      RefreshTableCache(c, live, name, now, w, h).1.value ==
      if prior.signature(RefOf(t)) == live.signature(RefOf(t)) then Report([], [t.QualifiedName()])
      else Report([t.QualifiedName()], [])
  {
    var t := c.database.tables[FindTable(c.database.tables, name).value];
    var r := FreshTable(live, RefOf(t), h).value;
    FreshMirrors(live, RefOf(t), r, h);
    assert r.QualifiedName() == t.QualifiedName();
  }

  /** No other cached or live table goes by the name of `r`. */
  ghost predicate Unambiguous(cached: seq<Table>, refs: seq<TableRef>, r: TableRef) {
    && (forall t :: t in cached && AnswersTo(t, RefName(r)) ==> RefOf(t) == r)
    && (forall q :: q in refs && RefName(q) == RefName(r) ==> q == r)
  }

  lemma CachedByName(cached: seq<Table>, refs: seq<TableRef>, r: TableRef)
    requires Unambiguous(cached, refs, r)
    ensures match FindTable(cached, RefName(r))
      case Some(i) => RefOf(cached[i]) == r
      case None => forall t :: t in cached ==> RefOf(t) != r
  {
    match FindTable(cached, RefName(r))
    case Some(i) => assert cached[i] in cached;
    case None =>
      forall t | t in cached ensures RefOf(t) != r {
        if RefOf(t) == r { assert t.QualifiedName() == RefName(r) && AnswersTo(t, RefName(r)); }
      }
  }

  lemma {:induction false} SameHashMeansSameSignature(cached: seq<Table>, refs: seq<TableRef>, t: Table, prior: Live,
                                                      live: Live, h: string -> string)
    requires IdealDigest(h) && Unambiguous(cached, refs, RefOf(t)) && Mirrors(t, live, h)
    requires forall u :: u in cached && RefOf(u) == RefOf(t) ==> Mirrors(u, prior, h)
    ensures SameHash(cached, t) <==>
      (exists u :: u in cached && RefOf(u) == RefOf(t)) && prior.signature(RefOf(t)) == live.signature(RefOf(t))
  {
    CachedByName(cached, refs, RefOf(t));
    assert t.QualifiedName() == RefName(RefOf(t));
    match FindTable(cached, RefName(RefOf(t)))
    case Some(i) => assert cached[i] in cached && Mirrors(cached[i], prior, h);
    case None =>
  }

  lemma {:induction false} NamesWhereMembers(tables: seq<Table>, test: Table -> bool, name: string)
    ensures name in NamesWhere(tables, test) <==> exists t :: t in tables && test(t) && t.QualifiedName() == name
  {
    if tables != [] {
      NamesWhereMembers(tables[..|tables| - 1], test, name);
      assert tables == tables[..|tables| - 1] + [tables[|tables| - 1]];
    }
  }

  lemma LiveTableOf(live: Live, urlHash: string, r: TableRef, h: string -> string) returns (t: Table)
    requires IntrospectAll(live, urlHash, h).Ok? && r in live.names.value
    ensures t in IntrospectAll(live, urlHash, h).value.tables && RefOf(t) == r && Mirrors(t, live, h)
  {
    IntrospectedMirrors(live, urlHash, h);
    var ts := IntrospectAll(live, urlHash, h).value.tables;
    assert r in multiset(Refs(ts));
    var i :| 0 <= i < |Refs(ts)| && Refs(ts)[i] == r;
    t := ts[i];
  }

  lemma {:induction false} OnlyOneNamed(live: Live, urlHash: string, t: Table, r: TableRef, h: string -> string)
    requires IntrospectAll(live, urlHash, h).Ok? && t in IntrospectAll(live, urlHash, h).value.tables
    requires forall q :: q in live.names.value && RefName(q) == RefName(r) ==> q == r
    ensures t.QualifiedName() == RefName(r) <==> RefOf(t) == r
  {
    var ts := IntrospectAll(live, urlHash, h).value.tables;
    IntrospectedMirrors(live, urlHash, h);
    var i :| 0 <= i < |ts| && ts[i] == t;
    assert Refs(ts)[i] in multiset(live.names.value);
    assert RefName(RefOf(t)) == t.QualifiedName();
  }

  lemma {:induction false} ListedByHash(live: Live, urlHash: string, cached: seq<Table>, r: TableRef, same: bool,
                                        h: string -> string)
    requires IntrospectAll(live, urlHash, h).Ok? && Unambiguous(cached, live.names.value, r)
    ensures var ts := IntrospectAll(live, urlHash, h).value.tables;
      RefName(r) in NamesBySameHash(cached, ts, same) <==>
      exists t :: t in ts && RefOf(t) == r && SameHash(cached, t) == same
  {
    var ts, test := IntrospectAll(live, urlHash, h).value.tables, HashTest(cached, same);
    NamesWhereMembers(ts, test, RefName(r));
    forall t | t in ts ensures t.QualifiedName() == RefName(r) <==> RefOf(t) == r {
      OnlyOneNamed(live, urlHash, t, r, h);
    }
    assert forall t :: test(t) <==> SameHash(cached, t) == same;
  }

  /** `refresh` reports a live table as unaltered exactly if it is cached and its signature is what it was
      when it was introspected, and as changed otherwise. */
  lemma {:induction false} RefreshReports(c: Cache, prior: Live, live: Live, r: TableRef, now: nat, w: WriteOutcome,
                                          h: string -> string)
    requires IdealDigest(h) && RefreshCache(c, live, now, w, h).1.Ok? && r in live.names.value
    requires Unambiguous(c.database.tables, live.names.value, r)
    requires forall t :: t in c.database.tables && RefOf(t) == r ==> Mirrors(t, prior, h)
    ensures var report := RefreshCache(c, live, now, w, h).1.value;
      var kept := (exists t :: t in c.database.tables && RefOf(t) == r) && prior.signature(r) == live.signature(r);
      (RefName(r) in report.unaltered <==> kept) && (RefName(r) in report.changed <==> !kept)
  {
    var cached := c.database.tables;
    ListedByHash(live, c.database.urlHash, cached, r, true, h);
    ListedByHash(live, c.database.urlHash, cached, r, false, h);
    IntrospectedMirrors(live, c.database.urlHash, h);
    var mine := LiveTableOf(live, c.database.urlHash, r, h);
    forall t | RefOf(t) == r && Mirrors(t, live, h) {
      SameHashMeansSameSignature(cached, live.names.value, t, prior, live, h);
    }
  }

  // ----- Over runs -----------------------------------------------------------------------------------

  function LiveOf(op: Op): Option<Live> {
    match op
    case Open(live, _, _, _, _, _) => Some(live)
    case Refresh(live, _, _) => Some(live)
    case RefreshTable(live, _, _, _) => Some(live)
    case Invalidate(_, _, _) => None
    case RunSql(_, _) => None
  }

  /** The table is what the operation's live database answered, or was invalidated since.  `sig` is the
      signature introspected, none after an invalidation. */
  ghost predicate From(t: Table, op: Op, sig: Option<string>, h: string -> string) {
    && LiveOf(op).Some? && var live := LiveOf(op).value;
    && live.details(RefOf(t)) == Ok(DetailsOf(t))
    && match sig
       case Some(s) => live.signature(RefOf(t)) == Ok(s) && t.ddlHash == Some(h(s))
       case None => t.ddlHash == Some(INVALIDATED_DDL_HASH)
  }

  ghost predicate Signed(ops: seq<Op>, t: Table, sig: Option<string>, h: string -> string) {
    exists op :: op in ops && From(t, op, sig, h)
  }

  ghost predicate Introspected(ops: seq<Op>, t: Table, h: string -> string) {
    exists sig :: Signed(ops, t, sig, h)
  }

  ghost predicate AllIntrospected(ops: seq<Op>, tables: seq<Table>, h: string -> string) {
    forall t :: t in tables ==> Introspected(ops, t, h)
  }

  ghost predicate WorldIntrospected(ops: seq<Op>, world: World, h: string -> string) {
    && (DiskOf(world).Stored? ==> AllIntrospected(ops, DiskOf(world).envelope.database.tables, h))
    && (world.Active? ==> AllIntrospected(ops, world.cache.database.tables, h))
  }

  lemma MirrorsIntrospected(ops: seq<Op>, op: Op, t: Table, h: string -> string)
    requires op in ops && LiveOf(op).Some? && Mirrors(t, LiveOf(op).value, h)
    ensures Introspected(ops, t, h)
  {
    var sig := Some(LiveOf(op).value.signature(RefOf(t)).value);
    assert From(t, op, sig, h);
    assert Signed(ops, t, sig, h);
  }

  lemma StillIntrospected(ops: seq<Op>, op: Op, tables: seq<Table>, h: string -> string)
    requires AllIntrospected(ops, tables, h)
    ensures AllIntrospected(ops + [op], tables, h)
  {
    forall t | t in tables ensures Introspected(ops + [op], t, h) {
      var sig :| Signed(ops, t, sig, h);
      var o :| o in ops && From(t, o, sig, h);
      assert o in ops + [op];
      assert Signed(ops + [op], t, sig, h);
    }
  }

  lemma InvalidatedIntrospected(ops: seq<Op>, t: Table, h: string -> string)
    requires Introspected(ops, t, h)
    ensures Introspected(ops, t.(ddlHash := Some(INVALIDATED_DDL_HASH)), h)
  {
    var sig :| Signed(ops, t, sig, h);
    var op :| op in ops && From(t, op, sig, h);
    var marked := t.(ddlHash := Some(INVALIDATED_DDL_HASH));
    assert From(marked, op, None, h);
    assert Signed(ops, marked, None, h);
  }

  lemma {:induction false} AllOfLive(ops: seq<Op>, op: Op, urlHash: string, h: string -> string)
    requires op in ops && LiveOf(op).Some? && IntrospectAll(LiveOf(op).value, urlHash, h).Ok?
    ensures AllIntrospected(ops, IntrospectAll(LiveOf(op).value, urlHash, h).value.tables, h)
  {
    IntrospectedMirrors(LiveOf(op).value, urlHash, h);
    forall t | t in IntrospectAll(LiveOf(op).value, urlHash, h).value.tables ensures Introspected(ops, t, h) {
      MirrorsIntrospected(ops, op, t, h);
    }
  }

  lemma SwappedIntrospected(ops: seq<Op>, tables: seq<Table>, i: nat, t: Table, h: string -> string)
    requires AllIntrospected(ops, tables, h) && i < |tables| && Introspected(ops, t, h)
    ensures AllIntrospected(ops, tables[i := t], h)
  {
    forall u | u in tables[i := t] ensures Introspected(ops, u, h) {
      var k :| 0 <= k < |tables| && tables[i := t][k] == u;
      assert k == i || tables[k] in tables;
    }
  }

  lemma {:induction false} OpenIntrospected(ops: seq<Op>, world: World, op: Op, h: string -> string)
    requires op in ops && op.Open? && WorldIntrospected(ops, world, h)
    ensures WorldIntrospected(ops, Next(world, op, h), h)
  {
    if IntrospectAll(op.live, op.urlHash, h).Ok? { AllOfLive(ops, op, op.urlHash, h); }
  }

  ghost predicate CacheIntrospected(ops: seq<Op>, c: Cache, h: string -> string) {
    WorldIntrospected(ops, Active(c), h)
  }

  lemma PersistIntrospected(ops: seq<Op>, c: Cache, db: Database, now: nat, w: WriteOutcome, h: string -> string)
    requires CacheIntrospected(ops, c, h) && AllIntrospected(ops, db.tables, h)
    ensures CacheIntrospected(ops, Persist(c, db, now, w), h)
  {
  }

  lemma {:induction false} RefreshIntrospected(ops: seq<Op>, c: Cache, op: Op, h: string -> string)
    requires op in ops && op.Refresh? && CacheIntrospected(ops, c, h)
    ensures CacheIntrospected(ops, RefreshCache(c, op.live, op.now, op.w, h).0, h)
  {
    var r := IntrospectAll(op.live, c.database.urlHash, h);
    if r.Ok? {
      AllOfLive(ops, op, c.database.urlHash, h);
      PersistIntrospected(ops, c, r.value, op.now, op.w, h);
    }
  }

  lemma {:induction false} RefreshTableIntrospected(ops: seq<Op>, c: Cache, op: Op, h: string -> string)
    requires DatabaseOk(c.database, h) && op in ops && op.RefreshTable? && CacheIntrospected(ops, c, h)
    ensures CacheIntrospected(ops, RefreshTableCache(c, op.live, op.name, op.now, op.w, h).0, h)
  {
    var db, p := c.database, FindTable(c.database.tables, op.name);
    if p.Some? {
      var r := FreshTable(op.live, RefOf(db.tables[p.value]), h);
      if r.Ok? {
        FreshMirrors(op.live, RefOf(db.tables[p.value]), r.value, h);
        MirrorsIntrospected(ops, op, r.value, h);
        SwappedIntrospected(ops, db.tables, p.value, r.value, h);
        SwapInPlace(db, p.value, r.value, h);
        PersistIntrospected(ops, c, WithTable(db, p.value, r.value, h), op.now, op.w, h);
      }
    }
  }

  lemma {:induction false} InvalidateIntrospected(ops: seq<Op>, c: Cache, op: Op, h: string -> string)
    requires op.Invalidate? && CacheIntrospected(ops, c, h)
    ensures CacheIntrospected(ops, InvalidateCache(c, op.name, op.now, op.w, h).0, h)
  {
    var tables, p := c.database.tables, FindTable(c.database.tables, op.name);
    if p.Some? {
      assert tables[p.value] in tables;
      InvalidatedIntrospected(ops, tables[p.value], h);
      SwappedIntrospected(ops, tables, p.value, tables[p.value].(ddlHash := Some(INVALIDATED_DDL_HASH)), h);
    }
  }

  lemma {:induction false} StepIntrospected(ops: seq<Op>, world: World, op: Op, h: string -> string)
    requires WorldOk(world, h) && op in ops && WorldIntrospected(ops, world, h)
    ensures WorldIntrospected(ops, Next(world, op, h), h)
  {
    if op.Open? {
      OpenIntrospected(ops, world, op, h);
    } else if world.Active? {
      match op
      case Refresh(_, _, _) => RefreshIntrospected(ops, world.cache, op, h);
      case RefreshTable(_, _, _, _) => RefreshTableIntrospected(ops, world.cache, op, h);
      case Invalidate(_, _, _) => InvalidateIntrospected(ops, world.cache, op, h);
      case RunSql(_, _) =>
    }
  }

  /** Over every run, in memory and on disk: each table is what some operation introspected, with the
      hash of the signature it saw, or with the marker if it was invalidated since. */
  lemma {:induction false} RunIntrospected(ops: seq<Op>, h: string -> string)
    requires IdealDigest(h)
    ensures WorldIntrospected(ops, Run(ops, h), h)
  {
    if ops != [] {
      var before, op := ops[..|ops| - 1], ops[|ops| - 1];
      var world := Run(before, h);
      RunIntrospected(before, h);
      RunKeepsOk(before, h);
      assert ops == before + [op];
      if DiskOf(world).Stored? { StillIntrospected(before, op, DiskOf(world).envelope.database.tables, h); }
      if world.Active? { StillIntrospected(before, op, world.cache.database.tables, h); }
      StepIntrospected(ops, world, op, h);
    }
  }

  // ----- The memo --------------------------------------------------------------------------------------

  lemma {:induction false} AnswerStoredAt(ops: seq<Op>, a: Answer, h: string -> string) returns (n: nat)
    requires a in AnswerLog(ops, h)
    ensures n < |ops| && a in AnswersOf(Run(ops[..n], h), ops[n])
  {
    var before := ops[..|ops| - 1];
    if a in AnswerLog(before, h) {
      n := AnswerStoredAt(before, a, h);
      assert before[..n] == ops[..n];
    } else {
      n := |ops| - 1;
    }
  }

  /** The signatures the tables were introspected with, none for those invalidated since. */
  ghost predicate AllSigned(ops: seq<Op>, tables: seq<Table>, sigs: seq<Option<string>>, h: string -> string) {
    |sigs| == |tables| && forall i :: 0 <= i < |tables| ==> Signed(ops, tables[i], sigs[i], h)
  }

  lemma HashesAt(tables: seq<Table>)
    requires forall i :: 0 <= i < |tables| ==> tables[i].ddlHash.Some?
    ensures |Hashes(tables)| == |tables|
    ensures forall i :: 0 <= i < |tables| ==> Hashes(tables)[i] == tables[i].ddlHash.value
  {
    if tables != [] { HashesAt(tables[1..]); }
  }

  lemma {:induction false} SameSignature(ops: seq<Op>, t: Table, more: seq<Op>, u: Table, sig: Option<string>,
                                         h: string -> string)
    requires IdealDigest(h) && t.ddlHash == u.ddlHash && Signed(ops, t, sig, h) && Introspected(more, u, h)
    ensures Signed(more, u, sig, h)
  {
    var other :| Signed(more, u, other, h);
    assert other == sig;
  }

  lemma {:induction false} SignaturesOf(ops: seq<Op>, tables: seq<Table>, h: string -> string)
    returns (sigs: seq<Option<string>>)
    requires AllIntrospected(ops, tables, h)
    ensures AllSigned(ops, tables, sigs, h)
  {
    if tables == [] {
      sigs := [];
    } else {
      var last := tables[|tables| - 1];
      assert last in tables && Introspected(ops, last, h);
      var sig :| Signed(ops, last, sig, h);
      sigs := SignaturesOf(ops, tables[..|tables| - 1], h);
      sigs := sigs + [sig];
    }
  }

  /** Over every run: a memo hit is the answer some earlier call stored for the same statement, and the
      tables then and now were introspected with the same signatures, one by one, invalidations
      included. */
  lemma {:induction false} HitIsSameQuerySameSignatures(ops: seq<Op>, sql: string, h: string -> string)
    returns (n: nat, sigs: seq<Option<string>>)
    requires IdealDigest(h) && Run(ops, h).Active? && MemoHit(Run(ops, h).cache, sql).Some?
    ensures n < |ops| && ops[n] == RunSql(sql, Ok(MemoHit(Run(ops, h).cache, sql).value))
    ensures Run(ops[..n], h).Active? && MemoHit(Run(ops[..n], h).cache, sql).None?
    ensures AllSigned(ops[..n], Run(ops[..n], h).cache.database.tables, sigs, h)
    ensures AllSigned(ops, Run(ops, h).cache.database.tables, sigs, h)
  {
    var now := Run(ops, h).cache.database.tables;
    var a := Answer(Hashes(now), sql, MemoHit(Run(ops, h).cache, sql).value);
    HitIsSameQuerySameSchema(ops, sql, h);
    n := AnswerStoredAt(ops, a, h);
    var past := Run(ops[..n], h).cache.database.tables;
    RunIntrospected(ops[..n], h);
    RunIntrospected(ops, h);
    RunKeepsOk(ops[..n], h);
    RunKeepsOk(ops, h);
    HashesAt(past);
    HashesAt(now);
    sigs := SignaturesOf(ops[..n], past, h);
    forall i | 0 <= i < |now| ensures Signed(ops, now[i], sigs[i], h) {
      assert Hashes(now)[i] == Hashes(past)[i];
      assert now[i] in now;
      SameSignature(ops[..n], past[i], ops, now[i], sigs[i], h);
    }
  }
}
