/** Refreshing table by table against refreshing everything at once. */
module IncrementalRefresh {
  import opened Prelude
  import opened StableSort
  import opened SchemaModel
  import opened Fingerprints
  import opened SchemaCaching
  import opened SchemaCacheRuns

  datatype Call = Call(name: string, now: nat, w: WriteOutcome)

  /** A sequence of `refresh_table` calls, whatever each returns. */
  function RefreshEach(c: Cache, live: Live, calls: seq<Call>, h: string -> string): Cache {
    if calls == [] then c
    else
      var last := calls[|calls| - 1];
      RefreshTableCache(RefreshEach(c, live, calls[..|calls| - 1], h), live, last.name, last.now, last.w, h).0
  }

  function Refs(tables: seq<Table>): seq<TableRef> {
    MapSeq(tables, RefOf)
  }

  /** The live database has the cached tables, in any order, and answers for each. */
  ghost predicate SameTablesLive(db: Database, live: Live, h: string -> string) {
    && live.backend == db.backend
    && live.names.Ok?
    && NoDuplicates(live.names.value)
    && ToSet(live.names.value) == ToSet(Refs(db.tables))
    && forall i :: 0 <= i < |db.tables| ==> FreshTable(live, RefOf(db.tables[i]), h).Ok?
  }

  /** For some call, table `i` is the first to answer to its name. */
  predicate Covered(tables: seq<Table>, calls: seq<Call>, i: nat) {
    calls != [] &&
    (FindTable(tables, calls[|calls| - 1].name) == Some(i) || Covered(tables, calls[..|calls| - 1], i))
  }

  function Renewed(live: Live, t: Table, h: string -> string): Table {
    match FreshTable(live, RefOf(t), h) case Ok(n) => n case Err(_) => t
  }

  function RenewAll(tables: seq<Table>, live: Live, h: string -> string): seq<Table> {
    seq(|tables|, i requires 0 <= i < |tables| => Renewed(live, tables[i], h))
  }

  ghost predicate SameRefs(a: seq<Table>, b: seq<Table>) {
    |a| == |b| && forall i :: 0 <= i < |a| ==> RefOf(a[i]) == RefOf(b[i])
  }

  lemma TailRefs(a: seq<Table>, b: seq<Table>)
    requires a != [] && SameRefs(a, b)
    ensures SameRefs(a[1..], b[1..])
  {
    assert forall i :: 0 <= i < |a[1..]| ==> a[1..][i] == a[i + 1] && b[1..][i] == b[i + 1];
  }

  lemma AnswersByRef(a: Table, b: Table, name: string)
    requires RefOf(a) == RefOf(b)
    ensures AnswersTo(a, name) == AnswersTo(b, name)
  {
    assert a.name == b.name && a.QualifiedName() == b.QualifiedName();
  }

  lemma {:induction false} FindBySameRefs(a: seq<Table>, b: seq<Table>, name: string)
    requires SameRefs(a, b)
    ensures FindTable(a, name) == FindTable(b, name)
  {
    if a != [] {
      AnswersByRef(a[0], b[0], name);
      if !AnswersTo(a[0], name) {
        TailRefs(a, b);
        FindBySameRefs(a[1..], b[1..], name);
      }
    }
  }

  lemma OneRefresh(c: Cache, live: Live, call: Call, h: string -> string)
    requires IdealDigest(h) && DatabaseOk(c.database, h)
    requires forall i :: 0 <= i < |c.database.tables| ==> FreshTable(live, RefOf(c.database.tables[i]), h).Ok?
    ensures var db := c.database;
      var r := RefreshTableCache(c, live, call.name, call.now, call.w, h).0.database;
      var p := FindTable(db.tables, call.name);
      && DatabaseOk(r, h) && r.backend == db.backend && r.urlHash == db.urlHash
      && r.tables == if p.None? then db.tables else db.tables[p.value := Renewed(live, db.tables[p.value], h)]
  {
    var p := FindTable(c.database.tables, call.name);
    if p.Some? {
      RefreshedTableOk(c.database, p.value, live, h);
    }
  }

  function Expected(tables: seq<Table>, live: Live, calls: seq<Call>, h: string -> string): seq<Table> {
    seq(|tables|, i requires 0 <= i < |tables| =>
      if Covered(tables, calls, i) then Renewed(live, tables[i], h) else tables[i])
  }

  lemma ExpectedStep(tables: seq<Table>, live: Live, calls: seq<Call>, h: string -> string)
    requires calls != []
    ensures var p := FindTable(tables, calls[|calls| - 1].name);
      var before := Expected(tables, live, calls[..|calls| - 1], h);
      Expected(tables, live, calls, h) ==
      if p.None? then before else before[p.value := Renewed(live, tables[p.value], h)]
  {
  }

  /** What the calls leave in memory: every table some call named is renewed, the rest untouched. */
  lemma {:induction false} RefreshEachTables(c: Cache, live: Live, calls: seq<Call>, h: string -> string)
    requires IdealDigest(h) && DatabaseOk(c.database, h) && SameTablesLive(c.database, live, h)
    ensures var r := RefreshEach(c, live, calls, h).database;
      && DatabaseOk(r, h) && r.backend == c.database.backend && r.urlHash == c.database.urlHash
      && r.tables == Expected(c.database.tables, live, calls, h)
  {
    var tables := c.database.tables;
    if calls == [] {
      assert Expected(tables, live, calls, h) == tables;
    } else {
      var before, last := calls[..|calls| - 1], calls[|calls| - 1];
      RefreshEachTables(c, live, before, h);
      var mid := RefreshEach(c, live, before, h);
      forall i | 0 <= i < |tables| ensures RefOf(mid.database.tables[i]) == RefOf(tables[i]) {
      }
      FindBySameRefs(mid.database.tables, tables, last.name);
      OneRefresh(mid, live, last, h);
      ExpectedStep(tables, live, calls, h);
    }
  }

  lemma RenewedAmongFresh(db: Database, live: Live, a: nat, h: string -> string)
    requires IdealDigest(h) && SameTablesLive(db, live, h) && FreshTables(live, live.names.value, h).Ok?
    requires a < |db.tables|
    ensures Renewed(live, db.tables[a], h) in FreshTables(live, live.names.value, h).value
  {
    var refs := live.names.value;
    FreshTablesHashed(live, refs, h);
    assert Refs(db.tables)[a] in ToSet(Refs(db.tables));
    var i :| 0 <= i < |refs| && refs[i] == RefOf(db.tables[a]);
    assert Ok(FreshTables(live, refs, h).value[i]) == FreshTable(live, refs[i], h);
  }

  lemma CachedAmongLive(db: Database, live: Live, i: nat, h: string -> string) returns (a: nat)
    requires SameTablesLive(db, live, h) && i < |live.names.value|
    ensures a < |db.tables| && RefOf(db.tables[a]) == live.names.value[i]
  {
    assert live.names.value[i] in ToSet(Refs(db.tables));
    a :| 0 <= a < |db.tables| && Refs(db.tables)[a] == live.names.value[i];
  }

  lemma FreshTablesMembers(db: Database, live: Live, h: string -> string)
    requires IdealDigest(h) && SameTablesLive(db, live, h)
    ensures FreshTables(live, live.names.value, h).Ok?
    ensures ToSet(FreshTables(live, live.names.value, h).value) == ToSet(RenewAll(db.tables, live, h))
  {
    var refs := live.names.value;
    var all := RenewAll(db.tables, live, h);
    forall i | 0 <= i < |refs| ensures FreshTable(live, refs[i], h).Ok? {
      var a := CachedAmongLive(db, live, i, h);
    }
    AllFresh(live, refs, h);
    FreshTablesHashed(live, refs, h);
    var ts := FreshTables(live, refs, h).value;
    forall i | 0 <= i < |ts| ensures ts[i] in all {
      var a := CachedAmongLive(db, live, i, h);
      assert Ok(ts[i]) == FreshTable(live, refs[i], h);
      assert all[a] == ts[i];
    }
    forall a | 0 <= a < |all| ensures all[a] in ts {
      RenewedAmongFresh(db, live, a, h);
    }
  }

  lemma {:induction false} AllFresh(live: Live, refs: seq<TableRef>, h: string -> string)
    requires forall i :: 0 <= i < |refs| ==> FreshTable(live, refs[i], h).Ok?
    ensures FreshTables(live, refs, h).Ok?
  {
    if refs != [] { AllFresh(live, refs[..|refs| - 1], h); }
  }

  lemma RenewedStrict(tables: seq<Table>, live: Live, h: string -> string)
    requires Sorted(tables, NameLe) && DistinctNames(tables)
    ensures DistinctNames(RenewAll(tables, live, h)) && StrictlySorted(RenewAll(tables, live, h), NameLe)
  {
    var all := RenewAll(tables, live, h);
    forall i | 0 <= i < |all| ensures all[i].QualifiedName() == tables[i].QualifiedName() {
      assert RefOf(all[i]) == RefOf(tables[i]);
    }
    forall i, j | 0 <= i < j < |all| ensures NameLe(all[i], all[j]) {
      assert NameLe(tables[i], tables[j]);
    }
    SortedDistinctIsStrict(all);
  }

  /** Sorting tables that all bear distinct names gives the strict order. */
  lemma SortStrict(ts: seq<Table>, all: seq<Table>)
    requires NoDuplicates(ts) && DistinctNames(all) && ToSet(ts) == ToSet(all)
    ensures StrictlySorted(Sort(ts, NameLe), NameLe) && ToSet(Sort(ts, NameLe)) == ToSet(all)
  {
    var sorted := Sort(ts, NameLe);
    NameLeIsPreorder();
    SortIsSorted(ts, NameLe);
    SortKeepsDistinct(ts, NameLe);
    SortIsPermutation(ts, NameLe);
    forall i, j | 0 <= i < j < |sorted| ensures sorted[i].QualifiedName() != sorted[j].QualifiedName() {
      assert sorted[i] in ToSet(all) && sorted[j] in ToSet(all);
      var a :| 0 <= a < |all| && all[a] == sorted[i];
      var b :| 0 <= b < |all| && all[b] == sorted[j];
      assert a != b;
    }
    SortedDistinctIsStrict(sorted);
  }

  /** The full refresh lists the renewed tables in the cached order. */
  lemma FullRefreshTables(db: Database, live: Live, h: string -> string)
    requires IdealDigest(h) && DatabaseOk(db, h) && DistinctNames(db.tables) && SameTablesLive(db, live, h)
    ensures IntrospectAll(live, db.urlHash, h) ==
      Ok(MakeDatabase(db.backend, db.urlHash, RenewAll(db.tables, live, h), h))
  {
    FreshTablesMembers(db, live, h);
    var refs := live.names.value;
    var ts := FreshTables(live, refs, h).value;
    var all := RenewAll(db.tables, live, h);
    FreshTablesHashed(live, refs, h);
    forall i, j | 0 <= i < j < |ts| ensures ts[i] != ts[j] {
      assert RefOf(ts[i]) == refs[i] && RefOf(ts[j]) == refs[j];
    }
    RenewedStrict(db.tables, live, h);
    SortStrict(ts, all);
    StrictlySortedUnique(Sort(ts, NameLe), all, NameLe);
  }

  /** A name that no other table answers to finds its table. */
  lemma UnambiguousNameFinds(tables: seq<Table>, i: nat)
    requires i < |tables|
    requires forall j :: 0 <= j < |tables| && j != i ==> !AnswersTo(tables[j], tables[i].QualifiedName())
    ensures FindTable(tables, tables[i].QualifiedName()) == Some(i)
  {
  }

  /** Every cached table that differs from the live one is the first answer to some name refreshed. */
  ghost predicate StaleCovered(tables: seq<Table>, live: Live, calls: seq<Call>, h: string -> string) {
    forall i :: 0 <= i < |tables| && tables[i] != Renewed(live, tables[i], h) ==> Covered(tables, calls, i)
  }

  lemma {:induction false} ExpectedIsAll(tables: seq<Table>, live: Live, calls: seq<Call>, h: string -> string)
    ensures Expected(tables, live, calls, h) == RenewAll(tables, live, h) <==> StaleCovered(tables, live, calls, h)
  {
    var some, all := Expected(tables, live, calls, h), RenewAll(tables, live, h);
    if some == all {
      forall i | 0 <= i < |tables| && tables[i] != Renewed(live, tables[i], h) ensures Covered(tables, calls, i) {
        assert some[i] == all[i];
      }
    }
  }

  /** Refreshing tables one at a time, in any order and with any repetition, ends in the database a
      full refresh gives (tables, order and fingerprint) if and only if every cached table that
      differs from the live one is the first answer to some name refreshed. */
  lemma {:induction false} IncrementalEqualsFull(c: Cache, live: Live, calls: seq<Call>, now: nat, w: WriteOutcome,
                                                 h: string -> string)
    requires IdealDigest(h) && DatabaseOk(c.database, h) && DistinctNames(c.database.tables)
    requires SameTablesLive(c.database, live, h)
    ensures RefreshEach(c, live, calls, h).database == RefreshCache(c, live, now, w, h).0.database <==>
      StaleCovered(c.database.tables, live, calls, h)
  {
    var tables := c.database.tables;
    FullRefreshTables(c.database, live, h);
    RefreshEachTables(c, live, calls, h);
    ExpectedIsAll(tables, live, calls, h);
    assert RefreshCache(c, live, now, w, h).0.database ==
      MakeDatabase(c.database.backend, c.database.urlHash, RenewAll(tables, live, h), h);
  }
}
