/** Where a memo hit comes from: an answer stored for the same statement under the same schema. */
module MemoProvenance {
  import opened Prelude
  import opened SchemaModel
  import opened Fingerprints
  import opened ResultMemo
  import opened SchemaCaching
  import opened SchemaCacheRuns

  /** An answer of the runner that was stored, and the table hashes it was stored under. */
  datatype Answer = Answer(hashes: seq<string>, sql: string, result: CachedResult)

  /** What one operation stores. */
  function AnswersOf(world: World, op: Op): seq<Answer> {
    if op.RunSql? && world.Active? && MemoKey(world.cache, op.sql).Some? && MemoHit(world.cache, op.sql).None?
      && op.answer.Ok?
    then [Answer(Hashes(world.cache.database.tables), op.sql, op.answer.value)]
    else []
  }

  /** Every answer stored over a run since the cache was opened. */
  function AnswerLog(ops: seq<Op>, h: string -> string): seq<Answer> {
    if ops == [] || ops[|ops| - 1].Open? then []
    else AnswerLog(ops[..|ops| - 1], h) + AnswersOf(Run(ops[..|ops| - 1], h), ops[|ops| - 1])
  }

  ghost predicate Explains(a: Answer, key: string, result: CachedResult, h: string -> string) {
    && FingerprintOf(a.hashes, h).Some?
    && key == Key(FingerprintOf(a.hashes, h).value, a.sql)
    && result == a.result
    && forall s :: s in a.hashes ==> WellFormedHash(s)
  }

  ghost predicate Explained(store: Store<CachedResult>, answers: seq<Answer>, h: string -> string) {
    forall key :: key in store.entries ==> exists a :: a in answers && Explains(a, key, store.entries[key], h)
  }

  ghost predicate WorldExplained(world: World, answers: seq<Answer>, h: string -> string) {
    world.Active? && world.cache.memo.Some? ==> Explained(world.cache.memo.value.store, answers, h)
  }

  lemma {:induction false} EvictOnlyRemoves<V>(s: Store<V>, capacity: nat)
    ensures forall k :: k in Evict(s, capacity).entries ==>
      k in s.entries && Evict(s, capacity).entries[k] == s.entries[k]
    decreases |s.order|
  {
    if |s.entries| >= capacity && s.order != [] {
      EvictOnlyRemoves(Store(s.entries - {s.order[0]}, s.order[1..]), capacity);
    }
  }

  lemma PutExplained(s: Store<CachedResult>, capacity: nat, key: string, answers: seq<Answer>, a: Answer,
                     h: string -> string)
    requires Explained(s, answers, h) && Explains(a, key, a.result, h)
    ensures Explained(PutStore(s, capacity, key, a.result), answers + [a], h)
  {
    EvictOnlyRemoves(s, capacity);
    var r := PutStore(s, capacity, key, a.result);
    forall k | k in r.entries ensures exists b :: b in answers + [a] && Explains(b, k, r.entries[k], h) {
      if k == key && r.entries[k] == a.result {
        assert a in answers + [a] && Explains(a, k, r.entries[k], h);
      } else {
        var b :| b in answers && Explains(b, k, s.entries[k], h);
        assert b in answers + [a];
      }
    }
  }

  lemma HashesWellFormed(tables: seq<Table>)
    requires forall i :: 0 <= i < |tables| ==> TableHashed(tables[i])
    ensures forall s :: s in Hashes(tables) ==> WellFormedHash(s)
  {
    if tables != [] { HashesWellFormed(tables[1..]); }
  }

  lemma {:induction false} StepExplained(world: World, op: Op, answers: seq<Answer>, h: string -> string)
    requires IdealDigest(h) && WorldOk(world, h) && WorldExplained(world, answers, h) && !op.Open?
    ensures WorldExplained(Next(world, op, h), answers + AnswersOf(world, op), h)
  {
    if AnswersOf(world, op) == [] {
      assert answers + AnswersOf(world, op) == answers;
    } else {
      var c := world.cache;
      HashesWellFormed(c.database.tables);
      PutExplained(c.memo.value.store, c.memo.value.capacity, MemoKey(c, op.sql).value, answers,
                   AnswersOf(world, op)[0], h);
    }
  }

  lemma {:induction false} RunExplained(ops: seq<Op>, h: string -> string)
    requires IdealDigest(h)
    ensures WorldExplained(Run(ops, h), AnswerLog(ops, h), h)
  {
    if ops != [] && !ops[|ops| - 1].Open? {
      RunExplained(ops[..|ops| - 1], h);
      RunKeepsOk(ops[..|ops| - 1], h);
      StepExplained(Run(ops[..|ops| - 1], h), ops[|ops| - 1], AnswerLog(ops[..|ops| - 1], h), h);
    }
  }

  /** Over every run, failed writes that skipped the clear included: a memo hit is an answer that
      was stored, since the cache was opened, for the same statement when the tables had the same
      sequence of DDL hashes. */
  lemma {:induction false} HitIsSameQuerySameSchema(ops: seq<Op>, sql: string, h: string -> string)
    requires IdealDigest(h)
    requires Run(ops, h).Active? && MemoHit(Run(ops, h).cache, sql).Some?
    ensures Answer(Hashes(Run(ops, h).cache.database.tables), sql,
                   MemoHit(Run(ops, h).cache, sql).value)
      in AnswerLog(ops, h)
  {
    RunExplained(ops, h);
    RunKeepsOk(ops, h);
    var c := Run(ops, h).cache;
    var key := MemoKey(c, sql).value;
    var hit := MemoHit(c, sql).value;
    var a :| a in AnswerLog(ops, h) && Explains(a, key, hit, h);
    var mine := Hashes(c.database.tables);
    HashesWellFormed(c.database.tables);
    SplitAtColon(FingerprintOf(a.hashes, h).value, a.sql, c.database.fingerprint.value, sql);
    FingerprintInjective(a.hashes, mine, h);
  }
}
