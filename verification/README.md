# schemadex-core: a model and its proofs

schemadex-core introspects a database once, keeps the schema in memory and on disk, and hands it to
an agent: as a ranked description within a token budget, as query results in Markdown, as generated
example statements, behind a read-only filter.  This project models those parts in Dafny and proves
what they promise.  `dafny verify dfyconfig.toml` checks everything.

## How the model is built

Code that works in place is modelled in place: `ResultMemo.ResultCache`, `SchemaCaching.SchemaCache`,
`Snapshots.HistoryDir` and `RunnerPools.RunnerPool` are classes whose methods are proved equal to
functions on values; the loops of the scanners, the renderers, the foreign-key boost, the truncation
loop, the streaming loop and the diff are methods with invariants.  The theorems are about those
functions: over all inputs, all traces, all interleavings, all runs.

Modules, by subject:

- result memo: `ResultMemo` (the object), `MemoRecency` (sequential traces), `MemoRaces`,
  `MemoRaceRuns` and `MemoQueues` (interleavings of critical sections), `MemoProvenance` (where a hit comes from);
- schema cache: `SchemaModel`, `Fingerprints`, `SchemaCaching` (the object), `SchemaCacheRuns`
  (invariants over runs), `IncrementalRefresh`, `SchemaSignatures` (what reports say about the live
  DDL), `SnapshotNames` and `Snapshots` (history);
- description: `HintRelevance`, `Ranking`, `BoostExample`, `SchemaRendering`, `RenderingLaws`,
  `DescribeBudget`;
- SQL text: `SqlSafety`, `SqlSafetyLaws`, `ReadonlyVerdicts`, `ExplainLaws`, `SqlComments`, `OpenQuotes`,
  `LiteralStrip`, `ExampleQueries`;
- results: `RowRendering`, `TableReading`, `Streaming`;
- runner pool, schema diff, calendar: `RunnerPools`, `SchemaDiff`, `CivilCalendar`;
- shared: `Prelude`, `Text`, `Subsequences`, `StableSort`.

What the program takes from outside is an argument: the tokenizer is any function from text to a
count, `lower` and `fold` are any function for `to_lowercase`, `percent` is any formatting of a
fraction, a live database is a value that says what each introspection call answers, a clock reading
and the outcome of a file write are arguments, a directory is a map listed in any order.  SHA-256 is
an ideal digest: injective, with results that are not empty, hold no colon and differ from the
invalidation marker; `Fingerprints.IdealDigestExists` shows that such functions exist.

## What the code does where its comments say otherwise

- `memo.rs:17-18` says one mutex serialises access; there are two, and `get` and `clear` take them
  one after the other.  Map and queue can drift apart.  `MemoRaceRuns.RunBoundExact` says exactly which
  interleavings stay within capacity, `MemoRaces.RacesKeepBound` that those without a `put` inside a
  `clear` do, and `PutInsideClearBreaksBound` gives one that does not.
- `agent.rs:62-65` reads as one simultaneous boost around the top-scoring tables; the loop reads the
  scores it updates, so a table lifted to exactly the top score passes the boost on to later tables.
  `Ranking.BoostIsSimultaneousExactly` gives the exact condition; `BoostExample` has three tables and
  a hint, scored by `relevance`, for which the order of the tables decides.
- `agent.rs:34-40` lists dropping low-ranked tables as the first fallback; it is the last.
- `validate.rs:211-214` says a literal's contents are replaced with spaces; a literal of any length
  becomes two spaces, and a character outside ASCII becomes the Latin-1 reading of its UTF-8 bytes:
  `LiteralStrip.UnquotedKeptExactly`.
- `safety.rs:135-137` calls the splitter best-effort; it sees quotes but no comments.  `SqlComments`
  says when it splits as if it did see them, and
  `OpenQuotes.OpenQuoteHidesRest` says exactly what a quote left open does to the rest of a batch.
- `cache.rs:193-194` says a refresh rewrites only changed entries; it replaces the whole database.
  `SchemaCacheRuns.RewritingChangedExactly` says when the two would be the same, and
  `CommentOnlyChange` that they need not be.
- `cache.rs:510-511` mentions a fallback to modification times; there is none: a file without a
  timestamp in its name is left alone (unless the limit is 0).
- `lib.rs:217-222` leaves the token budget out of the memo key on purpose; so nothing here says that
  a memo hit fits the budget of the call that gets it.

## Model

| member | source | states |
|---|---|---|
| ResultMemo.ResultCache.constructor | crates/schemadex-core/src/memo.rs:44-50 | a new cache holds nothing and keeps its capacity |
| ResultMemo.ResultCache.PromoteKey | crates/schemadex-core/src/memo.rs:70-75 | moves the key's first queue position, if any, to the back, from any queue |
| ResultMemo.ResultCache.Get | crates/schemadex-core/src/memo.rs:60-77 | answers what the map holds and promotes the key on a hit only; capacity 0 never hits |
| ResultMemo.ResultCache.Put | crates/schemadex-core/src/memo.rs:81-107 | replaces and promotes, or evicts from the front of the queue until there is room and appends; from any state, coherent or not |
| ResultMemo.ResultCache.Clear | crates/schemadex-core/src/memo.rs:110-113 | empties map and queue |
| ResultMemo.ResultCache.Size | crates/schemadex-core/src/memo.rs:116-118 | the number of entries |
| MemoRecency.SequentialRun | crates/schemadex-core/src/memo.rs:60-113 | over every sequential trace: queue without duplicates, queue and map the same keys, size within capacity, every entry the last value put since the last clear |
| MemoRecency.QueueIsNewest | crates/schemadex-core/src/memo.rs:60-113 | refinement: the queue is the `capacity` most recently touched keys of the log of touches, oldest first |
| MemoRecency.HitWindow | crates/schemadex-core/src/memo.rs:60-107 | a key hits if and only if it was touched since the last clear and fewer than `capacity` other keys were touched since its own last touch |
| MemoRecency.LargerCacheHitsMore | crates/schemadex-core/src/memo.rs:60-113 | on any trace a hit at one capacity is a hit with the same value at every larger one |
| MemoRecency.LargerMemoHitsMore | crates/schemadex-core/src/lib.rs:223-252 | hit inclusion over `run_sql` calls, where each cache stores only on its own misses and any call may fail: a hit at one capacity is a hit at every larger one |
| MemoRecency.HitIsStoredAnswer | crates/schemadex-core/src/lib.rs:223-252 | a hit gives the answer of the last access for that key that called `put` |
| MemoRecency.LargerMemoIsNoFresher | crates/schemadex-core/src/lib.rs:223-252 | the larger cache's answer was put at the same access as the smaller one's or at an earlier one |
| MemoRecency.LargerMemoCanBeOlder | crates/schemadex-core/src/lib.rs:223-252 | earlier it can be: for any two keys and three answers, three accesses after which capacity 2 gives the first answer and capacity 1 the third |
| MemoRaces.EvictOutcome | crates/schemadex-core/src/memo.rs:98-104 | eviction never touches an entry the queue has lost, and stops short of making room only when nothing else is left |
| MemoRaces.PutBoundExact | crates/schemadex-core/src/memo.rs:81-107 | from any state, a `put` ends within capacity if and only if fewer than `capacity` entries are untracked (new key) or the size was within capacity (replacement) |
| MemoRaceRuns.ClearOrderStrands | crates/schemadex-core/src/memo.rs:110-113 | over every run: the second half of a clear untracks exactly the entries put since its first half that are still there, and all of those puts if they fit and no other clear intervenes |
| MemoRaceRuns.RunBoundExact | crates/schemadex-core/src/memo.rs:60-113 | over every interleaving, clears anywhere included: the size stays within capacity throughout if and only if no `put` of a new key meets `capacity` or more untracked entries |
| MemoRaces.StepKeepsBounded | crates/schemadex-core/src/memo.rs:60-113 | every critical section keeps all entries tracked and the size within capacity, unless it is a `put` inside a `clear` |
| MemoRaces.RacesKeepBound | crates/schemadex-core/src/memo.rs:60-113 | so does every interleaving of any number of threads without such a `put`, stale and duplicate queue entries included |
| MemoQueues.PutExcess | crates/schemadex-core/src/memo.rs:81-107 | from any state, a `put` raises the queue's lead over the map by at most one, and only by replacing an untracked entry |
| MemoQueues.RacesKeepQueue | crates/schemadex-core/src/memo.rs:60-113 | over the same interleavings the queue holds at most `capacity` keys and one more for every promotion, since it was last cleared, of a key that had left it |
| MemoQueues.StrayPromotion | crates/schemadex-core/src/memo.rs:65-75 | that bound is met: for any two threads and keys a run of four steps with one such promotion and two keys queued at capacity 1 |
| MemoRaces.PutInsideClearBreaksBound | crates/schemadex-core/src/memo.rs:81-113 | the condition is needed: for any two threads and keys a legal run of four steps after which a cache of capacity 1 holds two entries |
| Fingerprints.JoinColonInjective | crates/schemadex-core/src/cache.rs:658-662 | the colon-joined fingerprint input determines the sequence of hashes |
| Fingerprints.FingerprintInjective | crates/schemadex-core/src/cache.rs:658-667 | equal fingerprints, none included, come from equal sequences of table hashes |
| Fingerprints.SplitAtColon | crates/schemadex-core/src/memo.rs:52-56 | a memo key determines its fingerprint and its statement, whatever colons the statement holds |
| Fingerprints.IdealDigestExists | crates/schemadex-core/src/fingerprint.rs:28-30 | the assumption about the digest can be met |
| SchemaModel.FindTable | crates/schemadex-core/src/model.rs:134-138 | the first table whose bare or qualified name equals the given one up to ASCII case; none only if no table answers |
| SchemaModel.FoundInAnyCase | crates/schemadex-core/src/model.rs:134-138 | equality up to ASCII case spelt out: each character the same or the other case of a letter; for bare and qualified names |
| SchemaModel.StringLeExactly | crates/schemadex-core/src/cache.rs:309-309 | the order tables are sorted by: a prefix first, else by the first character that differs |
| SchemaCaching.IntrospectAllTables | crates/schemadex-core/src/cache.rs:620-675 | the parallel and the sequential path give the same database or the same first error |
| SchemaCaching.FirstFailureDecides | crates/schemadex-core/src/cache.rs:638-643 | the earliest failing table's error is the one reported, whatever follows it |
| SchemaCaching.FromIntrospector | crates/schemadex-core/src/cache.rs:128-191 | reuses an envelope that is not stale, else introspects and writes; a failed write gives no cache; the memo starts empty |
| SchemaCaching.SchemaCache.FindPosition | crates/schemadex-core/src/cache.rs:273-284 | the scan for a table stops at the first that answers |
| SchemaCaching.SchemaCache.Compare | crates/schemadex-core/src/cache.rs:214-226 | the report's two lists: same hash as the cached table of that name, or not |
| SchemaCaching.SchemaCache.WriteOut | crates/schemadex-core/src/cache.rs:325-328 | the memo is cleared only after a successful write; a failed one leaves the old or a damaged file |
| SchemaCaching.SchemaCache.Refresh | crates/schemadex-core/src/cache.rs:206-246 | whole effect on memory, disk, memo and report, error paths included |
| SchemaCaching.SchemaCache.RefreshTable | crates/schemadex-core/src/cache.rs:266-330 | whole effect: one table swapped, tables sorted again, fingerprint recomputed, written, memo cleared |
| SchemaCaching.SchemaCache.InvalidateTable | crates/schemadex-core/src/cache.rs:349-385 | whole effect: the marker replaces the hash, fingerprint recomputed, written, memo cleared |
| SchemaCaching.SchemaCache.RunSqlUnchecked | crates/schemadex-core/src/lib.rs:211-254 | answers from the memo on a hit; else passes the answer on and stores it if it is a success and there is a fingerprint |
| SchemaCacheRuns.SwapInPlace | crates/schemadex-core/src/cache.rs:308-309 | after a swap by a table of the same name, the sort moves nothing |
| SchemaCacheRuns.NextKeepsOk | crates/schemadex-core/src/cache.rs:128-385 | each operation keeps, in memory and on disk: tables sorted, fingerprint the hash of the joined hashes, every table hashed |
| SchemaCacheRuns.RunKeepsOk | crates/schemadex-core/src/cache.rs:128-385 | so does every run from an empty cache directory, whichever writes fail |
| SchemaCacheRuns.SuccessLeavesDiskEqual | crates/schemadex-core/src/cache.rs:228-234 | a successful operation leaves disk equal to memory, whatever failed before |
| SchemaCacheRuns.OnlyFailedWritesDiverge | crates/schemadex-core/src/cache.rs:325-328 | disk and memory part only by an operation whose write failed and that reports an error |
| SchemaCacheRuns.RunInSync | crates/schemadex-core/src/cache.rs:128-385 | over every run without a failed write, an open cache equals the file, failed introspections and unknown names included |
| SchemaCacheRuns.RefreshReportsEachTableOnce | crates/schemadex-core/src/cache.rs:214-226 | the report's lists together are the live table names, each as often as introspection lists it |
| SchemaCacheRuns.RewritingChangedExactly | crates/schemadex-core/src/cache.rs:193-234 | rewriting only the changed entries would always give the refreshed fingerprint, and the refreshed tables if and only if the cached entry of every table reported unaltered is the fresh one |
| SchemaCacheRuns.CommentOnlyChange | crates/schemadex-core/src/cache.rs:214-226 | it need not be: a table that changed in its comment alone, with the same DDL hash, is reported unaltered |
| SchemaCacheRuns.InvalidateForcesChange | crates/schemadex-core/src/cache.rs:332-385 | if the refresh right after an invalidation succeeds it reports the table as changed, whatever the live DDL is and even if the invalidation's write failed |
| SchemaCacheRuns.SuccessEmptiesMemo | crates/schemadex-core/src/cache.rs:325-328 | right after any successful operation other than a query, no statement hits the memo |
| SchemaCacheRuns.SecondCallHits | crates/schemadex-core/src/lib.rs:223-252 | with a memo and a fingerprint, asking again right after a success gives the same answer, whatever the runner says now |
| SchemaCacheRuns.ReopenExactly | crates/schemadex-core/src/cache.rs:128-191 | what a successful write leaves for the next process: within the time-to-live the database in memory, after it what an empty directory gives; with a memo of the given capacity |
| SchemaCacheRuns.UnknownNameChangesNothing | crates/schemadex-core/src/cache.rs:266-359 | a name that is no cached table's, in any letter case, is reported and changes neither memory, disk nor memo |
| SchemaCacheRuns.FailedWriteReported | crates/schemadex-core/src/cache.rs:228-328 | a failed write is reported, memory is the new database all the same, the memo is kept and the file is the old one or damaged; a call that fails otherwise changes nothing |
| SchemaSignatures.IntrospectedMirrors | crates/schemadex-core/src/cache.rs:620-675 | an introspected database lists each live table as often as introspection does, with exactly its live comment, columns and keys, and with the hash of its live signature |
| SchemaSignatures.RefreshTableReports | crates/schemadex-core/src/cache.rs:266-330 | a table introspected before is reported as unaltered if and only if its live signature is what it was then, and otherwise as changed |
| SchemaSignatures.RefreshReports | crates/schemadex-core/src/cache.rs:206-246 | so is each table of a full refresh, if no other table goes by its name; one that was not cached is reported as changed |
| SchemaSignatures.RunIntrospected | crates/schemadex-core/src/cache.rs:128-385 | over every run, in memory and on disk: each table is what some operation of the run introspected, with the hash of the signature it saw, or with the marker |
| SchemaSignatures.HitIsSameQuerySameSignatures | crates/schemadex-core/src/lib.rs:223-252 | over every run, a memo hit is the answer an earlier call stored for the same statement, and the tables then and now were introspected with the same signatures, one by one, or invalidated |
| IncrementalRefresh.RefreshEachTables | crates/schemadex-core/src/cache.rs:266-330 | any sequence of table refreshes renews exactly the tables named and moves none |
| IncrementalRefresh.FullRefreshTables | crates/schemadex-core/src/cache.rs:620-675 | a full refresh of the same tables lists the renewed ones in the cached order, whatever order they are introspected in |
| IncrementalRefresh.IncrementalEqualsFull | crates/schemadex-core/src/cache.rs:206-330 | refreshing table by table, in any order and with repetitions, gives the database of a full refresh if and only if every stale table is the first answer to some name refreshed |
| IncrementalRefresh.UnambiguousNameFinds | crates/schemadex-core/src/cache.rs:273-284 | a qualified name that no other table answers to finds its table, so naming every stale table is enough |
| MemoProvenance.RunExplained | crates/schemadex-core/src/lib.rs:223-252 | over every run each memo entry is explained by an answer stored under its statement and its sequence of hashes |
| MemoProvenance.HitIsSameQuerySameSchema | crates/schemadex-core/src/lib.rs:223-252 | a memo hit is an answer stored for the same statement under the same sequence of table hashes, even when a failed write skipped the clear |
| SnapshotNames.TimestampRoundTrip | crates/schemadex-core/src/cache.rs:532-541 | the name of a snapshot, with or without suffix, gives back its timestamp |
| SnapshotNames.FileNameInjective | crates/schemadex-core/src/cache.rs:497-502 | the candidate names of one second are all different, so the search for a free one ends |
| Snapshots.HistoryDir.FreeName | crates/schemadex-core/src/cache.rs:494-502 | finds the first candidate name that is not taken, in any directory |
| Snapshots.HistoryDir.Rotate | crates/schemadex-core/src/cache.rs:582-618 | removes the oldest files beyond the limit, or every file if it is 0, for some listing order |
| Snapshots.HistoryDir.Snapshot | crates/schemadex-core/src/cache.rs:481-514 | writes under a name no file had, then rotates |
| Snapshots.HistoryDir.History | crates/schemadex-core/src/cache.rs:518-553 | every snapshot file's timestamp and database, by rising timestamp |
| Snapshots.RotationDropsOldest | crates/schemadex-core/src/cache.rs:591-616 | for any clock and listing order: rotation removes snapshots only, never one newer than a snapshot it keeps, and changes no kept file |
| Snapshots.RotationKeepsNewest | crates/schemadex-core/src/cache.rs:608-616 | a snapshot stays if and only if it is among the newest `max_history` in timestamp order |
| Snapshots.LimitZeroEmpties | crates/schemadex-core/src/cache.rs:582-590 | with a limit of 0 a snapshot leaves an empty directory, whatever files were there |
| Snapshots.RunHolds | crates/schemadex-core/src/cache.rs:481-514 | with a strictly increasing clock the directory holds exactly the last `max_history` snapshots after any number of calls |
| Snapshots.HistoryIsLastSnapshots | crates/schemadex-core/src/cache.rs:481-553 | so `history` reads back exactly these, in order, however directories are listed |
| HintRelevance.RelevanceLoop | crates/schemadex-core/src/agent.rs:133-147 | the nested loops add up the score, wrapping at 32 bits |
| HintRelevance.ScoreCountsHits | crates/schemadex-core/src/agent.rs:133-147 | before wrapping, the score is ten times the words found in the name plus the number of word and column pairs that match |
| HintRelevance.HitExactly | crates/schemadex-core/src/agent.rs:133-147 | a word hits a name if and only if it stands somewhere in the lower-cased name |
| Text.WordSplitsOff | crates/schemadex-core/src/agent.rs:136-136 | the words of a hint are the runs of characters that are not white space, in order |
| Ranking.CollectTopNames | crates/schemadex-core/src/agent.rs:68-80 | exactly the lower-cased bare and qualified names of the tables at the top score |
| Ranking.IsLinked | crates/schemadex-core/src/agent.rs:86-100 | the two tests of a turn: it names an original top table, or a table now at the top score names it |
| Ranking.BoostInPlace | crates/schemadex-core/src/agent.rs:62-105 | the loop over the score vector, in place |
| Ranking.BoostIsSimultaneousExactly | crates/schemadex-core/src/agent.rs:62-105 | the in-place loop is the simultaneous update if and only if no companion lifted to the top score names a later table that is no companion itself |
| Ranking.NoTableJustBelowTop | crates/schemadex-core/src/agent.rs:62-105 | in particular when no table starts five below the top score |
| Ranking.BoostBounds | crates/schemadex-core/src/agent.rs:83-103 | top tables are never changed; every other gets at least the simultaneous boost and at most 5, saturating |
| BoostExample.PartsListedLast | crates/schemadex-core/src/agent.rs:56-105 | three tables and a hint whose scores are 10, 5 and 0: listed last, the third ends with 5, which the simultaneous update does not give it |
| BoostExample.PartsListedBefore | crates/schemadex-core/src/agent.rs:56-105 | the same tables and hint: listed in front of the second, it keeps 0, and the loop is the simultaneous update |
| Ranking.SimultaneousIgnoresOrder | crates/schemadex-core/src/agent.rs:62-105 | permuting the tables permutes the simultaneous update |
| Ranking.RankIsTheStableOrder | crates/schemadex-core/src/agent.rs:107-110 | the ranking is the one permutation by falling score that keeps equals in order |
| SchemaRendering.RenderColumn | crates/schemadex-core/src/agent.rs:191-242 | a column's line, appended piece by piece, is its pieces at this level put together |
| SchemaRendering.RenderTable | crates/schemadex-core/src/agent.rs:179-262 | so is a table's part, with its columns cut to eight at the last level |
| SchemaRendering.RenderTables | crates/schemadex-core/src/agent.rs:171-265 | so is the whole text |
| SchemaRendering.RenderingOnlyLoses | crates/schemadex-core/src/agent.rs:171-265 | showing less, on fewer tables from the front, renders a character subsequence |
| SchemaRendering.RenderingKeepsCore | crates/schemadex-core/src/agent.rs:186-201 | every rendering keeps, in order, each table's header and the full type lines of its first eight columns |
| RenderingLaws.HiddenLeavesNoTrace | crates/schemadex-core/src/agent.rs:177-262 | a rendering does not depend on anything its flags hide, of any table: samples, comments and checks, keys, columns past the eighth |
| RenderingLaws.ShownIsThere | crates/schemadex-core/src/agent.rs:177-262 | what its flags show of a table is there: header, comment, every column with its sample, comment and check, keys, examples |
| RenderingLaws.TypeLineReadsBack | crates/schemadex-core/src/agent.rs:192-201 | a type line starts with name and type, and the rest says exactly whether the column is NOT NULL, whether it is UNIQUE, and by what it is generated |
| DescribeBudget.DropOneLevel | crates/schemadex-core/src/agent.rs:157-169 | in place: the first flag still on goes off, else the last of several tables goes, else nothing changes |
| DescribeBudget.ChainStep | crates/schemadex-core/src/agent.rs:157-169 | repeated, it walks the fixed chain of fallbacks from all tables to one without levels, which is never dropped, and then stops |
| DescribeBudget.Truncate | crates/schemadex-core/src/agent.rs:113-126 | the loop ends and returns the first fallback that fits, for any tokenizer |
| DescribeBudget.DescribeForAgent | crates/schemadex-core/src/agent.rs:46-127 | the same for the tables selected and ranked by boosted score |
| DescribeBudget.SelectedExactly | crates/schemadex-core/src/agent.rs:50-54 | asked for names: the first answer to each name that some table answers to, in the order and as often as named, and nothing else; asked for none: every table; and only a hint changes the order |
| DescribeBudget.FallbackGivesUp | crates/schemadex-core/src/agent.rs:152-183 | which flags each fallback leaves on: samples go first, then examples, comments, keys, columns past the eighth, and then the last tables; what the caller left out stays out |
| DescribeBudget.FirstFitUnique | crates/schemadex-core/src/agent.rs:113-126 | that determines the result |
| DescribeBudget.FailsExactlyWhenNothingFits | crates/schemadex-core/src/agent.rs:120-125 | it fails if and only if no fallback fits |
| DescribeBudget.FallbacksOnlyLose | crates/schemadex-core/src/agent.rs:113-169 | each fallback's text is a subsequence of every earlier one's |
| DescribeBudget.DropsLowestRanked | crates/schemadex-core/src/agent.rs:107-126 | no dropped table is ranked above one that is kept |
| SqlSafety.SplitStatements | crates/schemadex-core/src/safety.rs:138-171 | the scan that jumps over doubled quotes cuts exactly where the plain quote-toggling automaton sees a semicolon outside quotes |
| SqlSafety.StatementsRejoin | crates/schemadex-core/src/safety.rs:138-171 | the statements joined by semicolons are the text, up to one trailing semicolon |
| SqlSafety.AssertReadonlyLoop | crates/schemadex-core/src/safety.rs:19-28 | reports the first refusal among the statements that are not blank |
| SqlSafety.StripLeadingNoise | crates/schemadex-core/src/safety.rs:64-87 | rounds of white space and one comment until nothing changes |
| SqlSafety.SkipExplainModifiers | crates/schemadex-core/src/safety.rs:104-133 | a parenthesised list, then modifier words |
| SqlSafety.Explained | crates/schemadex-core/src/safety.rs:43-51 | what an `EXPLAIN` explains is strictly shorter, so the recursion ends on every text |
| SqlSafety.BatchIsPartByPart | crates/schemadex-core/src/safety.rs:19-28 | if `a` ends outside quotes, `a;b` passes if and only if both pass, and otherwise reports the first refusal |
| SqlComments.AgreeExactly | crates/schemadex-core/src/safety.rs:138-171 | against a splitter that reads comments: the same statements if and only if both cut at the same semicolons |
| SqlComments.QuotelessCommentsAgreeExactly | crates/schemadex-core/src/safety.rs:138-171 | if no comment holds a quote, the splitter gives the statements meant if and only if no comment holds a semicolon; so without comments always |
| SqlComments.CommentReadAsStripped | crates/schemadex-core/src/safety.rs:64-87 | that splitter reads a comment exactly as far as the filter strips one |
| OpenQuotes.OpenQuoteHidesRest | crates/schemadex-core/src/safety.rs:19-171 | for every accepted part that ends inside a quote of either kind, text behind it without that quote passes if and only if the last statement was settled by its first words: not behind an `EXPLAIN` with nothing to explain, and behind an unclosed option list as what follows the list is judged |
| OpenQuotes.VerdictWithTail | crates/schemadex-core/src/safety.rs:31-133 | the verdict on any accepted statement with white space, a semicolon and more text behind it |
| OpenQuotes.ApostropheHidesRest | crates/schemadex-core/src/safety.rs:138-171 | a single apostrophe anywhere behind a read-only first word is such a quote |
| OpenQuotes.CommentHidesRest | crates/schemadex-core/src/safety.rs:145-164 | so is the apostrophe of any line comment behind such a statement: its line's end does not end the quote |
| OpenQuotes.BareExplainHidesNothing | crates/schemadex-core/src/safety.rs:43-51 | behind an `EXPLAIN` with nothing to explain everything is refused, although a quote is open |
| OpenQuotes.BareExplainSample | crates/schemadex-core/src/safety.rs:64-73 | such a part exists |
| SqlSafetyLaws.BatchVerdict | crates/schemadex-core/src/safety.rs:19-28 | a batch passes if and only if each of its statements is blank or passes |
| SqlSafetyLaws.VerdictByFirstWord | crates/schemadex-core/src/safety.rs:31-40 | behind white space and comments: no leading word is refused, and a leading word other than `EXPLAIN` passes if and only if it is `SELECT`, `WITH`, `SHOW`, `DESCRIBE` or `DESC`, in any letter case |
| SqlSafetyLaws.SinglePieceVerdict | crates/schemadex-core/src/safety.rs:19-53 | an uncut text: a blank one passes, one without a word behind its white space and comments is refused, any other passes if and only if that word is one of those five, unless it is `EXPLAIN` |
| ReadonlyVerdicts.AcceptedExactly | crates/schemadex-core/src/safety.rs:6-62 | a statement passes if and only if, inside all its `EXPLAIN`s and behind white space and comments, it starts with one of the six words in any letter case; a refusal quotes the first 80 characters there |
| ReadonlyVerdicts.BatchAcceptedExactly | crates/schemadex-core/src/safety.rs:10-28 | a batch passes if and only if each of its statements is blank or starts with such a word |
| ExplainLaws.ExplainIsTransparent | crates/schemadex-core/src/safety.rs:41-51 | behind any noise, `EXPLAIN` with any number of `ANALYZE`, `VERBOSE` and `FORMAT x`, in any letter case and with any white space, is judged exactly as what it explains, whatever that is |
| ExplainLaws.ExplainOptionsTransparent | crates/schemadex-core/src/safety.rs:104-133 | so is `EXPLAIN` with a parenthesised list of options in front of such modifiers |
| SqlSafetyLaws.LineCommentStripped | crates/schemadex-core/src/safety.rs:68-73 | a leading line comment disappears |
| SqlSafetyLaws.BlockCommentStripped | crates/schemadex-core/src/safety.rs:74-80 | so does a leading block comment, at its first closing mark |
| SqlSafetyLaws.LeadingNoiseIgnored | crates/schemadex-core/src/safety.rs:31-87 | any number of comments and white space characters, in any order, in front of a statement leave its verdict alone |
| SqlSafetyLaws.VerdictIgnoresCase | crates/schemadex-core/src/safety.rs:19-53 | a batch passes if and only if its upper-case form does |
| LiteralStrip.SkipLiteral | crates/schemadex-core/src/validate.rs:222-235 | from inside a literal to behind its first quote that is not doubled, or to the end |
| LiteralStrip.StripStringLiterals | crates/schemadex-core/src/validate.rs:215-242 | two spaces for each closed literal, one for an open one, every other byte as a character |
| LiteralStrip.Utf8ReadsBack | crates/schemadex-core/src/validate.rs:236-239 | the bytes of a character are its shortest UTF-8 form (RFC 3629, section 3) and give it back |
| LiteralStrip.UnquotedKeptExactly | crates/schemadex-core/src/validate.rs:236-239 | text without a quote comes out as it went in if and only if it is ASCII |
| LiteralStrip.LiteralRoundTrip | crates/schemadex-core/src/examples.rs:56-60 | a value with its quotes doubled reads back from the literal |
| LiteralStrip.LiteralBlanked | crates/schemadex-core/src/validate.rs:215-242 | the blanked text does not depend on the value |
| ExampleQueries.GenerateExamples | crates/schemadex-core/src/examples.rs:20-79 | the four shapes in order, the first sentinel only, cut to the limit |
| ExampleQueries.ScanAndProjection | crates/schemadex-core/src/examples.rs:24-49 | the scan reads the key's first column, else the first column, else everything; the projection the first three columns of two or more |
| ExampleQueries.SentinelIsFirst | crates/schemadex-core/src/examples.rs:51-64 | the exclusion query is about the first column with a dominant value |
| ExampleQueries.LimitCutsShapes | crates/schemadex-core/src/examples.rs:77-79 | the four shapes as far as the table has them, and a limit keeps the first of them |
| ExampleQueries.JoinEquatesKey | crates/schemadex-core/src/examples.rs:66-75 | there is a join if and only if the first foreign key has a column on both sides, and it equates these two columns |
| ExampleQueries.SentinelQueryIsSafe | crates/schemadex-core/src/examples.rs:51-64 | for every value, quotes and semicolons included: the exclusion query is one statement that passes the filter, its literal reads back, its blanked form depends on the names alone |
| ExampleQueries.ExamplesAreReadonly | crates/schemadex-core/src/examples.rs:20-79 | every example is one statement that passes the filter, for names without quotes and semicolons |
| RowRendering.RenderBodyRow | crates/schemadex-core/src/lib.rs:139-153 | a row's text: as many cells as columns, missing ones empty, surplus ones dropped |
| RowRendering.RowRoundTrip | crates/schemadex-core/src/lib.rs:139-153 | splitting at unescaped pipes and unescaping gives the cells back, padded or cut, newlines as spaces, whatever pipes and backslashes they hold |
| RowRendering.RenderDashes | crates/schemadex-core/src/lib.rs:130-137 | one dash field for each column |
| RowRendering.AssembleTable | crates/schemadex-core/src/lib.rs:155-172 | header, dashes, rows, and the marker if asked for |
| RowRendering.RenderTableForAgent | crates/schemadex-core/src/lib.rs:71-121 | the largest row prefix whose text fits, or an error that names the size of the empty table, for any tokenizer |
| TableReading.TableReadsBack | crates/schemadex-core/src/lib.rs:122-172 | line by line the text is the header, the dashes, the first rows in order and the marker, and each row's line decodes to its cells; the header is one line if and only if no column name holds a newline |
| TableReading.HeaderReadsBackExactly | crates/schemadex-core/src/lib.rs:123-128 | the header decodes to the column names if and only if no name holds a pipe |
| RowRendering.MostRowsDetermined | crates/schemadex-core/src/lib.rs:103-120 | that determines the result, and it fails if and only if no prefix fits |
| RowRendering.MarkerTellsTruth | crates/schemadex-core/src/lib.rs:104-106 | the text ends in the marker if and only if rows are missing from it or the runner had cut the result, and the marker names the number shown |
| RowRendering.MarkerInjective | crates/schemadex-core/src/lib.rs:168-170 | different counts give different markers |
| Streaming.SumRowBytes | crates/schemadex-core/src/backends/sqlite.rs:435-441 | a row's bytes, saturating |
| Streaming.RunSqlStreaming | crates/schemadex-core/src/backends/sqlite.rs:423-459 | stops at the end, at an error, or in front of the first row that would break the budget; one row is always kept; `truncated` if and only if rows remain |
| Streaming.NamesOfFirst | crates/schemadex-core/src/backends/sqlite.rs:430-434 | the column names are those of the first row that has any |
| Streaming.KeepsLongestPrefix | crates/schemadex-core/src/backends/sqlite.rs:430-452 | no longer prefix is within budget |
| Streaming.StopDetermined | crates/schemadex-core/src/backends/sqlite.rs:430-458 | stream and budget determine the outcome |
| Streaming.CostOfBytes | crates/schemadex-core/src/introspector.rs:61-64 | the sum of the rounded estimates is at most three tenths of the bytes and less than one token a row below it |
| Streaming.KeptBytesWithinBudget | crates/schemadex-core/src/backends/sqlite.rs:442-451 | two or more kept rows of B bytes: 3 B is at most 10 times the budget plus 9 a row, when nothing saturates |
| RunnerPools.RunnerPool.InsertOrGet | crates/schemadex-core/src/backends/mod.rs:181-185 | an occupied entry wins over the runner just built |
| RunnerPools.RunnerPool.ClearPoolCache | crates/schemadex-core/src/backends/mod.rs:189-191 | empties the pool |
| RunnerPools.RunnerPool.SharedRunner | crates/schemadex-core/src/backends/mod.rs:170-186 | an undisturbed call: the stored runner, else the built one, stored; a failed connect changes nothing |
| RunnerPools.OnlyClearRemoves | crates/schemadex-core/src/backends/mod.rs:170-191 | no step but a clear removes or replaces a stored runner |
| RunnerPools.SameRunnerExactly | crates/schemadex-core/src/backends/mod.rs:170-191 | over every interleaving, two calls for one URL get the same runner if and only if no clear falls between their hit or insert points |
| RunnerPools.ReturnedForTheUrlAsked | crates/schemadex-core/src/backends/mod.rs:170-186 | over every interleaving, what a caller is handed is for the URL its last call named |
| RunnerPools.EachUrlItsOwnRunner | crates/schemadex-core/src/backends/mod.rs:170-186 | a runner handed out for a URL was connected to that URL and is never handed out for another |
| RunnerPools.StepOfACall | crates/schemadex-core/src/backends/mod.rs:170-191 | a step moves its own caller only, and only an insert or a clear touches the pool; whoever is handed a runner or fails to connect may call again |
| RunnerPools.ConnectsOnlyAfterMiss | crates/schemadex-core/src/backends/mod.rs:171-180 | over every interleaving, a caller connects only for a call that found the pool without its URL |
| RunnerPools.LosersAreNeverReturned | crates/schemadex-core/src/backends/mod.rs:178-185 | a runner whose builder finds the entry taken is never returned to anyone in the run |
| RunnerPools.ClearSeparatesCallers | crates/schemadex-core/src/backends/mod.rs:188-191 | over every interleaving, a runner returned before a clear is never returned after it, for any URL |
| SchemaDiff.CollectTables | crates/schemadex-core/src/bin/schemadex_diff.rs:187-196 | an ordered map by folded name, the last of several equal names winning |
| SchemaDiff.TableMapFacts | crates/schemadex-core/src/bin/schemadex_diff.rs:187-196 | its keys rise, are the folded names, and each holds a table of that name |
| SchemaDiff.LastTableWins | crates/schemadex-core/src/bin/schemadex_diff.rs:187-196 | under each folded name the map holds the last table of that name |
| SchemaDiff.LastColumnWins | crates/schemadex-core/src/bin/schemadex_diff.rs:263-274 | the same for columns |
| SchemaDiff.CollectMissing | crates/schemadex-core/src/bin/schemadex_diff.rs:200-209 | the values under keys the other map lacks, in key order |
| SchemaDiff.DiffColumnsLoop | crates/schemadex-core/src/bin/schemadex_diff.rs:263-310 | the three loops over the two ordered column maps |
| SchemaDiff.DiffLoop | crates/schemadex-core/src/bin/schemadex_diff.rs:185-261 | the loops over the two ordered table maps, additions and removals sorted by name |
| SchemaDiff.TablesListedOnce | crates/schemadex-core/src/bin/schemadex_diff.rs:198-249 | additions and removals are sorted by name, changed tables by folded name; no list has two of one folded name; an addition or removal is exactly a table its own map holds under a name the other lacks |
| SchemaDiff.ColumnsListedOnce | crates/schemadex-core/src/bin/schemadex_diff.rs:263-310 | a table's edits list each folded column name once, in rising order |
| SchemaDiff.TablePatch | crates/schemadex-core/src/bin/schemadex_diff.rs:198-210 | removals and additions turn the old set of folded names into the new one, and are disjoint |
| SchemaDiff.ColumnPatch | crates/schemadex-core/src/bin/schemadex_diff.rs:263-310 | a table's edits turn its old map from folded column names to types into the new one |
| SchemaDiff.NoColumnEdits | crates/schemadex-core/src/bin/schemadex_diff.rs:275-309 | there are none if and only if the two maps are equal |
| SchemaDiff.ChangedSurvivors | crates/schemadex-core/src/bin/schemadex_diff.rs:241-249 | the diff lists exactly the surviving tables whose column types differ, with those edits |
| SchemaDiff.EmptyIffSame | crates/schemadex-core/src/bin/schemadex_diff.rs:256-258 | no edits if and only if the table names and every surviving table's columns agree |
| SchemaDiff.SwapSwaps | crates/schemadex-core/src/bin/schemadex_diff.rs:185-261 | swapping the inputs swaps additions and removals and turns every changed table around |
| SchemaDiff.SwapColumns | crates/schemadex-core/src/bin/schemadex_diff.rs:263-310 | the same for columns, and every retyping is turned around |
| CivilCalendar.EraAndDay64 | crates/schemadex-core/src/bin/schemadex_docs.rs:378-380 | truncating division with its correction for negative days is floor division, and the day of the era fits its unsigned type |
| CivilCalendar.YearOfEra64 | crates/schemadex-core/src/bin/schemadex_docs.rs:381 | no unsigned subtraction underflows, and the day of the era lies within the year found |
| CivilCalendar.MonthAndDay64 | crates/schemadex-core/src/bin/schemadex_docs.rs:384-386 | month and day of a day of the March-based year, without underflow |
| CivilCalendar.MachineIntegersLoseNothing | crates/schemadex-core/src/bin/schemadex_docs.rs:377-387 | on the program's 64-bit types no step overflows or underflows, and the result is that of unbounded arithmetic |
| CivilCalendar.YearOfEraIsRight | crates/schemadex-core/src/bin/schemadex_docs.rs:381-383 | the year-of-era expression gives the one year whose days hold the day of the era |
| CivilCalendar.CivilInvertsDayNumber | crates/schemadex-core/src/bin/schemadex_docs.rs:377-387 | the date is valid and its day number, summed over year and month lengths, is the input |
| CivilCalendar.DayNumberInvertsCivil | crates/schemadex-core/src/bin/schemadex_docs.rs:377-387 | every valid proleptic Gregorian date comes back from its day number |
| CivilCalendar.CivilStepsToNextDay | crates/schemadex-core/src/bin/schemadex_docs.rs:377-387 | day 0 is 1970-01-01 and one day more is the next calendar day |
| CivilCalendar.IsoUtcIsTheInstant | crates/schemadex-core/src/bin/schemadex_docs.rs:370-392 | for every i64: a valid date, hour, minute and second in range (RFC 3339, section 5.7), and together they give back the timestamp |

## Left out

- Live drivers, catalog SQL, the async runtime, bindings and front ends: input, output and glue.
- JSON, zstd and SHA-256: a file holds the envelope written or is damaged; read errors other than a
  missing or undecodable file, and the migration of caches in the old file format, are not modelled.
- Auto-snapshots inside populate and refresh: `Snapshots` models `snapshot` as a call of its own; a
  failed snapshot never fails the caller.
- Snapshots within one second: their order is the listing order, so nothing is said about which of
  them survives; a nonce is unbounded where the program has 32 bits.
- Failing removals, subdirectories and undecodable files in the history directory.
- Embedding indexes and `load`: they read and write a file as it is, and no invariant here depends on them.
- `federation.rs`, `overlap.rs` and the type classifiers: separate tools that neither change the cache nor
  read what it guarantees.
- Column fields that no modelled code reads (data type, ordinal, default), and row count estimates.
- `f32` fractions: real numbers whose printing is a parameter.  White space, ASCII case and upper case
  are modelled character by character; full Unicode lower-casing is a parameter.
- Byte offsets: text is a sequence of characters; all characters the scanners look for are ASCII, so
  both find the same positions.
- Overflow checks of debug builds: the relevance counter wraps, as in a release build.
- Text of dates and of the diff's Markdown: proved are the numeric fields and the edits.
- The sorting of the diff's surviving tables by key: the ordered map lists them in that order already.
- Regular expressions and comma splitting of `validate.rs`, `hint.rs`, fuzzy matching, sampling and
  PII statistics: they rest on library semantics or floating point.
- ResultMemo.ResultCache.Get: runs undisturbed; interleaved calls are the steps of `MemoRaces`.
- ResultMemo.ResultCache.Clear: runs undisturbed; interleaved calls are the steps of `MemoRaces`.
- ExplainLaws.ExplainIsTransparent: a `FORMAT` whose value is not a word is not among the modifiers; the filter then takes the value for the statement.
- Column headers and type lines: joined text that is used as a whole; what is proved is that no level drops them.
- RunnerPools.RunnerPool.SharedRunner: runs undisturbed; interleaved calls are the steps of the protocol in the same module.
- MemoProvenance.HitIsSameQuerySameSchema: says nothing about the age of the answer, because the program keeps entries whose schema comes back after a failed write skipped the clear.
- MemoProvenance.RunExplained: runs of one process at a time; a second process on the same file is not modelled.
- Ranking.NoTableJustBelowTop: one direction only; the exact condition is `BoostIsSimultaneousExactly`.
