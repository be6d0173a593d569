/** The history directory: unique snapshot files, rotation, and reading back. */
module Snapshots {
  import opened Prelude
  import opened StableSort
  import opened SchemaModel
  import opened SchemaCaching
  import opened SnapshotNames

  type Directory = map<string, Envelope>
  type Entry = (nat, string)

  /** `listing` is the directory in whatever order the file system returns it. */
  ghost predicate Lists(listing: seq<string>, files: Directory) {
    NoDuplicates(listing) && ToSet(listing) == files.Keys
  }

  function Entries(listing: seq<string>): seq<Entry> {
    if listing == [] then []
    else
      var name := listing[|listing| - 1];
      var ts := ParseTs(name);
      Entries(listing[..|listing| - 1]) + if ts.Some? then [(ts.value, name)] else []
  }

  predicate TsLe(a: Entry, b: Entry) {
    a.0 <= b.0
  }

  /** Snapshot files, oldest first. */
  function ByAge(listing: seq<string>): seq<Entry> {
    Sort(Entries(listing), TsLe)
  }

  function NamesIn(entries: seq<Entry>): set<string> {
    set e | e in entries :: e.1
  }

  /** `rotate_history`: with a limit of 0 every file goes, else the oldest extras. */
  function Rotated(files: Directory, listing: seq<string>, maxHistory: nat): Directory {
    if maxHistory == 0 then map[]
    else
      var entries := ByAge(listing);
      if |entries| <= maxHistory then files else files - NamesIn(entries[..|entries| - maxHistory])
  }

  /** `history`: every snapshot file with its database, by timestamp. */
  function HistoryOf(files: Directory, listing: seq<string>): seq<(nat, Database)> {
    var entries := ByAge(listing);
    seq(|entries|, i requires 0 <= i < |entries| =>
      (entries[i].0, if entries[i].1 in files then files[entries[i].1].database else Database("", "", [], None)))
  }

  // ----- The object ----------------------------------------------------------------------------

  /** One `snapshot` call: a free name is taken and the directory is rotated, in some listing order. */
  ghost predicate SnapshotStep(before: Directory, after: Directory, database: Database, now: nat, maxHistory: nat) {
    exists nonce, listing :: SnapshotWith(before, after, database, now, maxHistory, nonce, listing)
  }

  ghost predicate SnapshotWith(before: Directory, after: Directory, database: Database, now: nat, maxHistory: nat,
                               nonce: nat, listing: seq<string>)
  {
    var written := before[FileName(now, nonce) := Envelope(now, database)];
    && FileName(now, nonce) !in before
    && (forall k: nat :: k < nonce ==> FileName(now, k) in before)
    && Lists(listing, written)
    && after == Rotated(written, listing, maxHistory)
  }

  class HistoryDir {
    var files: Directory

    constructor ()
      ensures files == map[]
    {
      files := map[];
    }

    method ReadDir() returns (listing: seq<string>)
      ensures Lists(listing, files)
    {
      listing := [];
      var rest := files.Keys;
      while rest != {}
        invariant NoDuplicates(listing) && ToSet(listing) !! rest
        invariant ToSet(listing) + rest == files.Keys
        decreases rest
      {
        var name :| name in rest;
        assert name !in ToSet(listing);
        assert ToSet(listing + [name]) == ToSet(listing) + {name};
        listing := listing + [name];
        rest := rest - {name};
      }
    }

    /** The first candidate name that no file has. */
    method FreeName(now: nat) returns (name: string, nonce: nat)
      ensures name == FileName(now, nonce) && name !in files
      ensures forall k: nat :: k < nonce ==> FileName(now, k) in files
    {
      nonce := 0;
      name := FileName(now, nonce);
      ghost var tried: set<string> := {};
      while name in files
        invariant name == FileName(now, nonce)
        invariant forall k: nat :: k < nonce ==> FileName(now, k) in files
        invariant tried <= files.Keys && |tried| == nonce
        invariant forall s :: s in tried ==> exists k: nat :: k < nonce && s == FileName(now, k)
        decreases |files.Keys| - nonce
      {
        if name in tried {
          var k: nat :| k < nonce && name == FileName(now, k);
          FileNameInjective(now, k, nonce);
        }
        tried := tried + {name};
        SubsetCardinality(tried, files.Keys);
        nonce := nonce + 1;
        name := FileName(now, nonce);
      }
    }

    /** Remove the listed files. */
    method RemoveFiles(entries: seq<Entry>)
      modifies this
      ensures files == old(files) - NamesIn(entries)
    {
      for i := 0 to |entries|
        invariant files == old(files) - NamesIn(entries[..i])
      {
        files := files - {entries[i].1};
      }
      assert entries[..|entries|] == entries;
    }

    method Rotate(maxHistory: nat)
      modifies this
      ensures exists listing :: Lists(listing, old(files)) && files == Rotated(old(files), listing, maxHistory)
    {
      var listing := ReadDir();
      if maxHistory == 0 {
        files := map[];
        return;
      }
      var entries := ByAge(listing);
      if |entries| <= maxHistory {
        return;
      }
      RemoveFiles(entries[..|entries| - maxHistory]);
    }

    method Snapshot(database: Database, now: nat, maxHistory: nat) returns (name: string)
      modifies this
      ensures name !in old(files)
      ensures SnapshotStep(old(files), files, database, now, maxHistory)
    {
      var nonce;
      name, nonce := FreeName(now);
      files := files[name := Envelope(now, database)];
      ghost var written := files;
      Rotate(maxHistory);
      ghost var listing :| Lists(listing, written) && files == Rotated(written, listing, maxHistory);
      assert SnapshotWith(old(files), files, database, now, maxHistory, nonce, listing);
    }

    method History() returns (r: seq<(nat, Database)>)
      ensures exists listing :: Lists(listing, files) && r == HistoryOf(files, listing)
    {
      var listing := ReadDir();
      r := HistoryOf(files, listing);
    }
  }

  // ----- Any clock, any directory --------------------------------------------------------------

  lemma {:induction false} EntriesMembers(listing: seq<string>)
    requires NoDuplicates(listing)
    ensures NoDuplicates(Entries(listing))
    ensures forall e: Entry :: e in Entries(listing) <==> e.1 in listing && ParseTs(e.1) == Some(e.0)
  {
    if listing != [] {
      var before, name := listing[..|listing| - 1], listing[|listing| - 1];
      EntriesMembers(before);
      assert listing == before + [name];
      assert name !in before;
    }
  }

  lemma ByAgeFacts(listing: seq<string>)
    requires NoDuplicates(listing)
    ensures Sorted(ByAge(listing), TsLe) && NoDuplicates(ByAge(listing))
    ensures forall e: Entry :: e in ByAge(listing) <==> e.1 in listing && ParseTs(e.1) == Some(e.0)
  {
    EntriesMembers(listing);
    SortIsSorted(Entries(listing), TsLe);
    SortKeepsDistinct(Entries(listing), TsLe);
    SortIsPermutation(Entries(listing), TsLe);
    forall e: Entry ensures e in ByAge(listing) <==> e in Entries(listing) {
      assert e in ToSet(ByAge(listing)) <==> e in ToSet(Entries(listing));
    }
  }

  lemma GoneIsOldest(files: Directory, listing: seq<string>, maxHistory: nat, gone: string) returns (i: nat)
    requires Lists(listing, files) && maxHistory > 0
    requires gone in files && gone !in Rotated(files, listing, maxHistory)
    ensures i < |ByAge(listing)| - maxHistory
    ensures ByAge(listing)[i].1 == gone && ParseTs(gone) == Some(ByAge(listing)[i].0)
  {
    ByAgeFacts(listing);
    var entries := ByAge(listing);
    var e :| e in entries[..|entries| - maxHistory] && e.1 == gone;
    i :| 0 <= i < |entries| - maxHistory && entries[i] == e;
    assert entries[i] in entries;
  }

  lemma KeptIsNewer(files: Directory, listing: seq<string>, maxHistory: nat, kept: string) returns (j: nat)
    requires Lists(listing, files) && maxHistory > 0
    requires kept in Rotated(files, listing, maxHistory) && ParseTs(kept).Some?
    ensures |ByAge(listing)| - maxHistory <= j < |ByAge(listing)|
    ensures ByAge(listing)[j] == (ParseTs(kept).value, kept)
  {
    ByAgeFacts(listing);
    var entries := ByAge(listing);
    var n := |entries| - maxHistory;
    var e := (ParseTs(kept).value, kept);
    assert kept in ToSet(listing) && e in entries;
    j :| 0 <= j < |entries| && entries[j] == e;
    if n > 0 {
      assert kept !in NamesIn(entries[..n]);
      assert e !in entries[..n];
      assert forall m :: 0 <= m < n ==> entries[..n][m] == entries[m];
    }
  }

  /** Rotation removes snapshots only, none of them newer than a snapshot it keeps, and with a
      positive limit it leaves every other file alone. */
  lemma RotationDropsOldest(files: Directory, listing: seq<string>, maxHistory: nat, gone: string, kept: string)
    requires Lists(listing, files) && maxHistory > 0
    requires gone in files && gone !in Rotated(files, listing, maxHistory)
    requires kept in Rotated(files, listing, maxHistory)
    ensures kept in files && Rotated(files, listing, maxHistory)[kept] == files[kept]
    ensures ParseTs(gone).Some?
    ensures ParseTs(kept).Some? ==> ParseTs(gone).value <= ParseTs(kept).value
  {
    ByAgeFacts(listing);
    var i := GoneIsOldest(files, listing, maxHistory, gone);
    if ParseTs(kept).Some? {
      var j := KeptIsNewer(files, listing, maxHistory, kept);
      assert TsLe(ByAge(listing)[i], ByAge(listing)[j]);
    }
  }

  /** Rotation keeps exactly the newest `maxHistory` snapshots, or all of them if they fit. */
  lemma RotationKeepsNewest(files: Directory, listing: seq<string>, maxHistory: nat, e: Entry)
    requires Lists(listing, files) && maxHistory > 0 && e in ByAge(listing)
    ensures var entries := ByAge(listing);
      e.1 in Rotated(files, listing, maxHistory) <==>
        e in entries[if |entries| > maxHistory then |entries| - maxHistory else 0..]
  {
    ByAgeFacts(listing);
    var entries := ByAge(listing);
    assert e.1 in ToSet(listing);
    if |entries| > maxHistory {
      var n := |entries| - maxHistory;
      assert entries == entries[..n] + entries[n..];
      if e.1 in NamesIn(entries[..n]) {
        var other :| other in entries[..n] && other.1 == e.1;
        assert other in entries;
        assert other == e;
      }
    }
  }

  /** With a limit of 0 a snapshot leaves nothing behind, neither itself nor any file that was there,
      whatever its name. */
  lemma LimitZeroEmpties(before: Directory, after: Directory, database: Database, now: nat)
    requires SnapshotStep(before, after, database, now, 0)
    ensures after == map[]
  {
  }

  // ----- A strictly increasing clock -----------------------------------------------------------

  datatype Snap = Snap(now: nat, database: Database)

  ghost predicate Increasing(snaps: seq<Snap>) {
    && (forall i :: 0 <= i < |snaps| ==> snaps[i].now < U64_LIMIT)
    && (forall i, j :: 0 <= i < j < |snaps| ==> snaps[i].now < snaps[j].now)
  }

  /** The directories a run of `snapshot` calls goes through, from an empty one. */
  ghost predicate IsRun(snaps: seq<Snap>, dirs: seq<Directory>, maxHistory: nat) {
    |dirs| == |snaps| + 1 && dirs[0] == map[] && forall i :: 0 <= i < |snaps| ==> CallAt(snaps, dirs, maxHistory, i)
  }

  ghost predicate CallAt(snaps: seq<Snap>, dirs: seq<Directory>, maxHistory: nat, i: nat)
    requires i < |snaps| && |dirs| == |snaps| + 1
  {
    SnapshotStep(dirs[i], dirs[i + 1], snaps[i].database, snaps[i].now, maxHistory)
  }

  function Last(n: nat, snaps: seq<Snap>): seq<Snap> {
    if |snaps| <= n then snaps else snaps[|snaps| - n..]
  }

  function NameOf(s: Snap): string {
    FileName(s.now, 0)
  }

  /** The directory that holds exactly these snapshots, one file each. */
  ghost predicate Holds(files: Directory, snaps: seq<Snap>) {
    && files.Keys == (set s | s in snaps :: NameOf(s))
    && forall s :: s in snaps ==> NameOf(s) in files && files[NameOf(s)] == Envelope(s.now, s.database)
  }

  function EntriesOf(snaps: seq<Snap>): seq<Entry> {
    seq(|snaps|, i requires 0 <= i < |snaps| => (snaps[i].now, NameOf(snaps[i])))
  }

  lemma ListedEntries(files: Directory, snaps: seq<Snap>, listing: seq<string>)
    requires Increasing(snaps) && Holds(files, snaps) && Lists(listing, files)
    ensures ToSet(ByAge(listing)) == ToSet(EntriesOf(snaps))
  {
    ByAgeFacts(listing);
    var sorted, expected := ByAge(listing), EntriesOf(snaps);
    forall i | 0 <= i < |snaps| ensures expected[i] in sorted {
      TimestampRoundTrip(snaps[i].now, 0);
      assert snaps[i] in snaps && NameOf(snaps[i]) in ToSet(listing);
    }
    forall i | 0 <= i < |sorted| ensures sorted[i] in expected {
      assert sorted[i] in sorted && sorted[i].1 in ToSet(listing);
      var s :| s in snaps && NameOf(s) == sorted[i].1;
      TimestampRoundTrip(s.now, 0);
      var k :| 0 <= k < |snaps| && snaps[k] == s;
      assert expected[k] == sorted[i];
    }
  }

  /** Listed in any order, the files sort to the snapshots' own order. */
  lemma ListingOf(files: Directory, snaps: seq<Snap>, listing: seq<string>)
    requires Increasing(snaps) && Holds(files, snaps) && Lists(listing, files)
    ensures ByAge(listing) == EntriesOf(snaps)
  {
    ByAgeFacts(listing);
    ListedEntries(files, snaps, listing);
    var expected := EntriesOf(snaps);
    assert forall i :: 0 <= i < |snaps| ==> expected[i].0 == snaps[i].now;
    SortedAlike(ByAge(listing), expected);
  }

  lemma SortedAlike(sorted: seq<Entry>, expected: seq<Entry>)
    requires Sorted(sorted, TsLe) && NoDuplicates(sorted) && ToSet(sorted) == ToSet(expected)
    requires forall i, j :: 0 <= i < j < |expected| ==> expected[i].0 < expected[j].0
    ensures sorted == expected
  {
    forall i, j | 0 <= i < j < |sorted| ensures TsLe(sorted[i], sorted[j]) && !TsLe(sorted[j], sorted[i]) {
      assert sorted[i] in ToSet(expected) && sorted[j] in ToSet(expected);
      var a :| 0 <= a < |expected| && expected[a] == sorted[i];
      var b :| 0 <= b < |expected| && expected[b] == sorted[j];
      assert a != b;
    }
    StrictlySortedUnique(sorted, expected, TsLe);
  }

  lemma AddSnap(files: Directory, snaps: seq<Snap>, s: Snap)
    requires Increasing(snaps + [s]) && Holds(files, snaps)
    ensures NameOf(s) !in files
    ensures Holds(files[NameOf(s) := Envelope(s.now, s.database)], snaps + [s])
  {
    var all := snaps + [s];
    assert all[|snaps|] == s;
    forall t | t in snaps ensures NameOf(t) != NameOf(s) && t in all {
      var i :| 0 <= i < |snaps| && snaps[i] == t;
      assert all[i] == t;
      TimestampRoundTrip(t.now, 0);
      TimestampRoundTrip(s.now, 0);
    }
    var after := files[NameOf(s) := Envelope(s.now, s.database)];
    forall name ensures name in after <==> name in (set t | t in all :: NameOf(t)) {
      if name in after && name != NameOf(s) {
        assert name in (set t | t in snaps :: NameOf(t));
      }
      if name in (set t | t in all :: NameOf(t)) {
        var t :| t in all && NameOf(t) == name;
        assert t in snaps || t == s;
      }
    }
  }

  lemma RotateHeld(files: Directory, snaps: seq<Snap>, listing: seq<string>, maxHistory: nat)
    requires 1 <= maxHistory && |snaps| <= maxHistory + 1 && Increasing(snaps)
    requires Holds(files, snaps) && Lists(listing, files)
    ensures Holds(Rotated(files, listing, maxHistory), Last(maxHistory, snaps))
  {
    ListingOf(files, snaps, listing);
    if |snaps| > maxHistory {
      var entries := EntriesOf(snaps);
      assert entries[..1] == [entries[0]];
      assert NamesIn(entries[..1]) == {NameOf(snaps[0])};
    }
  }

  lemma {:induction false} SnapshotHolds(before: Directory, after: Directory, kept: seq<Snap>, s: Snap, maxHistory: nat)
    requires maxHistory >= 1 && |kept| <= maxHistory && Increasing(kept + [s]) && Holds(before, kept)
    requires SnapshotStep(before, after, s.database, s.now, maxHistory)
    ensures Holds(after, Last(maxHistory, kept + [s]))
  {
    AddSnap(before, kept, s);
    var nonce, listing :| SnapshotWith(before, after, s.database, s.now, maxHistory, nonce, listing);
    assert nonce == 0;
    RotateHeld(before[NameOf(s) := Envelope(s.now, s.database)], kept + [s], listing, maxHistory);
  }

  lemma IncreasingLast(n: nat, snaps: seq<Snap>)
    requires Increasing(snaps)
    ensures Increasing(Last(n, snaps))
  {
    if |snaps| > n {
      assert snaps[|snaps| - n..|snaps|] == Last(n, snaps);
    }
  }

  lemma IncreasingSuffix(n: nat, snaps: seq<Snap>, s: Snap)
    requires Increasing(snaps + [s])
    ensures Increasing(snaps) && Increasing(Last(n, snaps)) && Increasing(Last(n, snaps) + [s])
    ensures Increasing(Last(n, Last(n, snaps) + [s]))
  {
    var all := snaps + [s];
    assert all[0..|snaps|] == snaps;
    IncreasingLast(n, snaps);
    IncreasingLast(|Last(n, snaps)| + 1, all);
    assert Last(|Last(n, snaps)| + 1, all) == Last(n, snaps) + [s];
    IncreasingLast(n, Last(n, snaps) + [s]);
  }

  lemma PrefixStep(snaps: seq<Snap>, k: nat)
    requires Increasing(snaps) && 0 < k <= |snaps|
    ensures snaps[..k] == snaps[..k - 1] + [snaps[k - 1]] && Increasing(snaps[..k - 1] + [snaps[k - 1]])
  {
    assert snaps[0..k] == snaps[..k];
  }

  lemma LastOfAppend(n: nat, snaps: seq<Snap>, s: Snap)
    requires n >= 1
    ensures Last(n, Last(n, snaps) + [s]) == Last(n, snaps + [s])
  {
  }

  /** The directory with one file for each snapshot. */
  function DirOf(snaps: seq<Snap>): Directory {
    if snaps == [] then map[]
    else
      var last := snaps[|snaps| - 1];
      DirOf(snaps[..|snaps| - 1])[NameOf(last) := Envelope(last.now, last.database)]
  }

  lemma {:induction false} DirOfHolds(snaps: seq<Snap>)
    requires Increasing(snaps)
    ensures Holds(DirOf(snaps), snaps)
  {
    if snaps != [] {
      var before, last := snaps[..|snaps| - 1], snaps[|snaps| - 1];
      assert snaps[0..|before|] == before && snaps == before + [last];
      DirOfHolds(before);
      AddSnap(DirOf(before), before, last);
    }
  }

  lemma HoldsIsDirOf(files: Directory, snaps: seq<Snap>)
    requires Increasing(snaps) && Holds(files, snaps)
    ensures files == DirOf(snaps)
  {
    DirOfHolds(snaps);
    var other := DirOf(snaps);
    assert files.Keys == other.Keys;
    forall name | name in files ensures files[name] == other[name] {
      var s :| s in snaps && NameOf(s) == name;
    }
  }

  lemma RunStep(before: seq<Snap>, s: Snap, files: Directory, maxHistory: nat)
    requires maxHistory >= 1 && Increasing(before + [s])
    requires SnapshotStep(DirOf(Last(maxHistory, before)), files, s.database, s.now, maxHistory)
    ensures files == DirOf(Last(maxHistory, before + [s]))
  {
    var kept := Last(maxHistory, before);
    IncreasingSuffix(maxHistory, before, s);
    DirOfHolds(kept);
    SnapshotHolds(DirOf(kept), files, kept, s, maxHistory);
    LastOfAppend(maxHistory, before, s);
    HoldsIsDirOf(files, Last(maxHistory, kept + [s]));
  }

  /** The directory expected after `i` calls. */
  function DirAfter(snaps: seq<Snap>, maxHistory: nat, i: nat): Directory {
    if i <= |snaps| then DirOf(Last(maxHistory, snaps[..i])) else map[]
  }

  lemma OneMoreCall(snaps: seq<Snap>, i: nat, before: Directory, after: Directory, maxHistory: nat)
    requires maxHistory >= 1 && Increasing(snaps) && i < |snaps| && before == DirAfter(snaps, maxHistory, i)
    requires SnapshotStep(before, after, snaps[i].database, snaps[i].now, maxHistory)
    ensures after == DirAfter(snaps, maxHistory, i + 1)
  {
    PrefixStep(snaps, i + 1);
    RunStep(snaps[..i], snaps[i], after, maxHistory);
  }

  lemma CallHolds(snaps: seq<Snap>, dirs: seq<Directory>, maxHistory: nat, i: nat)
    requires maxHistory >= 1 && Increasing(snaps) && i < |snaps| && |dirs| == |snaps| + 1
    requires CallAt(snaps, dirs, maxHistory, i) && dirs[i] == DirAfter(snaps, maxHistory, i)
    ensures dirs[i + 1] == DirAfter(snaps, maxHistory, i + 1)
  {
    OneMoreCall(snaps, i, dirs[i], dirs[i + 1], maxHistory);
  }

  /** Induction along a run: each state is the model's if the one before it is. */
  lemma {:induction false} FollowModel<S>(states: seq<S>, model: nat -> S, k: nat)
    requires k < |states| && states[0] == model(0)
    requires forall i: nat :: i + 1 < |states| && states[i] == model(i) ==> states[i + 1] == model(i + 1)
    ensures states[k] == model(k)
  {
    if k > 0 {
      FollowModel(states, model, k - 1);
      assert states[k - 1] == model(k - 1);
    }
  }

  lemma RunHolds(snaps: seq<Snap>, dirs: seq<Directory>, maxHistory: nat)
    requires maxHistory >= 1 && Increasing(snaps) && IsRun(snaps, dirs, maxHistory)
    ensures dirs[|snaps|] == DirOf(Last(maxHistory, snaps))
  {
    var model := (i: nat) => DirAfter(snaps, maxHistory, i);
    assert snaps[..0] == [] && DirOf(Last(maxHistory, [])) == map[];
    forall i: nat | i + 1 < |dirs| && dirs[i] == model(i) ensures dirs[i + 1] == model(i + 1) {
      CallHolds(snaps, dirs, maxHistory, i);
    }
    FollowModel(dirs, model, |snaps|);
    assert snaps[..|snaps|] == snaps;
  }

  lemma HistoryOfHeld(files: Directory, kept: seq<Snap>, listing: seq<string>)
    requires Increasing(kept) && Holds(files, kept) && Lists(listing, files)
    ensures HistoryOf(files, listing) == seq(|kept|, i requires 0 <= i < |kept| => (kept[i].now, kept[i].database))
  {
    ListingOf(files, kept, listing);
    forall i | 0 <= i < |kept| ensures NameOf(kept[i]) in files && files[NameOf(kept[i])].database == kept[i].database {
      assert kept[i] in kept;
    }
  }

  /** With a strictly increasing clock and room for at least one file, history reads back exactly
      the last `maxHistory` snapshots, in order, whatever order directories are listed in. */
  lemma HistoryIsLastSnapshots(snaps: seq<Snap>, dirs: seq<Directory>, listing: seq<string>, maxHistory: nat)
    requires maxHistory >= 1 && Increasing(snaps) && IsRun(snaps, dirs, maxHistory) && Lists(listing, dirs[|snaps|])
    ensures var kept := Last(maxHistory, snaps);
      HistoryOf(dirs[|snaps|], listing) == seq(|kept|, i requires 0 <= i < |kept| => (kept[i].now, kept[i].database))
  {
    var kept := Last(maxHistory, snaps);
    var files := dirs[|snaps|];
    RunHolds(snaps, dirs, maxHistory);
    IncreasingLast(maxHistory, snaps);
    DirOfHolds(kept);
    HistoryOfHeld(files, kept, listing);
  }
}
