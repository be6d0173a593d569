/** The schema diff, read as a patch.

Names are matched through `fold`, the program's lower-casing.  `Assoc` is its ordered map: entries
by rising key, a later insertion of the same key replacing the earlier one.
*/
module SchemaDiff {
  import opened Prelude
  import opened StableSort
  import opened SchemaModel

  // ----- Ordered maps ------------------------------------------------------------------------------

  type Assoc<V> = seq<(string, V)>

  function Put<V>(m: Assoc<V>, key: string, value: V): Assoc<V> {
    if m == [] then [(key, value)]
    else if m[0].0 == key then [(key, value)] + m[1..]
    else if StringLe(key, m[0].0) then [(key, value)] + m
    else [m[0]] + Put(m[1..], key, value)
  }

  function Keys<V(==)>(m: Assoc<V>): set<string> {
    set e | e in m :: e.0
  }

  function Get<V>(m: Assoc<V>, key: string): Option<V> {
    if m == [] then None else if m[0].0 == key then Some(m[0].1) else Get(m[1..], key)
  }

  /** Rising keys, none twice. */
  ghost predicate Rising<V>(m: Assoc<V>) {
    forall i, j :: 0 <= i < j < |m| ==> StringLe(m[i].0, m[j].0) && m[i].0 != m[j].0
  }

  lemma {:induction false} GetKeys<V>(m: Assoc<V>, key: string)
    ensures Get(m, key).Some? <==> key in Keys(m)
    ensures Get(m, key).Some? ==> (key, Get(m, key).value) in m
  {
    if m != [] {
      GetKeys(m[1..], key);
      assert m == [m[0]] + m[1..];
      assert Keys(m) == {m[0].0} + Keys(m[1..]);
    }
  }

  lemma {:induction false} GetEntry<V>(m: Assoc<V>, i: nat)
    requires Rising(m) && i < |m|
    ensures Get(m, m[i].0) == Some(m[i].1)
  {
    if i > 0 {
      assert m[0].0 != m[i].0;
      assert m[1..][i - 1] == m[i];
      GetEntry(m[1..], i - 1);
    }
  }

  lemma {:induction false} PutGet<V>(m: Assoc<V>, key: string, value: V, other: string)
    ensures Get(Put(m, key, value), other) == if other == key then Some(value) else Get(m, other)
  {
    if m != [] && m[0].0 != key && !StringLe(key, m[0].0) {
      PutGet(m[1..], key, value, other);
    }
  }

  lemma PutKeys<V>(m: Assoc<V>, key: string, value: V)
    ensures Keys(Put(m, key, value)) == Keys(m) + {key}
  {
    forall other ensures other in Keys(Put(m, key, value)) <==> other in Keys(m) + {key} {
      GetKeys(m, other);
      GetKeys(Put(m, key, value), other);
      PutGet(m, key, value, other);
    }
  }

  lemma {:induction false} RisingAhead<V>(key: string, value: V, m: Assoc<V>)
    requires Rising(m) && (m != [] ==> StringLe(key, m[0].0) && key != m[0].0)
    ensures Rising([(key, value)] + m)
  {
    forall j | 0 <= j < |m| ensures StringLe(key, m[j].0) && key != m[j].0 {
      if j > 0 {
        StringLeTransitive(key, m[0].0, m[j].0);
        StringLeTotal(m[0].0, m[j].0);
      }
    }
  }

  lemma {:induction false} PutRising<V>(m: Assoc<V>, key: string, value: V)
    requires Rising(m)
    ensures Rising(Put(m, key, value))
  {
    if m != [] && m[0].0 != key {
      StringLeTotal(key, m[0].0);
      if StringLe(key, m[0].0) {
        RisingAhead(key, value, m);
      } else {
        PutRising(m[1..], key, value);
        RisingAhead(m[0].0, m[0].1, Put(m[1..], key, value));
      }
    }
  }

  // ----- Collecting --------------------------------------------------------------------------------

  function TableMap(tables: seq<Table>, fold: string -> string): Assoc<Table> {
    if tables == [] then []
    else
      var last := tables[|tables| - 1];
      Put(TableMap(tables[..|tables| - 1], fold), fold(last.QualifiedName()), last)
  }

  function ColumnMap(columns: seq<Column>, fold: string -> string): Assoc<Column> {
    if columns == [] then []
    else
      var last := columns[|columns| - 1];
      Put(ColumnMap(columns[..|columns| - 1], fold), fold(last.name), last)
  }

  lemma {:induction false} TableMapRises(tables: seq<Table>, fold: string -> string)
    ensures Rising(TableMap(tables, fold))
  {
    if tables != [] {
      var before, last := tables[..|tables| - 1], tables[|tables| - 1];
      TableMapRises(before, fold);
      PutRising(TableMap(before, fold), fold(last.QualifiedName()), last);
    }
  }

  lemma {:induction false} TableMapEntries(tables: seq<Table>, fold: string -> string, e: (string, Table))
    requires e in TableMap(tables, fold)
    ensures e.0 == fold(e.1.QualifiedName()) && e.1 in tables
  {
    var before, last := tables[..|tables| - 1], tables[|tables| - 1];
    PutEntries(TableMap(before, fold), fold(last.QualifiedName()), last);
    if e in TableMap(before, fold) { TableMapEntries(before, fold, e); }
  }

  lemma {:induction false} TableMapKeys(tables: seq<Table>, fold: string -> string)
    ensures Keys(TableMap(tables, fold)) == set t | t in tables :: fold(t.QualifiedName())
  {
    if tables != [] {
      var before, last := tables[..|tables| - 1], tables[|tables| - 1];
      TableMapKeys(before, fold);
      PutKeys(TableMap(before, fold), fold(last.QualifiedName()), last);
      assert tables == before + [last];
    }
  }

  /** The ordered map: rising keys, which are the folded names, each over a table of that name. */
  lemma {:induction false} TableMapFacts(tables: seq<Table>, fold: string -> string)
    ensures Rising(TableMap(tables, fold))
    ensures forall e :: e in TableMap(tables, fold) ==> e.0 == fold(e.1.QualifiedName()) && e.1 in tables
    ensures Keys(TableMap(tables, fold)) == set t | t in tables :: fold(t.QualifiedName())
  {
    TableMapRises(tables, fold);
    TableMapKeys(tables, fold);
    forall e | e in TableMap(tables, fold) ensures e.0 == fold(e.1.QualifiedName()) && e.1 in tables {
      TableMapEntries(tables, fold, e);
    }
  }

  lemma {:induction false} ColumnMapFacts(columns: seq<Column>, fold: string -> string)
    ensures Rising(ColumnMap(columns, fold))
    ensures forall e :: e in ColumnMap(columns, fold) ==> e.0 == fold(e.1.name)
  {
    if columns != [] {
      var before, last := columns[..|columns| - 1], columns[|columns| - 1];
      ColumnMapFacts(before, fold);
      PutRising(ColumnMap(before, fold), fold(last.name), last);
      PutEntries(ColumnMap(before, fold), fold(last.name), last);
    }
  }

  lemma {:induction false} PutEntries<V>(m: Assoc<V>, key: string, value: V)
    ensures forall e :: e in Put(m, key, value) ==> e in m || e == (key, value)
  {
    if m != [] && m[0].0 != key && !StringLe(key, m[0].0) {
      PutEntries(m[1..], key, value);
    }
  }

  /** Under a folded name the map holds the last table of that name. */
  lemma {:induction false} LastTableWins(tables: seq<Table>, fold: string -> string, key: string)
    ensures match Get(TableMap(tables, fold), key)
      case None => forall t :: t in tables ==> fold(t.QualifiedName()) != key
      case Some(t) => exists i ::
        && 0 <= i < |tables| && tables[i] == t && fold(t.QualifiedName()) == key
        && forall j :: i < j < |tables| ==> fold(tables[j].QualifiedName()) != key
  {
    if tables != [] {
      var before, last := tables[..|tables| - 1], tables[|tables| - 1];
      LastTableWins(before, fold, key);
      PutGet(TableMap(before, fold), fold(last.QualifiedName()), last, key);
      assert tables == before + [last];
    }
  }

  lemma {:induction false} LastColumnWins(columns: seq<Column>, fold: string -> string, key: string)
    ensures match Get(ColumnMap(columns, fold), key)
      case None => forall c :: c in columns ==> fold(c.name) != key
      case Some(c) => exists i ::
        && 0 <= i < |columns| && columns[i] == c && fold(c.name) == key
        && forall j :: i < j < |columns| ==> fold(columns[j].name) != key
  {
    if columns != [] {
      var before, last := columns[..|columns| - 1], columns[|columns| - 1];
      LastColumnWins(before, fold, key);
      PutGet(ColumnMap(before, fold), fold(last.name), last, key);
      assert columns == before + [last];
    }
  }

  // ----- Edits -------------------------------------------------------------------------------------

  // Old and new column of a changed type.
  datatype ColumnEdits = ColumnEdits(added: seq<Column>, removed: seq<Column>, retyped: seq<(Column, Column)>)

  // A surviving table whose columns changed: old table, new table, edits.
  datatype TableEdits = TableEdits(before: Table, after: Table, columns: ColumnEdits)

  datatype Edits = Edits(added: seq<Table>, removed: seq<Table>, changed: seq<TableEdits>)

  /** Values of `a` under keys that `b` lacks, in key order. */
  function Missing<V>(a: Assoc<V>, b: Assoc<V>): seq<V> {
    if a == [] then []
    else Missing(a[..|a| - 1], b) + if Get(b, a[|a| - 1].0).None? then [a[|a| - 1].1] else []
  }

  function Retyped(a: Assoc<Column>, b: Assoc<Column>): seq<(Column, Column)> {
    if a == [] then []
    else
      var last := a[|a| - 1];
      var other := Get(b, last.0);
      Retyped(a[..|a| - 1], b)
      + if other.Some? && last.1.nativeType != other.value.nativeType then [(last.1, other.value)] else []
  }

  function DiffColumns(before: Table, after: Table, fold: string -> string): ColumnEdits {
    var a, b := ColumnMap(before.columns, fold), ColumnMap(after.columns, fold);
    ColumnEdits(Missing(b, a), Missing(a, b), Retyped(a, b))
  }

  predicate NoEdits(e: ColumnEdits) {
    e.added == [] && e.removed == [] && e.retyped == []
  }

  function Changed(a: Assoc<Table>, b: Assoc<Table>, fold: string -> string): seq<TableEdits> {
    if a == [] then []
    else
      var last := a[|a| - 1];
      var other := Get(b, last.0);
      Changed(a[..|a| - 1], b, fold)
      + if other.Some? && !NoEdits(DiffColumns(last.1, other.value, fold))
        then [TableEdits(last.1, other.value, DiffColumns(last.1, other.value, fold))] else []
  }

  function Diff(before: Database, after: Database, fold: string -> string): Edits {
    var a, b := TableMap(before.tables, fold), TableMap(after.tables, fold);
    Edits(Sort(Missing(b, a), NameLe), Sort(Missing(a, b), NameLe), Changed(a, b, fold))
  }

  // ----- The program -------------------------------------------------------------------------------

  method CollectTables(tables: seq<Table>, fold: string -> string) returns (m: Assoc<Table>)
    ensures m == TableMap(tables, fold)
  {
    m := [];
    for i := 0 to |tables|
      invariant m == TableMap(tables[..i], fold)
    {
      assert tables[..i + 1][..i] == tables[..i];
      m := Put(m, fold(tables[i].QualifiedName()), tables[i]);
    }
    assert tables[..|tables|] == tables;
  }

  method CollectColumns(columns: seq<Column>, fold: string -> string) returns (m: Assoc<Column>)
    ensures m == ColumnMap(columns, fold)
  {
    m := [];
    for i := 0 to |columns|
      invariant m == ColumnMap(columns[..i], fold)
    {
      assert columns[..i + 1][..i] == columns[..i];
      m := Put(m, fold(columns[i].name), columns[i]);
    }
    assert columns[..|columns|] == columns;
  }

  method CollectMissing<V>(a: Assoc<V>, b: Assoc<V>) returns (out: seq<V>)
    ensures out == Missing(a, b)
  {
    out := [];
    for i := 0 to |a|
      invariant out == Missing(a[..i], b)
    {
      assert a[..i + 1][..i] == a[..i];
      if Get(b, a[i].0).None? {
        out := out + [a[i].1];
      }
    }
    assert a[..|a|] == a;
  }

  method DiffColumnsLoop(before: Table, after: Table, fold: string -> string) returns (e: ColumnEdits)
    ensures e == DiffColumns(before, after, fold)
  {
    var a := CollectColumns(before.columns, fold);
    var b := CollectColumns(after.columns, fold);
    var added := CollectMissing(b, a);
    var removed := CollectMissing(a, b);
    var retyped: seq<(Column, Column)> := [];
    for i := 0 to |a|
      invariant retyped == Retyped(a[..i], b)
    {
      assert a[..i + 1][..i] == a[..i] && a[..i + 1][i] == a[i];
      var other := Get(b, a[i].0);
      if other.Some? && a[i].1.nativeType != other.value.nativeType {
        retyped := retyped + [(a[i].1, other.value)];
      }
    }
    assert a[..|a|] == a;
    e := ColumnEdits(added, removed, retyped);
  }

  method DiffLoop(before: Database, after: Database, fold: string -> string) returns (e: Edits)
    ensures e == Diff(before, after, fold)
  {
    var a := CollectTables(before.tables, fold);
    var b := CollectTables(after.tables, fold);
    var added := CollectMissing(b, a);
    var removed := CollectMissing(a, b);
    var changed: seq<TableEdits> := [];
    for i := 0 to |a|
      invariant changed == Changed(a[..i], b, fold)
    {
      assert a[..i + 1][..i] == a[..i];
      var other := Get(b, a[i].0);
      if other.Some? {
        var columns := DiffColumnsLoop(a[i].1, other.value, fold);
        if !NoEdits(columns) {
          changed := changed + [TableEdits(a[i].1, other.value, columns)];
        }
      }
    }
    assert a[..|a|] == a;
    e := Edits(Sort(added, NameLe), Sort(removed, NameLe), changed);
  }

  // ----- Each edit once, in order ------------------------------------------------------------------

  /** Elements by strictly rising key. */
  ghost predicate RisingBy<T>(xs: seq<T>, key: T -> string) {
    forall i, j :: 0 <= i < j < |xs| ==> StringLe(key(xs[i]), key(xs[j])) && key(xs[i]) != key(xs[j])
  }

  ghost predicate KeyedBy<T, V>(xs: seq<T>, key: T -> string, a: Assoc<V>) {
    RisingBy(xs, key) && forall i :: 0 <= i < |xs| ==> key(xs[i]) in Keys(a)
  }

  /** What one more entry of the map may add at the end. */
  lemma {:induction false} OneMoreKey<T, V>(xs: seq<T>, more: seq<T>, key: T -> string, a: Assoc<V>)
    requires Rising(a) && a != [] && KeyedBy(xs, key, a[..|a| - 1])
    requires |more| <= 1 && forall i :: 0 <= i < |more| ==> key(more[i]) == a[|a| - 1].0
    ensures KeyedBy(xs + more, key, a)
  {
    var before, last := a[..|a| - 1], a[|a| - 1];
    assert last in a;
    forall i | 0 <= i < |xs| ensures key(xs[i]) in Keys(a) && StringLe(key(xs[i]), last.0) && key(xs[i]) != last.0 {
      assert key(xs[i]) in Keys(before);
      var k :| 0 <= k < |before| && before[k].0 == key(xs[i]);
      assert a[k] in a && a[k] == before[k];
    }
  }

  lemma {:induction false} MissingRises<V>(a: Assoc<V>, b: Assoc<V>, key: V -> string)
    requires Rising(a) && forall e :: e in a ==> e.0 == key(e.1)
    ensures KeyedBy(Missing(a, b), key, a)
  {
    if a != [] {
      var before, last := a[..|a| - 1], a[|a| - 1];
      MissingRises(before, b, key);
      OneMoreKey(Missing(before, b), if Get(b, last.0).None? then [last.1] else [], key, a);
    }
  }

  lemma {:induction false} RetypedRises(a: Assoc<Column>, b: Assoc<Column>, key: ((Column, Column)) -> string)
    requires Rising(a) && forall e, c :: e in a ==> e.0 == key((e.1, c))
    ensures KeyedBy(Retyped(a, b), key, a)
  {
    if a != [] {
      var before, last := a[..|a| - 1], a[|a| - 1];
      RetypedRises(before, b, key);
      OneMoreKey(Retyped(before, b), Retyped(a, b)[|Retyped(before, b)|..], key, a);
    }
  }

  lemma {:induction false} ChangedRises(a: Assoc<Table>, b: Assoc<Table>, fold: string -> string,
                                        key: TableEdits -> string)
    requires Rising(a) && forall te: TableEdits, e :: e in a && te.before == e.1 ==> e.0 == key(te)
    ensures KeyedBy(Changed(a, b, fold), key, a)
  {
    if a != [] {
      var before, last := a[..|a| - 1], a[|a| - 1];
      ChangedRises(before, b, fold, key);
      OneMoreKey(Changed(before, b, fold), Changed(a, b, fold)[|Changed(before, b, fold)|..], key, a);
    }
  }

  function TableKey(fold: string -> string): Table -> string {
    (t: Table) => fold(t.QualifiedName())
  }

  function ColumnKey(fold: string -> string): Column -> string {
    (c: Column) => fold(c.name)
  }

  function PairKey(fold: string -> string): ((Column, Column)) -> string {
    (p: (Column, Column)) => fold(p.0.name)
  }

  function EditsKey(fold: string -> string): TableEdits -> string {
    (te: TableEdits) => fold(te.before.QualifiedName())
  }

  /** A table's edits list each folded column name once, by rising folded name. */
  lemma {:induction false} ColumnsListedOnce(before: Table, after: Table, fold: string -> string)
    ensures var e := DiffColumns(before, after, fold);
      RisingBy(e.added, ColumnKey(fold)) && RisingBy(e.removed, ColumnKey(fold)) && RisingBy(e.retyped, PairKey(fold))
  {
    var a, b := ColumnMap(before.columns, fold), ColumnMap(after.columns, fold);
    ColumnMapFacts(before.columns, fold);
    ColumnMapFacts(after.columns, fold);
    MissingRises(a, b, ColumnKey(fold));
    MissingRises(b, a, ColumnKey(fold));
    RetypedRises(a, b, PairKey(fold));
  }

  /** Additions and removals are sorted by name and changed tables by folded name; no two of one list
      share a folded name; and each addition or removal is the table that its own map holds under its
      folded name, a name the other map lacks. */
  lemma {:induction false} TablesListedOnce(before: Database, after: Database, fold: string -> string)
    ensures var e := Diff(before, after, fold);
      Listed(e.added, after, before, fold) && Listed(e.removed, before, after, fold)
      && RisingBy(e.changed, EditsKey(fold))
  {
    TableMapFacts(before.tables, fold);
    MissingListed(after, before, fold);
    MissingListed(before, after, fold);
    ChangedRises(TableMap(before.tables, fold), TableMap(after.tables, fold), fold, EditsKey(fold));
  }

  ghost predicate Listed(tables: seq<Table>, mine: Database, other: Database, fold: string -> string) {
    && Sorted(tables, NameLe)
    && (forall i, j :: 0 <= i < j < |tables| ==> fold(tables[i].QualifiedName()) != fold(tables[j].QualifiedName()))
    && (forall t :: t in tables <==>
         Get(TableMap(mine.tables, fold), fold(t.QualifiedName())) == Some(t)
         && Get(TableMap(other.tables, fold), fold(t.QualifiedName())).None?)
  }

  lemma MissingTables(mine: Database, other: Database, fold: string -> string, t: Table)
    ensures var a, b := TableMap(mine.tables, fold), TableMap(other.tables, fold);
      t in Missing(a, b) <==>
        Get(a, fold(t.QualifiedName())) == Some(t) && Get(b, fold(t.QualifiedName())).None?
  {
    var a, b := TableMap(mine.tables, fold), TableMap(other.tables, fold);
    TableMapFacts(mine.tables, fold);
    MissingMembers(a, b, t);
    GetKeys(a, fold(t.QualifiedName()));
    if t in Missing(a, b) {
      var e :| e in a && e.1 == t && Get(b, e.0).None?;
      var i :| 0 <= i < |a| && a[i] == e;
      GetEntry(a, i);
    }
  }

  lemma {:induction false} MissingListed(mine: Database, other: Database, fold: string -> string)
    ensures Listed(Sort(Missing(TableMap(mine.tables, fold), TableMap(other.tables, fold)), NameLe), mine, other, fold)
  {
    var missing := Missing(TableMap(mine.tables, fold), TableMap(other.tables, fold));
    var sorted := Sort(missing, NameLe);
    TableMapFacts(mine.tables, fold);
    MissingRises(TableMap(mine.tables, fold), TableMap(other.tables, fold), TableKey(fold));
    NameLeIsPreorder();
    SortIsSorted(missing, NameLe);
    SortIsPermutation(missing, NameLe);
    SortKeepsKeysApart(missing, TableKey(fold));
    forall i, j | 0 <= i < j < |sorted|
      ensures fold(sorted[i].QualifiedName()) != fold(sorted[j].QualifiedName())
    {
      assert TableKey(fold)(sorted[i]) != TableKey(fold)(sorted[j]);
    }
    forall t ensures t in sorted <==> t in missing {
      assert t in ToSet(sorted) <==> t in ToSet(missing);
    }
    forall t { MissingTables(mine, other, fold, t); }
  }

  lemma {:induction false} SortKeepsKeysApart(xs: seq<Table>, key: Table -> string)
    requires RisingBy(xs, key)
    ensures forall i, j :: 0 <= i < j < |xs| ==>
      |Sort(xs, NameLe)| == |xs| && key(Sort(xs, NameLe)[i]) != key(Sort(xs, NameLe)[j])
  {
    var sorted := Sort(xs, NameLe);
    SortIsPermutation(xs, NameLe);
    assert NoDuplicates(xs) by {
      forall i, j | 0 <= i < j < |xs| ensures xs[i] != xs[j] { assert key(xs[i]) != key(xs[j]); }
    }
    SortKeepsDistinct(xs, NameLe);
    forall i, j | 0 <= i < j < |xs| ensures key(sorted[i]) != key(sorted[j]) {
      assert sorted[i] in ToSet(xs) && sorted[j] in ToSet(xs) && sorted[i] != sorted[j];
      var a :| 0 <= a < |xs| && xs[a] == sorted[i];
      var b :| 0 <= b < |xs| && xs[b] == sorted[j];
      assert key(xs[if a < b then a else b]) != key(xs[if a < b then b else a]);
    }
  }

  // ----- The edits as a patch ----------------------------------------------------------------------

  lemma {:induction false} MissingMembers<V>(a: Assoc<V>, b: Assoc<V>, v: V)
    ensures v in Missing(a, b) <==> exists e :: e in a && e.1 == v && Get(b, e.0).None?
  {
    if a != [] {
      MissingMembers(a[..|a| - 1], b, v);
      assert a == a[..|a| - 1] + [a[|a| - 1]];
    }
  }

  lemma {:induction false} RetypedMembers(a: Assoc<Column>, b: Assoc<Column>, p: (Column, Column))
    ensures p in Retyped(a, b) <==>
      exists e :: e in a && e.1 == p.0 && Get(b, e.0) == Some(p.1) && p.0.nativeType != p.1.nativeType
  {
    if a != [] {
      RetypedMembers(a[..|a| - 1], b, p);
      assert a == a[..|a| - 1] + [a[|a| - 1]];
    }
  }

  /** Case-folded names of the tables. */
  function FoldedNames(tables: seq<Table>, fold: string -> string): set<string> {
    set t | t in tables :: fold(t.QualifiedName())
  }

  /** The folded names of missing values are the keys the other map lacks. */
  lemma MissingNames(x: seq<Table>, y: seq<Table>, fold: string -> string)
    ensures FoldedNames(Missing(TableMap(x, fold), TableMap(y, fold)), fold) ==
      FoldedNames(x, fold) - FoldedNames(y, fold)
  {
    var a, b := TableMap(x, fold), TableMap(y, fold);
    TableMapFacts(x, fold);
    TableMapFacts(y, fold);
    forall name ensures name in FoldedNames(Missing(a, b), fold) <==> name in Keys(a) - Keys(b) {
      GetKeys(a, name);
      GetKeys(b, name);
      if name in FoldedNames(Missing(a, b), fold) {
        var t :| t in Missing(a, b) && fold(t.QualifiedName()) == name;
        MissingMembers(a, b, t);
        var e :| e in a && e.1 == t && Get(b, e.0).None?;
        assert e.0 == name;
      }
      if name in Keys(a) - Keys(b) {
        MissingMembers(a, b, Get(a, name).value);
      }
    }
  }

  /** Removing and adding the named tables turns the old set of folded names into the new one. */
  lemma {:induction false} TablePatch(before: Database, after: Database, fold: string -> string)
    ensures var e := Diff(before, after, fold);
      FoldedNames(before.tables, fold) - FoldedNames(e.removed, fold) + FoldedNames(e.added, fold)
      == FoldedNames(after.tables, fold)
    ensures var e := Diff(before, after, fold);
      FoldedNames(e.removed, fold) !! FoldedNames(e.added, fold)
  {
    NamesDiffer(before, after, fold);
  }

  lemma SameNames(x: seq<Table>, y: seq<Table>, fold: string -> string)
    requires ToSet(x) == ToSet(y)
    ensures FoldedNames(x, fold) == FoldedNames(y, fold)
  {
    assert forall t :: t in x <==> t in ToSet(x);
    assert forall t :: t in y <==> t in ToSet(y);
  }

  /** Column types by folded name. */
  function Types(columns: seq<Column>, fold: string -> string): map<string, string> {
    var m := ColumnMap(columns, fold);
    map key | key in Keys(m) :: TypeIn(m, key)
  }

  function TypeIn(m: Assoc<Column>, key: string): string {
    match Get(m, key) case Some(c) => c.nativeType case None => ""
  }

  function TypesOf(cs: seq<Column>, fold: string -> string): map<string, string> {
    if cs == [] then map[] else TypesOf(cs[..|cs| - 1], fold)[fold(cs[|cs| - 1].name) := cs[|cs| - 1].nativeType]
  }

  function NewTypes(pairs: seq<(Column, Column)>): seq<Column> {
    seq(|pairs|, i requires 0 <= i < |pairs| => pairs[i].1)
  }

  /** Apply column edits to a map from folded names to types. */
  function ApplyColumns(types: map<string, string>, e: ColumnEdits, fold: string -> string): map<string, string> {
    types - (set c | c in e.removed :: fold(c.name)) + TypesOf(e.added, fold) + TypesOf(NewTypes(e.retyped), fold)
  }

  /** The types a list of columns sets, when equal folded names in it agree on the type. */
  lemma {:induction false} TypesOfMembers(cs: seq<Column>, fold: string -> string, key: string)
    requires forall c, d :: c in cs && d in cs && fold(c.name) == fold(d.name) ==> c.nativeType == d.nativeType
    ensures key in TypesOf(cs, fold) <==> exists c :: c in cs && fold(c.name) == key
    ensures forall c :: c in cs && fold(c.name) == key ==>
      key in TypesOf(cs, fold) && TypesOf(cs, fold)[key] == c.nativeType
  {
    if cs != [] {
      var before, last := cs[..|cs| - 1], cs[|cs| - 1];
      assert cs == before + [last];
      TypesOfMembers(before, fold, key);
    }
  }

  /** Every key of the ordered map holds one column, whose folded name is the key. */
  lemma EntryOfKey(columns: seq<Column>, fold: string -> string, e: (string, Column))
    ensures e in ColumnMap(columns, fold) <==> Get(ColumnMap(columns, fold), e.0) == Some(e.1)
    ensures e in ColumnMap(columns, fold) ==> e.0 == fold(e.1.name)
  {
    var m := ColumnMap(columns, fold);
    ColumnMapFacts(columns, fold);
    GetKeys(m, e.0);
    if e in m {
      var i :| 0 <= i < |m| && m[i] == e;
      GetEntry(m, i);
    }
  }

  lemma MissingColumns(x: seq<Column>, y: seq<Column>, fold: string -> string, c: Column)
    ensures c in Missing(ColumnMap(x, fold), ColumnMap(y, fold)) <==>
      Get(ColumnMap(x, fold), fold(c.name)) == Some(c) && Get(ColumnMap(y, fold), fold(c.name)).None?
  {
    var a, b := ColumnMap(x, fold), ColumnMap(y, fold);
    MissingMembers(a, b, c);
    EntryOfKey(x, fold, (fold(c.name), c));
    if c in Missing(a, b) {
      var e :| e in a && e.1 == c && Get(b, e.0).None?;
      EntryOfKey(x, fold, e);
    }
  }

  lemma RetypedColumns(x: seq<Column>, y: seq<Column>, fold: string -> string, d: Column)
    ensures d in NewTypes(Retyped(ColumnMap(x, fold), ColumnMap(y, fold))) <==>
      Get(ColumnMap(y, fold), fold(d.name)) == Some(d) && Get(ColumnMap(x, fold), fold(d.name)).Some?
      && Get(ColumnMap(x, fold), fold(d.name)).value.nativeType != d.nativeType
  {
    var a, b := ColumnMap(x, fold), ColumnMap(y, fold);
    var pairs := Retyped(a, b);
    if d in NewTypes(pairs) {
      var i :| 0 <= i < |pairs| && pairs[i].1 == d;
      RetypedMembers(a, b, pairs[i]);
      assert pairs[i] in pairs;
      var e :| e in a && e.1 == pairs[i].0 && Get(b, e.0) == Some(d);
      EntryOfKey(x, fold, e);
      EntryOfKey(y, fold, (e.0, d));
    }
    var c := Get(a, fold(d.name));
    if c.Some? && Get(b, fold(d.name)) == Some(d) && c.value.nativeType != d.nativeType {
      EntryOfKey(x, fold, (fold(d.name), c.value));
      RetypedMembers(a, b, (c.value, d));
      var i :| 0 <= i < |pairs| && pairs[i] == (c.value, d);
      assert NewTypes(pairs)[i] == d;
    }
  }

  /** What the patch gives for one folded name. */
  lemma PatchedAt(before: Table, after: Table, fold: string -> string, key: string)
    ensures var r := ApplyColumns(Types(before.columns, fold), DiffColumns(before, after, fold), fold);
      var t := Types(after.columns, fold);
      (key in r <==> key in t) && (key in r ==> r[key] == t[key])
  {
    var a, b := ColumnMap(before.columns, fold), ColumnMap(after.columns, fold);
    var e := DiffColumns(before, after, fold);
    GetKeys(a, key);
    GetKeys(b, key);
    forall c { MissingColumns(after.columns, before.columns, fold, c); }
    forall c { MissingColumns(before.columns, after.columns, fold, c); }
    forall d { RetypedColumns(before.columns, after.columns, fold, d); }
    TypesOfMembers(e.added, fold, key);
    TypesOfMembers(NewTypes(e.retyped), fold, key);
    var removed := set c | c in e.removed :: fold(c.name);
    if Get(a, key).Some? { EntryOfKey(before.columns, fold, (key, Get(a, key).value)); }
    if Get(b, key).Some? { EntryOfKey(after.columns, fold, (key, Get(b, key).value)); }
    assert key in removed <==> Get(a, key).Some? && Get(b, key).None?;
  }

  /** Applied to the old table's column types, the edits give the new table's. */
  lemma ColumnPatch(before: Table, after: Table, fold: string -> string)
    ensures ApplyColumns(Types(before.columns, fold), DiffColumns(before, after, fold), fold) ==
      Types(after.columns, fold)
  {
    var patched := ApplyColumns(Types(before.columns, fold), DiffColumns(before, after, fold), fold);
    var types := Types(after.columns, fold);
    forall key ensures (key in patched <==> key in types) && (key in patched ==> patched[key] == types[key]) {
      PatchedAt(before, after, fold, key);
    }
  }

  // ----- Empty exactly when nothing differs ----------------------------------------------------------

  /** A surviving table has no edits exactly when its columns keep their folded names and types. */
  lemma {:induction false} NoColumnEdits(before: Table, after: Table, fold: string -> string)
    ensures NoEdits(DiffColumns(before, after, fold)) <==> Types(before.columns, fold) == Types(after.columns, fold)
  {
    var e := DiffColumns(before, after, fold);
    var x, y := Types(before.columns, fold), Types(after.columns, fold);
    var a, b := ColumnMap(before.columns, fold), ColumnMap(after.columns, fold);
    if NoEdits(e) {
      ColumnPatch(before, after, fold);
    } else if e.added != [] {
      var c := e.added[0];
      MissingColumns(after.columns, before.columns, fold, c);
      GetKeys(a, fold(c.name));
      GetKeys(b, fold(c.name));
      assert fold(c.name) in y && fold(c.name) !in x;
    } else if e.removed != [] {
      var c := e.removed[0];
      MissingColumns(before.columns, after.columns, fold, c);
      GetKeys(a, fold(c.name));
      GetKeys(b, fold(c.name));
      assert fold(c.name) in x && fold(c.name) !in y;
    } else {
      var d := e.retyped[0].1;
      assert NewTypes(e.retyped)[0] == d;
      RetypedColumns(before.columns, after.columns, fold, d);
      GetKeys(a, fold(d.name));
      GetKeys(b, fold(d.name));
      assert x[fold(d.name)] != y[fold(d.name)];
    }
  }

  /** Some key of `a` holds `x`, and `y` in `b`. */
  ghost predicate Paired(a: Assoc<Table>, b: Assoc<Table>, x: Table, y: Table) {
    exists e :: e in a && e.1 == x && Get(b, e.0) == Some(y)
  }

  lemma {:induction false} ChangedMembers(a: Assoc<Table>, b: Assoc<Table>, fold: string -> string, te: TableEdits)
    ensures te in Changed(a, b, fold) <==>
      te.columns == DiffColumns(te.before, te.after, fold) && !NoEdits(te.columns) && Paired(a, b, te.before, te.after)
  {
    if a != [] {
      ChangedMembers(a[..|a| - 1], b, fold, te);
    }
  }

  /** The tables that both sides have, under one folded name. */
  ghost predicate Survives(before: Database, after: Database, fold: string -> string, key: string, x: Table, y: Table) {
    Get(TableMap(before.tables, fold), key) == Some(x) && Get(TableMap(after.tables, fold), key) == Some(y)
  }

  /** The diff lists exactly the surviving tables whose column types differ, with the edits that turn
      the one into the other. */
  lemma ChangedSurvivors(before: Database, after: Database, fold: string -> string, te: TableEdits)
    ensures te in Diff(before, after, fold).changed <==>
      te.columns == DiffColumns(te.before, te.after, fold)
      && Types(te.before.columns, fold) != Types(te.after.columns, fold)
      && exists key :: Survives(before, after, fold, key, te.before, te.after)
  {
    var a, b := TableMap(before.tables, fold), TableMap(after.tables, fold);
    TableMapFacts(before.tables, fold);
    ChangedMembers(a, b, fold, te);
    NoColumnEdits(te.before, te.after, fold);
    forall e | e in a ensures Get(a, e.0) == Some(e.1) {
      var i :| 0 <= i < |a| && a[i] == e;
      GetEntry(a, i);
    }
    forall key | Survives(before, after, fold, key, te.before, te.after) ensures (key, te.before) in a {
      GetKeys(a, key);
    }
    if Paired(a, b, te.before, te.after) {
      var e :| e in a && e.1 == te.before && Get(b, e.0) == Some(te.after);
      assert Survives(before, after, fold, e.0, te.before, te.after);
    }
  }

  /** No edits exactly when both sides have the same folded table names and every surviving table the
      same columns and types. */
  lemma EmptyIffSame(before: Database, after: Database, fold: string -> string)
    ensures Diff(before, after, fold) == Edits([], [], []) <==>
      FoldedNames(before.tables, fold) == FoldedNames(after.tables, fold)
      && forall key, x, y :: Survives(before, after, fold, key, x, y) ==>
        Types(x.columns, fold) == Types(y.columns, fold)
  {
    var e := Diff(before, after, fold);
    var x, y := FoldedNames(before.tables, fold), FoldedNames(after.tables, fold);
    TablePatch(before, after, fold);
    TablePatch(after, before, fold);
    if e.added != [] { assert fold(e.added[0].QualifiedName()) in FoldedNames(e.added, fold); }
    if e.removed != [] { assert fold(e.removed[0].QualifiedName()) in FoldedNames(e.removed, fold); }
    assert e.added == [] ==> FoldedNames(e.added, fold) == {};
    assert e.removed == [] ==> FoldedNames(e.removed, fold) == {};
    NamesDiffer(before, after, fold);
    if e.changed != [] {
      ChangedSurvivors(before, after, fold, e.changed[0]);
    }
    forall key, t, u | Survives(before, after, fold, key, t, u) && e.changed == []
      ensures Types(t.columns, fold) == Types(u.columns, fold)
    {
      ChangedSurvivors(before, after, fold, TableEdits(t, u, DiffColumns(t, u, fold)));
    }
  }

  lemma NamesDiffer(before: Database, after: Database, fold: string -> string)
    ensures FoldedNames(Diff(before, after, fold).added, fold) ==
      FoldedNames(after.tables, fold) - FoldedNames(before.tables, fold)
    ensures FoldedNames(Diff(before, after, fold).removed, fold) ==
      FoldedNames(before.tables, fold) - FoldedNames(after.tables, fold)
  {
    var a, b := TableMap(before.tables, fold), TableMap(after.tables, fold);
    MissingNames(before.tables, after.tables, fold);
    MissingNames(after.tables, before.tables, fold);
    SortIsPermutation(Missing(a, b), NameLe);
    SortIsPermutation(Missing(b, a), NameLe);
    SameNames(Sort(Missing(a, b), NameLe), Missing(a, b), fold);
    SameNames(Sort(Missing(b, a), NameLe), Missing(b, a), fold);
  }

  // ----- The other way round ---------------------------------------------------------------------------

  /** Swapping the inputs swaps additions and removals and turns every retyping and every changed
      table around. */
  lemma {:induction false} SwapSwaps(before: Database, after: Database, fold: string -> string, te: TableEdits)
    ensures Diff(after, before, fold).added == Diff(before, after, fold).removed
    ensures Diff(after, before, fold).removed == Diff(before, after, fold).added
    ensures te in Diff(before, after, fold).changed ==>
      TableEdits(te.after, te.before, DiffColumns(te.after, te.before, fold)) in Diff(after, before, fold).changed
  {
    var back := TableEdits(te.after, te.before, DiffColumns(te.after, te.before, fold));
    ChangedSurvivors(before, after, fold, te);
    ChangedSurvivors(after, before, fold, back);
    if te in Diff(before, after, fold).changed {
      var key :| Survives(before, after, fold, key, te.before, te.after);
      assert Survives(after, before, fold, key, te.after, te.before);
    }
  }

  lemma SwapColumns(before: Table, after: Table, fold: string -> string, c: Column, d: Column)
    ensures DiffColumns(after, before, fold).added == DiffColumns(before, after, fold).removed
    ensures DiffColumns(after, before, fold).removed == DiffColumns(before, after, fold).added
    ensures (c, d) in DiffColumns(before, after, fold).retyped <==> (d, c) in DiffColumns(after, before, fold).retyped
  {
    RetypedPair(before, after, fold, c, d);
    RetypedPair(after, before, fold, d, c);
  }

  lemma RetypedPair(before: Table, after: Table, fold: string -> string, c: Column, d: Column)
    ensures (c, d) in DiffColumns(before, after, fold).retyped <==>
      fold(c.name) == fold(d.name) && c.nativeType != d.nativeType
      && Get(ColumnMap(before.columns, fold), fold(c.name)) == Some(c)
      && Get(ColumnMap(after.columns, fold), fold(c.name)) == Some(d)
  {
    var a, b := ColumnMap(before.columns, fold), ColumnMap(after.columns, fold);
    RetypedMembers(a, b, (c, d));
    EntryOfKey(before.columns, fold, (fold(c.name), c));
    if exists e :: e in a && e.1 == c && Get(b, e.0) == Some(d) {
      var e :| e in a && e.1 == c && Get(b, e.0) == Some(d);
      EntryOfKey(before.columns, fold, e);
      EntryOfKey(after.columns, fold, (e.0, d));
    }
  }
}
