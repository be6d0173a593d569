/** The cached schema: tables, columns, keys, and how names are compared. */
module SchemaModel {
  import opened Prelude
  import opened StableSort

  // Fractions of a column sample; how they print is a parameter of the renderer.
  datatype ColumnSample = ColumnSample(
    distinctCount: Option<nat>,
    topValues: seq<(string, real)>,
    sentinel: Option<(string, real)>)

  datatype Column = Column(
    name: string,
    nativeType: string,
    nullable: bool,
    comment: Option<string>,
    sample: Option<ColumnSample>,
    checkConstraint: Option<string>,
    isUnique: bool,
    generationExpression: Option<string>)

  datatype ForeignKey = ForeignKey(columns: seq<string>, referencedTable: string, referencedColumns: seq<string>)

  datatype Table = Table(
    schema: Option<string>,
    name: string,
    comment: Option<string>,
    columns: seq<Column>,
    primaryKey: Option<seq<string>>,
    foreignKeys: seq<ForeignKey>,
    ddlHash: Option<string>)
  {
    function QualifiedName(): string {
      match schema
      case Some(s) => s + "." + name
      case None => name
    }
  }

  datatype Database = Database(backend: string, urlHash: string, tables: seq<Table>, fingerprint: Option<string>)

  // ----- Case-insensitive lookup ---------------------------------------------------------------

  function AsciiLower(c: char): char {
    if 'A' <= c <= 'Z' then ((c as int) + 32) as char else c
  }

  predicate EqIgnoreAsciiCase(a: string, b: string) {
    |a| == |b| && forall i :: 0 <= i < |a| ==> AsciiLower(a[i]) == AsciiLower(b[i])
  }

  /** A table answers to its bare and to its qualified name. */
  predicate AnswersTo(t: Table, name: string) {
    EqIgnoreAsciiCase(t.name, name) || EqIgnoreAsciiCase(t.QualifiedName(), name)
  }

  /** Position of the first table that answers to `name`. */
  function FindTable(tables: seq<Table>, name: string): (r: Option<nat>)
    ensures r.Some? ==> r.value < |tables| && AnswersTo(tables[r.value], name)
    ensures r.Some? ==> forall i :: 0 <= i < r.value ==> !AnswersTo(tables[i], name)
    ensures r.None? ==> forall i :: 0 <= i < |tables| ==> !AnswersTo(tables[i], name)
  {
    if tables == [] then None
    else if AnswersTo(tables[0], name) then Some(0)
    else match FindTable(tables[1..], name)
      case None => None
      case Some(i) => Some(i + 1)
  }

  /** The other case of an ASCII letter. */
  function SwapCase(c: char): char {
    if 'a' <= c <= 'z' then ((c as int) - ('a' as int) + ('A' as int)) as char
    else if 'A' <= c <= 'Z' then ((c as int) - ('A' as int) + ('a' as int)) as char
    else c
  }

  ghost predicate SameButCase(a: string, b: string) {
    |a| == |b| && forall i :: 0 <= i < |a| ==> a[i] == b[i] || a[i] == SwapCase(b[i])
  }

  lemma EqualButCase(a: string, b: string)
    ensures EqIgnoreAsciiCase(a, b) <==> SameButCase(a, b)
  {
    if EqIgnoreAsciiCase(a, b) {
      forall i | 0 <= i < |a| ensures a[i] == b[i] || a[i] == SwapCase(b[i]) {
        assert AsciiLower(a[i]) == AsciiLower(b[i]);
      }
    }
  }

  /** A name finds the first table whose bare or qualified name it is, in any letter case. */
  lemma {:induction false} FoundInAnyCase(tables: seq<Table>, name: string)
    ensures match FindTable(tables, name)
      case Some(i) =>
        && (SameButCase(tables[i].name, name) || SameButCase(tables[i].QualifiedName(), name))
        && forall j :: 0 <= j < i ==>
          !SameButCase(tables[j].name, name) && !SameButCase(tables[j].QualifiedName(), name)
      case None =>
        forall j :: 0 <= j < |tables| ==>
          !SameButCase(tables[j].name, name) && !SameButCase(tables[j].QualifiedName(), name)
  {
    forall j | 0 <= j < |tables|
      ensures AnswersTo(tables[j], name) <==>
        SameButCase(tables[j].name, name) || SameButCase(tables[j].QualifiedName(), name)
    {
      EqualButCase(tables[j].name, name);
      EqualButCase(tables[j].QualifiedName(), name);
    }
  }

  // ----- Name order ----------------------------------------------------------------------------

  /** Lexicographic order of strings by code point. */
  predicate StringLe(a: string, b: string) {
    a == [] || (b != [] && (a[0] < b[0] || (a[0] == b[0] && StringLe(a[1..], b[1..]))))
  }

  /** `a` and `b` first differ at `i`, where `a` has the smaller character. */
  ghost predicate SmallerAt(a: string, b: string, i: int) {
    0 <= i < |a| && i < |b| && a[i] < b[i] && forall j :: 0 <= j < i ==> a[j] == b[j]
  }

  lemma {:induction false} SmallerBehind(a: string, b: string, i: int)
    requires a != [] && b != [] && a[0] == b[0]
    ensures SmallerAt(a, b, i) <==> SmallerAt(a[1..], b[1..], i - 1)
  {
    if SmallerAt(a[1..], b[1..], i - 1) {
      forall j | 0 <= j < i ensures a[j] == b[j] {
        assert j > 0 ==> a[1..][j - 1] == b[1..][j - 1];
      }
    }
  }

  /** A text comes first if it is a prefix, or by the first character in which the two differ. */
  lemma {:induction false} StringLeExactly(a: string, b: string)
    ensures StringLe(a, b) <==> a <= b || exists i :: SmallerAt(a, b, i)
  {
    if a != [] && b != [] && a[0] == b[0] {
      StringLeExactly(a[1..], b[1..]);
      assert a == [a[0]] + a[1..] && b == [b[0]] + b[1..];
      forall i { SmallerBehind(a, b, i); }
      if i :| SmallerAt(a[1..], b[1..], i) { assert SmallerAt(a, b, i + 1); }
    } else if a != [] && b != [] {
      assert a[0] < b[0] ==> SmallerAt(a, b, 0);
    }
  }

  lemma {:induction false} StringLeTotal(a: string, b: string)
    ensures StringLe(a, b) || StringLe(b, a)
    ensures StringLe(a, b) && StringLe(b, a) ==> a == b
  {
    if a != [] && b != [] {
      StringLeTotal(a[1..], b[1..]);
      assert a == [a[0]] + a[1..] && b == [b[0]] + b[1..];
    }
  }

  lemma {:induction false} StringLeTransitive(a: string, b: string, c: string)
    requires StringLe(a, b) && StringLe(b, c)
    ensures StringLe(a, c)
  {
    if a != [] && a[0] == b[0] == c[0] {
      StringLeTransitive(a[1..], b[1..], c[1..]);
    }
  }

  predicate NameLe(a: Table, b: Table) {
    StringLe(a.QualifiedName(), b.QualifiedName())
  }

  lemma NameLeIsPreorder()
    ensures TotalPreorder(NameLe)
  {
    forall a: Table, b: Table ensures NameLe(a, b) || NameLe(b, a) {
      StringLeTotal(a.QualifiedName(), b.QualifiedName());
    }
    forall a: Table, b: Table, c: Table | NameLe(a, b) && NameLe(b, c) ensures NameLe(a, c) {
      StringLeTransitive(a.QualifiedName(), b.QualifiedName(), c.QualifiedName());
    }
  }

  ghost predicate DistinctNames(tables: seq<Table>) {
    forall i, j :: 0 <= i < j < |tables| ==> tables[i].QualifiedName() != tables[j].QualifiedName()
  }

  lemma SortedDistinctIsStrict(tables: seq<Table>)
    requires Sorted(tables, NameLe) && DistinctNames(tables)
    ensures StrictlySorted(tables, NameLe)
  {
    forall i, j | 0 <= i < j < |tables| ensures !NameLe(tables[j], tables[i]) {
      StringLeTotal(tables[i].QualifiedName(), tables[j].QualifiedName());
    }
  }
}
