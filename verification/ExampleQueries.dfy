/** Example statements generated for a table, and what the scanners make of them. */
module ExampleQueries {
  import opened Prelude
  import opened Text
  import opened SchemaModel
  import opened SqlSafety
  import opened SqlSafetyLaws
  import opened LiteralStrip

  function KeyColumn(t: Table): Option<string> {
    if t.primaryKey.Some? && t.primaryKey.value != [] then Some(t.primaryKey.value[0])
    else if t.columns != [] then Some(t.columns[0].name)
    else None
  }

  function ColumnNames(columns: seq<Column>): seq<string> {
    seq(|columns|, i requires 0 <= i < |columns| => columns[i].name)
  }

  /** The first column whose sample has a dominant value, with that value. */
  function FirstSentinel(columns: seq<Column>): Option<(string, string)> {
    if columns == [] then None
    else if columns[0].sample.Some? && columns[0].sample.value.sentinel.Some?
    then Some((columns[0].name, columns[0].sample.value.sentinel.value.0))
    else FirstSentinel(columns[1..])
  }

  // ----- The four shapes -------------------------------------------------------------------------

  function ScanQuery(t: Table): string {
    "SELECT " + (if KeyColumn(t).Some? then KeyColumn(t).value else "*") + " FROM " + t.QualifiedName() + " LIMIT 10"
  }

  function ProjectionQuery(t: Table): seq<string> {
    var names := ColumnNames(if |t.columns| <= 3 then t.columns else t.columns[..3]);
    if |names| >= 2 then ["SELECT " + Join(names, ", ") + " FROM " + t.QualifiedName() + " LIMIT 10"] else []
  }

  function ExcludeQuery(qn: string, column: string, value: string): string {
    "SELECT count(*) FROM " + qn + " WHERE " + column + " != '" + Escape(value) + "'"
  }

  function SentinelQuery(t: Table): seq<string> {
    match FirstSentinel(t.columns)
    case None => []
    case Some((column, value)) => [ExcludeQuery(t.QualifiedName(), column, value)]
  }

  function JoinQuery(t: Table): seq<string> {
    if t.foreignKeys == [] || t.foreignKeys[0].columns == [] || t.foreignKeys[0].referencedColumns == [] then []
    else
      var fk := t.foreignKeys[0];
      var c0, rc0 := fk.columns[0], fk.referencedColumns[0];
      var pk := if KeyColumn(t).Some? then KeyColumn(t).value else c0;
      ["SELECT a." + pk + ", b." + rc0 + " FROM " + t.QualifiedName() + " a JOIN " + fk.referencedTable
       + " b ON a." + c0 + " = b." + rc0 + " LIMIT 10"]
  }

  function Examples(t: Table, maxExamples: nat): seq<string> {
    var all := [ScanQuery(t)] + ProjectionQuery(t) + SentinelQuery(t) + JoinQuery(t);
    if |all| <= maxExamples then all else all[..maxExamples]
  }

  /** `generate_examples`: pushed one by one, then cut. */
  method GenerateExamples(t: Table, maxExamples: nat) returns (out: seq<string>)
    ensures out == Examples(t, maxExamples)
  {
    if maxExamples == 0 {
      return [];
    }
    out := [ScanQuery(t)];
    out := out + ProjectionQuery(t);
    var i := 0;
    assert t.columns[0..] == t.columns;
    while i < |t.columns|
      invariant 0 <= i <= |t.columns|
      invariant FirstSentinel(t.columns) == FirstSentinel(t.columns[i..])
    {
      var col := t.columns[i];
      assert t.columns[i..][1..] == t.columns[i + 1..];
      if col.sample.Some? && col.sample.value.sentinel.Some? {
        out := out + [ExcludeQuery(t.QualifiedName(), col.name, col.sample.value.sentinel.value.0)];
        break;
      }
      i := i + 1;
    }
    out := out + JoinQuery(t);
    if |out| > maxExamples {
      out := out[..maxExamples];
    }
  }

  // ----- What the statements read ------------------------------------------------------------------

  predicate EndsWith(s: string, suffix: string) {
    |suffix| <= |s| && s[|s| - |suffix|..] == suffix
  }

  /** The scan reads the key's first column, or else the first column, or else everything; the
      projection the first three columns, of a table that has at least two. */
  lemma {:induction false} ScanAndProjection(t: Table, key: string)
    requires (exists pk :: t.primaryKey == Some(pk) && pk != [] && key == pk[0])
      || ((t.primaryKey.None? || t.primaryKey.value == []) && key == if t.columns == [] then "*" else t.columns[0].name)
    ensures ScanQuery(t) == "SELECT " + key + " FROM " + t.QualifiedName() + " LIMIT 10"
    ensures |t.columns| < 2 ==> ProjectionQuery(t) == []
    ensures |t.columns| == 2 ==>
      ProjectionQuery(t) ==
      ["SELECT " + (t.columns[0].name + ", " + t.columns[1].name) + " FROM " + t.QualifiedName() + " LIMIT 10"]
    ensures |t.columns| >= 3 ==>
      ProjectionQuery(t) ==
      ["SELECT " + (t.columns[0].name + ", " + (t.columns[1].name + ", " + t.columns[2].name)) + " FROM "
       + t.QualifiedName() + " LIMIT 10"]
  {
    if |t.columns| >= 2 {
      var names := ColumnNames(if |t.columns| <= 3 then t.columns else t.columns[..3]);
      assert Join(names, ", ") == names[0] + ", " + Join(names[1..], ", ");
      assert Join(names[1..], ", ") == if |names| == 2 then names[1] else names[1] + ", " + Join(names[1..][1..], ", ");
      if |names| == 3 {
        assert names[1..][1..] == [names[2]];
        assert names[0] + ", " + (names[1] + ", " + names[2]) ==
          t.columns[0].name + ", " + (t.columns[1].name + ", " + t.columns[2].name);
      }
    }
  }

  predicate HasSentinel(c: Column) {
    c.sample.Some? && c.sample.value.sentinel.Some?
  }

  /** The first column with a dominant value, in table order, and that value. */
  lemma {:induction false} SentinelIsFirst(columns: seq<Column>)
    ensures FirstSentinel(columns).None? <==> forall i :: 0 <= i < |columns| ==> !HasSentinel(columns[i])
    ensures FirstSentinel(columns).Some? ==> exists i ::
      && 0 <= i < |columns| && HasSentinel(columns[i])
      && FirstSentinel(columns).value == (columns[i].name, columns[i].sample.value.sentinel.value.0)
      && forall j :: 0 <= j < i ==> !HasSentinel(columns[j])
  {
    if columns != [] && !HasSentinel(columns[0]) {
      SentinelIsFirst(columns[1..]);
      if FirstSentinel(columns).Some? {
        var i :| 0 <= i < |columns[1..]| && HasSentinel(columns[1..][i])
          && FirstSentinel(columns).value == (columns[1..][i].name, columns[1..][i].sample.value.sentinel.value.0)
          && forall j :: 0 <= j < i ==> !HasSentinel(columns[1..][j]);
        forall j | 0 <= j < i + 1 ensures !HasSentinel(columns[j]) {
          assert j > 0 ==> columns[1..][j - 1] == columns[j];
        }
        assert columns[i + 1] == columns[1..][i];
      }
    }
  }

  /** A limit cuts the list of at most four shapes: scan, projection, exclusion and join, as far as the
      table has them. */
  lemma {:induction false} LimitCutsShapes(t: Table, maxExamples: nat)
    ensures Examples(t, maxExamples) <= Examples(t, 4)
    ensures |Examples(t, maxExamples)| == if maxExamples < |Examples(t, 4)| then maxExamples else |Examples(t, 4)|
    ensures multiset(Examples(t, 4)) == multiset{ScanQuery(t)} + multiset(ProjectionQuery(t))
      + multiset(SentinelQuery(t)) + multiset(JoinQuery(t))
    ensures Examples(t, 4)[0] == ScanQuery(t)
  {
  }

  /** There is a join exactly if the first foreign key has a column on both sides; it joins the table
      with the referenced one where the key's first column equals the first referenced column. */
  lemma {:induction false} JoinEquatesKey(t: Table, fk: ForeignKey)
    requires t.foreignKeys != [] ==> fk == t.foreignKeys[0]
    ensures |JoinQuery(t)| == if t.foreignKeys != [] && fk.columns != [] && fk.referencedColumns != [] then 1 else 0
    ensures JoinQuery(t) != [] ==>
      EndsWith(JoinQuery(t)[0],
               " FROM " + t.QualifiedName() + " a JOIN " + fk.referencedTable + " b ON a." + fk.columns[0]
               + " = b." + fk.referencedColumns[0] + " LIMIT 10")
  {
    if JoinQuery(t) != [] {
      var c0, rc0 := fk.columns[0], fk.referencedColumns[0];
      var pk := if KeyColumn(t).Some? then KeyColumn(t).value else c0;
      var front, back := "SELECT a." + pk + ", b." + rc0,
        " FROM " + t.QualifiedName() + " a JOIN " + fk.referencedTable + " b ON a." + c0 + " = b." + rc0 + " LIMIT 10";
      assert JoinQuery(t)[0] == front + back;
    }
  }

  // ----- Accepted by the read-only filter ----------------------------------------------------------

  /** Every name the generator pastes into a statement is free of quotes and semicolons. */
  ghost predicate PlainNames(t: Table) {
    && Plain(t.QualifiedName())
    && (t.primaryKey.Some? ==> forall i :: 0 <= i < |t.primaryKey.value| ==> Plain(t.primaryKey.value[i]))
    && (forall i :: 0 <= i < |t.columns| ==> Plain(t.columns[i].name))
    && (forall i :: 0 <= i < |t.foreignKeys| ==> PlainKey(t.foreignKeys[i]))
  }

  ghost predicate PlainKey(fk: ForeignKey) {
    && Plain(fk.referencedTable)
    && (forall i :: 0 <= i < |fk.columns| ==> Plain(fk.columns[i]))
    && (forall i :: 0 <= i < |fk.referencedColumns| ==> Plain(fk.referencedColumns[i]))
  }

  /** One statement, and the filter lets it pass. */
  ghost predicate OneReadonlyStatement(s: string) {
    Statements(s) == [s] && AssertReadonly(s).Accepted?
  }

  lemma {:induction false} UncutSelect(s: string)
    requires StartsWith(s, "SELECT ") && Pieces(Outside, s) == [s]
    ensures OneReadonlyStatement(s)
  {
    var word := s[..6];
    assert s[..7][..6] == word && s[..7][6] == ' ';
    assert word == "SELECT" && ToUpper(word) == "SELECT";
    assert HasFirstWord(s, word);
    TrimmedFirstWord(s, word);
    SinglePieceVerdict(s, word);
  }

  lemma PlainSelect(s: string)
    requires StartsWith(s, "SELECT ") && Plain(s)
    ensures OneReadonlyStatement(s)
  {
    var nothing := "";
    NoCutOutside(s, nothing);
    assert s + nothing == s;
    UncutSelect(s);
  }

  lemma PlainConcat(a: string, b: string)
    requires Plain(a) && Plain(b)
    ensures Plain(a + b)
  {
  }

  lemma {:induction false} PlainJoin(names: seq<string>, separator: string)
    requires Plain(separator) && forall i :: 0 <= i < |names| ==> Plain(names[i])
    ensures Plain(Join(names, separator))
  {
    if |names| >= 2 { PlainJoin(names[1..], separator); }
  }

  lemma {:induction false} SentinelColumnPlain(columns: seq<Column>)
    requires (forall i :: 0 <= i < |columns| ==> Plain(columns[i].name)) && FirstSentinel(columns).Some?
    ensures Plain(FirstSentinel(columns).value.0)
  {
    if !(columns[0].sample.Some? && columns[0].sample.value.sentinel.Some?) {
      SentinelColumnPlain(columns[1..]);
    }
  }

  lemma {:induction false} NoCutInLiteral(value: string, rest: string)
    requires rest == "" || rest[0] != '\''
    ensures Pieces(InSingle, Escape(value) + ("'" + rest)) == Glue(Escape(value) + "'", Pieces(Outside, rest))
  {
    var tail := "'" + rest;
    if value == "" {
      assert Escape(value) + tail == tail && tail[1..] == rest && Escape(value) + "'" == "'";
    } else {
      EscapeStep(value, tail);
      NoCutInLiteral(value[1..], rest);
      var s := Escape(value) + tail;
      var done := Pieces(Outside, rest);
      GlueTwice([s[0]], Escape(value[1..]) + "'", done);
      if value[0] == '\'' {
        assert s[1..][1..] == s[2..];
        GlueTwice([s[1]], Escape(value[1..]) + "'", done);
        GlueTwice([s[0]], [s[1]] + (Escape(value[1..]) + "'"), done);
        assert [s[0]] + ([s[1]] + (Escape(value[1..]) + "'")) == Escape(value) + "'";
      } else {
        assert [s[0]] + (Escape(value[1..]) + "'") == Escape(value) + "'";
      }
    }
  }

  /** The text of the exclusion query up to and without the literal's opening quote. */
  function ExcludePrefix(qn: string, column: string): string {
    "SELECT count(*) FROM " + qn + " WHERE " + column + " != "
  }

  lemma ExcludeSplit(qn: string, column: string, value: string)
    ensures ExcludeQuery(qn, column, value) == ExcludePrefix(qn, column) + ExcludedLiteral(value)
  {
    assert "'" + "" == "'";
    assert " != '" == " != " + "'";
  }

  /** An escaped literal at the end of a text is never cut, and blanks to two spaces. */
  lemma {:induction false} FinalLiteral(value: string, literal: string)
    requires literal == ExcludedLiteral(value)
    ensures Pieces(Outside, literal) == [literal]
    ensures Strip(literal) == "  "
    ensures ReadLiteral(literal[1..]) == (value, "")
  {
    var nothing := "";
    var body := Escape(value) + ("'" + nothing);
    assert literal[1..] == body && literal[0] == '\'';
    NoCutInLiteral(value, nothing);
    assert body == Escape(value) + "'" == Escape(value) + "'" + nothing;
    assert Pieces(InSingle, body) == [body];
    LiteralBlanked(value, nothing);
    assert StripLiteral(body) == " ";
    LiteralRoundTrip(value, nothing);
  }

  /** The literal that ends the exclusion query. */
  function ExcludedLiteral(value: string): string {
    "'" + (Escape(value) + ("'" + ""))
  }

  lemma {:induction false} SelectFirst(qn: string, column: string, s: string)
    requires |ExcludePrefix(qn, column)| <= |s| && s[..|ExcludePrefix(qn, column)|] == ExcludePrefix(qn, column)
    ensures StartsWith(s, "SELECT ")
  {
    assert s[..7] == s[..|ExcludePrefix(qn, column)|][..7];
  }

  lemma {:induction false} SentinelUncut(qn: string, column: string, value: string)
    requires Plain(qn) && Plain(column)
    ensures OneReadonlyStatement(ExcludeQuery(qn, column, value))
  {
    var s, prefix, literal := ExcludeQuery(qn, column, value), ExcludePrefix(qn, column), ExcludedLiteral(value);
    ExcludeSplit(qn, column, value);
    FinalLiteral(value, literal);
    NoCutOutside(prefix, literal);
    SelectFirst(qn, column, s);
    UncutSelect(s);
  }

  lemma {:induction false} SentinelBlanked(qn: string, column: string, value: string)
    requires Plain(qn) && Plain(column)
    ensures Strip(ExcludeQuery(qn, column, value)) == Utf8All(ExcludePrefix(qn, column)) + "  "
  {
    var prefix, literal := ExcludePrefix(qn, column), ExcludedLiteral(value);
    ExcludeSplit(qn, column, value);
    FinalLiteral(value, literal);
    StripUnquoted(prefix, literal);
  }

  lemma {:induction false} SentinelReadsBack(qn: string, column: string, value: string)
    ensures |ExcludePrefix(qn, column)| < |ExcludeQuery(qn, column, value)|
    ensures ReadLiteral(ExcludeQuery(qn, column, value)[|ExcludePrefix(qn, column)| + 1..]) == (value, "")
  {
    var prefix, literal := ExcludePrefix(qn, column), ExcludedLiteral(value);
    ExcludeSplit(qn, column, value);
    FinalLiteral(value, literal);
    assert (prefix + literal)[|prefix| + 1..] == literal[1..];
  }

  /** For every sentinel value, whatever quotes and semicolons it holds: the query is one statement
      that passes the filter, its literal reads back as the value, and its blanked form depends on
      the names alone. */
  lemma {:induction false} SentinelQueryIsSafe(qn: string, column: string, value: string)
    requires Plain(qn) && Plain(column)
    ensures OneReadonlyStatement(ExcludeQuery(qn, column, value))
    ensures |ExcludePrefix(qn, column)| < |ExcludeQuery(qn, column, value)|
    ensures ReadLiteral(ExcludeQuery(qn, column, value)[|ExcludePrefix(qn, column)| + 1..]) == (value, "")
    ensures Strip(ExcludeQuery(qn, column, value)) == Utf8All(ExcludePrefix(qn, column)) + "  "
  {
    SentinelUncut(qn, column, value);
    SentinelReadsBack(qn, column, value);
    SentinelBlanked(qn, column, value);
  }

  lemma ScanQuerySafe(t: Table)
    requires PlainNames(t)
    ensures OneReadonlyStatement(ScanQuery(t))
  {
    var key := if KeyColumn(t).Some? then KeyColumn(t).value else "*";
    PlainConcat("SELECT ", key);
    PlainConcat("SELECT " + key, " FROM ");
    PlainConcat("SELECT " + key + " FROM ", t.QualifiedName());
    PlainConcat("SELECT " + key + " FROM " + t.QualifiedName(), " LIMIT 10");
    assert ScanQuery(t)[..7] == "SELECT ";
    PlainSelect(ScanQuery(t));
  }

  lemma ProjectionQuerySafe(t: Table)
    requires PlainNames(t)
    ensures forall s :: s in ProjectionQuery(t) ==> OneReadonlyStatement(s)
  {
    if ProjectionQuery(t) != [] {
      var names := ColumnNames(if |t.columns| <= 3 then t.columns else t.columns[..3]);
      PlainJoin(names, ", ");
      var list, qn := Join(names, ", "), t.QualifiedName();
      PlainConcat("SELECT ", list);
      PlainConcat("SELECT " + list, " FROM ");
      PlainConcat("SELECT " + list + " FROM ", qn);
      PlainConcat("SELECT " + list + " FROM " + qn, " LIMIT 10");
      assert ProjectionQuery(t)[0][..7] == "SELECT ";
      PlainSelect(ProjectionQuery(t)[0]);
    }
  }

  lemma PlainFour(a: string, b: string, c: string, d: string)
    requires Plain(a) && Plain(b) && Plain(c) && Plain(d)
    ensures Plain(a + b + c + d)
  {
    PlainConcat(a, b);
    PlainConcat(a + b, c);
    PlainConcat(a + b + c, d);
  }

  lemma {:induction false} JoinTextSafe(pk: string, rc0: string, qn: string, other: string, c0: string, text: string)
    requires Plain(pk) && Plain(rc0) && Plain(qn) && Plain(other) && Plain(c0)
    requires text == "SELECT a." + pk + ", b." + rc0 + " FROM " + qn + " a JOIN " + other + " b ON a." + c0 + " = b."
      + rc0 + " LIMIT 10"
    ensures OneReadonlyStatement(text)
  {
    var select := "SELECT a." + pk + ", b." + rc0;
    PlainFour("SELECT a.", pk, ", b.", rc0);
    var from := select + " FROM " + qn + " a JOIN ";
    PlainFour(select, " FROM ", qn, " a JOIN ");
    var on := from + other + " b ON a." + c0;
    PlainFour(from, other, " b ON a.", c0);
    PlainFour(on, " = b.", rc0, " LIMIT 10");
    assert text[..7] == "SELECT ";
    PlainSelect(text);
  }

  lemma JoinQuerySafe(t: Table)
    requires PlainNames(t)
    ensures forall s :: s in JoinQuery(t) ==> OneReadonlyStatement(s)
  {
    if JoinQuery(t) != [] {
      var fk := t.foreignKeys[0];
      assert PlainKey(fk);
      var c0, rc0 := fk.columns[0], fk.referencedColumns[0];
      var pk := if KeyColumn(t).Some? then KeyColumn(t).value else c0;
      JoinTextSafe(pk, rc0, t.QualifiedName(), fk.referencedTable, c0, JoinQuery(t)[0]);
    }
  }

  /** Every generated example is one statement that the read-only filter accepts. */
  lemma {:induction false} ExamplesAreReadonly(t: Table, maxExamples: nat, s: string)
    requires PlainNames(t) && s in Examples(t, maxExamples)
    ensures OneReadonlyStatement(s)
  {
    ScanQuerySafe(t);
    ProjectionQuerySafe(t);
    JoinQuerySafe(t);
    if FirstSentinel(t.columns).Some? {
      SentinelColumnPlain(t.columns);
      SentinelQueryIsSafe(t.QualifiedName(), FirstSentinel(t.columns).value.0, FirstSentinel(t.columns).value.1);
    }
    var all := [ScanQuery(t)] + ProjectionQuery(t) + SentinelQuery(t) + JoinQuery(t);
    assert s in all;
    assert s == ScanQuery(t) || s in ProjectionQuery(t) || s in SentinelQuery(t) || s in JoinQuery(t);
  }
}
