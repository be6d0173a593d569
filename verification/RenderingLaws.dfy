/** What a rendering says about a schema: what is hidden leaves no trace, what is shown is there, and a
type line reads back. */
module RenderingLaws {
  import opened Prelude
  import opened Text
  import opened SchemaModel
  import opened ExampleQueries
  import opened SchemaRendering

  // ----- What is hidden leaves no trace ------------------------------------------------------------

  /** A column without what a rendering hides; the examples read samples too. */
  function BareColumn(c: Column, shown: Shown): Column {
    c.(sample := if shown.samples || shown.examples then c.sample else None,
       comment := if shown.comments then c.comment else None,
       checkConstraint := if shown.comments then c.checkConstraint else None)
  }

  function ColumnBarer(shown: Shown): Column -> Column {
    c => BareColumn(c, shown)
  }

  function BareColumns(columns: seq<Column>, shown: Shown): seq<Column> {
    MapSeq(columns, ColumnBarer(shown))
  }

  function FirstEight(columns: seq<Column>, all: bool): seq<Column> {
    if all || |columns| <= 8 then columns else columns[..8]
  }

  /** A table without what a rendering hides; the examples read all columns and the first key. */
  function Bare(t: Table, shown: Shown): Table {
    t.(comment := if shown.comments then t.comment else None,
       columns := BareColumns(FirstEight(t.columns, shown.extraColumns || shown.examples), shown),
       primaryKey := if shown.examples then t.primaryKey else None,
       foreignKeys := if shown.foreignKeys || shown.examples then t.foreignKeys else [],
       ddlHash := None)
  }

  function Barer(shown: Shown): Table -> Table {
    t => Bare(t, shown)
  }

  function AllBare(tables: seq<Table>, shown: Shown): seq<Table> {
    MapSeq(tables, Barer(shown))
  }

  lemma BareColumnPieces(c: Column, shown: Shown, percent: real -> string)
    ensures ColumnPieces(BareColumn(c, shown), shown, percent) == ColumnPieces(c, shown, percent)
  {
    var b := BareColumn(c, shown);
    assert TypeLine(b) == TypeLine(c);
    assert When(shown.comments, CommentPieces(b)) == When(shown.comments, CommentPieces(c));
    assert When(shown.samples, CountPieces(b)) == When(shown.samples, CountPieces(c));
    assert When(shown.samples, ValuePieces(b, percent)) == When(shown.samples, ValuePieces(c, percent));
  }

  lemma {:induction false} BareColumnsPieces(columns: seq<Column>, shown: Shown, percent: real -> string)
    ensures FlatMap(BareColumns(columns, shown), ColumnRenderer(shown, percent)) ==
      FlatMap(columns, ColumnRenderer(shown, percent))
  {
    forall c { BareColumnPieces(c, shown, percent); }
    FlatMapOfMapped(columns, ColumnBarer(shown), ColumnRenderer(shown, percent));
  }

  lemma {:induction false} BareSentinel(columns: seq<Column>, shown: Shown)
    requires shown.examples
    ensures FirstSentinel(BareColumns(columns, shown)) == FirstSentinel(columns)
  {
    if columns != [] {
      BareSentinel(columns[1..], shown);
      assert BareColumns(columns, shown)[1..] == BareColumns(columns[1..], shown);
    }
  }

  lemma {:induction false} BareExamples(t: Table, shown: Shown)
    requires shown.examples
    ensures ExamplePieces(Bare(t, shown)) == ExamplePieces(t)
  {
    var b := Bare(t, shown);
    BareSentinel(t.columns, shown);
    assert ColumnNames(if |b.columns| <= 3 then b.columns else b.columns[..3]) ==
      ColumnNames(if |t.columns| <= 3 then t.columns else t.columns[..3]);
    assert b.QualifiedName() == t.QualifiedName() && KeyColumn(b) == KeyColumn(t);
    assert Examples(b, MAX_EXAMPLES_PER_TABLE) == Examples(t, MAX_EXAMPLES_PER_TABLE);
  }

  lemma {:induction false} BareTablePieces(t: Table, shown: Shown, percent: real -> string)
    ensures TablePieces(Bare(t, shown), shown, percent) == TablePieces(t, shown, percent)
  {
    var b := Bare(t, shown);
    var columns := if shown.extraColumns then t.columns else Kept(t.columns);
    assert Header(b) == Header(t);
    assert (if shown.extraColumns then b.columns else Kept(b.columns)) == BareColumns(columns, shown);
    BareColumnsPieces(columns, shown, percent);
    if shown.examples { BareExamples(t, shown); }
  }

  /** A rendering does not depend on anything it hides: samples, comments and checks, keys, columns past
      the eighth; nor on the DDL hash. */
  lemma {:induction false} HiddenLeavesNoTrace(tables: seq<Table>, shown: Shown, percent: real -> string)
    ensures Render(AllBare(tables, shown), shown, percent) == Render(tables, shown, percent)
  {
    forall t { BareTablePieces(t, shown, percent); }
    FlatMapOfMapped(tables, Barer(shown), TableRenderer(shown, percent));
  }

  // ----- What is shown is there --------------------------------------------------------------------

  /** A column's sample: the count, and the dominant value or else the first three values. */
  ghost predicate SampleThere(sample: ColumnSample, percent: real -> string, pieces: seq<string>) {
    && (sample.distinctCount.Some? ==> " [n=" + Decimal(sample.distinctCount.value) + "]" in pieces)
    && match sample.sentinel
       case Some((value, share)) => " [sentinel: " + value + "=" + percent(share) + "%]" in pieces
       case None => sample.topValues != [] ==> exists k ::
         && (k == 3 <= |sample.topValues| || k == |sample.topValues| <= 3)
         && " [top: " + Join(TopPreview(sample.topValues[..k], percent), ", ") + "]" in pieces
  }

  /** A column's comment, its check constraint, or both. */
  ghost predicate CommentThere(c: Column, pieces: seq<string>) {
    var said := c.comment.Some? && c.comment.value != "";
    && (said && c.checkConstraint.None? ==> " -- " + c.comment.value in pieces)
    && (!said && c.checkConstraint.Some? ==> " -- " + ("CHECK " + c.checkConstraint.value) in pieces)
    && (said && c.checkConstraint.Some? ==>
         " -- " + (c.comment.value + "; " + "CHECK " + c.checkConstraint.value) in pieces)
  }

  ghost predicate ColumnThere(c: Column, shown: Shown, percent: real -> string, pieces: seq<string>) {
    && TypeLine(c) in pieces
    && (shown.samples && c.sample.Some? ==> SampleThere(c.sample.value, percent, pieces))
    && (shown.comments ==> CommentThere(c, pieces))
  }

  ghost predicate KeyThere(fk: ForeignKey, pieces: seq<string>) {
    "  FK " + Join(fk.columns, ",") + " -> " + fk.referencedTable + "(" + Join(fk.referencedColumns, ",")
      + ")\n" in pieces
  }

  ghost predicate TableThere(t: Table, shown: Shown, percent: real -> string, pieces: seq<string>) {
    && "# " + t.QualifiedName() + "\n" in pieces
    && (shown.comments && t.comment.Some? ==> "> " + t.comment.value + "\n" in pieces)
    && (forall i :: 0 <= i < |t.columns| && (shown.extraColumns || i < 8) ==>
         ColumnThere(t.columns[i], shown, percent, pieces))
    && (shown.foreignKeys ==> forall fk :: fk in t.foreignKeys ==> KeyThere(fk, pieces))
    && (shown.examples ==> forall s :: s in Examples(t, 4) ==> "- " + s + "\n" in pieces)
  }

  lemma {:induction false} SampleShown(c: Column, shown: Shown, percent: real -> string)
    requires shown.samples && c.sample.Some?
    ensures SampleThere(c.sample.value, percent, ColumnPieces(c, shown, percent))
  {
    var values := c.sample.value.topValues;
    assert forall x :: x in CountPieces(c) || x in ValuePieces(c, percent) ==> x in ColumnPieces(c, shown, percent);
    if c.sample.value.sentinel.None? && values != [] {
      var k := if |values| <= 3 then |values| else 3;
      assert values[..k] == if |values| <= 3 then values else values[..3];
      assert " [top: " + Join(TopPreview(values[..k], percent), ", ") + "]" in ValuePieces(c, percent);
    }
  }

  lemma TrailingSays(c: Column)
    ensures c.comment.Some? && c.comment.value != "" && c.checkConstraint.None? ==> Trailing(c) == c.comment.value
    ensures (c.comment.None? || c.comment.value == "") && c.checkConstraint.Some? ==>
      Trailing(c) == "CHECK " + c.checkConstraint.value
    ensures c.comment.Some? && c.comment.value != "" && c.checkConstraint.Some? ==>
      Trailing(c) == c.comment.value + "; " + "CHECK " + c.checkConstraint.value
  {
    assert "" + "" + "CHECK " == "CHECK ";
  }

  lemma {:induction false} CommentShown(c: Column, shown: Shown, percent: real -> string)
    requires shown.comments
    ensures CommentThere(c, ColumnPieces(c, shown, percent))
  {
    TrailingSays(c);
    if Trailing(c) != "" {
      assert CommentPieces(c) == [" -- " + Trailing(c)];
      assert " -- " + Trailing(c) in ColumnPieces(c, shown, percent);
    }
    assert c.checkConstraint.Some? ==> Trailing(c) != "" by {
      if c.checkConstraint.Some? { assert |Trailing(c)| >= |"CHECK "|; }
    }
  }

  lemma {:induction false} ColumnShown(c: Column, shown: Shown, percent: real -> string)
    ensures ColumnThere(c, shown, percent, ColumnPieces(c, shown, percent))
  {
    if shown.samples && c.sample.Some? { SampleShown(c, shown, percent); }
    if shown.comments { CommentShown(c, shown, percent); }
  }

  lemma ThereInMore(c: Column, shown: Shown, percent: real -> string, pieces: seq<string>, more: seq<string>)
    requires ColumnThere(c, shown, percent, pieces) && forall x :: x in pieces ==> x in more
    ensures ColumnThere(c, shown, percent, more)
  {
  }

  lemma {:induction false} ColumnsShown(columns: seq<Column>, shown: Shown, percent: real -> string, c: Column)
    requires c in columns
    ensures ColumnThere(c, shown, percent, FlatMap(columns, ColumnRenderer(shown, percent)))
  {
    var f := ColumnRenderer(shown, percent);
    ColumnShown(c, shown, percent);
    forall x | x in f(c) ensures x in FlatMap(columns, f) { FlatMapMember(columns, f, c, x); }
    ThereInMore(c, shown, percent, f(c), FlatMap(columns, f));
  }

  lemma KeysShown(fks: seq<ForeignKey>, fk: ForeignKey)
    requires fk in fks
    ensures KeyThere(fk, KeyPieces(fks))
  {
    var i :| 0 <= i < |fks| && fks[i] == fk;
    assert KeyPieces(fks)[i] == KeyPiece(fk);
  }

  lemma ExamplesShown(t: Table, s: string)
    requires s in Examples(t, 4)
    ensures "- " + s + "\n" in ExamplePieces(t)
  {
    var i :| 0 <= i < |Examples(t, 4)| && Examples(t, 4)[i] == s;
    assert ExamplePieces(t)[1 + i] == "- " + s + "\n";
  }

  lemma {:induction false} TableShown(t: Table, shown: Shown, percent: real -> string)
    ensures TableThere(t, shown, percent, TablePieces(t, shown, percent))
  {
    var pieces := TablePieces(t, shown, percent);
    var columns := if shown.extraColumns then t.columns else Kept(t.columns);
    var lines := FlatMap(columns, ColumnRenderer(shown, percent));
    forall x | x in lines ensures x in pieces {
      assert x in [Header(t)] + When(shown.comments, TableComment(t)) + lines;
    }
    forall i | 0 <= i < |t.columns| && (shown.extraColumns || i < 8)
      ensures ColumnThere(t.columns[i], shown, percent, pieces)
    {
      assert columns[i] == t.columns[i];
      ColumnsShown(columns, shown, percent, t.columns[i]);
      ThereInMore(t.columns[i], shown, percent, lines, pieces);
    }
    forall fk | shown.foreignKeys && fk in t.foreignKeys ensures KeyThere(fk, pieces) {
      KeysShown(t.foreignKeys, fk);
    }
    forall s | shown.examples && s in Examples(t, 4) ensures "- " + s + "\n" in pieces {
      ExamplesShown(t, s);
    }
    assert shown.comments ==> forall x :: x in TableComment(t) ==> x in pieces;
  }

  /** Every rendering holds whatever its flags show of each of its tables: header, comment, columns with
      samples, comments and checks, keys and examples. */
  lemma {:induction false} ShownIsThere(tables: seq<Table>, t: Table, shown: Shown, percent: real -> string)
    requires t in tables
    ensures TableThere(t, shown, percent, AllPieces(tables, shown, percent))
  {
    var f := TableRenderer(shown, percent);
    TableShown(t, shown, percent);
    forall x | x in f(t) ensures x in AllPieces(tables, shown, percent) { FlatMapMember(tables, f, t, x); }
    forall i | 0 <= i < |t.columns| && (shown.extraColumns || i < 8)
      ensures ColumnThere(t.columns[i], shown, percent, AllPieces(tables, shown, percent))
    {
      ThereInMore(t.columns[i], shown, percent, f(t), AllPieces(tables, shown, percent));
    }
  }

  // ----- Type lines ----------------------------------------------------------------------------------

  datatype Annotations = Annotations(notNull: bool, unique: bool, generated: Option<string>)

  function ReadGenerated(s: string, opening: string): Option<string> {
    if StartsWith(s, opening) && |opening| < |s| && s[|s| - 1] == ')' then Some(s[|opening|..|s| - 1]) else None
  }

  /** The annotations behind a column's type. */
  function ReadAnnotations(s: string, notNull: string, unique: string, opening: string): Annotations {
    var a := if StartsWith(s, notNull) then s[|notNull|..] else s;
    var b := if StartsWith(a, unique) then a[|unique|..] else a;
    Annotations(StartsWith(s, notNull), StartsWith(a, unique), ReadGenerated(b, opening))
  }

  /** Three openings that no text can share. */
  predicate Apart(notNull: string, unique: string, opening: string) {
    && |notNull| >= 2 && |unique| >= 2 && |opening| >= 2
    && notNull[1] != unique[1] && unique[1] != opening[1] && notNull[1] != opening[1]
  }

  function Annotated(a: Annotations, notNull: string, unique: string, opening: string): string {
    (if a.notNull then notNull else "")
    + ((if a.unique then unique else "") + (if a.generated.Some? then opening + (a.generated.value + ")") else ""))
  }

  lemma FrontOff(front: string, rest: string)
    ensures StartsWith(front + rest, front) && (front + rest)[|front|..] == rest
  {
  }

  lemma OtherFront(s: string, front: string)
    requires |front| >= 2 && (|s| < 2 || s[1] != front[1])
    ensures !StartsWith(s, front)
  {
    assert |front| <= |s| ==> s[..|front|][1] == s[1];
  }

  lemma {:induction false} GeneratedReadsBack(g: Option<string>, opening: string)
    requires opening != ""
    ensures ReadGenerated(if g.Some? then opening + (g.value + ")") else "", opening) == g
  {
    if g.Some? {
      var s := opening + (g.value + ")");
      FrontOff(opening, g.value + ")");
      assert s[|opening|..|s| - 1] == g.value;
    }
  }

  lemma {:induction false} AnnotationsReadBack(a: Annotations, notNull: string, unique: string, opening: string)
    requires Apart(notNull, unique, opening)
    ensures ReadAnnotations(Annotated(a, notNull, unique, opening), notNull, unique, opening) == a
  {
    var g := if a.generated.Some? then opening + (a.generated.value + ")") else "";
    var rest := (if a.unique then unique else "") + g;
    GeneratedReadsBack(a.generated, opening);
    assert "" + g == g && "" + rest == rest;
    if a.unique { FrontOff(unique, g); } else { OtherFront(rest, unique); }
    if a.notNull { FrontOff(notNull, rest); } else { OtherFront(rest, notNull); }
  }

  /** A type line starts with the name and the type, and what follows says exactly whether the column is
      not nullable, whether it is unique, and by what it is generated. */
  lemma {:induction false} TypeLineReadsBack(c: Column, head: string, notNull: string, unique: string, opening: string)
    requires head == "- " + c.name + ": " + c.nativeType
    requires notNull == " NOT NULL" && unique == " UNIQUE" && opening == " GENERATED AS ("
    ensures StartsWith(TypeLine(c), head)
    ensures ReadAnnotations(TypeLine(c)[|head|..], notNull, unique, opening) ==
      Annotations(!c.nullable, c.isUnique, c.generationExpression)
  {
    var a := Annotations(!c.nullable, c.isUnique, c.generationExpression);
    AnnotationsReadBack(a, notNull, unique, opening);
    FrontOff(head, Annotated(a, notNull, unique, opening));
    TypeLineText(c, head, notNull, unique, opening);
  }

  lemma TypeLineText(c: Column, head: string, notNull: string, unique: string, opening: string)
    requires head == "- " + c.name + ": " + c.nativeType
    requires notNull == " NOT NULL" && unique == " UNIQUE" && opening == " GENERATED AS ("
    ensures TypeLine(c) ==
      head + Annotated(Annotations(!c.nullable, c.isUnique, c.generationExpression), notNull, unique, opening)
  {
    var x, y := if c.nullable then "" else notNull, if c.isUnique then unique else "";
    if c.generationExpression.Some? {
      var e := c.generationExpression.value;
      assert head + x + y + (opening + e + ")") == head + (x + (y + (opening + (e + ")"))));
    } else {
      assert head + x + y + "" == head + (x + (y + ""));
    }
  }
}
