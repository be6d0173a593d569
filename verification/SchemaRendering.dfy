/** Rendering a schema for an agent within a token budget.

A rendering is a list of pieces put together; each truncation level leaves some kinds of piece out.
The tokenizer is an arbitrary function of the text, and `percent` formats a fraction.
*/
module SchemaRendering {
  import opened Prelude
  import opened Text
  import opened SchemaModel
  import opened ExampleQueries
  import opened Ranking
  import opened Subsequences

  const MAX_EXAMPLES_PER_TABLE := 4
  const KEPT_COLUMNS := 8
  const LEVELS := 5

  datatype Options = Options(
    maxTokens: nat,
    hint: Option<string>,
    tables: Option<seq<string>>,
    includeSamples: bool,
    includeForeignKeys: bool,
    includeExamples: bool)

  // Index: samples, examples, comments, foreign keys, columns past the eighth.
  type Levels = l: seq<bool> | |l| == LEVELS witness [true, true, true, true, true]

  // What a rendering shows, after the caller's options.
  datatype Shown = Shown(samples: bool, examples: bool, comments: bool, foreignKeys: bool, extraColumns: bool)

  function ShownAt(levels: Levels, opts: Options): Shown {
    Shown(levels[0] && opts.includeSamples, levels[1] && opts.includeExamples, levels[2],
          levels[3] && opts.includeForeignKeys, levels[4])
  }

  // ----- Pieces of a rendering -------------------------------------------------------------------

  function Header(t: Table): string {
    "# " + t.QualifiedName() + "\n"
  }

  /** Name, type and the annotations that are never dropped. */
  function TypeLine(c: Column): string {
    "- " + c.name + ": " + c.nativeType + (if c.nullable then "" else " NOT NULL")
    + (if c.isUnique then " UNIQUE" else "")
    + (if c.generationExpression.Some? then " GENERATED AS (" + c.generationExpression.value + ")" else "")
  }

  function CountPieces(c: Column): seq<string> {
    if c.sample.Some? && c.sample.value.distinctCount.Some?
    then [" [n=" + Decimal(c.sample.value.distinctCount.value) + "]"] else []
  }

  function Trailing(c: Column): string {
    var comment := if c.comment.Some? then c.comment.value else "";
    if c.checkConstraint.None? then comment
    else comment + (if comment != "" then "; " else "") + "CHECK " + c.checkConstraint.value
  }

  function CommentPieces(c: Column): seq<string> {
    if Trailing(c) != "" then [" -- " + Trailing(c)] else []
  }

  function TopPreview(values: seq<(string, real)>, percent: real -> string): seq<string> {
    seq(|values|, i requires 0 <= i < |values| => values[i].0 + "(" + percent(values[i].1) + "%)")
  }

  function ValuePieces(c: Column, percent: real -> string): seq<string> {
    if c.sample.None? then []
    else
      var s := c.sample.value;
      if s.sentinel.Some? then [" [sentinel: " + s.sentinel.value.0 + "=" + percent(s.sentinel.value.1) + "%]"]
      else if s.topValues != [] then
        [" [top: " + Join(TopPreview(if |s.topValues| <= 3 then s.topValues else s.topValues[..3], percent), ", ")
         + "]"]
      else []
  }

  function When(condition: bool, pieces: seq<string>): seq<string> {
    if condition then pieces else []
  }

  function ColumnPieces(c: Column, shown: Shown, percent: real -> string): seq<string> {
    [TypeLine(c)] + When(shown.samples, CountPieces(c)) + When(shown.comments, CommentPieces(c))
    + When(shown.samples, ValuePieces(c, percent)) + ["\n"]
  }

  function ColumnRenderer(shown: Shown, percent: real -> string): Column -> seq<string> {
    c => ColumnPieces(c, shown, percent)
  }

  function Kept(cs: seq<Column>): seq<Column> {
    if |cs| <= KEPT_COLUMNS then cs else cs[..KEPT_COLUMNS]
  }

  function KeyPiece(fk: ForeignKey): string {
    "  FK " + Join(fk.columns, ",") + " -> " + fk.referencedTable + "(" + Join(fk.referencedColumns, ",") + ")\n"
  }

  function KeyPieces(fks: seq<ForeignKey>): seq<string> {
    seq(|fks|, i requires 0 <= i < |fks| => KeyPiece(fks[i]))
  }

  function ExamplePieces(t: Table): seq<string> {
    var examples := Examples(t, MAX_EXAMPLES_PER_TABLE);
    if examples == [] then []
    else ["Examples:\n"] + seq(|examples|, i requires 0 <= i < |examples| => "- " + examples[i] + "\n")
  }

  function TableComment(t: Table): seq<string> {
    if t.comment.Some? then ["> " + t.comment.value + "\n"] else []
  }

  function TablePieces(t: Table, shown: Shown, percent: real -> string): seq<string> {
    [Header(t)]
    + When(shown.comments, TableComment(t))
    + FlatMap(if shown.extraColumns then t.columns else Kept(t.columns), ColumnRenderer(shown, percent))
    + When(shown.foreignKeys, KeyPieces(t.foreignKeys))
    + When(shown.examples, ExamplePieces(t))
    + ["\n"]
  }

  function TableRenderer(shown: Shown, percent: real -> string): Table -> seq<string> {
    t => TablePieces(t, shown, percent)
  }

  function AllPieces(tables: seq<Table>, shown: Shown, percent: real -> string): seq<string> {
    FlatMap(tables, TableRenderer(shown, percent))
  }

  function Render(tables: seq<Table>, shown: Shown, percent: real -> string): string {
    Concat(AllPieces(tables, shown, percent))
  }

  // ----- Rendering, as the program appends it ------------------------------------------------------

  lemma Concat1(text: string)
    ensures Concat([text]) == text
  {
    assert [text][1..] == [] && text + FlatMap([], Whole) == text;
  }

  /** Append pieces one by one. */
  method PushAll(start: string, pieces: seq<string>) returns (out: string)
    ensures out == start + Concat(pieces)
  {
    out := start;
    assert start + Concat(pieces[..0]) == start;
    for i := 0 to |pieces|
      invariant out == start + Concat(pieces[..i])
    {
      FlatMapPrefix(pieces, i, Whole);
      assert start + Concat(pieces[..i]) + pieces[i] == start + (Concat(pieces[..i]) + pieces[i]);
      out := out + pieces[i];
    }
    assert pieces[..|pieces|] == pieces;
  }

  lemma ConcatParts(a: seq<string>, b: seq<string>, c: seq<string>, d: seq<string>, e: seq<string>, f: seq<string>)
    ensures Concat(a + b + c + d + e + f) == Concat(a) + Concat(b) + Concat(c) + Concat(d) + Concat(e) + Concat(f)
  {
    ConcatAppend(a, b);
    ConcatAppend(a + b, c);
    ConcatAppend(a + b + c, d);
    ConcatAppend(a + b + c + d, e);
    ConcatAppend(a + b + c + d + e, f);
  }

  method RenderTypeLine(col: Column) returns (out: string)
    ensures out == TypeLine(col)
  {
    out := "- " + col.name + ": " + col.nativeType + if col.nullable then "" else " NOT NULL";
    if col.isUnique {
      out := out + " UNIQUE";
    }
    if col.generationExpression.Some? {
      out := out + (" GENERATED AS (" + col.generationExpression.value + ")");
    }
  }

  method RenderColumn(col: Column, shown: Shown, percent: real -> string) returns (out: string)
    ensures out == Concat(ColumnPieces(col, shown, percent))
  {
    out := RenderTypeLine(col);
    out := PushAll(out, When(shown.samples, CountPieces(col)));
    out := PushAll(out, When(shown.comments, CommentPieces(col)));
    out := PushAll(out, When(shown.samples, ValuePieces(col, percent)));
    out := out + "\n";
    Concat1(TypeLine(col));
    Concat1("\n");
    ColumnPiecesText([TypeLine(col)], When(shown.samples, CountPieces(col)), When(shown.comments, CommentPieces(col)),
                     When(shown.samples, ValuePieces(col, percent)), ["\n"]);
  }

  lemma ColumnPiecesText(a: seq<string>, b: seq<string>, c: seq<string>, d: seq<string>, e: seq<string>)
    ensures Concat(a + b + c + d + e) == Concat(a) + Concat(b) + Concat(c) + Concat(d) + Concat(e)
  {
    ConcatParts(a, b, c, d, e, []);
    assert a + b + c + d + e + [] == a + b + c + d + e;
  }

  method RenderColumns(columns: seq<Column>, shown: Shown, percent: real -> string) returns (out: string)
    ensures out == Concat(FlatMap(columns, ColumnRenderer(shown, percent)))
  {
    out := "";
    var f := ColumnRenderer(shown, percent);
    for i := 0 to |columns|
      invariant out == Concat(FlatMap(columns[..i], f))
    {
      var line := RenderColumn(columns[i], shown, percent);
      FlatMapPrefix(columns, i, f);
      ConcatAppend(FlatMap(columns[..i], f), f(columns[i]));
      out := out + line;
    }
    assert columns[..|columns|] == columns;
  }

  method RenderTable(t: Table, shown: Shown, percent: real -> string) returns (out: string)
    ensures out == Concat(TablePieces(t, shown, percent))
  {
    out := Header(t);
    out := PushAll(out, When(shown.comments, TableComment(t)));
    var columns := RenderColumns(if shown.extraColumns then t.columns else Kept(t.columns), shown, percent);
    out := out + columns;
    out := PushAll(out, When(shown.foreignKeys, KeyPieces(t.foreignKeys)));
    out := PushAll(out, When(shown.examples, ExamplePieces(t)));
    out := out + "\n";
    Concat1(Header(t));
    Concat1("\n");
    ConcatParts([Header(t)], When(shown.comments, TableComment(t)),
                FlatMap(if shown.extraColumns then t.columns else Kept(t.columns), ColumnRenderer(shown, percent)),
                When(shown.foreignKeys, KeyPieces(t.foreignKeys)), When(shown.examples, ExamplePieces(t)), ["\n"]);
  }

  method RenderTables(tables: seq<Table>, shown: Shown, percent: real -> string) returns (out: string)
    ensures out == Render(tables, shown, percent)
  {
    out := "";
    var f := TableRenderer(shown, percent);
    for i := 0 to |tables|
      invariant out == Concat(FlatMap(tables[..i], f))
    {
      var text := RenderTable(tables[i], shown, percent);
      FlatMapPrefix(tables, i, f);
      ConcatAppend(FlatMap(tables[..i], f), f(tables[i]));
      out := out + text;
    }
    assert tables[..|tables|] == tables;
  }

  // ----- What truncation leaves out ----------------------------------------------------------------

  /** `a` shows nothing that `b` does not. */
  predicate ShowsLess(a: Shown, b: Shown) {
    && (a.samples ==> b.samples) && (a.examples ==> b.examples) && (a.comments ==> b.comments)
    && (a.foreignKeys ==> b.foreignKeys) && (a.extraColumns ==> b.extraColumns)
  }

  lemma WhenBelow(a: bool, b: bool, pieces: seq<string>)
    requires a ==> b
    ensures Subseq(When(a, pieces), When(b, pieces))
  {
    Reflexive(pieces);
  }

  lemma FiveBelow<T>(a: seq<T>, b: seq<T>, c: seq<T>, d: seq<T>, e: seq<T>, a': seq<T>, b': seq<T>, c': seq<T>,
                     d': seq<T>, e': seq<T>)
    requires Subseq(a, a') && Subseq(b, b') && Subseq(c, c') && Subseq(d, d') && Subseq(e, e')
    ensures Subseq(a + b + c + d + e, a' + b' + c' + d' + e')
  {
    Beside(a, a', b, b');
    Beside(a + b, a' + b', c, c');
    Beside(a + b + c, a' + b' + c', d, d');
    Beside(a + b + c + d, a' + b' + c' + d', e, e');
  }

  lemma ColumnBelow(c: Column, a: Shown, b: Shown, percent: real -> string)
    requires ShowsLess(a, b)
    ensures Subseq(ColumnPieces(c, a, percent), ColumnPieces(c, b, percent))
  {
    Reflexive([TypeLine(c)]);
    Reflexive(["\n"]);
    WhenBelow(a.samples, b.samples, CountPieces(c));
    WhenBelow(a.comments, b.comments, CommentPieces(c));
    WhenBelow(a.samples, b.samples, ValuePieces(c, percent));
    FiveBelow([TypeLine(c)], When(a.samples, CountPieces(c)), When(a.comments, CommentPieces(c)),
              When(a.samples, ValuePieces(c, percent)), ["\n"],
              [TypeLine(c)], When(b.samples, CountPieces(c)), When(b.comments, CommentPieces(c)),
              When(b.samples, ValuePieces(c, percent)), ["\n"]);
  }

  lemma ColumnsBelow(t: Table, a: Shown, b: Shown, percent: real -> string)
    requires ShowsLess(a, b)
    ensures Subseq(FlatMap(if a.extraColumns then t.columns else Kept(t.columns), ColumnRenderer(a, percent)),
                   FlatMap(if b.extraColumns then t.columns else Kept(t.columns), ColumnRenderer(b, percent)))
  {
    var fa, fb := ColumnRenderer(a, percent), ColumnRenderer(b, percent);
    var ca := if a.extraColumns then t.columns else Kept(t.columns);
    var cb := if b.extraColumns then t.columns else Kept(t.columns);
    forall c ensures Subseq(fa(c), fb(c)) { ColumnBelow(c, a, b, percent); }
    FlatMapBelow(ca, fa, fb);
    Reflexive(ca);
    if |t.columns| > KEPT_COLUMNS { PrefixBelow(t.columns, KEPT_COLUMNS); }
    FlatMapOfBelow(ca, cb, fb);
    Transitive(FlatMap(ca, fa), FlatMap(ca, fb), FlatMap(cb, fb));
  }

  lemma TableBelow(t: Table, a: Shown, b: Shown, percent: real -> string)
    requires ShowsLess(a, b)
    ensures Subseq(TablePieces(t, a, percent), TablePieces(t, b, percent))
  {
    Reflexive([Header(t)]);
    Reflexive(["\n"]);
    WhenBelow(a.comments, b.comments, TableComment(t));
    ColumnsBelow(t, a, b, percent);
    WhenBelow(a.foreignKeys, b.foreignKeys, KeyPieces(t.foreignKeys));
    WhenBelow(a.examples, b.examples, ExamplePieces(t));
    var ca := FlatMap(if a.extraColumns then t.columns else Kept(t.columns), ColumnRenderer(a, percent));
    var cb := FlatMap(if b.extraColumns then t.columns else Kept(t.columns), ColumnRenderer(b, percent));
    FiveBelow([Header(t)], When(a.comments, TableComment(t)), ca, When(a.foreignKeys, KeyPieces(t.foreignKeys)),
              When(a.examples, ExamplePieces(t)),
              [Header(t)], When(b.comments, TableComment(t)), cb, When(b.foreignKeys, KeyPieces(t.foreignKeys)),
              When(b.examples, ExamplePieces(t)));
    Beside([Header(t)] + When(a.comments, TableComment(t)) + ca + When(a.foreignKeys, KeyPieces(t.foreignKeys))
           + When(a.examples, ExamplePieces(t)),
           [Header(t)] + When(b.comments, TableComment(t)) + cb + When(b.foreignKeys, KeyPieces(t.foreignKeys))
           + When(b.examples, ExamplePieces(t)),
           ["\n"], ["\n"]);
  }

  /** Showing fewer kinds of piece, of fewer tables, only deletes whole pieces: no piece changes and
      none moves.  The text is then a subsequence of the text, character by character. */
  lemma RenderingOnlyLoses(fewer: seq<Table>, tables: seq<Table>, a: Shown, b: Shown, percent: real -> string)
    requires ShowsLess(a, b) && fewer <= tables
    ensures Subseq(AllPieces(fewer, a, percent), AllPieces(tables, b, percent))
    ensures Subseq(Render(fewer, a, percent), Render(tables, b, percent))
  {
    var fa, fb := TableRenderer(a, percent), TableRenderer(b, percent);
    forall t ensures Subseq(fa(t), fb(t)) { TableBelow(t, a, b, percent); }
    FlatMapBelow(fewer, fa, fb);
    PrefixBelow(tables, |fewer|);
    assert tables[..|fewer|] == fewer;
    FlatMapOfBelow(fewer, tables, fb);
    Transitive(AllPieces(fewer, a, percent), FlatMap(fewer, fb), AllPieces(tables, b, percent));
    FlatMapOfBelow(AllPieces(fewer, a, percent), AllPieces(tables, b, percent), Whole);
  }

  // ----- What truncation keeps ---------------------------------------------------------------------

  function TypeLineOf(c: Column): seq<string> {
    [TypeLine(c)]
  }

  /** The header of a table and the type lines of its first eight columns. */
  function Core(t: Table): seq<string> {
    [Header(t)] + FlatMap(Kept(t.columns), TypeLineOf)
  }

  lemma SingletonBelow<T>(pieces: seq<T>, i: nat)
    requires i < |pieces|
    ensures Subseq([pieces[i]], pieces)
  {
    Reflexive([pieces[i]]);
    Beside([], pieces[..i], [pieces[i]], [pieces[i]]);
    Beside([] + [pieces[i]], pieces[..i] + [pieces[i]], [], pieces[i + 1..]);
    assert pieces[..i] + [pieces[i]] + pieces[i + 1..] == pieces && [] + [pieces[i]] + [] == [pieces[i]];
  }

  lemma TypeLinesBelow(t: Table, shown: Shown, percent: real -> string)
    ensures Subseq(FlatMap(Kept(t.columns), TypeLineOf),
                   FlatMap(if shown.extraColumns then t.columns else Kept(t.columns), ColumnRenderer(shown, percent)))
  {
    var f := ColumnRenderer(shown, percent);
    var shownColumns := if shown.extraColumns then t.columns else Kept(t.columns);
    forall c: Column ensures Subseq(TypeLineOf(c), f(c)) {
      SingletonBelow(f(c), 0);
    }
    FlatMapBelow(Kept(t.columns), TypeLineOf, f);
    Reflexive(Kept(t.columns));
    if |t.columns| > KEPT_COLUMNS { PrefixBelow(t.columns, KEPT_COLUMNS); }
    FlatMapOfBelow(Kept(t.columns), shownColumns, f);
    Transitive(FlatMap(Kept(t.columns), TypeLineOf), FlatMap(Kept(t.columns), f), FlatMap(shownColumns, f));
  }

  /** Pieces added around two that stay. */
  lemma TwoOfSixBelow<T>(a: seq<T>, c: seq<T>, b: seq<T>, c': seq<T>, d: seq<T>, e: seq<T>, f: seq<T>)
    requires Subseq(c, c')
    ensures Subseq(a + c, a + b + c' + d + e + f)
  {
    Reflexive(a);
    FiveBelow(a, [], c, [], [], a, b, c', d, e);
    Beside(a + [] + c + [] + [], a + b + c' + d + e, [], f);
    assert a + [] + c + [] + [] + [] == a + c;
  }

  lemma CoreBelow(t: Table, shown: Shown, percent: real -> string)
    ensures Subseq(Core(t), TablePieces(t, shown, percent))
  {
    TypeLinesBelow(t, shown, percent);
    TwoOfSixBelow([Header(t)], FlatMap(Kept(t.columns), TypeLineOf), When(shown.comments, TableComment(t)),
                  FlatMap(if shown.extraColumns then t.columns else Kept(t.columns), ColumnRenderer(shown, percent)),
                  When(shown.foreignKeys, KeyPieces(t.foreignKeys)), When(shown.examples, ExamplePieces(t)), ["\n"]);
  }

  /** Every rendering, at any level, keeps each of its tables' headers and the whole type lines of
      the first eight columns, in order. */
  lemma RenderingKeepsCore(tables: seq<Table>, shown: Shown, percent: real -> string)
    ensures Subseq(FlatMap(tables, Core), AllPieces(tables, shown, percent))
  {
    var f := TableRenderer(shown, percent);
    forall t ensures Subseq(Core(t), f(t)) { CoreBelow(t, shown, percent); }
    FlatMapBelow(tables, Core, f);
  }
}
