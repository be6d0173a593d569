/** Query results as a Markdown table, trimmed to a token budget.

Body rows follow section 4.10 of the GitHub Flavored Markdown specification: a pipe inside a cell is
written with a backslash in front.  `DecodeRow` reads such a row back.
*/
module RowRendering {
  import opened Prelude
  import opened Text

  datatype QueryResult = QueryResult(columns: seq<string>, rows: seq<seq<string>>, truncated: bool)

  // ----- One row ---------------------------------------------------------------------------------

  /** Pipes escaped, then newlines turned into spaces. */
  function EscapeCell(cell: string): string {
    Replace(Replace(cell, '|', "\\|"), '\n', " ")
  }

  function CellAt(row: seq<string>, i: nat): string {
    if i < |row| then row[i] else ""
  }

  /** Cells from the `i`-th column on, each followed by its separator. */
  function CellsFrom(n: nat, row: seq<string>, i: nat): string
    requires i <= n
    decreases n - i
  {
    if i == n then "" else EscapeCell(CellAt(row, i)) + (if i + 1 < n then " | " else " |\n") + CellsFrom(n, row, i + 1)
  }

  function RowText(n: nat, row: seq<string>): string {
    "| " + CellsFrom(n, row, 0)
  }

  method RenderBodyRow(columns: seq<string>, row: seq<string>) returns (s: string)
    ensures s == RowText(|columns|, row)
  {
    s := "| ";
    for i := 0 to |columns|
      invariant s + CellsFrom(|columns|, row, i) == RowText(|columns|, row)
    {
      var cell := if i < |row| then row[i] else "";
      var escaped := EscapeCell(cell);
      var separator := if i + 1 < |columns| then " | " else " |\n";
      assert s + (escaped + separator + CellsFrom(|columns|, row, i + 1)) ==
        s + escaped + separator + CellsFrom(|columns|, row, i + 1);
      s := s + escaped;
      s := s + separator;
    }
  }

  // ----- Reading a row back ----------------------------------------------------------------------

  /** `text` in front of the first field. */
  function Onto(text: string, fields: seq<string>): seq<string>
    requires fields != []
  {
    [text + fields[0]] + fields[1..]
  }

  /** The text cut at every pipe that has no backslash right in front of it. */
  function Fields(s: string, afterBackslash: bool): (r: seq<string>)
    ensures r != []
    decreases |s|
  {
    if s == "" then [""]
    else if s[0] == '|' && !afterBackslash then [""] + Fields(s[1..], false)
    else Onto([s[0]], Fields(s[1..], s[0] == '\\'))
  }

  function Unescape(s: string): string {
    if |s| >= 2 && s[0] == '\\' && s[1] == '|' then "|" + Unescape(s[2..])
    else if s == "" then ""
    else [s[0]] + Unescape(s[1..])
  }

  /** A field without the one space at each end. */
  function Inner(field: string): string {
    if |field| >= 2 then field[1..|field| - 1] else field
  }

  /** The cells of a body row: the fields between the outer pipes. */
  function DecodeRow(text: string): seq<string> {
    DecodeFields(Fields(text, false))
  }

  function DecodeFields(fields: seq<string>): seq<string> {
    if |fields| < 2 then []
    else seq(|fields| - 2, i requires 0 <= i < |fields| - 2 => Unescape(Inner(fields[i + 1])))
  }

  /** What a row can keep of a cell. */
  function OneLine(cell: string): string {
    Replace(cell, '\n', " ")
  }

  function EscapeChar(c: char): string {
    if c == '|' then "\\|" else if c == '\n' then " " else [c]
  }

  lemma EscapeStep(cell: string)
    requires cell != ""
    ensures EscapeCell(cell) == EscapeChar(cell[0]) + EscapeCell(cell[1..])
  {
    var rest := Replace(cell[1..], '|', "\\|");
    if cell[0] == '|' {
      var s := Replace(cell, '|', "\\|");
      assert s == "\\|" + rest && s[0] == '\\' && s[1..][0] == '|' && s[1..][1..] == rest;
      assert Replace(s, '\n', " ") == ['\\'] + Replace(s[1..], '\n', " ");
    } else {
      assert Replace(cell, '|', "\\|") == [cell[0]] + rest && ([cell[0]] + rest)[1..] == rest;
    }
  }

  lemma OntoTwice(a: string, b: string, fields: seq<string>)
    requires fields != []
    ensures Onto(a, Onto(b, fields)) == Onto(a + b, fields)
  {
    assert a + (b + fields[0]) == a + b + fields[0];
  }

  /** A cell is never cut, whatever backslashes and pipes it holds. */
  lemma {:induction false} CellUncut(cell: string, rest: string, afterBackslash: bool)
    requires rest != "" && rest[0] == ' '
    ensures Fields(EscapeCell(cell) + rest, afterBackslash) == Onto(EscapeCell(cell) + " ", Fields(rest[1..], false))
    decreases |cell|
  {
    var s := EscapeCell(cell) + rest;
    var after := Fields(rest[1..], false);
    if cell == "" {
      assert s == rest && "" + " " == " ";
    } else {
      EscapeStep(cell);
      var e := EscapeChar(cell[0]);
      var tail := EscapeCell(cell[1..]) + rest;
      assert s == e + tail;
      if cell[0] == '|' {
        assert s[0] == '\\' && s[1..][0] == '|' && s[1..][1..] == tail;
        CellUncut(cell[1..], rest, false);
        OntoTwice("\\", "|", Fields(tail, false));
        assert "\\" + "|" == e;
        assert Fields(s, afterBackslash) == Onto(e, Fields(tail, false));
      } else {
        assert s[0] == e[0] && s[0] != '|' && s[1..] == tail;
        CellUncut(cell[1..], rest, s[0] == '\\');
        assert [s[0]] == e;
      }
      OntoTwice(e, EscapeCell(cell[1..]) + " ", after);
      assert e + (EscapeCell(cell[1..]) + " ") == EscapeCell(cell) + " ";
    }
  }

  lemma {:induction false} UnescapeEscaped(cell: string)
    ensures Unescape(EscapeCell(cell)) == OneLine(cell)
  {
    if cell != "" {
      EscapeStep(cell);
      UnescapeEscaped(cell[1..]);
      var s := EscapeCell(cell);
      var rest := EscapeCell(cell[1..]);
      if cell[0] == '|' {
        assert s[0] == '\\' && s[1] == '|' && s[2..] == rest;
      } else {
        assert s[1..] == rest && (|s| >= 2 ==> s[1] == rest[0]);
      }
    }
  }

  lemma OneCell(cell: string, more: string)
    ensures Fields(" " + (EscapeCell(cell) + (" |" + more)), false) ==
      [" " + EscapeCell(cell) + " "] + Fields(more, false)
  {
    var rest := " |" + more;
    var s := " " + (EscapeCell(cell) + rest);
    var fields := Fields(more, false);
    assert s[1..] == EscapeCell(cell) + rest;
    CellUncut(cell, rest, false);
    assert rest[1..][0] == '|' && rest[1..][1..] == more;
    assert Fields(rest[1..], false) == [""] + fields;
    OntoTwice(" ", EscapeCell(cell) + " ", [""] + fields);
    assert " " + (EscapeCell(cell) + " ") + "" == " " + EscapeCell(cell) + " ";
  }

  lemma LastField()
    ensures Fields("\n", false) == ["\n"]
  {
    var s := "\n";
    assert s[1..] == "" && [s[0]] + "" == s;
  }

  function Padded(n: nat, row: seq<string>, i: nat): seq<string>
    requires i <= n
    decreases n - i
  {
    if i == n then [] else [" " + EscapeCell(CellAt(row, i)) + " "] + Padded(n, row, i + 1)
  }

  lemma {:induction false} PaddedAt(n: nat, row: seq<string>, i: nat, k: nat)
    requires i <= k < n
    ensures |Padded(n, row, i)| == n - i && Padded(n, row, i)[k - i] == " " + EscapeCell(CellAt(row, k)) + " "
    decreases n - i
  {
    if i + 1 < n { PaddedAt(n, row, i + 1, if k == i then k + 1 else k); }
  }

  lemma {:induction false} CellsFields(n: nat, row: seq<string>, i: nat)
    requires i < n
    ensures Fields(" " + CellsFrom(n, row, i), false) == Padded(n, row, i) + ["\n"]
    decreases n - i
  {
    var cell := CellAt(row, i);
    var more := if i + 1 < n then " " + CellsFrom(n, row, i + 1) else "\n";
    assert " " + CellsFrom(n, row, i) == " " + (EscapeCell(cell) + (" |" + more));
    OneCell(cell, more);
    if i + 1 < n {
      CellsFields(n, row, i + 1);
      assert Padded(n, row, i) + ["\n"] == [" " + EscapeCell(cell) + " "] + (Padded(n, row, i + 1) + ["\n"]);
    } else {
      LastField();
    }
  }

  lemma RowFields(n: nat, row: seq<string>)
    requires n > 0
    ensures Fields(RowText(n, row), false) == [""] + (Padded(n, row, 0) + ["\n"])
  {
    var s := RowText(n, row);
    assert s[0] == '|' && s[1..] == " " + CellsFrom(n, row, 0);
    CellsFields(n, row, 0);
  }

  /** A body row decodes to its cells, padded or cut to the number of columns, newlines as spaces. */
  lemma {:induction false} RowRoundTrip(n: nat, row: seq<string>)
    requires n > 0
    ensures DecodeRow(RowText(n, row)) == seq(n, i requires 0 <= i < n => OneLine(CellAt(row, i)))
  {
    RowFields(n, row);
    PaddedAt(n, row, 0, 0);
    forall k | 0 <= k < n ensures Unescape(Inner(Padded(n, row, 0)[k])) == OneLine(CellAt(row, k)) {
      PaddedCell(n, row, k);
    }
  }

  lemma PaddedCell(n: nat, row: seq<string>, k: nat)
    requires k < n
    ensures |Padded(n, row, 0)| == n && Unescape(Inner(Padded(n, row, 0)[k])) == OneLine(CellAt(row, k))
  {
    PaddedAt(n, row, 0, k);
    var e := EscapeCell(CellAt(row, k));
    assert Inner(" " + e + " ") == e;
    UnescapeEscaped(CellAt(row, k));
  }

  // ----- The table -------------------------------------------------------------------------------

  function HeaderText(columns: seq<string>): string {
    "| " + Join(columns, " | ") + " |\n"
  }

  function Dashes(n: nat): string {
    if n == 0 then "" else Dashes(n - 1) + " --- |"
  }

  function DashesText(n: nat): string {
    "|" + Dashes(n) + "\n"
  }

  function RowTexts(result: QueryResult, k: nat): seq<string>
    requires k <= |result.rows|
  {
    seq(k, i requires 0 <= i < k => RowText(|result.columns|, result.rows[i]))
  }

  function Marker(kept: nat): string {
    "_(truncated to " + Decimal(kept) + " rows)_\n"
  }

  /** The table with the first `k` rows; the marker says so unless nothing is missing. */
  function TableText(result: QueryResult, k: nat): string
    requires k <= |result.rows|
  {
    HeaderText(result.columns) + DashesText(|result.columns|) + Concat(RowTexts(result, k))
    + if result.truncated || k < |result.rows| then Marker(k) else ""
  }

  datatype Rendering = Fits(text: string, tokens: nat) | TokenBudget(needed: nat, budget: nat)

  const NO_ROWS := "_(no rows)_\n"

  /** The most rows that fit, for whatever the tokenizer counts; an error if not even none do. */
  ghost predicate MostRows(result: QueryResult, budget: nat, tokenizer: string -> nat, r: Rendering) {
    if result.columns == [] then
      r ==
      if tokenizer(NO_ROWS) > budget then TokenBudget(tokenizer(NO_ROWS), budget) else Fits(NO_ROWS, tokenizer(NO_ROWS))
    else match r
      case Fits(text, tokens) =>
        tokens <= budget && tokens == tokenizer(text)
        && exists k: nat ::
          && k <= |result.rows| && text == TableText(result, k)
          && NoneAbove(result, budget, tokenizer, k)
      case TokenBudget(needed, b) =>
        b == budget && needed == tokenizer(TableText(result, 0)) && needed > budget
          && NoneAbove(result, budget, tokenizer, 0)
  }

  ghost predicate NoneAbove(result: QueryResult, budget: nat, tokenizer: string -> nat, k: nat) {
    forall j: nat :: k < j <= |result.rows| ==> tokenizer(TableText(result, j)) > budget
  }

  method RenderHeader(columns: seq<string>) returns (s: string)
    ensures s == HeaderText(columns)
  {
    s := "| ";
    s := s + Join(columns, " | ");
    s := s + " |\n";
  }

  method RenderDashes(n: nat) returns (s: string)
    ensures s == DashesText(n)
  {
    s := "|";
    for i := 0 to n
      invariant s == "|" + Dashes(i)
    {
      assert "|" + Dashes(i) + " --- |" == "|" + (Dashes(i) + " --- |");
      s := s + " --- |";
    }
    s := s + "\n";
  }

  method AssembleTable(header: string, dashes: string, bodyRows: seq<string>, truncated: bool, kept: nat)
    returns (out: string)
    ensures out == header + dashes + Concat(bodyRows) + if truncated then Marker(kept) else ""
  {
    out := header + dashes;
    assert out + Concat(bodyRows[..0]) == out;
    for i := 0 to |bodyRows|
      invariant out == header + dashes + Concat(bodyRows[..i])
    {
      FlatMapPrefix(bodyRows, i, Whole);
      assert header + dashes + Concat(bodyRows[..i]) + bodyRows[i] ==
        header + dashes + (Concat(bodyRows[..i]) + bodyRows[i]);
      out := out + bodyRows[i];
    }
    assert bodyRows[..|bodyRows|] == bodyRows;
    if truncated {
      out := out + Marker(kept);
    }
  }

  method RenderRows(result: QueryResult) returns (bodyRows: seq<string>)
    ensures bodyRows == RowTexts(result, |result.rows|)
  {
    bodyRows := [];
    for i := 0 to |result.rows|
      invariant bodyRows == RowTexts(result, i)
    {
      var line := RenderBodyRow(result.columns, result.rows[i]);
      bodyRows := bodyRows + [line];
    }
  }

  lemma FitsHere(result: QueryResult, budget: nat, tokenizer: string -> nat, k: nat, text: string)
    requires result.columns != [] && k <= |result.rows| && NoneAbove(result, budget, tokenizer, k)
      && text == TableText(result, k)
    ensures tokenizer(text) <= budget ==> MostRows(result, budget, tokenizer, Fits(text, tokenizer(text)))
    ensures tokenizer(text) > budget && k == 0 ==>
      MostRows(result, budget, tokenizer, TokenBudget(tokenizer(text), budget))
    ensures tokenizer(text) > budget && k > 0 ==> NoneAbove(result, budget, tokenizer, k - 1)
  {
  }

  method RenderTableForAgent(result: QueryResult, budget: nat, tokenizer: string -> nat) returns (r: Rendering)
    ensures MostRows(result, budget, tokenizer, r)
  {
    if result.columns == [] {
      var tokens := tokenizer(NO_ROWS);
      return if tokens > budget then TokenBudget(tokens, budget) else Fits(NO_ROWS, tokens);
    }
    var header := RenderHeader(result.columns);
    var dashes := RenderDashes(|result.columns|);
    var bodyRows := RenderRows(result);
    var dropped := 0;
    while true
      invariant 0 <= dropped <= |result.rows| && bodyRows == RowTexts(result, |result.rows| - dropped)
      invariant NoneAbove(result, budget, tokenizer, |result.rows| - dropped)
      decreases |result.rows| - dropped
    {
      var total := |result.rows| - dropped;
      var text := AssembleTable(header, dashes, bodyRows, result.truncated || dropped > 0, total);
      assert text == TableText(result, total);
      FitsHere(result, budget, tokenizer, total, text);
      var tokens := tokenizer(text);
      if tokens <= budget {
        return Fits(text, tokens);
      }
      if bodyRows == [] {
        return TokenBudget(tokens, budget);
      }
      bodyRows := bodyRows[..|bodyRows| - 1];
      dropped := dropped + 1;
    }
  }

  /** It fails exactly when no number of rows fits, and otherwise the result is determined. */
  lemma MostRowsDetermined(result: QueryResult, budget: nat, tokenizer: string -> nat, a: Rendering, b: Rendering)
    requires MostRows(result, budget, tokenizer, a) && MostRows(result, budget, tokenizer, b)
    ensures a == b
    ensures result.columns != [] ==>
      (a.TokenBudget? <==> forall k: nat :: k <= |result.rows| ==> tokenizer(TableText(result, k)) > budget)
  {
    if result.columns != [] && a.Fits? && b.Fits? {
      var i: nat :| i <= |result.rows| && a.text == TableText(result, i) && NoneAbove(result, budget, tokenizer, i);
      var j: nat :| j <= |result.rows| && b.text == TableText(result, j) && NoneAbove(result, budget, tokenizer, j);
      assert i == j;
    }
  }

  // ----- The marker, read off the text -------------------------------------------------------------

  /** The character in front of the final newline. */
  function BeforeNewline(text: string): char {
    if |text| >= 2 then text[|text| - 2] else ' '
  }

  lemma {:induction false} CellsEnd(n: nat, row: seq<string>, i: nat)
    requires i < n
    ensures |CellsFrom(n, row, i)| >= 2 && BeforeNewline(CellsFrom(n, row, i)) == '|'
    decreases n - i
  {
    if i + 1 < n { CellsEnd(n, row, i + 1); }
  }

  lemma {:induction false} RowsEnd(result: QueryResult, k: nat)
    requires result.columns != [] && 0 < k <= |result.rows|
    ensures |Concat(RowTexts(result, k))| >= 2 && BeforeNewline(Concat(RowTexts(result, k))) == '|'
  {
    var rows := RowTexts(result, k);
    FlatMapPrefix(rows, k - 1, Whole);
    assert rows[..k] == rows;
    CellsEnd(|result.columns|, result.rows[k - 1], 0);
  }

  /** The text ends in the marker exactly when rows are missing from it or the runner had cut it, and
      the marker names the number of rows shown. */
  lemma {:induction false} MarkerTellsTruth(result: QueryResult, k: nat)
    requires result.columns != [] && k <= |result.rows|
    ensures BeforeNewline(TableText(result, k)) == '_' <==> result.truncated || k < |result.rows|
    ensures BeforeNewline(TableText(result, k)) == '_' ==>
      |Marker(k)| <= |TableText(result, k)| && TableText(result, k)[|TableText(result, k)| - |Marker(k)|..] == Marker(k)
  {
    var body := HeaderText(result.columns) + DashesText(|result.columns|);
    var text := TableText(result, k);
    if result.truncated || k < |result.rows| {
      assert text == body + Concat(RowTexts(result, k)) + Marker(k);
      assert BeforeNewline(Marker(k)) == '_';
    } else {
      assert text == body + Concat(RowTexts(result, k));
      if k > 0 {
        RowsEnd(result, k);
      } else {
        assert Concat(RowTexts(result, 0)) == "";
        assert Dashes(|result.columns|)[|Dashes(|result.columns|)| - 1] == '|';
      }
    }
  }

  /** Different row counts give different markers. */
  lemma MarkerInjective(a: nat, b: nat)
    requires Marker(a) == Marker(b)
    ensures a == b
  {
    DecimalRoundTrip(a);
    DecimalRoundTrip(b);
    var open, close := "_(truncated to ", " rows)_\n";
    assert Marker(a) == open + Decimal(a) + close && Marker(b) == open + Decimal(b) + close;
    assert Decimal(a) == Marker(a)[|open|..|Marker(a)| - |close|];
    assert Decimal(b) == Marker(b)[|open|..|Marker(b)| - |close|];
  }
}
