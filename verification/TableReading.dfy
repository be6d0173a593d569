/** A rendered result table, read back line by line. */
module TableReading {
  import opened Prelude
  import opened Text
  import opened RowRendering

  // ----- Lines -----------------------------------------------------------------------------------

  /** One more character in front. */
  function Longer(c: char, lines: seq<string>): seq<string> {
    if c == '\n' || lines == [] then [[c]] + lines else [[c] + lines[0]] + lines[1..]
  }

  /** The text cut behind every newline. */
  function Lines(s: string): seq<string>
    decreases |s|
  {
    if s == "" then [] else Longer(s[0], Lines(s[1..]))
  }

  /** One line: a newline at the end and nowhere else. */
  predicate IsLine(s: string) {
    s != "" && s[|s| - 1] == '\n' && '\n' !in s[..|s| - 1]
  }

  lemma LongerAppend(c: char, a: seq<string>, b: seq<string>)
    requires a != []
    ensures Longer(c, a + b) == Longer(c, a) + b && Longer(c, a) != []
  {
    if c == '\n' {
      assert [[c]] + (a + b) == [[c]] + a + b;
    } else {
      var first := [c] + a[0];
      assert (a + b)[1..] == a[1..] + b && (a + b)[0] == a[0];
      assert [first] + (a[1..] + b) == [first] + a[1..] + b;
    }
  }

  /** A text that ends a line is cut from what follows. */
  lemma {:induction false} LinesAppend(a: string, b: string)
    requires a != "" && a[|a| - 1] == '\n'
    ensures Lines(a + b) == Lines(a) + Lines(b) && Lines(a) != []
    decreases |a|
  {
    var s := a + b;
    assert s[0] == a[0] && s[1..] == a[1..] + b;
    if |a| > 1 {
      LinesAppend(a[1..], b);
      LongerAppend(a[0], Lines(a[1..]), Lines(b));
    } else {
      assert a == [s[0]] && s[1..] == b && a[1..] == "";
    }
  }

  lemma {:induction false} OneLineOnly(line: string)
    requires line != "" && line[|line| - 1] == '\n'
    ensures Lines(line) == [line] <==> IsLine(line)
    decreases |line|
  {
    if |line| > 1 {
      var rest := Lines(line[1..]);
      OneLineOnly(line[1..]);
      LinesAppend(line[1..], "");
      assert line[..|line| - 1] == [line[0]] + line[1..][..|line| - 2];
      assert [line[0]] + line[1..] == line && ([line[0]] + rest[0])[1..] == rest[0];
      assert rest == [rest[0]] + rest[1..];
    } else {
      assert line == ['\n'];
    }
  }

  ghost predicate AllLines(lines: seq<string>) {
    forall i :: 0 <= i < |lines| ==> IsLine(lines[i])
  }

  lemma {:induction false} LinesOfLines(lines: seq<string>)
    requires AllLines(lines)
    ensures Lines(Concat(lines)) == lines
  {
    if lines != [] {
      var tail := Concat(lines[1..]);
      LinesOfLines(lines[1..]);
      LinesAppend(lines[0], tail);
      OneLineOnly(lines[0]);
      assert Concat(lines) == lines[0] + tail;
      assert lines == [lines[0]] + lines[1..];
    }
  }

  // ----- Every part of the table is one line -------------------------------------------------------

  lemma {:induction false} EscapedOnOneLine(cell: string)
    ensures '\n' !in EscapeCell(cell)
  {
    if cell != "" {
      EscapeStep(cell);
      EscapedOnOneLine(cell[1..]);
    }
  }

  lemma {:induction false} CellsAreLine(n: nat, row: seq<string>, i: nat)
    requires i < n
    ensures IsLine(CellsFrom(n, row, i))
    decreases n - i
  {
    var cell := EscapeCell(CellAt(row, i));
    EscapedOnOneLine(CellAt(row, i));
    if i + 1 < n {
      CellsAreLine(n, row, i + 1);
      JoinsToLine(cell + " | ", CellsFrom(n, row, i + 1));
    } else {
      assert CellsFrom(n, row, i) == cell + " |" + "\n";
      JoinsToLine(cell + " |", "\n");
    }
  }

  lemma JoinsToLine(text: string, line: string)
    requires '\n' !in text && IsLine(line)
    ensures IsLine(text + line)
  {
    assert (text + line)[..|text + line| - 1] == text + line[..|line| - 1];
  }

  lemma RowIsLine(n: nat, row: seq<string>)
    requires n > 0
    ensures IsLine(RowText(n, row))
  {
    CellsAreLine(n, row, 0);
    JoinsToLine("| ", CellsFrom(n, row, 0));
  }

  lemma {:induction false} DashesOnOneLine(n: nat)
    ensures '\n' !in Dashes(n)
  {
    if n > 0 { DashesOnOneLine(n - 1); }
  }

  lemma DashesAreLine(n: nat)
    ensures IsLine(DashesText(n))
  {
    DashesOnOneLine(n);
    JoinsToLine("|" + Dashes(n), "\n");
  }

  ghost predicate OnOneLine(names: seq<string>) {
    forall s :: s in names ==> '\n' !in s
  }

  lemma {:induction false} JoinedOnOneLine(names: seq<string>, separator: string)
    requires OnOneLine(names) && '\n' !in separator
    ensures '\n' !in Join(names, separator)
  {
    if |names| > 1 {
      JoinedOnOneLine(names[1..], separator);
      assert names[0] in names;
    } else if |names| == 1 {
      assert names[0] in names;
    }
  }

  lemma {:induction false} NewlineInJoined(names: seq<string>, separator: string)
    requires !OnOneLine(names)
    ensures '\n' in Join(names, separator)
  {
    if '\n' in names[0] {
      var k :| 0 <= k < |names[0]| && names[0][k] == '\n';
      assert |names| > 1 ==> Join(names, separator)[k] == '\n';
    } else {
      assert names == [names[0]] + names[1..];
      NewlineInJoined(names[1..], separator);
    }
  }

  /** The header is one line exactly if no column name holds a newline. */
  lemma {:induction false} HeaderLines(columns: seq<string>)
    ensures Lines(HeaderText(columns)) == [HeaderText(columns)] <==> OnOneLine(columns)
  {
    var names, text := Join(columns, " | "), HeaderText(columns);
    OneLineOnly(text);
    assert text[..|text| - 1] == "| " + names + " |";
    if OnOneLine(columns) {
      JoinedOnOneLine(columns, " | ");
    } else {
      NewlineInJoined(columns, " | ");
      var k :| 0 <= k < |names| && names[k] == '\n';
      assert text[..|text| - 1][2 + k] == '\n';
    }
  }

  lemma MarkerIsLine(kept: nat)
    ensures IsLine(Marker(kept))
  {
    DecimalRoundTrip(kept);
    assert !IsDigit('\n') && '\n' !in Decimal(kept);
    JoinsToLine("_(truncated to " + Decimal(kept) + " rows)_", "\n");
    assert "_(truncated to " + Decimal(kept) + " rows)_" + "\n" == Marker(kept);
  }

  // ----- The whole table -----------------------------------------------------------------------------

  /** The cells a row shows: as many as there are columns, empty where the row has none, each on one
      line. */
  function Shown(n: nat, row: seq<string>): seq<string> {
    seq(n, i requires 0 <= i < n => if i < |row| then OneLine(row[i]) else "")
  }

  /** Below the header: the dashes, one line for each of the first `k` rows in order, and the marker if
      rows are missing. */
  function LinesBelow(result: QueryResult, k: nat): seq<string>
    requires k <= |result.rows|
  {
    [DashesText(|result.columns|)] + RowTexts(result, k)
    + if result.truncated || k < |result.rows| then [Marker(k)] else []
  }

  lemma ConcatOne(a: string)
    ensures Concat([a]) == a
  {
    assert [a][1..] == [] && Concat([a]) == a + Concat([]);
  }

  lemma TableIsItsLines(result: QueryResult, k: nat)
    requires k <= |result.rows|
    ensures TableText(result, k) == HeaderText(result.columns) + Concat(LinesBelow(result, k))
  {
    var dashes, rows := [DashesText(|result.columns|)], RowTexts(result, k);
    var end := if result.truncated || k < |result.rows| then [Marker(k)] else [];
    ConcatOne(DashesText(|result.columns|));
    ConcatOne(Marker(k));
    ConcatAppend(dashes, rows);
    ConcatAppend(dashes + rows, end);
  }

  lemma EachIsLine(result: QueryResult, k: nat)
    requires result.columns != [] && k <= |result.rows|
    ensures AllLines(LinesBelow(result, k))
  {
    DashesAreLine(|result.columns|);
    MarkerIsLine(k);
    forall i | 0 <= i < k ensures IsLine(RowTexts(result, k)[i]) {
      RowIsLine(|result.columns|, result.rows[i]);
    }
  }

  lemma RowLineDecodes(result: QueryResult, k: nat, i: nat)
    requires result.columns != [] && i < k <= |result.rows|
    ensures DecodeRow(LinesBelow(result, k)[1 + i]) == Shown(|result.columns|, result.rows[i])
  {
    RowRoundTrip(|result.columns|, result.rows[i]);
    assert LinesBelow(result, k)[1 + i] == RowText(|result.columns|, result.rows[i]);
  }

  /** The table's text is the header and just these lines, and each row's line decodes to its cells.
      The header is one line exactly if no column name holds a newline. */
  lemma {:induction false} TableReadsBack(result: QueryResult, k: nat)
    requires result.columns != [] && k <= |result.rows|
    ensures Lines(TableText(result, k)) == Lines(HeaderText(result.columns)) + LinesBelow(result, k)
    ensures forall i :: 0 <= i < k ==>
      DecodeRow(LinesBelow(result, k)[1 + i]) == Shown(|result.columns|, result.rows[i])
    ensures Lines(HeaderText(result.columns)) == [HeaderText(result.columns)] <==> OnOneLine(result.columns)
  {
    var below := LinesBelow(result, k);
    TableIsItsLines(result, k);
    assert Lines(Concat(below)) == below by {
      EachIsLine(result, k);
      LinesOfLines(below);
    }
    LinesAppend(HeaderText(result.columns), Concat(below));
    HeaderLines(result.columns);
    forall i | 0 <= i < k { RowLineDecodes(result, k, i); }
  }

  // ----- The header ----------------------------------------------------------------------------------

  lemma OntoConcat(text: string, x: seq<string>, y: seq<string>)
    requires x != []
    ensures Onto(text, x + y) == Onto(text, x) + y
  {
    assert (x + y)[1..] == x[1..] + y;
  }

  lemma CutAfterSpace(rest: string)
    ensures Fields(" |" + rest, false) == [" "] + Fields(rest, false)
  {
    var x := " |" + rest;
    assert x[1..][0] == '|' && x[1..][1..] == rest && " " + "" == " ";
    OntoConcat(" ", [""], Fields(rest, false));
  }

  /** A pipe behind a space always cuts. */
  lemma {:induction false} CutAtPipe(s: string, rest: string, afterBackslash: bool)
    requires s != "" && s[|s| - 1] == ' '
    ensures Fields(s + "|" + rest, afterBackslash) == Fields(s, afterBackslash) + Fields(rest, false)
    decreases |s|
  {
    var x := s + "|" + rest;
    if |s| == 1 {
      assert x == " |" + rest && s == " " && s[1..] == "" && " " + "" == " ";
      CutAfterSpace(rest);
    } else {
      assert x[0] == s[0] && x[1..] == s[1..] + "|" + rest;
      if s[0] == '|' && !afterBackslash {
        CutAtPipe(s[1..], rest, false);
      } else {
        CutAtPipe(s[1..], rest, s[0] == '\\');
        OntoConcat([s[0]], Fields(s[1..], s[0] == '\\'), Fields(rest, false));
      }
    }
  }

  /** Every name between spaces and pipes, each cut on its own. */
  function NameFields(names: seq<string>): seq<string> {
    if names == [] then [] else Fields(" " + names[0] + " ", false) + NameFields(names[1..])
  }

  lemma HeaderSplit(name: string, more: string)
    ensures " " + (name + " | " + more) + " |\n" == (" " + name + " ") + "|" + (" " + more + " |\n")
  {
  }

  lemma {:induction false} HeaderFields(names: seq<string>)
    requires names != []
    ensures Fields(" " + Join(names, " | ") + " |\n", false) == NameFields(names) + ["\n"]
  {
    var s := " " + names[0] + " ";
    if |names| == 1 {
      LastField();
      CutAtPipe(s, "\n", false);
      assert " " + Join(names, " | ") + " |\n" == s + "|" + "\n";
      assert NameFields(names[1..]) == [];
    } else {
      var more := Join(names[1..], " | ");
      CutAtPipe(s, " " + more + " |\n", false);
      HeaderFields(names[1..]);
      HeaderSplit(names[0], more);
      assert Join(names, " | ") == names[0] + " | " + more;
    }
  }

  lemma {:induction false} FieldsShape(s: string, afterBackslash: bool)
    ensures |Fields(s, afterBackslash)| == 1 ==> Fields(s, afterBackslash)[0] == s
    ensures '|' !in s ==> |Fields(s, afterBackslash)| == 1
    ensures |Fields(s, afterBackslash)| == 1 && '|' in s ==> EscapedPipe(s) || (afterBackslash && s[0] == '|')
    decreases |s|
  {
    if s != "" {
      if s[0] != '|' || afterBackslash {
        FieldsShape(s[1..], s[0] == '\\');
        assert [s[0]] + s[1..] == s;
        if EscapedPipe(s[1..]) { PipeBehind(s); }
        assert |s| > 1 && s[0] == '\\' && s[1] == '|' ==> EscapedPipe(s);
      }
    }
  }

  ghost predicate EscapedPipe(s: string) {
    exists i :: 0 <= i < |s| - 1 && s[i] == '\\' && s[i + 1] == '|'
  }

  lemma PipeBehind(s: string)
    requires s != "" && EscapedPipe(s[1..])
    ensures EscapedPipe(s)
  {
    var i :| 0 <= i < |s[1..]| - 1 && s[1..][i] == '\\' && s[1..][i + 1] == '|';
    assert s[i + 1] == '\\' && s[i + 2] == '|';
  }

  lemma {:induction false} UnescapeShortens(s: string)
    ensures |Unescape(s)| <= |s|
    ensures |Unescape(s)| == |s| <==> !EscapedPipe(s)
    ensures !EscapedPipe(s) ==> Unescape(s) == s
  {
    if |s| >= 2 && s[0] == '\\' && s[1] == '|' {
      UnescapeShortens(s[2..]);
    } else if s != "" {
      UnescapeShortens(s[1..]);
      assert [s[0]] + s[1..] == s;
      if EscapedPipe(s[1..]) { PipeBehind(s); }
      if EscapedPipe(s) {
        var i :| 0 <= i < |s| - 1 && s[i] == '\\' && s[i + 1] == '|';
        assert i > 0 && s[1..][i - 1] == '\\' && s[1..][i] == '|';
      }
    }
  }

  lemma {:induction false} NameFieldsCount(names: seq<string>)
    ensures |NameFields(names)| >= |names|
    ensures |NameFields(names)| == |names| ==>
      forall i :: 0 <= i < |names| ==>
        |Fields(" " + names[i] + " ", false)| == 1 && NameFields(names)[i] == " " + names[i] + " "
    ensures (forall i :: 0 <= i < |names| ==> '|' !in names[i]) ==> |NameFields(names)| == |names|
  {
    if names != [] {
      NameFieldsCount(names[1..]);
      FieldsShape(" " + names[0] + " ", false);
    }
  }

  lemma SpacedPipe(name: string)
    ensures EscapedPipe(" " + name + " ") ==> EscapedPipe(name)
    ensures '|' in name ==> '|' in " " + name + " "
  {
    var s := " " + name + " ";
    if EscapedPipe(s) {
      var i :| 0 <= i < |s| - 1 && s[i] == '\\' && s[i + 1] == '|';
      assert name[i - 1] == '\\' && name[i] == '|';
    }
  }

  /** The header is not escaped: it decodes to the column names exactly if none holds a pipe. */
  lemma {:induction false} HeaderReadsBackExactly(columns: seq<string>)
    requires columns != []
    ensures DecodeRow(HeaderText(columns)) == columns <==> forall i :: 0 <= i < |columns| ==> '|' !in columns[i]
  {
    var text, fields := HeaderText(columns), NameFields(columns);
    HeaderFields(columns);
    assert text[0] == '|' && text[1..] == " " + Join(columns, " | ") + " |\n";
    assert Fields(text, false) == [""] + (fields + ["\n"]);
    NameFieldsCount(columns);
    if |fields| == |columns| {
      forall i | 0 <= i < |columns|
        ensures DecodeRow(text)[i] == columns[i] <==> '|' !in columns[i]
      {
        assert DecodeRow(text)[i] == Unescape(Inner(fields[i])) && Inner(fields[i]) == columns[i];
        UnescapeShortens(columns[i]);
        FieldsShape(" " + columns[i] + " ", false);
        SpacedPipe(columns[i]);
      }
    }
  }
}
