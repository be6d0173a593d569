/** The splitter against one that knows comments.

The filter skips comments in front of a statement, but the splitter does not know them: it sees
quotes and semicolons inside them as any others.  `CutsMeant` reads comments as the filter does.
*/
module SqlComments {
  import opened Prelude
  import opened Text
  import opened SqlSafety
  import opened SqlSafetyLaws

  datatype Reading = Code | Single | Double | Line | Block

  // ----- Where each of them cuts ---------------------------------------------------------------------

  /** One flag for each character: whether the quote automaton cuts there. */
  function CutsSeen(mode: Mode, s: string): (r: seq<bool>)
    ensures |r| == |s| && forall i :: 0 <= i < |s| && r[i] ==> s[i] == ';'
    decreases |s|
  {
    if s == "" then [] else [mode.Outside? && s[0] == ';'] + CutsSeen(Toggle(mode, s[0]), s[1..])
  }

  function AfterCode(c: char): Reading {
    if c == '\'' then Single else if c == '"' then Double else Code
  }

  /** The same with comments: two dashes up to the end of the line, slash and star up to star and slash. */
  function CutsMeant(reading: Reading, s: string): (r: seq<bool>)
    ensures |r| == |s| && forall i :: 0 <= i < |s| && r[i] ==> s[i] == ';'
    decreases |s|
  {
    if s == "" then []
    else match reading
      case Code =>
        if StartsWith(s, "--") then [false, false] + CutsMeant(Line, s[2..])
        else if StartsWith(s, "/*") then [false, false] + CutsMeant(Block, s[2..])
        else [s[0] == ';'] + CutsMeant(AfterCode(s[0]), s[1..])
      case Single => [false] + CutsMeant(if s[0] == '\'' then Code else Single, s[1..])
      case Double => [false] + CutsMeant(if s[0] == '"' then Code else Double, s[1..])
      case Line => [false] + CutsMeant(if s[0] == '\n' then Code else Line, s[1..])
      case Block =>
        if StartsWith(s, "*/") then [false, false] + CutsMeant(Code, s[2..])
        else [false] + CutsMeant(Block, s[1..])
  }

  /** The text cut at the flagged characters. */
  function CutAt(cuts: seq<bool>, s: string): (r: seq<string>)
    requires |cuts| == |s|
    ensures r != []
    decreases |s|
  {
    if s == "" then [""]
    else if cuts[0] then [""] + CutAt(cuts[1..], s[1..])
    else Glue([s[0]], CutAt(cuts[1..], s[1..]))
  }

  function DropEmptyLast(pieces: seq<string>): seq<string>
    requires pieces != []
  {
    if pieces[|pieces| - 1] == "" then pieces[..|pieces| - 1] else pieces
  }

  /** The statements of a text whose comments are read as comments. */
  function StatementsMeant(s: string): seq<string> {
    DropEmptyLast(CutAt(CutsMeant(Code, s), s))
  }

  // ----- Comments are what the filter strips ---------------------------------------------------------

  function NoCuts(n: nat): (r: seq<bool>)
    ensures |r| == n
  {
    if n == 0 then [] else [false] + NoCuts(n - 1)
  }

  lemma OneMoreNoCut(n: nat, rest: seq<bool>)
    ensures [false] + (NoCuts(n) + rest) == NoCuts(n + 1) + rest
  {
    assert [false] + (NoCuts(n) + rest) == ([false] + NoCuts(n)) + rest;
  }

  /** What stands behind the first `close`, if anything. */
  function PastClose(t: string, close: string): (r: string)
    requires close != ""
    ensures |r| <= |t|
  {
    match Find(t, close)
    case None => ""
    case Some(i) => t[i + |close|..]
  }

  /** What is read in a comment that the first `close` ends. */
  function ReadPast(t: string, close: string): seq<bool>
    requires close != ""
  {
    NoCuts(|t| - |PastClose(t, close)|) + CutsMeant(Code, PastClose(t, close))
  }

  lemma {:induction false} ReadPastLater(t: string, close: string)
    requires t != "" && close != "" && !StartsWith(t, close)
    ensures ReadPast(t, close) == [false] + ReadPast(t[1..], close)
  {
    var rest := PastClose(t[1..], close);
    assert PastClose(t, close) == rest by {
      if Find(t[1..], close).Some? {
        var i := Find(t[1..], close).value;
        assert t[i + 1 + |close|..] == t[1..][i + |close|..];
      }
    }
    OneMoreNoCut(|t| - 1 - |rest|, CutsMeant(Code, rest));
  }

  lemma {:induction false} LineRead(t: string, newline: string)
    requires newline == "\n"
    ensures CutsMeant(Line, t) == ReadPast(t, newline)
  {
    if t != "" {
      assert t[..1] == [t[0]] && (StartsWith(t, newline) <==> t[0] == '\n');
      if t[0] == '\n' {
        assert PastClose(t, newline) == t[1..] && NoCuts(1) == [false];
      } else {
        LineRead(t[1..], newline);
        ReadPastLater(t, newline);
      }
    }
  }

  lemma {:induction false} BlockRead(t: string, close: string)
    requires close == "*/"
    ensures CutsMeant(Block, t) == ReadPast(t, close)
  {
    if t != "" {
      if StartsWith(t, close) {
        assert PastClose(t, close) == t[2..] && NoCuts(2) == [false] + NoCuts(1) == [false, false];
      } else {
        BlockRead(t[1..], close);
        ReadPastLater(t, close);
      }
    }
  }

  /** The two opening characters are read without a cut as well. */
  lemma {:induction false} OpenedAndPast(t: string, close: string)
    requires close != ""
    ensures var rest := PastClose(t, close);
      [false, false] + ReadPast(t, close) == NoCuts(|t| + 2 - |rest|) + CutsMeant(Code, rest)
  {
    var rest := PastClose(t, close);
    var n, cuts := |t| - |rest|, CutsMeant(Code, rest);
    OneMoreNoCut(n, cuts);
    OneMoreNoCut(n + 1, cuts);
    assert [false, false] + (NoCuts(n) + cuts) == [false] + ([false] + (NoCuts(n) + cuts));
  }

  lemma {:induction false} MarkFirst(s: string, mark: string)
    requires (mark == "--" || mark == "/*") && StartsWith(s, mark)
    ensures s != "" && s[0] == mark[0] && TrimStart(s) == s
  {
    assert s[0] == s[..2][0];
  }

  lemma {:induction false} LineCommentRead(s: string, dashes: string)
    requires dashes == "--" && StartsWith(s, dashes)
    ensures CutsMeant(Code, s) == NoCuts(|s| - |StripOnce(s)|) + CutsMeant(Code, StripOnce(s))
  {
    var newline := "\n";
    MarkFirst(s, dashes);
    assert StripOnce(s) == PastClose(s[2..], newline);
    LineRead(s[2..], newline);
    OpenedAndPast(s[2..], newline);
  }

  lemma {:induction false} BlockCommentRead(s: string, slash: string)
    requires slash == "/*" && StartsWith(s, slash)
    ensures CutsMeant(Code, s) == NoCuts(|s| - |StripOnce(s)|) + CutsMeant(Code, StripOnce(s))
  {
    var close := "*/";
    MarkFirst(s, slash);
    assert s[..2] != "--";
    assert StripOnce(s) == PastClose(s[2..], close);
    BlockRead(s[2..], close);
    OpenedAndPast(s[2..], close);
  }

  /** A comment at the front is read exactly as far as the filter strips it. */
  lemma {:induction false} CommentReadAsStripped(s: string, dashes: string, slash: string)
    requires dashes == "--" && slash == "/*" && (StartsWith(s, dashes) || StartsWith(s, slash))
    ensures CutsMeant(Code, s) == NoCuts(|s| - |StripOnce(s)|) + CutsMeant(Code, StripOnce(s))
  {
    if StartsWith(s, dashes) { LineCommentRead(s, dashes); } else { BlockCommentRead(s, slash); }
  }

  // ----- When they agree -----------------------------------------------------------------------------

  lemma {:induction false} PiecesByCuts(mode: Mode, s: string)
    ensures Pieces(mode, s) == CutAt(CutsSeen(mode, s), s)
    decreases |s|
  {
    if s != "" {
      assert CutsSeen(mode, s)[1..] == CutsSeen(Toggle(mode, s[0]), s[1..]);
      PiecesByCuts(Toggle(mode, s[0]), s[1..]);
    }
  }

  /** Different cuts give different pieces. */
  lemma {:induction false} CutsDetermined(f: seq<bool>, g: seq<bool>, s: string)
    requires |f| == |g| == |s| && CutAt(f, s) == CutAt(g, s)
    ensures f == g
    decreases |s|
  {
    if s != "" {
      var a, b := CutAt(f[1..], s[1..]), CutAt(g[1..], s[1..]);
      FirstPieceShowsCut(f[0], s[0], a);
      FirstPieceShowsCut(g[0], s[0], b);
      SamePieces(f[0], s[0], a, b);
      CutsDetermined(f[1..], g[1..], s[1..]);
      assert f == [f[0]] + f[1..] && g == [g[0]] + g[1..];
    }
  }

  /** The first piece is empty exactly when the text is cut at its first character. */
  lemma FirstPieceShowsCut(cut: bool, c: char, a: seq<string>)
    requires a != []
    ensures (if cut then [""] + a else Glue([c], a))[0] == "" <==> cut
  {
    assert cut ==> ([""] + a)[0] == "";
    assert Glue([c], a)[0] != "";
  }

  lemma {:induction false} SamePieces(cut: bool, c: char, a: seq<string>, b: seq<string>)
    requires a != [] && b != []
    requires if cut then [""] + a == [""] + b else Glue([c], a) == Glue([c], b)
    ensures a == b
  {
    if cut {
      assert ([""] + a)[1..] == a && ([""] + b)[1..] == b;
    } else {
      var x, y := Glue([c], a), Glue([c], b);
      assert x[0][1..] == a[0] && y[0][1..] == b[0];
      assert x[1..] == a[1..] && y[1..] == b[1..];
      assert a == [a[0]] + a[1..] && b == [b[0]] + b[1..];
    }
  }

  lemma {:induction false} CutsRejoin(cuts: seq<bool>, s: string)
    requires |cuts| == |s| && forall i :: 0 <= i < |s| && cuts[i] ==> s[i] == ';'
    ensures Join(CutAt(cuts, s), ";") == s
    decreases |s|
  {
    if s != "" {
      var rest := CutAt(cuts[1..], s[1..]);
      CutsRejoin(cuts[1..], s[1..]);
      if cuts[0] { JoinEmptyFirst(rest); } else { JoinGlue([s[0]], rest); }
      assert s == [s[0]] + s[1..];
    }
  }

  /** An empty last statement can be dropped without confusion. */
  lemma {:induction false} DropDetermined(a: seq<string>, b: seq<string>)
    requires a != [] && b != [] && Join(a, ";") == Join(b, ";")
    requires DropEmptyLast(a) == DropEmptyLast(b)
    ensures a == b
  {
    var x := DropEmptyLast(a);
    JoinEmptyLast(x);
    assert a == x || a == x + [""];
    assert b == x || b == x + [""];
  }

  /** The splitter gives the statements meant if and only if it cuts at the same semicolons. */
  lemma {:induction false} AgreeExactly(s: string)
    ensures Statements(s) == StatementsMeant(s) <==> CutsSeen(Outside, s) == CutsMeant(Code, s)
  {
    var f, g := CutsSeen(Outside, s), CutsMeant(Code, s);
    PiecesByCuts(Outside, s);
    if Statements(s) == StatementsMeant(s) {
      CutsRejoin(f, s);
      CutsRejoin(g, s);
      DropDetermined(CutAt(f, s), CutAt(g, s));
      CutsDetermined(f, g, s);
    }
  }

  // ----- Comments without quotes -----------------------------------------------------------------------

  /** All that stands in comments. */
  function CommentText(reading: Reading, s: string): string
    decreases |s|
  {
    if s == "" then ""
    else match reading
      case Code =>
        if StartsWith(s, "--") then CommentText(Line, s[2..])
        else if StartsWith(s, "/*") then CommentText(Block, s[2..])
        else CommentText(AfterCode(s[0]), s[1..])
      case Single => CommentText(if s[0] == '\'' then Code else Single, s[1..])
      case Double => CommentText(if s[0] == '"' then Code else Double, s[1..])
      case Line => if s[0] == '\n' then CommentText(Code, s[1..]) else [s[0]] + CommentText(Line, s[1..])
      case Block =>
        if StartsWith(s, "*/") then CommentText(Code, s[2..]) else [s[0]] + CommentText(Block, s[1..])
  }

  /** What the splitter takes a reading for, as long as it is in step. */
  function TakenFor(reading: Reading): Mode {
    match reading case Single => InSingle case Double => InDouble case _ => Outside
  }

  predicate Quoteless(s: string) {
    '\'' !in s && '"' !in s
  }

  /** One character further: in step behind it, and agreeing if both flag it alike and agree behind it. */
  lemma {:induction false} StepOn(mode: Mode, s: string, cut: bool, rest: seq<bool>)
    requires s != "" && |rest| == |s| - 1
    ensures CutsSeen(mode, s) == [cut] + rest <==>
      (mode.Outside? && s[0] == ';') == cut && CutsSeen(Toggle(mode, s[0]), s[1..]) == rest
  {
    var seen := CutsSeen(mode, s);
    assert seen[1..] == CutsSeen(Toggle(mode, s[0]), s[1..]) && ([cut] + rest)[1..] == rest;
  }

  /** A comment mark is no quote and no semicolon. */
  lemma {:induction false} StepOverMark(s: string, mark: string, rest: seq<bool>)
    requires (mark == "--" || mark == "/*" || mark == "*/") && StartsWith(s, mark) && |rest| == |s| - 2
    ensures CutsSeen(Outside, s) == [false, false] + rest <==> CutsSeen(Outside, s[2..]) == rest
  {
    assert s[..2] == mark && s[1..][1..] == s[2..];
    assert [false, false] + rest == [false] + ([false] + rest);
    StepOn(Outside, s, false, [false] + rest);
    StepOn(Outside, s[1..], false, rest);
  }

  lemma {:induction false} InStepInCode(s: string, dashes: string, slash: string)
    requires s != "" && dashes == "--" && slash == "/*" && Quoteless(CommentText(Code, s))
    ensures CutsSeen(Outside, s) == CutsMeant(Code, s) <==> ';' !in CommentText(Code, s)
    decreases |s|, 0
  {
    if StartsWith(s, dashes) {
      InStep(Line, s[2..]);
      StepOverMark(s, dashes, CutsMeant(Line, s[2..]));
    } else if StartsWith(s, slash) {
      InStep(Block, s[2..]);
      StepOverMark(s, slash, CutsMeant(Block, s[2..]));
    } else {
      InStep(AfterCode(s[0]), s[1..]);
      StepOn(Outside, s, s[0] == ';', CutsMeant(AfterCode(s[0]), s[1..]));
    }
  }

  lemma {:induction false} InStepInQuotes(reading: Reading, s: string)
    requires s != "" && (reading.Single? || reading.Double?) && Quoteless(CommentText(reading, s))
    ensures CutsSeen(TakenFor(reading), s) == CutsMeant(reading, s) <==> ';' !in CommentText(reading, s)
    decreases |s|, 0
  {
    var closing := if reading.Single? then '\'' else '"';
    var next := if s[0] == closing then Code else reading;
    InStep(next, s[1..]);
    StepOn(TakenFor(reading), s, false, CutsMeant(next, s[1..]));
  }

  lemma {:induction false} InStepInLine(s: string)
    requires s != "" && Quoteless(CommentText(Line, s))
    ensures CutsSeen(Outside, s) == CutsMeant(Line, s) <==> ';' !in CommentText(Line, s)
    decreases |s|, 0
  {
    var next := if s[0] == '\n' then Code else Line;
    assert s[0] != '\n' ==> CommentText(Line, s)[0] == s[0] && CommentText(Line, s)[1..] == CommentText(Line, s[1..]);
    InStep(next, s[1..]);
    StepOn(Outside, s, false, CutsMeant(next, s[1..]));
  }

  lemma {:induction false} InStepInBlock(s: string, close: string)
    requires s != "" && close == "*/" && Quoteless(CommentText(Block, s))
    ensures CutsSeen(Outside, s) == CutsMeant(Block, s) <==> ';' !in CommentText(Block, s)
    decreases |s|, 0
  {
    if StartsWith(s, close) {
      InStep(Code, s[2..]);
      StepOverMark(s, close, CutsMeant(Code, s[2..]));
    } else {
      assert CommentText(Block, s)[0] == s[0] && CommentText(Block, s)[1..] == CommentText(Block, s[1..]);
      InStep(Block, s[1..]);
      StepOn(Outside, s, false, CutsMeant(Block, s[1..]));
    }
  }

  lemma {:induction false} InStep(reading: Reading, s: string)
    requires Quoteless(CommentText(reading, s))
    ensures CutsSeen(TakenFor(reading), s) == CutsMeant(reading, s) <==> ';' !in CommentText(reading, s)
    decreases |s|, 1
  {
    var dashes, slash, close := "--", "/*", "*/";
    if s != "" {
      match reading
      case Code => InStepInCode(s, dashes, slash);
      case Line => InStepInLine(s);
      case Block => InStepInBlock(s, close);
      case _ => InStepInQuotes(reading, s);
    }
  }

  /** If no comment holds a quote, the splitter gives the statements meant if and only if no comment holds
      a semicolon; so in particular if there are no comments at all. */
  lemma {:induction false} QuotelessCommentsAgreeExactly(s: string)
    requires Quoteless(CommentText(Code, s))
    ensures Statements(s) == StatementsMeant(s) <==> ';' !in CommentText(Code, s)
  {
    AgreeExactly(s);
    InStep(Code, s);
  }
}
