/** The read-only filter: split a batch into statements, then look at each one's leading keyword,
through comments and `EXPLAIN` prefixes. */
module SqlSafety {
  import opened Prelude
  import opened Text

  // A refusal carries a preview of the statement refused.
  datatype Verdict = Accepted | Refused(preview: string)

  predicate IsReadonlyKeyword(word: string) {
    word == "SELECT" || word == "WITH" || word == "EXPLAIN" || word == "SHOW" || word == "DESCRIBE" || word == "DESC"
  }

  // ----- Statements ----------------------------------------------------------------------------

  datatype Mode = Outside | InSingle | InDouble

  /** The plain quote automaton: a quote character toggles its own mode, unless the other is on. */
  function Toggle(mode: Mode, c: char): Mode {
    match mode
    case Outside => if c == '\'' then InSingle else if c == '"' then InDouble else Outside
    case InSingle => if c == '\'' then Outside else InSingle
    case InDouble => if c == '"' then Outside else InDouble
  }

  function EndMode(mode: Mode, s: string): Mode
    decreases |s|
  {
    if s == "" then mode else EndMode(Toggle(mode, s[0]), s[1..])
  }

  /** `text` in front of the first piece. */
  function Glue(text: string, pieces: seq<string>): seq<string>
    requires pieces != []
  {
    [text + pieces[0]] + pieces[1..]
  }

  /** The text cut at every semicolon the automaton sees outside quotes. */
  function Pieces(mode: Mode, s: string): (r: seq<string>)
    ensures r != []
    decreases |s|
  {
    if s == "" then [""]
    else if mode.Outside? && s[0] == ';' then [""] + Pieces(Outside, s[1..])
    else Glue([s[0]], Pieces(Toggle(mode, s[0]), s[1..]))
  }

  /** `split_statements`: the pieces, without an empty last one. */
  function Statements(sql: string): seq<string> {
    var pieces := Pieces(Outside, sql);
    if pieces[|pieces| - 1] == "" then pieces[..|pieces| - 1] else pieces
  }

  lemma GlueTwice(a: string, b: string, pieces: seq<string>)
    requires pieces != []
    ensures Glue(a, Glue(b, pieces)) == Glue(a + b, pieces)
  {
    assert a + (b + pieces[0]) == a + b + pieces[0];
  }

  lemma GlueNothing(pieces: seq<string>)
    requires pieces != []
    ensures Glue("", pieces) == pieces
  {
    assert "" + pieces[0] == pieces[0];
  }

  /** The pieces of `rest`, scanned from `mode`, behind the `text` of the piece begun before it. */
  function Remaining(text: string, mode: Mode, rest: string): seq<string> {
    Glue(text, Pieces(mode, rest))
  }

  lemma CutHere(text: string, rest: string)
    requires rest != "" && rest[0] == ';'
    ensures Remaining(text, Outside, rest) == [text] + Remaining("", Outside, rest[1..])
  {
    var after := Pieces(Outside, rest[1..]);
    assert ([""] + after)[1..] == after && text + "" == text;
    GlueNothing(after);
  }

  lemma ReadOn(text: string, mode: Mode, rest: string)
    requires rest != "" && !(mode.Outside? && rest[0] == ';')
    ensures Remaining(text, mode, rest) == Remaining(text + [rest[0]], Toggle(mode, rest[0]), rest[1..])
  {
    GlueTwice(text, [rest[0]], Pieces(Toggle(mode, rest[0]), rest[1..]));
  }

  function ModeOf(inSingle: bool, inDouble: bool): Mode {
    if inSingle then InSingle else if inDouble then InDouble else Outside
  }

  /** Scanned up to `i` with the current piece begun at `start`: what was cut, what is begun and what
      is still to come are the pieces of the whole text. */
  ghost predicate Scanned(sql: string, out: seq<string>, start: int, i: int, mode: Mode) {
    0 <= start <= i <= |sql| && Pieces(Outside, sql) == out + Remaining(sql[start..i], mode, sql[i..])
  }

  lemma ScanStart(sql: string)
    ensures Scanned(sql, [], 0, 0, Outside)
  {
    assert sql[0..] == sql && sql[0..0] == "";
    GlueNothing(Pieces(Outside, sql));
  }

  lemma ScanCut(sql: string, out: seq<string>, start: int, i: int)
    requires Scanned(sql, out, start, i, Outside) && i < |sql| && sql[i] == ';'
    ensures Scanned(sql, out + [sql[start..i]], i + 1, i + 1, Outside)
  {
    CutHere(sql[start..i], sql[i..]);
    assert sql[i..][1..] == sql[i + 1..] && sql[i + 1..i + 1] == "";
  }

  lemma ScanOn(sql: string, out: seq<string>, start: int, i: int, mode: Mode)
    requires Scanned(sql, out, start, i, mode) && i < |sql| && !(mode.Outside? && sql[i] == ';')
    ensures Scanned(sql, out, start, i + 1, Toggle(mode, sql[i]))
  {
    ReadOn(sql[start..i], mode, sql[i..]);
    assert sql[i..][1..] == sql[i + 1..] && sql[start..i + 1] == sql[start..i] + [sql[i]];
  }

  /** Toggling out and back in again is the same as jumping over a doubled quote. */
  lemma ScanJump(sql: string, out: seq<string>, start: int, i: int)
    requires Scanned(sql, out, start, i, InSingle) && i + 1 < |sql| && sql[i] == sql[i + 1] == '\''
    ensures Scanned(sql, out, start, i + 2, InSingle)
  {
    ScanOn(sql, out, start, i, InSingle);
    ScanOn(sql, out, start, i + 1, Outside);
  }

  lemma ScanEnd(sql: string, out: seq<string>, start: int, mode: Mode)
    requires Scanned(sql, out, start, |sql|, mode)
    ensures Statements(sql) == if start < |sql| then out + [sql[start..]] else out
  {
    assert sql[|sql|..] == "" && sql[start..|sql|] == sql[start..];
    assert sql[start..] + "" == sql[start..];
    assert Pieces(Outside, sql) == out + [sql[start..]];
  }

  /** The program's splitter jumps over doubled quotes; it cuts exactly where the plain automaton does. */
  method SplitStatements(sql: string) returns (out: seq<string>)
    ensures out == Statements(sql)
  {
    out := [];
    var start, i := 0, 0;
    var inSingle, inDouble := false, false;
    ScanStart(sql);
    while i < |sql|
      invariant Scanned(sql, out, start, i, ModeOf(inSingle, inDouble)) && !(inSingle && inDouble)
      decreases |sql| - i
    {
      if sql[i] == '\'' && !inDouble && inSingle && i + 1 < |sql| && sql[i + 1] == '\'' {
        ScanJump(sql, out, start, i);
        i := i + 2;
        continue;
      }
      if sql[i] == ';' && !inSingle && !inDouble {
        ScanCut(sql, out, start, i);
        out := out + [sql[start..i]];
        start := i + 1;
      } else {
        ScanOn(sql, out, start, i, ModeOf(inSingle, inDouble));
        if sql[i] == '\'' && !inDouble {
          inSingle := !inSingle;
        } else if sql[i] == '"' && !inSingle {
          inDouble := !inDouble;
        }
      }
      i := i + 1;
    }
    ScanEnd(sql, out, start, ModeOf(inSingle, inDouble));
    if start < |sql| {
      out := out + [sql[start..]];
    }
  }

  lemma JoinGlue(text: string, pieces: seq<string>)
    requires pieces != []
    ensures Join(Glue(text, pieces), ";") == text + Join(pieces, ";")
  {
    var glued := Glue(text, pieces);
    assert glued[0] == text + pieces[0] && glued[1..] == pieces[1..];
    if |pieces| > 1 {
      assert text + pieces[0] + ";" + Join(pieces[1..], ";") == text + (pieces[0] + ";" + Join(pieces[1..], ";"));
    }
  }

  lemma JoinEmptyFirst(pieces: seq<string>)
    requires pieces != []
    ensures Join([""] + pieces, ";") == ";" + Join(pieces, ";")
  {
    assert ([""] + pieces)[1..] == pieces;
  }

  lemma {:induction false} PiecesRejoin(mode: Mode, s: string)
    ensures Join(Pieces(mode, s), ";") == s
    decreases |s|
  {
    if s != "" {
      if mode.Outside? && s[0] == ';' {
        PiecesRejoin(Outside, s[1..]);
        JoinEmptyFirst(Pieces(Outside, s[1..]));
        assert s == ";" + s[1..];
      } else {
        PiecesRejoin(Toggle(mode, s[0]), s[1..]);
        JoinGlue([s[0]], Pieces(Toggle(mode, s[0]), s[1..]));
      }
    }
  }

  lemma {:induction false} JoinEmptyLast(pieces: seq<string>)
    ensures pieces != [] ==> Join(pieces + [""], ";") == Join(pieces, ";") + ";"
  {
    if |pieces| >= 2 {
      JoinEmptyLast(pieces[1..]);
      assert (pieces + [""])[1..] == pieces[1..] + [""];
      assert pieces[0] + ";" + (Join(pieces[1..], ";") + ";") == pieces[0] + ";" + Join(pieces[1..], ";") + ";";
    } else if |pieces| == 1 {
      assert (pieces + [""])[1..] == [""];
    }
  }

  /** The statements joined by semicolons are the text, up to one trailing semicolon. */
  lemma {:induction false} StatementsRejoin(sql: string)
    ensures Join(Statements(sql), ";") == sql || Join(Statements(sql), ";") + ";" == sql
  {
    PiecesRejoin(Outside, sql);
    var pieces := Pieces(Outside, sql);
    if pieces[|pieces| - 1] == "" {
      JoinEmptyLast(Statements(sql));
      assert pieces == Statements(sql) + [""];
    }
  }

  // ----- One statement -------------------------------------------------------------------------

  predicate IsAsciiAlpha(c: char) {
    'a' <= c <= 'z' || 'A' <= c <= 'Z'
  }

  function Upper(c: char): char {
    if 'a' <= c <= 'z' then ((c as int) - 32) as char else c
  }

  function ToUpper(s: string): string {
    seq(|s|, i requires 0 <= i < |s| => Upper(s[i]))
  }

  /** Length of the leading run of ASCII letters. */
  function KeywordLength(s: string): (n: nat)
    ensures n <= |s|
  {
    if s != "" && IsAsciiAlpha(s[0]) then 1 + KeywordLength(s[1..]) else 0
  }

  /** One round of stripping: white space, then one comment. */
  function StripOnce(s: string): (r: string)
    ensures |r| <= |s|
  {
    var t := TrimStart(s);
    if StartsWith(t, "--") then
      match Find(t[2..], "\n")
      case None => ""
      case Some(i) => t[2..][i + 1..]
    else if StartsWith(t, "/*") then
      match Find(t[2..], "*/")
      case None => ""
      case Some(i) => t[2..][i + 2..]
    else t
  }

  function StripNoise(s: string): (r: string)
    ensures |r| <= |s|
    decreases |s|
  {
    var t := StripOnce(s);
    if |t| == |s| then t else StripNoise(t)
  }

  predicate IsModifier(word: string) {
    word == "ANALYZE" || word == "VERBOSE" || word == "FORMAT"
  }

  /** Drop `ANALYZE`, `VERBOSE` and `FORMAT <value>`, as often as they come. */
  function SkipWords(s: string): (r: string)
    ensures |r| <= |s|
    decreases |s|
  {
    var n := KeywordLength(s);
    var word := ToUpper(s[..n]);
    if n == 0 || !IsModifier(word) then s
    else
      var t := TrimStart(s[n..]);
      if word == "FORMAT" then SkipWords(TrimStart(t[KeywordLength(t)..])) else SkipWords(t)
  }

  function SkipModifiers(s: string): (r: string)
    ensures |r| <= |s|
  {
    var t := TrimStart(s);
    if StartsWith(t, "(") then
      match Find(t[1..], ")")
      case None => ""
      case Some(i) => SkipWords(TrimStart(t[1..][i + 1..]))
    else SkipWords(t)
  }

  /** What an `EXPLAIN` explains: strictly shorter than the statement, so the recursion ends. */
  function Explained(s: string): (r: string)
    requires KeywordLength(StripNoise(s)) > 0
    ensures |r| < |s|
  {
    var t := StripNoise(s);
    SkipModifiers(TrimStart(t[KeywordLength(t)..]))
  }

  function Reject(s: string): Verdict {
    Refused(if |s| <= 80 then s else s[..80])
  }

  /** `check_single`. */
  function CheckSingle(s: string): Verdict
    decreases |s|
  {
    var t := StripNoise(s);
    var n := KeywordLength(t);
    var word := ToUpper(t[..n]);
    if n == 0 || !IsReadonlyKeyword(word) then Reject(s)
    else if word == "EXPLAIN" && Explained(s) != "" then CheckSingle(Explained(s))
    else Accepted
  }

  /** A statement of a batch; a blank one passes. */
  function CheckTrimmed(statement: string): Verdict {
    if Trim(statement) == "" then Accepted else CheckSingle(Trim(statement))
  }

  /** The first error `check` reports. */
  function FirstError(statements: seq<string>, check: string -> Verdict): Verdict {
    if statements == [] then Accepted
    else if check(statements[0]).Refused? then check(statements[0])
    else FirstError(statements[1..], check)
  }

  function AssertReadonly(sql: string): Verdict {
    FirstError(Statements(sql), CheckTrimmed)
  }

  method AssertReadonlyLoop(sql: string) returns (r: Verdict)
    ensures r == AssertReadonly(sql)
  {
    var statements := SplitStatements(sql);
    for i := 0 to |statements|
      invariant FirstError(statements[i..], CheckTrimmed) == AssertReadonly(sql)
    {
      ghost var rest := statements[i..];
      assert rest[0] == statements[i] && rest[1..] == statements[i + 1..];
      var trimmed := Trim(statements[i]);
      if trimmed == "" {
        continue;
      }
      var checked := CheckSingle(trimmed);
      if checked.Refused? {
        return checked;
      }
    }
    return Accepted;
  }

  method StripLeadingNoise(sql: string) returns (r: string)
    ensures r == StripNoise(sql)
  {
    r := sql;
    while true
      invariant StripNoise(r) == StripNoise(sql)
      decreases |r|
    {
      var before := r;
      r := TrimStart(r);
      if StartsWith(r, "--") {
        var idx := Find(r[2..], "\n");
        r := if idx.Some? then r[2..][idx.value + 1..] else "";
      } else if StartsWith(r, "/*") {
        var idx := Find(r[2..], "*/");
        r := if idx.Some? then r[2..][idx.value + 2..] else "";
      }
      assert r == StripOnce(before);
      if |r| == |before| {
        break;
      }
    }
  }

  method SkipExplainModifiers(sql: string) returns (s: string)
    ensures s == SkipModifiers(sql)
  {
    s := TrimStart(sql);
    if StartsWith(s, "(") {
      var idx := Find(s[1..], ")");
      if idx.None? {
        return "";
      }
      s := TrimStart(s[1..][idx.value + 1..]);
    }
    while true
      invariant SkipWords(s) == SkipModifiers(sql)
      decreases |s|
    {
      var n := KeywordLength(s);
      if n == 0 {
        break;
      }
      var word := ToUpper(s[..n]);
      if !IsModifier(word) {
        break;
      }
      s := TrimStart(s[n..]);
      if word == "FORMAT" {
        s := TrimStart(s[KeywordLength(s)..]);
      }
    }
  }

  // ----- Batches -------------------------------------------------------------------------------

  lemma GlueConcat(prefix: string, x: seq<string>, y: seq<string>)
    requires x != []
    ensures Glue(prefix, x + y) == Glue(prefix, x) + y
  {
    assert (x + y)[1..] == x[1..] + y;
  }

  lemma {:induction false} PiecesOfBatch(mode: Mode, a: string, b: string)
    requires EndMode(mode, a) == Outside
    ensures Pieces(mode, a + ";" + b) == Pieces(mode, a) + Pieces(Outside, b)
    decreases |a|
  {
    var s := a + ";" + b;
    if a == "" {
      assert s[0] == ';' && s[1..] == b;
    } else {
      assert s[0] == a[0] && s[1..] == a[1..] + ";" + b;
      if mode.Outside? && a[0] == ';' {
        PiecesOfBatch(Outside, a[1..], b);
      } else {
        var next := Toggle(mode, a[0]);
        PiecesOfBatch(next, a[1..], b);
        GlueConcat([a[0]], Pieces(next, a[1..]), Pieces(Outside, b));
      }
    }
  }

  lemma {:induction false} FirstErrorConcat(a: seq<string>, b: seq<string>, check: string -> Verdict)
    ensures FirstError(a + b, check) ==
      if FirstError(a, check).Refused? then FirstError(a, check) else FirstError(b, check)
  {
    if a == [] {
      assert a + b == b;
    } else {
      assert (a + b)[1..] == a[1..] + b;
      FirstErrorConcat(a[1..], b, check);
    }
  }

  lemma {:induction false} BlankLast(statements: seq<string>, check: string -> Verdict)
    requires check("").Accepted?
    ensures FirstError(statements + [""], check) == FirstError(statements, check)
  {
    FirstErrorConcat(statements, [""], check);
    assert FirstError([""], check) == FirstError([""][1..], check);
  }

  /** An empty last piece changes nothing. */
  lemma {:induction false} CheckPieces(sql: string)
    ensures AssertReadonly(sql) == FirstError(Pieces(Outside, sql), CheckTrimmed)
  {
    var pieces := Pieces(Outside, sql);
    if pieces[|pieces| - 1] == "" {
      assert Trim("") == "";
      BlankLast(Statements(sql), CheckTrimmed);
      assert pieces == Statements(sql) + [""];
    }
  }

  /** If the first part ends outside quotes, a batch is judged part by part: it passes exactly when
      both parts pass, and otherwise reports the first refusal. */
  lemma {:induction false} BatchIsPartByPart(a: string, b: string)
    requires EndMode(Outside, a) == Outside
    ensures AssertReadonly(a + ";" + b) == if AssertReadonly(a).Refused? then AssertReadonly(a) else AssertReadonly(b)
  {
    PiecesOfBatch(Outside, a, b);
    FirstErrorConcat(Pieces(Outside, a), Pieces(Outside, b), CheckTrimmed);
    CheckPieces(a);
    CheckPieces(b);
    CheckPieces(a + ";" + b);
  }
}
