/** What an open quote does to a batch.

The splitter sees quotes only, so a part that ends inside a quote, one opened in a comment included,
takes everything behind it into its last statement, semicolons and all.  The filter looks at the
front of that statement.  So whatever is appended passes with it, unless the filter had read to its
end: the exact condition is `OpenQuoteHidesRest`.
*/
module OpenQuotes {
  import opened Prelude
  import opened Text
  import opened SqlSafety
  import opened SqlSafetyLaws
  import opened ExplainLaws

  // ----- The pieces ----------------------------------------------------------------------------------

  /** The quote character that ends a mode. */
  function Closer(mode: Mode): char {
    if mode.InDouble? then '"' else '\''
  }

  function AppendLast(pieces: seq<string>, text: string): seq<string>
    requires pieces != []
  {
    pieces[..|pieces| - 1] + [pieces[|pieces| - 1] + text]
  }

  lemma {:induction false} NoCutInQuotes(mode: Mode, s: string)
    requires !mode.Outside? && Closer(mode) !in s
    ensures Pieces(mode, s) == [s]
  {
    if s != "" {
      NoCutInQuotes(mode, s[1..]);
      assert s == [s[0]] + s[1..];
    }
  }

  lemma {:induction false} GlueAppend(text: string, pieces: seq<string>, more: string)
    requires pieces != []
    ensures Glue(text, AppendLast(pieces, more)) == AppendLast(Glue(text, pieces), more)
  {
    if |pieces| == 1 {
      assert text + (pieces[0] + more) == text + pieces[0] + more;
    } else {
      assert AppendLast(pieces, more)[1..] == AppendLast(pieces[1..], more);
    }
  }

  /** Behind an open quote nothing is cut: all of it goes to the last piece. */
  lemma {:induction false} PiecesInQuotes(mode: Mode, a: string, more: string)
    requires !EndMode(mode, a).Outside? && Closer(EndMode(mode, a)) !in more
    ensures Pieces(mode, a + more) == AppendLast(Pieces(mode, a), more)
    decreases |a|
  {
    if a == "" {
      assert a + more == more && "" + more == more;
      NoCutInQuotes(mode, more);
    } else {
      var s := a + more;
      assert s[0] == a[0] && s[1..] == a[1..] + more;
      if mode.Outside? && a[0] == ';' {
        PiecesInQuotes(Outside, a[1..], more);
      } else {
        PiecesInQuotes(Toggle(mode, a[0]), a[1..], more);
        GlueAppend([a[0]], Pieces(Toggle(mode, a[0]), a[1..]), more);
      }
    }
  }

  predicate HasQuote(s: string) {
    '\'' in s || '"' in s
  }

  function LastPiece(mode: Mode, a: string): string {
    Pieces(mode, a)[|Pieces(mode, a)| - 1]
  }

  lemma {:induction false} GluedLast(c: char, pieces: seq<string>)
    requires pieces != []
    ensures var glued := Glue([c], pieces);
      && |glued| == |pieces|
      && (HasQuote(pieces[|pieces| - 1]) ==> HasQuote(glued[|glued| - 1]))
      && (|pieces| == 1 && (c == '\'' || c == '"') ==> HasQuote(glued[0]))
  {
    var first := [c] + pieces[0];
    assert first[0] == c && forall x :: x in pieces[0] ==> x in first;
  }

  /** A quote still open was opened in the last piece. */
  lemma {:induction false} LastPieceQuoted(mode: Mode, a: string)
    requires !EndMode(mode, a).Outside?
    ensures (!mode.Outside? && |Pieces(mode, a)| == 1) || HasQuote(LastPiece(mode, a))
    decreases |a|
  {
    if a != "" {
      if mode.Outside? && a[0] == ';' {
        LastPieceQuoted(Outside, a[1..]);
        assert Pieces(mode, a) == [""] + Pieces(Outside, a[1..]);
      } else {
        var next := Toggle(mode, a[0]);
        LastPieceQuoted(next, a[1..]);
        assert Pieces(mode, a) == Glue([a[0]], Pieces(next, a[1..]));
        GluedLast(a[0], Pieces(next, a[1..]));
      }
    }
  }

  // ----- Trimming ----------------------------------------------------------------------------------

  lemma {:induction false} TrimStartKeeps(s: string, c: char)
    requires c in s && !IsWhitespace(c)
    ensures c in TrimStart(s)
  {
    if IsWhitespace(s[0]) { TrimStartKeeps(s[1..], c); }
  }

  /** A text is its trimmed form and white space. */
  lemma {:induction false} TrimEndSplit(s: string) returns (w: string)
    ensures s == TrimEnd(s) + w && Blank(w)
  {
    if s != "" && IsWhitespace(s[|s| - 1]) {
      var v := TrimEndSplit(s[..|s| - 1]);
      w := v + [s[|s| - 1]];
      assert s == s[..|s| - 1] + [s[|s| - 1]];
    } else {
      w := "";
    }
  }

  lemma {:induction false} TrimEndBehind(p: string, r: string)
    requires TrimEnd(r) != ""
    ensures TrimEnd(p + r) == p + TrimEnd(r)
  {
    assert (p + r)[|p + r| - 1] == r[|r| - 1];
    if IsWhitespace(r[|r| - 1]) {
      TrimEndBehind(p, r[..|r| - 1]);
      assert (p + r)[..|p + r| - 1] == p + r[..|r| - 1];
    }
  }

  lemma {:induction false} TrimStartInFront(s: string, r: string)
    requires TrimStart(s) != ""
    ensures TrimStart(s + r) == TrimStart(s) + r
  {
    if IsWhitespace(s[0]) {
      assert (s + r)[0] == s[0] && (s + r)[1..] == s[1..] + r;
      TrimStartInFront(s[1..], r);
    } else {
      assert (s + r)[0] == s[0];
    }
  }

  lemma {:induction false} TrimEndFirst(r: string)
    requires VisibleFirst(r)
    ensures VisibleFirst(TrimEnd(r)) && TrimEnd(r)[0] == r[0]
  {
    if IsWhitespace(r[|r| - 1]) { TrimEndFirst(r[..|r| - 1]); }
  }

  // ----- Text behind a statement -------------------------------------------------------------------

  /** White space and then something that starts with a semicolon. */
  predicate IsTail(w: string, u: string) {
    Blank(w) && u != "" && u[0] == ';'
  }

  /** The tail behind a trimmed text; alone it is trimmed itself. */
  function Extended(s: string, w: string, u: string): string {
    if s == "" then u else s + (w + u)
  }

  lemma {:induction false} TrimExtended(s: string, w: string, u: string)
    requires IsTail(w, u)
    ensures TrimStart(s + (w + u)) == Extended(TrimStart(s), w, u)
  {
    if s == "" {
      assert s + (w + u) == w + u;
      TrimBlank(w, u);
    } else {
      assert (s + (w + u))[0] == s[0] && (s + (w + u))[1..] == s[1..] + (w + u);
      if IsWhitespace(s[0]) { TrimExtended(s[1..], w, u); }
    }
  }

  lemma {:induction false} WordBeforeTail(s: string, w: string, u: string)
    requires IsTail(w, u)
    ensures KeywordLength(s + (w + u)) == KeywordLength(s)
  {
    if s == "" {
      assert s + (w + u) == w + u;
    } else {
      assert (s + (w + u))[0] == s[0] && (s + (w + u))[1..] == s[1..] + (w + u);
      WordBeforeTail(s[1..], w, u);
    }
  }

  /** The leading word and what is behind it. */
  lemma {:induction false} WordOfExtended(s: string, w: string, u: string)
    requires IsTail(w, u)
    ensures var n := KeywordLength(s); var x := Extended(s, w, u);
      KeywordLength(x) == n && x[..n] == s[..n] && TrimStart(x[n..]) == Extended(TrimStart(s[n..]), w, u)
  {
    if s == "" {
      assert u[0..] == u && TrimStart(u) == u;
    } else {
      var n := KeywordLength(s);
      WordBeforeTail(s, w, u);
      assert (s + (w + u))[n..] == s[n..] + (w + u);
      TrimExtended(s[n..], w, u);
    }
  }

  lemma {:induction false} WordsOfExtended(s: string, w: string, u: string)
    requires IsTail(w, u)
    ensures SkipWords(Extended(s, w, u)) == Extended(SkipWords(s), w, u)
    decreases |s|
  {
    WordOfExtended(s, w, u);
    var n := KeywordLength(s);
    if n != 0 && IsModifier(ToUpper(s[..n])) {
      var t := TrimStart(s[n..]);
      if ToUpper(s[..n]) == "FORMAT" {
        WordOfExtended(t, w, u);
        WordsOfExtended(TrimStart(t[KeywordLength(t)..]), w, u);
      } else {
        WordsOfExtended(t, w, u);
      }
    }
  }

  // ----- Searching in front of and behind a text -----------------------------------------------------

  lemma {:induction false} StartsInFront(s: string, t: string, p: string)
    requires |p| <= |s|
    ensures StartsWith(s + t, p) == StartsWith(s, p)
  {
    assert (s + t)[..|p|] == s[..|p|];
  }

  lemma {:induction false} FoundInFront(s: string, t: string, p: string)
    requires p != "" && Find(s, p).Some?
    ensures Find(s + t, p) == Find(s, p)
  {
    StartsInFront(s, t, p);
    if !StartsWith(s, p) {
      assert (s + t)[1..] == s[1..] + t;
      FoundInFront(s[1..], t, p);
    }
  }

  /** What is behind a mark found in front of more text. */
  lemma {:induction false} BehindMark(v: string, skip: nat, t: string, mark: string)
    requires skip <= |v| && mark != "" && Find(v[skip..], mark).Some?
    ensures var i := Find(v[skip..], mark).value;
      && Find((v + t)[skip..], mark) == Some(i)
      && (v + t)[skip..][i + |mark|..] == v[skip..][i + |mark|..] + t
  {
    assert (v + t)[skip..] == v[skip..] + t;
    FoundInFront(v[skip..], t, mark);
  }

  lemma {:induction false} FoundBehind(s: string, t: string, p: string)
    requires |p| == 1 && p[0] !in s
    ensures Find(s + t, p) == match Find(t, p) case None => None case Some(i) => Some(|s| + i)
  {
    if s == "" {
      assert s + t == t;
    } else {
      assert (s + t)[1..] == s[1..] + t && (s + t)[0] == s[0];
      FoundBehind(s[1..], t, p);
    }
  }

  lemma {:induction false} NotFound(s: string, p: string)
    requires |p| == 1 && Find(s, p).None?
    ensures p[0] !in s
  {
    if s != "" {
      assert s[..1] == [s[0]];
      NotFound(s[1..], p);
    }
  }

  // ----- Modifiers and comments in front of a tail ---------------------------------------------------

  /** An option list that is not closed. */
  predicate UnclosedList(s: string) {
    StartsWith(s, "(") && Find(s[1..], ")").None?
  }

  /** What is explained behind the closing parenthesis, if there is one. */
  function Continued(u: string): (r: string)
    ensures |r| <= |u|
  {
    match Find(u, ")")
    case None => ""
    case Some(i) => SkipWords(TrimStart(u[i + 1..]))
  }

  lemma {:induction false} OpenFirst(s: string)
    ensures StartsWith(s, "(") <==> s != "" && s[0] == '('
  {
    if s != "" { assert s[..1] == [s[0]]; }
  }

  lemma {:induction false} ListSkipped(s: string)
    requires s != "" && s[0] == '('
    ensures SkipModifiers(s) == Continued(s[1..])
  {
    assert TrimStart(s) == s && StartsWith(s, "(") by { OpenFirst(s); }
  }

  lemma {:induction false} ContinuedBehind(list: string, u: string)
    requires ')' !in list
    ensures Continued(list + u) == Continued(u)
  {
    var close := ")";
    FoundBehind(list, u, close);
    match Find(u, close)
    case None =>
    case Some(i) => assert (list + u)[|list| + i + 1..] == u[i + 1..];
  }

  lemma {:induction false} ContinuedInFront(list: string, w: string, u: string)
    requires IsTail(w, u) && Find(list, ")").Some?
    ensures Continued(list + (w + u)) == Extended(Continued(list), w, u)
  {
    var close := ")";
    BehindMark(list, 0, w + u, close);
    assert list[0..] == list && (list + (w + u))[0..] == list + (w + u);
    var rest := list[Find(list, close).value + 1..];
    TrimExtended(rest, w, u);
    WordsOfExtended(TrimStart(rest), w, u);
  }

  lemma {:induction false} ListWithTail(s: string, w: string, u: string)
    requires IsTail(w, u) && s != "" && s[0] == '('
    ensures SkipModifiers(s + (w + u)) == if UnclosedList(s) then Continued(u) else Extended(SkipModifiers(s), w, u)
  {
    var x, list := s + (w + u), s[1..];
    assert x[0] == '(' && x[1..] == list + (w + u);
    ListSkipped(x);
    ListSkipped(s);
    OpenFirst(s);
    if UnclosedList(s) {
      var close := ")";
      NotFound(list, close);
      assert list + (w + u) == (list + w) + u;
      ContinuedBehind(list + w, u);
    } else {
      ContinuedInFront(list, w, u);
    }
  }

  lemma {:induction false} ModifiersOfExtended(s: string, w: string, u: string)
    requires IsTail(w, u) && TrimStart(s) == s
    ensures SkipModifiers(Extended(s, w, u)) ==
      if UnclosedList(s) then Continued(u) else Extended(SkipModifiers(s), w, u)
  {
    OpenFirst(s);
    if s != "" && s[0] == '(' {
      ListWithTail(s, w, u);
    } else {
      var x := Extended(s, w, u);
      if s != "" { TrimExtended(s, w, u); }
      OpenFirst(x);
      assert TrimStart(x) == x;
      WordsOfExtended(s, w, u);
    }
  }

  lemma {:induction false} NothingLeft(s: string)
    requires StripOnce(s) == ""
    ensures StripNoise(s) == ""
  {
    var nothing := "";
    assert StripOnce(nothing) == nothing;
    if |s| > 0 { StrippedOnce(s, nothing); }
  }

  /** A comment mark is not made by the tail. */
  lemma {:induction false} MarkInFront(s: string, w: string, u: string, mark: string)
    requires IsTail(w, u) && s != "" && (mark == "--" || mark == "/*")
    ensures StartsWith(s + (w + u), mark) == StartsWith(s, mark)
  {
    var t := w + u;
    if |s| >= 2 {
      StartsInFront(s, t, mark);
    } else {
      assert (s + t)[1] == t[0] && (s + t)[..2][1] == t[0];
    }
  }

  /** What is behind a comment that ends with `mark`. */
  function BehindComment(v: string, mark: string): string
    requires |v| >= 2 && mark != ""
  {
    match Find(v[2..], mark) case None => "" case Some(i) => v[2..][i + |mark|..]
  }

  lemma {:induction false} CommentBeforeTail(v: string, t: string, mark: string)
    requires |v| >= 2 && mark != "" && BehindComment(v, mark) != ""
    ensures BehindComment(v + t, mark) == BehindComment(v, mark) + t
  {
    BehindMark(v, 2, t, mark);
  }

  lemma {:induction false} StripOnceBeforeTail(s: string, w: string, u: string)
    requires IsTail(w, u) && StripOnce(s) != ""
    ensures StripOnce(s + (w + u)) == StripOnce(s) + (w + u)
  {
    var t, v, dashes, slash, newline, close := w + u, TrimStart(s), "--", "/*", "\n", "*/";
    TrimStartInFront(s, t);
    MarkInFront(v, w, u, dashes);
    MarkInFront(v, w, u, slash);
    if StartsWith(v, dashes) {
      CommentBeforeTail(v, t, newline);
    } else if StartsWith(v, slash) {
      CommentBeforeTail(v, t, close);
    }
  }

  /** Comments and white space in front of a statement, with a tail behind it. */
  lemma {:induction false} NoiseBeforeTail(s: string, w: string, u: string)
    requires IsTail(w, u) && StripNoise(s) != ""
    ensures StripNoise(s + (w + u)) == StripNoise(s) + (w + u)
    decreases |s|
  {
    if StripOnce(s) == "" {
      NothingLeft(s);
    } else {
      StripOnceBeforeTail(s, w, u);
      if |StripOnce(s)| < |s| { NoiseBeforeTail(StripOnce(s), w, u); }
    }
  }

  // ----- The verdict -------------------------------------------------------------------------------

  // How far the filter reads: to a word that decides, to the end behind an `EXPLAIN`, or to the end
  // inside an option list.
  datatype Ending = Settled | Dangling | InList

  function EndingOf(s: string): Ending
    decreases |s|
  {
    var t := StripNoise(s);
    var n := KeywordLength(t);
    if n == 0 || ToUpper(t[..n]) != "EXPLAIN" then Settled
    else if UnclosedList(TrimStart(t[n..])) then InList
    else if Explained(s) == "" then Dangling
    else EndingOf(Explained(s))
  }

  /** The verdict on an accepted statement with a tail. */
  predicate PassesWithTail(s: string, u: string) {
    match EndingOf(s)
    case Settled => true
    case Dangling => false
    case InList => Continued(u) == "" || CheckSingle(Continued(u)).Accepted?
  }

  lemma {:induction false} TailAloneRefused(u: string)
    requires u != "" && u[0] == ';'
    ensures CheckSingle(u).Refused?
  {
    assert TrimStart(u) == u && StripOnce(u) == u && StripNoise(u) == u;
  }

  lemma {:induction false} ExplainedOfExtended(s: string, w: string, u: string)
    requires IsTail(w, u) && KeywordLength(StripNoise(s)) > 0
    ensures var x := s + (w + u); var t := StripNoise(s); var n := KeywordLength(t);
      && KeywordLength(StripNoise(x)) == n && StripNoise(x)[..n] == t[..n]
      && Explained(x) == if UnclosedList(TrimStart(t[n..])) then Continued(u) else Extended(Explained(s), w, u)
  {
    var t := StripNoise(s);
    var v := TrimStart(t[KeywordLength(t)..]);
    NoiseBeforeTail(s, w, u);
    WordOfExtended(t, w, u);
    TrimTwice(t[KeywordLength(t)..]);
    ModifiersOfExtended(v, w, u);
  }

  lemma {:induction false} TrimTwice(s: string)
    ensures TrimStart(TrimStart(s)) == TrimStart(s)
  {
    if s != "" && IsWhitespace(s[0]) { TrimTwice(s[1..]); }
  }

  lemma {:induction false} VerdictWithTail(s: string, w: string, u: string)
    requires IsTail(w, u) && CheckSingle(s).Accepted?
    ensures CheckSingle(s + (w + u)).Accepted? <==> PassesWithTail(s, u)
    decreases |s|
  {
    var t := StripNoise(s);
    var n := KeywordLength(t);
    ExplainedOfExtended(s, w, u);
    if ToUpper(t[..n]) == "EXPLAIN" && !UnclosedList(TrimStart(t[n..])) {
      if Explained(s) == "" {
        TailAloneRefused(u);
      } else {
        VerdictWithTail(Explained(s), w, u);
      }
    }
  }

  // ----- Batches -----------------------------------------------------------------------------------

  /** The last statement as the filter gets it. */
  function LastStatement(a: string): string {
    Trim(LastPiece(Outside, a))
  }

  lemma {:induction false} LastStatementShows(a: string)
    requires !EndMode(Outside, a).Outside?
    ensures LastStatement(a) != ""
  {
    var piece := LastPiece(Outside, a);
    LastPieceQuoted(Outside, a);
    var c := if '\'' in piece then '\'' else '"';
    TrimStartKeeps(piece, c);
    var i :| 0 <= i < |TrimStart(piece)| && TrimStart(piece)[i] == c;
    TrimEndKeeps(TrimStart(piece), i + 1);
  }

  lemma {:induction false} TrimWithMore(s: string, more: string) returns (w: string)
    requires Trim(s) != "" && VisibleFirst(more)
    ensures Blank(w) && Trim(s + more) == Trim(s) + (w + TrimEnd(more))
  {
    w := TrimEndSplit(TrimStart(s));
    TrimStartInFront(s, more);
    TrimEndFirst(more);
    TrimEndBehind(TrimStart(s), more);
    assert TrimStart(s) + TrimEnd(more) == Trim(s) + (w + TrimEnd(more));
  }

  lemma {:induction false} ThenOne(pieces: seq<string>, last: string)
    ensures FirstError(pieces + [last], CheckTrimmed).Accepted? <==>
      FirstError(pieces, CheckTrimmed).Accepted? && CheckTrimmed(last).Accepted?
  {
    FirstErrorConcat(pieces, [last], CheckTrimmed);
    assert FirstError([last], CheckTrimmed) ==
      if CheckTrimmed(last).Refused? then CheckTrimmed(last) else FirstError([last][1..], CheckTrimmed);
  }

  /** The last piece, with what is appended, decides. */
  lemma {:induction false} LastPieceDecides(a: string, more: string)
    requires AssertReadonly(a).Accepted?
    requires !EndMode(Outside, a).Outside? && Closer(EndMode(Outside, a)) !in more
    ensures CheckTrimmed(LastPiece(Outside, a)).Accepted?
    ensures AssertReadonly(a + more).Accepted? <==> CheckTrimmed(LastPiece(Outside, a) + more).Accepted?
  {
    var pieces, last := Pieces(Outside, a), LastPiece(Outside, a);
    var before := pieces[..|pieces| - 1];
    assert pieces == before + [last];
    assert Pieces(Outside, a + more) == before + [last + more] by { PiecesInQuotes(Outside, a, more); }
    CheckPieces(a);
    CheckPieces(a + more);
    ThenOne(before, last);
    ThenOne(before, last + more);
  }

  lemma {:induction false} LastPieceWithTail(piece: string, more: string)
    requires Trim(piece) != "" && CheckTrimmed(piece).Accepted? && more != "" && more[0] == ';'
    ensures CheckTrimmed(piece + more).Accepted? <==> PassesWithTail(Trim(piece), TrimEnd(more))
  {
    var w := TrimWithMore(piece, more);
    TrimEndFirst(more);
    VerdictWithTail(Trim(piece), w, TrimEnd(more));
  }

  /** Behind an accepted part that ends inside a quote, single or double, text without that quote passes
      unread, semicolons and all, exactly unless the last statement is an `EXPLAIN` with nothing to
      explain, or with an unclosed option list and something to refuse behind its end. */
  lemma {:induction false} OpenQuoteHidesRest(a: string, b: string)
    requires AssertReadonly(a).Accepted?
    requires !EndMode(Outside, a).Outside? && Closer(EndMode(Outside, a)) !in b
    ensures AssertReadonly(a + (";" + b)).Accepted? <==> PassesWithTail(LastStatement(a), TrimEnd(";" + b))
  {
    var more := ";" + b;
    LastPieceDecides(a, more);
    LastStatementShows(a);
    LastPieceWithTail(LastPiece(Outside, a), more);
  }

  // ----- Three cases -------------------------------------------------------------------------------

  lemma {:induction false} SettledByWord(s: string, word: string)
    requires HasFirstWord(StripNoise(s), word) && ToUpper(word) != "EXPLAIN"
    ensures EndingOf(s) == Settled
  {
    FirstWordLength(StripNoise(s), word);
  }

  /** Plain text, an apostrophe and text without another are one piece that ends in the quote. */
  lemma {:induction false} OneApostrophe(p: string, q: string, quoted: string)
    requires Plain(p) && '\'' !in q && quoted == "'" + q
    ensures Pieces(Outside, p + quoted) == [p + quoted] && EndMode(Outside, p + quoted) == InSingle
  {
    assert quoted[0] == '\'' && quoted[1..] == q;
    NoCutInQuotes(InSingle, q);
    NoCutOutside(p, quoted);
    assert Glue(['\''], [q]) == [quoted] && Glue(p, [quoted]) == [p + quoted];
    EndModeConcat(Outside, p, quoted);
    EndModePlain(p);
    EndModeInQuotes(InSingle, q);
  }

  /** One apostrophe is enough, wherever it stands behind the first word: in a comment, say. */
  lemma {:induction false} ApostropheHidesRest(p: string, word: string, q: string, b: string)
    requires Plain(p) && HasFirstWord(p, word) && IsReadonlyKeyword(ToUpper(word)) && ToUpper(word) != "EXPLAIN"
    requires '\'' !in q && '\'' !in b
    ensures AssertReadonly(p + ("'" + q) + (";" + b)).Accepted?
  {
    var quoted := "'" + q;
    var a := p + quoted;
    OneApostrophe(p, q, quoted);
    assert a[..|word|] == p[..|word|] && (|word| < |a| ==> a[|word|] == if |word| < |p| then p[|word|] else '\'');
    TrimmedFirstWord(a, word);
    SinglePieceVerdict(a, word);
    SettledByWord(Trim(a), word);
    OpenQuoteHidesRest(a, b);
  }

  lemma {:induction false} EndModeInQuotes(mode: Mode, s: string)
    requires !mode.Outside? && Closer(mode) !in s
    ensures EndMode(mode, s) == mode
  {
    if s != "" { EndModeInQuotes(mode, s[1..]); }
  }

  /** So one apostrophe in a line comment is enough, and the line's end does not end it. */
  lemma {:induction false} CommentHidesRest(p: string, word: string, c: string, d: string, b: string)
    requires Plain(p) && HasFirstWord(p, word) && IsReadonlyKeyword(ToUpper(word)) && ToUpper(word) != "EXPLAIN"
    requires Plain(c) && '\n' !in c && '\'' !in d && '\'' !in b
    ensures AssertReadonly(p + ("--" + (c + ("'" + (d + "\n")))) + (";" + b)).Accepted?
  {
    var dashes, q := "--", d + "\n";
    var front := p + (dashes + c);
    assert p + (dashes + (c + ("'" + q))) == front + ("'" + q);
    assert front[..|word|] == p[..|word|] && front[|word|] == if |word| < |p| then p[|word|] else '-';
    ApostropheHidesRest(front, word, q, b);
  }

  lemma {:induction false} BareExplain(s: string, word: string)
    requires StripNoise(s) == word && ToUpper(word) == "EXPLAIN"
    ensures CheckSingle(s).Accepted? && EndingOf(s) == Dangling
  {
    var nothing := "";
    assert word == word + nothing;
    ExplainWord(word, word, nothing);
    assert TrimStart(nothing) == nothing && SkipModifiers(nothing) == nothing;
  }

  lemma {:induction false} SinglePieceTrimmed(s: string)
    requires Pieces(Outside, s) == [s]
    ensures AssertReadonly(s) == CheckTrimmed(s)
  {
    CheckPieces(s);
    assert FirstError([s], CheckTrimmed) ==
      if CheckTrimmed(s).Refused? then CheckTrimmed(s) else FirstError([s][1..], CheckTrimmed);
  }

  /** The exception is real: behind an `EXPLAIN` with nothing to explain, nothing passes, although a
      quote is open. */
  lemma {:induction false} BareExplainHidesNothing(a: string, word: string, b: string)
    requires Pieces(Outside, a) == [a] && EndMode(Outside, a) == InSingle && '\'' !in b
    requires StripNoise(Trim(a)) == word && ToUpper(word) == "EXPLAIN"
    ensures AssertReadonly(a).Accepted? && AssertReadonly(a + (";" + b)).Refused?
  {
    BareExplain(Trim(a), word);
    SinglePieceTrimmed(a);
    OpenQuoteHidesRest(a, b);
  }

  /** Such a part: the quote stands in a comment in front. */
  lemma {:induction false} BareExplainSample(a: string, p: string, q: string, word: string)
    requires p == "--" && word == "EXPLAIN" && q == "\n" + word && a == p + ("'" + q)
    ensures Pieces(Outside, a) == [a] && EndMode(Outside, a) == InSingle
    ensures StripNoise(Trim(a)) == word
  {
    OneApostrophe(p, q, "'" + q);
    var comment := "'";
    assert a == p + comment + "\n" + word;
    CommentThenWord(a, comment, word);
  }

  lemma {:induction false} CommentThenWord(a: string, comment: string, word: string)
    requires IsWord(word) && '\n' !in comment && a == "--" + comment + "\n" + word
    ensures StripNoise(Trim(a)) == word
  {
    assert a[0] == '-' && a[|a| - 1] == word[|word| - 1];
    assert Trim(a) == a;
    CommentGone(a, comment, word);
  }

  lemma {:induction false} CommentGone(a: string, comment: string, word: string)
    requires IsWord(word) && '\n' !in comment && a == "--" + comment + "\n" + word
    ensures StripNoise(a) == word
  {
    LineCommentStripped(comment, word);
    LetterFirst(word);
  }
}
