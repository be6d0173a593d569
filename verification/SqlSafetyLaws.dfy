/** Laws of the read-only filter: what decides, and that leading noise and letter case do not. */
module SqlSafetyLaws {
  import opened Prelude
  import opened Text
  import opened SqlSafety

  // ----- Leading comments and white space --------------------------------------------------------

  lemma {:induction false} FindFirst(a: string, needle: string, b: string)
    requires needle != ""
    requires forall i :: 0 <= i < |a| ==> !StartsWith((a + needle + b)[i..], needle)
    ensures Find(a + needle + b, needle) == Some(|a|)
  {
    var s := a + needle + b;
    if a == "" {
      assert s[..|needle|] == needle;
    } else {
      assert s[0..] == s && s[1..] == a[1..] + needle + b;
      forall i | 0 <= i < |a[1..]| ensures !StartsWith((a[1..] + needle + b)[i..], needle) {
        assert s[1..][i..] == s[i + 1..];
      }
      FindFirst(a[1..], needle, b);
    }
  }

  lemma StrippedOnce(s: string, t: string)
    requires StripOnce(s) == t && |t| < |s|
    ensures StripNoise(s) == StripNoise(t)
  {
  }

  lemma LineCommentStripped(comment: string, s: string)
    requires '\n' !in comment
    ensures StripNoise("--" + comment + "\n" + s) == StripNoise(s)
  {
    var x := "--" + comment + "\n" + s;
    assert x[0] == '-' && TrimStart(x) == x && x[..2] == "--" && x[2..] == comment + "\n" + s;
    forall i | 0 <= i < |comment| ensures !StartsWith((comment + "\n" + s)[i..], "\n") {
      assert (comment + "\n" + s)[i..][0] == comment[i];
    }
    FindFirst(comment, "\n", s);
    assert x[2..][|comment| + 1..] == s;
    StrippedOnce(x, s);
  }

  lemma {:induction false} BlockCommentStripped(comment: string, s: string)
    requires forall i :: 0 <= i < |comment| - 1 ==> !(comment[i] == '*' && comment[i + 1] == '/')
    ensures StripNoise("/*" + comment + "*/" + s) == StripNoise(s)
  {
    var x := "/*" + comment + "*/" + s;
    assert x[0] == '/' && TrimStart(x) == x && x[..2] == "/*" && x[2..] == comment + "*/" + s;
    forall i | 0 <= i < |comment| ensures !StartsWith((comment + "*/" + s)[i..], "*/") {
      var tail := (comment + "*/" + s)[i..];
      assert tail[0] == comment[i] && tail[1] == (if i + 1 < |comment| then comment[i + 1] else '*');
      assert tail[0] != '*' || tail[1] != '/';
      assert tail[..2] == [tail[0], tail[1]];
    }
    FindFirst(comment, "*/", s);
    assert x[2..][|comment| + 2..] == s;
    StrippedOnce(x, s);
  }

  lemma WhitespaceStripped(w: char, s: string)
    requires IsWhitespace(w)
    ensures StripNoise([w] + s) == StripNoise(s)
  {
    var x := [w] + s;
    assert x[0] == w && x[1..] == s;
    assert StripOnce(x) == StripOnce(s);
    if |StripOnce(s)| == |s| {
      assert StripOnce(s) == s;
    }
  }

  /** The verdict depends on the stripped text alone. */
  lemma {:induction false} VerdictIgnoresNoise(noisy: string, s: string)
    requires StripNoise(noisy) == StripNoise(s)
    ensures CheckSingle(noisy).Accepted? == CheckSingle(s).Accepted?
  {
  }

  // A piece of what can stand in front of a statement.
  datatype Noise = Space(c: char) | LineComment(text: string) | BlockComment(text: string)

  function NoiseText(n: Noise): string {
    match n
    case Space(c) => [c]
    case LineComment(text) => "--" + text + "\n"
    case BlockComment(text) => "/*" + text + "*/"
  }

  /** A comment's text does not hold the mark that ends the comment. */
  predicate NoiseOk(n: Noise) {
    match n
    case Space(c) => IsWhitespace(c)
    case LineComment(text) => '\n' !in text
    case BlockComment(text) => forall i :: 0 <= i < |text| - 1 ==> !(text[i] == '*' && text[i + 1] == '/')
  }

  function AllNoise(ns: seq<Noise>): string {
    if ns == [] then "" else NoiseText(ns[0]) + AllNoise(ns[1..])
  }

  lemma {:induction false} OneNoiseStripped(n: Noise, s: string)
    requires NoiseOk(n)
    ensures StripNoise(NoiseText(n) + s) == StripNoise(s)
  {
    match n
    case Space(c) => WhitespaceStripped(c, s);
    case LineComment(text) => LineCommentStripped(text, s);
    case BlockComment(text) => BlockCommentStripped(text, s);
  }

  lemma {:induction false} NoiseStripped(ns: seq<Noise>, s: string)
    requires forall i :: 0 <= i < |ns| ==> NoiseOk(ns[i])
    ensures StripNoise(AllNoise(ns) + s) == StripNoise(s)
  {
    if ns == [] {
      assert AllNoise(ns) + s == s;
    } else {
      var rest := AllNoise(ns[1..]) + s;
      assert AllNoise(ns) + s == NoiseText(ns[0]) + rest;
      OneNoiseStripped(ns[0], rest);
      NoiseStripped(ns[1..], s);
    }
  }

  /** Any number of comments and white space characters, in any order, in front of a statement do not
      change its verdict. */
  lemma {:induction false} LeadingNoiseIgnored(ns: seq<Noise>, s: string)
    requires forall i :: 0 <= i < |ns| ==> NoiseOk(ns[i])
    ensures CheckSingle(AllNoise(ns) + s).Accepted? == CheckSingle(s).Accepted?
  {
    NoiseStripped(ns, s);
    VerdictIgnoresNoise(AllNoise(ns) + s, s);
  }

  // ----- First words -----------------------------------------------------------------------------

  /** `s` starts with the word, and the word ends there. */
  predicate HasFirstWord(s: string, word: string) {
    && 0 < |word| <= |s| && s[..|word|] == word
    && (forall i :: 0 <= i < |word| ==> IsAsciiAlpha(word[i]))
    && (|word| < |s| ==> !IsAsciiAlpha(s[|word|]))
  }

  lemma {:induction false} FirstWordLength(s: string, word: string)
    requires |word| <= |s| && s[..|word|] == word && (forall i :: 0 <= i < |word| ==> IsAsciiAlpha(word[i]))
    requires |word| < |s| ==> !IsAsciiAlpha(s[|word|])
    ensures KeywordLength(s) == |word|
  {
    if word != "" {
      assert s[0] == word[0] && s[1..][..|word| - 1] == word[1..];
      FirstWordLength(s[1..], word[1..]);
    }
  }

  lemma {:induction false} LetterNoComment(s: string, mark: string)
    requires s != "" && IsAsciiAlpha(s[0]) && mark != "" && (mark[0] == '-' || mark[0] == '/')
    ensures !StartsWith(s, mark)
  {
    assert |mark| <= |s| ==> s[..|mark|][0] == s[0];
  }

  lemma {:induction false} LetterFirst(s: string)
    requires s != "" && IsAsciiAlpha(s[0])
    ensures TrimStart(s) == s && StripNoise(s) == s
  {
    LetterNoComment(s, "--");
    LetterNoComment(s, "/*");
    assert TrimStart(s) == s;
    assert StripOnce(s) == s;
  }

  /** The verdict by the first word behind white space and comments: without one the statement is
      refused, and with one, other than `EXPLAIN`, it passes exactly if the word is one of five. */
  lemma {:induction false} VerdictByFirstWord(s: string, word: string)
    ensures HasFirstWord(StripNoise(s), word) && ToUpper(word) != "EXPLAIN" ==>
      (CheckSingle(s).Accepted? <==> ToUpper(word) in {"SELECT", "WITH", "SHOW", "DESCRIBE", "DESC"})
    ensures NoLetterFirst(StripNoise(s)) ==> CheckSingle(s).Refused?
  {
    if HasFirstWord(StripNoise(s), word) { FirstWordLength(StripNoise(s), word); }
  }

  /** No word starts or goes on here. */
  predicate NoLetterFirst(t: string) {
    t == "" || !IsAsciiAlpha(t[0])
  }

  /** A batch passes exactly if every statement of it is blank or passes. */
  lemma {:induction false} BatchVerdict(sql: string)
    ensures AssertReadonly(sql).Accepted? <==>
      forall s :: s in Statements(sql) ==> Trim(s) == "" || CheckSingle(Trim(s)).Accepted?
  {
    EveryOnePasses(Statements(sql));
  }

  lemma {:induction false} EveryOnePasses(statements: seq<string>)
    ensures FirstError(statements, CheckTrimmed).Accepted? <==>
      forall s :: s in statements ==> CheckTrimmed(s).Accepted?
  {
    if statements != [] {
      EveryOnePasses(statements[1..]);
      assert statements == [statements[0]] + statements[1..];
    }
  }

  /** A batch of one piece: a blank one passes, one without a leading word is refused, and any other is
      judged by that word, unless it is `EXPLAIN`. */
  lemma {:induction false} SinglePieceVerdict(s: string, word: string)
    requires Pieces(Outside, s) == [s]
    ensures s != "" ==> Statements(s) == [s]
    ensures Trim(s) == "" ==> AssertReadonly(s).Accepted?
    ensures Trim(s) != "" && NoLetterFirst(StripNoise(Trim(s))) ==> AssertReadonly(s).Refused?
    ensures HasFirstWord(StripNoise(Trim(s)), word) && ToUpper(word) != "EXPLAIN" ==>
      (AssertReadonly(s).Accepted? <==> ToUpper(word) in {"SELECT", "WITH", "SHOW", "DESCRIBE", "DESC"})
  {
    CheckPieces(s);
    assert FirstError([s], CheckTrimmed) ==
      if CheckTrimmed(s).Refused? then CheckTrimmed(s) else FirstError([s][1..], CheckTrimmed);
    VerdictByFirstWord(Trim(s), word);
    if Trim(s) == "" { assert StripNoise(Trim(s)) == ""; }
  }

  lemma {:induction false} TrimEndKeeps(s: string, n: nat)
    requires 0 < n <= |s| && !IsWhitespace(s[n - 1])
    ensures n <= |TrimEnd(s)| && TrimEnd(s) == s[..|TrimEnd(s)|]
  {
    if IsWhitespace(s[|s| - 1]) {
      TrimEndKeeps(s[..|s| - 1], n);
      assert s[..|s| - 1][..|TrimEnd(s)|] == s[..|TrimEnd(s)|];
    }
  }

  lemma TrimmedFirstWord(s: string, word: string)
    requires HasFirstWord(s, word)
    ensures HasFirstWord(Trim(s), word) && StripNoise(Trim(s)) == Trim(s)
  {
    assert s[0] == word[0];
    LetterFirst(s);
    assert s[|word| - 1] == s[..|word|][|word| - 1] == word[|word| - 1];
    TrimEndKeeps(s, |word|);
    var t := Trim(s);
    assert t == s[..|t|] && t[..|word|] == s[..|word|];
    LetterFirst(t);
  }

  // ----- Text without quotes -----------------------------------------------------------------------

  /** Text without quotes and semicolons. */
  predicate Plain(s: string) {
    forall i :: 0 <= i < |s| ==> s[i] != '\'' && s[i] != '"' && s[i] != ';'
  }

  lemma {:induction false} NoCutOutside(s: string, rest: string)
    requires Plain(s)
    ensures Pieces(Outside, s + rest) == Glue(s, Pieces(Outside, rest))
  {
    if s == "" {
      assert s + rest == rest;
      GlueNothing(Pieces(Outside, rest));
    } else {
      assert (s + rest)[0] == s[0] && (s + rest)[1..] == s[1..] + rest;
      NoCutOutside(s[1..], rest);
      GlueTwice([s[0]], s[1..], Pieces(Outside, rest));
      assert [s[0]] + s[1..] == s;
    }
  }

  lemma {:induction false} EndModePlain(s: string)
    requires Plain(s)
    ensures EndMode(Outside, s) == Outside
  {
    if s != "" { EndModePlain(s[1..]); }
  }

  lemma {:induction false} EndModeConcat(mode: Mode, a: string, b: string)
    ensures EndMode(mode, a + b) == EndMode(EndMode(mode, a), b)
    decreases |a|
  {
    if a == "" {
      assert a + b == b;
    } else {
      assert (a + b)[0] == a[0] && (a + b)[1..] == a[1..] + b;
      EndModeConcat(Toggle(mode, a[0]), a[1..], b);
    }
  }

  // ----- Letter case -----------------------------------------------------------------------------

  /** Text that upper-casing cannot produce or change. */
  predicate Caseless(s: string) {
    forall i :: 0 <= i < |s| ==> !IsAsciiAlpha(s[i])
  }

  lemma {:induction false} UpperTrimStart(s: string)
    ensures TrimStart(ToUpper(s)) == ToUpper(TrimStart(s))
  {
    if s != "" {
      UpperTrimStart(s[1..]);
      assert ToUpper(s)[1..] == ToUpper(s[1..]);
    }
  }

  lemma {:induction false} UpperTrimEnd(s: string)
    ensures TrimEnd(ToUpper(s)) == ToUpper(TrimEnd(s))
  {
    if s != "" {
      UpperTrimEnd(s[..|s| - 1]);
      assert ToUpper(s)[..|s| - 1] == ToUpper(s[..|s| - 1]);
    }
  }

  lemma UpperStartsWith(s: string, p: string)
    requires Caseless(p)
    ensures StartsWith(ToUpper(s), p) == StartsWith(s, p)
  {
    if |p| <= |s| {
      assert forall i :: 0 <= i < |p| ==> (ToUpper(s)[i] == p[i] <==> s[i] == p[i]);
      assert ToUpper(s)[..|p|] == p <==> forall i :: 0 <= i < |p| ==> ToUpper(s)[i] == p[i];
      assert s[..|p|] == p <==> forall i :: 0 <= i < |p| ==> s[i] == p[i];
    }
  }

  lemma {:induction false} UpperFind(s: string, p: string)
    requires p != "" && Caseless(p)
    ensures Find(ToUpper(s), p) == Find(s, p)
  {
    if |s| >= |p| {
      UpperStartsWith(s, p);
      UpperFind(s[1..], p);
      assert ToUpper(s)[1..] == ToUpper(s[1..]);
    }
  }

  lemma UpperDrop(s: string, n: nat)
    requires n <= |s|
    ensures ToUpper(s)[n..] == ToUpper(s[n..])
  {
  }

  lemma UpperStripOnce(s: string)
    ensures StripOnce(ToUpper(s)) == ToUpper(StripOnce(s))
  {
    UpperTrimStart(s);
    var t := TrimStart(s);
    var dashes, slash, newline, close := "--", "/*", "\n", "*/";
    UpperStartsWith(t, dashes);
    UpperStartsWith(t, slash);
    if |t| >= 2 {
      UpperDrop(t, 2);
      UpperFind(t[2..], newline);
      UpperFind(t[2..], close);
      forall n | 0 <= n <= |t[2..]| ensures ToUpper(t[2..])[n..] == ToUpper(t[2..][n..]) {
        UpperDrop(t[2..], n);
      }
    }
    assert ToUpper("") == "";
  }

  lemma {:induction false} UpperStripNoise(s: string)
    ensures StripNoise(ToUpper(s)) == ToUpper(StripNoise(s))
    decreases |s|
  {
    UpperStripOnce(s);
    var t := StripOnce(s);
    if |t| < |s| { UpperStripNoise(t); }
  }

  lemma {:induction false} UpperKeyword(s: string)
    ensures KeywordLength(ToUpper(s)) == KeywordLength(s)
    ensures ToUpper(ToUpper(s)[..KeywordLength(s)]) == ToUpper(s[..KeywordLength(s)])
  {
    UpperKeywordLength(s);
  }

  lemma {:induction false} UpperKeywordLength(s: string)
    ensures KeywordLength(ToUpper(s)) == KeywordLength(s)
  {
    if s != "" {
      UpperKeywordLength(s[1..]);
      UpperDrop(s, 1);
    }
  }

  /** The text behind the leading word, trimmed. */
  lemma UpperAfterWord(s: string)
    ensures KeywordLength(ToUpper(s)) == KeywordLength(s)
    ensures TrimStart(ToUpper(s)[KeywordLength(s)..]) == ToUpper(TrimStart(s[KeywordLength(s)..]))
  {
    UpperKeywordLength(s);
    UpperDrop(s, KeywordLength(s));
    UpperTrimStart(s[KeywordLength(s)..]);
  }

  lemma {:induction false} UpperSkipWords(s: string)
    ensures SkipWords(ToUpper(s)) == ToUpper(SkipWords(s))
    decreases |s|
  {
    var n := KeywordLength(s);
    UpperKeyword(s);
    UpperAfterWord(s);
    if n != 0 && IsModifier(ToUpper(s[..n])) {
      var t := TrimStart(s[n..]);
      if ToUpper(s[..n]) == "FORMAT" {
        UpperAfterWord(t);
        UpperSkipWords(TrimStart(t[KeywordLength(t)..]));
      } else {
        UpperSkipWords(t);
      }
    }
  }

  lemma UpperSkipModifiers(s: string)
    ensures SkipModifiers(ToUpper(s)) == ToUpper(SkipModifiers(s))
  {
    UpperTrimStart(s);
    var t := TrimStart(s);
    var open, close := "(", ")";
    UpperStartsWith(t, open);
    if StartsWith(t, open) {
      UpperDrop(t, 1);
      UpperFind(t[1..], close);
      var i := Find(t[1..], close);
      if i.Some? {
        var u := t[1..][i.value + 1..];
        UpperDrop(t[1..], i.value + 1);
        UpperTrimStart(u);
        UpperSkipWords(TrimStart(u));
      }
      assert ToUpper("") == "";
    } else {
      UpperSkipWords(t);
    }
  }

  lemma {:induction false} UpperCheckSingle(s: string)
    ensures CheckSingle(ToUpper(s)).Accepted? == CheckSingle(s).Accepted?
    decreases |s|
  {
    var t := StripNoise(s);
    UpperStripNoise(s);
    UpperKeyword(t);
    UpperAfterWord(t);
    var n := KeywordLength(t);
    if n != 0 && ToUpper(t[..n]) == "EXPLAIN" {
      UpperSkipModifiers(TrimStart(t[n..]));
      assert Explained(ToUpper(s)) == ToUpper(Explained(s));
      UpperCheckSingle(Explained(s));
    }
  }

  function UpperAll(pieces: seq<string>): seq<string> {
    seq(|pieces|, i requires 0 <= i < |pieces| => ToUpper(pieces[i]))
  }

  lemma UpperGlue(text: string, pieces: seq<string>)
    requires pieces != []
    ensures UpperAll(Glue(text, pieces)) == Glue(ToUpper(text), UpperAll(pieces))
  {
    assert ToUpper(text + pieces[0]) == ToUpper(text) + ToUpper(pieces[0]);
  }

  lemma {:induction false} UpperPieces(mode: Mode, s: string)
    ensures Pieces(mode, ToUpper(s)) == UpperAll(Pieces(mode, s))
    decreases |s|
  {
    if s == "" {
      assert ToUpper(s) == "" && UpperAll([""]) == [""];
    } else {
      UpperDrop(s, 1);
      if mode.Outside? && s[0] == ';' {
        var rest := Pieces(Outside, s[1..]);
        UpperPieces(Outside, s[1..]);
        assert ToUpper("") == "";
        assert UpperAll([""] + rest) == [""] + UpperAll(rest);
      } else {
        var rest := Pieces(Toggle(mode, s[0]), s[1..]);
        UpperPieces(Toggle(mode, s[0]), s[1..]);
        UpperGlue([s[0]], rest);
        assert ToUpper([s[0]]) == [ToUpper(s)[0]];
      }
    }
  }

  lemma UpperCheckTrimmed(s: string)
    ensures CheckTrimmed(ToUpper(s)).Accepted? == CheckTrimmed(s).Accepted?
  {
    UpperTrimStart(s);
    UpperTrimEnd(TrimStart(s));
    UpperCheckSingle(Trim(s));
  }

  lemma {:induction false} UpperFirstError(pieces: seq<string>)
    ensures FirstError(UpperAll(pieces), CheckTrimmed).Accepted? == FirstError(pieces, CheckTrimmed).Accepted?
  {
    if pieces != [] {
      var upper := UpperAll(pieces);
      assert upper[0] == ToUpper(pieces[0]) && upper[1..] == UpperAll(pieces[1..]);
      UpperCheckTrimmed(pieces[0]);
      UpperFirstError(pieces[1..]);
    }
  }

  /** Letter case never decides: a batch passes exactly when its upper-case form does. */
  lemma {:induction false} VerdictIgnoresCase(sql: string)
    ensures AssertReadonly(ToUpper(sql)).Accepted? == AssertReadonly(sql).Accepted?
  {
    CheckPieces(sql);
    CheckPieces(ToUpper(sql));
    UpperPieces(Outside, sql);
    UpperFirstError(Pieces(Outside, sql));
  }
}
