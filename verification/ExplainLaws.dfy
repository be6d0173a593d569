/** `EXPLAIN`: judged as the statement it explains, whatever modifiers, letter case and white space
stand in front of it. */
module ExplainLaws {
  import opened Prelude
  import opened Text
  import opened SqlSafety
  import opened SqlSafetyLaws

  predicate IsWord(word: string) {
    word != "" && forall i :: 0 <= i < |word| ==> IsAsciiAlpha(word[i])
  }

  /** Something other than white space comes first. */
  predicate VisibleFirst(t: string) {
    t != "" && !IsWhitespace(t[0])
  }

  // A modifier with the white space behind it; `FORMAT` takes a value.
  datatype Modifier =
    | Flag(word: string, gap: string)
    | Format(word: string, gap: string, value: string, after: string)

  function ModifierText(m: Modifier): string {
    match m
    case Flag(word, gap) => word + gap
    case Format(word, gap, value, after) => word + (gap + (value + after))
  }

  function ModifiersText(ms: seq<Modifier>): string {
    if ms == [] then "" else ModifierText(ms[0]) + ModifiersText(ms[1..])
  }

  /** A modifier in any letter case, with its words kept apart from each other and from `rest`. */
  predicate ModifierOk(m: Modifier, rest: string) {
    match m
    case Flag(word, gap) =>
      (ToUpper(word) == "ANALYZE" || ToUpper(word) == "VERBOSE") && Blank(gap) && NoLetterFirst(gap + rest)
    case Format(word, gap, value, after) =>
      ToUpper(word) == "FORMAT" && gap != "" && Blank(gap) && IsWord(value) && Blank(after)
        && NoLetterFirst(after + rest)
  }

  predicate ModifiersOk(ms: seq<Modifier>, s: string) {
    ms == [] || (ModifierOk(ms[0], ModifiersText(ms[1..]) + s) && ModifiersOk(ms[1..], s))
  }

  /** What `EXPLAIN` can be followed by when all modifiers have been read. */
  predicate NoModifierFirst(s: string) {
    var word := ToUpper(s[..KeywordLength(s)]);
    VisibleFirst(s) && word != "ANALYZE" && word != "VERBOSE" && word != "FORMAT"
  }

  // ----- Words and white space -----------------------------------------------------------------------

  lemma {:induction false} TrimBlank(gap: string, rest: string)
    requires Blank(gap) && VisibleFirst(rest)
    ensures TrimStart(gap + rest) == rest
  {
    if gap == "" {
      assert gap + rest == rest;
    } else {
      assert (gap + rest)[0] == gap[0] && (gap + rest)[1..] == gap[1..] + rest;
      TrimBlank(gap[1..], rest);
    }
  }

  lemma {:induction false} UpperIsWord(word: string)
    requires IsWord(ToUpper(word))
    ensures IsWord(word)
  {
    forall i | 0 <= i < |word| ensures IsAsciiAlpha(word[i]) {
      assert IsAsciiAlpha(ToUpper(word)[i]);
    }
  }

  /** A word that ends where white space or something else begins. */
  lemma {:induction false} WordThenGap(word: string, gap: string, rest: string)
    requires IsWord(word) && Blank(gap) && VisibleFirst(rest) && NoLetterFirst(gap + rest)
    ensures var s := word + (gap + rest);
      KeywordLength(s) == |word| && s[..|word|] == word && TrimStart(s[|word|..]) == rest
  {
    var s := word + (gap + rest);
    assert s[..|word|] == word && s[|word|..] == gap + rest;
    FirstWordLength(s, word);
    TrimBlank(gap, rest);
  }

  // ----- Modifiers ---------------------------------------------------------------------------------

  lemma {:induction false} WordSkipped(s: string, word: string)
    requires word != "" && KeywordLength(s) == |word| && s[..|word|] == word
    requires ToUpper(word) == "ANALYZE" || ToUpper(word) == "VERBOSE"
    ensures SkipWords(s) == SkipWords(TrimStart(s[|word|..]))
  {
  }

  lemma {:induction false} FlagSkipped(word: string, gap: string, rest: string)
    requires ModifierOk(Flag(word, gap), rest) && VisibleFirst(rest)
    ensures SkipWords((word + gap) + rest) == SkipWords(rest)
  {
    var s := word + (gap + rest);
    assert (word + gap) + rest == s;
    assert SkipWords(s) == SkipWords(rest) by {
      UpperIsWord(word);
      WordThenGap(word, gap, rest);
      WordSkipped(s, word);
    }
  }

  lemma {:induction false} FormatSkipped(word: string, gap: string, value: string, after: string, rest: string)
    requires ModifierOk(Format(word, gap, value, after), rest) && VisibleFirst(rest)
    ensures SkipWords((word + (gap + (value + after))) + rest) == SkipWords(rest)
  {
    var t := value + (after + rest);
    var s := word + (gap + t);
    assert (word + (gap + (value + after))) + rest == s;
    assert SkipWords(s) == SkipWords(rest) by {
      assert t[0] == value[0];
      UpperIsWord(word);
      WordThenGap(word, gap, t);
      WordThenGap(value, after, rest);
    }
  }

  lemma {:induction false} ModifierSkipped(m: Modifier, rest: string)
    requires ModifierOk(m, rest) && VisibleFirst(rest)
    ensures SkipWords(ModifierText(m) + rest) == SkipWords(rest)
  {
    match m
    case Flag(word, gap) => FlagSkipped(word, gap, rest);
    case Format(word, gap, value, after) => FormatSkipped(word, gap, value, after, rest);
  }

  lemma {:induction false} ModifierVisible(m: Modifier, rest: string)
    requires ModifierOk(m, rest)
    ensures VisibleFirst(ModifierText(m) + rest)
  {
    UpperIsWord(m.word);
    assert (ModifierText(m) + rest)[0] == m.word[0];
  }

  /** Modifiers in front of a statement are skipped, however many there are, and nothing else is. */
  lemma {:induction false} ModifiersSkipped(ms: seq<Modifier>, s: string)
    requires ModifiersOk(ms, s) && NoModifierFirst(s)
    ensures SkipWords(ModifiersText(ms) + s) == s
    ensures VisibleFirst(ModifiersText(ms) + s)
  {
    if ms == [] {
      assert ModifiersText(ms) + s == s;
    } else {
      var rest := ModifiersText(ms[1..]) + s;
      assert ModifiersText(ms) + s == ModifierText(ms[0]) + rest;
      ModifiersSkipped(ms[1..], s);
      ModifierSkipped(ms[0], rest);
      ModifierVisible(ms[0], rest);
    }
  }

  // ----- The statement explained -------------------------------------------------------------------

  lemma {:induction false} ExplainWord(t: string, word: string, after: string)
    requires t == word + after && ToUpper(word) == "EXPLAIN" && NoLetterFirst(after)
    ensures KeywordLength(t) == |word| && t[..|word|] == word && t[|word|..] == after
  {
    assert IsWord(ToUpper(word));
    UpperIsWord(word);
    FirstWordLength(t, word);
  }

  /** Judged as what it explains. */
  lemma {:induction false} ExplainJudged(x: string, word: string, after: string, s: string)
    requires StripNoise(x) == word + after && ToUpper(word) == "EXPLAIN" && NoLetterFirst(after)
    requires s == SkipModifiers(TrimStart(after)) && s != ""
    ensures CheckSingle(x) == CheckSingle(s)
  {
    ExplainWord(StripNoise(x), word, after);
  }

  /** `EXPLAIN` with any modifiers is judged as the statement it explains: in any letter case, behind any
      comments, with any white space, whatever the statement is. */
  lemma {:induction false} ExplainIsTransparent(x: string, explain: string, gap: string, ms: seq<Modifier>, s: string)
    requires ToUpper(explain) == "EXPLAIN" && Blank(gap)
    requires ModifiersOk(ms, s) && NoModifierFirst(s) && !StartsWith(ModifiersText(ms) + s, "(")
    requires NoLetterFirst(gap + (ModifiersText(ms) + s))
    requires StripNoise(x) == explain + (gap + (ModifiersText(ms) + s))
    ensures CheckSingle(x) == CheckSingle(s)
  {
    var rest := ModifiersText(ms) + s;
    ModifiersSkipped(ms, s);
    TrimBlank(gap, rest);
    assert TrimStart(rest) == rest;
    ExplainJudged(x, explain, gap + rest, s);
  }

  lemma {:induction false} OptionsSkipped(options: string, gap: string, rest: string)
    requires ')' !in options && Blank(gap) && VisibleFirst(rest)
    ensures SkipModifiers("(" + (options + ")" + (gap + rest))) == SkipWords(rest)
  {
    var inner := options + ")" + (gap + rest);
    var t := "(" + inner;
    assert t[0] == '(' && t[1..] == inner && TrimStart(t) == t && t[..1] == "(";
    forall i | 0 <= i < |options| ensures !StartsWith(inner[i..], ")") {
      assert inner[i..][0] == options[i];
    }
    FindFirst(options, ")", gap + rest);
    assert inner[|options| + 1..] == gap + rest;
    TrimBlank(gap, rest);
  }

  /** So is `EXPLAIN` with a parenthesised list of options, with or without modifiers behind it. */
  lemma {:induction false} ExplainOptionsTransparent(x: string, explain: string, gap: string, options: string,
                                                     gap2: string, ms: seq<Modifier>, s: string)
    requires ToUpper(explain) == "EXPLAIN" && Blank(gap) && ')' !in options && Blank(gap2)
    requires ModifiersOk(ms, s) && NoModifierFirst(s)
    requires StripNoise(x) == explain + (gap + ("(" + (options + ")" + (gap2 + (ModifiersText(ms) + s)))))
    ensures CheckSingle(x) == CheckSingle(s)
  {
    var rest := ModifiersText(ms) + s;
    var list := "(" + (options + ")" + (gap2 + rest));
    ModifiersSkipped(ms, s);
    assert list[0] == '(' && (gap + list)[0] == if gap == "" then '(' else gap[0];
    TrimBlank(gap, list);
    OptionsSkipped(options, gap2, rest);
    ExplainJudged(x, explain, gap + list, s);
  }
}
