/** Which statements the read-only filter lets pass, word by word. */
module ReadonlyVerdicts {
  import opened Prelude
  import opened Text
  import opened SqlSafety
  import opened SqlSafetyLaws

  /** The statement inside a nest of `EXPLAIN`s. */
  function Innermost(s: string): string
    decreases |s|
  {
    var word := FirstWord(StripNoise(s));
    if ToUpper(word) == "EXPLAIN" && Explained(s) != "" then Innermost(Explained(s)) else s
  }

  function FirstWord(s: string): string {
    s[..KeywordLength(s)]
  }

  lemma {:induction false} WordRun(s: string)
    ensures forall i :: 0 <= i < KeywordLength(s) ==> IsAsciiAlpha(s[i])
    ensures KeywordLength(s) < |s| ==> !IsAsciiAlpha(s[KeywordLength(s)])
  {
    if s != "" && IsAsciiAlpha(s[0]) {
      WordRun(s[1..]);
      assert forall i :: 0 < i < KeywordLength(s) ==> s[i] == s[1..][i - 1];
    }
  }

  /** The run of letters at the front, if there is one, is the first word. */
  lemma FirstWordIsFirst(s: string)
    ensures FirstWord(s) == "" <==> NoLetterFirst(s)
    ensures FirstWord(s) != "" ==> HasFirstWord(s, FirstWord(s))
  {
    WordRun(s);
  }

  /** A statement passes exactly if, inside all its `EXPLAIN`s and behind white space and comments, it
      starts with one of six words in any letter case; a refusal quotes the first 80 characters there. */
  lemma {:induction false} AcceptedExactly(s: string)
    ensures CheckSingle(s).Accepted? <==>
      ToUpper(FirstWord(StripNoise(Innermost(s)))) in {"SELECT", "WITH", "EXPLAIN", "SHOW", "DESCRIBE", "DESC"}
    ensures CheckSingle(s).Refused? ==>
      |CheckSingle(s).preview| <= 80 && CheckSingle(s).preview <= Innermost(s)
      && (CheckSingle(s).preview == Innermost(s) || |CheckSingle(s).preview| == 80)
    decreases |s|
  {
    var word := FirstWord(StripNoise(s));
    if ToUpper(word) == "EXPLAIN" && Explained(s) != "" {
      AcceptedExactly(Explained(s));
    }
  }

  /** A batch passes exactly if every statement that is not blank starts with such a word. */
  lemma {:induction false} BatchAcceptedExactly(sql: string)
    ensures AssertReadonly(sql).Accepted? <==>
      forall s :: s in Statements(sql) && Trim(s) != "" ==>
        ToUpper(FirstWord(StripNoise(Innermost(Trim(s)))))
          in {"SELECT", "WITH", "EXPLAIN", "SHOW", "DESCRIBE", "DESC"}
  {
    BatchVerdict(sql);
    forall s: string { AcceptedExactly(Trim(s)); }
  }
}
