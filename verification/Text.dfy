/** Text: characters, white space, searching, and decimal numbers.

Text is a sequence of Unicode scalar values.  Every scanner of the program looks for ASCII bytes
only, and no byte of a longer UTF-8 sequence is ASCII, so scanning bytes and scanning characters
find the same positions.
*/
module Text {
  import opened Prelude

  /** The Unicode White_Space property, as `char::is_whitespace` has it. */
  predicate IsWhitespace(c: char) {
    || '\U{0009}' <= c <= '\U{000D}'
    || c == ' ' || c == '\U{0085}' || c == '\U{00A0}' || c == '\U{1680}'
    || '\U{2000}' <= c <= '\U{200A}'
    || c == '\U{2028}' || c == '\U{2029}' || c == '\U{202F}' || c == '\U{205F}' || c == '\U{3000}'
  }

  function TrimStart(s: string): (r: string)
    ensures |r| <= |s|
  {
    if s != "" && IsWhitespace(s[0]) then TrimStart(s[1..]) else s
  }

  function TrimEnd(s: string): (r: string)
    ensures |r| <= |s|
  {
    if s != "" && IsWhitespace(s[|s| - 1]) then TrimEnd(s[..|s| - 1]) else s
  }

  function Trim(s: string): string {
    TrimEnd(TrimStart(s))
  }

  predicate StartsWith(s: string, prefix: string) {
    |prefix| <= |s| && s[..|prefix|] == prefix
  }

  /** Position of the first occurrence of a non-empty text. */
  function Find(s: string, needle: string): (r: Option<nat>)
    requires needle != ""
    ensures r.Some? ==> r.value + |needle| <= |s|
  {
    if |s| < |needle| then None
    else if StartsWith(s, needle) then Some(0)
    else match Find(s[1..], needle)
      case None => None
      case Some(i) => Some(i + 1)
  }

  /** The text stands at that position. */
  predicate StandsAt(s: string, needle: string, i: int) {
    0 <= i <= |s| - |needle| && s[i..i + |needle|] == needle
  }

  lemma {:induction false} FindExactly(s: string, needle: string)
    requires needle != ""
    ensures match Find(s, needle)
      case Some(i) => StandsAt(s, needle, i) && forall j :: 0 <= j < i ==> !StandsAt(s, needle, j)
      case None => forall j :: !StandsAt(s, needle, j)
  {
    if |s| >= |needle| && !StartsWith(s, needle) {
      FindExactly(s[1..], needle);
      forall j | 0 < j ensures StandsAt(s, needle, j) <==> StandsAt(s[1..], needle, j - 1) {
        if j <= |s| - |needle| { assert s[1..][j - 1..j - 1 + |needle|] == s[j..j + |needle|]; }
      }
    }
  }

  /** The maximal runs of characters that are not white space. */
  function SplitWhitespace(s: string): seq<string> {
    if s == "" then []
    else if IsWhitespace(s[0]) then SplitWhitespace(s[1..])
    else
      var rest := SplitWhitespace(s[1..]);
      if |s| == 1 || IsWhitespace(s[1]) then [[s[0]]] + rest
      else if rest == [] then [[s[0]]] else [[s[0]] + rest[0]] + rest[1..]
  }

  predicate Blank(s: string) {
    forall i :: 0 <= i < |s| ==> IsWhitespace(s[i])
  }

  predicate IsToken(s: string) {
    s != "" && forall i :: 0 <= i < |s| ==> !IsWhitespace(s[i])
  }

  /** White space in front is skipped, and a run of other characters that ends there is the first word:
      the two cases that make up every text. */
  lemma {:induction false} WordSplitsOff(gap: string, word: string, rest: string)
    requires Blank(gap) && IsToken(word) && (rest == "" || IsWhitespace(rest[0]))
    ensures SplitWhitespace(gap) == []
    ensures SplitWhitespace(gap + (word + rest)) == [word] + SplitWhitespace(rest)
    decreases |gap| + |word|
  {
    var s := gap + (word + rest);
    if gap != "" {
      assert s[0] == gap[0] && s[1..] == gap[1..] + (word + rest);
      WordSplitsOff(gap[1..], word, rest);
    } else {
      assert s == word + rest && s[0] == word[0] && s[1..] == word[1..] + rest;
      if |word| > 1 {
        WordSplitsOff("", word[1..], rest);
        assert "" + (word[1..] + rest) == s[1..] && s[1] == word[1];
        assert [word[0]] + word[1..] == word;
      } else {
        assert s[1..] == rest && [s[0]] == word;
      }
    }
  }

  /** Pieces put together. */
  function Concat(pieces: seq<string>): string {
    FlatMap(pieces, Whole)
  }

  function Whole(piece: string): string {
    piece
  }

  lemma {:induction false} ConcatAppend(a: seq<string>, b: seq<string>)
    ensures Concat(a + b) == Concat(a) + Concat(b)
  {
    FlatMapAppend(a, b, Whole);
  }

  function Join(pieces: seq<string>, separator: string): string {
    if pieces == [] then ""
    else if |pieces| == 1 then pieces[0]
    else pieces[0] + separator + Join(pieces[1..], separator)
  }

  function Replace(s: string, c: char, text: string): string {
    if s == "" then "" else (if s[0] == c then text else [s[0]]) + Replace(s[1..], c, text)
  }

  // ----- Decimal numbers -----------------------------------------------------------------------

  predicate IsDigit(c: char) {
    '0' <= c <= '9'
  }

  function Decimal(n: nat): string {
    (if n < 10 then "" else Decimal(n / 10)) + [((n % 10) + '0' as int) as char]
  }

  function ValueOf(digits: string): nat
    requires forall c :: c in digits ==> IsDigit(c)
  {
    if digits == "" then 0
    else
      var last := digits[|digits| - 1];
      assert last in digits && IsDigit(last);
      ValueOf(digits[..|digits| - 1]) * 10 + (last as int - '0' as int)
  }

  lemma {:induction false} DecimalRoundTrip(n: nat)
    ensures Decimal(n) != ""
    ensures forall c :: c in Decimal(n) ==> IsDigit(c)
    ensures ValueOf(Decimal(n)) == n
  {
    if n >= 10 {
      DecimalRoundTrip(n / 10);
      assert Decimal(n)[..|Decimal(n)| - 1] == Decimal(n / 10);
    } else {
      assert Decimal(n)[..0] == "";
    }
  }
}
