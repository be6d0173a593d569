/** How well a table matches a hint: ten for each word in its name, one for each column a word is in. */
module HintRelevance {
  import opened Prelude
  import opened SchemaModel
  import opened Text

  const U32_MAX := 0xFFFF_FFFF

  /** `lower` is the program's lower-casing. */
  predicate Hit(name: string, word: string, lower: string -> string) {
    word == "" || Find(lower(name), word).Some?
  }

  function ColumnHits(columns: seq<Column>, word: string, lower: string -> string): nat {
    if columns == [] then 0
    else
      ColumnHits(columns[..|columns| - 1], word, lower)
      + if Hit(columns[|columns| - 1].name, word, lower) then 1 else 0
  }

  function WordScore(t: Table, word: string, lower: string -> string): nat {
    (if Hit(t.QualifiedName(), word, lower) then 10 else 0) + ColumnHits(t.columns, word, lower)
  }

  function WordsScore(t: Table, words: seq<string>, lower: string -> string): nat {
    if words == [] then 0
    else WordsScore(t, words[..|words| - 1], lower) + WordScore(t, words[|words| - 1], lower)
  }

  /** The score is a 32-bit counter. */
  function Wrap(n: nat): nat {
    n % (U32_MAX + 1)
  }

  function Relevance(t: Table, hint: string, lower: string -> string): nat {
    Wrap(WordsScore(t, SplitWhitespace(hint), lower))
  }

  lemma WrapAdd(a: nat, b: nat)
    ensures Wrap(Wrap(a) + b) == Wrap(a + b)
  {
  }

  lemma {:induction false} ColumnHitsNext(columns: seq<Column>, word: string, j: nat, lower: string -> string)
    requires j < |columns|
    ensures ColumnHits(columns[..j + 1], word, lower) ==
      ColumnHits(columns[..j], word, lower) + if Hit(columns[j].name, word, lower) then 1 else 0
  {
    assert columns[..j + 1][..j] == columns[..j];
  }

  /** The inner loop, on a counter that stands at `Wrap(before)`. */
  method AddColumnHits(columns: seq<Column>, word: string, ghost before: nat, start: nat, lower: string -> string)
    returns (score: nat)
    requires start == Wrap(before)
    ensures score == Wrap(before + ColumnHits(columns, word, lower))
  {
    score := start;
    for j := 0 to |columns|
      invariant score == Wrap(before + ColumnHits(columns[..j], word, lower))
    {
      ColumnHitsNext(columns, word, j, lower);
      WrapAdd(before + ColumnHits(columns[..j], word, lower), 1);
      if Hit(columns[j].name, word, lower) {
        score := Wrap(score + 1);
      }
    }
    assert columns[..|columns|] == columns;
  }

  /** One word's share, on a counter that stands at `Wrap(before)`. */
  method AddWord(t: Table, word: string, ghost before: nat, start: nat, lower: string -> string) returns (score: nat)
    requires start == Wrap(before)
    ensures score == Wrap(before + WordScore(t, word, lower))
  {
    score := start;
    ghost var named := before;
    if Hit(t.QualifiedName(), word, lower) {
      WrapAdd(before, 10);
      score := Wrap(score + 10);
      named := before + 10;
    }
    score := AddColumnHits(t.columns, word, named, score, lower);
  }

  method RelevanceLoop(t: Table, hint: string, lower: string -> string) returns (score: nat)
    ensures score == Relevance(t, hint, lower)
  {
    var words := SplitWhitespace(hint);
    score := 0;
    for i := 0 to |words|
      invariant score == Wrap(WordsScore(t, words[..i], lower))
    {
      assert words[..i + 1][..i] == words[..i];
      score := AddWord(t, words[i], WordsScore(t, words[..i], lower), score, lower);
    }
    assert words[..|words|] == words;
  }

  /** A word hits a name exactly if it stands somewhere in the lower-cased name. */
  lemma HitExactly(name: string, word: string, lower: string -> string)
    ensures Hit(name, word, lower) <==> exists i :: StandsAt(lower(name), word, i)
  {
    if word == "" {
      assert StandsAt(lower(name), word, 0);
    } else {
      FindExactly(lower(name), word);
    }
  }

  // ----- Counting hits -----------------------------------------------------------------------------

  /** Which words are in the table's name. */
  function NameHitSet(t: Table, words: seq<string>, lower: string -> string): set<nat> {
    set i: nat | i < |words| && Hit(t.QualifiedName(), words[i], lower)
  }

  /** Which columns hold the word. */
  function ColumnHitSet(columns: seq<Column>, word: string, lower: string -> string): set<nat> {
    set j: nat | j < |columns| && Hit(columns[j].name, word, lower)
  }

  /** Which word is in which column. */
  function PairHitSet(columns: seq<Column>, words: seq<string>, lower: string -> string): set<(nat, nat)> {
    set i: nat, j: nat | i < |words| && j < |columns| && Hit(columns[j].name, words[i], lower) :: (i, j)
  }

  lemma {:induction false} ColumnHitsCount(columns: seq<Column>, word: string, lower: string -> string)
    ensures ColumnHits(columns, word, lower) == |ColumnHitSet(columns, word, lower)|
  {
    if columns != [] {
      var n := |columns| - 1;
      ColumnHitsCount(columns[..n], word, lower);
      var before := ColumnHitSet(columns[..n], word, lower);
      assert ColumnHitSet(columns, word, lower) == if Hit(columns[n].name, word, lower) then before + {n} else before;
    }
  }

  /** The pairs of one word with each of its columns. */
  function Row(i: nat, js: set<nat>): set<(nat, nat)> {
    set j | j in js :: (i, j)
  }

  lemma RowSize(i: nat, js: set<nat>)
    ensures |Row(i, js)| == |js|
    decreases js
  {
    if js != {} {
      var k :| k in js;
      RowSize(i, js - {k});
      assert Row(i, js) == Row(i, js - {k}) + {(i, k)};
      assert (i, k) !in Row(i, js - {k});
    }
  }

  lemma PairsByWord(columns: seq<Column>, words: seq<string>, lower: string -> string)
    requires words != []
    ensures var n := |words| - 1;
      |PairHitSet(columns, words, lower)| ==
      |PairHitSet(columns, words[..n], lower)| + |ColumnHitSet(columns, words[n], lower)|
  {
    var n := |words| - 1;
    var pairs, row := PairHitSet(columns, words[..n], lower), Row(n, ColumnHitSet(columns, words[n], lower));
    RowSize(n, ColumnHitSet(columns, words[n], lower));
    assert PairHitSet(columns, words, lower) == pairs + row;
    assert pairs !! row;
  }

  lemma NamesByWord(t: Table, words: seq<string>, lower: string -> string)
    requires words != []
    ensures var n := |words| - 1;
      |NameHitSet(t, words, lower)| ==
      |NameHitSet(t, words[..n], lower)| + if Hit(t.QualifiedName(), words[n], lower) then 1 else 0
  {
    var n := |words| - 1;
    var names := NameHitSet(t, words[..n], lower);
    assert NameHitSet(t, words, lower) == if Hit(t.QualifiedName(), words[n], lower) then names + {n} else names;
  }

  /** Over any words, in any order: ten times the words found in the name and one for every pair of a
      word and a column that holds it. */
  lemma {:induction false} ScoreCountsHits(t: Table, words: seq<string>, lower: string -> string)
    ensures WordsScore(t, words, lower) == 10 * |NameHitSet(t, words, lower)| + |PairHitSet(t.columns, words, lower)|
  {
    if words == [] {
      assert NameHitSet(t, words, lower) == {} && PairHitSet(t.columns, words, lower) == {};
    } else {
      ScoreCountsHits(t, words[..|words| - 1], lower);
      ColumnHitsCount(t.columns, words[|words| - 1], lower);
      NamesByWord(t, words, lower);
      PairsByWord(t.columns, words, lower);
    }
  }
}
