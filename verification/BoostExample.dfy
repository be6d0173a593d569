/** Three tables and a hint for which the order of the tables alone decides what the boost does. */
module BoostExample {
  import opened Prelude
  import opened Text
  import opened SchemaModel
  import opened HintRelevance
  import opened Ranking

  predicate IsLowerCase(s: string) {
    forall i :: 0 <= i < |s| ==> 'a' <= s[i] <= 'z' || s[i] == '_'
  }

  /** What is needed of `to_lowercase`: it leaves ASCII text in lower case alone. */
  ghost predicate KeepsLowerCase(lower: string -> string) {
    forall s :: IsLowerCase(s) ==> lower(s) == s
  }

  function PlainColumn(name: string): Column {
    Column(name, "integer", true, None, None, None, false, None)
  }

  function PlainTable(name: string, columns: seq<string>, keys: seq<ForeignKey>): Table {
    Table(None, name, None, seq(|columns|, i requires 0 <= i < |columns| => PlainColumn(columns[i])), None, keys, None)
  }

  const HINT := "orders"
  const LINE_COLUMNS := ["orders_id", "orders_year", "orders_month", "orders_day", "orders_line", "part"]

  /** Named by the hint. */
  function Orders(): Table {
    PlainTable("orders", ["id"], [])
  }

  /** Not named by the hint, but five of its columns are; it refers to both other tables. */
  function Lines(): Table {
    PlainTable("lines", LINE_COLUMNS,
               [ForeignKey(["orders_id"], "orders", ["id"]), ForeignKey(["part"], "parts", ["id"])])
  }

  /** Neither named nor linked to a named table. */
  function Parts(): Table {
    PlainTable("parts", ["id"], [])
  }

  // ----- Their scores ------------------------------------------------------------------------------

  lemma {:induction false} OneWord(s: string)
    requires s != "" && forall i :: 0 <= i < |s| ==> !IsWhitespace(s[i])
    ensures SplitWhitespace(s) == [s]
  {
    if |s| > 1 {
      OneWord(s[1..]);
      assert [s[0]] + s[1..] == s;
    } else {
      assert SplitWhitespace(s[1..]) == [] && [s[0]] == s;
    }
  }

  lemma HitAtStart(name: string, word: string, lower: string -> string)
    requires lower(name) == name && StartsWith(name, word)
    ensures Hit(name, word, lower)
  {
  }

  lemma NoHitInShorter(name: string, word: string, lower: string -> string)
    requires lower(name) == name && |name| < |word|
    ensures !Hit(name, word, lower)
  {
  }

  /** Columns one after another: so many begin with the word, the others are shorter than it. */
  lemma {:induction false} CountHits(columns: seq<Column>, word: string, n: nat, lower: string -> string)
    requires n <= |columns| && forall i :: 0 <= i < |columns| ==> lower(columns[i].name) == columns[i].name
    requires forall i :: 0 <= i < n ==> StartsWith(columns[i].name, word)
    requires forall i :: n <= i < |columns| ==> |columns[i].name| < |word|
    ensures ColumnHits(columns, word, lower) == n
  {
    if columns != [] {
      var k := |columns| - 1;
      if k < n {
        CountHits(columns[..k], word, n - 1, lower);
        HitAtStart(columns[k].name, word, lower);
      } else {
        CountHits(columns[..k], word, n, lower);
        NoHitInShorter(columns[k].name, word, lower);
      }
    }
  }

  lemma {:induction false} OneWordScore(t: Table, word: string, lower: string -> string)
    ensures WordsScore(t, [word], lower) == WordScore(t, word, lower)
  {
    assert [word][..0] == [];
  }

  lemma {:induction false} HintIsOneWord(hint: string, lower: string -> string)
    requires KeepsLowerCase(lower) && IsLowerCase(hint) && hint != ""
    ensures lower(hint) == hint && SplitWhitespace(lower(hint)) == [hint]
  {
    OneWord(hint);
  }

  lemma {:induction false} OneWordRelevance(t: Table, hint: string, n: nat, lower: string -> string)
    requires KeepsLowerCase(lower) && IsLowerCase(hint) && hint != ""
    requires t.schema.None? && IsLowerCase(t.name) && (t.name == hint || |t.name| < |hint|)
    requires n <= |t.columns| <= 6 && forall i :: 0 <= i < |t.columns| ==> IsLowerCase(t.columns[i].name)
    requires forall i :: 0 <= i < n ==> StartsWith(t.columns[i].name, hint)
    requires forall i :: n <= i < |t.columns| ==> |t.columns[i].name| < |hint|
    ensures Relevance(t, lower(hint), lower) == (if t.name == hint then 10 else 0) + n
  {
    HintIsOneWord(hint, lower);
    OneWordScore(t, hint, lower);
    WordScoreIs(t, hint, n, lower);
  }

  lemma {:induction false} WordScoreIs(t: Table, hint: string, n: nat, lower: string -> string)
    requires KeepsLowerCase(lower) && hint != ""
    requires t.schema.None? && IsLowerCase(t.name) && (t.name == hint || |t.name| < |hint|)
    requires n <= |t.columns| && forall i :: 0 <= i < |t.columns| ==> IsLowerCase(t.columns[i].name)
    requires forall i :: 0 <= i < n ==> StartsWith(t.columns[i].name, hint)
    requires forall i :: n <= i < |t.columns| ==> |t.columns[i].name| < |hint|
    ensures WordScore(t, hint, lower) == (if t.name == hint then 10 else 0) + n
  {
    CountHits(t.columns, hint, n, lower);
    if t.name == hint {
      HitAtStart(t.name, hint, lower);
    } else {
      NoHitInShorter(t.name, hint, lower);
    }
  }

  lemma {:induction false} OrdersScore(lower: string -> string)
    requires KeepsLowerCase(lower)
    ensures Relevance(Orders(), lower(HINT), lower) == 10
  {
    OneWordRelevance(Orders(), HINT, 0, lower);
  }

  lemma {:induction false} LinesScore(lower: string -> string)
    requires KeepsLowerCase(lower)
    ensures Relevance(Lines(), lower(HINT), lower) == 5
  {
    OneWordRelevance(Lines(), HINT, 5, lower);
  }

  lemma {:induction false} PartsScore(lower: string -> string)
    requires KeepsLowerCase(lower)
    ensures Relevance(Parts(), lower(HINT), lower) == 0
  {
    OneWordRelevance(Parts(), HINT, 0, lower);
  }

  // ----- The boost in two orders ---------------------------------------------------------------------

  lemma {:induction false} ScoresOfThree(a: Table, b: Table, c: Table, hint: string, lower: string -> string)
    ensures Scores([a, b, c], hint, lower) ==
      [Relevance(a, lower(hint), lower), Relevance(b, lower(hint), lower), Relevance(c, lower(hint), lower)]
  {
  }

  /** The simultaneous update, in either order: only the table that refers to the top one is lifted. */
  lemma {:induction false} SimultaneousOfThree(ts: seq<Table>, ss: seq<nat>, lower: string -> string)
    requires |ts| == |ss| == 3 && ss[0] == 10 && ss[1] < 10 && ss[2] < 10
    ensures Simultaneous(ts, ss, lower) ==
      [10, if Linked(ts[1], ts[0], lower) then ss[1] + 5 else ss[1],
       if Linked(ts[2], ts[0], lower) then ss[2] + 5 else ss[2]]
  {
  }

  /** Behind the table that refers to both, the unrelated table is boosted as well. */
  lemma {:induction false} BehindIsBoosted(top: Table, mid: Table, leaf: Table, lower: string -> string)
    requires RefersTo(mid, top, lower) && RefersTo(mid, leaf, lower) && !Linked(leaf, top, lower)
    ensures Boosted([top, mid, leaf], [10, 5, 0], lower) == [10, 10, 5]
    ensures Simultaneous([top, mid, leaf], [10, 5, 0], lower) == [10, 10, 0]
  {
    var ts, ss := [top, mid, leaf], [10, 5, 0];
    SimultaneousOfThree(ts, ss, lower);
    BoostedAt(ts, ss, 0, lower);
    BoostedAt(ts, ss, 1, lower);
    assert ss[0] == Top(ss) && RefersTo(ts[1], ts[0], lower);
    TouchedInTurn(ts, ss, 2, 3, 1, lower);
    assert BoostedUpTo(ts, ss, 2, lower)[1] == Top(ss) && RefersTo(ts[1], ts[2], lower);
    BoostedAt(ts, ss, 2, lower);
  }

  /** In front of it, it is not. */
  lemma {:induction false} InFrontIsNotBoosted(top: Table, mid: Table, leaf: Table, lower: string -> string)
    requires RefersTo(mid, top, lower) && !Linked(leaf, top, lower)
    ensures Boosted([top, leaf, mid], [10, 0, 5], lower) == [10, 0, 10]
    ensures Simultaneous([top, leaf, mid], [10, 0, 5], lower) == [10, 0, 10]
  {
    var ts, ss := [top, leaf, mid], [10, 0, 5];
    SimultaneousOfThree(ts, ss, lower);
    BoostedAt(ts, ss, 0, lower);
    assert BoostedUpTo(ts, ss, 0, lower) == ss && BoostedUpTo(ts, ss, 1, lower) == ss;
    BoostedAt(ts, ss, 1, lower);
    assert ss[0] == Top(ss) && RefersTo(ts[2], ts[0], lower);
    BoostedAt(ts, ss, 2, lower);
  }

  /** One hint, the same three tables: listed last, `parts` ends with a score of 5, which no
      simultaneous update gives it. */
  lemma {:induction false} PartsListedLast(lower: string -> string)
    requires KeepsLowerCase(lower)
    ensures var ts := [Orders(), Lines(), Parts()]; var scores := Scores(ts, HINT, lower);
      && scores == [10, 5, 0]
      && Boosted(ts, scores, lower) == [10, 10, 5]
      && Simultaneous(ts, scores, lower) == [10, 10, 0]
  {
    OrdersScore(lower);
    LinesScore(lower);
    PartsScore(lower);
    var orders, lines, parts := Orders(), Lines(), Parts();
    ScoresOfThree(orders, lines, parts, HINT, lower);
    BehindIsBoosted(orders, lines, parts, lower);
  }

  /** Listed in front of `lines`, it keeps its 0, and the boost is the simultaneous update. */
  lemma {:induction false} PartsListedBefore(lower: string -> string)
    requires KeepsLowerCase(lower)
    ensures var ts := [Orders(), Parts(), Lines()]; var scores := Scores(ts, HINT, lower);
      scores == [10, 0, 5] && Boosted(ts, scores, lower) == Simultaneous(ts, scores, lower) == [10, 0, 10]
  {
    OrdersScore(lower);
    LinesScore(lower);
    PartsScore(lower);
    var orders, lines, parts := Orders(), Lines(), Parts();
    ScoresOfThree(orders, parts, lines, HINT, lower);
    InFrontIsNotBoosted(orders, lines, parts, lower);
  }
}
