/** Ranking tables for a description: relevance to a hint, the foreign-key boost, a stable sort.

The boost loop reads the scores it is updating, so a table boosted to the top score early in the
list counts as a top table for the rest of the loop.  The exact condition under which it still is
the simultaneous update its comment describes is `BoostIsSimultaneousExactly`.
*/
module Ranking {
  import opened Prelude
  import opened StableSort
  import opened SchemaModel
  import opened HintRelevance

  /** A score after one boost. */
  function Lifted(score: nat): nat {
    SaturatingAdd(score, 5, U32_MAX)
  }

  // ----- Scores ----------------------------------------------------------------------------------

  function Scores(tables: seq<Table>, hint: string, lower: string -> string): (r: seq<nat>)
    ensures |r| == |tables| && forall i :: 0 <= i < |r| ==> r[i] <= U32_MAX
  {
    seq(|tables|, i requires 0 <= i < |tables| => Relevance(tables[i], lower(hint), lower))
  }

  // ----- Foreign keys --------------------------------------------------------------------------

  /** Some foreign key of `a` names `b`, bare or qualified, whatever the case. */
  predicate RefersTo(a: Table, b: Table, lower: string -> string) {
    exists fk :: fk in a.foreignKeys &&
      (lower(fk.referencedTable) == lower(b.name) || lower(fk.referencedTable) == lower(b.QualifiedName()))
  }

  predicate Linked(a: Table, b: Table, lower: string -> string) {
    RefersTo(a, b, lower) || RefersTo(b, a, lower)
  }

  function Top(scores: seq<nat>): (m: nat)
    ensures forall i :: 0 <= i < |scores| ==> scores[i] <= m
    ensures scores != [] ==> exists i :: 0 <= i < |scores| && scores[i] == m
    ensures scores == [] ==> m == 0
  {
    if scores == [] then 0
    else
      var rest := Top(scores[..|scores| - 1]);
      if |scores| == 1 || scores[|scores| - 1] > rest then scores[|scores| - 1] else rest
  }

  // ----- The boost -----------------------------------------------------------------------------

  /** What the loop tests for table `i`: it names an original top table, or a table whose current
      score is the top score names it. */
  predicate SeenLinked(tables: seq<Table>, original: seq<nat>, current: seq<nat>, i: nat, lower: string -> string)
    requires |tables| == |original| == |current| && i < |tables|
  {
    || (exists j :: 0 <= j < |tables| && original[j] == Top(original) && RefersTo(tables[i], tables[j], lower))
    || (exists j :: 0 <= j < |tables| && current[j] == Top(original) && RefersTo(tables[j], tables[i], lower))
  }

  /** The scores after the loop has handled the first `n` tables. */
  function BoostedUpTo(tables: seq<Table>, scores: seq<nat>, n: nat, lower: string -> string): (r: seq<nat>)
    requires |tables| == |scores| && n <= |tables|
    ensures |r| == |scores|
  {
    if n == 0 then scores
    else
      var current := BoostedUpTo(tables, scores, n - 1, lower);
      if current[n - 1] != Top(scores) && SeenLinked(tables, scores, current, n - 1, lower)
      then current[n - 1 := Lifted(current[n - 1])]
      else current
  }

  function Boosted(tables: seq<Table>, scores: seq<nat>, lower: string -> string): (r: seq<nat>)
    requires |tables| == |scores|
    ensures |r| == |scores|
  {
    if Top(scores) > 0 then BoostedUpTo(tables, scores, |tables|, lower) else scores
  }

  /** A table one foreign key away from a top table, in either direction. */
  predicate OneHop(tables: seq<Table>, scores: seq<nat>, i: nat, lower: string -> string)
    requires |tables| == |scores| && i < |tables|
  {
    exists j :: 0 <= j < |tables| && scores[j] == Top(scores) && Linked(tables[i], tables[j], lower)
  }

  predicate IsCompanion(tables: seq<Table>, scores: seq<nat>, i: nat, lower: string -> string)
    requires |tables| == |scores| && i < |tables|
  {
    scores[i] != Top(scores) && OneHop(tables, scores, i, lower)
  }

  /** The simultaneous update: 5 more for every companion, judged on the original scores alone. */
  function Simultaneous(tables: seq<Table>, scores: seq<nat>, lower: string -> string): (r: seq<nat>)
    requires |tables| == |scores|
    ensures |r| == |scores|
  {
    seq(|scores|, i requires 0 <= i < |scores| =>
      if Top(scores) > 0 && IsCompanion(tables, scores, i, lower) then Lifted(scores[i]) else scores[i])
  }

  /** A companion `i` that the boost lifts to exactly the top score, with a later table `j` that `i`
      names and that no top table is linked to. */
  predicate Cascades(tables: seq<Table>, scores: seq<nat>, i: nat, j: nat, lower: string -> string)
    requires |tables| == |scores|
  {
    && i < j < |tables|
    && IsCompanion(tables, scores, i, lower) && Lifted(scores[i]) == Top(scores)
    && scores[j] != Top(scores) && !OneHop(tables, scores, j, lower)
    && RefersTo(tables[i], tables[j], lower)
  }

  ghost predicate NoCascade(tables: seq<Table>, scores: seq<nat>, lower: string -> string)
    requires |tables| == |scores|
  {
    forall i: nat, j: nat :: !Cascades(tables, scores, i, j, lower)
  }

  /** Lower-cased bare and qualified names of the top tables. */
  method CollectTopNames(tables: seq<Table>, scores: seq<nat>, top: nat, lower: string -> string)
    returns (names: seq<string>)
    requires |scores| == |tables|
    ensures forall s :: s in names <==>
      exists j :: 0 <= j < |tables| && scores[j] == top
        && (s == lower(tables[j].name) || s == lower(tables[j].QualifiedName()))
  {
    names := [];
    for i := 0 to |tables|
      invariant forall s :: s in names <==>
        exists j :: 0 <= j < i && scores[j] == top
          && (s == lower(tables[j].name) || s == lower(tables[j].QualifiedName()))
    {
      if scores[i] == top {
        names := names + [lower(tables[i].name), lower(tables[i].QualifiedName())];
      }
    }
  }

  /** Outgoing or incoming foreign key, against the current scores. */
  method IsLinked(tables: seq<Table>, ghost original: seq<nat>, current: seq<nat>, idx: nat, top: nat,
                  topNames: seq<string>, lower: string -> string) returns (linked: bool)
    requires |tables| == |original| == |current| && idx < |tables| && top == Top(original)
    requires forall s :: s in topNames <==>
      exists j :: 0 <= j < |tables| && original[j] == top
        && (s == lower(tables[j].name) || s == lower(tables[j].QualifiedName()))
    ensures linked == SeenLinked(tables, original, current, idx, lower)
  {
    var t := tables[idx];
    var outgoing := exists fk :: fk in t.foreignKeys && lower(fk.referencedTable) in topNames;
    var incoming := exists j :: 0 <= j < |tables| && current[j] == top && RefersTo(tables[j], t, lower);
    linked := outgoing || incoming;
  }

  /** The loop, in place on the score vector. */
  method BoostInPlace(tables: seq<Table>, scores: array<nat>, lower: string -> string)
    requires scores.Length == |tables|
    modifies scores
    ensures scores[..] == Boosted(tables, old(scores[..]), lower)
  {
    ghost var original := scores[..];
    var top := Top(scores[..]);
    if top == 0 {
      return;
    }
    var topNames := CollectTopNames(tables, scores[..], top, lower);
    for idx := 0 to |tables|
      invariant scores[..] == BoostedUpTo(tables, original, idx, lower)
    {
      if scores[idx] == top {
        continue;
      }
      var current := scores[..];
      var linked := IsLinked(tables, original, current, idx, top, topNames, lower);
      if linked {
        scores[idx] := Lifted(scores[idx]);
        assert scores[..] == current[idx := Lifted(current[idx])];
      }
    }
  }

  // ----- The loop against the simultaneous update ------------------------------------------------

  /** The loop touches each score at most once, in its own turn. */
  lemma {:induction false} TouchedInTurn(tables: seq<Table>, scores: seq<nat>, n: nat, m: nat, k: nat,
                                         lower: string -> string)
    requires |tables| == |scores| && n <= m <= |tables| && k < |scores|
    ensures k < n ==> BoostedUpTo(tables, scores, n, lower)[k] == BoostedUpTo(tables, scores, m, lower)[k]
    ensures k >= m ==> BoostedUpTo(tables, scores, m, lower)[k] == scores[k]
    decreases m
  {
    if n < m {
      TouchedInTurn(tables, scores, n, m - 1, k, lower);
    } else if m > 0 {
      TouchedInTurn(tables, scores, m - 1, m - 1, k, lower);
    }
  }

  /** Top tables keep their score, and so stay visible as top to every later turn. */
  lemma {:induction false} TopUntouched(tables: seq<Table>, scores: seq<nat>, n: nat, k: nat, lower: string -> string)
    requires |tables| == |scores| && n <= |tables| && k < |scores| && scores[k] == Top(scores)
    ensures BoostedUpTo(tables, scores, n, lower)[k] == scores[k]
  {
    if n > 0 {
      TopUntouched(tables, scores, n - 1, k, lower);
      assert BoostedUpTo(tables, scores, n - 1, lower)[k] == Top(scores);
    }
  }

  /** A companion is always seen. */
  lemma OneHopIsSeen(tables: seq<Table>, scores: seq<nat>, n: nat, i: nat, lower: string -> string)
    requires |tables| == |scores| && n <= |tables| && i < |tables| && OneHop(tables, scores, i, lower)
    ensures SeenLinked(tables, scores, BoostedUpTo(tables, scores, n, lower), i, lower)
  {
    var j :| 0 <= j < |tables| && scores[j] == Top(scores) && Linked(tables[i], tables[j], lower);
    TopUntouched(tables, scores, n, j, lower);
  }

  ghost predicate AgreeUpTo(tables: seq<Table>, scores: seq<nat>, n: nat, lower: string -> string)
    requires |tables| == |scores| && n <= |tables|
  {
    forall k :: 0 <= k < n ==> BoostedUpTo(tables, scores, n, lower)[k] == Simultaneous(tables, scores, lower)[k]
  }

  /** Without a cascade, what the loop sees at its turn is the one-hop relation. */
  lemma {:induction false} SeenIsOneHop(tables: seq<Table>, scores: seq<nat>, k: nat, lower: string -> string)
    requires |tables| == |scores| && k < |tables| && scores[k] != Top(scores) && Top(scores) > 0
    requires AgreeUpTo(tables, scores, k, lower) && NoCascade(tables, scores, lower)
    ensures SeenLinked(tables, scores, BoostedUpTo(tables, scores, k, lower), k, lower) <==>
      OneHop(tables, scores, k, lower)
  {
    var current := BoostedUpTo(tables, scores, k, lower);
    if OneHop(tables, scores, k, lower) {
      OneHopIsSeen(tables, scores, k, k, lower);
    } else if exists j :: 0 <= j < |tables| && current[j] == Top(scores) && RefersTo(tables[j], tables[k], lower) {
      var j :| 0 <= j < |tables| && current[j] == Top(scores) && RefersTo(tables[j], tables[k], lower);
      TouchedInTurn(tables, scores, k, k, j, lower);
      assert scores[j] == Top(scores) ==> Linked(tables[k], tables[j], lower);
      assert Cascades(tables, scores, j, k, lower);
    }
  }

  lemma {:induction false} AgreeAt(tables: seq<Table>, scores: seq<nat>, k: nat, lower: string -> string)
    requires |tables| == |scores| && k < |tables| && Top(scores) > 0
    requires NoCascade(tables, scores, lower)
    requires AgreeUpTo(tables, scores, k, lower)
    ensures BoostedUpTo(tables, scores, k + 1, lower)[k] == Simultaneous(tables, scores, lower)[k]
  {
    TouchedInTurn(tables, scores, k, k, k, lower);
    if scores[k] != Top(scores) { SeenIsOneHop(tables, scores, k, lower); }
  }

  /** Without a cascade the loop agrees with the simultaneous update turn by turn. */
  lemma {:induction false} NoCascadeUpTo(tables: seq<Table>, scores: seq<nat>, n: nat, lower: string -> string)
    requires |tables| == |scores| && n <= |tables| && Top(scores) > 0 && NoCascade(tables, scores, lower)
    ensures AgreeUpTo(tables, scores, n, lower)
  {
    if n > 0 {
      var m := n - 1;
      NoCascadeUpTo(tables, scores, m, lower);
      AgreeAt(tables, scores, m, lower);
      forall k | 0 <= k < n
        ensures BoostedUpTo(tables, scores, n, lower)[k] == Simultaneous(tables, scores, lower)[k]
      {
        if k < m { TouchedInTurn(tables, scores, m, n, k, lower); }
      }
    }
  }

  /** What the loop leaves at `k`, by what it sees when it gets there. */
  lemma {:induction false} BoostedAt(tables: seq<Table>, scores: seq<nat>, k: nat, lower: string -> string)
    requires |tables| == |scores| && k < |scores| && Top(scores) > 0
    ensures Boosted(tables, scores, lower)[k] ==
      if scores[k] != Top(scores) && SeenLinked(tables, scores, BoostedUpTo(tables, scores, k, lower), k, lower)
      then Lifted(scores[k]) else scores[k]
  {
    TouchedInTurn(tables, scores, k, k, k, lower);
    TouchedInTurn(tables, scores, k + 1, |tables|, k, lower);
  }

  /** A cascade shows: either the companion is left where it was, or its own neighbour is lifted. */
  lemma {:induction false} CascadeShows(tables: seq<Table>, scores: seq<nat>, i: nat, j: nat, lower: string -> string)
    requires |tables| == |scores| && Top(scores) > 0 && forall k :: 0 <= k < |scores| ==> scores[k] <= U32_MAX
    requires Cascades(tables, scores, i, j, lower)
    ensures Boosted(tables, scores, lower) != Simultaneous(tables, scores, lower)
  {
    var current := BoostedUpTo(tables, scores, j, lower);
    if Boosted(tables, scores, lower)[i] == Simultaneous(tables, scores, lower)[i] {
      TouchedInTurn(tables, scores, j, |tables|, i, lower);
      assert current[i] == Top(scores) && RefersTo(tables[i], tables[j], lower);
      BoostedAt(tables, scores, j, lower);
      assert Boosted(tables, scores, lower)[j] > Simultaneous(tables, scores, lower)[j];
    }
  }

  /** The in-place loop is the simultaneous update if and only if there is no cascade. */
  lemma {:induction false} BoostIsSimultaneousExactly(tables: seq<Table>, scores: seq<nat>, lower: string -> string)
    requires |tables| == |scores| && forall k :: 0 <= k < |scores| ==> scores[k] <= U32_MAX
    ensures Boosted(tables, scores, lower) == Simultaneous(tables, scores, lower) <==>
      Top(scores) == 0 || NoCascade(tables, scores, lower)
  {
    if Top(scores) > 0 {
      if i: nat, j: nat :| Cascades(tables, scores, i, j, lower) {
        CascadeShows(tables, scores, i, j, lower);
      } else {
        NoCascadeUpTo(tables, scores, |tables|, lower);
      }
    }
  }

  /** In particular when no table starts five below the top (or is saturated into it). */
  lemma {:induction false} NoTableJustBelowTop(tables: seq<Table>, scores: seq<nat>, lower: string -> string)
    requires |tables| == |scores| && forall k :: 0 <= k < |scores| ==> scores[k] <= U32_MAX
    requires forall k :: 0 <= k < |scores| && scores[k] != Top(scores) ==> Lifted(scores[k]) != Top(scores)
    ensures Boosted(tables, scores, lower) == Simultaneous(tables, scores, lower)
  {
    BoostIsSimultaneousExactly(tables, scores, lower);
  }

  /** The loop never gives less than the simultaneous update, never more than 5, and never touches
      a top table. */
  lemma {:induction false} BoostBounds(tables: seq<Table>, scores: seq<nat>, k: nat, lower: string -> string)
    requires |tables| == |scores| && k < |scores| && scores[k] <= U32_MAX
    ensures scores[k] == Top(scores) ==> Boosted(tables, scores, lower)[k] == scores[k]
    ensures Simultaneous(tables, scores, lower)[k] <= Boosted(tables, scores, lower)[k] <= Lifted(scores[k])
  {
    if Top(scores) > 0 {
      BoostedAt(tables, scores, k, lower);
      if IsCompanion(tables, scores, k, lower) { OneHopIsSeen(tables, scores, k, k, lower); }
    }
  }

  /** The simultaneous update does not depend on the order of the tables: permuting the tables with
      their scores permutes the result. */
  lemma {:induction false} SimultaneousIgnoresOrder(tables: seq<Table>, scores: seq<nat>, p: seq<nat>,
                                                    lower: string -> string)
    requires |tables| == |scores| == |p|
    requires forall i :: 0 <= i < |p| ==> p[i] < |p|
    requires forall j :: 0 <= j < |p| ==> j in p
    ensures var ts := seq(|p|, i requires 0 <= i < |p| => tables[p[i]]);
      var ss := seq(|p|, i requires 0 <= i < |p| => scores[p[i]]);
      forall i :: 0 <= i < |p| ==>
        Simultaneous(ts, ss, lower)[i] == Simultaneous(tables, scores, lower)[p[i]]
  {
    var ts := seq(|p|, i requires 0 <= i < |p| => tables[p[i]]);
    var ss := seq(|p|, i requires 0 <= i < |p| => scores[p[i]]);
    if p != [] {
      var a :| 0 <= a < |scores| && scores[a] == Top(scores);
      assert a in p;
      var b :| 0 <= b < |p| && p[b] == a;
      assert ss[b] == Top(scores);
    }
    assert Top(ss) == Top(scores);
    forall i | 0 <= i < |p| ensures OneHop(ts, ss, i, lower) <==> OneHop(tables, scores, p[i], lower) {
      if OneHop(ts, ss, i, lower) {
        var j :| 0 <= j < |p| && ss[j] == Top(ss) && Linked(ts[i], ts[j], lower);
        assert scores[p[j]] == Top(scores) && Linked(tables[p[i]], tables[p[j]], lower);
      }
      if OneHop(tables, scores, p[i], lower) {
        var j :| 0 <= j < |tables| && scores[j] == Top(scores) && Linked(tables[p[i]], tables[j], lower);
        assert j in p;
        var k :| 0 <= k < |p| && p[k] == j;
        assert ss[k] == Top(ss) && Linked(ts[i], ts[k], lower);
      }
    }
  }

  // ----- The ranking -----------------------------------------------------------------------------

  datatype Ranked = Ranked(score: nat, index: nat, table: Table)

  predicate ScoreGe(a: Ranked, b: Ranked) {
    a.score >= b.score
  }

  /** Ahead in the ranking: a higher score, or the same score and an earlier position. */
  predicate Ahead(a: Ranked, b: Ranked) {
    a.score > b.score || (a.score == b.score && a.index <= b.index)
  }

  function Indexed(tables: seq<Table>, scores: seq<nat>): seq<Ranked>
    requires |tables| == |scores|
  {
    seq(|tables|, i requires 0 <= i < |tables| => Ranked(scores[i], i, tables[i]))
  }

  function Rank(tables: seq<Table>, scores: seq<nat>): seq<Ranked>
    requires |tables| == |scores|
  {
    Sort(Indexed(tables, scores), ScoreGe)
  }

  lemma {:induction false} FirstAhead(x: Ranked, xs: seq<Ranked>)
    requires StrictlySorted(xs, Ahead) && (xs != [] ==> Ahead(x, xs[0]) && !Ahead(xs[0], x))
    ensures StrictlySorted([x] + xs, Ahead)
  {
    forall j | 0 <= j < |xs| ensures Ahead(x, xs[j]) && !Ahead(xs[j], x) {
      assert j > 0 ==> Ahead(xs[0], xs[j]) && !Ahead(xs[j], xs[0]);
    }
  }

  lemma {:induction false} InsertAhead(x: Ranked, xs: seq<Ranked>)
    requires StrictlySorted(xs, Ahead) && forall y :: y in xs ==> x.index < y.index
    ensures StrictlySorted(Insert(x, xs, ScoreGe), Ahead)
  {
    if xs == [] || ScoreGe(x, xs[0]) {
      FirstAhead(x, xs);
    } else {
      InsertAhead(x, xs[1..]);
      FirstAhead(xs[0], Insert(x, xs[1..], ScoreGe));
    }
  }

  lemma {:induction false} SortAhead(xs: seq<Ranked>)
    requires forall i, j :: 0 <= i < j < |xs| ==> xs[i].index < xs[j].index
    ensures StrictlySorted(Sort(xs, ScoreGe), Ahead)
  {
    if xs != [] {
      SortAhead(xs[1..]);
      SortIsPermutation(xs[1..], ScoreGe);
      forall y | y in Sort(xs[1..], ScoreGe) ensures xs[0].index < y.index {
        assert y in ToSet(xs[1..]);
        var i :| 0 <= i < |xs[1..]| && xs[1..][i] == y;
        assert xs[i + 1] == y;
      }
      InsertAhead(xs[0], Sort(xs[1..], ScoreGe));
    }
  }

  /** The ranking lists every table once, by falling score and, among equals, in the given order;
      no other list does. */
  lemma RankIsTheStableOrder(tables: seq<Table>, scores: seq<nat>, other: seq<Ranked>)
    requires |tables| == |scores|
    ensures multiset(Rank(tables, scores)) == multiset(Indexed(tables, scores))
    ensures StrictlySorted(Rank(tables, scores), Ahead)
    ensures StrictlySorted(other, Ahead) && ToSet(other) == ToSet(Indexed(tables, scores)) ==>
      other == Rank(tables, scores)
  {
    SortIsPermutation(Indexed(tables, scores), ScoreGe);
    SortAhead(Indexed(tables, scores));
    if StrictlySorted(other, Ahead) && ToSet(other) == ToSet(Indexed(tables, scores)) {
      StrictlySortedUnique(other, Rank(tables, scores), Ahead);
    }
  }
}
