/** The budgeted description: rank the tables, render, and give up one thing at a time until the
text fits. */
module DescribeBudget {
  import opened Prelude
  import opened SchemaModel
  import opened Ranking
  import opened SchemaRendering
  import opened Subsequences
  import opened StableSort

  datatype Description = Fits(text: string, tokens: nat) | TokenBudget(needed: nat, budget: nat)

  // ----- Which tables, in which order --------------------------------------------------------------

  /** The tables named by the caller, as often as named, or all of them. */
  function Named(db: Database, names: seq<string>): seq<Table> {
    if names == [] then []
    else
      var found := FindTable(db.tables, names[|names| - 1]);
      Named(db, names[..|names| - 1]) + if found.Some? then [db.tables[found.value]] else []
  }

  function Selected(db: Database, opts: Options): seq<Table> {
    match opts.tables case Some(names) => Named(db, names) case None => db.tables
  }

  function TablesOf(ranked: seq<Ranked>): seq<Table> {
    seq(|ranked|, i requires 0 <= i < |ranked| => ranked[i].table)
  }

  function Ordered(tables: seq<Table>, opts: Options, lower: string -> string): (r: seq<Table>)
    ensures |r| == |tables|
  {
    match opts.hint
    case None => tables
    case Some(hint) =>
      var scores := Boosted(tables, Scores(tables, hint, lower), lower);
      SortIsPermutation(Indexed(tables, scores), ScoreGe);
      TablesOf(Rank(tables, scores))
  }

  predicate Answered(tables: seq<Table>, name: string) {
    exists t :: t in tables && AnswersTo(t, name)
  }

  /** The names some table answers to, in the order given. */
  function Known(tables: seq<Table>, names: seq<string>): seq<string> {
    if names == [] then []
    else (if Answered(tables, names[0]) then [names[0]] else []) + Known(tables, names[1..])
  }

  ghost predicate FirstAnswer(tables: seq<Table>, name: string, t: Table) {
    exists i ::
      && 0 <= i < |tables| && tables[i] == t && AnswersTo(t, name)
      && forall j :: 0 <= j < i ==> !AnswersTo(tables[j], name)
  }

  lemma {:induction false} KnownAppend(tables: seq<Table>, names: seq<string>, name: string)
    ensures Known(tables, names + [name]) ==
      Known(tables, names) + if Answered(tables, name) then [name] else []
  {
    var more := if Answered(tables, name) then [name] else [];
    if names == [] {
      assert (names + [name])[1..] == [] && more + Known(tables, []) == more;
    } else {
      var first := if Answered(tables, names[0]) then [names[0]] else [];
      KnownAppend(tables, names[1..], name);
      assert (names + [name])[1..] == names[1..] + [name];
      assert first + (Known(tables, names[1..]) + more) == first + Known(tables, names[1..]) + more;
    }
  }

  lemma {:induction false} NamedAreFirstAnswers(db: Database, names: seq<string>)
    ensures |Named(db, names)| == |Known(db.tables, names)|
    ensures forall k :: 0 <= k < |Named(db, names)| ==>
      FirstAnswer(db.tables, Known(db.tables, names)[k], Named(db, names)[k])
  {
    if names != [] {
      var before, name := names[..|names| - 1], names[|names| - 1];
      NamedAreFirstAnswers(db, before);
      KnownAppend(db.tables, before, name);
      assert names == before + [name];
      var found := FindTable(db.tables, name);
      if found.Some? {
        assert db.tables[found.value] in db.tables && Answered(db.tables, name);
        assert FirstAnswer(db.tables, name, db.tables[found.value]);
      }
    }
  }

  /** Asked for names, exactly the first answer to each name that some table answers to is described, in
      the order and as often as named; asked for none, every table.  Only a hint changes the order. */
  lemma {:induction false} SelectedExactly(db: Database, opts: Options, lower: string -> string)
    ensures opts.hint.None? ==> Ordered(Selected(db, opts), opts, lower) == Selected(db, opts)
    ensures opts.tables.None? ==> Selected(db, opts) == db.tables
    ensures opts.tables.Some? ==>
      var known, selected := Known(db.tables, opts.tables.value), Selected(db, opts);
      |selected| == |known| && forall k :: 0 <= k < |known| ==> FirstAnswer(db.tables, known[k], selected[k])
  {
    if opts.tables.Some? { NamedAreFirstAnswers(db, opts.tables.value); }
  }

  // ----- The chain of fallbacks --------------------------------------------------------------------

  datatype Stage = Stage(levels: Levels, tables: seq<Table>)

  function ChainLength(n: nat): nat {
    LEVELS + 1 + if n > 1 then n - 1 else 0
  }

  /** Fallback `i`: the first levels off one after another, then the last tables one after another. */
  function ChainAt(tables: seq<Table>, i: nat): Stage
    requires i < ChainLength(|tables|)
  {
    Stage(seq(LEVELS, k requires 0 <= k < LEVELS => k >= i),
          if i <= LEVELS then tables else tables[..|tables| - (i - LEVELS)])
  }

  function TextOf(s: Stage, opts: Options, percent: real -> string): string {
    Render(s.tables, ShownAt(s.levels, opts), percent)
  }

  function TextAt(tables: seq<Table>, opts: Options, percent: real -> string, i: nat): string
    requires i < ChainLength(|tables|)
  {
    TextOf(ChainAt(tables, i), opts, percent)
  }

  /** Position of the first flag still on. */
  function FirstOn(levels: seq<bool>): (n: nat)
    ensures n <= |levels| && (n < |levels| ==> levels[n]) && forall k :: 0 <= k < n ==> !levels[k]
  {
    if levels == [] || levels[0] then 0 else 1 + FirstOn(levels[1..])
  }

  /** `drop_one_level`: the first flag still on goes off, else the last table of several goes. */
  function OneDropped(s: Stage): Option<Stage> {
    var n := FirstOn(s.levels);
    if n < LEVELS then Some(s.(levels := s.levels[n := false]))
    else if |s.tables| > 1 then Some(s.(tables := s.tables[..|s.tables| - 1]))
    else None
  }

  method DropOneLevel(levels: array<bool>, tables: seq<Table>) returns (dropped: bool, rest: seq<Table>)
    requires levels.Length == LEVELS
    modifies levels
    ensures var next := OneDropped(Stage(old(levels[..]), tables));
      dropped == next.Some? && Stage(levels[..], rest) == if dropped then next.value else Stage(old(levels[..]), tables)
  {
    ghost var n := FirstOn(levels[..]);
    for i := 0 to LEVELS
      invariant levels[..] == old(levels[..]) && i <= n
    {
      if levels[i] {
        levels[i] := false;
        assert levels[..] == old(levels[..])[n := false];
        return true, tables;
      }
    }
    if |tables| > 1 {
      return true, tables[..|tables| - 1];
    }
    return false, tables;
  }

  /** One fallback leads to the next; the last one has none. */
  lemma ChainStep(tables: seq<Table>, i: nat)
    requires i < ChainLength(|tables|)
    ensures OneDropped(ChainAt(tables, i)) ==
      if i + 1 < ChainLength(|tables|) then Some(ChainAt(tables, i + 1)) else None
  {
    var s := ChainAt(tables, i);
    var n := FirstOn(s.levels);
    if i < LEVELS {
      assert s.levels[i] && n == i;
      assert s.levels[i := false] == ChainAt(tables, i + 1).levels;
    } else {
      assert n == LEVELS;
      if i + 1 < ChainLength(|tables|) {
        assert s.levels == ChainAt(tables, i + 1).levels;
        assert s.tables[..|s.tables| - 1] == ChainAt(tables, i + 1).tables;
      }
    }
  }

  /** What each fallback gives up: samples, then examples, comments, keys and columns past the eighth,
      and only then tables; never what the caller did not ask for in the first place. */
  lemma FallbackGivesUp(tables: seq<Table>, opts: Options, i: nat)
    requires i < ChainLength(|tables|)
    ensures ShownAt(ChainAt(tables, i).levels, opts) ==
      Shown(opts.includeSamples && i == 0, opts.includeExamples && i <= 1, i <= 2,
            opts.includeForeignKeys && i <= 3, i <= 4)
    ensures ChainAt(tables, i).tables == tables[..|tables| - if i <= 5 then 0 else i - 5]
  {
  }

  /** The first fallback whose text is within budget, or an error with the size of the last. */
  ghost predicate FirstFit(tables: seq<Table>, opts: Options, percent: real -> string, tokenizer: string -> nat,
                           r: Description)
  {
    match r
    case Fits(text, tokens) =>
      tokens <= opts.maxTokens && tokens == tokenizer(text)
      && exists i: nat ::
        && i < ChainLength(|tables|) && text == TextAt(tables, opts, percent, i)
        && NoneBefore(tables, opts, percent, tokenizer, i)
    case TokenBudget(needed, budget) =>
      budget == opts.maxTokens && NoneBefore(tables, opts, percent, tokenizer, ChainLength(|tables|))
      && needed == tokenizer(TextAt(tables, opts, percent, ChainLength(|tables|) - 1))
  }

  ghost predicate NoneBefore(tables: seq<Table>, opts: Options, percent: real -> string, tokenizer: string -> nat,
                             n: nat)
    requires n <= ChainLength(|tables|)
  {
    forall k: nat :: k < n ==> tokenizer(TextAt(tables, opts, percent, k)) > opts.maxTokens
  }

  lemma FitsHere(tables: seq<Table>, opts: Options, percent: real -> string, tokenizer: string -> nat, i: nat,
                 text: string)
    requires i < ChainLength(|tables|) && NoneBefore(tables, opts, percent, tokenizer, i)
    requires text == TextAt(tables, opts, percent, i)
    ensures tokenizer(text) <= opts.maxTokens ==>
      FirstFit(tables, opts, percent, tokenizer, Fits(text, tokenizer(text)))
    ensures tokenizer(text) > opts.maxTokens ==> NoneBefore(tables, opts, percent, tokenizer, i + 1)
    ensures tokenizer(text) > opts.maxTokens && i + 1 == ChainLength(|tables|) ==>
      FirstFit(tables, opts, percent, tokenizer, TokenBudget(tokenizer(text), opts.maxTokens))
  {
  }

  method RenderStage(levels: array<bool>, tables: seq<Table>, opts: Options, percent: real -> string)
    returns (text: string)
    requires levels.Length == LEVELS
    ensures text == TextOf(Stage(levels[..], tables), opts, percent)
  {
    text := RenderTables(tables, ShownAt(levels[..], opts), percent);
  }

  /** The truncation loop; what is left of the chain decreases. */
  method Truncate(ranked: seq<Table>, opts: Options, percent: real -> string, tokenizer: string -> nat)
    returns (r: Description)
    ensures FirstFit(ranked, opts, percent, tokenizer, r)
  {
    var levels := new bool[LEVELS](_ => true);
    var tables := ranked;
    ghost var i: nat := 0;
    assert levels[..] == ChainAt(ranked, 0).levels;
    while true
      invariant i < ChainLength(|ranked|) && Stage(levels[..], tables) == ChainAt(ranked, i)
      invariant NoneBefore(ranked, opts, percent, tokenizer, i)
      decreases ChainLength(|ranked|) - i
    {
      var text := RenderStage(levels, tables, opts, percent);
      FitsHere(ranked, opts, percent, tokenizer, i, text);
      var tokens := tokenizer(text);
      if tokens <= opts.maxTokens {
        return Fits(text, tokens);
      }
      ChainStep(ranked, i);
      var dropped;
      dropped, tables := DropOneLevel(levels, tables);
      if !dropped {
        return TokenBudget(tokens, opts.maxTokens);
      }
      i := i + 1;
    }
  }

  /** `describe_for_agent`. */
  method DescribeForAgent(db: Database, opts: Options, lower: string -> string, percent: real -> string,
                          tokenizer: string -> nat)
    returns (r: Description)
    ensures FirstFit(Ordered(Selected(db, opts), opts, lower), opts, percent, tokenizer, r)
  {
    var tables := Selected(db, opts);
    if opts.hint.Some? {
      var initial := Scores(tables, opts.hint.value, lower);
      var scores := new nat[|tables|](i requires 0 <= i < |tables| => initial[i]);
      assert scores[..] == initial;
      BoostInPlace(tables, scores, lower);
      tables := TablesOf(Rank(tables, scores[..]));
    }
    r := Truncate(tables, opts, percent, tokenizer);
  }

  // ----- What the result means -----------------------------------------------------------------------

  /** It fails exactly when no fallback fits, for any tokenizer. */
  lemma {:induction false} FailsExactlyWhenNothingFits(tables: seq<Table>, opts: Options, percent: real -> string,
                                                       tokenizer: string -> nat, r: Description)
    requires FirstFit(tables, opts, percent, tokenizer, r)
    ensures r.TokenBudget? <==>
      forall i: nat :: i < ChainLength(|tables|) ==> tokenizer(TextAt(tables, opts, percent, i)) > opts.maxTokens
  {
  }

  lemma {:induction false} OnlyOneFirst(tables: seq<Table>, opts: Options, percent: real -> string,
                                        tokenizer: string -> nat, i: nat, j: nat)
    requires i < ChainLength(|tables|) && j < ChainLength(|tables|)
    requires NoneBefore(tables, opts, percent, tokenizer, i) && NoneBefore(tables, opts, percent, tokenizer, j)
    requires tokenizer(TextAt(tables, opts, percent, i)) <= opts.maxTokens
    requires tokenizer(TextAt(tables, opts, percent, j)) <= opts.maxTokens
    ensures i == j
  {
  }

  /** The result is determined: no two results are both the first fit. */
  lemma {:induction false} FirstFitUnique(tables: seq<Table>, opts: Options, percent: real -> string,
                                          tokenizer: string -> nat, a: Description, b: Description)
    requires FirstFit(tables, opts, percent, tokenizer, a) && FirstFit(tables, opts, percent, tokenizer, b)
    ensures a == b
  {
    FailsExactlyWhenNothingFits(tables, opts, percent, tokenizer, a);
    FailsExactlyWhenNothingFits(tables, opts, percent, tokenizer, b);
    if a.Fits? && b.Fits? {
      var i: nat :| i < ChainLength(|tables|) && a.text == TextAt(tables, opts, percent, i)
        && NoneBefore(tables, opts, percent, tokenizer, i);
      var j: nat :| j < ChainLength(|tables|) && b.text == TextAt(tables, opts, percent, j)
        && NoneBefore(tables, opts, percent, tokenizer, j);
      OnlyOneFirst(tables, opts, percent, tokenizer, i, j);
    }
  }

  lemma ChainShowsLess(tables: seq<Table>, opts: Options, i: nat, j: nat)
    requires i <= j < ChainLength(|tables|)
    ensures ShowsLess(ShownAt(ChainAt(tables, j).levels, opts), ShownAt(ChainAt(tables, i).levels, opts))
    ensures ChainAt(tables, j).tables <= ChainAt(tables, i).tables
  {
  }

  /** Each fallback's text is a subsequence of every earlier one's. */
  lemma FallbacksOnlyLose(tables: seq<Table>, opts: Options, percent: real -> string, i: nat, j: nat)
    requires i <= j < ChainLength(|tables|)
    ensures Subseq(TextAt(tables, opts, percent, j), TextAt(tables, opts, percent, i))
  {
    ChainShowsLess(tables, opts, i, j);
    var a, b := ChainAt(tables, i), ChainAt(tables, j);
    RenderingOnlyLoses(b.tables, a.tables, ShownAt(b.levels, opts), ShownAt(a.levels, opts), percent);
  }

  /** With a hint, a described table is never ranked below one that was dropped: what is described is
      a prefix of the stable order by boosted score, and it is never empty unless nothing was selected. */
  lemma {:induction false} DropsLowestRanked(tables: seq<Table>, hint: string, opts: Options, lower: string -> string,
                                             i: nat, kept: nat, gone: nat)
    requires opts.hint == Some(hint)
    requires i < ChainLength(|tables|)
    requires kept < |ChainAt(Ordered(tables, opts, lower), i).tables| <= gone < |tables|
    ensures var ranked := Rank(tables, Boosted(tables, Scores(tables, hint, lower), lower));
      && |ranked| == |tables|
      && ChainAt(Ordered(tables, opts, lower), i).tables[kept] == ranked[kept].table
      && Ahead(ranked[kept], ranked[gone]) && !Ahead(ranked[gone], ranked[kept])
  {
    var scores := Boosted(tables, Scores(tables, hint, lower), lower);
    var ranked := Rank(tables, scores);
    SortIsPermutation(Indexed(tables, scores), ScoreGe);
    RankIsTheStableOrder(tables, scores, []);
  }

  /** The last table is never dropped. */
  lemma KeepsOneTable(tables: seq<Table>, i: nat)
    requires i < ChainLength(|tables|) && tables != []
    ensures ChainAt(tables, i).tables != []
  {
  }
}
