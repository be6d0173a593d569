/** Reading rows off a live cursor until their estimated token cost reaches the budget.

Sizes are 64-bit and saturate; a row costs three tenths of its bytes, rounded down.
*/
module Streaming {
  import opened Prelude
  import opened LiteralStrip
  import opened RowRendering

  const USIZE_MAX := 0xFFFF_FFFF_FFFF_FFFF

  function AddSize(a: nat, b: nat): nat {
    SaturatingAdd(a, b, USIZE_MAX)
  }

  /** `estimate_tokens_from_bytes`. */
  function EstimateTokens(bytes: nat): nat {
    (if bytes * 3 > USIZE_MAX then USIZE_MAX else bytes * 3) / 10
  }

  // What the cursor delivers: a row with its column names, or an error that ends the stream.
  datatype Row = Row(names: seq<string>, cells: seq<string>)

  function RowBytes(cells: seq<string>): nat {
    if cells == [] then 0 else AddSize(RowBytes(cells[..|cells| - 1]), |Utf8All(cells[|cells| - 1])|)
  }

  function RowCost(row: Row): nat {
    EstimateTokens(RowBytes(row.cells))
  }

  /** Cost of a run of rows, added up as the loop does. */
  function Cost(rows: seq<Row>): nat {
    if rows == [] then 0 else AddSize(Cost(rows[..|rows| - 1]), RowCost(rows[|rows| - 1]))
  }

  function CellsOf(rows: seq<Row>): seq<seq<string>> {
    seq(|rows|, i requires 0 <= i < |rows| => rows[i].cells)
  }

  /** Column names come from the first row that has any. */
  function NamesOf(rows: seq<Row>): seq<string> {
    if rows == [] then []
    else
      var before := NamesOf(rows[..|rows| - 1]);
      if before == [] then rows[|rows| - 1].names else before
  }

  lemma {:induction false} NamesOfFirst(rows: seq<Row>)
    ensures NamesOf(rows) == [] <==> forall i :: 0 <= i < |rows| ==> rows[i].names == []
    ensures NamesOf(rows) != [] ==> exists i ::
      && 0 <= i < |rows| && NamesOf(rows) == rows[i].names
      && forall j :: 0 <= j < i ==> rows[j].names == []
  {
    if rows != [] {
      NamesOfFirst(rows[..|rows| - 1]);
      assert rows == rows[..|rows| - 1] + [rows[|rows| - 1]];
    }
  }

  /** The first `n` items as rows. */
  function Rows<E>(items: seq<Result<Row, E>>): seq<Row>
    requires forall i :: 0 <= i < |items| ==> items[i].Ok?
  {
    seq(|items|, i requires 0 <= i < |items| => items[i].value)
  }

  ghost predicate AllRows<E>(items: seq<Result<Row, E>>, n: nat) {
    n <= |items| && forall i :: 0 <= i < n ==> items[i].Ok?
  }

  /** A prefix the loop may hold: within budget, or one row at most. */
  predicate Affordable(rows: seq<Row>, budget: nat) {
    |rows| <= 1 || Cost(rows) <= budget
  }

  /** How reading stops: at the end, at an error behind an affordable prefix, or in front of the first
      row that would break the budget. */
  ghost predicate StopsAt<E>(items: seq<Result<Row, E>>, budget: nat, n: nat, r: Result<QueryResult, E>) {
    && AllRows(items, n) && Affordable(Rows(items[..n]), budget)
    && match r
       case Err(e) => n < |items| && items[n] == Err(e)
       case Ok(result) =>
         && result.rows == CellsOf(Rows(items[..n]))
         && (result.truncated <==> n < |items|)
         && (result.truncated ==> n > 0 && items[n].Ok? && Cost(Rows(items[..n + 1])) > budget)
         && result.columns == NamesOf(Rows(items[..if n < |items| then n + 1 else n]))
  }

  lemma RowsNext<E>(items: seq<Result<Row, E>>, n: nat)
    requires AllRows(items, n + 1)
    ensures Rows(items[..n + 1]) == Rows(items[..n]) + [items[n].value]
    ensures Rows(items[..n + 1])[..n] == Rows(items[..n])
  {
  }

  method SumRowBytes(cells: seq<string>) returns (rowBytes: nat)
    ensures rowBytes == RowBytes(cells)
  {
    rowBytes := 0;
    for k := 0 to |cells|
      invariant rowBytes == RowBytes(cells[..k])
    {
      assert cells[..k + 1][..k] == cells[..k];
      rowBytes := AddSize(rowBytes, |Utf8All(cells[k])|);
    }
    assert cells[..|cells|] == cells;
  }

  /** What the loop has read before item `n`. */
  ghost predicate Read<E>(items: seq<Result<Row, E>>, budget: nat, n: nat, columns: seq<string>,
                          outRows: seq<seq<string>>, tokens: nat)
  {
    && AllRows(items, n) && Affordable(Rows(items[..n]), budget)
    && columns == NamesOf(Rows(items[..n])) && outRows == CellsOf(Rows(items[..n])) && tokens == Cost(Rows(items[..n]))
  }

  lemma ReadNext<E>(items: seq<Result<Row, E>>, budget: nat, n: nat, columns: seq<string>, outRows: seq<seq<string>>,
                    tokens: nat)
    requires Read(items, budget, n, columns, outRows, tokens) && n < |items| && items[n].Ok?
    ensures var row := items[n].value;
      var names := if columns == [] then row.names else columns;
      var total := AddSize(tokens, RowCost(row));
      if total > budget && outRows != [] then StopsAt(items, budget, n, Ok(QueryResult(names, outRows, true)))
      else Read(items, budget, n + 1, names, outRows + [row.cells], total)
  {
    RowsNext(items, n);
  }

  lemma ReadAll<E>(items: seq<Result<Row, E>>, budget: nat, columns: seq<string>, outRows: seq<seq<string>>,
                   tokens: nat)
    requires Read(items, budget, |items|, columns, outRows, tokens)
    ensures StopsAt(items, budget, |items|, Ok(QueryResult(columns, outRows, false)))
  {
  }

  method RunSqlStreaming<E>(items: seq<Result<Row, E>>, budget: nat) returns (r: Result<QueryResult, E>)
    ensures exists n: nat :: StopsAt(items, budget, n, r)
  {
    var columns: seq<string> := [];
    var outRows: seq<seq<string>> := [];
    var tokensSoFar := 0;
    var i := 0;
    while i < |items|
      invariant Read(items, budget, i, columns, outRows, tokensSoFar)
      decreases |items| - i
    {
      if items[i].Err? {
        r := Err(items[i].error);
        assert StopsAt(items, budget, i, r);
        return;
      }
      ReadNext(items, budget, i, columns, outRows, tokensSoFar);
      var row := items[i].value;
      if columns == [] {
        columns := row.names;
      }
      var rowBytes := SumRowBytes(row.cells);
      var rowTokens := EstimateTokens(rowBytes);
      if AddSize(tokensSoFar, rowTokens) > budget && outRows != [] {
        r := Ok(QueryResult(columns, outRows, true));
        assert StopsAt(items, budget, i, r);
        return;
      }
      tokensSoFar := AddSize(tokensSoFar, rowTokens);
      outRows := outRows + [row.cells];
      i := i + 1;
    }
    ReadAll(items, budget, columns, outRows, tokensSoFar);
    return Ok(QueryResult(columns, outRows, false));
  }

  // ----- What the result means ---------------------------------------------------------------------

  lemma {:induction false} CostMonotone(rows: seq<Row>, k: nat)
    requires k <= |rows|
    ensures Cost(rows[..k]) <= Cost(rows)
    decreases |rows|
  {
    if k < |rows| {
      var before := rows[..|rows| - 1];
      assert before[..k] == rows[..k];
      CostMonotone(before, k);
    } else {
      assert rows[..k] == rows;
    }
  }

  /** No longer prefix of the stream is affordable: what is kept is the longest run of rows whose
      estimates sum within the budget, or the first row alone. */
  lemma KeepsLongestPrefix<E>(items: seq<Result<Row, E>>, budget: nat, n: nat, r: Result<QueryResult, E>, m: nat)
    requires StopsAt(items, budget, n, r) && r.Ok? && n < m && AllRows(items, m)
    ensures !Affordable(Rows(items[..m]), budget)
  {
    assert items[..m][..n + 1] == items[..n + 1];
    var rows := Rows(items[..m]);
    assert rows[..n + 1] == Rows(items[..n + 1]);
    CostMonotone(rows, n + 1);
  }

  /** Where reading stops is determined by the stream and the budget. */
  lemma StopDetermined<E>(items: seq<Result<Row, E>>, budget: nat, n: nat, r: Result<QueryResult, E>, m: nat,
                          q: Result<QueryResult, E>)
    requires StopsAt(items, budget, n, r) && StopsAt(items, budget, m, q)
    ensures n == m && r == q
  {
    NotLater(items, budget, n, r, m, q);
    NotLater(items, budget, m, q, n, r);
  }

  lemma NotLater<E>(items: seq<Result<Row, E>>, budget: nat, n: nat, r: Result<QueryResult, E>, m: nat,
                    q: Result<QueryResult, E>)
    requires StopsAt(items, budget, n, r) && StopsAt(items, budget, m, q)
    ensures m <= n
  {
    if r.Ok? && n < m {
      KeepsLongestPrefix(items, budget, n, r, m);
    }
  }

  // ----- Bytes against budget ----------------------------------------------------------------------

  function TotalBytes(cells: seq<string>): nat {
    if cells == [] then 0 else TotalBytes(cells[..|cells| - 1]) + |Utf8All(cells[|cells| - 1])|
  }

  function AllBytes(rows: seq<Row>): nat {
    if rows == [] then 0 else AllBytes(rows[..|rows| - 1]) + TotalBytes(rows[|rows| - 1].cells)
  }

  lemma {:induction false} NoSaturation(cells: seq<string>)
    requires TotalBytes(cells) <= USIZE_MAX
    ensures RowBytes(cells) == TotalBytes(cells)
  {
    if cells != [] { NoSaturation(cells[..|cells| - 1]); }
  }

  /** Rounding down loses less than one token a row. */
  lemma {:induction false} CostOfBytes(rows: seq<Row>)
    requires forall i :: 0 <= i < |rows| ==> TotalBytes(rows[i].cells) * 3 <= USIZE_MAX
    requires Cost(rows) < USIZE_MAX
    ensures 10 * Cost(rows) <= 3 * AllBytes(rows) <= 10 * Cost(rows) + 9 * |rows|
  {
    if rows != [] {
      var last := rows[|rows| - 1];
      NoSaturation(last.cells);
      CostOfBytes(rows[..|rows| - 1]);
    }
  }

  /** Two or more kept rows of B bytes in all: 3 B is at most 10 times the budget and 9 a row. */
  lemma {:induction false} KeptBytesWithinBudget(rows: seq<Row>, budget: nat)
    requires Affordable(rows, budget) && |rows| >= 2 && budget < USIZE_MAX
    requires forall i :: 0 <= i < |rows| ==> TotalBytes(rows[i].cells) * 3 <= USIZE_MAX
    ensures 3 * AllBytes(rows) <= 10 * budget + 9 * |rows|
  {
    CostOfBytes(rows);
  }
}
