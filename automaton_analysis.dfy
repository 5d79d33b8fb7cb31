/**
 * Reading the diagonals of a simulated history: diagonal `n` takes one cell from each row
 * `n, n + 1, ...` below the last iteration, the column moving one step per row.
 */
module AutomatonAnalyses {
  import opened Bits
  import opened Rows
  import opened Automata
  import Rules

  /** Which way a diagonal runs: leftwards or rightwards from column `iteration + 1`. */
  datatype Direction = Left | Right

  /** The column a diagonal reads at `offset` rows below its start. */
  function Column(direction: Direction, iteration: nat, offset: nat): (c: int)
    ensures direction == Left ==> c <= iteration + 1 && iteration + 1 - c == offset
    ensures direction == Right ==> c >= iteration + 1 && c - (iteration + 1) == offset
  {
    match direction
    case Left => iteration + 1 - offset
    case Right => iteration + 1 + offset
  }

  /** The cell of row `i` at `col`, or nothing when that row or that column does not exist. */
  function CellAt(grid: seq<Row>, i: nat, col: int): (r: seq<Bit>)
    ensures |r| <= 1
    ensures |r| == 1 <==> Visible(grid, i, col)
  {
    if Visible(grid, i, col) then [grid[i].configuration[col]] else []
  }

  /** Row `i` exists and has a cell at `col`. */
  predicate Visible(grid: seq<Row>, i: nat, col: int)
  {
    i < |grid| && 0 <= col < |grid[i].configuration|
  }

  /** The cells diagonal `n` collects from rows `n` up to, but not including, `m`. */
  function Extracted(grid: seq<Row>, iteration: nat, direction: Direction, n: nat, m: nat): (r: seq<Bit>)
    ensures |r| <= if m <= n then 0 else m - n
    decreases m
  {
    if m <= n then []
    else Extracted(grid, iteration, direction, n, m - 1) + CellAt(grid, m - 1, Column(direction, iteration, m - 1 - n))
  }

  /** Row `i` adds its cell at `col`, if it has one, to what rows `n` to `i - 1` gave. */
  lemma ExtractedStep(grid: seq<Row>, iteration: nat, direction: Direction, n: nat, i: nat, col: int)
    requires n <= i && col == Column(direction, iteration, i - n)
    ensures Visible(grid, i, col) ==>
      Extracted(grid, iteration, direction, n, i + 1) == Extracted(grid, iteration, direction, n, i) + [grid[i].configuration[col]]
    ensures !Visible(grid, i, col) ==>
      Extracted(grid, iteration, direction, n, i + 1) == Extracted(grid, iteration, direction, n, i)
  {
    if !Visible(grid, i, col) {
      assert Extracted(grid, iteration, direction, n, i) + [] == Extracted(grid, iteration, direction, n, i);
    }
  }

  /** Diagonal `n` of a history at `iteration`: the cells collected from rows `n` to `iteration - 1`. */
  function DiagonalCells(grid: seq<Row>, iteration: nat, direction: Direction, n: nat): seq<Bit>
  {
    Extracted(grid, iteration, direction, n, iteration)
  }

  /** A diagonal that starts at or after the last iteration is empty. */
  lemma DiagonalEmpty(grid: seq<Row>, iteration: nat, direction: Direction, n: nat)
    requires n >= iteration
    ensures DiagonalCells(grid, iteration, direction, n) == []
  {
  }

  /**
   * When every row the diagonal crosses exists and is wide enough, the diagonal has one cell per
   * row, and its cell `k` is the cell of row `n + k` at the column `k` steps from `iteration + 1`.
   */
  lemma {:induction false} ExtractedFull(grid: seq<Row>, iteration: nat, direction: Direction, n: nat, m: nat)
    requires n <= m
    requires forall k :: 0 <= k < m - n ==> Visible(grid, n + k, Column(direction, iteration, k))
    ensures |Extracted(grid, iteration, direction, n, m)| == m - n
    ensures forall k :: 0 <= k < m - n ==>
      var col := Column(direction, iteration, k);
      Visible(grid, n + k, col) && Extracted(grid, iteration, direction, n, m)[k] == grid[n + k].configuration[col]
    decreases m
  {
    if m > n {
      ExtractedFull(grid, iteration, direction, n, m - 1);
      var col := Column(direction, iteration, m - 1 - n);
      assert CellAt(grid, m - 1, col) == [grid[m - 1].configuration[col]];
    }
  }

  /**
   * In a history whose first row is wide enough for every column the diagonal reads, diagonal `n`
   * has one cell per row, cell `k` being read from row `n + k` at the column `k` steps from
   * `iteration + 1`.
   */
  lemma HistoryDiagonal(grid: seq<Row>, rule: Rules.Rule, iteration: nat, direction: Direction, n: nat)
    requires IsHistory(grid, rule) && n < iteration == |grid|
    requires forall k :: 0 <= k < iteration - n ==> 0 <= Column(direction, iteration, k) < grid[0].Len()
    ensures |DiagonalCells(grid, iteration, direction, n)| == iteration - n
    ensures forall k :: 0 <= k < iteration - n ==>
      var col := Column(direction, iteration, k);
      Visible(grid, n + k, col) && DiagonalCells(grid, iteration, direction, n)[k] == grid[n + k].configuration[col]
  {
    forall k | 0 <= k < iteration - n
      ensures Visible(grid, n + k, Column(direction, iteration, k))
    {
      HistoryWidths(grid, rule, n + k);
    }
    ExtractedFull(grid, iteration, direction, n, iteration);
  }

  /** In a history whose first row is wider than `2 * iteration - n`, right diagonal `n` has one cell per row. */
  lemma RightDiagonalOfHistory(grid: seq<Row>, rule: Rules.Rule, iteration: nat, n: nat)
    requires IsHistory(grid, rule) && n < iteration == |grid|
    requires grid[0].Len() > 2 * iteration - n
    ensures |DiagonalCells(grid, iteration, Right, n)| == iteration - n
    ensures forall k :: 0 <= k < iteration - n ==>
      var col := Column(Right, iteration, k);
      Visible(grid, n + k, col) && DiagonalCells(grid, iteration, Right, n)[k] == grid[n + k].configuration[col]
  {
    forall k | 0 <= k < iteration - n
      ensures 0 <= Column(Right, iteration, k) < grid[0].Len()
    {
    }
    HistoryDiagonal(grid, rule, iteration, Right, n);
  }

  /** In a history whose first row is wider than `iteration + 1`, left diagonal `n` has one cell per row. */
  lemma LeftDiagonalOfHistory(grid: seq<Row>, rule: Rules.Rule, iteration: nat, n: nat)
    requires IsHistory(grid, rule) && n < iteration == |grid|
    requires grid[0].Len() > iteration + 1
    ensures |DiagonalCells(grid, iteration, Left, n)| == iteration - n
    ensures forall k :: 0 <= k < iteration - n ==>
      var col := Column(Left, iteration, k);
      Visible(grid, n + k, col) && DiagonalCells(grid, iteration, Left, n)[k] == grid[n + k].configuration[col]
  {
    forall k | 0 <= k < iteration - n
      ensures 0 <= Column(Left, iteration, k) < grid[0].Len()
    {
    }
    HistoryDiagonal(grid, rule, iteration, Left, n);
  }

  class AutomatonAnalysis {
    const automaton: Automaton
    const multiplierLeft: nat
    const multiplierRight: nat

    /** `AutomatonAnalysis::new`: reads the given automaton, both multipliers 1. */
    constructor (automaton: Automaton)
      ensures this.automaton == automaton && multiplierLeft == 1 && multiplierRight == 1
    {
      this.automaton := automaton;
      multiplierLeft := 1;
      multiplierRight := 1;
    }

    /**
     * `extract_diagonal`: walks rows `n` to `iteration - 1`, keeping the cell at the moving column
     * when the row has one there. The leftward column never goes below 2.
     */
    method ExtractDiagonal(n: nat, direction: Direction) returns (result: seq<Bit>)
      ensures result == DiagonalCells(automaton.grid, automaton.iteration, direction, n)
    {
      var grid := automaton.grid;
      var iteration := automaton.iteration;
      result := [];
      var offset: nat := 0;
      var i := n;
      while i < iteration
        invariant n <= i && (i <= iteration || i == n)
        invariant offset == i - n
        invariant result == Extracted(grid, iteration, direction, n, i)
      {
        var col: nat := match direction
          case Left => iteration + 1 - offset
          case Right => iteration + 1 + offset;
        ExtractedStep(grid, iteration, direction, n, i, col);
        if i < |grid| {
          var row := grid[i];
          if col < row.Len() {
            result := result + [row.configuration[col]];
          }
        }
        offset := offset + 1;
        i := i + 1;
      }
    }

    /** `extract_diagonals`: diagonals `1` to `iteration - 1`, in that order. */
    method ExtractDiagonals(direction: Direction) returns (diagonals: seq<seq<Bit>>)
      ensures |diagonals| == if automaton.iteration >= 1 then automaton.iteration - 1 else 0
      ensures forall k :: 0 <= k < |diagonals| ==>
        diagonals[k] == DiagonalCells(automaton.grid, automaton.iteration, direction, k + 1)
    {
      var iteration := automaton.iteration;
      diagonals := [];
      var i := 1;
      while i < iteration
        invariant 1 <= i && (i <= iteration || i == 1)
        invariant |diagonals| == i - 1
        invariant forall k :: 0 <= k < |diagonals| ==>
          diagonals[k] == DiagonalCells(automaton.grid, automaton.iteration, direction, k + 1)
      {
        var diag := ExtractDiagonal(i, direction);
        diagonals := diagonals + [diag];
        i := i + 1;
      }
    }
  }
}
