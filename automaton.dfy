/**
 * The naive simulator: the whole history of rows, the first one given and each later one the
 * successor of the row before it under a fixed rule.
 */
module Automata {
  import opened Rules
  import opened Rows

  /** Each row of `grid` after the first is the successor of the row before it. */
  predicate IsHistory(grid: seq<Row>, rule: Rule)
  {
    forall k :: 0 <= k < |grid| - 1 ==> grid[k + 1] == grid[k].Successor(rule)
  }

  /** Row `k` of the history that starts from `first`. */
  function Run(first: Row, rule: Rule, k: nat): (r: Row)
    ensures r.Len() == first.Len()
  {
    if k == 0 then first else Run(first, rule, k - 1).Successor(rule)
  }

  /** A history is determined by its first row: row `k` is the `k`-th successor of row 0. */
  lemma {:induction false} HistoryIsRun(grid: seq<Row>, rule: Rule, k: nat)
    requires IsHistory(grid, rule) && k < |grid|
    ensures grid[k] == Run(grid[0], rule, k)
    decreases k
  {
    if k > 0 {
      HistoryIsRun(grid, rule, k - 1);
      var previous := grid[k - 1];
      assert grid[k] == previous.Successor(rule);
      assert Run(grid[0], rule, k) == previous.Successor(rule);
    }
  }

  /** Every row of a history has the width of the first row. */
  lemma HistoryWidths(grid: seq<Row>, rule: Rule, k: nat)
    requires IsHistory(grid, rule) && k < |grid|
    ensures grid[k].Len() == grid[0].Len()
  {
    HistoryIsRun(grid, rule, k);
  }

  class Automaton {
    var grid: seq<Row>
    var iteration: nat
    const rule: Rule

    /** The row count is the iteration, there is at least one row, and the rows form a history. */
    ghost predicate Valid()
      reads this
    {
      && |grid| == iteration
      && iteration >= 1
      && IsHistory(grid, rule)
    }

    /** `Automaton::new`: the history holds the first row only, at iteration 1. */
    constructor (firstRow: Row, rule: Rule)
      ensures Valid()
      ensures grid == [firstRow] && iteration == 1 && this.rule == rule
    {
      grid := [firstRow];
      iteration := 1;
      this.rule := rule;
    }

    /** `next`: appends the successor of the last row and counts the iteration; earlier rows stay. */
    method Next()
      requires Valid()
      modifies this
      ensures Valid()
      ensures grid == old(grid) + [old(grid[|grid| - 1]).Successor(rule)]
      ensures iteration == old(iteration) + 1
    {
      var lastLine := grid[|grid| - 1];
      var newLine := lastLine.Next(rule);
      grid := grid + [newLine];
      iteration := iteration + 1;
    }

    /** `evolve(steps)`: `steps` calls of `next`; the rows already there are kept. */
    method Evolve(steps: nat)
      requires Valid()
      modifies this
      ensures Valid()
      ensures iteration == old(iteration) + steps && |grid| == old(|grid|) + steps
      ensures grid[..old(|grid|)] == old(grid)
    {
      for k := 0 to steps
        invariant Valid()
        invariant iteration == old(iteration) + k && |grid| == old(|grid|) + k
        invariant grid[..old(|grid|)] == old(grid)
      {
        Next();
      }
    }

    /** `grid`: the history, one row per iteration. */
    function Grid(): (g: seq<Row>)
      reads this
      requires Valid()
      ensures g == grid
      ensures |g| == iteration && g != []
      ensures forall k :: 0 <= k < |g| ==> g[k] == Run(g[0], rule, k)
    {
      forall k | 0 <= k < |grid|
        ensures grid[k] == Run(grid[0], rule, k)
      {
        HistoryIsRun(grid, rule, k);
      }
      grid
    }

    /** `iteration`: the number of rows. */
    function Iteration(): (n: nat)
      reads this
      requires Valid()
      ensures n == |grid| && n >= 1
    {
      iteration
    }
  }
}
