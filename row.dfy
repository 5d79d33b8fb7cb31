/**
 * One row of the naive simulator: a finite configuration of cells and an iteration counter
 * that the row itself never advances.
 */
module Rows {
  import opened Bits
  import opened Rules
  import opened Wrappers

  /** The left neighbour `next` reads for cell `i`: cell 0 is its own left neighbour. */
  function LeftOf(i: nat): nat
  {
    if i == 0 then 0 else i - 1
  }

  /** The right neighbour `next` reads for cell `i` of a row of `len` cells: the last cell reads cell 0. */
  function RightOf(i: nat, len: nat): nat
  {
    if i == len - 1 then 0 else i + 1
  }

  /** The character a cell is drawn with. */
  function Display(b: Bit): char
  {
    if b == 0 then '.' else '#'
  }

  datatype Row = Row(configuration: seq<Bit>, iteration: nat)
  {
    /** `len`: the number of cells. */
    function Len(): (n: nat)
      ensures n == |configuration|
    {
      |configuration|
    }

    /** `get`: the cell at `index`, present exactly when `index` is in range. */
    function Get(index: nat): (r: Option<Bit>)
      ensures r.Some? <==> index < Len()
      ensures r.Some? ==> r.value == configuration[index]
    {
      if index < |configuration| then Some(configuration[index]) else None
    }

    /** The row `next` computes, cell by cell. */
    function Successor(rule: Rule): (r: Row)
      ensures |r.configuration| == |configuration| && r.iteration == 0
    {
      var n := |configuration|;
      Row(seq(n, i requires 0 <= i < n =>
            rule.Apply(configuration[LeftOf(i)], configuration[i], configuration[RightOf(i, n)])), 0)
    }

    /** `next`: fills a fresh configuration cell by cell; the row itself is left as it is. */
    method Next(rule: Rule) returns (r: Row)
      ensures r == Successor(rule)
    {
      var nextConfiguration: seq<Bit> := [];
      for i := 0 to |configuration|
        invariant nextConfiguration == Successor(rule).configuration[..i]
      {
        var left := if i == 0 then 0 else i - 1;
        var center := i;
        var right := if i == |configuration| - 1 then 0 else i + 1;
        var newState := rule.Apply(configuration[left], configuration[center], configuration[right]);
        assert newState == Successor(rule).configuration[i];
        nextConfiguration := nextConfiguration + [newState];
      }
      r := New(nextConfiguration);
    }

    /** `to_string`: one character per cell, '.' for 0 and '#' for 1. */
    function ToString(): (s: string)
      ensures |s| == Len()
      ensures forall i :: 0 <= i < |s| ==> s[i] == Display(configuration[i])
    {
      seq(|configuration|, i requires 0 <= i < |configuration| => Display(configuration[i]))
    }
  }

  /** `Row::new`: a row over the given cells, at iteration 0. */
  function New(configuration: seq<Bit>): (r: Row)
    ensures r.configuration == configuration && r.iteration == 0 && r.Len() == |configuration|
  {
    Row(configuration, 0)
  }

  /** Reads a row back from its drawing; any character other than '.' and '#' is rejected. */
  function Parse(s: string): (r: Option<seq<Bit>>)
    ensures r.Some? ==> |r.value| == |s|
  {
    if s == [] then Some([])
    else
      var c := s[|s| - 1];
      match Parse(s[..|s| - 1])
      case None => None
      case Some(front) =>
        if c == '.' then Some(front + [0])
        else if c == '#' then Some(front + [1])
        else None
  }

  /** Drawing a row and reading the drawing back gives the row's cells. */
  lemma {:induction false} ParseToString(row: Row)
    ensures Parse(row.ToString()) == Some(row.configuration)
    decreases |row.configuration|
  {
    var cfg := row.configuration;
    if cfg != [] {
      var front := Row(cfg[..|cfg| - 1], row.iteration);
      ParseToString(front);
      assert row.ToString()[..|cfg| - 1] == front.ToString();
      assert cfg == cfg[..|cfg| - 1] + [cfg[|cfg| - 1]];
    }
  }

  /** Inside the row, cell `i` of the successor is the rule applied to cells `i - 1`, `i` and `i + 1`. */
  lemma SuccessorInterior(row: Row, rule: Rule, i: nat)
    requires 0 < i < row.Len() - 1
    ensures row.Successor(rule).configuration[i]
         == rule.Apply(row.configuration[i - 1], row.configuration[i], row.configuration[i + 1])
  {
  }

  /**
   * At the edges the neighbours are not wrapped round: the first cell reads itself as its left
   * neighbour, the last cell reads the first cell as its right neighbour.
   */
  lemma SuccessorEdges(row: Row, rule: Rule)
    requires row.Len() >= 2
    ensures var c, n := row.configuration, row.Len();
      && row.Successor(rule).configuration[0] == rule.Apply(c[0], c[0], c[1])
      && row.Successor(rule).configuration[n - 1] == rule.Apply(c[n - 2], c[n - 1], c[0])
  {
  }

  /** A single cell is its own left and right neighbour. */
  lemma SuccessorSingleCell(row: Row, rule: Rule)
    requires row.Len() == 1
    ensures row.Successor(rule).configuration
         == [rule.Apply(row.configuration[0], row.configuration[0], row.configuration[0])]
  {
  }

  /**
   * The successor with both edges wrapped round (the first cell's left neighbour is the last
   * cell), which is how the documentation of `next` describes it.
   */
  function CyclicSuccessor(row: Row, rule: Rule): (r: seq<Bit>)
    ensures |r| == row.Len()
  {
    var c, n := row.configuration, |row.configuration|;
    seq(n, i requires 0 <= i < n =>
          rule.Apply(c[if i == 0 then n - 1 else i - 1], c[i], c[if i == n - 1 then 0 else i + 1]))
  }

  /** The code and the documented wrap differ: rule 30 on `..#` gives `.##` but `###` when wrapped. */
  lemma SuccessorIsNotCyclic()
    ensures New([0, 0, 1]).Successor(Rule30).configuration == [0, 1, 1]
    ensures CyclicSuccessor(New([0, 0, 1]), Rule30) == [1, 1, 1]
  {
  }

  /** Advancing a row with Wolfram rule number 30 gives the same row as rule 30 itself. */
  lemma Wolfram30RowIsRule30(row: Row)
    ensures row.Successor(Wolfram(WolframRule(30))) == row.Successor(Rule30)
  {
    var c, n := row.configuration, row.Len();
    forall i | 0 <= i < n
      ensures row.Successor(Wolfram(WolframRule(30))).configuration[i] == row.Successor(Rule30).configuration[i]
    {
      Wolfram30IsRule30(c[LeftOf(i)], c[i], c[RightOf(i, n)]);
    }
  }
}
