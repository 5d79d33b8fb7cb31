/**
 * The algebraic step on a pair of periodic patterns: from the patterns of two consecutive left
 * diagonals (`left` the older, `center` the newer) it computes the pattern of the next diagonal.
 */
module Patterns {
  import opened Bits
  import opened Wrappers
  import opened Rules
  import opened Diagonals
  import opened Fast30Evaluator

  /** The cyclic predecessor of position `q` in a pattern of `n` cells. */
  function Prev(q: nat, n: nat): (p: nat)
    requires q < n
    ensures p < n
  {
    if q == 0 then n - 1 else q - 1
  }

  /** The position visited at step `s` when walking a pattern of `n` cells downwards from `start`. */
  function Visited(start: nat, n: nat, s: nat): (q: nat)
    requires start < n && s <= n
    ensures q < n
  {
    if s <= start then start - s else start + n - s
  }

  /** The step at which the walk from `start` visits position `q`. */
  function Unvisit(start: nat, n: nat, q: nat): (s: nat)
    requires start < n && q < n
    ensures s < n && Visited(start, n, s) == q
  {
    if q <= start then start - q else start + n - q
  }

  /** Each step of the walk moves to the cyclic predecessor. */
  lemma VisitedStep(start: nat, n: nat, s: nat)
    requires start < n && s < n
    ensures Visited(start, n, s + 1) == Prev(Visited(start, n, s), n)
  {
  }

  /** Steps 1 to n of the walk visit pairwise different positions. */
  lemma VisitedInjective(start: nat, n: nat, s: nat, t: nat)
    requires start < n && 1 <= s <= n && 1 <= t <= n && s != t
    ensures Visited(start, n, s) != Visited(start, n, t)
  {
  }

  /** A remainder below twice the modulus needs at most one subtraction. */
  lemma ModBelowTwice(x: nat, n: nat)
    requires 0 < n && x < 2 * n
    ensures x % n == if x < n then x else x - n
  {
    if x < n {
      ModUnique(x, n, 0, x);
    } else {
      ModUnique(x, n, 1, x - n);
    }
  }

  /** Iteration `i` of the countdown in `Pattern::next` reads the cell visited at step `len - i` and writes the next one. */
  lemma WalkIndices(start: nat, len: nat, i: nat)
    requires start < len && 1 <= i <= len
    ensures (i + start) % len == Visited(start, len, len - i)
    ensures (i + start - 1) % len == Visited(start, len, len - i + 1)
  {
    ModBelowTwice(i + start, len);
    ModBelowTwice(i + start - 1, len);
  }

  /** The index of the last 1 (`rposition`). */
  function LastOne(s: seq<Bit>): (k: nat)
    requires 1 in s
    ensures k < |s| && s[k] == 1
    ensures forall j :: k < j < |s| ==> s[j] == 0
  {
    if s[|s| - 1] == 1 then |s| - 1
    else
      var front := s[..|s| - 1];
      assert 1 in front by {
        var j :| 0 <= j < |s| && s[j] == 1;
        assert front[j] == 1;
      }
      LastOne(front)
  }

  /** The exclusive or of all cells: 1 exactly for an odd number of 1s. */
  function Parity(s: seq<Bit>): Bit
  {
    if s == [] then 0 else Parity(s[..|s| - 1]) ^ s[|s| - 1]
  }

  lemma {:induction false} ParityCountsOnes(s: seq<Bit>)
    ensures Parity(s) == 1 <==> Occurrences(s, 1) % 2 == 1
  {
    if s != [] {
      ParityCountsOnes(s[..|s| - 1]);
    }
  }

  /**
   * The rule-30 relation on a periodic pattern: each cell of `a`'s cyclic predecessor is rule 30
   * applied to the older pattern's cell, the newer pattern's cell and `a`'s own cell there.
   */
  predicate IsRule30Image(left: seq<Bit>, center: seq<Bit>, a: seq<Bit>)
  {
    && |a| == |center| <= |left|
    && forall q :: 0 <= q < |a| ==> a[Prev(q, |a|)] == ApplyRule30(left[q], center[q], a[q])
  }

  /**
   * The chain the all-zero branch builds: 1 in the last cell, each cell the next one XOR `left`
   * there. A one-cell chain reads no cell of `left`, so `left` may then be empty.
   */
  predicate IsXorChain(left: seq<Bit>, base: seq<Bit>)
  {
    && 1 <= |base|
    && (|base| == 1 || |base| <= |left|)
    && base[|base| - 1] == 1
    && forall i :: 0 <= i < |base| - 1 ==> base[i] == base[i + 1] ^ left[i + 1]
  }

  /** The pattern pair doubles: the newer pattern has no 1 and the older one an odd number of 1s. */
  predicate Doubles(left: seq<Bit>, center: seq<Bit>)
  {
    1 !in center && Occurrences(left, 1) % 2 == 1
  }

  datatype Pattern = Pattern(left: seq<Bit>, center: seq<Bit>)
  {
    /** `len`: the length of the newer pattern. */
    function Len(): (n: nat)
      ensures n == |center|
    {
      |center|
    }

    /**
     * `next`: the new pair is (`center`, the next pattern). When `center` holds a 1, the next
     * pattern is the rule-30 image; otherwise it is the XOR chain, followed by its complement when
     * `left` holds an odd number of 1s, in which case the new older pattern is `center` twice.
     * The default cell is not used.
     */
    method Next(defaultCell: Option<Bit>) returns (r: Pattern)
      requires |center| >= 1 && (|left| >= |center| || (1 !in center && |center| == 1))
      ensures r.left == if Doubles(left, center) then center + center else center
      ensures |r.center| == if Doubles(left, center) then 2 * Len() else Len()
      ensures 1 in center ==> IsRule30Image(left, center, r.center)
      ensures 1 !in center ==> IsXorChain(left, r.center[..Len()])
      ensures Doubles(left, center) ==> r.center[Len()..] == Complement(r.center[..Len()])
    {
      if 1 in center {
        var result := NextWithOne(left, center);
        r := Pattern(center, result);
      } else {
        var numberOne := Occurrences(left, 1);
        var result := NextWithoutOne(left, center);
        var leftPattern := center;
        if numberOne % 2 == 1 {
          var base := result;
          result := base + Complement(base);
          assert result[..|center|] == base;
          leftPattern := leftPattern + leftPattern;
        }
        r := Pattern(leftPattern, result);
      }
    }
  }

  /** The first `done` steps of the walk from `start` have written the rule-30 image into `a`. */
  ghost predicate WalkDone(left: seq<Bit>, center: seq<Bit>, start: nat, a: seq<Bit>, done: nat)
    requires start < |center| <= |left| && |a| == |center| && done <= |center|
  {
    forall t :: 0 <= t < done ==>
      var q := Visited(start, |center|, t);
      a[Visited(start, |center|, t + 1)] == ApplyRule30(left[q], center[q], a[q])
  }

  /** Writing the image of the cell visited at step `s` extends the walk by one step. */
  lemma WalkStep(left: seq<Bit>, center: seq<Bit>, start: nat, a: seq<Bit>, s: nat, v: Bit)
    requires start < |center| <= |left| && |a| == |center| && s < |center| && center[start] == 1
    requires WalkDone(left, center, start, a, s)
    requires var q := Visited(start, |center|, s); v == ApplyRule30(left[q], center[q], a[q])
    ensures WalkDone(left, center, start, a[Visited(start, |center|, s + 1) := v], s + 1)
  {
    var n, a' := |center|, a[Visited(start, |center|, s + 1) := v];
    forall t | 0 <= t < s + 1
      ensures var q := Visited(start, n, t);
        a'[Visited(start, n, t + 1)] == ApplyRule30(left[q], center[q], a'[q])
    {
      var q := Visited(start, n, t);
      if t < s {
        VisitedInjective(start, n, t + 1, s + 1);
        assert a'[Visited(start, n, t + 1)] == a[Visited(start, n, t + 1)];
      }
      if t > 0 {
        VisitedInjective(start, n, t, s + 1);
        assert a'[q] == a[q];
      } else {
        assert center[q] == 1;
      }
    }
  }

  /** The completed walk is the rule-30 image. */
  lemma WalkComplete(left: seq<Bit>, center: seq<Bit>, start: nat, a: seq<Bit>)
    requires start < |center| <= |left| && |a| == |center|
    requires WalkDone(left, center, start, a, |center|)
    ensures IsRule30Image(left, center, a)
  {
    var n := |center|;
    forall q | 0 <= q < n
      ensures a[Prev(q, n)] == ApplyRule30(left[q], center[q], a[q])
    {
      var t := Unvisit(start, n, q);
      VisitedStep(start, n, t);
    }
  }

  /**
   * The branch of `next` for a center holding a 1: starting at the last 1 and walking down
   * cyclically, each visited cell of `center` produces the cell just before it. The first visited
   * cell holds a 1, so the placeholder before the first step is never read.
   */
  method NextWithOne(left: seq<Bit>, center: seq<Bit>) returns (result: seq<Bit>)
    requires 1 in center && |left| >= |center|
    ensures IsRule30Image(left, center, result)
  {
    var len := |center|;
    result := seq(len, _ => 1);
    var start := LastOne(center);
    var lastCell: Option<Bit> := None;
    var i := len;
    while i >= 1
      invariant 0 <= i <= len && |result| == len
      invariant lastCell.Some? <==> i < len
      invariant i < len ==> lastCell.value == result[Visited(start, len, len - i)]
      invariant WalkDone(left, center, start, result, len - i)
    {
      var index := (i + start) % len;
      var indexTo := (i + start - 1) % len;
      ghost var s := len - i;
      WalkIndices(start, len, i);
      if center[index] == 1 {
        lastCell := Some(!left[index]);
      } else {
        lastCell := Some(lastCell.value ^ left[index]);
      }
      WalkStep(left, center, start, result, s, lastCell.value);
      result := result[indexTo := lastCell.value];
      i := i - 1;
    }
    WalkComplete(left, center, start, result);
  }

  /** The branch of `next` for a center of zeros: 1 at the end, then XOR with `left` walking down. */
  method NextWithoutOne(left: seq<Bit>, center: seq<Bit>) returns (result: seq<Bit>)
    requires |center| >= 1 && (|left| >= |center| || |center| == 1)
    ensures |result| == |center| && IsXorChain(left, result)
  {
    var len := |center|;
    result := seq(len, _ => 1);
    var lastCell: Bit := 1;
    result := result[len - 1 := lastCell];
    var i := len - 1;
    while i > 0
      invariant 0 <= i <= len - 1 && |result| == len
      invariant lastCell == result[i] && result[len - 1] == 1
      invariant forall j :: i <= j < len - 1 ==> result[j] == result[j + 1] ^ left[j + 1]
    {
      i := i - 1;
      lastCell := lastCell ^ left[i + 1];
      result := result[i := lastCell];
    }
  }

  /** With a 1 in `center`, the rule-30 image is unique: `next` has no other choice. */
  lemma Rule30ImageUnique(left: seq<Bit>, center: seq<Bit>, a: seq<Bit>, b: seq<Bit>)
    requires 1 in center
    requires IsRule30Image(left, center, a) && IsRule30Image(left, center, b)
    ensures a == b
  {
    var n, start := |center|, LastOne(center);
    forall q | 0 <= q < n
      ensures a[q] == b[q]
    {
      var t := Unvisit(start, n, q);
      if t == 0 {
        AgreeAlongWalk(left, center, a, b, start, n - 1);
      } else {
        AgreeAlongWalk(left, center, a, b, start, t - 1);
      }
    }
  }

  /** Two rule-30 images agree on every cell the walk from a 1 of `center` has produced. */
  lemma {:induction false} AgreeAlongWalk(left: seq<Bit>, center: seq<Bit>, a: seq<Bit>, b: seq<Bit>, start: nat, t: nat)
    requires IsRule30Image(left, center, a) && IsRule30Image(left, center, b)
    requires start < |center| && center[start] == 1 && t < |center|
    ensures a[Visited(start, |center|, t + 1)] == b[Visited(start, |center|, t + 1)]
    decreases t
  {
    var n := |center|;
    var q := Visited(start, n, t);
    VisitedStep(start, n, t);
    if t > 0 {
      AgreeAlongWalk(left, center, a, b, start, t - 1);
    }
    assert a[Prev(q, n)] == ApplyRule30(left[q], center[q], a[q]);
    assert b[Prev(q, n)] == ApplyRule30(left[q], center[q], b[q]);
  }

  /**
   * Closed form of the XOR chain: cell `i` is the complement of the parity of `left` from `i + 1`
   * up to the chain's length (of nothing, for a one-cell chain beside an empty `left`).
   */
  lemma {:induction false} XorChainClosedForm(left: seq<Bit>, base: seq<Bit>, i: nat)
    requires IsXorChain(left, base) && i < |base|
    ensures base[i] == !Parity(if |base| <= |left| then left[i + 1..|base|] else [])
    decreases |base| - i
  {
    var n := |base|;
    if i == n - 1 {
      if n <= |left| {
        assert left[i + 1..n] == [];
      }
    } else {
      XorChainClosedForm(left, base, i + 1);
      ParityCons(left[i + 1], left[i + 2..n]);
      assert left[i + 1..n] == [left[i + 1]] + left[i + 2..n];
    }
  }

  lemma {:induction false} ParityCons(x: Bit, s: seq<Bit>)
    ensures Parity([x] + s) == x ^ Parity(s)
    decreases |s|
  {
    if s != [] {
      ParityCons(x, s[..|s| - 1]);
      assert ([x] + s)[..|s|] == [x] + s[..|s| - 1];
    } else {
      assert ([x] + s)[..0] == [];
    }
  }

  /**
   * The doubling condition of `next` is the evaluator's: a newer pattern without 1s after an
   * older one with an odd number of them.
   */
  lemma DoublesLikeEvaluator(left: seq<Bit>, center: seq<Bit>, last: Diag, penult: Diag)
    requires last.pattern == center && penult.pattern == left
    ensures Doubles(left, center) <==> DoublingCondition(last, penult)
  {
    OccurrencesPositive(center, 1);
  }
}
