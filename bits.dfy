/**
 * Cell states. `Cell` and the diagonal buffers keep each state in a `u8`, but the
 * automaton only ever stores 0 and 1, so a cell is a one-bit bit-vector here.
 */
module Bits {
  type Bit = bv1

  /** Number of occurrences of `x` in `s`. */
  function Occurrences(s: seq<Bit>, x: Bit): (n: nat)
    ensures n <= |s|
  {
    if s == [] then 0
    else Occurrences(s[..|s| - 1], x) + (if s[|s| - 1] == x then 1 else 0)
  }

  /** `x` occurs somewhere exactly when its count is positive. */
  lemma {:induction false} OccurrencesPositive(s: seq<Bit>, x: Bit)
    ensures Occurrences(s, x) > 0 <==> x in s
    decreases |s|
  {
    if s != [] {
      OccurrencesPositive(s[..|s| - 1], x);
      assert s == s[..|s| - 1] + [s[|s| - 1]];
    }
  }

  lemma {:induction false} OccurrencesAppend(a: seq<Bit>, b: seq<Bit>, x: Bit)
    ensures Occurrences(a + b, x) == Occurrences(a, x) + Occurrences(b, x)
    decreases |b|
  {
    if b == [] {
      assert a + b == a;
    } else {
      assert (a + b)[..|a + b| - 1] == a + b[..|b| - 1];
      OccurrencesAppend(a, b[..|b| - 1], x);
    }
  }

  /** Every cell is a 0 or a 1, so the two counts split the sequence. */
  lemma {:induction false} OccurrencesSplit(s: seq<Bit>)
    ensures Occurrences(s, 0) + Occurrences(s, 1) == |s|
  {
    if s != [] {
      OccurrencesSplit(s[..|s| - 1]);
    }
  }

  /** The cell-wise complement (`!` on a `Cell` in `Pattern::next`). */
  function Complement(s: seq<Bit>): (r: seq<Bit>)
    ensures |r| == |s|
  {
    seq(|s|, k requires 0 <= k < |s| => !s[k])
  }
}
