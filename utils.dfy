/** The periodicity check used when studying extracted diagonals. */
module Utils {
  import opened Bits
  import opened Diagonals

  /** Every cell equals the cell `p` places further on, wherever that one exists. */
  predicate HasPeriod(d: seq<Bit>, p: nat)
  {
    forall i :: 0 <= i && i + p < |d| ==> d[i + p] == d[i]
  }

  /**
   * `is_periodic`: compares each cell with the one `period` places further on, stopping at the
   * first position whose partner is past the end and at the first mismatch.
   */
  method IsPeriodic(diagonal: seq<Bit>, period: nat) returns (result: bool)
    ensures result <==> HasPeriod(diagonal, period)
  {
    result := true;
    var length := |diagonal|;
    var i := 0;
    while i < length
      invariant 0 <= i <= length
      invariant result
      invariant forall j :: 0 <= j < i && j + period < length ==> diagonal[j + period] == diagonal[j]
    {
      var posPeriod := i + period;
      if posPeriod >= length {
        break;
      }
      if diagonal[posPeriod] != diagonal[i] {
        result := false;
        break;
      }
      i := i + 1;
    }
  }

  /** Every sequence has period 0, and every period at least as long as the sequence. */
  lemma TrivialPeriods(d: seq<Bit>, p: nat)
    ensures HasPeriod(d, 0)
    ensures p >= |d| ==> HasPeriod(d, p)
  {
  }

  /** A single mismatching pair rules a period out. */
  lemma MismatchBreaksPeriod(d: seq<Bit>, p: nat, i: nat)
    requires i + p < |d| && d[i + p] != d[i]
    ensures !HasPeriod(d, p)
  {
  }

  /** `count` consecutive states of a diagonal, the first one at position `from`. */
  function Window(d: Diag, from: nat, count: nat): (w: seq<Bit>)
    requires |d.pattern| > 0
    ensures |w| == count
  {
    seq(count, k requires 0 <= k < count => d.Get(from + k))
  }

  /** Read past its transit, a diagonal has the length of its pattern as a period. */
  lemma WindowPastTransitIsPeriodic(d: Diag, from: nat, count: nat)
    requires |d.pattern| > 0 && from > d.leadingZeros + |d.transit|
    ensures HasPeriod(Window(d, from, count), |d.pattern|)
  {
    var w, p := Window(d, from, count), |d.pattern|;
    forall i | 0 <= i && i + p < |w|
      ensures w[i + p] == w[i]
    {
      GetPeriodic(d, from + i);
    }
  }
}
