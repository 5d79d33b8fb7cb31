/**
 * The fast rule-30 evaluator: it builds left diagonal k of the triangle from diagonals k-1
 * (`last`) and k-2 (`penult`), assuming every new diagonal becomes periodic with the current
 * period once both inputs are read in their periodic parts, and doubling that period when the
 * observed doubling condition holds.
 */
module Fast30Evaluator {
  import opened Bits
  import opened Rules
  import opened Diagonals

  /** The compression cadence of `Options::new`. */
  const DefaultEludeDiagonalSteps: nat := 10

  /** The evaluator's state as a value: the three buffers, the period and the iteration. */
  datatype Snapshot = Snapshot(last: Diag, penult: Diag, current: Diag, currentPeriod: nat, iteration: nat)

  predicate IsPowerOfTwo(n: nat)
    decreases n
  {
    n == 1 || (n >= 2 && n % 2 == 0 && IsPowerOfTwo(n / 2))
  }

  /**
   * What holds between steps: the period is positive, `last` carries a pattern of exactly one
   * period and `penult` one of a period or half a period, so both can be read at any position.
   * That the period is moreover a power of two is proved of `evolve` (`EvolvedCounters`).
   */
  predicate Inv(s: Snapshot)
  {
    && s.currentPeriod > 0
    && |s.last.pattern| == s.currentPeriod
    && (|s.penult.pattern| == s.currentPeriod || 2 * |s.penult.pattern| == s.currentPeriod)
    && s.iteration >= 2
  }

  /** `Fast30::new`: both seed diagonals are all ones, the period is 1, the iteration is 2. */
  function Initial(): (s: Snapshot)
    ensures Inv(s)
  {
    Snapshot(Diag(0, [], [1]), Diag(0, [], [1]), Diag(0, [], []), 1, 2)
  }

  /** The doubling condition: no 1 in the last pattern and an odd number of 1s in the penultimate one. */
  function DoublingCondition(last: Diag, penult: Diag): (r: bool)
    ensures r <==> 1 !in last.pattern && Occurrences(penult.pattern, 1) % 2 == 1
  {
    !last.HasStateInPattern(1) && penult.CountStateInPattern(1) % 2 == 1
  }

  /**
   * The first `n` states the recurrence produces from input position `start` on: state m
   * combines the inputs at position `start + m` with the state produced just before it (0 first).
   */
  function Recurrence(last: Diag, penult: Diag, start: nat, n: nat): (r: seq<Bit>)
    requires |last.pattern| > 0 && |penult.pattern| > 0
    ensures |r| == n
  {
    if n == 0 then []
    else
      var front := Recurrence(last, penult, start, n - 1);
      front + [ApplyRule30(penult.Get(start + n - 1), last.Get(start + n - 1), if n == 1 then 0 else front[n - 2])]
  }

  /** A longer run of the recurrence extends a shorter one. */
  lemma {:induction false} RecurrencePrefix(last: Diag, penult: Diag, start: nat, m: nat, n: nat)
    requires |last.pattern| > 0 && |penult.pattern| > 0 && m <= n
    ensures Recurrence(last, penult, start, n)[..m] == Recurrence(last, penult, start, m)
    decreases n
  {
    if m < n {
      RecurrencePrefix(last, penult, start, m, n - 1);
      assert Recurrence(last, penult, start, n)[..n - 1] == Recurrence(last, penult, start, n - 1);
    }
  }

  /** State m of the recurrence combines the inputs at `start + m` with state m - 1 (0 for the first). */
  lemma RecurrenceAt(last: Diag, penult: Diag, start: nat, n: nat, m: nat)
    requires |last.pattern| > 0 && |penult.pattern| > 0 && m < n
    ensures var r := Recurrence(last, penult, start, n);
      r[m] == ApplyRule30(penult.Get(start + m), last.Get(start + m), if m == 0 then 0 else r[m - 1])
  {
    RecurrencePrefix(last, penult, start, m + 1, n);
    var r := Recurrence(last, penult, start, n);
    var short := Recurrence(last, penult, start, m + 1);
    assert r[m] == short[m];
    if m > 0 {
      assert r[m - 1] == short[m - 1];
      assert short[..m] == Recurrence(last, penult, start, m);
    }
  }

  /** One more state extends the recurrence by the rule-30 combination at the next position. */
  lemma RecurrenceSnoc(last: Diag, penult: Diag, start: nat, n: nat, i: nat)
    requires |last.pattern| > 0 && |penult.pattern| > 0 && i == start + n
    ensures var r := Recurrence(last, penult, start, n);
      Recurrence(last, penult, start, n + 1)
      == r + [ApplyRule30(penult.Get(i), last.Get(i), if n == 0 then 0 else r[n - 1])]
  {
  }

  /** Appending to a sequence extends its suffix of length `j` to the suffix of length `j + 1`. */
  lemma SuffixSnoc(t: seq<Bit>, j: nat, x: Bit)
    requires j <= |t|
    ensures (t + [x])[|t + [x]| - (j + 1)..] == t[|t| - j..] + [x]
  {
  }

  /** The last position of a diagonal before its pattern starts. */
  function TransitEnd(d: Diag): nat
  {
    d.leadingZeros + |d.transit|
  }

  function Max(a: nat, b: nat): nat
  {
    if a < b then b else a
  }

  /**
   * How many states the loop of `next` produces: one per input position up to the end of
   * `last`'s transit, then `period` more, all read from the periodic part of `last`.
   */
  function BuiltLength(last: Diag, zeros: nat, period: nat): nat
  {
    Max(TransitEnd(last) + 1, zeros) - zeros + period
  }

  /** The new diagonal: leading zeros, every produced state as transit, the last `period` of them as pattern. */
  function BuildDiagonal(last: Diag, penult: Diag, zeros: nat, period: nat): (d: Diag)
    requires |last.pattern| > 0 && |penult.pattern| > 0
    ensures d.leadingZeros == zeros && |d.pattern| == period
    ensures period <= |d.transit| && d.pattern == d.transit[|d.transit| - period..]
    ensures d.leadingZeros + |d.transit| - period > TransitEnd(last)
  {
    var t := Recurrence(last, penult, zeros, BuiltLength(last, zeros, period));
    Diag(zeros, t, t[|t| - period..])
  }

  /** The diagonal built from a known run of the recurrence. */
  lemma BuildDiagonalOf(last: Diag, penult: Diag, zeros: nat, period: nat, t: seq<Bit>)
    requires |last.pattern| > 0 && |penult.pattern| > 0
    requires t == Recurrence(last, penult, zeros, BuiltLength(last, zeros, period))
    ensures BuildDiagonal(last, penult, zeros, period) == Diag(zeros, t, t[|t| - period..])
  {
  }

  /** `next`: maybe double the period, build diagonal k, rotate the three buffers. */
  function BuildNext(s: Snapshot): (r: Snapshot)
    requires Inv(s)
    ensures Inv(r)
  {
    var period := NextPeriod(s);
    var built := BuildDiagonal(s.last, s.penult, (s.iteration + 1) / 2, period);
    Snapshot(built, s.last, s.penult, period, s.iteration)
  }

  /** The period of the diagonal `next` builds: doubled when the doubling condition holds. */
  function NextPeriod(s: Snapshot): (p: nat)
    ensures p == s.currentPeriod || p == 2 * s.currentPeriod
    ensures IsPowerOfTwo(s.currentPeriod) ==> IsPowerOfTwo(p)
  {
    if DoublingCondition(s.last, s.penult) then
      assert IsPowerOfTwo(s.currentPeriod) ==> IsPowerOfTwo(2 * s.currentPeriod) by {
        if IsPowerOfTwo(s.currentPeriod) {
          DoubleIsPowerOfTwo(s.currentPeriod);
        }
      }
      2 * s.currentPeriod
    else s.currentPeriod
  }

  /** `next` from `s` keeps `s`'s last two diagonals as the older two, next to the diagonal it builds. */
  lemma BuildNextOf(s: Snapshot, dK1: Diag, dK2: Diag, numberZeros: nat, period: nat, built: Diag)
    requires Inv(s) && dK1 == s.last && dK2 == s.penult
    requires numberZeros == (s.iteration + 1) / 2 && period == NextPeriod(s)
    requires built == BuildDiagonal(dK1, dK2, numberZeros, period)
    ensures BuildNext(s) == Snapshot(built, dK1, dK2, period, s.iteration)
  {
  }

  /** `elude_diagonals`: compress `last` and `penult`. */
  function Eluded(s: Snapshot): (r: Snapshot)
    requires Inv(s)
    ensures Inv(r)
  {
    s.(last := Elude(s.last), penult := Elude(s.penult))
  }

  /** One round of `evolve`: `next`, count the iteration, compress when the iteration is a multiple of the cadence. */
  function EvolveStep(s: Snapshot, eludeSteps: nat): (r: Snapshot)
    requires Inv(s) && eludeSteps > 0
    ensures Inv(r)
  {
    var n := BuildNext(s);
    var counted := n.(iteration := n.iteration + 1);
    if counted.iteration % eludeSteps == 0 then Eluded(counted) else counted
  }

  /** `n` applications of `step` to `s`. */
  function Iterate(step: Snapshot -> Snapshot, s: Snapshot, n: nat): Snapshot
    decreases n
  {
    if n == 0 then s else step(Iterate(step, s, n - 1))
  }

  /** One round as a total step: a state outside `Inv` (which no evaluator reaches) is left alone. */
  function Round(eludeSteps: nat): Snapshot -> Snapshot
  {
    s => if Inv(s) && eludeSteps > 0 then EvolveStep(s, eludeSteps) else s
  }

  /** `evolve(steps)`: `steps` rounds. */
  function Evolved(s: Snapshot, steps: nat, eludeSteps: nat): (r: Snapshot)
    requires Inv(s) && eludeSteps > 0
    ensures Inv(r)
  {
    EvolvedKeepsInv(s, steps, eludeSteps);
    Iterate(Round(eludeSteps), s, steps)
  }

  lemma {:induction false} EvolvedKeepsInv(s: Snapshot, steps: nat, eludeSteps: nat)
    requires Inv(s) && eludeSteps > 0
    ensures Inv(Iterate(Round(eludeSteps), s, steps))
    decreases steps
  {
    if steps > 0 {
      EvolvedKeepsInv(s, steps - 1, eludeSteps);
    }
  }

  // ----- properties of the specification -----

  /**
   * The diagonal `next` builds: it starts with `(iteration + 1) / 2` leading zeros (floor
   * division), each produced state lands one position after the input position it was computed
   * at, so every position past the zeros obeys the rule-30 diagonal recurrence
   * `new[q] = penult[q - 1] XOR (last[q - 1] OR new[q - 1])`; its pattern is its last `period`
   * transit states, all computed from positions past `last`'s transit.
   */
  lemma BuiltDiagonalRecurrence(s: Snapshot, q: nat)
    requires Inv(s)
    ensures var r := BuildNext(s); var d := r.last;
      && d.leadingZeros == (s.iteration + 1) / 2
      && |d.pattern| == r.currentPeriod
      && d.pattern == d.transit[|d.transit| - r.currentPeriod..]
      && d.leadingZeros + |d.transit| - r.currentPeriod > TransitEnd(s.last)
      && (q <= d.leadingZeros ==> d.Get(q) == 0)
      && (d.leadingZeros < q <= TransitEnd(d) ==>
            d.Get(q) == ApplyRule30(s.penult.Get(q - 1), s.last.Get(q - 1), d.Get(q - 1)))
  {
    var r := BuildNext(s);
    var d := r.last;
    var z := d.leadingZeros;
    if z < q <= TransitEnd(d) {
      var m := q - z - 1;
      RecurrenceAt(s.last, s.penult, z, |d.transit|, m);
      assert d.Get(q) == d.transit[m];
      if m > 0 {
        assert d.Get(q - 1) == d.transit[m - 1];
      }
    }
  }

  /** The period doubles exactly when the doubling condition holds, and otherwise stays. */
  lemma StepPeriod(s: Snapshot, eludeSteps: nat)
    requires Inv(s) && eludeSteps > 0
    ensures var r := EvolveStep(s, eludeSteps);
      && r.iteration == s.iteration + 1
      && (DoublingCondition(s.last, s.penult) ==> r.currentPeriod == 2 * s.currentPeriod)
      && (!DoublingCondition(s.last, s.penult) ==> r.currentPeriod == s.currentPeriod)
  {
  }

  /** `evolve(steps)` raises the iteration by `steps`; the period never decreases and stays a power of two. */
  lemma EvolvedCounters(s: Snapshot, steps: nat, eludeSteps: nat)
    requires Inv(s) && eludeSteps > 0
    ensures var r := Evolved(s, steps, eludeSteps);
      && r.iteration == s.iteration + steps
      && s.currentPeriod <= r.currentPeriod
      && (IsPowerOfTwo(s.currentPeriod) ==> IsPowerOfTwo(r.currentPeriod))
  {
    forall x {:trigger Round(eludeSteps)(x)} | Inv(x)
      ensures Advances(x, Round(eludeSteps)(x))
    {
      RoundCounters(x, eludeSteps);
    }
    IterateCounters(Round(eludeSteps), s, steps);
  }

  /**
   * `y` follows `x` by one round: the invariant holds, the iteration is one more and the period
   * no smaller, and a power of two if `x`'s was.
   */
  predicate Advances(x: Snapshot, y: Snapshot)
  {
    && Inv(y)
    && y.iteration == x.iteration + 1
    && x.currentPeriod <= y.currentPeriod
    && (IsPowerOfTwo(x.currentPeriod) ==> IsPowerOfTwo(y.currentPeriod))
  }

  /** Iterating any step that advances every state from `Inv` advances the iteration by the count. */
  lemma {:induction false} IterateCounters(step: Snapshot -> Snapshot, s: Snapshot, n: nat)
    requires Inv(s)
    requires forall x {:trigger step(x)} :: Inv(x) ==> Advances(x, step(x))
    ensures var r := Iterate(step, s, n);
      && Inv(r)
      && r.iteration == s.iteration + n
      && s.currentPeriod <= r.currentPeriod
      && (IsPowerOfTwo(s.currentPeriod) ==> IsPowerOfTwo(r.currentPeriod))
    decreases n
  {
    if n > 0 {
      IterateCounters(step, s, n - 1);
    }
  }

  /** One round raises the iteration by one and keeps the period a power of two, never smaller. */
  lemma RoundCounters(s: Snapshot, eludeSteps: nat)
    requires Inv(s) && eludeSteps > 0
    ensures Advances(s, Round(eludeSteps)(s))
  {
    StepPeriod(s, eludeSteps);
    if IsPowerOfTwo(s.currentPeriod) {
      DoubleIsPowerOfTwo(s.currentPeriod);
    }
  }

  lemma DoubleIsPowerOfTwo(n: nat)
    requires IsPowerOfTwo(n)
    ensures IsPowerOfTwo(2 * n)
  {
    assert (2 * n) / 2 == n;
  }

  /** From `new()`, the period stays a power of two whatever the number of rounds. */
  lemma EvolvedPeriodIsPowerOfTwo(steps: nat, eludeSteps: nat)
    requires eludeSteps > 0
    ensures IsPowerOfTwo(Evolved(Initial(), steps, eludeSteps).currentPeriod)
  {
    EvolvedCounters(Initial(), steps, eludeSteps);
  }

  /** Iterating `a` times then `b` times is iterating `a + b` times. */
  lemma {:induction false} IterateSplit(step: Snapshot -> Snapshot, s: Snapshot, a: nat, b: nat)
    ensures Iterate(step, Iterate(step, s, a), b) == Iterate(step, s, a + b)
    decreases b
  {
    if b > 0 {
      IterateSplit(step, s, a, b - 1);
    }
  }

  /** `evolve(a)` then `evolve(b)` is `evolve(a + b)`: the cadence keys on the iteration, not on the loop counter. */
  lemma EvolveSplit(s: Snapshot, a: nat, b: nat, eludeSteps: nat)
    requires Inv(s) && eludeSteps > 0
    ensures Evolved(Evolved(s, a, eludeSteps), b, eludeSteps) == Evolved(s, a + b, eludeSteps)
  {
    IterateSplit(Round(eludeSteps), s, a, b);
  }

  /** A round is `next`, then the iteration count, then compression on a multiple of the cadence. */
  lemma EvolveStepOf(s: Snapshot, eludeSteps: nat, built: Snapshot)
    requires Inv(s) && eludeSteps > 0 && built == BuildNext(s)
    ensures var counted := built.(iteration := built.iteration + 1);
      && (counted.iteration % eludeSteps == 0 ==> EvolveStep(s, eludeSteps) == Eluded(counted))
      && (counted.iteration % eludeSteps != 0 ==> EvolveStep(s, eludeSteps) == counted)
  {
  }

  /** The last round of `evolve(n)` is one `EvolveStep` on the state after `n - 1` rounds. */
  lemma EvolvedUnfold(s: Snapshot, n: nat, eludeSteps: nat)
    requires Inv(s) && eludeSteps > 0 && n > 0
    ensures Evolved(s, n, eludeSteps) == EvolveStep(Evolved(s, n - 1, eludeSteps), eludeSteps)
  {
    var prev := Evolved(s, n - 1, eludeSteps);
    assert Iterate(Round(eludeSteps), s, n) == Round(eludeSteps)(prev);
  }

  /** Compressing in a round never changes what the two kept diagonals read. */
  lemma StepEludeKeepsReads(s: Snapshot, eludeSteps: nat, i: nat)
    requires Inv(s) && eludeSteps > 0
    ensures var n := BuildNext(s); var r := EvolveStep(s, eludeSteps);
      r.last.Get(i) == n.last.Get(i) && r.penult.Get(i) == n.penult.Get(i)
  {
    var n := BuildNext(s);
    EludePreservesValue(n.last, i);
    EludePreservesValue(n.penult, i);
  }

  /** `next` from `new()`: no doubling; diagonal 3 is one leading zero, then zeros forever. */
  lemma FirstNext()
    ensures BuildNext(Initial()) == Snapshot(Diag(1, [0], [0]), Diag(0, [], [1]), Diag(0, [], [1]), 1, 2)
  {
    var s0 := Initial();
    assert !DoublingCondition(s0.last, s0.penult);
    assert NextPeriod(s0) == 1 && (s0.iteration + 1) / 2 == 1;
    FirstBuilt();
  }

  /** Diagonal 3, built from two all-ones diagonals with one leading zero and period 1. */
  lemma FirstBuilt()
    ensures BuildDiagonal(Diag(0, [], [1]), Diag(0, [], [1]), 1, 1) == Diag(1, [0], [0])
  {
    var d := Diag(0, [], [1]);
    assert BuiltLength(d, 1, 1) == 1;
    FirstRecurrence();
    BuildDiagonalOf(d, d, 1, 1, [0]);
  }

  /** The one state the first build produces. */
  lemma FirstRecurrence()
    ensures Recurrence(Diag(0, [], [1]), Diag(0, [], [1]), 1, 1) == [0]
  {
    var d := Diag(0, [], [1]);
    assert d.Get(1) == 1;
    RecurrenceSnoc(d, d, 1, 0, 1);
  }

  /** Round 1 of `evolve` from `new()`: the iteration becomes 3, which is not a multiple of 10. */
  lemma FirstRound()
    ensures EvolveStep(Initial(), DefaultEludeDiagonalSteps)
      == Snapshot(Diag(1, [0], [0]), Diag(0, [], [1]), Diag(0, [], [1]), 1, 3)
  {
    FirstNext();
    EvolveStepOf(Initial(), DefaultEludeDiagonalSteps, BuildNext(Initial()));
  }

  /**
   * `next` after round 1: the last pattern has no 1 and the penultimate one a single 1, so the
   * period doubles to 2; diagonal 4 reads 0, 0, 1, 0, 1, then 0, 1 repeated.
   */
  lemma SecondNext()
    ensures BuildNext(Snapshot(Diag(1, [0], [0]), Diag(0, [], [1]), Diag(0, [], [1]), 1, 3))
      == Snapshot(Diag(2, [1, 0, 1], [0, 1]), Diag(1, [0], [0]), Diag(0, [], [1]), 2, 3)
  {
    var last, penult := Diag(1, [0], [0]), Diag(0, [], [1]);
    var s1 := Snapshot(last, penult, Diag(0, [], [1]), 1, 3);
    assert Occurrences(penult.pattern, 1) == 1 by {
      assert penult.pattern[..0] == [];
    }
    assert DoublingCondition(last, penult);
    assert NextPeriod(s1) == 2 && (s1.iteration + 1) / 2 == 2;
    SecondBuilt();
  }

  /** Diagonal 4, built with two leading zeros and the doubled period 2. */
  lemma SecondBuilt()
    ensures BuildDiagonal(Diag(1, [0], [0]), Diag(0, [], [1]), 2, 2) == Diag(2, [1, 0, 1], [0, 1])
  {
    var last, penult := Diag(1, [0], [0]), Diag(0, [], [1]);
    assert BuiltLength(last, 2, 2) == 3;
    assert last.Get(2) == 0 && last.Get(3) == 0 && last.Get(4) == 0;
    assert penult.Get(2) == 1 && penult.Get(3) == 1 && penult.Get(4) == 1;
    RecurrenceSnoc(last, penult, 2, 0, 2);
    RecurrenceSnoc(last, penult, 2, 1, 3);
    RecurrenceSnoc(last, penult, 2, 2, 4);
    assert Recurrence(last, penult, 2, 3) == [1, 0, 1];
  }

  /** Round 2 of `evolve`: the iteration becomes 4, which is not a multiple of 10. */
  lemma SecondRound()
    ensures EvolveStep(Snapshot(Diag(1, [0], [0]), Diag(0, [], [1]), Diag(0, [], [1]), 1, 3), DefaultEludeDiagonalSteps)
      == Snapshot(Diag(2, [1, 0, 1], [0, 1]), Diag(1, [0], [0]), Diag(0, [], [1]), 2, 4)
  {
    var s1 := Snapshot(Diag(1, [0], [0]), Diag(0, [], [1]), Diag(0, [], [1]), 1, 3);
    SecondNext();
    EvolveStepOf(s1, DefaultEludeDiagonalSteps, BuildNext(s1));
  }

  /** The first two rounds of `evolve` from `new()`, with the default cadence. */
  lemma FirstRounds()
    ensures Evolved(Initial(), 1, DefaultEludeDiagonalSteps).last == Diag(1, [0], [0])
    ensures Evolved(Initial(), 2, DefaultEludeDiagonalSteps).last == Diag(2, [1, 0, 1], [0, 1])
    ensures Evolved(Initial(), 2, DefaultEludeDiagonalSteps).currentPeriod == 2
  {
    var s0 := Initial();
    assert Evolved(s0, 0, DefaultEludeDiagonalSteps) == s0;
    EvolvedUnfold(s0, 1, DefaultEludeDiagonalSteps);
    FirstRound();
    EvolvedUnfold(s0, 2, DefaultEludeDiagonalSteps);
    SecondRound();
  }

  /**
   * What `next`'s loop keeps between passes, before reading input position `i`: `t` holds the
   * states produced so far, `x` the latest of them (0 before the first), and `p` the last `j` of
   * them, `j` counting the positions already read past `m`, the first one past `last`'s transit
   * and the leading zeros.
   */
  ghost predicate Collecting(last: Diag, penult: Diag, zeros: nat, period: nat, i: nat, j: nat, t: seq<Bit>, p: seq<Bit>, x: Bit)
  {
    var m := Max(TransitEnd(last) + 1, zeros);
    && |last.pattern| > 0 && |penult.pattern| > 0
    && zeros <= i <= m + period
    && t == Recurrence(last, penult, zeros, i - zeros)
    && x == (if i == zeros then 0 else t[i - zeros - 1])
    && j == (if i <= m then 0 else i - m)
    && p == t[|t| - j..]
  }

  /** One pass of `next`'s loop: the produced state extends the transit, and the pattern exactly when `i` is past `last`'s transit. */
  lemma CollectStep(last: Diag, penult: Diag, zeros: nat, period: nat, i: nat, j: nat, t: seq<Bit>, p: seq<Bit>, x: Bit)
    requires Collecting(last, penult, zeros, period, i, j, t, p, x) && j < period
    ensures var y := ApplyRule30(penult.Get(i), last.Get(i), x);
      && (i > TransitEnd(last) ==> Collecting(last, penult, zeros, period, i + 1, j + 1, t + [y], p + [y], y))
      && (i <= TransitEnd(last) ==> Collecting(last, penult, zeros, period, i + 1, j, t + [y], p, y))
  {
    var y := ApplyRule30(penult.Get(i), last.Get(i), x);
    var m := Max(TransitEnd(last) + 1, zeros);
    var n := i - zeros;
    RecurrenceSnoc(last, penult, zeros, n, i);
    assert t + [y] == Recurrence(last, penult, zeros, n + 1);
    assert (t + [y])[n] == y;
    if i > TransitEnd(last) {
      SuffixSnoc(t, j, y);
      assert j + 1 == i + 1 - m;
    } else {
      assert i + 1 <= m;
    }
  }

  /** When the pattern holds `period` states, the collected diagonal is the one `BuildDiagonal` describes. */
  lemma CollectDone(last: Diag, penult: Diag, zeros: nat, period: nat, i: nat, j: nat, t: seq<Bit>, p: seq<Bit>, x: Bit)
    requires Collecting(last, penult, zeros, period, i, j, t, p, x) && period > 0 && j >= period
    ensures Diag(zeros, t, p) == BuildDiagonal(last, penult, zeros, period)
  {
  }

  /**
   * The loop of `next`: from position `numberZeros` on, combines the states of `dK2` and `dK1`
   * at each position with the state just produced, collecting every result as transit and, once
   * past `dK1`'s transit, as pattern too, until the pattern holds `period` states.
   */
  method Collect(dK1: Diag, dK2: Diag, numberZeros: nat, period: nat) returns (transit: seq<Bit>, pattern: seq<Bit>)
    requires |dK1.pattern| > 0 && |dK2.pattern| > 0 && period > 0
    ensures Diag(numberZeros, transit, pattern) == BuildDiagonal(dK1, dK2, numberZeros, period)
  {
    var tauK1 := |dK1.transit|;
    var zetaK1 := dK1.leadingZeros;
    transit := [];
    pattern := [];
    var j := 0;
    var i := numberZeros;
    var lastState: Bit := 0;
    while j < period
      invariant Collecting(dK1, dK2, numberZeros, period, i, j, transit, pattern, lastState)
      decreases Max(tauK1 + zetaK1 + 1, numberZeros) + period - i
    {
      var stateCenter := dK1.Get(i);
      var stateLeft := dK2.Get(i);
      CollectStep(dK1, dK2, numberZeros, period, i, j, transit, pattern, lastState);
      lastState := ApplyRule30(stateLeft, stateCenter, lastState);
      transit := transit + [lastState];
      if i > tauK1 + zetaK1 {
        j := j + 1;
        pattern := pattern + [lastState];
      }
      i := i + 1;
    }
    CollectDone(dK1, dK2, numberZeros, period, i, j, transit, pattern, lastState);
  }

  /** `next`'s loop followed by storing the collected diagonal, with `numberZeros` leading zeros, into `target`. */
  method BuildInto(target: Diagonal, dK1: Diag, dK2: Diag, numberZeros: nat, period: nat)
    requires |dK1.pattern| > 0 && |dK2.pattern| > 0 && period > 0
    modifies target
    ensures target.Value() == BuildDiagonal(dK1, dK2, numberZeros, period)
  {
    var transit, pattern := Collect(dK1, dK2, numberZeros, period);
    target.Set(Diag(numberZeros, transit, pattern));
  }

  /** The evaluator, with its three diagonal buffers owned exclusively and rotated by reference. */
  class Fast30 {
    var last: Diagonal
    var penult: Diagonal
    var current: Diagonal
    var currentPeriod: nat
    var iteration: nat
    const eludeDiagonalSteps: nat
    ghost var Repr: set<object>

    function View(): Snapshot
      reads this, last, penult, current
    {
      Snapshot(last.Value(), penult.Value(), current.Value(), currentPeriod, iteration)
    }

    ghost predicate Valid()
      reads this, Repr
    {
      && this in Repr && last in Repr && penult in Repr && current in Repr
      && last != penult && last != current && penult != current
      && eludeDiagonalSteps > 0
      && Inv(View())
    }

    /** `Fast30::new`, with the compression cadence as a parameter (10 by default in `Options::new`). */
    constructor (eludeDiagonalSteps: nat)
      requires eludeDiagonalSteps > 0
      ensures Valid() && fresh(Repr)
      ensures View() == Initial() && this.eludeDiagonalSteps == eludeDiagonalSteps
    {
      var penultDiagonal := new Diagonal([], []);
      var lastDiagonal := new Diagonal([], []);
      var currentDiagonal := new Diagonal([], []);
      penultDiagonal.PushPattern(1);
      lastDiagonal.PushPattern(1);
      lastDiagonal.SetLeadingZeros(0);
      last := lastDiagonal;
      penult := penultDiagonal;
      current := currentDiagonal;
      currentPeriod := 1;
      iteration := 2;
      this.eludeDiagonalSteps := eludeDiagonalSteps;
      Repr := {this, lastDiagonal, penultDiagonal, currentDiagonal};
    }

    /** `is_doubling`. */
    function IsDoubling(): (r: bool)
      reads this, last, penult
      ensures r <==> 1 !in last.pattern && Occurrences(penult.pattern, 1) % 2 == 1
    {
      DoublingCondition(last.Value(), penult.Value())
    }

    /** `next`: builds diagonal k into the spare buffer with the rule-30 recurrence, then rotates the buffers. */
    method Next()
      requires Valid()
      modifies Repr
      ensures Valid() && Repr == old(Repr)
      ensures View() == BuildNext(old(View()))
    {
      ghost var s0 := View();
      if IsDoubling() {
        currentPeriod := currentPeriod * 2;
      }
      var period := currentPeriod;
      var numberZeros := (iteration + 1) / 2;
      var dK1, dK2 := last.Value(), penult.Value();
      BuildInto(current, dK1, dK2, numberZeros, period);
      ghost var built := current.Value();
      Rotate();
      BuildNextOf(s0, dK1, dK2, numberZeros, period, built);
    }

    /** The two swaps closing `next`: the spare buffer becomes `last`, `last` becomes `penult`, `penult` the spare. */
    method Rotate()
      modifies this
      ensures last == old(current) && penult == old(last) && current == old(penult)
      ensures currentPeriod == old(currentPeriod) && iteration == old(iteration) && Repr == old(Repr)
    {
      penult, last := last, penult;
      last, current := current, last;
    }

    /** `elude_diagonals`: compresses `last` and `penult` in place. */
    method EludeDiagonals()
      requires Valid()
      modifies Repr
      ensures Valid() && Repr == old(Repr)
      ensures View() == Eluded(old(View()))
    {
      last.EludeTransit();
      penult.EludeTransit();
    }

    /** One round of the loop in `evolve`: `next`, count the iteration, compress on a multiple of the cadence. */
    method Round()
      requires Valid()
      modifies Repr
      ensures Valid() && Repr == old(Repr)
      ensures View() == EvolveStep(old(View()), eludeDiagonalSteps)
    {
      ghost var before := View();
      Next();
      ghost var built := View();
      iteration := iteration + 1;
      ghost var counted := built.(iteration := built.iteration + 1);
      assert View() == counted;
      if iteration % eludeDiagonalSteps == 0 {
        EludeDiagonals();
        assert View() == Eluded(counted);
      }
      EvolveStepOf(before, eludeDiagonalSteps, built);
    }

    /** `evolve(steps)`. */
    method Evolve(steps: nat)
      requires Valid()
      modifies Repr
      ensures Valid() && Repr == old(Repr)
      ensures View() == Evolved(old(View()), steps, eludeDiagonalSteps)
    {
      ghost var start := View();
      for k := 0 to steps
        invariant Valid() && Repr == old(Repr)
        invariant View() == Evolved(start, k, eludeDiagonalSteps)
      {
        Round();
        EvolvedUnfold(start, k + 1, eludeDiagonalSteps);
      }
    }
  }
}
