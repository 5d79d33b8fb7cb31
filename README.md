# Rule-30 diagonals, fast and naive, in Dafny

This project models the computational core of `cellular-automata-rust`, a study of Wolfram's rule 30
grown from a single live cell.

Its main part is the **fast diagonal evaluator** (`Fast30`). It holds three left diagonals of the
space-time triangle. Each one is run-length encoded as a `Diagonal`:
- `leading_zeros` implicit zeros;
- a finite `transit`;
- a `pattern` repeated forever.

Positions are 1-based. `next` builds diagonal *k* from diagonals *k-1* (`last`) and *k-2*
(`penult`). It uses the rule-30 recurrence `new[q] = penult[q-1] XOR (last[q-1] OR new[q-1])`. It
doubles the current period when the last pattern holds no 1 and the penultimate pattern holds an
odd number of them. Then it rotates the three buffers. `evolve` repeats `next`, counts iterations
and, every `elude_diagonal_steps` iterations, compresses the two kept diagonals with
`elude_transit`.

Beside it sits the **naive side**:
- a `Row` of cells advanced by a `Rule`, either the hard-wired rule 30 or a Wolfram rule number;
- an `Automaton` that keeps the whole history of rows;
- `AutomatonAnalysis`, which reads the diagonals of that history;
- `Pattern`, the algebraic step from the patterns of two consecutive diagonals to the next pattern;
- `is_periodic`.

How the model is organised:
- Cells are one-bit values (`Bits.Bit`).
- Every piece of state that `cellular-automata-rust` mutates in place is a Dafny `class`: the
  `Diagonal` buffer, the `Fast30` evaluator and the `Automaton`. Their methods are proved against
  functions on values. `AutomatonAnalysis` is a class too, but it only reads its automaton. `Diagonal` is proved against `Diag`, and `Fast30` against `Snapshot`, `BuildNext`,
  `EvolveStep` and `Evolved`. The properties are proved about those functions.
- Loops become `while`/`for` loops with invariants. This covers `next`'s collection loop,
  `elude_transit`, `Row::next`, `extract_diagonal(s)`, both branches of `Pattern::next` and
  `is_periodic`.

Preconditions are the Rust code's panics:
- an `unwrap` on an empty pattern;
- `% 0` with a zero compression cadence;
- an index past the end of `left` in `Pattern::next`, when `left` is shorter than `center`. A
  one-cell all-zero `center` is the exception: its XOR chain reads no cell of `left`;
- `len - 1` on an empty pattern.

Where the documentation and the code disagree, the model follows the code:
- `Row::next` is documented as cyclic. The code clamps the left neighbour of cell 0 to cell 0 and
  wraps only the right neighbour of the last cell. `Rows.SuccessorIsNotCyclic` exhibits the
  difference.
- `test_elude_transit` expects the transit exactly as the loop of `elude_transit` leaves it. The
  code then appends a copy of the (rotated) pattern, at `src/fast_30/diagonal.rs` line 169:
  - `Diagonals.EludeTransitTest1` to `Diagonals.EludeTransitTest3` prove the test's values for the
    loop;
  - `Diagonals.EludeTransitTest1Appended` gives the full result;
  - `Diagonals.EludePreservesValue` shows that the append changes no read.
- The documentation examples of `get_from_index` and `elude_transit` (diagonal.rs lines 108-115
  and 143-150) do not match the code. The unit tests are used instead.

## Model

| member | source | states |
|---|---|---|
| Bits.Occurrences | src/fast_30/diagonal.rs:136-138 | the count of a state in a sequence never exceeds its length |
| Bits.OccurrencesPositive | src/fast_30/diagonal.rs:131-138 | a state occurs in a sequence exactly when its count there is positive |
| Bits.OccurrencesSplit | src/fast_30/diagonal.rs:136-138 | the count of 0s plus the count of 1s is the length |
| Bits.Complement | src/pattern.rs:70 | the cell-wise negation keeps the length |
| Rules.Rule30TruthTable | src/rules.rs:10-12 | rule 30 gives 1 exactly for the neighbourhoods 001, 010, 011 and 100 |
| Rules.ApplyRule30 | src/rules.rs:10-12 | rule 30 copies `left` when `center` and `right` are both 0, and negates `left` otherwise |
| Rules.Rule.Apply | src/rules.rs:1-36 | a `dyn Rule` applies either rule 30 or a Wolfram rule number; Wolfram rule 30 gives the same cell as rule 30 |
| Rules.TripleIndex | src/rules.rs:32 | a neighbourhood's position in a rule number is below 8 |
| Rules.IndexIsTripleIndex | src/rules.rs:32 | the byte index built by shifts and ors is `4*left + 2*center + right` |
| Rules.ShiftedBit | src/rules.rs:33 | shifting a byte down by k and masking it gives 0 or 1, and 1 exactly when bit k is set |
| Rules.WolframRule.Apply | src/rules.rs:31-36 | the result is 0 or 1, and 1 exactly when the rule number's bit at the neighbourhood's index is set |
| Rules.WolframRule.States | src/rules.rs:38-40 | the widened rule number is below 256 and narrows back to the rule number |
| Rules.Wolfram30IsRule30 | src/rules.rs:9-36 | Wolfram rule number 30 agrees with the rule-30 formula on all eight neighbourhoods |
| Diagonals.New | src/fast_30/diagonal.rs:38-40 | pattern first and transit second, no leading zeros; position i reads transit state i-1 |
| Diagonals.ParseBits | src/fast_30/diagonal.rs:55-62 | parsing succeeds exactly on strings of 0s and 1s; it gives one state per character, 1 exactly where the character is '1' |
| Diagonals.ParseDigits | src/fast_30/diagonal.rs:55-62 | writing states as digits and parsing them back gives the same states |
| Diagonals.NewFromBinary | src/fast_30/diagonal.rs:54-65 | defined on every pair of binary strings; transit first, no leading zeros; the transit and the pattern are the states the two strings spell |
| Diagonals.NewFromBinaryTest | src/fast_30/diagonal.rs:205-217 | `new_from_binary("1001", "0101")` equals `new([0,1,0,1], [1,0,0,1])`; on the other strings both the pattern and the transit differ from those |
| Diagonals.Diag.Get | src/fast_30/diagonal.rs:116-128 | every position up to the leading-zero count reads 0 (the full read is in `GetIsUnrolled` and `GetPeriodic`) |
| Diagonals.GetIsUnrolled | src/fast_30/diagonal.rs:116-128 | position i reads element i-1 of the leading zeros, then the transit, then as many pattern copies as needed |
| Diagonals.GetLeadingZeros | src/fast_30/diagonal.rs:121 | every position up to the leading-zero count reads 0 |
| Diagonals.GetPeriodic | src/fast_30/diagonal.rs:124-127 | past the transit, reads repeat with period equal to the pattern length |
| Diagonals.GetFromIndexTest | src/fast_30/diagonal.rs:256-265 | the reads the unit test expects, with no leading zeros |
| Diagonals.GetFromIndexLeadingZerosTest | src/fast_30/diagonal.rs:267-277 | the reads the unit test expects, with four leading zeros |
| Diagonals.Diag.HasStateInPattern | src/fast_30/diagonal.rs:131-133 | a state is in the pattern exactly when its count there is positive |
| Diagonals.Diag.CountStateInPattern | src/fast_30/diagonal.rs:136-138 | the count never exceeds the pattern length |
| Diagonals.PatternStateTests | src/fast_30/diagonal.rs:219-235 | the presence and count answers the two unit tests expect |
| Diagonals.CountsCoverPattern | src/fast_30/diagonal.rs:131-138 | the two counts sum to the pattern length; a 1 is present exactly when fewer than all cells are 0 |
| Diagonals.RotateRightByPermutes | src/fast_30/diagonal.rs:166 | rotating the pattern keeps its multiset of states |
| Diagonals.EludeLoop | src/fast_30/diagonal.rs:154-167 | the loop keeps the pattern length |
| Diagonals.EludeLoopShape | src/fast_30/diagonal.rs:154-167 | the loop keeps a prefix of the transit, never shorter than one state, and rotates the pattern right once per dropped state |
| Diagonals.Elude | src/fast_30/diagonal.rs:151-170 | compression keeps the leading zeros and the pattern length |
| Diagonals.PopRotatePreserves | src/fast_30/diagonal.rs:158-166 | dropping a transit state equal to the pattern's last state, then rotating, changes no read |
| Diagonals.EludeLoopPreserves | src/fast_30/diagonal.rs:154-167 | the whole loop changes no read |
| Diagonals.AppendPatternPreserves | src/fast_30/diagonal.rs:169 | appending one period to the transit changes no read |
| Diagonals.EludePreservesValue | src/fast_30/diagonal.rs:151-170 | `elude_transit` changes no read of the diagonal at any position |
| Diagonals.EludeStep | src/fast_30/diagonal.rs:158-166 | one loop pass: pop the equal state, rotate the pattern |
| Diagonals.EludeStop | src/fast_30/diagonal.rs:161-165 | the loop stops when the last states differ |
| Diagonals.EludeTransitTest1 | src/fast_30/diagonal.rs:239-242 | the first test's expected transit and pattern are the loop's result |
| Diagonals.EludeTransitTest1Appended | src/fast_30/diagonal.rs:151-170 | on the first test's diagonal, `elude_transit` leaves the loop's transit followed by the rotated pattern |
| Diagonals.EludeTransitTest2 | src/fast_30/diagonal.rs:244-247 | an all-zero transit shrinks to a single state |
| Diagonals.EludeTransitTest3 | src/fast_30/diagonal.rs:249-252 | the third test's expected transit and pattern are the loop's result |
| Diagonals.Diagonal.constructor | src/fast_30/diagonal.rs:38-40 | the new buffer holds the value `New(pattern, transit)` |
| Diagonals.Diagonal.Clear | src/fast_30/diagonal.rs:68-72 | all three fields are emptied |
| Diagonals.Diagonal.PushTransit | src/fast_30/diagonal.rs:78-81 | the state is appended to the transit; nothing else changes |
| Diagonals.Diagonal.PushPattern | src/fast_30/diagonal.rs:88-90 | the state is appended to the pattern; nothing else changes |
| Diagonals.Diagonal.Set | src/fast_30/diagonal.rs:93-98 | the buffer takes over all three fields of the given diagonal |
| Diagonals.Diagonal.SetLeadingZeros | src/fast_30/diagonal.rs:173-175 | the leading-zero count is replaced; transit and pattern stay |
| Diagonals.Diagonal.EludeTransit | src/fast_30/diagonal.rs:151-170 | the buffer's new value is `Elude` of its old value, so every read is kept (`EludePreservesValue`) |
| Fast30Evaluator.DoublingCondition | src/fast_30/fast30.rs:103-105 | true exactly when the last pattern holds no 1 and the penult pattern holds an odd number of 1s |
| Fast30Evaluator.NextPeriod | src/fast_30/fast30.rs:57-58 | the period is kept or doubled, and a power of two stays a power of two |
| Fast30Evaluator.BuildDiagonal | src/fast_30/fast30.rs:72-97 | the built diagonal has the given leading zeros; its pattern is its last `period` transit states, and all of them lie past `last`'s transit |
| Fast30Evaluator.Initial | src/fast_30/fast30.rs:34-52 | the initial state satisfies the evaluator invariant |
| Fast30Evaluator.Recurrence | src/fast_30/fast30.rs:83-97 | the recurrence produces exactly one state per input position |
| Fast30Evaluator.RecurrencePrefix | src/fast_30/fast30.rs:83-97 | a longer run of the loop extends a shorter one |
| Fast30Evaluator.RecurrenceAt | src/fast_30/fast30.rs:84-89 | produced state m is rule 30 on penult and last at input position start+m and on state m-1 (0 for the first) |
| Fast30Evaluator.RecurrenceSnoc | src/fast_30/fast30.rs:84-89 | one more pass appends the rule-30 combination at the next input position |
| Fast30Evaluator.BuildNext | src/fast_30/fast30.rs:55-101 | `next` keeps the invariant: positive period, a full-period last pattern, a penult pattern of one or half a period |
| Fast30Evaluator.BuiltDiagonalRecurrence | src/fast_30/fast30.rs:55-101 | the built diagonal has `(iteration+1)/2` leading zeros and obeys the diagonal recurrence at every transit position; its pattern is its last `period` states, all computed past `last`'s transit |
| Fast30Evaluator.BuildNextOf | src/fast_30/fast30.rs:99-100 | after the swaps, the built diagonal is `last`, old `last` is `penult`, old `penult` is the spare |
| Fast30Evaluator.CollectStep | src/fast_30/fast30.rs:83-97 | one pass extends the transit, and the pattern exactly when the position is past `last`'s transit |
| Fast30Evaluator.CollectDone | src/fast_30/fast30.rs:83 | once the pattern holds `period` states, the collected diagonal is the built one |
| Fast30Evaluator.Collect | src/fast_30/fast30.rs:78-97 | the loop of `next` collects exactly the transit and pattern of the built diagonal |
| Fast30Evaluator.BuildInto | src/fast_30/fast30.rs:72-97 | the spare buffer ends up holding the built diagonal with `numberZeros` leading zeros |
| Fast30Evaluator.Eluded | src/fast_30/fast30.rs:135-144 | compressing `last` and `penult` keeps the invariant |
| Fast30Evaluator.EvolveStep | src/fast_30/fast30.rs:113-121 | one round of `evolve` keeps the invariant |
| Fast30Evaluator.Evolved | src/fast_30/fast30.rs:111-130 | any number of rounds keeps the invariant |
| Fast30Evaluator.EvolvedKeepsInv | src/fast_30/fast30.rs:111-130 | iterating rounds keeps the invariant, by induction on the round count |
| Fast30Evaluator.StepPeriod | src/fast_30/fast30.rs:55-120 | a round raises the iteration by one; it doubles the period exactly when the doubling condition holds, and otherwise keeps it |
| Fast30Evaluator.EvolvedCounters | src/fast_30/fast30.rs:111-130 | `evolve(steps)` raises the iteration by `steps`; the period never shrinks and stays a power of two |
| Fast30Evaluator.IterateCounters | src/fast_30/fast30.rs:113-129 | iterating any step that advances every valid state advances the iteration by the step count |
| Fast30Evaluator.RoundCounters | src/fast_30/fast30.rs:113-121 | one round advances the state: invariant kept, iteration +1, period no smaller and still a power of two |
| Fast30Evaluator.DoubleIsPowerOfTwo | src/fast_30/fast30.rs:58 | doubling a power of two gives a power of two |
| Fast30Evaluator.EvolvedPeriodIsPowerOfTwo | src/fast_30/fast30.rs:111-130 | from `new()`, the period is a power of two after any number of rounds |
| Fast30Evaluator.IterateSplit | src/fast_30/fast30.rs:113-129 | a rounds then b rounds are a+b rounds |
| Fast30Evaluator.EvolveSplit | src/fast_30/fast30.rs:111-130 | `evolve(a)` then `evolve(b)` is `evolve(a+b)`, because the cadence keys on the iteration |
| Fast30Evaluator.EvolveStepOf | src/fast_30/fast30.rs:115-120 | a round is `next`, then the iteration count, then compression exactly on a multiple of the cadence |
| Fast30Evaluator.EvolvedUnfold | src/fast_30/fast30.rs:113-129 | the last round of `evolve(n)` is one round on the state after n-1 rounds |
| Fast30Evaluator.StepEludeKeepsReads | src/fast_30/fast30.rs:118-120 | compressing inside a round changes no read of `last` or `penult` |
| Fast30Evaluator.FirstNext | src/fast_30/fast30.rs:55-101 | from `new()`, there is no doubling, and diagonal 3 is one leading zero then zeros forever |
| Fast30Evaluator.FirstBuilt | src/fast_30/fast30.rs:75-97 | the first build from `new()` gives one leading zero, transit 0 and pattern 0 |
| Fast30Evaluator.FirstRecurrence | src/fast_30/fast30.rs:83-97 | from `new()`, the first run of the recurrence produces the single state 0 |
| Fast30Evaluator.FirstRound | src/fast_30/fast30.rs:111-130 | round 1 reaches iteration 3 without compression |
| Fast30Evaluator.SecondNext | src/fast_30/fast30.rs:55-101 | the second `next` doubles the period to 2 and builds diagonal 4: 0, 0, 1, 0, 1, then 0, 1 repeated |
| Fast30Evaluator.SecondBuilt | src/fast_30/fast30.rs:75-97 | the second build, with period 2, gives two leading zeros, transit 1, 0, 1 and pattern 0, 1 |
| Fast30Evaluator.SecondRound | src/fast_30/fast30.rs:111-130 | round 2 reaches iteration 4 without compression |
| Fast30Evaluator.FirstRounds | src/fast_30/fast30.rs:111-130 | the diagonals and the period that `evolve(1)` and `evolve(2)` reach from `new()` |
| Fast30Evaluator.Fast30.constructor | src/fast_30/fast30.rs:34-52 | three distinct fresh buffers; `last` and `penult` are patterns of a single 1; period 1 and iteration 2 |
| Fast30Evaluator.Fast30.IsDoubling | src/fast_30/fast30.rs:103-105 | true exactly when the last pattern has no 1 and the penult pattern has an odd number of 1s |
| Fast30Evaluator.Fast30.Next | src/fast_30/fast30.rs:55-101 | the evaluator's new state is `BuildNext` of its old state, and its buffers stay distinct |
| Fast30Evaluator.Fast30.Rotate | src/fast_30/fast30.rs:99-100 | the two swaps rotate spare to `last`, `last` to `penult` and `penult` to spare |
| Fast30Evaluator.Fast30.EludeDiagonals | src/fast_30/fast30.rs:135-144 | `last` and `penult` are compressed in place and `current` is untouched |
| Fast30Evaluator.Fast30.Round | src/fast_30/fast30.rs:113-121 | one pass of `evolve`'s loop moves the state by `EvolveStep` |
| Fast30Evaluator.Fast30.Evolve | src/fast_30/fast30.rs:111-130 | the new state is `Evolved` of the old one, so the counters and power-of-two lemmas apply to it |
| Rows.Row.Len | src/row.rs:32-34 | the number of cells |
| Rows.Row.Get | src/row.rs:44-46 | the cell is present exactly for an index in range, and it is the cell stored there |
| Rows.Row.Successor | src/row.rs:79-97 | the successor has as many cells as the row, at iteration 0 |
| Rows.Row.Next | src/row.rs:79-97 | the loop builds exactly the successor row |
| Rows.Row.ToString | src/row.rs:107-109 | one character per cell: '.' for 0 and '#' for 1 |
| Rows.New | src/row.rs:57-62 | the row holds the given cells at iteration 0 |
| Rows.Parse | src/row.rs:107-109 | a successful read of a drawing has one cell per character |
| Rows.ParseToString | src/row.rs:107-109 | reading back the drawing of a row gives the row's cells |
| Rows.SuccessorInterior | src/row.rs:82-91 | inside the row, cell i of the successor is the rule on cells i-1, i and i+1 |
| Rows.SuccessorEdges | src/row.rs:83-85 | cell 0 is its own left neighbour; the last cell reads cell 0 as its right neighbour |
| Rows.SuccessorSingleCell | src/row.rs:83-85 | a single cell is its own left and right neighbour |
| Rows.CyclicSuccessor | src/row.rs:66-78 | the successor the documentation describes, with both edges wrapped, keeps the length |
| Rows.SuccessorIsNotCyclic | src/row.rs:76-85 | on `..#`, rule 30 gives `.##` in the code and `###` under the documented wrap |
| Rows.Wolfram30RowIsRule30 | src/row.rs:79-97 | advancing a row with Wolfram rule 30 gives the same row as rule 30 |
| Automata.Run | src/automaton.rs:20-25 | every row of a run has the first row's width |
| Automata.HistoryIsRun | src/automaton.rs:20-32 | in a history, row k is the k-th successor of row 0 |
| Automata.HistoryWidths | src/automaton.rs:20-32 | every row of a history has the first row's width |
| Automata.Automaton.constructor | src/automaton.rs:12-18 | the history holds the first row only, at iteration 1 |
| Automata.Automaton.Next | src/automaton.rs:20-25 | the successor of the last row is appended, the iteration is counted and the history invariant is kept |
| Automata.Automaton.Evolve | src/automaton.rs:27-32 | rows and iteration grow by `steps`; the rows already there are kept |
| Automata.Automaton.Grid | src/automaton.rs:34-36 | the stored rows themselves: one row per iteration, never empty; row k is the k-th successor of the first row |
| Automata.Automaton.Iteration | src/automaton.rs:38-40 | the iteration is the number of rows, at least 1 |
| AutomatonAnalyses.Column | src/automaton_analysis.rs:53-56 | the left diagonal's column lies `offset` below `iteration+1`, the right one's `offset` above it |
| AutomatonAnalyses.CellAt | src/automaton_analysis.rs:58-63 | one cell exactly when the row exists and has that column, otherwise nothing |
| AutomatonAnalyses.Extracted | src/automaton_analysis.rs:52-66 | rows n to m-1 give at most one cell each |
| AutomatonAnalyses.ExtractedStep | src/automaton_analysis.rs:52-66 | row i adds its cell at the moving column exactly when it has one |
| AutomatonAnalyses.DiagonalEmpty | src/automaton_analysis.rs:52 | a diagonal starting at or past the last iteration is empty |
| AutomatonAnalyses.ExtractedFull | src/automaton_analysis.rs:52-66 | when every crossed row has the column, cell k is row n+k at the column k steps from `iteration+1` |
| AutomatonAnalyses.HistoryDiagonal | src/automaton_analysis.rs:40-69 | in a history whose first row is wide enough, the diagonal has one cell per row, read at the moving column |
| AutomatonAnalyses.RightDiagonalOfHistory | src/automaton_analysis.rs:53-63 | a first row wider than `2*iteration - n` gives the right diagonal one cell per row |
| AutomatonAnalyses.LeftDiagonalOfHistory | src/automaton_analysis.rs:53-63 | a first row wider than `iteration+1` gives the left diagonal one cell per row |
| AutomatonAnalyses.AutomatonAnalysis.constructor | src/automaton_analysis.rs:16-22 | reads the given automaton; both multipliers are 1 |
| AutomatonAnalyses.AutomatonAnalysis.ExtractDiagonal | src/automaton_analysis.rs:40-69 | the result is the diagonal's cells from rows n to `iteration-1`, skipping missing rows and columns |
| AutomatonAnalyses.AutomatonAnalysis.ExtractDiagonals | src/automaton_analysis.rs:25-38 | diagonals 1 to `iteration-1`, in order |
| Patterns.WalkIndices | src/pattern.rs:37-39 | countdown step i reads the cell visited at walk step len-i and writes the next one |
| Patterns.LastOne | src/pattern.rs:33 | the position of the last 1: it holds a 1 and only 0s follow |
| Patterns.ParityCountsOnes | src/pattern.rs:54 | the XOR of all cells is 1 exactly for an odd number of 1s |
| Patterns.Pattern.Len | src/pattern.rs:18-20 | the length of the newer pattern |
| Patterns.Pattern.Next | src/pattern.rs:22-78 | the new older pattern is `center`, doubled exactly on doubling; the new pattern is the rule-30 image if `center` has a 1, else the XOR chain, followed by its complement exactly on doubling |
| Patterns.WalkStep | src/pattern.rs:41-47 | writing the image of the visited cell extends the finished part of the walk by one step |
| Patterns.WalkComplete | src/pattern.rs:37-48 | a walk over every cell yields the rule-30 image |
| Patterns.NextWithOne | src/pattern.rs:31-51 | the walk down from the last 1 produces a pattern satisfying the cyclic rule-30 relation with `left` and `center` |
| Patterns.NextWithoutOne | src/pattern.rs:56-65 | the result ends in 1 and each cell is the next one XOR `left` at the next position |
| Patterns.Rule30ImageUnique | src/pattern.rs:31-51 | with a 1 in `center`, the cyclic rule-30 relation has only one solution |
| Patterns.AgreeAlongWalk | src/pattern.rs:37-48 | two solutions agree on every cell the walk from a 1 has produced |
| Patterns.XorChainClosedForm | src/pattern.rs:56-65 | chain cell i is the negated parity of `left` after position i up to the chain's length |
| Patterns.DoublesLikeEvaluator | src/pattern.rs:67-73 | the doubling test of `Pattern::next` is exactly the evaluator's `is_doubling` on the same patterns |
| Utils.IsPeriodic | src/utils.rs:4-15 | true exactly when every cell equals the cell `period` places further on, wherever that cell exists |
| Utils.TrivialPeriods | src/utils.rs:4-15 | every sequence has period 0, and every period at least its length |
| Utils.MismatchBreaksPeriod | src/utils.rs:11 | a single mismatching pair rules a period out |
| Utils.WindowPastTransitIsPeriodic | src/utils.rs:4-15 | any window of a diagonal read past its transit has the pattern length as a period |

## Left out

- Output and timing: `Fast30::to_string`, `Diagonal::to_string`, `save_to_file` and the logging
  in `next`, `evolve` and `elude_diagonals`. They only print or write files.
- The `log` argument of `elude_diagonals`: it only controls printing.
- `Options`:
  - the cadence `elude_diagonal_steps` is a constructor parameter;
  - `src/fast_30/options.rs` sets it to 10 (`DefaultEludeDiagonalSteps`);
  - saving and logging are off by default and are not modelled.
- `flags_options.rs`, `main.rs`, `lib.rs`, the benchmark, `src/diagonal.rs` and `src/line.rs` are
  not part of this model.
- `src/automaton.rs` imports the generic `line::Row`, but `line.rs` writes into an empty vector.
  The automaton is modelled over the `row::Row` that the rest of the core uses.
- `Cell` is a one-bit value:
  - `Cell::display`'s '?' branch cannot occur;
  - the `!` and `==` that `pattern.rs` applies to cells (not defined in `cell.rs`) are taken as
    the bit's complement and equality.
- Digits 2-9 in `new_from_binary`: the Rust code casts them to out-of-range states, and the model
  rejects them (`None`) along with every other non-binary character, where `new_from_binary` panics.
- `Box` identity and the buffer capacities (1,000,000 and 64): they affect speed, not values.
- The `usize` width: `iteration`, `current_period` and the positions are unbounded, and overflow is
  not modelled.
- `Rule30::states`: it is `todo!()` in `src/rules.rs`.
- `tau_k2` and `zeta_k2` in `next`: they are computed but never used.
- Fast30Evaluator.BuildInto: it collects the diagonal locally and stores it in the spare buffer
  once. `next` clears the buffer and pushes state by state. The final buffer value is the same.
- Fast30Evaluator.Inv: it does not include "the period is a power of two". That is proved of
  `evolve` instead (`EvolvedCounters`, `EvolvedPeriodIsPowerOfTwo`).
- Fast30Evaluator.Round: outside the invariant it leaves a state alone. No evaluator reaches such
  a state.
- The equivalence between the fast evaluator's diagonals and the naive automaton's diagonals is
  not proved. The fast method rests on the assumption that every diagonal turns periodic with
  the current period, and the model states what the code computes, not that assumption.
- Bits.Occurrences: its own contract only bounds the count. The count's meaning is in
  `OccurrencesPositive` and `OccurrencesSplit`.
- Diagonals.Diag.Get: its own contract only gives the leading zeros. The transit and pattern reads
  are in `GetIsUnrolled` and `GetPeriodic`.
- Rules.Rule.Apply: its own contract only ties Wolfram rule 30 to rule 30. What a Wolfram rule
  number gives is stated by `WolframRule.Apply`, and what rule 30 gives by `ApplyRule30`.
- Diagonals.Diag.CountStateInPattern: its own contract only bounds the count. The exact split is
  in `CountsCoverPattern` and the values are in `PatternStateTests`.
- Diagonals.EludeLoop, Rows.Parse and Rows.Row.Successor: their own contracts only give lengths.
  Their meaning is in `EludeLoopShape` and `EludePreservesValue`, `ParseToString`, and
  `SuccessorInterior`, `SuccessorEdges` and `Row.Next`.
- AutomatonAnalyses.AutomatonAnalysis: `multiplier_left` and `multiplier_right` are stored but
  never read. The step of `extract_diagonal` is the constant 1.
- Patterns.Pattern.Next: the `default_cell` argument is accepted and ignored, as `Pattern::next`
  ignores it.
- Patterns.Pattern: `Pattern::to_string` is display only.
- Patterns: the vectors of `Pattern::next` are sequences updated by index.
- Patterns.NextWithOne: the placeholder cell (state 100) before the first step is an empty
  option. It is never read, because the walk starts on a 1.
- Utils.IsPeriodic: it takes the states of the cells, not references to them.
