# leak_byte: the decision logic of a Spectre-style byte recovery

This project models, in Dafny, the deterministic part of `leak_byte` in
`speculate_and_leak.cpp`: the routine that recovers one protected byte by
mistraining a bounds check, reading a probe buffer speculatively, and timing
reads of its 256 cache lines. The hardware side (cache flushes, the
speculative read, the cycle counter) is replaced by an arbitrary oracle
`latency(run, line)`: the cycle count the timing pass of round `run` measures
for line `line`. Everything proved holds whatever that oracle returns.

What is modelled:

- `Layout`: the probe buffer `timing_array` of 256 lines of 512 bytes and the
  `element_at_line` offset mapping.
- `TopTwoSelection`: `get_top_two`, a single pass keeping the best and the
  runner-up position, both starting at the first position and moved only by
  strict `>`.
- `VisitOrder`: the visit order `((i * 167) + 13) & 0xff` of the timing pass
  and its inverse `((line + 243) * 23) % 256`.
- `Training`: the index schedule of the 500-iteration training loop and the
  architectural outcome of the `local_index < *slow_size` guard.
- `Scoring`: the timing pass filling `times`, the truncated mean `t_avg`, and
  the scoring pass that gives a point to each line read in under half the
  mean, except the line of `private_data[0]`.
- `Leak`: the round loop with its early-exit test
  `*top.first > 2 * *top.second + 200` and its cap of 1000 rounds, as a
  method (`Leak.LeakByte`) and as a reference definition (`Leak.Loop`,
  `Leak.LeakLoop`).

Consequences proved about the loop: scores never fall and rise by at most
one per round; the score of `private_data[0]`'s line stays 0; the loop stops
within 1000 rounds, early exactly at the first round whose scores pass the
test, never before round 201; when candidate 0 holds a largest score both top
results are candidate 0 and the test cannot pass, so an early (confident)
answer is never 0 and never the line of `private_data[0]`.

The source's comments and its scoring code exclude the line whose number is
the byte `private_data[0]` (the line warmed by the nine-in-ten accesses), not
candidate index 0 as a plain reading of "the known-accessible index" would
suggest; the model follows the code and takes that byte as the parameter
`excluded`.

## Model

| member | source | states |
|---|---|---|
| `Layout.ElementAtLine` | speculate_and_leak.cpp:41-55 | the line's offset is 512-aligned, divides back to the line number, and the whole 512-byte block lies inside the 256 * 512 array |
| `Layout.LineOf` | speculate_and_leak.cpp:41-55 | any offset of the array falls in the block of the line it is mapped to |
| `Layout.LineOfElement` | speculate_and_leak.cpp:53-55 | every byte of a line's block maps back to that line (the mapping is invertible) |
| `Layout.LinesDisjoint` | speculate_and_leak.cpp:53-55 | distinct byte values touch disjoint 512-byte blocks |
| `TopTwoSelection.Scan` | speculate_and_leak.cpp:27-34 | after visiting n > 0 positions both kept positions lie among them; with none visited both are the start |
| `TopTwoSelection.ScanInvariant` | speculate_and_leak.cpp:27-34 | the loop keeps the earliest maximum as first result; the runner-up is the start while the best is, and otherwise a different position holding the earliest largest value of all other positions |
| `TopTwoSelection.TopTwo` | speculate_and_leak.cpp:25-36 | on a non-empty range both results are positions of the range |
| `TopTwoSelection.TopTwoSpec` | speculate_and_leak.cpp:25-36 | first result is the earliest position of a maximum; second is the start when the first is, otherwise the earliest largest of all other positions; an empty range gives the start twice |
| `TopTwoSelection.BestIsUnique` | speculate_and_leak.cpp:29-31 | any position that is an earliest maximum is the first result |
| `TopTwoSelection.BothAtStartIffStartIsMax` | speculate_and_leak.cpp:27-35 | both results are the start if and only if the first element is a largest one |
| `TopTwoSelection.SecondAtMostBest` | speculate_and_leak.cpp:29-35 | the runner-up's value never exceeds the best's |
| `VisitOrder.Shuffle` | speculate_and_leak.cpp:90 | the line `shuffled_i` read at visit `i`; `% 256` stands for `& 0xff` on the non-negative operands that occur |
| `VisitOrder.Unshuffle` | speculate_and_leak.cpp:90 | the visit at which a line is read, the inverse of the visit order (multiplication by 23, the inverse of 167 modulo 256) |
| `VisitOrder.UnshuffleShuffle` | speculate_and_leak.cpp:89-90 | the inverse map recovers the visit from the line it read |
| `VisitOrder.ShuffleUnshuffle` | speculate_and_leak.cpp:89-90 | the line read at the computed visit is the line asked for |
| `VisitOrder.ShuffleInjective` | speculate_and_leak.cpp:89-90 | two different visits read two different lines |
| `VisitOrder.ShuffleIsPermutation` | speculate_and_leak.cpp:89-90 | the lines read over one pass are exactly the lines 0..255, each read at exactly one visit |
| `Training.LocalIndex` | speculate_and_leak.cpp:79 | `local_index` of training iteration `i`: index 0 unless `(i + 1) % 10` is zero, the target then |
| `Training.TargetCountIsTenth` | speculate_and_leak.cpp:73-79 | for a target other than 0, `n / 10` of the first n iterations select it |
| `Training.TargetCountPerRound` | speculate_and_leak.cpp:73-79 | of the 500 iterations of a round, 50 select the target and 450 select index 0 |
| `Training.GuardAdmitsOnlyIndexZero` | speculate_and_leak.cpp:79-84 | for a target of at least 1 the guard `local_index < *slow_size` passes exactly on the index-0 iterations, so only `private_data[0]` is read architecturally |
| `Scoring.Sum` | speculate_and_leak.cpp:99 | the `std::accumulate` of the 256 latencies of a round, over unbounded naturals |
| `Scoring.Average` | speculate_and_leak.cpp:99 | `t_avg` is the largest value whose 256-fold does not exceed the sum of the latencies |
| `Scoring.AverageBetween` | speculate_and_leak.cpp:99 | the truncated mean lies between any lower and any upper bound of the latencies |
| `Scoring.IsFast` | speculate_and_leak.cpp:103 | the first half of the scoring test: the line was read in under half the truncated mean |
| `Scoring.NotAllLinesFast` | speculate_and_leak.cpp:99-104 | whatever the latencies, some line is not under half the mean, so no round scores every line |
| `Scoring.Times` | speculate_and_leak.cpp:89-97 | the reference `times` array of a round has one entry per line |
| `Scoring.MeasurePass` | speculate_and_leak.cpp:89-97 | the shuffled timing pass leaves every slot holding this round's measurement for its line, whatever the previous round left there |
| `Scoring.ScoreRound` | speculate_and_leak.cpp:102-104 | a scoring pass keeps one score per line |
| `Scoring.ScoreRoundEffect` | speculate_and_leak.cpp:102-104 | each score rises by 0 or 1; it rises exactly when its line was under half the mean and is not the line of `private_data[0]`; that line's score is unchanged |
| `Leak.Zeros` | speculate_and_leak.cpp:62 | the score array starts with 256 zeros |
| `Leak.Decisive` | speculate_and_leak.cpp:106-109 | the early-exit test on the top two of a score array: the best exceeds twice the runner-up plus 200 |
| `Leak.ScoresAfter` | speculate_and_leak.cpp:66-104 | the reference score array after any number of rounds has one score per line |
| `Leak.ScoresMonotone` | speculate_and_leak.cpp:102-104 | from round r1 to round r2 no score falls and none rises by more than r2 - r1 |
| `Leak.ScoresBounded` | speculate_and_leak.cpp:102-104 | after r rounds every score is at most r |
| `Leak.ExcludedNeverScores` | speculate_and_leak.cpp:101-104 | the score of the line of `private_data[0]` is 0 after every round |
| `Leak.StartMaxBlocksExit` | speculate_and_leak.cpp:106-109 | when candidate 0 holds a largest score the exit test fails; a passing test never has candidate 0 as best |
| `Leak.DecisiveNeedsMargin` | speculate_and_leak.cpp:109 | a passing test needs a best score above 200 |
| `Leak.NoExitBeforeRound201` | speculate_and_leak.cpp:102-110 | the exit test fails after each of the first 200 rounds, whatever the latencies |
| `Leak.DecisiveNeedsRounds` | speculate_and_leak.cpp:106-110 | the test can pass only after a round numbered above 200 |
| `Leak.DecisiveWinner` | speculate_and_leak.cpp:101-110 | when the test passes, the best candidate is neither 0 nor the line of `private_data[0]` |
| `Leak.PlayRound` | speculate_and_leak.cpp:87-109 | one loop body takes the scores of r rounds to those of r + 1 and reports that round's best candidate and exit test |
| `Leak.Loop` | speculate_and_leak.cpp:66-114 | the reference round loop for any round-by-round test and answer: stop at the first passing round, or give up flagged after round 1000 |
| `Leak.LeakLoop` | speculate_and_leak.cpp:66-114 | that loop with `leak_byte`'s own test and answer: the exit test and the best candidate of the scores after each round |
| `Leak.LoopOutcome` | speculate_and_leak.cpp:66-114 | the loop ends after at most 1000 rounds, at the first round whose test passes or at the cap; the low-confidence mark is set exactly when the last round did not pass, which happens only at the cap; the answer is that round's best candidate |
| `Leak.LeakByteOutcome` | speculate_and_leak.cpp:66-114 | a whole call stops within 1000 rounds; it exits early exactly after the first round whose scores pass the gap test, never before round 201, and never with candidate 0 or the line of `private_data[0]` as its answer; otherwise it reports the cap as low-confidence |
| `Leak.LeakByte` | speculate_and_leak.cpp:61-114 | the imperative round loop returns exactly the outcome of the reference loop |

## Left out

- `force_read`, `cpu_time` (`__rdtscp`) and `_mm_clflush` are hardware intrinsics; their effect is the arbitrary `latency` oracle.
- The speculative read behind the guard and the `volatile` stall loop cannot be expressed; the model says nothing about which line becomes fast, nor whether the answer is the secret byte.
- The 500 training iterations are modelled only as their index schedule and guard outcome; they do not feed the scores, which depend on the oracle alone.
- `main` (page-aligned allocation, `strcpy`, `mprotect` and its fatal error, printing) is setup and I/O.
- `std::fill` of `timing_array` and its `static` storage only matter for cache behaviour.
- `Scoring.Average`: `std::accumulate(..., 0)` accumulates in `int` and may overflow; the model sums unbounded naturals and divides (truncation and floor agree on naturals).
- `Leak.LeakByte`: the `char` return value is given as the candidate index 0..255, without the narrowing to a possibly signed `char`; the printed `[[[unlikely]]]:` marker becomes the `lowConfidence` flag.
- Latencies are differences of a monotone cycle counter and are taken as naturals; the `int64_t` width is not modelled.
- Latencies are indexed by line rather than by visit; since each line is read at exactly one visit per round (`VisitOrder.ShuffleIsPermutation`), no measurement is lost.
