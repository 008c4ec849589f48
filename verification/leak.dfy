/**
 * The round loop of `leak_byte`: up to 1000 rounds of measuring and scoring,
 * after each of which the two best scores are compared; the loop ends early
 * when the best is more than twice the runner-up plus 200, and otherwise
 * gives up after the last round with a low-confidence mark.
 */
module Leak {
  import opened Layout
  import opened TopTwoSelection
  import opened Scoring

  /** Round cap of the loop. */
  const MaxRounds: nat := 1000

  /** Additive margin of the early-exit test. */
  const ExitMargin: nat := 200

  /** The score vector as it starts: every candidate at 0. */
  function Zeros(): (s: seq<nat>)
    ensures |s| == NumLines
    ensures forall i :: 0 <= i < NumLines ==> s[i] == 0
  {
    seq(NumLines, _ => 0)
  }

  /** The early-exit test on a score vector: `*top.first > 2 * *top.second + 200`. */
  predicate Decisive(scores: seq<nat>)
    requires |scores| > 0
  {
    var (best, second) := TopTwo(scores);
    scores[best] > 2 * scores[second] + ExitMargin
  }

  /**
   * The score vector after `rounds` complete rounds, as a reference
   * definition: each round scores the latencies its timing pass measured.
   */
  function ScoresAfter(excluded: Byte, latency: Latency, rounds: nat): (s: seq<nat>)
    ensures |s| == NumLines
  {
    if rounds == 0 then Zeros()
    else ScoreRound(ScoresAfter(excluded, latency, rounds - 1), Times(latency, rounds - 1), excluded)
  }

  /**
   * Scores never fall, and over `r2 - r1` further rounds each rises by at
   * most `r2 - r1`.
   */
  lemma {:induction false} ScoresMonotone(excluded: Byte, latency: Latency, r1: nat, r2: nat, i: nat)
    requires r1 <= r2 && i < NumLines
    ensures ScoresAfter(excluded, latency, r1)[i] <= ScoresAfter(excluded, latency, r2)[i]
    ensures ScoresAfter(excluded, latency, r2)[i] <= ScoresAfter(excluded, latency, r1)[i] + (r2 - r1)
  {
    if r1 < r2 {
      ScoresMonotone(excluded, latency, r1, r2 - 1, i);
      ScoreRoundEffect(ScoresAfter(excluded, latency, r2 - 1), Times(latency, r2 - 1), excluded, i);
    }
  }

  /** After `r` rounds every score is at most `r`. */
  lemma ScoresBounded(excluded: Byte, latency: Latency, r: nat, i: nat)
    requires i < NumLines
    ensures ScoresAfter(excluded, latency, r)[i] <= r
  {
    ScoresMonotone(excluded, latency, 0, r, i);
  }

  /** The candidate of `private_data[0]` never scores: it stays at 0 for the whole call. */
  lemma {:induction false} ExcludedNeverScores(excluded: Byte, latency: Latency, r: nat)
    ensures ScoresAfter(excluded, latency, r)[excluded] == 0
  {
    if r > 0 {
      ExcludedNeverScores(excluded, latency, r - 1);
      ScoreRoundEffect(ScoresAfter(excluded, latency, r - 1), Times(latency, r - 1), excluded, excluded);
    }
  }

  /**
   * When the first candidate holds a largest score both top results are
   * candidate 0, the test reads `s > 2 * s + 200`, and it fails. So a
   * decisive vector never has its best at candidate 0.
   */
  lemma StartMaxBlocksExit(scores: seq<nat>)
    requires |scores| > 0
    ensures (forall p :: 0 <= p < |scores| ==> scores[p] <= scores[0]) ==> !Decisive(scores)
    ensures Decisive(scores) ==> TopTwo(scores).0 != 0
  {
    BothAtStartIffStartIsMax(scores);
    TopTwoSpec(scores);
  }

  /** The test needs a best score above 200. */
  lemma DecisiveNeedsMargin(scores: seq<nat>)
    requires |scores| > 0
    ensures Decisive(scores) ==> scores[TopTwo(scores).0] > ExitMargin
  {
  }

  /** No round up to the 200th can end the loop early, whatever the latencies. */
  lemma NoExitBeforeRound201(excluded: Byte, latency: Latency, r: nat)
    requires r <= ExitMargin
    ensures !Decisive(ScoresAfter(excluded, latency, r))
  {
    var scores := ScoresAfter(excluded, latency, r);
    ScoresBounded(excluded, latency, r, TopTwo(scores).0);
    DecisiveNeedsMargin(scores);
  }

  /** Only a round after the 200th can pass the test. */
  lemma DecisiveNeedsRounds(excluded: Byte, latency: Latency, r: nat)
    ensures Decisive(ScoresAfter(excluded, latency, r)) ==> r > ExitMargin
  {
    if r <= ExitMargin {
      NoExitBeforeRound201(excluded, latency, r);
    }
  }

  /**
   * A decisive winner is neither candidate 0 nor the candidate of
   * `private_data[0]`.
   */
  lemma DecisiveWinner(excluded: Byte, latency: Latency, r: nat)
    requires Decisive(ScoresAfter(excluded, latency, r))
    ensures TopTwo(ScoresAfter(excluded, latency, r)).0 != 0
    ensures TopTwo(ScoresAfter(excluded, latency, r)).0 != excluded
  {
    var scores := ScoresAfter(excluded, latency, r);
    StartMaxBlocksExit(scores);
    ExcludedNeverScores(excluded, latency, r);
    DecisiveNeedsMargin(scores);
  }

  /** The best candidate after round `r`: the first result of `get_top_two`. */
  function BestAfter(excluded: Byte, latency: Latency, r: nat): Byte
  {
    TopTwo(ScoresAfter(excluded, latency, r)).0
  }

  /** The early-exit test passes after round `r`. */
  predicate ExitsAfter(excluded: Byte, latency: Latency, r: nat)
  {
    Decisive(ScoresAfter(excluded, latency, r))
  }

  /**
   * One round of the loop body: the timing pass of round `run`, the scoring
   * pass, `get_top_two` and the exit test, taking the scores of `run` rounds
   * to those of `run + 1`.
   */
  method PlayRound(excluded: Byte, latency: Latency, run: nat, times: seq<nat>, scores: seq<nat>)
    returns (times': seq<nat>, scores': seq<nat>, top: (nat, nat), exit: bool)
    requires |times| == NumLines
    requires scores == ScoresAfter(excluded, latency, run)
    ensures |times'| == NumLines
    ensures scores' == ScoresAfter(excluded, latency, run + 1)
    ensures top.0 == BestAfter(excluded, latency, run + 1)
    ensures exit == ExitsAfter(excluded, latency, run + 1)
  {
    times' := MeasurePass(times, latency, run);
    scores' := ScoreRound(scores, times', excluded);
    top := TopTwo(scores');
    exit := scores'[top.0] > 2 * scores'[top.1] + ExitMargin;
  }

  /** What `leak_byte` reports: the candidate it returns, after how many rounds, and whether it gave up. */
  datatype Outcome = Outcome(guess: Byte, rounds: nat, lowConfidence: bool)

  /**
   * Reference definition of the round loop, from the point where `run`
   * rounds have completed without an early exit: play the next round,
   * return its best candidate if `exits` holds of it, give up with that
   * candidate if it was the last allowed round, and go on otherwise.
   */
  function Loop(exits: nat -> bool, best: nat -> Byte, run: nat): Outcome
    requires run < MaxRounds
    decreases MaxRounds - run
  {
    var next := run + 1;
    if exits(next) then Outcome(best(next), next, false)
    else if next == MaxRounds then Outcome(best(next), MaxRounds, true)
    else Loop(exits, best, next)
  }

  /**
   * Whatever the test says round by round, the loop stops after at most
   * `MaxRounds` rounds, exactly at the first round whose test passes or at
   * the cap, and the low-confidence mark is set exactly when the last round
   * played did not pass.
   */
  lemma {:induction false} LoopOutcome(exits: nat -> bool, best: nat -> Byte, run: nat)
    requires run < MaxRounds
    ensures run < Loop(exits, best, run).rounds <= MaxRounds
    ensures Loop(exits, best, run).guess == best(Loop(exits, best, run).rounds)
    ensures Loop(exits, best, run).lowConfidence <==> !exits(Loop(exits, best, run).rounds)
    ensures Loop(exits, best, run).lowConfidence ==> Loop(exits, best, run).rounds == MaxRounds
    ensures forall r :: run < r < Loop(exits, best, run).rounds ==> !exits(r)
    decreases MaxRounds - run
  {
    var next := run + 1;
    if !exits(next) && next < MaxRounds {
      LoopOutcome(exits, best, next);
    }
  }

  /** `leak_byte`'s loop for one target: its test and its answer, round by round. */
  function LeakLoop(excluded: Byte, latency: Latency): Outcome
  {
    Loop((r: nat) => ExitsAfter(excluded, latency, r), (r: nat) => BestAfter(excluded, latency, r), 0)
  }

  /**
   * The outcome of a whole call, for any latencies: at most `MaxRounds`
   * rounds; an early exit exactly after the first round whose scores pass
   * the test, never within the first 200 rounds and never with candidate 0
   * or the candidate of `private_data[0]` as the answer; otherwise the cap,
   * marked low-confidence. The answer is the best candidate of the last round.
   */
  lemma LeakByteOutcome(excluded: Byte, latency: Latency)
    ensures var out := LeakLoop(excluded, latency);
      && 1 <= out.rounds <= MaxRounds
      && out.guess == TopTwo(ScoresAfter(excluded, latency, out.rounds)).0
      && (out.lowConfidence <==> !Decisive(ScoresAfter(excluded, latency, out.rounds)))
      && (out.lowConfidence ==> out.rounds == MaxRounds)
      && (forall r :: 1 <= r < out.rounds ==> !Decisive(ScoresAfter(excluded, latency, r)))
      && (!out.lowConfidence ==> out.rounds > ExitMargin && out.guess != 0 && out.guess != excluded)
  {
    var exits := (r: nat) => ExitsAfter(excluded, latency, r);
    var best := (r: nat) => BestAfter(excluded, latency, r);
    LoopOutcome(exits, best, 0);
    var out := Loop(exits, best, 0);
    assert out == LeakLoop(excluded, latency);
    forall r | 1 <= r < out.rounds
      ensures !Decisive(ScoresAfter(excluded, latency, r))
    {
      assert !exits(r);
    }
    if !out.lowConfidence {
      assert exits(out.rounds);
      DecisiveNeedsRounds(excluded, latency, out.rounds);
      DecisiveWinner(excluded, latency, out.rounds);
    }
  }

  /**
   * `leak_byte` with the hardware replaced by `latency` and `excluded`
   * standing for `private_data[0]`: it plays rounds until the early-exit
   * test passes, at the latest until `MaxRounds`, and returns the best
   * candidate; `lowConfidence` marks the cap path.
   */
  method LeakByte(excluded: Byte, latency: Latency) returns (out: Outcome)
    ensures out == LeakLoop(excluded, latency)
  {
    ghost var exits := (r: nat) => ExitsAfter(excluded, latency, r);
    ghost var best := (r: nat) => BestAfter(excluded, latency, r);
    var times := Zeros();
    var scores := Zeros();
    var run := 0;
    while true
      invariant 0 <= run < MaxRounds
      invariant |times| == NumLines
      invariant scores == ScoresAfter(excluded, latency, run)
      invariant Loop(exits, best, run) == LeakLoop(excluded, latency)
      decreases MaxRounds - run
    {
      var top, exit;
      times, scores, top, exit := PlayRound(excluded, latency, run, times, scores);
      run := run + 1;
      if exit {
        return Outcome(top.0, run, false);
      }
      if run == MaxRounds {
        // `leak_byte` prints `[[[unlikely]]]:` here
        return Outcome(top.0, run, true);
      }
    }
  }
}
