/**
 * The measuring and scoring half of a round of `leak_byte`: the timing pass
 * fills `times` in the shuffled visit order, `t_avg` is the truncated mean of
 * `times`, and every line read in less than half the mean, other than the
 * line of `private_data[0]`, gains one point.
 */
module Scoring {
  import opened Layout
  import opened VisitOrder

  /**
   * What the hardware reports: `latency(run, line)` is the cycle count
   * measured when the timing pass of round `run` reads line `line`. Nothing
   * is assumed about it.
   */
  type Latency = (nat, nat) -> nat

  /** Sum of the first `n` elements of `s`. */
  function SumTo(s: seq<nat>, n: nat): nat
    requires n <= |s|
  {
    if n == 0 then 0 else SumTo(s, n - 1) + s[n - 1]
  }

  /** `std::accumulate` over the whole array, without the narrowing to `int`. */
  function Sum(s: seq<nat>): nat
  {
    SumTo(s, |s|)
  }

  /** `t_avg`: the sum of the 256 latencies divided by 256, rounded down. */
  function Average(times: seq<nat>): (avg: nat)
    ensures avg * NumLines <= Sum(times) < (avg + 1) * NumLines
  {
    Sum(times) / NumLines
  }

  lemma {:induction false} SumToAtMost(s: seq<nat>, n: nat, hi: nat)
    requires n <= |s|
    requires forall i :: 0 <= i < |s| ==> s[i] <= hi
    ensures SumTo(s, n) <= n * hi
  {
    if n > 0 {
      SumToAtMost(s, n - 1, hi);
      assert SumTo(s, n) <= (n - 1) * hi + hi;
    }
  }

  lemma {:induction false} SumToAtLeast(s: seq<nat>, n: nat, lo: nat)
    requires n <= |s|
    requires forall i :: 0 <= i < |s| ==> lo <= s[i]
    ensures n * lo <= SumTo(s, n)
  {
    if n > 0 {
      SumToAtLeast(s, n - 1, lo);
      assert (n - 1) * lo + lo <= SumTo(s, n);
    }
  }

  /** The truncated mean lies between the smallest and the largest latency. */
  lemma AverageBetween(times: seq<nat>, lo: nat, hi: nat)
    requires |times| == NumLines
    requires forall i :: 0 <= i < NumLines ==> lo <= times[i] <= hi
    ensures lo <= Average(times) <= hi
  {
    SumToAtMost(times, |times|, hi);
    SumToAtLeast(times, |times|, lo);
  }

  /** Line `line` counts as cached in this round: read in under half the mean. */
  predicate IsFast(times: seq<nat>, line: nat)
    requires line < |times|
  {
    times[line] * 2 < Average(times)
  }

  /**
   * Whatever the latencies, some line is not fast: they cannot all lie
   * below half of their own mean.
   */
  lemma NotAllLinesFast(times: seq<nat>)
    requires |times| == NumLines
    ensures exists line :: 0 <= line < NumLines && !IsFast(times, line)
  {
    if forall line :: 0 <= line < NumLines ==> IsFast(times, line) {
      var avg := Average(times);
      assert avg > 0 by {
        assert IsFast(times, 0);
      }
      forall line | 0 <= line < NumLines
        ensures times[line] <= avg - 1
      {
        assert IsFast(times, line);
      }
      SumToAtMost(times, |times|, avg - 1);
      assert false;
    }
  }

  /**
   * `times` after the timing pass of round `run`, as a reference definition:
   * every line holds the latency measured for it in that round.
   */
  function Times(latency: Latency, run: nat): (times: seq<nat>)
    ensures |times| == NumLines
  {
    seq(NumLines, (line: int) requires 0 <= line < NumLines => latency(run, line))
  }

  /**
   * The timing pass: visit `i` reads line `Shuffle(i)` and stores its latency
   * in `times[Shuffle(i)]`. Each slot is written exactly once, so the result
   * is the round's own measurements, whatever the previous round left in `prev`.
   */
  method MeasurePass(prev: seq<nat>, latency: Latency, run: nat) returns (times: seq<nat>)
    requires |prev| == NumLines
    ensures times == Times(latency, run)
  {
    times := prev;
    var i := 0;
    while i < NumLines
      invariant 0 <= i <= NumLines
      invariant |times| == NumLines
      invariant forall v :: 0 <= v < i ==> times[Shuffle(v)] == latency(run, Shuffle(v))
      invariant forall line :: 0 <= line < NumLines && Unshuffle(line) >= i ==> times[line] == prev[line]
    {
      var line := Shuffle(i);
      UnshuffleShuffle(i);
      forall v | 0 <= v < i
        ensures Shuffle(v) != line
      {
        ShuffleInjective(v, i);
      }
      times := times[line := latency(run, line)];
      i := i + 1;
    }
    forall line | 0 <= line < NumLines
      ensures times[line] == latency(run, line)
    {
      ShuffleUnshuffle(line);
    }
  }

  /** One scoring pass over `scores`, with `excluded` the line of `private_data[0]`. */
  function ScoreRound(scores: seq<nat>, times: seq<nat>, excluded: Byte): (r: seq<nat>)
    requires |scores| == NumLines && |times| == NumLines
    ensures |r| == NumLines
  {
    var avg := Average(times);
    seq(NumLines, i requires 0 <= i < NumLines =>
      if times[i] * 2 < avg && i != excluded then scores[i] + 1 else scores[i])
  }

  /**
   * What a scoring pass does to each score: it rises by one exactly when its
   * line was fast and is not the line of `private_data[0]`, and stays put
   * otherwise; so no score falls or rises by more than one.
   */
  lemma ScoreRoundEffect(scores: seq<nat>, times: seq<nat>, excluded: Byte, i: nat)
    requires |scores| == NumLines && |times| == NumLines && i < NumLines
    ensures ScoreRound(scores, times, excluded)[i] in {scores[i], scores[i] + 1}
    ensures ScoreRound(scores, times, excluded)[i] == scores[i] + 1 <==> IsFast(times, i) && i != excluded
    ensures ScoreRound(scores, times, excluded)[excluded] == scores[excluded]
  {
  }
}
