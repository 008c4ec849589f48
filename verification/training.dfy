/**
 * The mistraining loop of one round: 500 iterations, each picking the index
 * passed to the guarded read. Nine in ten pick the accessible index 0, every
 * tenth the target `index`. The guard is `local_index < *slow_size` with
 * `*slow_size == 1`; only its architectural outcome is modelled here.
 */
module Training {

  /** Iterations of the training loop per round. */
  const TrainingIterations: nat := 500

  /** One iteration in this many selects the target index. */
  const TrainingPeriod: nat := 10

  /** The value behind `slow_size`. */
  const SlowSize: int := 1

  /** Iteration `i` selects the target index: `(i + 1) % 10` is zero. */
  predicate TargetSelected(i: nat)
  {
    (i + 1) % TrainingPeriod == 0
  }

  /** `local_index` at iteration `i` for target `index`. */
  function LocalIndex(i: nat, index: int): int
  {
    if (i + 1) % TrainingPeriod != 0 then 0 else index
  }

  /** The guard lets the read retire architecturally. */
  predicate GuardPasses(local: int)
  {
    local < SlowSize
  }

  /** How many of the first `n` iterations pass something other than index 0 to the guard. */
  function TargetCount(index: int, n: nat): nat
  {
    if n == 0 then 0
    else TargetCount(index, n - 1) + (if LocalIndex(n - 1, index) != 0 then 1 else 0)
  }

  /**
   * For a target other than 0, exactly every tenth iteration selects it:
   * `n / 10` of the first `n`.
   */
  lemma {:induction false} TargetCountIsTenth(index: int, n: nat)
    requires index != 0
    ensures TargetCount(index, n) == n / TrainingPeriod
  {
    if n > 0 {
      TargetCountIsTenth(index, n - 1);
    }
  }

  /** Over one round, 50 of the 500 iterations select the target and 450 select index 0. */
  lemma TargetCountPerRound(index: int)
    requires index != 0
    ensures TargetCount(index, TrainingIterations) == 50
    ensures TrainingIterations - TargetCount(index, TrainingIterations) == 450
  {
    TargetCountIsTenth(index, TrainingIterations);
  }

  /**
   * For a target index of at least 1 the guard passes exactly on the
   * iterations that select index 0, so every read that retires is of
   * `private_data[0]`; the target is only ever read past a failing guard.
   */
  lemma GuardAdmitsOnlyIndexZero(i: nat, index: int)
    requires index >= SlowSize
    ensures GuardPasses(LocalIndex(i, index)) <==> !TargetSelected(i)
    ensures GuardPasses(LocalIndex(i, index)) ==> LocalIndex(i, index) == 0
  {
  }
}
