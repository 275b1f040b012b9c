/** Values of the reference sequence at indices too large to unfold directly:
    F(93) is the largest Fibonacci number below 2^64. The sequence is walked
    with a linear two-accumulator iteration, twelve steps at a time. */
module FibValues {
  import Fibonacci

  /** k steps of (a, b) -> (b, a + b). */
  function FibSteps(k: nat, a: int, b: int): (int, int)
  {
    if k == 0 then (a, b) else FibSteps(k - 1, b, a + b)
  }

  /** Started from (F(m), F(m + 1)), k steps reach (F(m + k), F(m + k + 1)):
      the iteration is an independent definition of the same sequence. */
  lemma {:induction false} FibStepsShift(k: nat, m: nat)
    ensures FibSteps(k, Fibonacci.FibPy(m), Fibonacci.FibPy(m + 1))
         == (Fibonacci.FibPy(m + k), Fibonacci.FibPy(m + k + 1))
    decreases k
  {
    if k > 0 {
      FibStepsShift(k - 1, m + 1);
    }
  }

  /** j + k steps are j steps followed by k steps. */
  lemma {:induction false} FibStepsAdd(j: nat, k: nat, a: int, b: int)
    ensures FibSteps(j + k, a, b) == FibSteps(k, FibSteps(j, a, b).0, FibSteps(j, a, b).1)
    decreases j
  {
    if j > 0 {
      FibStepsAdd(j - 1, k, b, a + b);
    }
  }

  /** (F(12 i), F(12 i + 1)) for i in 0..7. */
  const Checkpoints: seq<(int, int)> := [
      (0, 1),
      (144, 233),
      (46368, 75025),
      (14930352, 24157817),
      (4807526976, 7778742049),
      (1548008755920, 2504730781961),
      (498454011879264, 806515533049393),
      (160500643816367088, 259695496911122585)
    ]

  lemma CheckpointStep(i: nat)
    requires i + 1 < |Checkpoints|
    ensures FibSteps(12, Checkpoints[i].0, Checkpoints[i].1) == Checkpoints[i + 1]
  {
    if i == 0 {
      assert FibSteps(12, 0, 1) == (144, 233);
    } else if i == 1 {
      assert FibSteps(12, 144, 233) == (46368, 75025);
    } else if i == 2 {
      assert FibSteps(12, 46368, 75025) == (14930352, 24157817);
    } else if i == 3 {
      assert FibSteps(12, 14930352, 24157817) == (4807526976, 7778742049);
    } else if i == 4 {
      assert FibSteps(12, 4807526976, 7778742049) == (1548008755920, 2504730781961);
    } else if i == 5 {
      assert FibSteps(12, 1548008755920, 2504730781961) == (498454011879264, 806515533049393);
    } else {
      assert FibSteps(12, 498454011879264, 806515533049393) == (160500643816367088, 259695496911122585);
    }
  }

  lemma {:induction false} ReachCheckpoint(i: nat)
    requires i < |Checkpoints|
    ensures FibSteps(12 * i, 0, 1) == Checkpoints[i]
  {
    if i > 0 {
      ReachCheckpoint(i - 1);
      FibStepsAdd(12 * (i - 1), 12, 0, 1);
      CheckpointStep(i - 1);
    }
  }

  lemma LastSteps()
    ensures FibSteps(9, 160500643816367088, 259695496911122585) == (12200160415121876738, 19740274219868223167)
  {
  }

  /** The last index at which the sequence still fits in 64 unsigned bits. */
  const LastExact: nat := 93

  lemma FibPyAtLastExact()
    ensures Fibonacci.FibPy(LastExact) == 12200160415121876738
    ensures Fibonacci.FibPy(LastExact + 1) == 19740274219868223167
  {
    FibStepsShift(LastExact, 0);
    ReachCheckpoint(7);
    FibStepsAdd(84, 9, 0, 1);
    LastSteps();
  }
}
