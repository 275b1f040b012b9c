/** tests/test_fibonacci.py: the value table for 0..10 and the scenario that
    switches the shared configuration between the two backends. */
module TestFibonacci {
  import opened Outcomes
  import Config
  import Fibonacci

  const Answer: seq<int> := [0, 1, 1, 2, 3, 5, 8, 13, 21, 34, 55]

  /** The reference implementation reproduces the table. */
  lemma ReferenceTable(n: int)
    requires 0 <= n < |Answer|
    ensures Fibonacci.FibPy(n) == Answer[n]
  {
  }

  /** `test_fibonacci(n, answer)`: set "py" and dispatch, set "rs" and dispatch.
      The first assertion holds for every n in the table; the second holds
      exactly when the native extension returns the table value. */
  method TestFibonacci(cfg: Config.Config, rs: int -> int, n: int) returns (viaPy: Outcome, viaRs: Outcome)
    requires 0 <= n < |Answer|
    modifies cfg
    ensures viaPy == Returned(Answer[n])
    ensures viaRs == Returned(rs(n))
    ensures viaRs == Returned(Answer[n]) <==> rs(n) == Answer[n]
    ensures cfg.backend == "rs"
  {
    cfg.SetBackend("py");
    viaPy := Fibonacci.Fibonacci(cfg, rs, n);
    ReferenceTable(n);
    cfg.SetBackend("rs");
    viaRs := Fibonacci.Fibonacci(cfg, rs, n);
  }
}
