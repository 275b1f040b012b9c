/** src-bk/py_fibonacci/fibonacci.py: the earlier Python-only module. Its
    dispatcher knows only "py" and raises a bare NotImplementedError otherwise. */
module BkFibonacci {
  import opened Outcomes
  import Config
  import Current = Fibonacci

  /** The earlier `_fibonacci_py`, written out on its own. Never negative. */
  function FibPy(n: int): (r: int)
    ensures r >= 0
    decreases n
  {
    if n <= 0 then 0
    else if n == 1 then 1
    else FibPy(n - 1) + FibPy(n - 2)
  }

  /** The earlier `fibonacci(n)`: "py" returns the Python result; every other
      tag, "rs" and "cpp" included, raises NotImplementedError with no arguments. */
  function Fibonacci(cfg: Config.Config, n: int): (r: Outcome)
    reads cfg
    ensures r.Returned? <==> cfg.backend == "py"
    ensures r.Returned? ==> r.value == FibPy(n)
    ensures r.NotImplementedError? ==> r.args == []
  {
    if cfg.backend == "py" then Returned(FibPy(n)) else NotImplementedError([])
  }

  /** The earlier `_fibonacci_py` and the current one agree on every integer. */
  lemma {:induction false} FibPyAgrees(n: int)
    ensures FibPy(n) == Current.FibPy(n)
    decreases n
  {
    if n >= 2 {
      FibPyAgrees(n - 1);
      FibPyAgrees(n - 2);
    }
  }

  /** The current dispatcher extends the earlier one: wherever the earlier one
      returns, the current one returns the same value; the earlier one raises on
      "rs", where the current one returns the native result. */
  lemma CurrentExtendsEarlier(cfg: Config.Config, rs: int -> int, n: int)
    ensures Fibonacci(cfg, n).Returned? ==> Current.Fibonacci(cfg, rs, n) == Fibonacci(cfg, n)
    ensures cfg.backend == "rs" ==>
      Fibonacci(cfg, n).NotImplementedError? && Current.Fibonacci(cfg, rs, n) == Returned(rs(n))
  {
    FibPyAgrees(n);
  }
}
