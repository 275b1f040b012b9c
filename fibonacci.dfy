/** src/fibonacci/fibonacci.py: the pure-Python reference Fibonacci and the
    dispatcher that routes a call to the backend named by the configuration. */
module Fibonacci {
  import opened Outcomes
  import Config

  /** `_fibonacci_py`: 0 for every n <= 0 (negative inputs included), 1 for n == 1,
      and the sum of the two predecessors otherwise. Never negative. */
  function FibPy(n: int): (r: int)
    ensures r >= 0
    decreases n
  {
    if n <= 0 then 0
    else if n == 1 then 1
    else FibPy(n - 1) + FibPy(n - 2)
  }

  /** The message the dispatcher attaches to NotImplementedError. */
  function UnknownBackendMessage(tag: string): (msg: string)
    ensures EndsWith(msg, tag)
  {
    "Unknown backend: " + tag
  }

  /** `fibonacci(n)`: reads `config.backend` at call time. "py" returns the Python
      result, "rs" returns the native extension's result (the parameter `rs`, a
      total function, so an exception raised by the extension is not represented)
      unchanged, and every other tag, "cpp" included, raises NotImplementedError
      naming the tag. Being a function, it cannot change the configuration. */
  function Fibonacci(cfg: Config.Config, rs: int -> int, n: int): (r: Outcome)
    reads cfg
    ensures r.Returned? <==> cfg.backend == "py" || cfg.backend == "rs"
    ensures cfg.backend == "py" ==> r.value == FibPy(n)
    ensures cfg.backend == "rs" ==> r.value == rs(n)
    ensures r.NotImplementedError? ==> |r.args| == 1 && EndsWith(r.args[0], cfg.backend)
  {
    if cfg.backend == "py" then Returned(FibPy(n))
    else if cfg.backend == "rs" then Returned(rs(n))
    else NotImplementedError([UnknownBackendMessage(cfg.backend)])
  }

  /** The sequence never decreases (it is 0 on every negative index). */
  lemma {:induction false} FibPyMonotone(m: int, n: int)
    requires m <= n
    ensures FibPy(m) <= FibPy(n)
    decreases n - m
  {
    if m < n {
      FibPyMonotone(m, n - 1);
      assert FibPy(n - 1) <= FibPy(n) by {
        if n >= 2 {
          assert FibPy(n) == FibPy(n - 1) + FibPy(n - 2);
        }
      }
    }
  }
}
