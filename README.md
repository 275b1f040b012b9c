# Fibonacci with switchable backends

A Dafny model of a small Python package whose `fibonacci(n)` picks its
implementation at call time from a mutable configuration object. Each piece
of the package is modelled as follows:

- **Configuration** (`config.dfy`, module `Config`). The class `Config` has
  one field, `backend`, modelled as a string. A fresh object holds `"py"`.
  Writes store any string: the `Literal["py", "rs", "cpp"]` annotation is only
  a hint. Reads return the last value written.
- **Reference algorithm and dispatcher** (`fibonacci.dfy`, module `Fibonacci`).
  `FibPy` is the recursive `_fibonacci_py`. It returns 0 for every `n <= 0`,
  negative inputs included. `Fibonacci` is the dispatcher.
  - On `"py"` it returns `FibPy(n)`.
  - On `"rs"` it returns the native extension's result unchanged.
  - On any other tag it raises `NotImplementedError("Unknown backend: <tag>")`.
- **Outcome of a call** (`outcomes.dfy`). Raising is modelled as a value: the
  call either returns an integer or raises `NotImplementedError` carrying its
  positional arguments.
- **C++ backend** (`cpp_core.dfy`, module `CppCore`). `FibCpp` follows the
  same recurrence on `uint64_t`. Its `+` and its `-` wrap modulo 2^64.
  - The model proves the result is the Python value reduced modulo 2^64.
  - It proves the wrapping `n - 1` and `n - 2` never go below zero.
  - It proves the result is exact precisely for `n <= 93`.
  - `fib_values.dfy` computes F(93) and F(94), the two values that straddle
    2^64.
- **Earlier Python-only module** (`bk_fibonacci.dfy`, module `BkFibonacci`).
  Its dispatcher accepts only `"py"`. On every other tag it raises a bare
  `NotImplementedError`. Its `_fibonacci_py` is proved equal to the current one.
- **The test** (`test_fibonacci.dfy`). This models the table of values for
  0..10 and the scenario that writes `"py"`, dispatches, writes `"rs"`, and
  dispatches again.

The package's single shared `config` instance becomes an explicit `Config`
object. It is passed to the dispatchers, which are functions with
`reads cfg`: they see the tag current at call time and cannot change it.

The Rust extension `fibonacci._core` is modelled as an arbitrary total
function `rs: int -> int`, a parameter of the dispatcher. Nothing is assumed
about its values.

Two behaviours of the source are worth stating outright:
- src/fibonacci/fibonacci.py:10-11 sends `"cpp"` to the unknown-backend
  branch, even though src/lib.cpp builds a C++ module.
- There is no separate "backend unavailable" error: every tag other than
  `"py"` and `"rs"` reaches the same `else` branch.

The model follows the code.

## Model

| member | source | states |
|---|---|---|
| `Fibonacci.FibPy` | src/fibonacci/fibonacci.py:14-20 | the reference result is never negative, for any integer input |
| `Fibonacci.FibPyMonotone` | src/fibonacci/fibonacci.py:14-20 | the reference sequence never decreases: m <= n implies FibPy(m) <= FibPy(n), negative indices included |
| `Fibonacci.UnknownBackendMessage` | src/fibonacci/fibonacci.py:11 | the error message ends with the offending tag, so it names it |
| `Fibonacci.Fibonacci` | src/fibonacci/fibonacci.py:5-11 | a value is returned exactly when the tag is "py" or "rs" (the extension being modelled as total); under "py" it is the reference result, under "rs" the native result unchanged; any other tag ("cpp" included) raises NotImplementedError with one argument naming the tag |
| `FibValues.FibStepsShift` | src/fibonacci/fibonacci.py:14-20 | an independent linear two-accumulator iteration walks the same sequence as the recursive reference |
| `FibValues.FibPyAtLastExact` | src/fibonacci/fibonacci.py:14-20 | the reference gives F(93) = 12200160415121876738 and F(94) = 19740274219868223167 |
| `CppCore.Add64` | src/lib.cpp:10 | unsigned 64-bit addition yields the sum modulo 2^64 |
| `CppCore.Sub64` | src/lib.cpp:10 | unsigned 64-bit subtraction yields the difference modulo 2^64 |
| `CppCore.FibCpp` | src/lib.cpp:4-11 | the C++ result, for every n, is the reference result reduced modulo 2^64; termination relies on `n - 1` and `n - 2` not wrapping |
| `CppCore.RecursiveArgumentsDoNotWrap` | src/lib.cpp:5-10 | on the recursive branch (n >= 2) the wrapping `n - 1` and `n - 2` equal the mathematical differences |
| `CppCore.FibPyStraddles64Bits` | src/lib.cpp:4 | F(93) fits in uint64_t and F(94) does not |
| `CppCore.CppExactIffFits` | src/lib.cpp:4-11 | the C++ result equals the reference result if and only if the latter is below 2^64 |
| `CppCore.CppExactUpTo93` | src/lib.cpp:18-20 | for n <= 93 the C++ result is the n-th Fibonacci number, as its doc string says |
| `CppCore.CppWrapsFrom94` | src/lib.cpp:4-11 | for n >= 94 the C++ result is strictly below the n-th Fibonacci number |
| `CppCore.CppExactIffAtMost93` | src/lib.cpp:18-20 | the C++ result is the n-th Fibonacci number exactly when n <= 93 |
| `CppCore.CppWrapsAt94` | src/lib.cpp:10 | at n = 94 the C++ result is F(94) - 2^64 = 1293530146158671551 |
| `BkFibonacci.Fibonacci` | src-bk/py_fibonacci/fibonacci.py:4-8 | a value is returned exactly when the tag is "py", and it is the reference result; every other tag, "rs" and "cpp" included, raises NotImplementedError with no arguments |
| `BkFibonacci.FibPy` | src-bk/py_fibonacci/fibonacci.py:11-17 | the earlier reference result is never negative, for any integer input |
| `BkFibonacci.FibPyAgrees` | src-bk/py_fibonacci/fibonacci.py:11-17 | the earlier `_fibonacci_py` equals the current one on every integer |
| `BkFibonacci.CurrentExtendsEarlier` | src-bk/py_fibonacci/fibonacci.py:4-8 | wherever the earlier dispatcher returns, the current one returns the same value; on "rs" the earlier one raises and the current one returns the native result |
| `Config.Config.constructor` | src/fibonacci/config.py:3-7 | a fresh configuration selects "py" |
| `Config.Config.SetBackend` | src/fibonacci/config.py:4 | a write stores the given tag unvalidated and changes nothing else |
| `Config.Config.Backend` | src/fibonacci/config.py:4 | a read returns the stored tag and changes nothing |
| `Config.ReadTwice` | src/fibonacci/config.py:4 | two reads with no write in between return the same tag |
| `TestFibonacci.ReferenceTable` | tests/test_fibonacci.py:4-10 | the reference reproduces 0, 1, 1, 2, 3, 5, 8, 13, 21, 34, 55 for 0..10 |
| `TestFibonacci.TestFibonacci` | tests/test_fibonacci.py:8-12 | after writing "py" the dispatcher returns the table value; after writing "rs" it returns the native value unchanged, so the second assertion holds exactly when the native value is the table value; the configuration is left at "rs" |

## Left out

- The pybind11 module registration (src/lib.cpp:13-21) is binding glue. So is the conversion of a Python `int` argument to `uint64_t`, which rejects negative or too-large arguments before `fibonacci` runs.
- The Rust extension `fibonacci._core` is modelled as an arbitrary total function `rs: int -> int`. Nothing is assumed about its values; its own code is not part of this model.
- Fibonacci.Fibonacci: under "rs" the extension is modelled as always returning and never raising. An exception it raised would propagate through the dispatcher, and that is not represented.
- The import-time failure when a native module is missing is module loading, not logic.
- The process-wide `config` instance: Dafny has no mutable globals, so the one shared object is passed to the dispatchers explicitly.
- `src-bk/py_fibonacci/config.py` is not part of this model. The model gives the earlier dispatcher the same `Config` class; in the package the earlier module has its own config module and a separate instance.
- The `backend` attribute is modelled as a string. Python stores any object there (`None`, say, which reaches the `else` branch and is formatted into the message); non-string values are not represented.
- Running time of the exponential recursion. Stack depth is not modelled either.
- Concurrent writers to the configuration. All of the code is single-threaded.
- The pytest parametrisation machinery. The test is modelled for one `n` at a time.
