/** src/lib.cpp: `uint64_t fibonacci(uint64_t n)`, the same recurrence on
    unsigned 64-bit integers, whose `+` and `-` wrap modulo 2^64. */
module CppCore {
  import Fibonacci
  import FibValues

  const Modulus: int := 0x1_0000_0000_0000_0000

  newtype U64 = x: int | 0 <= x < 0x1_0000_0000_0000_0000

  /** Unsigned 64-bit addition: the mathematical sum when it fits, otherwise the
      sum less 2^64. */
  function Add64(a: U64, b: U64): (r: U64)
    ensures r as int == (a as int + b as int) % Modulus
  {
    var s := a as int + b as int;
    if s < Modulus then s as U64 else (s - Modulus) as U64
  }

  /** Unsigned 64-bit subtraction: the difference modulo 2^64. */
  function Sub64(a: U64, b: U64): (r: U64)
    ensures r as int == (a as int - b as int) % Modulus
  {
    if b <= a then a - b else (a as int - b as int + Modulus) as U64
  }

  /** Residues of a sum are the residue of the sum of residues. */
  lemma ModAdd(x: int, y: int)
    ensures (x % Modulus + y % Modulus) % Modulus == (x + y) % Modulus
  {
  }

  /** `fibonacci(n)`. The recursive calls happen only for n >= 2, where the
      wrapping `n - 1` and `n - 2` equal the mathematical differences (the
      termination measure below depends on that), and the result is the Python
      reference value reduced modulo 2^64. */
  function FibCpp(n: U64): (r: U64)
    ensures r as int == Fibonacci.FibPy(n as int) % Modulus
    decreases n
  {
    if n == 0 then 0
    else if n == 1 then 1
    else
      var a := FibCpp(Sub64(n, 1));
      var b := FibCpp(Sub64(n, 2));
      ModAdd(Fibonacci.FibPy(n as int - 1), Fibonacci.FibPy(n as int - 2));
      Add64(a, b)
  }

  /** The recursive calls are made only for n >= 2, where the wrapping
      `n - 1` and `n - 2` never go below zero. */
  lemma RecursiveArgumentsDoNotWrap(n: U64)
    requires n >= 2
    ensures Sub64(n, 1) as int == n as int - 1 && Sub64(n, 2) as int == n as int - 2
  {
  }

  /** The first index whose C++ result has wrapped (94). */
  const FirstWrapped: U64 := (FibValues.LastExact + 1) as U64

  /** The 93rd and 94th Fibonacci numbers straddle 2^64. */
  lemma FibPyStraddles64Bits()
    ensures Fibonacci.FibPy(FibValues.LastExact) < Modulus <= Fibonacci.FibPy(FibValues.LastExact + 1)
  {
    FibValues.FibPyAtLastExact();
  }

  /** The C++ result equals the Python one exactly when the latter fits in 64 bits. */
  lemma CppExactIffFits(n: U64)
    ensures FibCpp(n) as int == Fibonacci.FibPy(n as int) <==> Fibonacci.FibPy(n as int) < Modulus
  {
  }

  /** Up to index 93 the C++ result is the n-th Fibonacci number itself. */
  lemma CppExactUpTo93(n: U64)
    requires n as int <= FibValues.LastExact
    ensures FibCpp(n) as int == Fibonacci.FibPy(n as int)
  {
    FibPyStraddles64Bits();
    Fibonacci.FibPyMonotone(n as int, FibValues.LastExact);
    CppExactIffFits(n);
  }

  /** From index 94 on the C++ result is strictly below the n-th Fibonacci number. */
  lemma CppWrapsFrom94(n: U64)
    requires n >= FirstWrapped
    ensures FibCpp(n) as int < Fibonacci.FibPy(n as int)
  {
    FibPyStraddles64Bits();
    Fibonacci.FibPyMonotone(FirstWrapped as int, n as int);
  }

  /** The C++ result is exactly the n-th Fibonacci number precisely for n <= 93. */
  lemma CppExactIffAtMost93(n: U64)
    ensures FibCpp(n) as int == Fibonacci.FibPy(n as int) <==> n as int <= FibValues.LastExact
  {
    if n as int <= FibValues.LastExact {
      CppExactUpTo93(n);
    } else {
      CppWrapsFrom94(n);
    }
  }

  /** The first wrapped value: F(94) - 2^64. */
  lemma CppWrapsAt94()
    ensures FibCpp(FirstWrapped) as int == Fibonacci.FibPy(FirstWrapped as int) - Modulus
    ensures FibCpp(FirstWrapped) == 1293530146158671551
  {
    FibValues.FibPyAtLastExact();
  }
}
