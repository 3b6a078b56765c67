/** The library's example function `fib`: an iterative Fibonacci loop over
    the pair `(a, b)`, counted from `fib(1) == fib(2) == 1`. */
module Skeleton {

  /** The Fibonacci numbers, one-based: 1, 1, 2, 3, 5, ... */
  function FibSeq(n: nat): nat
    requires n >= 1
  {
    if n <= 2 then 1 else FibSeq(n - 1) + FibSeq(n - 2)
  }

  /** `fib(n)`: the caller must pass `n > 0` (the function asserts it); the
      loop runs `n - 1` times, and after `i` rounds `(a, b)` holds the
      `(i + 1)`-th and `(i + 2)`-th Fibonacci numbers. */
  method Fib(n: int) returns (r: int)
    requires n > 0
    ensures r == FibSeq(n)
    ensures r >= 1
  {
    var a, b := 1, 1;
    for i := 0 to n - 1
      invariant a == FibSeq(i + 1) && b == FibSeq(i + 2)
    {
      a, b := b, a + b;
    }
    r := a;
    FibPositive(n);
  }

  lemma {:induction false} FibPositive(n: nat)
    requires n >= 1
    ensures FibSeq(n) >= 1
  {
    if n > 2 {
      FibPositive(n - 1);
    }
  }

  /** `fib` never decreases. */
  lemma {:induction false} FibMonotone(m: nat, n: nat)
    requires 1 <= m <= n
    ensures FibSeq(m) <= FibSeq(n)
    decreases n - m
  {
    if m < n {
      FibMonotone(m, n - 1);
      if n > 2 {
        FibPositive(n - 2);
      }
    }
  }
}
