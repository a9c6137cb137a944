/** The Fibonacci variants of fib/src/main.rs: `next_fib`, three loops that print
    the sequence, and an iterator. What a loop prints is returned as a sequence.

    F is the Fibonacci sequence with F(1) = F(2) = 1. The values are `u64`, whose
    addition panics on overflow in a debug build; F(93) is the largest Fibonacci
    number below 2^64, so a loop that prints up to F(n) is safe when n <= 93.
 */
module Fib {
  import opened Wrappers

  const U64Limit: nat := 0x1_0000_0000_0000_0000

  /** The mathematical Fibonacci sequence, the reference for every variant. */
  function F(n: nat): nat {
    if n == 0 then 0 else if n == 1 then 1 else F(n - 1) + F(n - 2)
  }

  lemma Regroup(a: int, b: int, x: int, y: int, z: int)
    ensures a * x + b * y + (a * y + b * z) == a * (x + y) + b * (y + z)
  {
  }

  /** The addition law F(m + n + 1) = F(m + 1) F(n + 1) + F(m) F(n). */
  lemma {:induction false} Addition(m: nat, n: nat)
    ensures F(m + n + 1) == F(m + 1) * F(n + 1) + F(m) * F(n)
    decreases n
  {
    if n >= 2 {
      var a, b, x, y, z := F(m + 1), F(m), F(n), F(n - 1), F(n - 2);
      calc {
        F(m + n + 1);
        F(m + n) + F(m + n - 1);
        { Addition(m, n - 1); Addition(m, n - 2); }
        a * x + b * y + (a * y + b * z);
        { Regroup(a, b, x, y, z); }
        a * (x + y) + b * (y + z);
        a * F(n + 1) + b * F(n);
      }
    }
  }

  lemma ValuesUpTo24()
    ensures F(22) == 17711 && F(23) == 28657 && F(24) == 46368
  {
    assert F(10) == 55 && F(11) == 89 && F(12) == 144 && F(13) == 233;
    Addition(11, 11);
    Addition(11, 12);
    Addition(10, 11);
  }

  lemma ValuesUpTo48()
    ensures F(46) == 1836311903 && F(47) == 2971215073 && F(48) == 4807526976
  {
    ValuesUpTo24();
    Addition(23, 23);
    Addition(23, 22);
    Addition(23, 24);
  }

  /** F(93) is the last Fibonacci number that fits in a `u64`; F(94) does not. */
  lemma LastBelowU64()
    ensures F(93) == 12200160415121876738 && F(93) < U64Limit
    ensures F(94) == 19740274219868223167 && F(94) >= U64Limit
  {
    ValuesUpTo48();
    Addition(46, 46);
    assert F(93) == F(47) * F(47) + F(46) * F(46);
    assert F(93) == 2971215073 * 2971215073 + 1836311903 * 1836311903;
    Addition(46, 47);
    assert F(94) == F(47) * F(48) + F(46) * F(47);
    assert F(94) == 2971215073 * 4807526976 + 1836311903 * 2971215073;
  }

  lemma {:induction false} Monotone(i: nat, j: nat)
    requires 1 <= i <= j
    ensures F(i) <= F(j)
    decreases j - i
  {
    if i < j {
      Monotone(i, j - 1);
    }
  }

  /** Every F(k) with k <= 93 is a `u64`. */
  lemma FitsU64(k: nat)
    requires k <= 93
    ensures F(k) < U64Limit
  {
    LastBelowU64();
    if k >= 1 {
      Monotone(k, 93);
    }
  }

  /** `next_fib`. The addition panics on overflow, so callers must keep the sum
      in range. A window (F(k), F(k+1)) moves on to (F(k+1), F(k+2)). */
  function NextFib(a: u64, b: u64): (r: (u64, u64))
    requires a + b < U64Limit
    ensures forall k: nat :: a as nat == F(k) && b as nat == F(k + 1) ==>
              r.0 as nat == F(k + 1) && r.1 as nat == F(k + 2)
  {
    (b, a + b)
  }

  /** `next_fib` moves a window of two consecutive Fibonacci numbers one step on. */
  lemma NextFibAdvances(k: nat, a: u64, b: u64)
    requires a == F(k) && b == F(k + 1) && k + 2 <= 93
    ensures a + b < U64Limit
    ensures NextFib(a, b) == (F(k + 1), F(k + 2))
  {
    FitsU64(k + 2);
  }

  /** What the loop forms print for n, as `u64` values: F(3) .. F(n), or nothing
      when n <= 2. */
  function Emitted(n: u8): (r: seq<u64>)
    requires n <= 93
    ensures |r| == (if n >= 2 then n as int - 2 else 0)
    ensures forall k :: 0 <= k < |r| ==> r[k] as nat == F(k + 3)
  {
    if n <= 2 then []
    else
      FitsU64(n as nat);
      Emitted(n - 1) + [F(n as nat) as u64]
  }

  /** `fib_loop`: the body runs before the `i >= n` test, so one value is printed
      even when n <= 3; for larger n the values F(3) .. F(n). */
  method FibLoop(n: u8) returns (printed: seq<u64>)
    requires n <= 93
    ensures printed == if n <= 3 then [2] else Emitted(n)
  {
    var a: u64, b: u64, i: u8 := 1, 1, 2;
    printed := [];
    while true
      invariant 2 <= i && (i == 2 || i < n)
      invariant a == F(i as int - 1) && b == F(i as int)
      invariant |printed| == i as int - 2
      invariant forall k :: 0 <= k < |printed| ==> printed[k] == F(k + 3)
      decreases 93 - i
    {
      NextFibAdvances(i as int - 1, a, b);
      var next := NextFib(a, b);
      a, b := next.0, next.1;
      i := i + 1;
      printed := printed + [b];
      if i >= n {
        break;
      }
    }
  }

  /** `fib_while`: F(3) .. F(n), nothing when n <= 2. */
  method FibWhile(n: u8) returns (printed: seq<u64>)
    requires n <= 93
    ensures printed == Emitted(n)
  {
    var a: u64, b: u64, i: u8 := 1, 1, 2;
    printed := [];
    while i < n
      invariant 2 <= i && (i <= n || i == 2)
      invariant a == F(i as int - 1) && b == F(i as int)
      invariant |printed| == i as int - 2
      invariant forall k :: 0 <= k < |printed| ==> printed[k] == F(k + 3)
    {
      NextFibAdvances(i as int - 1, a, b);
      var next := NextFib(a, b);
      a, b := next.0, next.1;
      i := i + 1;
      printed := printed + [b];
    }
  }

  /** `fib_for`: one value per element of the range 2..n, the same values as
      `fib_while`. */
  method FibFor(n: u8) returns (printed: seq<u64>)
    requires n <= 93
    ensures printed == Emitted(n)
  {
    var a: u64, b: u64 := 1, 1;
    printed := [];
    if 2 <= n {
      for i := 2 to n
        invariant a == F(i - 1) && b == F(i)
        invariant |printed| == i - 2
        invariant forall k :: 0 <= k < |printed| ==> printed[k] == F(k + 3)
      {
        NextFibAdvances(i - 1, a, b);
        var next := NextFib(a, b);
        a, b := next.0, next.1;
        printed := printed + [b];
      }
    }
  }

  /** The state of the `Fibnacci` iterator. */
  datatype Fibnacci = Fibnacci(a: u64, b: u64)

  /** `Fibnacci::new`. */
  function NewFibnacci(): Fibnacci {
    Fibnacci(1, 1)
  }

  /** `Iterator::next`: it never ends; from the window (F(k), F(k+1)) it yields
      F(k+1) and moves on to (F(k+1), F(k+2)). */
  function Next(it: Fibnacci): (r: (Option<u64>, Fibnacci))
    requires it.a + it.b < U64Limit
    ensures r.0.Some?
    ensures forall k: nat :: 1 <= k && it.a as nat == F(k) && it.b as nat == F(k + 1) ==>
              r.0.value as nat == F(k + 1) && r.1.a as nat == F(k + 1) && r.1.b as nat == F(k + 2)
  {
    (Some(it.b), Fibnacci(it.b, it.a + it.b))
  }

  /** After k calls the iterator holds (F(k+1), F(k+2)); the next call yields
      F(k+2) and moves on to (F(k+2), F(k+3)). */
  lemma NextAdvances(k: nat, it: Fibnacci)
    requires it.a as nat == F(k + 1) && it.b as nat == F(k + 2) && k + 3 <= 93
    ensures it.a + it.b < U64Limit
    ensures Next(it).0 == Some(F(k + 2) as u64)
    ensures Next(it).1.a as nat == F(k + 2) && Next(it).1.b as nat == F(k + 3)
  {
    FitsU64(k + 3);
  }

  /** `Fibnacci::new().take(count)`: item k (from 0) is F(k + 2), so the
      sequence starts 1, 2, 3, 5 and the second 1 never appears. Taking the k-th
      item computes F(k + 3), hence the bound on `count`. */
  method Take(count: nat) returns (items: seq<u64>)
    requires count <= 91
    ensures |items| == count
    ensures forall k :: 0 <= k < count ==> items[k] == F(k + 2)
    ensures forall k :: 1 <= k < count ==> items[k] >= 2
  {
    var it := NewFibnacci();
    items := [];
    var k := 0;
    while k < count
      invariant k <= count
      invariant it.a as nat == F(k + 1) && it.b as nat == F(k + 2)
      invariant |items| == k
      invariant forall j :: 0 <= j < k ==> items[j] == F(j + 2)
      invariant forall j :: 1 <= j < k ==> items[j] >= 2
    {
      NextAdvances(k, it);
      if k >= 1 {
        Monotone(3, k + 2);
      }
      var step := Next(it);
      items := items + [step.0.value];
      it := step.1;
      k := k + 1;
    }
  }
}
