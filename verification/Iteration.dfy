/** Repeating a step that loses nothing. */
module Iteration {
  ghost predicate Injective<T(!new)>(f: T -> T) {
    forall a, b :: f(a) == f(b) ==> a == b
  }

  function Iterate<T>(f: T -> T, s: T, n: nat): T {
    if n == 0 then s else f(Iterate(f, s, n - 1))
  }

  lemma {:induction false} IterateInjective<T(!new)>(f: T -> T, s: T, t: T, n: nat)
    requires Injective(f) && Iterate(f, s, n) == Iterate(f, t, n)
    ensures s == t
  {
    if n > 0 {
      assert Iterate(f, s, n - 1) == Iterate(f, t, n - 1);
      IterateInjective(f, s, t, n - 1);
    }
  }

  lemma {:induction false} FixedPointStays<T>(f: T -> T, s: T, n: nat)
    requires f(s) == s
    ensures Iterate(f, s, n) == s
  {
    if n > 0 {
      FixedPointStays(f, s, n - 1);
    }
  }

  lemma {:induction false} IterateAdd<T>(f: T -> T, s: T, a: nat, b: nat)
    ensures Iterate(f, Iterate(f, s, a), b) == Iterate(f, s, a + b)
  {
    if b > 0 {
      IterateAdd(f, s, a, b - 1);
    }
  }

  /** A fixed point is reached from itself alone. */
  lemma StaysAway<T(!new)>(f: T -> T, s: T, fixed: T, n: nat)
    requires Injective(f) && f(fixed) == fixed && s != fixed
    ensures Iterate(f, s, n) != fixed
  {
    FixedPointStays(f, fixed, n);
    if Iterate(f, s, n) == fixed {
      IterateInjective(f, s, fixed, n);
    }
  }

  /** A repetition goes back to the start: there is no lead-in. */
  lemma Cycles<T(!new)>(f: T -> T, s: T, i: nat, j: nat)
    requires Injective(f) && i <= j && Iterate(f, s, i) == Iterate(f, s, j)
    ensures Iterate(f, s, j - i) == s
  {
    IterateAdd(f, s, j - i, i);
    IterateInjective(f, Iterate(f, s, j - i), s, i);
  }
}
