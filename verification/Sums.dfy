/** Finite sums of real numbers, and the exchange laws the clustering proofs rest on. */
module Sums {

  /** f(0) + ... + f(n-1). */
  function Sum(n: nat, f: int -> real): real {
    if n == 0 then 0.0 else Sum(n - 1, f) + f(n - 1)
  }

  /** Sums of functions that agree on the range are equal. */
  lemma {:induction false} SumCongruence(n: nat, f: int -> real, g: int -> real)
    requires forall i :: 0 <= i < n ==> f(i) == g(i)
    ensures Sum(n, f) == Sum(n, g)
  {
    if n > 0 {
      SumCongruence(n - 1, f, g);
    }
  }

  lemma {:induction false} SumMonotone(n: nat, f: int -> real, g: int -> real)
    requires forall i :: 0 <= i < n ==> f(i) <= g(i)
    ensures Sum(n, f) <= Sum(n, g)
  {
    if n > 0 {
      SumMonotone(n - 1, f, g);
    }
  }

  lemma {:induction false} SumAdd(n: nat, f: int -> real, g: int -> real, h: int -> real)
    requires forall i :: 0 <= i < n ==> h(i) == f(i) + g(i)
    ensures Sum(n, h) == Sum(n, f) + Sum(n, g)
  {
    if n > 0 {
      SumAdd(n - 1, f, g, h);
    }
  }

  lemma {:induction false} SumScale(n: nat, a: real, f: int -> real, h: int -> real)
    requires forall i :: 0 <= i < n ==> h(i) == a * f(i)
    ensures Sum(n, h) == a * Sum(n, f)
  {
    if n > 0 {
      SumScale(n - 1, a, f, h);
      Distribute(a, Sum(n - 1, f), f(n - 1));
    }
  }

  lemma SumLinear(n: nat, a: real, f: int -> real, b: real, g: int -> real, h: int -> real)
    requires forall i :: 0 <= i < n ==> h(i) == a * f(i) + b * g(i)
    ensures Sum(n, h) == a * Sum(n, f) + b * Sum(n, g)
  {
    hide Sum;
    var u, v := i => a * f(i), i => b * g(i);
    SumScale(n, a, f, u);
    SumScale(n, b, g, v);
    SumAdd(n, u, v, h);
  }

  lemma Distribute(a: real, x: real, y: real)
    ensures a * (x + y) == a * x + a * y
  {
  }

  lemma {:induction false} SumZero(n: nat, f: int -> real)
    requires forall i :: 0 <= i < n ==> f(i) == 0.0
    ensures Sum(n, f) == 0.0
  {
    if n > 0 {
      SumZero(n - 1, f);
    }
  }

  /** A sum of non-negative terms is at least each of them. */
  lemma {:induction false} SumAtLeastTerm(n: nat, f: int -> real, j: nat)
    requires forall i :: 0 <= i < n ==> f(i) >= 0.0
    requires j < n
    ensures Sum(n, f) >= f(j) >= 0.0
  {
    if j < n - 1 {
      SumAtLeastTerm(n - 1, f, j);
    } else {
      SumNonNegative(n - 1, f);
    }
  }

  lemma {:induction false} SumNonNegative(n: nat, f: int -> real)
    requires forall i :: 0 <= i < n ==> f(i) >= 0.0
    ensures Sum(n, f) >= 0.0
  {
    if n > 0 {
      SumNonNegative(n - 1, f);
    }
  }

  /** Only one index of the range contributes. */
  lemma {:induction false} SumSingle(n: nat, f: int -> real, j: nat)
    requires j < n
    requires forall i :: 0 <= i < n && i != j ==> f(i) == 0.0
    ensures Sum(n, f) == f(j)
  {
    if j < n - 1 {
      SumSingle(n - 1, f, j);
    } else {
      SumZero(n - 1, f);
    }
  }

  /** Terms past m that are zero do not count. */
  lemma {:induction false} SumTruncate(n: nat, m: nat, f: int -> real, g: int -> real)
    requires m <= n
    requires forall i :: 0 <= i < m ==> f(i) == g(i)
    requires forall i :: m <= i < n ==> f(i) == 0.0
    ensures Sum(n, f) == Sum(m, g)
  {
    if m < n {
      SumTruncate(n - 1, m, f, g);
    } else {
      SumCongruence(n, f, g);
    }
  }

  /** The order of a double summation does not matter. */
  lemma {:induction false} SumExchange(n: nat, m: nat, f: (int, int) -> real)
    ensures Sum(n, i => Sum(m, j => f(i, j))) == Sum(m, j => Sum(n, i => f(i, j)))
  {
    if n == 0 {
      SumZero(m, j => Sum(n, i => f(i, j)));
    } else {
      SumExchange(n - 1, m, f);
      SumAdd(m, j => Sum(n - 1, i => f(i, j)), j => f(n - 1, j), j => Sum(n, i => f(i, j)));
    }
  }
}
