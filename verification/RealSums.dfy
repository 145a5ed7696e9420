/** Finite sums of reals, and the reorderings the matrix kernels rely on. */
module RealSums {
  function Sum(f: nat -> real, n: nat): real {
    if n == 0 then 0.0 else Sum(f, n - 1) + f(n - 1)
  }

  lemma {:induction false} SumSame(f: nat -> real, g: nat -> real, n: nat)
    requires forall i: nat | i < n :: f(i) == g(i)
    ensures Sum(f, n) == Sum(g, n)
  {
    if n > 0 { SumSame(f, g, n - 1); }
  }

  lemma {:induction false} SumAdd(f: nat -> real, g: nat -> real, n: nat)
    ensures Sum((i: nat) => f(i) + g(i), n) == Sum(f, n) + Sum(g, n)
  {
    if n > 0 { SumAdd(f, g, n - 1); }
  }

  lemma {:induction false} SumZero(f: nat -> real, n: nat)
    requires forall i: nat | i < n :: f(i) == 0.0
    ensures Sum(f, n) == 0.0
  {
    if n > 0 { SumZero(f, n - 1); }
  }

  /** The terms from index `at` on. */
  function From(f: nat -> real, at: nat): nat -> real {
    (i: nat) => f(at + i)
  }

  /** A product, named so that proofs can treat it as a unit. */
  function Times(a: real, b: real): real {
    a * b
  }

  lemma EmptySums()
    ensures forall f: nat -> real {:trigger Sum(f, 0)} :: Sum(f, 0) == 0.0
  {
  }

  lemma NextTerm(f: nat -> real, at: nat, t: nat)
    ensures Sum(From(f, at), t + 1) == Sum(From(f, at), t) + f(at + t)
  {
  }

  lemma {:induction false} SumSplit(f: nat -> real, n: nat, m: nat)
    ensures Sum(f, n + m) == Sum(f, n) + Sum(From(f, n), m)
  {
    if m > 0 { SumSplit(f, n, m - 1); }
  }

  /** Row sums and column sums of a table. */
  function Rows(f: (nat, nat) -> real, m: nat): nat -> real {
    (i: nat) => Sum((j: nat) => f(i, j), m)
  }

  function Columns(f: (nat, nat) -> real, n: nat): nat -> real {
    (j: nat) => Sum((i: nat) => f(i, j), n)
  }

  /** The order of a double sum does not matter. */
  lemma {:induction false} SumSwap(f: (nat, nat) -> real, n: nat, m: nat)
    ensures Sum(Rows(f, m), n) == Sum(Columns(f, n), m)
  {
    if n == 0 {
      SumZero(Columns(f, n), m);
    } else {
      SumSwap(f, n - 1, m);
      var below, last := Columns(f, n - 1), (j: nat) => f(n - 1, j);
      SumAdd(below, last, m);
      forall j: nat | j < m
        ensures Columns(f, n)(j) == below(j) + last(j)
      {
        SumSame((i: nat) => f(i, j), (i: nat) => f(i, j), n - 1);
      }
      SumSame((j: nat) => below(j) + last(j), Columns(f, n), m);
    }
  }

  /** A sequence of terms cut into rows of `b`. */
  function Grid(f: nat -> real, b: nat): (nat, nat) -> real {
    (i: nat, j: nat) => f(i * b + j)
  }

  /** A sum over `n * b` terms, row by row. */
  lemma {:induction false} SumBlocks(f: nat -> real, n: nat, b: nat)
    ensures Sum(f, n * b) == Sum(Rows(Grid(f, b), b), n)
  {
    if n > 0 {
      SumBlocks(f, n - 1, b);
      LastBlock(f, n - 1, b);
    }
  }

  lemma LastBlock(f: nat -> real, n: nat, b: nat)
    ensures Sum(f, (n + 1) * b) == Sum(f, n * b) + Rows(Grid(f, b), b)(n)
  {
    hide Sum;
    assert (n + 1) * b == n * b + b;
    SumSplit(f, n * b, b);
    var at := n * b;
    forall j: nat | j < b
      ensures From(f, at)(j) == Grid(f, b)(n, j)
    {
      assert at + j == n * b + j;
    }
    SumSame(From(f, at), (j: nat) => Grid(f, b)(n, j), b);
  }

  /** The specification of every projection kernel. */
  function Dot(x: (nat, nat) -> real, w: (nat, nat) -> real, row: nat, feature: nat, k: nat): real {
    Sum((i: nat) => x(row, i) * w(feature, i), k)
  }
}
