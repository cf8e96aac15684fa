/** Finite sums of real functions. */
module Sums {

  type Term = nat -> real

  function SumTo(f: Term, n: nat): real {
    if n == 0 then 0.0 else SumTo(f, n - 1) + f(n - 1)
  }

  lemma {:induction false} SumSame(f: Term, g: Term, n: nat)
    requires forall t: nat :: t < n ==> f(t) == g(t)
    ensures SumTo(f, n) == SumTo(g, n)
  {
    if n > 0 {
      SumSame(f, g, n - 1);
    }
  }

  lemma {:induction false} SumOfSums(f: Term, g: Term, h: Term, n: nat)
    requires forall t: nat :: t < n ==> f(t) == g(t) + h(t)
    ensures SumTo(f, n) == SumTo(g, n) + SumTo(h, n)
  {
    if n > 0 {
      SumOfSums(f, g, h, n - 1);
    }
  }

  /** A function that is zero but for one place. */
  lemma {:induction false} SumOfPoint(f: Term, at: nat, v: real, n: nat)
    requires forall t: nat :: t < n ==> f(t) == if t == at then v else 0.0
    ensures SumTo(f, n) == if at < n then v else 0.0
  {
    if n > 0 {
      SumOfPoint(f, at, v, n - 1);
    }
  }

  type Table = (nat, nat) -> real

  function AcrossRow(f: Table, q: nat): Term {
    (u: nat) => f(q, u)
  }

  function DownColumn(f: Table, u: nat): Term {
    (q: nat) => f(q, u)
  }

  function RowSums(f: Table, width: nat): Term {
    (q: nat) => SumTo(AcrossRow(f, q), width)
  }

  function ColumnSums(f: Table, height: nat): Term {
    (u: nat) => SumTo(DownColumn(f, u), height)
  }

  /** A table has one total, added up by rows or by columns. */
  lemma {:induction false} Exchange(f: Table, height: nat, width: nat)
    ensures SumTo(RowSums(f, width), height) == SumTo(ColumnSums(f, height), width)
  {
    if height == 0 {
      ZeroColumns(f, width);
    } else {
      Exchange(f, height - 1, width);
      forall u: nat | u < width
        ensures ColumnSums(f, height)(u) == ColumnSums(f, height - 1)(u) + AcrossRow(f, height - 1)(u)
      {
        AddRow(f, height, u);
      }
      SumOfSums(ColumnSums(f, height), ColumnSums(f, height - 1), AcrossRow(f, height - 1), width);
    }
  }

  lemma AddRow(f: Table, height: nat, u: nat)
    requires height > 0
    ensures ColumnSums(f, height)(u) == ColumnSums(f, height - 1)(u) + f(height - 1, u)
  {
  }

  lemma {:induction false} ZeroColumns(f: Table, width: nat)
    ensures SumTo(ColumnSums(f, 0), width) == 0.0
  {
    if width > 0 {
      ZeroColumns(f, width - 1);
    }
  }

  // ---- sums over stretches of the integers ----

  type Line = int -> real

  /** f at lo and the n - 1 numbers after it. */
  function SumFrom(f: Line, lo: int, n: nat): real {
    if n == 0 then 0.0 else SumFrom(f, lo, n - 1) + f(lo + n - 1)
  }

  lemma {:induction false} SumFromSplit(f: Line, lo: int, n: nat, m: nat)
    ensures SumFrom(f, lo, n + m) == SumFrom(f, lo, n) + SumFrom(f, lo + n, m)
  {
    if m > 0 {
      SumFromSplit(f, lo, n, m - 1);
    }
  }

  lemma {:induction false} SumFromZero(f: Line, lo: int, n: nat)
    requires forall x: int :: lo <= x < lo + n ==> f(x) == 0.0
    ensures SumFrom(f, lo, n) == 0.0
  {
    if n > 0 {
      SumFromZero(f, lo, n - 1);
    }
  }

  lemma {:induction false} SumFromScaled(f: Line, g: Line, c: real, lo: int, n: nat)
    requires forall x: int :: lo <= x < lo + n ==> f(x) == c * g(x)
    ensures SumFrom(f, lo, n) == c * SumFrom(g, lo, n)
  {
    if n > 0 {
      SumFromScaled(f, g, c, lo, n - 1);
      assert c * (SumFrom(g, lo, n - 1) + g(lo + n - 1)) == c * SumFrom(g, lo, n - 1) + c * g(lo + n - 1);
    }
  }

  /** A longer stretch, where f vanishes on what is added. */
  lemma SumFromWider(f: Line, lo: int, n: nat, a: int, m: nat)
    requires lo <= a && a + m <= lo + n
    requires forall x: int :: lo <= x < lo + n && !(a <= x < a + m) ==> f(x) == 0.0
    ensures SumFrom(f, lo, n) == SumFrom(f, a, m)
  {
    hide *;
    var before: nat, behind: nat := a - lo, lo + n - a - m;
    assert n == before + (m + behind);
    SumFromSplit(f, lo, before, m + behind);
    SumFromSplit(f, a, m, behind);
    SumFromZero(f, lo, before);
    SumFromZero(f, a + m, behind);
  }

  /** Two stretches give the same sum when f vanishes outside either. */
  lemma SumFromEither(f: Line, a: int, n: nat, b: int, m: nat)
    requires forall x: int :: !(a <= x < a + n) || !(b <= x < b + m) ==> f(x) == 0.0
    ensures SumFrom(f, a, n) == SumFrom(f, b, m)
  {
    hide *;
    var lo, hi := if a < b then a else b, if a + n < b + m then b + m else a + n;
    SumFromWider(f, lo, hi - lo, a, n);
    SumFromWider(f, lo, hi - lo, b, m);
  }

  lemma {:induction false} SumFromNonNegative(f: Line, lo: int, n: nat)
    requires forall x: int :: lo <= x < lo + n ==> f(x) >= 0.0
    ensures SumFrom(f, lo, n) >= 0.0
    ensures SumFrom(f, lo, n) > 0.0 <==> exists x :: lo <= x < lo + n && f(x) > 0.0
  {
    if n > 0 {
      SumFromNonNegative(f, lo, n - 1);
    }
  }

  lemma {:induction false} SumFromPoint(f: Line, at: int, v: real, lo: int, n: nat)
    requires lo <= at < lo + n && forall x: int :: lo <= x < lo + n ==> f(x) == if x == at then v else 0.0
    ensures SumFrom(f, lo, n) == v
  {
    SumFromSplit(f, lo, at - lo, lo + n - at);
    SumFromSplit(f, at, 1, lo + n - at - 1);
    SumFromZero(f, lo, at - lo);
    SumFromZero(f, at + 1, lo + n - at - 1);
    assert SumFrom(f, at, 1) == SumFrom(f, at, 0) + f(at);
  }
}
