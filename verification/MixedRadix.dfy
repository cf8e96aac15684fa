/** Mixed-radix numbers: digits, their reversal, and the reversal as a permutation.
    A radix list fs = [f0, f1, ...] writes i as d0 + f0 * (d1 + f1 * (...)), least digit first. */
module MixedRadix {
  import opened Nonlinear

  ghost predicate Positive(fs: seq<int>) {
    forall k :: 0 <= k < |fs| ==> fs[k] >= 1
  }

  function Product(fs: seq<int>): int {
    if fs == [] then 1 else fs[0] * Product(fs[1..])
  }

  /** The digits of i, least significant first. */
  function Digits(fs: seq<int>, i: nat): (ds: seq<int>)
    requires Positive(fs)
    ensures |ds| == |fs|
    ensures forall k :: 0 <= k < |fs| ==> 0 <= ds[k] < fs[k]
  {
    if fs == [] then [] else [i % fs[0]] + Digits(fs[1..], i / fs[0])
  }

  /** The number whose digits, over the reversed radix list, are the digits of i in reverse order. */
  function Reversal(fs: seq<int>, i: nat): (r: nat)
    requires Positive(fs)
    ensures r < Product(fs)
  {
    if fs == [] then 0
    else
      var p := Product(fs[1..]);
      var d, rest := i % fs[0], Reversal(fs[1..], i / fs[0]);
      MulBelow(d, fs[0], p);
      d * p + rest
  }

  function Backwards(fs: seq<int>): (r: seq<int>)
    ensures |r| == |fs|
    ensures forall k :: 0 <= k < |fs| ==> r[k] == fs[|fs| - 1 - k]
  {
    if fs == [] then [] else Backwards(fs[1..]) + [fs[0]]
  }

  lemma {:induction false} ProductPositive(fs: seq<int>)
    requires Positive(fs)
    ensures Product(fs) >= 1
  {
    if fs != [] {
      ProductPositive(fs[1..]);
      assert fs[0] * Product(fs[1..]) >= 1;
    }
  }

  lemma {:induction false} ProductConcat(fs: seq<int>, gs: seq<int>)
    ensures Product(fs + gs) == Product(fs) * Product(gs)
  {
    if fs == [] {
      assert fs + gs == gs;
    } else {
      assert (fs + gs)[1..] == fs[1..] + gs;
      ProductConcat(fs[1..], gs);
      assert fs[0] * (Product(fs[1..]) * Product(gs)) == (fs[0] * Product(fs[1..])) * Product(gs);
    }
  }

  lemma ProductSnoc(fs: seq<int>, f: int)
    ensures Product(fs + [f]) == Product(fs) * f
  {
    ProductConcat(fs, [f]);
    assert [f][1..] == [];
    assert Product([f]) == f;
  }

  lemma {:induction false} ProductBackwards(fs: seq<int>)
    ensures Product(Backwards(fs)) == Product(fs)
  {
    if fs != [] {
      ProductBackwards(fs[1..]);
      ProductSnoc(Backwards(fs[1..]), fs[0]);
    }
  }

  lemma ProductStep(fs: seq<int>)
    requires fs != []
    ensures Product(fs) == fs[0] * Product(fs[1..])
  {
  }

  lemma ReversalStep(fs: seq<int>, i: nat)
    requires Positive(fs) && fs != []
    ensures i / fs[0] >= 0
    ensures Reversal(fs, i) == i % fs[0] * Product(fs[1..]) + Reversal(fs[1..], i / fs[0])
  {
  }

  lemma ReversalNothing(i: nat)
    ensures Product([]) == 1 && Reversal([], i) == 0 && i / 1 == i
  {
  }

  lemma Regroup(d: int, p: int, e: int, q: int, rest: int)
    ensures d * (p * q) + (e * q + rest) == (d * p + e) * q + rest
  {
    MulAssoc(d, p, q);
    MulDist(d * p, e, q);
  }

  /** Reversing over a concatenation reverses each part and swaps their places. */
  lemma {:induction false} ReversalConcat(fs: seq<int>, gs: seq<int>, i: nat)
    requires Positive(fs) && Positive(gs)
    ensures Product(fs) >= 1
    ensures Reversal(fs + gs, i) == Reversal(fs, i) * Product(gs) + Reversal(gs, i / Product(fs))
  {
    hide Reversal, Product;
    ProductPositive(fs);
    if fs == [] {
      assert fs + gs == gs;
      ReversalNothing(i);
    } else {
      var f, t := fs[0], fs[1..];
      assert (fs + gs)[0] == f && (fs + gs)[1..] == t + gs;
      ReversalStep(fs + gs, i);
      ReversalStep(fs, i);
      ReversalConcat(t, gs, i / f);
      ProductConcat(t, gs);
      QuotientOfTail(fs, i);
      Regroup(i % f, Product(t), Reversal(t, i / f), Product(gs), Reversal(gs, i / Product(fs)));
    }
  }

  lemma QuotientOfTail(fs: seq<int>, i: nat)
    requires Positive(fs) && fs != []
    ensures Product(fs) >= 1 && Product(fs[1..]) >= 1
    ensures i / Product(fs) == i / fs[0] / Product(fs[1..])
  {
    ProductPositive(fs);
    ProductPositive(fs[1..]);
    DivModProduct(i, fs[0], Product(fs[1..]));
  }

  lemma ShiftDigits(i: nat, k: nat, f: int, p: int)
    requires f >= 1 && p >= 1
    ensures 0 <= k * p && 0 <= k * (f * p)
    ensures (i + k * (f * p)) / f == i / f + k * p && (i + k * (f * p)) % f == i % f
  {
    MulMono(0, k, p);
    MulMono(0, k * p, f);
    MulAssoc(k, p, f);
    assert p * f == f * p;
    MulDist(i / f, k * p, f);
    DivModUnique(i + k * (f * p), f, i / f + k * p, i % f);
  }

  /** Only the digits matter: adding a multiple of the product changes nothing. */
  lemma {:induction false} ReversalPeriodic(fs: seq<int>, i: nat, k: nat)
    requires Positive(fs)
    ensures Product(fs) >= 1 && k * Product(fs) >= 0
    ensures Reversal(fs, i + k * Product(fs)) == Reversal(fs, i)
  {
    ProductPositive(fs);
    MulMono(0, k, Product(fs));
    if fs != [] {
      var f, t := fs[0], fs[1..];
      assert Product(fs) == f * Product(t);
      hide Reversal, Product;
      ProductPositive(t);
      ShiftDigits(i, k, f, Product(t));
      ReversalStep(fs, i + k * Product(fs));
      ReversalStep(fs, i);
      ReversalPeriodic(t, i / f, k);
    }
  }

  lemma {:induction false} ReversalZero(fs: seq<int>)
    requires Positive(fs)
    ensures Reversal(fs, 0) == 0
  {
    if fs != [] {
      ReversalZero(fs[1..]);
    }
  }

  lemma ReversalOne(f: int, d: nat)
    requires d < f
    ensures Product([f]) == f && Reversal([f], d) == d
  {
    assert [f][1..] == [];
    assert Product([]) == 1;
    DivModUnique(d, f, 0, d);
  }

  lemma ReversalUnfold(fs: seq<int>, i: nat)
    requires Positive(fs) && fs != []
    ensures i / fs[0] >= 0
    ensures Reversal(fs, i) == i % fs[0] * Product(fs[1..]) + Reversal(fs[1..], i / fs[0])
    ensures Backwards(fs) == Backwards(fs[1..]) + [fs[0]]
  {
  }

  /** Reversing the digits over fs and then over the reversed list gives the number back. */
  lemma {:induction false} ReversalInverse(fs: seq<int>, i: nat)
    requires Positive(fs) && i < Product(fs)
    ensures Positive(Backwards(fs)) && Reversal(Backwards(fs), Reversal(fs, i)) == i
  {
    if fs != [] {
      var f, t := fs[0], fs[1..];
      DivBound(i, f, Product(t));
      ReversalUnfold(fs, i);
      hide Reversal, Product, Backwards;
      ReversalInverse(t, i / f);
      ProductBackwards(t);
      InverseSnoc(Backwards(t), f, i, Product(t), Reversal(t, i / f));
    }
  }

  lemma InverseSnoc(b: seq<int>, f: int, i: nat, p: nat, low: nat)
    requires Positive(b) && f > 0 && low < Product(b) == p && Reversal(b, low) == i / f
    ensures i % f * p + low >= 0 && Positive(b + [f])
    ensures Reversal(b + [f], i % f * p + low) == i
  {
    hide Reversal, Product;
    ReversalSnoc(b, f, i % f, low);
  }

  /** The same with the number given by its low and high parts. */
  lemma ReversalSplit(fs: seq<int>, gs: seq<int>, low: nat, high: nat)
    requires Positive(fs) && Positive(gs) && low < Product(fs)
    ensures high * Product(fs) + low >= 0
    ensures Reversal(fs + gs, high * Product(fs) + low) == Reversal(fs, low) * Product(gs) + Reversal(gs, high)
  {
    var r := high * Product(fs) + low;
    ReversalPeriodic(fs, low, high);
    DivModUnique(r, Product(fs), high, low);
    ReversalConcat(fs, gs, r);
  }

  /** A digit put above the others comes out below them. */
  lemma ReversalSnoc(fs: seq<int>, f: int, d: nat, low: nat)
    requires Positive(fs) && d < f && low < Product(fs)
    ensures d * Product(fs) + low >= 0 && Positive(fs + [f])
    ensures Reversal(fs + [f], d * Product(fs) + low) == Reversal(fs, low) * f + d
  {
    ReversalOne(f, d);
    ReversalSplit(fs, [f], low, d);
  }

  lemma BackwardsTwice(fs: seq<int>)
    ensures Backwards(Backwards(fs)) == fs
  {
  }

  /** The reversal is a bijection of [0, Product(fs)): no value is taken twice, and every value is taken. */
  lemma ReversalBijective(fs: seq<int>)
    requires Positive(fs)
    ensures forall i: nat, j: nat ::
              i < Product(fs) && j < Product(fs) && Reversal(fs, i) == Reversal(fs, j) ==> i == j
    ensures Positive(Backwards(fs)) && Product(Backwards(fs)) == Product(fs)
    ensures forall v: nat :: v < Product(fs) ==>
                               Reversal(Backwards(fs), v) < Product(fs) && Reversal(fs, Reversal(Backwards(fs), v)) == v
  {
    forall i: nat | i < Product(fs)
      ensures Positive(Backwards(fs)) && Reversal(Backwards(fs), Reversal(fs, i)) == i
    {
      ReversalInverse(fs, i);
    }
    ProductBackwards(fs);
    BackwardsTwice(fs);
    forall v: nat | v < Product(fs)
      ensures Reversal(fs, Reversal(Backwards(fs), v)) == v
    {
      ReversalInverse(Backwards(fs), v);
    }
  }

  /** Over a radix list that reads the same both ways the reversal undoes itself. */
  lemma ReversalInvolution(fs: seq<int>, i: nat)
    requires Positive(fs) && i < Product(fs) && Backwards(fs) == fs
    ensures Reversal(fs, Reversal(fs, i)) == i
  {
    ReversalInverse(fs, i);
  }

  /** A carry that cleared the first k digits: the rest of the reversal is the reversal of the rest. */
  lemma ReversalOfMultiple(fs: seq<int>, k: nat, q: nat)
    requires Positive(fs) && k <= |fs|
    ensures Product(fs[..k]) >= 1 && q * Product(fs[..k]) >= 0
    ensures Reversal(fs, q * Product(fs[..k])) == Reversal(fs[k..], q)
  {
    var lo, hi := fs[..k], fs[k..];
    ProductPositive(lo);
    assert fs == lo + hi;
    var i := q * Product(lo);
    assert i >= 0;
    ReversalConcat(lo, hi, i);
    ReversalPeriodic(lo, 0, q);
    ReversalZero(lo);
    DivModUnique(i, Product(lo), q, 0);
  }
}
