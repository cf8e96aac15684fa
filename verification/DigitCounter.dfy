/** The incremental digit counter behind the index table: counting up by one with carries keeps the digit
    reversal of the count up to date through a table of suffix products. */
module DigitCounter {
  import opened Nonlinear
  import opened MixedRadix

  function Zeros(k: nat): (z: seq<int>)
    ensures |z| == k && forall t :: 0 <= t < k ==> z[t] == 0
  {
    seq(k, _ => 0)
  }

  lemma {:induction false} DigitsZero(fs: seq<int>)
    requires Positive(fs)
    ensures Digits(fs, 0) == Zeros(|fs|)
  {
    if fs != [] {
      DigitsZero(fs[1..]);
    }
  }

  lemma ZerosPush(k: nat, d: seq<int>)
    ensures [0] + (Zeros(k) + d) == Zeros(k + 1) + d
  {
  }

  /** Clearing the digit at k and counting the next one up, in a list whose first k digits are clear. */
  lemma ClearAndCount(k: nat, v: int, hi: seq<int>)
    requires hi != []
    ensures (Zeros(k) + ([v] + hi))[k := 0][k + 1 := hi[0] + 1] == Zeros(k + 1) + hi[0 := hi[0] + 1]
  {
  }

  lemma DigitsOfOneMultiple(fs: seq<int>, m: nat)
    requires Positive(fs) && fs != []
    ensures m * fs[0] >= 0 && Digits(fs, m * fs[0]) == [0] + Digits(fs[1..], m)
  {
    MulMono(0, m, fs[0]);
    DivModUnique(m * fs[0], fs[0], m, 0);
  }

  lemma {:induction false} DigitsOfMultiple(fs: seq<int>, k: nat, q: nat)
    requires Positive(fs) && k <= |fs|
    ensures q * Product(fs[..k]) >= 0
    ensures Digits(fs, q * Product(fs[..k])) == Zeros(k) + Digits(fs[k..], q)
  {
    if k == 0 {
      assert fs[..0] == [] && fs[0..] == fs;
      assert q * 1 == q;
    } else {
      var f, t := fs[0], fs[1..];
      var p := Product(t[..k - 1]);
      DigitsOfMultiple(t, k - 1, q);
      assert fs[..k][0] == f && fs[..k][1..] == t[..k - 1];
      assert t[k - 1..] == fs[k..];
      DigitsOfOneMultiple(fs, q * p);
      assert q * Product(fs[..k]) == q * p * f by {
        MulAssoc(q, p, f);
      }
      ZerosPush(k - 1, Digits(fs[k..], q));
    }
  }

  /** A number with its lowest digit raised, which may then be the radix. */
  function Raised(ds: seq<int>): (up: seq<int>)
    requires ds != []
    ensures |up| == |ds|
  {
    ds[0 := ds[0] + 1]
  }

  /** Counting up where the lowest digit does not overflow. */
  lemma NoCarry(fs: seq<int>, q: nat)
    requires Positive(fs) && fs != [] && Digits(fs, q)[0] + 1 < fs[0]
    ensures Digits(fs, q + 1) == Raised(Digits(fs, q))
    ensures Reversal(fs, q + 1) == Reversal(fs, q) + Product(fs[1..])
  {
    var f := fs[0];
    DivModUnique(q + 1, f, q / f, q % f + 1);
    MulDist(q % f, 1, Product(fs[1..]));
  }

  /** Counting up where it does: the count of the higher digits goes up instead. */
  lemma Overflow(fs: seq<int>, q: nat)
    requires Positive(fs) && fs != [] && Digits(fs, q)[0] + 1 >= fs[0] && q + 1 < Product(fs)
    ensures (q / fs[0] + 1) * fs[0] == q + 1
    ensures |fs| >= 2 && q / fs[0] + 1 < Product(fs[1..])
    ensures Reversal(fs, q) + Product(fs[1..]) - Product(fs) == Reversal(fs[1..], q / fs[0])
  {
    var f, p := fs[0], Product(fs[1..]);
    assert Digits(fs, q)[0] == q % f && Product(fs) == f * p;
    assert fs[1..] == [] ==> p == 1;
    ReversalStep(fs, q);
    hide *;
    CountUp(q, f, p);
  }

  lemma CountUp(q: nat, f: int, p: int)
    requires f > 0 && q % f == f - 1 && q + 1 < f * p
    ensures (q / f + 1) * f == q + 1 && 1 <= q / f + 1 < p
    ensures q % f * p + p == f * p
  {
    MulDist(q / f, 1, f);
    DivBound(q, f, p);
    if q / f + 1 >= p {
      MulMono(p, q / f + 1, f);
    }
    MulDist(f - 1, 1, p);
  }

  /** In the middle of a carry from the count b: the digits below k are cleared, the digit at k is already
      counted up, q counts the digits from k on, and j is ahead by the weight of digit k. */
  ghost predicate Carrying(fs: seq<int>, ds: seq<int>, b: nat, k: nat, q: nat, j: int)
    requires Positive(fs)
  {
    && k < |fs|
    && q + 1 < Product(fs[k..])
    && (q + 1) * Product(fs[..k]) == b + 1
    && ds == Zeros(k) + Raised(Digits(fs[k..], q))
    && j == Reversal(fs[k..], q) + Product(fs[k + 1..])
  }

  /** The carry has come to digit k. */
  ghost predicate At(fs: seq<int>, ds: seq<int>, b: nat, k: nat, j: int)
    requires Positive(fs)
  {
    k < |fs| == |ds| && exists q: nat :: Carrying(fs, ds, b, k, q, j)
  }

  lemma CarryStart(fs: seq<int>, b: nat)
    requires Positive(fs) && b + 1 < Product(fs)
    ensures |fs| >= 1 && |Digits(fs, b)| == |fs|
    ensures At(fs, Raised(Digits(fs, b)), b, 0, Reversal(fs, b) + Product(fs[1..]))
  {
    assert fs[0..] == fs && fs[..0] == [];
    assert (b + 1) * 1 == b + 1;
    assert Carrying(fs, Raised(Digits(fs, b)), b, 0, b, Reversal(fs, b) + Product(fs[1..]));
  }

  lemma CarryAcross(fs: seq<int>, ds: seq<int>, b: nat, k: nat, q: nat, j: int) returns (r: nat)
    requires Positive(fs) && Carrying(fs, ds, b, k, q, j) && Digits(fs[k..], q)[0] + 1 >= fs[k]
    ensures k + 1 < |fs| == |ds|
    ensures Carrying(fs, ds[k := 0][k + 1 := ds[k + 1] + 1], b, k + 1, r, j + Product(fs[k + 2..]) - Product(fs[k..]))
  {
    hide Digits, Zeros, Raised, Reversal, Product;
    DivBound(q, fs[k], q + 1);
    r := q / fs[k];
    CarryStepCount(fs, b, k, q, j, r);
    CarryStepDigits(fs, ds, k, q, r);
  }

  /** Digit k overflows: it is cleared, the next one is raised, and j goes on to its weight. */
  lemma CarryStep(fs: seq<int>, ds: seq<int>, b: nat, k: nat, j: int)
    requires Positive(fs) && At(fs, ds, b, k, j) && ds[k] >= fs[k]
    ensures k + 1 < |fs| == |ds|
    ensures At(fs, ds[k := 0][k + 1 := ds[k + 1] + 1], b, k + 1, j + Product(fs[k + 2..]) - Product(fs[k..]))
  {
    var q := Count(fs, ds, b, k, j);
    hide Carrying, Digits;
    var r := CarryAcross(fs, ds, b, k, q, j);
  }

  /** The count that the carry has reached, and its lowest digit. */
  lemma Count(fs: seq<int>, ds: seq<int>, b: nat, k: nat, j: int) returns (q: nat)
    requires Positive(fs) && At(fs, ds, b, k, j)
    ensures Carrying(fs, ds, b, k, q, j) && k < |fs| == |ds| && ds[k] == Digits(fs[k..], q)[0] + 1
    ensures (q + 1) * Product(fs[..k]) == b + 1 && j == Reversal(fs[k..], q) + Product(fs[k + 1..])
    ensures ds == Zeros(k) + Raised(Digits(fs[k..], q))
  {
    q :| Carrying(fs, ds, b, k, q, j);
    hide Digits;
    RaisedTop(k, Digits(fs[k..], q));
  }

  lemma OverflowAt(fs: seq<int>, k: nat, q: nat, r: int)
    requires Positive(fs) && k < |fs| && Digits(fs[k..], q)[0] + 1 >= fs[k]
    requires q + 1 < Product(fs[k..]) && r == q / fs[k]
    ensures k + 1 < |fs| && (r + 1) * fs[k] == q + 1 && 0 <= r && r + 1 < Product(fs[k + 1..])
    ensures Reversal(fs[k..], q) + Product(fs[k + 1..]) - Product(fs[k..]) == Reversal(fs[k + 1..], r)
  {
    hide Reversal, Product;
    var gs := fs[k..];
    assert gs[0] == fs[k] && gs[1..] == fs[k + 1..];
    Overflow(gs, q);
  }

  lemma CarryStepCount(fs: seq<int>, b: nat, k: nat, q: nat, j: int, r: nat)
    requires Positive(fs) && k < |fs| && Digits(fs[k..], q)[0] + 1 >= fs[k] && r == q / fs[k]
    requires q + 1 < Product(fs[k..]) && (q + 1) * Product(fs[..k]) == b + 1
    requires j == Reversal(fs[k..], q) + Product(fs[k + 1..])
    ensures k + 1 < |fs| && r + 1 < Product(fs[k + 1..])
    ensures (r + 1) * Product(fs[..k + 1]) == b + 1
    ensures j + Product(fs[k + 2..]) - Product(fs[k..]) == Reversal(fs[k + 1..], r) + Product(fs[k + 2..])
  {
    hide Reversal, Product;
    OverflowAt(fs, k, q, r);
    CountKept(fs, k, q, r, fs[k]);
  }

  lemma CountKept(fs: seq<int>, k: nat, q: nat, r: int, f: int)
    requires k < |fs| && f == fs[k] && (r + 1) * f == q + 1
    ensures (r + 1) * Product(fs[..k + 1]) == (q + 1) * Product(fs[..k])
  {
    hide Product;
    assert fs[..k + 1] == fs[..k] + [f];
    ProductSnoc(fs[..k], f);
    var p := Product(fs[..k]);
    MulAssoc(r + 1, f, p);
    assert p * f == f * p;
  }

  lemma CarryStepDigits(fs: seq<int>, ds: seq<int>, k: nat, q: nat, r: nat)
    requires Positive(fs) && k + 1 < |fs| && r == q / fs[k]
    requires ds == Zeros(k) + Raised(Digits(fs[k..], q))
    ensures |ds| == |fs|
    ensures ds[k := 0][k + 1 := ds[k + 1] + 1] == Zeros(k + 1) + Raised(Digits(fs[k + 1..], r))
  {
    hide Digits, Zeros;
    var gs := fs[k..];
    assert gs[0] == fs[k] && gs[1..] == fs[k + 1..];
    var hi := Digits(fs[k + 1..], r);
    FirstDigit(gs, q);
    Replace(q % fs[k], q % fs[k] + 1, hi);
    ClearAndCount(k, q % fs[k] + 1, hi);
  }

  lemma Replace(u: int, v: int, rest: seq<int>)
    ensures ([u] + rest)[0 := v] == [v] + rest
  {
  }

  lemma FirstDigit(fs: seq<int>, q: nat)
    requires Positive(fs) && fs != []
    ensures q / fs[0] >= 0 && Digits(fs, q) == [q % fs[0]] + Digits(fs[1..], q / fs[0])
  {
  }

  lemma CarryDone(fs: seq<int>, ds: seq<int>, b: nat, k: nat, j: int)
    requires Positive(fs) && At(fs, ds, b, k, j) && ds[k] < fs[k]
    ensures ds == Digits(fs, b + 1) && j == Reversal(fs, b + 1)
  {
    hide At, Carrying, Digits, Zeros, Raised, Reversal, Product;
    var q := Count(fs, ds, b, k, j);
    assert fs[k..][0] == fs[k] && fs[k..][1..] == fs[k + 1..];
    NoCarry(fs[k..], q);
    DigitsOfMultiple(fs, k, q + 1);
    ReversalOfMultiple(fs, k, q + 1);
  }

  lemma RaisedTop(k: nat, ds: seq<int>)
    requires ds != []
    ensures |Zeros(k) + Raised(ds)| == k + |ds| && (Zeros(k) + Raised(ds))[k] == ds[0] + 1
  {
  }

  /** The array holds, from start on, the weights of the digits: the products of the radices above them. */
  ghost predicate Weights(radix: array<int>, fs: seq<int>, start: nat)
    reads radix
  {
    && start + |fs| < radix.Length
    && forall t :: 0 <= t <= |fs| ==> radix[start + t] == Product(fs[t..])
  }

  /** The array holds, from start on, the digits of b. */
  ghost predicate Counts(digits: array<int>, fs: seq<int>, start: nat, b: nat)
    requires Positive(fs)
    reads digits
  {
    start + |fs| < digits.Length && forall t :: 0 <= t < |fs| ==> digits[start + t] == Digits(fs, b)[t]
  }

  lemma WeightAt(radix: array<int>, fs: seq<int>, start: nat, t: nat)
    requires Weights(radix, fs, start) && t <= |fs|
    ensures start + t < radix.Length && radix[start + t] == Product(fs[t..])
  {
  }

  /** The array holds ds from start on. */
  ghost predicate Holds(digits: array<int>, start: nat, ds: seq<int>)
    reads digits
  {
    start + |ds| <= digits.Length && forall t :: 0 <= t < |ds| ==> digits[start + t] == ds[t]
  }

  lemma HoldsAt(digits: array<int>, start: nat, ds: seq<int>, t: nat)
    requires Holds(digits, start, ds) && t < |ds|
    ensures start + t < digits.Length && digits[start + t] == ds[t]
  {
  }

  lemma CountsHold(radix: array<int>, digits: array<int>, fs: seq<int>, start: nat, b: nat)
    requires Positive(fs) && Weights(radix, fs, start) && Counts(digits, fs, start, b)
    ensures Holds(digits, start, Digits(fs, b)) && start + |fs| < digits.Length && start + |fs| < radix.Length
  {
  }

  lemma HoldsCounts(digits: array<int>, fs: seq<int>, start: nat, ds: seq<int>, b: nat)
    requires Positive(fs) && start + |fs| < digits.Length && Holds(digits, start, ds) && ds == Digits(fs, b)
    ensures Counts(digits, fs, start, b)
  {
  }

  /** The lowest digit is raised. */
  method Raise(digits: array<int>, start: nat, ghost ds: seq<int>)
    requires ds != [] && Holds(digits, start, ds)
    modifies digits
    ensures Holds(digits, start, Raised(ds))
  {
    digits[start] := digits[start] + 1;
  }

  /** Digit k overflows: it is cleared, and the next one is raised. */
  method ClearAndRaise(digits: array<int>, k: nat, start: nat, ghost ds: seq<int>)
    requires start <= k && k + 1 < start + |ds| && Holds(digits, start, ds)
    modifies digits
    ensures Holds(digits, start, ds[k - start := 0][k - start + 1 := ds[k - start + 1] + 1])
  {
    digits[k] := 0;
    digits[k + 1] := digits[k + 1] + 1;
  }

  /** One turn of the carry loop. */
  method CarryOne(radix: array<int>, digits: array<int>, k: nat, start: nat, ghost fs: seq<int>, ghost ds: seq<int>,
                  ghost b: nat, j0: int)
    returns (j: int)
    requires digits != radix && start <= k < start + |ds| && |ds| == |fs| && Positive(fs)
    requires Weights(radix, fs, start) && Holds(digits, start, ds)
    requires At(fs, ds, b, k - start, j0) && ds[k - start] >= fs[k - start]
    modifies digits
    ensures k - start + 1 < |fs|
    ensures var up := ds[k - start := 0][k - start + 1 := ds[k - start + 1] + 1];
            Holds(digits, start, up) && At(fs, up, b, k - start + 1, j)
  {
    hide *;
    CarryStep(fs, ds, b, k - start, j0);
    WeightAt(radix, fs, start, k - start);
    WeightAt(radix, fs, start, k - start + 2);
    ClearAndRaise(digits, k, start, ds);
    j := j0 + radix[k + 2] - radix[k];
  }

  /** The carry loop. Counts the digits from start on up by one, given that the weight of digit start has
      already been added to j0. It never looks past radix[nf]. */
  method Carry(factors: array<int>, radix: array<int>, digits: array<int>, nf: nat, start: nat, ghost fs: seq<int>,
               ghost b: nat, j0: int)
    returns (j: int)
    requires digits != factors && digits != radix
    requires start <= nf <= factors.Length
    requires fs == factors[start..nf] && Positive(fs) && b + 1 < Product(fs)
    requires Weights(radix, fs, start) && Counts(digits, fs, start, b)
    requires j0 == Reversal(fs, b) + Product(fs[1..])
    modifies digits
    ensures Counts(digits, fs, start, b + 1) && j == Reversal(fs, b + 1)
  {
    hide *;
    CarryStart(fs, b);
    CountsHold(radix, digits, fs, start, b);
    ghost var ds := Raised(Digits(fs, b));
    j := j0;
    var k := start;
    Raise(digits, start, Digits(fs, b));
    while digits[k] >= factors[k]
      invariant start <= k < nf && |ds| == |fs|
      invariant Holds(digits, start, ds) && At(fs, ds, b, k - start, j)
      decreases nf - k
    {
      ghost var d := k - start;
      HoldsAt(digits, start, ds, d);
      assert ds[d] >= fs[d];
      j := CarryOne(radix, digits, k, start, fs, ds, b, j);
      ds := ds[d := 0][d + 1 := ds[d + 1] + 1];
      k := k + 1;
    }
    HoldsAt(digits, start, ds, k - start);
    CarryDone(fs, ds, b, k - start, j);
    HoldsCounts(digits, fs, start, ds, b + 1);
  }
}
