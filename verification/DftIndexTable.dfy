/** The input permutation of a mixed-radix transform, and the loops of DFTInit that fill it. */
module DftIndexTable {
  import opened Nonlinear
  import opened MixedRadix
  import opened DftFactorize
  import opened BitReversal
  import opened DigitCounter

  // ---- what the table is to hold ----

  function Log2(n: nat): nat {
    if n < 2 then 0 else 1 + Log2(n / 2)
  }

  /** The digits a factor list stands for: its power of two is split into binary digits. */
  function Expand(fs: seq<int>): seq<int> {
    if fs != [] && fs[0] >= 2 && fs[0] % 2 == 0 then Twos(Log2(fs[0])) + fs[1..] else fs
  }

  /** The factor lists that DFTFactorize makes for a transform length. */
  ghost predicate Plan(n0: int, fs: seq<int>) {
    n0 >= 1 && if n0 <= 5 then fs == [n0] else FactorList(n0, fs)
  }

  /** Entry i of the forward table: i with its digits reversed. */
  ghost function Entry(n0: int, fs: seq<int>, i: nat): (r: nat)
    requires Plan(n0, fs) && i < n0
    ensures r < n0
  {
    PlanExpands(n0, fs);
    Reversal(Expand(fs), i)
  }

  lemma {:induction false} Log2OfPower(m: nat)
    ensures Pow(2, m) >= 1 && Log2(Pow(2, m)) == m
  {
    if m > 0 {
      Log2OfPower(m - 1);
      assert Pow(2, m) / 2 == Pow(2, m - 1);
    }
  }

  lemma PlanPositive(n0: int, fs: seq<int>)
    requires Plan(n0, fs)
    ensures Positive(fs) && |fs| >= 1 && Product(fs) == n0
  {
    if n0 <= 5 {
      assert [n0][1..] == [] && Product([]) == 1;
    } else {
      var e := Evens(n0);
      forall k | 0 <= k < |fs|
        ensures fs[k] >= 1
      {
        if k >= e {
          assert OddPrime(fs[e..][k - e]);
        }
      }
    }
  }

  lemma OddPlan(n0: int, fs: seq<int>)
    requires Plan(n0, fs) && n0 % 2 == 1
    ensures |fs| >= 1 && fs[0] % 2 == 1
  {
    PlanPositive(n0, fs);
    if n0 > 5 {
      assert OddPrime(fs[0..][0]);
    }
  }

  /** An even plan: a power of two in front, the rest at least three each. */
  lemma EvenPlan(n0: int, fs: seq<int>) returns (m: nat)
    requires Plan(n0, fs) && n0 % 2 == 0
    ensures |fs| >= 1 && m >= 1 && fs[0] == Pow(2, m) && fs[0] % 2 == 0
    ensures Expand(fs) == Twos(m) + fs[1..]
    ensures forall k :: 1 <= k < |fs| ==> fs[k] >= 3
  {
    PlanPositive(n0, fs);
    if n0 <= 5 {
      SmallPowers();
      m := if n0 == 2 then 1 else 2;
    } else {
      TwoPartDivides(n0);
      m :| fs[0] == Pow(2, m);
      forall k | 1 <= k < |fs|
        ensures fs[k] >= 3
      {
        assert OddPrime(fs[1..][k - 1]);
      }
    }
    Log2OfPower(m);
    assert Pow(2, 0) == 1;
  }

  lemma EvenTailOdd(n0: int, fs: seq<int>)
    requires Plan(n0, fs) && n0 % 2 == 0
    ensures |fs| >= 1 && (|fs| == 1 || fs[|fs| - 1] % 2 == 1)
  {
    if n0 > 5 && |fs| > 1 {
      assert OddPrime(fs[1..][|fs| - 2]);
    }
  }

  lemma PlanExpands(n0: int, fs: seq<int>)
    requires Plan(n0, fs)
    ensures Positive(Expand(fs)) && Product(Expand(fs)) == n0
  {
    PlanPositive(n0, fs);
    if n0 % 2 == 0 {
      var m := EvenPlan(n0, fs);
      ProductTwos(m);
      ProductConcat(Twos(m), fs[1..]);
    } else {
      OddPlan(n0, fs);
    }
  }

  /** Where v stands in the forward table: v with its digits, read over the reversed list, reversed. */
  ghost function Position(n0: int, fs: seq<int>, v: nat): (i: nat)
    requires Plan(n0, fs) && v < n0
    ensures i < n0
  {
    PlanExpands(n0, fs);
    ProductBackwards(Expand(fs));
    Reversal(Backwards(Expand(fs)), v)
  }

  /** The forward table is a permutation of [0, n0): Entry and Position undo each other both ways. */
  lemma TableIsPermutation(n0: int, fs: seq<int>, i: nat)
    requires Plan(n0, fs) && i < n0
    ensures Position(n0, fs, Entry(n0, fs, i)) == i
    ensures Entry(n0, fs, Position(n0, fs, i)) == i
  {
    PlanExpands(n0, fs);
    var es := Expand(fs);
    ReversalInverse(es, i);
    BackwardsTwice(es);
    ProductBackwards(es);
    ReversalInverse(Backwards(es), i);
  }

  /** When the first and the last factor agree, the digits read the same both ways, and the table is its own
      inverse. This is why DFTInit then leaves the forward table in place of the inverse. */
  lemma EqualEndsInvolution(n0: int, fs: seq<int>, i: nat)
    requires Plan(n0, fs) && i < n0 && fs[0] == fs[|fs| - 1]
    ensures Entry(n0, fs, Entry(n0, fs, i)) == i
  {
    PlanExpands(n0, fs);
    PlanPositive(n0, fs);
    var es := Expand(fs);
    if n0 % 2 == 0 {
      var m := EvenPlan(n0, fs);
      EvenTailOdd(n0, fs);
      assert es == Twos(m);
    } else if n0 > 5 {
      assert fs[0..] == fs;
    }
    assert Backwards(es) == es;
    ReversalInvolution(es, i);
  }

  // ---- filling it ----

  /** The first n entries of tab are the digit reversals of their indices. */
  ghost predicate Filled(tab: seq<int>, fs: seq<int>, n: int)
    requires Positive(fs)
  {
    0 <= n <= |tab| && forall t :: 0 <= t < n ==> tab[t] == Reversal(fs, t)
  }

  /** The table built one entry at a time by the digit counter: odd lengths. */
  method FillByCounting(n0: int, nf: nat, factors: array<int>, radix: array<int>, digits: array<int>,
                        itab: array<int>, ghost fs: seq<int>)
    requires digits != factors && digits != radix && itab != factors && itab != radix && itab != digits
    requires 1 <= nf <= factors.Length && n0 <= itab.Length
    requires fs == factors[0..nf] && Positive(fs) && Product(fs) == n0
    requires Weights(radix, fs, 0) && Counts(digits, fs, 0, 0)
    modifies digits, itab
    ensures Filled(itab[..], fs, n0) && itab[n0..] == old(itab[n0..])
  {
    hide Digits, Reversal, Product;
    ReversalZero(fs);
    ProductPositive(fs);
    var i, j := 0, 0;
    while true
      invariant 0 <= i < n0
      invariant Counts(digits, fs, 0, i) && j == Reversal(fs, i)
      invariant Filled(itab[..], fs, i) && itab[n0..] == old(itab[n0..])
      decreases n0 - i
    {
      itab[i] := j;
      i := i + 1;
      if i >= n0 {
        break;
      }
      assert radix[0 + 1] == Product(fs[1..]);
      j := j + radix[1];
      j := Carry(factors, radix, digits, nf, 0, fs, i - 1, j);
    }
  }

  lemma PowDown(m: nat)
    requires m >= 2
    ensures Pow(2, m) == 4 * Pow(2, m - 2)
  {
    assert Pow(2, m) == 2 * Pow(2, m - 1);
  }

  /** Four entries in a row share their high bits and differ in the two lowest. */
  lemma FourEntries(m: nat, q: nat)
    requires m >= 2 && q < Pow(2, m - 2)
    ensures var h := Reversal(Twos(m - 2), q);
            && Reversal(Twos(m), 4 * q) == h
            && Reversal(Twos(m), 4 * q + 1) == h + 2 * Pow(2, m - 2)
            && Reversal(Twos(m), 4 * q + 2) == h + Pow(2, m - 2)
            && Reversal(Twos(m), 4 * q + 3) == h + 3 * Pow(2, m - 2)
  {
    hide Reversal, Twos, Pow;
    SmallPowers();
    forall r | 0 <= r < 4
      ensures Reversal(Twos(m), 4 * q + r) == Reversal(Twos(2), r) * Pow(2, m - 2) + Reversal(Twos(m - 2), q)
    {
      BitsSplit(2, m - 2, r, q);
    }
    PairReversal(0);
    PairReversal(1);
    PairReversal(2);
    PairReversal(3);
  }

  /** The first n entries are the bit reversals of their indices, scaled by a. */
  ghost predicate Scaled(tab: seq<int>, m: nat, a: int, n: int) {
    0 <= n <= |tab| && forall t :: 0 <= t < n ==> tab[t] == Reversal(Twos(m), t) * a
  }

  lemma FourScaled(tab: seq<int>, m: nat, a: int, i: int, j: int, now: seq<int>)
    requires m >= 2 && i % 4 == 0 && 0 <= i < Pow(2, m) && Scaled(tab, m, a, i) && i + 4 <= |tab|
    requires i / 4 < Pow(2, m - 2) && j == Reversal(Twos(m - 2), i / 4) * a
    requires now == tab[i := j][i + 1 := j + 2 * (Pow(2, m - 2) * a)][i + 2 := j + Pow(2, m - 2) * a]
                       [i + 3 := j + 2 * (Pow(2, m - 2) * a) + Pow(2, m - 2) * a]
    ensures Scaled(now, m, a, i + 4)
  {
    hide Reversal, Twos, Pow;
    var q := i / 4;
    var h, p := Reversal(Twos(m - 2), q), Pow(2, m - 2);
    FourEntries(m, q);
    assert (h + 2 * p) * a == h * a + 2 * (p * a);
    assert (h + p) * a == h * a + p * a;
    assert (h + 3 * p) * a == h * a + 2 * (p * a) + p * a;
    assert forall t :: 0 <= t < i ==> now[t] == tab[t];
  }

  /** Four neighbouring entries from one look-up. */
  method StoreFour(itab: array<int>, ghost m: nat, ghost a: int, na2: int, na4: int, i: int, j: int)
    requires m >= 2 && i % 4 == 0 && 0 <= i <= itab.Length - 4 && i / 4 < Pow(2, m - 2)
    requires na2 == 2 * (Pow(2, m - 2) * a) && na4 == Pow(2, m - 2) * a
    requires Scaled(itab[..], m, a, i) && j == Reversal(Twos(m - 2), i / 4) * a
    modifies itab
    ensures Scaled(itab[..], m, a, i + 4)
    ensures forall t :: i + 4 <= t < itab.Length ==> itab[t] == old(itab[t])
  {
    hide Reversal, Twos, Pow, Scaled;
    PowDown(m);
    ghost var was := itab[..];
    itab[i] := j;
    itab[i + 1] := j + na2;
    itab[i + 2] := j + na4;
    itab[i + 3] := j + na2 + na4;
    FourScaled(was, m, a, i, j, itab[..]);
  }

  /** The power-of-two digit up to 256, four entries to a look-up in the byte table. */
  method FillByBytes(n: int, m: nat, a: int, na2: int, na4: int, itab: array<int>)
    requires 2 < n <= 256 && n <= itab.Length && n == Pow(2, m)
    requires m >= 2 && n % 4 == 0 && na2 == 2 * (Pow(2, m - 2) * a) && na4 == Pow(2, m - 2) * a
    modifies itab
    ensures Scaled(itab[..], m, a, n)
    ensures forall t :: n <= t < itab.Length ==> itab[t] == old(itab[t])
  {
    hide *;
    Quarter(n, m);
    var shift := 10 - m;
    var i := 0;
    ScaledNothing(itab[..], m, a);
    while i <= n - 4
      invariant 0 <= i <= n && i % 4 == 0 && Scaled(itab[..], m, a, i)
      invariant forall t :: n <= t < itab.Length ==> itab[t] == old(itab[t])
    {
      ByteReverses(i / 4, m - 2);
      var j := ShiftRight(BitrevTab(i / 4), shift) * a;
      StoreFour(itab, m, a, na2, na4, i, j);
      i := i + 4;
    }
    assert i == n;
  }

  /** The power-of-two digit above 256, four entries to a 32-bit reversal. */
  method FillByWords(n: int, m: nat, a: int, na2: int, na4: int, itab: array<int>)
    requires 256 < n < 0x8000_0000 && n <= itab.Length && n == Pow(2, m)
    requires m >= 2 && n % 4 == 0 && na2 == 2 * (Pow(2, m - 2) * a) && na4 == Pow(2, m - 2) * a
    modifies itab
    ensures Scaled(itab[..], m, a, n)
    ensures forall t :: n <= t < itab.Length ==> itab[t] == old(itab[t])
  {
    hide Reversal, Twos, Pow, BitrevTab, BitRev, ShiftRight, Scaled;
    Quarter(n, m);
    var shift := 34 - m;
    var i := 0;
    ScaledNothing(itab[..], m, a);
    while i < n
      invariant 0 <= i <= n && i % 4 == 0 && Scaled(itab[..], m, a, i)
      invariant forall t :: n <= t < itab.Length ==> itab[t] == old(itab[t])
    {
      BitRevReverses(i / 4, m - 2);
      var j := BitRev(i / 4, shift) * a;
      StoreFour(itab, m, a, na2, na4, i, j);
      i := i + 4;
    }
    assert i == n;
  }

  /** The power-of-two digit. */
  method FillBits(n: int, a: int, itab: array<int>) returns (m: nat)
    requires 2 <= n < 0x8000_0000 && n <= itab.Length && PowerOfTwo(n)
    modifies itab
    ensures n == Pow(2, m) && Scaled(itab[..], m, a, n)
    ensures forall t :: n <= t < itab.Length ==> itab[t] == old(itab[t])
  {
    hide Pow, Scaled;
    var na2 := n * a / 2;
    var na4 := na2 / 2;
    m := BitWidth(n);
    if n <= 2 {
      itab[0] := 0;
      itab[1] := na2;
      TwoScaled(itab[..], m, a);
    } else if n <= 256 {
      QuarterTurns(n, m, a);
      FillByBytes(n, m, a, na2, na4, itab);
    } else {
      QuarterTurns(n, m, a);
      FillByWords(n, m, a, na2, na4, itab);
    }
  }

  lemma ScaledNothing(tab: seq<int>, m: nat, a: int)
    ensures Scaled(tab, m, a, 0)
  {
  }

  lemma TwoScaled(tab: seq<int>, m: nat, a: int)
    requires |tab| >= 2 && Pow(2, m) == 2 && tab[0] == 0 && tab[1] == 2 * a / 2
    ensures Scaled(tab, m, a, 2)
  {
    Log2OfPower(m);
    assert m == 1;
    ReversalOne(2, 0);
    ReversalOne(2, 1);
    assert Twos(1) == [2];
  }

  /** The loop that counts the bits of n. */
  method BitWidth(n: int) returns (m: nat)
    requires 1 <= n < 0x8000_0000 && PowerOfTwo(n)
    ensures n == Pow(2, m)
  {
    ghost var k: nat :| n == Pow(2, k);
    m := 0;
    var bit := 1;
    while bit < n
      invariant bit == Pow(2, m) && m <= k
      decreases k - m
    {
      PowMono(2, m, k);
      bit := bit * 2;
      m := m + 1;
    }
    if m < k {
      PowStrict(m, k);
    }
  }

  lemma {:induction false} PowStrict(a: nat, c: nat)
    requires a < c
    ensures Pow(2, a) < Pow(2, c)
  {
    PowPositive(2, a);
    if a + 1 < c {
      PowStrict(a, c - 1);
    }
  }

  /** The number of bits that the two look-ups can take. */
  lemma Quarter(n: int, m: nat)
    requires 2 < n < 0x8000_0000 && n == Pow(2, m)
    ensures m >= 2 && n == 4 * Pow(2, m - 2) && (n <= 256 ==> m <= 8) && m <= 34
  {
    AtLeastTwoBits(m);
    PowDown(m);
    if n <= 256 {
      AtMostEightBits(m);
    }
    AtMostThirtyOneBits(m);
  }

  lemma AtLeastTwoBits(m: nat)
    requires Pow(2, m) > 2
    ensures m >= 2
  {
    SmallPowers();
    assert m != 0 && m != 1;
  }

  lemma AtMostEightBits(m: nat)
    requires Pow(2, m) <= 256
    ensures m <= 8
  {
    SmallPowers();
    if m > 8 {
      PowStrict(8, m);
    }
  }

  lemma AtMostThirtyOneBits(m: nat)
    requires Pow(2, m) < 0x8000_0000
    ensures m <= 31
  {
    SmallPowers();
    PowTimes(8, 8);
    PowTimes(16, 15);
    assert Pow(2, 15) == 0x8000 by {
      PowTimes(8, 7);
      assert Pow(2, 8) == 2 * Pow(2, 7);
    }
    if m > 31 {
      PowStrict(31, m);
    }
  }

  /** The offsets within a group of four. */
  lemma QuarterTurns(n: int, m: nat, a: int)
    requires 2 < n < 0x8000_0000 && n == Pow(2, m)
    ensures m >= 2 && n % 4 == 0
    ensures n * a / 2 == 2 * (Pow(2, m - 2) * a) && n * a / 2 / 2 == Pow(2, m - 2) * a
  {
    hide Pow;
    Quarter(n, m);
    MulAssoc(4, Pow(2, m - 2), a);
  }

  /** The first n = 2^m entries, read over the whole list of digits: the higher digits are zero. */
  lemma FirstBlock(tab: seq<int>, m: nat, gs: seq<int>)
    requires Positive(gs) && Pow(2, m) <= |tab| && Scaled(tab, m, Product(gs), Pow(2, m))
    ensures Filled(tab, Twos(m) + gs, Pow(2, m))
  {
    hide Reversal, Twos, Pow, Product;
    var es := Twos(m) + gs;
    forall t | 0 <= t < Pow(2, m)
      ensures tab[t] == Reversal(es, t)
    {
      BlockEntry(m, gs, 0, t);
    }
  }

  /** Entry t of block b: the reversed bits of t above, the reversed digits of b below. */
  lemma BlockEntry(m: nat, gs: seq<int>, b: nat, t: nat)
    requires Positive(gs) && t < Pow(2, m)
    ensures b * Pow(2, m) + t >= 0
    ensures Reversal(Twos(m) + gs, b * Pow(2, m) + t) == Reversal(Twos(m), t) * Product(gs) + Reversal(gs, b)
    ensures b == 0 ==> Reversal(gs, b) == 0
  {
    ProductTwos(m);
    ReversalSplit(Twos(m), gs, t, b);
    ReversalZero(gs);
  }

  lemma TwosPositive(m: nat, gs: seq<int>)
    requires Positive(gs)
    ensures Positive(Twos(m) + gs)
  {
  }

  /** One round of the block loop: copies the first block, raised by the reversal j of the block number. */
  method CopyBlock(itab: array<int>, n: int, i: int, j: int, ghost m: nat, ghost gs: seq<int>, ghost b: nat)
    requires Positive(gs) && n == Pow(2, m) && b >= 1 && i == b * n && n <= i <= itab.Length - n
    requires j == Reversal(gs, b)
    requires Scaled(itab[..], m, Product(gs), n) && Filled(itab[..], Twos(m) + gs, i)
    modifies itab
    ensures Scaled(itab[..], m, Product(gs), n) && Filled(itab[..], Twos(m) + gs, i + n)
    ensures forall t :: i + n <= t < itab.Length ==> itab[t] == old(itab[t])
  {
    hide Reversal, Twos, Pow, Product, Positive;
    TwosPositive(m, gs);
    ghost var es := Twos(m) + gs;
    for k := 0 to n
      invariant forall t :: 0 <= t < i || i + n <= t < itab.Length ==> itab[t] == old(itab[t])
      invariant forall t :: i <= t < i + k ==> itab[t] == Reversal(es, t)
    {
      BlockEntry(m, gs, b, k);
      itab[i + k] := itab[k] + j;
    }
  }

  /** The block loop: the higher digits, counted up while the first block is copied. */
  method FillBlocks(n0: int, n: int, nf: nat, factors: array<int>, radix: array<int>, digits: array<int>,
                    itab: array<int>, ghost m: nat, ghost gs: seq<int>)
    requires digits != factors && digits != radix && itab != factors && itab != radix && itab != digits
    requires 2 <= nf <= factors.Length && gs == factors[1..nf] && n0 <= itab.Length
    requires Positive(gs) && n == Pow(2, m) && n0 == Product(gs) * n && gs[0] >= 2
    requires Weights(radix, gs, 1) && Counts(digits, gs, 1, 1)
    requires Scaled(itab[..], m, Product(gs), n)
    modifies digits, itab
    ensures Filled(itab[..], Twos(m) + gs, n0)
    ensures forall t :: n0 <= t < itab.Length ==> itab[t] == old(itab[t])
  {
    hide Digits, Reversal, Twos, Pow, Product, Positive, Filled, Scaled;
    TwosPositive(m, gs);
    CountOne(gs);
    PowPositive(2, m);
    MulMono(2, Product(gs), n);
    ghost var b: nat := 1;
    FirstBlock(itab[..], m, gs);
    assert radix[1 + 1] == Product(gs[1..]);
    var i, j := n, radix[2];
    while i < n0
      invariant b >= 1 && i == b * n && i < n0 && b < Product(gs)
      invariant Counts(digits, gs, 1, b) && j == Reversal(gs, b)
      invariant Scaled(itab[..], m, Product(gs), n) && Filled(itab[..], Twos(m) + gs, i)
      invariant forall t :: n0 <= t < itab.Length ==> itab[t] == old(itab[t])
      decreases Product(gs) - b
    {
      NextBlock(n0, n, b, Product(gs));
      CopyBlock(itab, n, i, j, m, gs, b);
      i := i + n;
      if i >= n0 {
        break;
      }
      assert radix[1 + 1] == Product(gs[1..]);
      j := j + radix[2];
      j := Carry(factors, radix, digits, nf, 1, gs, b, j);
      b := b + 1;
    }
  }

  lemma NextBlock(n0: int, n: int, b: nat, p: int)
    requires n >= 1 && b < p && n0 == p * n
    ensures n <= b * n + n <= n0 && (b + 1) * n == b * n + n
    ensures b * n + n < n0 ==> b + 1 < p
    ensures b * n + n >= n0 ==> b * n + n == n0
  {
    MulDist(b, 1, n);
    MulMono(b + 1, p, n);
    MulMono(0, b, n);
  }

  /** The number one: its reversal is the weight of the lowest digit. */
  lemma CountOne(gs: seq<int>)
    requires Positive(gs) && gs != [] && gs[0] >= 2
    ensures Digits(gs, 1) == Digits(gs, 0)[0 := 1] && Digits(gs, 0) == Zeros(|gs|)
    ensures Reversal(gs, 1) == Product(gs[1..]) && 1 < Product(gs)
  {
    ProductStep(gs);
    hide Digits, Reversal, Product;
    DigitsZero(gs);
    NoCarry(gs, 0);
    ReversalZero(gs);
    ProductPositive(gs[1..]);
    MulMono(2, gs[0], Product(gs[1..]));
  }

  /** The inverse of the table tab, stored into itab0 two entries at a time. */
  method Invert(n0: int, itab0: array<int>, itab: array<int>, ghost es: seq<int>)
    requires itab0 != itab && 1 <= n0 <= itab.Length && n0 <= itab0.Length
    requires Positive(es) && Product(es) == n0 && Filled(itab[..], es, n0)
    modifies itab0
    ensures forall i :: 0 <= i < n0 ==> itab0[Reversal(es, i)] == i
  {
    hide Reversal, Product, Positive;
    ReversalZero(es);
    itab0[0] := 0;
    var i := n0 % 2;
    while i < n0
      invariant 0 <= i <= n0 && i % 2 == n0 % 2
      invariant forall t :: 0 <= t < i ==> itab0[Reversal(es, t)] == t
    {
      Distinct(es, i, i + 1);
      var k0 := itab[i];
      var k1 := itab[i + 1];
      itab0[k0] := i;
      itab0[k1] := i + 1;
      i := i + 2;
    }
  }

  lemma Distinct(es: seq<int>, a: nat, b: nat)
    requires Positive(es) && a < b < Product(es)
    ensures forall t: nat :: t < b ==> Reversal(es, t) != Reversal(es, b)
    ensures forall t: nat :: t < a ==> Reversal(es, t) != Reversal(es, a)
  {
    ReversalBijective(es);
  }
}
