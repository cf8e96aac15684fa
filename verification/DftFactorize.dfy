/** Splitting a transform length into its largest power of two and its odd primes. */
module DftFactorize {
  import opened Nonlinear
  import opened MixedRadix

  // ---- powers, bits, primes ----

  function Pow(b: nat, e: nat): nat {
    if e == 0 then 1 else b * Pow(b, e - 1)
  }

  /** The largest power of two that divides n. */
  function TwoPart(n: nat): (p: nat)
    requires n > 0
    ensures p > 0
  {
    if n % 2 == 1 then 1 else 2 * TwoPart(n / 2)
  }

  ghost predicate PowerOfTwo(n: int) {
    exists m: nat :: n == Pow(2, m)
  }

  /** Exclusive or of two non-negative numbers, bit by bit. */
  function BitXor(a: nat, b: nat): nat {
    if a == 0 && b == 0 then 0 else 2 * BitXor(a / 2, b / 2) + (a + b) % 2
  }

  ghost predicate NoDivisorIn(n: int, lo: int, hi: int) {
    forall k :: 2 <= k && lo <= k < hi ==> n % k != 0
  }

  ghost predicate Prime(n: int) {
    n >= 2 && NoDivisorIn(n, 2, n)
  }

  ghost predicate OddPrime(n: int) {
    Prime(n) && n % 2 == 1
  }

  // ---- the bit trick ----

  /** n and n - 1 differ in the lowest set bit of n and in the zeros below it. */
  lemma {:induction false} XorWithPredecessor(n: nat)
    requires n > 0
    ensures BitXor(n - 1, n) == 2 * TwoPart(n) - 1
  {
    if n % 2 == 1 {
      assert (n - 1) / 2 == n / 2;
      XorSame(n / 2);
    } else {
      assert (n - 1) / 2 == n / 2 - 1;
      XorWithPredecessor(n / 2);
    }
  }

  lemma {:induction false} XorSame(n: nat)
    ensures BitXor(n, n) == 0
  {
    if n != 0 {
      XorSame(n / 2);
    }
  }

  /** TwoPart divides n, is a power of two, and leaves an odd quotient. */
  lemma {:induction false} TwoPartDivides(n: nat)
    requires n > 0
    ensures TwoPart(n) <= n && n % TwoPart(n) == 0
    ensures n / TwoPart(n) >= 1 && n / TwoPart(n) % 2 == 1
    ensures PowerOfTwo(TwoPart(n))
    ensures n % 2 == 0 ==> TwoPart(n) % 2 == 0
  {
    if n % 2 == 1 {
      assert Pow(2, 0) == 1;
    } else {
      TwoPartDivides(n / 2);
      DoubleDivides(n, n / 2, TwoPart(n / 2));
      PowerDoubles(TwoPart(n / 2));
    }
  }

  lemma DoubleDivides(n: nat, h: nat, p: nat)
    requires n == 2 * h && 0 < p <= h && h % p == 0
    ensures 2 * p <= n && n % (2 * p) == 0 && n / (2 * p) == h / p
  {
    var q := h / p;
    assert h == q * p;
    assert n == q * (2 * p);
    DivModUnique(n, 2 * p, q, 0);
  }

  lemma PowerDoubles(p: nat)
    requires PowerOfTwo(p)
    ensures PowerOfTwo(2 * p)
  {
    var m: nat :| p == Pow(2, m);
    assert Pow(2, m + 1) == 2 * p;
  }

  // ---- trial division ----

  lemma DividesTrans(n: int, f: int, k: int)
    requires k >= 1 && f >= 1 && n % f == 0 && f % k == 0
    ensures n % k == 0
  {
    var a, b := n / f, f / k;
    assert n == a * f && f == b * k;
    MulAssoc(a, b, k);
    DivModUnique(n, k, a * b, 0);
  }

  /** A divisor of n that is the least number from 2 on to divide n is prime. */
  lemma LeastDivisorPrime(n: int, f: int)
    requires f >= 2 && n % f == 0 && NoDivisorIn(n, 2, f)
    ensures Prime(f)
  {
    forall k | 2 <= k < f
      ensures f % k != 0
    {
      if f % k == 0 {
        DividesTrans(n, f, k);
      }
    }
  }

  /** Trial division may stop at the square root. */
  lemma NoSmallDivisorPrime(n: int, f: int)
    requires n >= 2 && f >= 2 && f * f > n && NoDivisorIn(n, 2, f)
    ensures Prime(n)
  {
    forall k | 2 <= k < n
      ensures n % k != 0
    {
      if n % k == 0 {
        SmallerDivisor(n, f, k);
      }
    }
  }

  /** Of two factors of n, one is below f when f * f is above n. */
  lemma SmallerDivisor(n: int, f: int, k: int)
    requires f >= 2 && f * f > n && 2 <= k < n && n % k == 0
    ensures k < f || (2 <= n / k < f && n % (n / k) == 0)
  {
    var d := n / k;
    assert n == d * k;
    if d <= 1 {
      MulMono(d, 1, k);
    }
    if d >= f && k >= f {
      MulMono(f, d, k);
      MulMono(f, k, f);
    }
    assert n == k * d;
    DivModUnique(n, d, k, 0);
  }

  /** Dividing out a factor keeps every trial so far a failure. */
  lemma QuotientKeepsNoDivisor(n: int, f: int, hi: int)
    requires f >= 1 && n >= 1 && n % f == 0 && NoDivisorIn(n, 2, hi)
    ensures NoDivisorIn(n / f, 2, hi)
  {
    var d := n / f;
    assert n == d * f;
    forall k | 2 <= k < hi
      ensures d % k != 0
    {
      if d % k == 0 {
        assert n == f * d;
        DivModUnique(n, d, f, 0);
        DividesTrans(n, d, k);
      }
    }
  }

  lemma OddHasNoEvenDivisor(n: int, k: int)
    requires n % 2 == 1 && k >= 2 && k % 2 == 0
    ensures n % k != 0
  {
    if n % k == 0 {
      DividesTrans(n, k, 2);
    }
  }

  lemma QuotientOdd(n: int, f: int)
    requires f >= 1 && n % f == 0 && n % 2 == 1
    ensures n / f % 2 == 1
  {
    var d := n / f;
    if d % 2 == 0 {
      var h := d / 2;
      assert n == 2 * h * f;
      MulAssoc(2, h, f);
    }
  }

  // ---- the factor list ----

  ghost predicate NonIncreasing(fs: seq<int>) {
    forall a, b :: 0 <= a <= b < |fs| ==> fs[a] >= fs[b]
  }

  ghost predicate NonDecreasing(fs: seq<int>) {
    forall a, b :: 0 <= a <= b < |fs| ==> fs[a] <= fs[b]
  }

  ghost predicate AllOddPrime(fs: seq<int>) {
    forall k :: 0 <= k < |fs| ==> OddPrime(fs[k])
  }

  /** The number of leading even entries that a factor list of n has. */
  function Evens(n: int): nat {
    if n % 2 == 0 then 1 else 0
  }

  /** The factor list of a transform length above five: an even length starts with the largest power of two that
      divides it; all else is odd primes, non-increasing. */
  ghost predicate FactorList(n: int, fs: seq<int>)
    requires n > 0
  {
    && |fs| >= 1
    && Product(fs) == n
    && (n % 2 == 0 ==> fs[0] == TwoPart(n))
    && AllOddPrime(fs[Evens(n)..])
    && NonIncreasing(fs[Evens(n)..])
  }

  lemma {:induction false} PowMono(b: nat, a: nat, c: nat)
    requires b >= 1 && Pow(b, a) < Pow(b, c)
    ensures a < c
    decreases a
  {
    if c == 0 {
      PowPositive(b, a);
    } else if a > 0 {
      if Pow(b, a - 1) >= Pow(b, c - 1) {
        MulMono(Pow(b, c - 1), Pow(b, a - 1), b);
      }
      PowMono(b, a - 1, c - 1);
    }
  }

  lemma {:induction false} PowPositive(b: nat, e: nat)
    requires b >= 1
    ensures Pow(b, e) >= 1
  {
    if e > 0 {
      PowPositive(b, e - 1);
    }
  }

  /** What trial division has established when m is still to be split and f is the next trial. */
  ghost predicate Trial(n: int, fs: seq<int>, m: int, f: int) {
    && n > 5 && m >= 1 && m % 2 == 1 && f >= 3 && f % 2 == 1
    && Product(fs) * m == n
    && 2 * Pow(3, |fs|) <= 3 * Product(fs)
    && Evens(n) <= |fs|
    && (n % 2 == 0 ==> fs[0] == TwoPart(n))
    && AllOddPrime(fs[Evens(n)..])
    && NonDecreasing(fs[Evens(n)..])
    && (forall k :: Evens(n) <= k < |fs| ==> fs[k] <= f)
    && NoDivisorIn(m, 2, f)
  }

  lemma RestAtLeast(m: int, f: int)
    requires m > 1 && NoDivisorIn(m, 2, f)
    ensures m >= f
  {
    DivModUnique(m, m, 1, 0);
  }

  lemma FactorAtMost(n: int, p: int, m: int)
    requires n > 0 && m >= 3 && p * m == n
    ensures 3 * p <= n
  {
    if p <= 0 {
      MulMono(p, 0, m);
    }
    MulMono(3, m, p);
  }

  lemma TrialRoom(n: int, fs: seq<int>, m: int, f: int, capacity: nat)
    requires Trial(n, fs, m, f) && m > 1 && n < Pow(3, capacity)
    ensures |fs| < capacity && m >= f
  {
    var p := Product(fs);
    assert p * m == n && n > 5 && m >= 3 && 2 * Pow(3, |fs|) <= 3 * p && NoDivisorIn(m, 2, f);
    hide *;
    RestAtLeast(m, f);
    FactorAtMost(n, p, m);
    PowPositive(3, |fs|);
    PowMono(3, |fs|, capacity);
  }

  lemma TrialPush(n: int, fs: seq<int>, m: int, p: int, rest: int)
    requires n > 5 && Evens(n) <= |fs|
    requires m == rest * p && m >= 1 && m % 2 == 1 && rest >= 1
    requires Trial(n, fs, m, p) && Prime(p)
    ensures Trial(n, fs + [p], rest, p)
  {
    var gs := fs + [p];
    ProductSnoc(fs, p);
    MulAssoc(Product(fs), p, rest);
    assert Pow(3, |gs|) == 3 * Pow(3, |fs|);
    MulMono(3, p, Product(fs));
    DivModUnique(m, p, rest, 0);
    QuotientOdd(m, p);
    QuotientKeepsNoDivisor(m, p, p);
    assert gs[Evens(n)..] == fs[Evens(n)..] + [p];
  }

  lemma TrialFail(n: int, fs: seq<int>, m: int, f: int)
    requires Trial(n, fs, m, f) && m % f != 0
    ensures Trial(n, fs, m, f + 2)
  {
    OddHasNoEvenDivisor(m, f + 1);
  }

  lemma TrialHit(n: int, fs: seq<int>, m: int, f: int, d: int)
    requires Trial(n, fs, m, f) && d * f == m
    ensures 1 <= d < m && Trial(n, fs + [f], d, f)
  {
    if d <= 0 {
      MulMono(d, 0, f);
    }
    MulMono(3, f, d);
    DivModUnique(m, f, d, 0);
    LeastDivisorPrime(m, f);
    TrialPush(n, fs, m, f, d);
  }

  lemma TrialMiss(n: int, fs: seq<int>, m: int, f: int, d: int)
    requires Trial(n, fs, m, f) && d == m / f && d * f != m
    ensures Trial(n, fs, m, f + 2)
  {
    TrialFail(n, fs, m, f);
  }

  lemma TrialLast(n: int, fs: seq<int>, m: int, f: int)
    requires Trial(n, fs, m, f) && Prime(m) && m >= f
    ensures Trial(n, fs + [m], 1, m)
  {
    TrialPush(n, fs, m, m, 1);
  }

  /** The lengths for which no computation of DFTFactorize leaves the 32-bit range: adding one to the xor does for 2^30,
      and squaring the trial 46341 for the primes that outlast the trial before it. */
  ghost predicate Fits32(n: int) {
    n < 0x8000_0000 && n != 0x4000_0000 && (n > 2147302920 ==> !Prime(n))
  }

  /** Where the present trial f stands: c was to be split when f was taken up, q had been split off before, and n is
      what f has left of c. */
  ghost predicate Reached(n0: int, q: int, c: int, n: int, f: int) {
    q >= 1 && c >= 1 && q * c == n0 && (f == 3 || f * f <= c) && (c == n || n * f <= c)
  }

  lemma ReachedStart(n0: int, fs: seq<int>, n: int, f: int)
    requires Trial(n0, fs, n, f) && (f == 3 || f * f <= n)
    ensures Reached(n0, Product(fs), n, n, f)
  {
    if Product(fs) <= 0 {
      MulMono(Product(fs), 0, n);
    }
  }

  lemma ReachedHit(n0: int, q: int, c: int, n: int, f: int, d: int)
    requires Reached(n0, q, c, n, f) && n >= 1 && f >= 1 && d * f == n
    ensures Reached(n0, q, c, d, f)
  {
    MulMono(1, f, n);
  }

  /** The square of the next trial fits in 32 bits when f does not divide n either. */
  lemma SquareFits(n0: int, q: int, c: int, n: int, f: int)
    requires Fits32(n0) && Reached(n0, q, c, n, f) && n > 1
    requires f >= 1 && f % 2 == 1 && NoDivisorIn(n, 2, f + 2)
    ensures (f + 2) * (f + 2) < 0x8000_0000
  {
    hide *;
    TrialInRange(n0, q, c, n, f);
    SmallSquare(f + 2);
  }

  lemma TrialFacts(n: int, fs: seq<int>, m: int, f: int)
    requires Trial(n, fs, m, f)
    ensures f >= 3 && f % 2 == 1 && NoDivisorIn(m, 2, f)
  {
  }

  lemma TrialInRange(n0: int, q: int, c: int, n: int, f: int)
    requires Fits32(n0) && Reached(n0, q, c, n, f) && n > 1
    requires f >= 1 && f % 2 == 1 && NoDivisorIn(n, 2, f + 2)
    ensures f <= 46337
  {
    if f > 46337 {
      assert q >= 1 && q * c == n0 && f * f <= c && n0 < 0x8000_0000;
      assert c == n || n * f <= c;
      hide *;
      LastTrial(n0, q, c, f);
      NoLastRest(n0, n);
    }
  }

  lemma NoLastRest(n0: int, n: int)
    requires Fits32(n0)
    requires n > 1 && NoDivisorIn(n, 2, 46341) && (n0 == n || n * 46339 <= n0)
    ensures n0 <= 2147302920
  {
    SmallRest(n);
    if n0 == n {
      NoSmallDivisorPrime(n0, 46341);
    }
  }

  lemma SmallSquare(g: int)
    requires 0 <= g <= 46339
    ensures g * g < 0x8000_0000
  {
    MulMono(g, 46339, g);
    MulMono(g, 46339, 46339);
  }

  lemma LastTrial(n0: int, q: int, c: int, f: int)
    requires 46337 < f && f % 2 == 1 && f * f <= c && q >= 1 && q * c == n0 < 0x8000_0000
    ensures f == 46339 && c == n0 && n0 >= 2147302921
  {
    MulMono(46338, f, f);
    MulMono(46338, f, 46338);
    if q >= 2 {
      MulMono(2, q, c);
    }
    if f >= 46341 {
      MulMono(46341, f, f);
      MulMono(46341, f, 46341);
    }
  }

  /** A rest above one without a divisor below 46341 is at least 46343, as 46341 and 46342 have one. */
  lemma SmallRest(n: int)
    requires n > 1 && NoDivisorIn(n, 2, 46341)
    ensures n >= 46343
  {
    DivModUnique(n, n, 1, 0);
    assert n % 2 != 0;
    assert n % 3 != 0;
  }

  lemma TrialStart(n: int)
    requires n > 5 && n % 2 == 1
    ensures Trial(n, [], n, 3)
  {
    assert Pow(3, 0) == 1;
    OddHasNoEvenDivisor(n, 2);
  }

  lemma TrialStartEven(n: int)
    requires n > 5 && n % 2 == 0
    ensures Trial(n, [TwoPart(n)], n / TwoPart(n), 3)
  {
    var p := TwoPart(n);
    TwoPartDivides(n);
    ReversalOne(p, 0);
    assert Pow(3, 1) == 3 * Pow(3, 0);
    OddHasNoEvenDivisor(n / p, 2);
  }

  lemma TrialParts(n: int, fs: seq<int>, f: int)
    requires Trial(n, fs, 1, f)
    ensures n > 5 && Product(fs) == n && 1 <= |fs| && Evens(n) <= |fs| && (n % 2 == 0 ==> fs[0] == TwoPart(n))
    ensures AllOddPrime(fs[Evens(n)..]) && NonDecreasing(fs[Evens(n)..])
  {
  }

  /** Reversing the odd part of a finished trial gives the factor list. */
  lemma TrialDone(n: int, fs: seq<int>, f: int, out: seq<int>)
    requires Trial(n, fs, 1, f)
    requires out == fs[..Evens(n)] + Backwards(fs[Evens(n)..])
    ensures FactorList(n, out)
  {
    hide Trial, Product, TwoPart, OddPrime;
    var e := Evens(n);
    TrialParts(n, fs, f);
    ProductConcat(fs[..e], Backwards(fs[e..]));
    ProductBackwards(fs[e..]);
    ProductConcat(fs[..e], fs[e..]);
    assert fs == fs[..e] + fs[e..];
    assert out[e..] == Backwards(fs[e..]);
  }

  /** The parity of the first factor is the parity of n, so the swap loop starts past the power of two. */
  lemma FirstParity(n: int, fs: seq<int>, f: int)
    requires Trial(n, fs, 1, f)
    ensures fs != [] && (fs[0] % 2 == 0 <==> Evens(n) == 1)
  {
    if n % 2 == 0 {
      TwoPartDivides(n);
    } else {
      assert fs != [];
      assert fs[0..] == fs;
      assert OddPrime(fs[0..][0]);
    }
  }

  // ---- the lengths that fit in 32 bits ----

  lemma SquareAbove(n: int, g: int)
    requires g >= 5 && g * g <= n
    ensures g < n
  {
    MulMono(5, g, g);
  }

  lemma QuotientBelow(n: int, f: int)
    requires n > 1 && f >= 3 && n % f == 0
    ensures 1 <= n / f < n && n / f * f == n
  {
    var d := n / f;
    assert d * f == n;
    if d <= 0 {
      MulMono(d, 0, f);
    }
    MulMono(3, f, d);
  }

  /** Every square that the trial-division loop computes from the rest n and the trial f on fits in 32 bits. */
  ghost predicate SquaresFit(n: int, f: int)
    requires n >= 1 && f >= 3
    decreases n, if f <= n then n - f + 1 else 0
  {
    if n == 1 then true
    else if n % f == 0 then (QuotientBelow(n, f); SquaresFit(n / f, f))
    else
      var g := f + 2;
      && g * g < 0x8000_0000
      && (g * g > n || (SquareAbove(n, g); SquaresFit(n, g)))
  }

  lemma SquaresFitOne(f: int)
    requires f >= 3
    ensures SquaresFit(1, f)
  {
  }

  lemma SquaresFitHit(n: int, f: int)
    requires n > 1 && f >= 3 && n % f == 0 && n / f >= 1 && SquaresFit(n / f, f)
    ensures SquaresFit(n, f)
  {
  }

  lemma SquaresFitMiss(n: int, f: int)
    requires n > 1 && f >= 3 && n % f != 0 && (f + 2) * (f + 2) < 0x8000_0000
    requires (f + 2) * (f + 2) <= n ==> SquaresFit(n, f + 2)
    ensures SquaresFit(n, f)
  {
  }

  lemma {:induction false} LargePrimeOverflows(n: int, f: int)
    requires Prime(n) && 2147302920 < n && 3 <= f <= 46339 && f % 2 == 1
    ensures !SquaresFit(n, f)
    decreases 46341 - f
  {
    assert n % f != 0;
    if f < 46339 {
      MulMono(f + 2, 46339, f + 2);
      MulMono(f + 2, 46339, 46339);
      LargePrimeOverflows(n, f + 2);
    } else {
      assert (f + 2) * (f + 2) == 2147488281;
    }
  }

  lemma {:induction false} ReachedSquaresFit(n0: int, fs: seq<int>, q: int, c: int, n: int, f: int)
    requires Fits32(n0) && Trial(n0, fs, n, f) && Reached(n0, q, c, n, f) && n >= 1 && f >= 3
    ensures SquaresFit(n, f)
    decreases n, if f <= n then n - f + 1 else 0
  {
    hide *;
    if n == 1 {
      SquaresFitOne(f);
    } else if n % f == 0 {
      var d := n / f;
      QuotientBelow(n, f);
      TrialHit(n0, fs, n, f, d);
      ReachedHit(n0, q, c, n, f, d);
      ReachedSquaresFit(n0, fs + [f], q, c, d, f);
      SquaresFitHit(n, f);
    } else {
      TrialFail(n0, fs, n, f);
      TrialFacts(n0, fs, n, f + 2);
      SquareFits(n0, q, c, n, f);
      var g := f + 2;
      if g * g <= n {
        SquareAbove(n, g);
        assert g <= n;
        ReachedStart(n0, fs, n, g);
        ReachedSquaresFit(n0, fs, Product(fs), n, n, g);
      }
      SquaresFitMiss(n, f);
    }
  }

  lemma PrimeOdd(n: int)
    requires Prime(n) && n > 2
    ensures n % 2 == 1
  {
    assert n % 2 != 0;
  }

  lemma PowLiterals()
    ensures Pow(2, 30) == 0x4000_0000 && Pow(2, 31) == 0x8000_0000
  {
    assert Pow(2, 10) == 0x400;
    assert Pow(2, 20) == 0x400 * Pow(2, 10);
    assert Pow(2, 30) == 0x400 * Pow(2, 20);
  }

  lemma {:induction false} TwoPartPow(m: nat)
    ensures Pow(2, m) > 0 && TwoPart(Pow(2, m)) == Pow(2, m)
  {
    if m > 0 {
      TwoPartPow(m - 1);
    }
  }

  /** Twice the power of two in n fits in 32 bits for every length that does but 2^30. */
  lemma XorFitsIff(n: int)
    requires 0 < n < 0x8000_0000
    ensures BitXor(n - 1, n) + 1 < 0x8000_0000 <==> n != 0x4000_0000
  {
    hide TwoPart, BitXor, Pow;
    XorWithPredecessor(n);
    TwoPartDivides(n);
    PowLiterals();
    TwoPartPow(30);
    var p := TwoPart(n);
    if p >= 0x4000_0000 {
      assert n == n / p * p;
      if n / p >= 2 {
        MulMono(2, n / p, p);
      }
      assert n == p;
      var m: nat :| p == Pow(2, m);
      PowMono(2, m, 31);
      if m < 30 {
        PowSmaller(m);
      }
    }
  }

  lemma {:induction false} PowSmaller(m: nat)
    requires m < 30
    ensures Pow(2, m) < 0x4000_0000
    decreases 30 - m
  {
    assert Pow(2, m + 1) == 2 * Pow(2, m);
    PowPositive(2, m);
    if m + 1 < 30 {
      PowSmaller(m + 1);
    } else {
      PowLiterals();
    }
  }

  /** Splitting a length computes nothing outside the 32-bit range exactly when the length is neither 2^30 nor a prime
      that outlasts the trial 46339. */
  lemma SplitFitsIff(n: int)
    requires 5 < n < 0x8000_0000
    ensures n / TwoPart(n) >= 1
    ensures BitXor(n - 1, n) + 1 < 0x8000_0000 && SquaresFit(n / TwoPart(n), 3) <==> Fits32(n)
  {
    hide Trial, SquaresFit, Product, PowerOfTwo, Reached, NoDivisorIn, BitXor;
    TwoPartDivides(n);
    XorFitsIff(n);
    if Fits32(n) {
      hide Fits32;
      var m := n / TwoPart(n);
      var fs := if n % 2 == 0 then [TwoPart(n)] else [];
      if n % 2 == 0 {
        TrialStartEven(n);
      } else {
        TrialStart(n);
      }
      ReachedStart(n, fs, m, 3);
      ReachedSquaresFit(n, fs, Product(fs), m, m, 3);
    } else if n != 0x4000_0000 {
      PrimeOdd(n);
      LargePrimeOverflows(n, 3);
    }
  }

  /** The trial-division loop: splits the odd rest m by 3, 5, 7, ... and stores the factors from nf on. */
  method TrialDivide(n0: int, factors: array<int>, nf0: nat, m: int) returns (nf: nat, ghost last: int)
    requires Fits32(n0) && n0 < Pow(3, factors.Length)
    requires nf0 <= factors.Length && 1 <= m <= n0 && Trial(n0, factors[..nf0], m, 3)
    modifies factors
    ensures nf0 <= nf <= factors.Length && factors[nf..] == old(factors[nf..])
    ensures Trial(n0, factors[..nf], 1, last)
  {
    hide Trial, Fits32, Reached, Product, Pow;
    nf := nf0;
    var n, f := m, 3;
    ghost var fs := factors[..nf];
    ghost var c, q := m, Product(fs);
    ReachedStart(n0, fs, m, 3);
    while n > 1
      invariant nf0 <= nf <= factors.Length && fs == factors[..nf]
      invariant Trial(n0, fs, n, f) && Reached(n0, q, c, n, f) && n >= 1 && f >= 3
      invariant forall k :: nf <= k < factors.Length ==> factors[k] == old(factors[k])
      decreases n, n - f
    {
      var d := n / f;
      TrialRoom(n0, fs, n, f, factors.Length);
      if d * f == n {
        TrialHit(n0, fs, n, f, d);
        ReachedHit(n0, q, c, n, f, d);
        factors[nf] := f;
        fs := fs + [f];
        nf := nf + 1;
        n := d;
      } else {
        TrialMiss(n0, fs, n, f, d);
        TrialFacts(n0, fs, n, f + 2);
        SquareFits(n0, q, c, n, f);
        f := f + 2;
        if f * f > n {
          break;
        }
        ReachedStart(n0, fs, n, f);
        c, q := n, Product(fs);
      }
    }
    last := f;
    if n > 1 {
      TrialRoom(n0, fs, n, f, factors.Length);
      NoSmallDivisorPrime(n, f);
      TrialLast(n0, fs, n, f);
      factors[nf] := n;
      fs := fs + [n];
      nf := nf + 1;
      last := n;
    }
    assert factors[..nf] == fs;
  }

  /** The swap loop: reverses the factors from f up to nf. */
  method ReverseFrom(factors: array<int>, f: nat, nf: nat)
    requires f <= nf <= factors.Length
    modifies factors
    ensures factors[..][..nf] == old(factors[..])[..f] + Backwards(old(factors[..])[f..nf])
    ensures factors[..][nf..] == old(factors[..])[nf..]
  {
    ghost var was := factors[..];
    for i := f to (nf + f) / 2
      invariant i <= nf - i + f
      invariant forall k :: f <= k < i || nf - i + f <= k < nf ==> factors[k] == was[nf - k - 1 + f]
      invariant forall k :: 0 <= k < f || i <= k < nf - i + f || nf <= k < factors.Length ==> factors[k] == was[k]
    {
      factors[i], factors[nf - i - 1 + f] := factors[nf - i - 1 + f], factors[i];
    }
    ReversedTail(was, factors[..], f, nf);
  }

  lemma ReversedTail(was: seq<int>, now: seq<int>, f: nat, nf: nat)
    requires f <= nf <= |was| == |now|
    requires forall k :: f <= k < nf ==> now[k] == was[nf - k - 1 + f]
    requires forall k :: 0 <= k < f || nf <= k < |was| ==> now[k] == was[k]
    ensures now[..nf] == was[..f] + Backwards(was[f..nf])
    ensures now[nf..] == was[nf..]
  {
    assert now[f..nf] == Backwards(was[f..nf]);
    assert now[..nf] == now[..f] + now[f..nf];
  }

  lemma QuotientBound(n: int, f: int)
    requires n >= 0 && f >= 1
    ensures n / f <= n
  {
    if n / f < 0 {
    } else {
      MulMono(1, f, n / f);
    }
  }

  lemma OddTwoPart(n: int)
    requires n > 0
    ensures n % 2 == 1 ==> TwoPart(n) == 1
    ensures n % 2 == 0 ==> TwoPart(n) > 1
  {
  }

  /** The bit trick finds the power of two, and what is left starts the trial division. */
  lemma TwoPartSplits(n: int, f: int)
    requires n > 5 && f == (BitXor(n - 1, n) + 1) / 2
    ensures f > 1 ==> n / f >= 1 && n / f <= n && (f == n ==> n / f == 1) && Trial(n, [f], n / f, 3)
    ensures f <= 1 ==> Trial(n, [], n, 3)
  {
    hide Trial, BitXor, TwoPart, PowerOfTwo;
    XorWithPredecessor(n);
    TwoPartDivides(n);
    QuotientBound(n, f);
    OddTwoPart(n);
    if n % 2 == 0 {
      TrialStartEven(n);
      if f == n {
        DivModUnique(n, f, 1, 0);
      }
    } else {
      TrialStart(n);
    }
  }

  /** Splits n. A length up to five is its own single factor. The capacity is what three-fold growth asks for. */
  method DFTFactorize(n0: int, factors: array<int>) returns (nf: nat)
    requires Fits32(n0)
    requires factors.Length >= 1 && (n0 > 5 ==> n0 < Pow(3, factors.Length))
    modifies factors
    ensures 1 <= nf <= factors.Length
    ensures n0 <= 5 ==> nf == 1 && factors[0] == n0
    ensures n0 > 5 ==> FactorList(n0, factors[..nf])
    ensures factors[nf..] == old(factors[nf..])
  {
    hide Trial, FactorList, Product, Pow, BitXor, TwoPart, PowerOfTwo, Backwards;
    nf := 0;
    if n0 <= 5 {
      factors[0] := n0;
      return 1;
    }
    var n := n0;
    var f := (BitXor(n - 1, n) + 1) / 2;
    TwoPartSplits(n, f);
    if f > 1 {
      factors[0] := f;
      nf := 1;
      n := if f == n then 1 else n / f;
    }
    assert factors[..nf] == if f > 1 then [f] else [];
    ghost var last;
    nf, last := TrialDivide(n0, factors, nf, n);
    ghost var split := factors[..nf];
    f := if factors[0] % 2 == 0 then 1 else 0;
    FirstParity(n0, split, last);
    ReverseFrom(factors, f, nf);
    TrialDone(n0, split, last, factors[..nf]);
  }
}
