/** DFTInit: the index table, forward or inverse, and the twiddle table of one transform length. */
module DftInit {
  import Nonlinear
  import opened MixedRadix
  import opened DftFactorize
  import opened DigitCounter
  import opened DftIndexTable
  import opened BitReversal
  import Tw = Twiddles

  /** The forward table. */
  ghost predicate ForwardTable(tab: seq<int>, n0: int, fs: seq<int>)
    requires Plan(n0, fs)
  {
    n0 <= |tab| && forall i :: 0 <= i < n0 ==> tab[i] == Entry(n0, fs, i)
  }

  /** The inverse table: it sends every forward entry back to its index. */
  ghost predicate InverseTable(tab: seq<int>, n0: int, fs: seq<int>)
    requires Plan(n0, fs)
  {
    n0 <= |tab| && forall i :: 0 <= i < n0 ==> tab[Entry(n0, fs, i)] == i
  }

  lemma FilledIsForward(tab: seq<int>, n0: int, fs: seq<int>)
    requires Plan(n0, fs) && Positive(Expand(fs)) && Filled(tab, Expand(fs), n0)
    ensures ForwardTable(tab, n0, fs)
  {
  }

  /** A forward table left in place of the inverse is the inverse when the end factors agree. */
  lemma ForwardIsInverse(tab: seq<int>, n0: int, fs: seq<int>)
    requires Plan(n0, fs) && |fs| >= 1 && fs[0] == fs[|fs| - 1] && ForwardTable(tab, n0, fs)
    ensures InverseTable(tab, n0, fs)
  {
    forall i | 0 <= i < n0
      ensures tab[Entry(n0, fs, i)] == i
    {
      EqualEndsInvolution(n0, fs, i);
    }
  }

  lemma SmallForward(tab: seq<int>, n0: int, fs: seq<int>)
    requires 1 <= n0 <= 5 && Plan(n0, fs) && n0 <= |tab|
    requires n0 != 4 ==> forall i :: 0 <= i < n0 ==> tab[i] == i
    requires n0 == 4 ==> tab[..4] == [0, 2, 1, 3]
    ensures ForwardTable(tab, n0, fs)
  {
    PlanExpands(n0, fs);
    forall i | 0 <= i < n0
      ensures tab[i] == Entry(n0, fs, i)
    {
      if n0 == 4 {
        assert tab[i] == tab[..4][i];
        FourReversed(fs, i);
      } else {
        SingleReversed(n0, fs, i);
      }
    }
  }

  lemma FourReversed(fs: seq<int>, i: nat)
    requires fs == [4] && i < 4
    ensures Positive(Expand(fs)) && Reversal(Expand(fs), i) == 2 * (i % 2) + i / 2
  {
    SmallPowers();
    Log2OfPower(2);
    assert Twos(2) + fs[1..] == Twos(2);
    PairReversal(i);
  }

  lemma SingleReversed(n0: int, fs: seq<int>, i: nat)
    requires fs == [n0] && n0 in {1, 2, 3, 5} && i < n0
    ensures Positive(Expand(fs)) && Reversal(Expand(fs), i) == i
  {
    SmallPowers();
    Log2OfPower(1);
    assert Twos(1) == [2];
    assert Twos(1) + fs[1..] == Twos(1);
    ReversalOne(n0, i);
  }

  /** The suffix products of the factors. */
  method FillWeights(nf: nat, factors: array<int>, radix: array<int>, digits: array<int>, ghost fs: seq<int>)
    requires radix != factors && digits != factors && radix != digits
    requires 1 <= nf <= factors.Length && nf < radix.Length && nf < digits.Length
    requires fs == factors[0..nf] && Positive(fs)
    modifies radix, digits
    ensures Weights(radix, fs, 0)
    ensures forall t :: 0 <= t <= nf ==> digits[t] == 0
  {
    hide Product, Positive;
    radix[nf] := 1;
    digits[nf] := 0;
    EmptyProduct(fs);
    for i := 0 to nf
      invariant forall t :: nf - i <= t <= nf ==> radix[t] == Product(fs[t..])
      invariant forall t :: 0 <= t < i || t == nf ==> digits[t] == 0
    {
      digits[i] := 0;
      SuffixProduct(fs, nf - i - 1);
      radix[nf - i - 1] := radix[nf - i] * factors[nf - i - 1];
    }
  }

  lemma EmptyProduct(fs: seq<int>)
    ensures Product(fs[|fs|..]) == 1
  {
  }

  lemma SuffixProduct(fs: seq<int>, t: nat)
    requires t < |fs|
    ensures Product(fs[t..]) == Product(fs[t + 1..]) * fs[t]
  {
    assert fs[t..][1..] == fs[t + 1..];
  }

  lemma CleanCounter(digits: array<int>, fs: seq<int>, start: nat)
    requires Positive(fs) && start + |fs| < digits.Length
    requires forall t :: 0 <= t <= start + |fs| ==> digits[t] == 0
    ensures Counts(digits, fs, start, 0)
  {
    DigitsZero(fs);
  }

  lemma TailWeights(radix: array<int>, fs: seq<int>)
    requires fs != [] && Weights(radix, fs, 0)
    ensures Weights(radix, fs[1..], 1)
  {
    forall t | 0 <= t <= |fs| - 1
      ensures radix[1 + t] == Product(fs[1..][t..])
    {
      assert fs[1..][t..] == fs[t + 1..];
      assert radix[0 + (t + 1)] == Product(fs[t + 1..]);
    }
  }

  /** The forward table of a length above five. */
  method FillForward(n0: int, nf: nat, factors: array<int>, itab: array<int>, ghost fs: seq<int>)
    requires itab != factors && 5 < n0 < 0x8000_0000 && n0 <= itab.Length
    requires 1 <= nf < 34 && nf <= factors.Length && fs == factors[0..nf] && Plan(n0, fs)
    modifies itab
    ensures ForwardTable(itab[..], n0, fs)
  {
    hide Product, Reversal, Filled, Scaled, Entry, ForwardTable, Plan, Expand, Twos, Pow, Digits;
    PlanExpands(n0, fs);
    PlanPositive(n0, fs);
    var digits, radix := new int[34], new int[34];
    FillWeights(nf, factors, radix, digits, fs);
    var n := factors[0];
    if n % 2 == 0 {
      FillEven(n0, n, nf, factors, radix, digits, itab, fs);
    } else {
      CleanCounter(digits, fs, 0);
      OddExpand(n0, fs);
      FillByCounting(n0, nf, factors, radix, digits, itab, fs);
    }
    FilledIsForward(itab[..], n0, fs);
  }

  lemma OddExpand(n0: int, fs: seq<int>)
    requires Plan(n0, fs) && |fs| >= 1 && fs[0] % 2 == 1
    ensures Expand(fs) == fs
  {
  }

  lemma PlanParity(n0: int, fs: seq<int>)
    requires Plan(n0, fs) && |fs| >= 1 && fs[0] % 2 == 0
    ensures n0 % 2 == 0
  {
    if n0 % 2 == 1 {
      OddPlan(n0, fs);
    }
  }

  method FillEven(n0: int, n: int, nf: nat, factors: array<int>, radix: array<int>, digits: array<int>,
                  itab: array<int>, ghost fs: seq<int>)
    requires digits != factors && digits != radix && itab != factors && itab != radix && itab != digits
    requires 5 < n0 < 0x8000_0000 && n0 <= itab.Length
    requires 1 <= nf <= factors.Length && nf < digits.Length && fs == factors[0..nf] && Plan(n0, fs)
    requires n == fs[0] && n % 2 == 0 && Positive(fs) && Product(fs) == n0 && Positive(Expand(fs))
    requires Weights(radix, fs, 0) && forall t :: 0 <= t <= nf ==> digits[t] == 0
    modifies digits, itab
    ensures Filled(itab[..], Expand(fs), n0)
  {
    hide Product, Reversal, Filled, Scaled, Entry, Plan, Expand, Twos, Pow, Digits;
    PlanParity(n0, fs);
    ghost var m := EvenPlan(n0, fs);
    ghost var gs := fs[1..];
    EvenSizes(n0, fs, m);
    TailWeights(radix, fs);
    assert radix[1 + 0] == Product(gs[0..]);
    assert gs[0..] == gs;
    var a := radix[1];
    var m' := FillBits(n, a, itab);
    SameExponent(m, m');
    CleanCounter(digits, gs, 1);
    digits[1] := digits[1] + 1;
    if nf >= 2 {
      CountOne(gs);
      assert Counts(digits, gs, 1, 1);
      assert factors[1..nf] == gs;
      FillBlocks(n0, n, nf, factors, radix, digits, itab, m, gs);
    } else {
      FirstBlock(itab[..], m, gs);
    }
  }

  lemma SameExponent(a: nat, b: nat)
    requires Pow(2, a) == Pow(2, b)
    ensures a == b
  {
    Log2OfPower(a);
    Log2OfPower(b);
  }

  lemma EvenSizes(n0: int, fs: seq<int>, m: nat)
    requires Positive(fs) && |fs| >= 1 && Product(fs) == n0 && fs[0] == Pow(2, m) && n0 >= 1 && fs[0] % 2 == 0
    ensures 2 <= fs[0] <= n0 && n0 == Product(fs[1..]) * fs[0] && PowerOfTwo(fs[0])
    ensures |fs| == 1 ==> n0 == fs[0] && Product(fs[1..]) == 1
  {
    ProductPositive(fs[1..]);
    Nonlinear.MulMono(1, Product(fs[1..]), fs[0]);
  }

  /** DFTInit. The inverse is asked for by inv; scratch is the buffer of the twiddles seen as integers, which holds
      the forward table while the inverse is written; w1 is the first twiddle. */
  method DFTInit(n0: int, nf: nat, factors: array<int>, itab: array<int>, wave: array<real>, scratch: array<int>,
                 inv: bool, w1: Tw.Complex)
    requires itab != factors && scratch != factors && scratch != itab
    requires 1 <= n0 <= 0x4000_0000 && 1 <= nf < 34 && nf <= factors.Length && Plan(n0, factors[0..nf])
    requires n0 <= itab.Length && n0 <= scratch.Length && 2 * n0 <= wave.Length
    modifies itab, scratch, wave
    ensures factors[0..nf] == old(factors[0..nf])
    ensures !inv ==> ForwardTable(itab[..], n0, factors[0..nf])
    ensures inv ==> InverseTable(itab[..], n0, factors[0..nf])
    ensures n0 <= 3 ==> wave[..] == old(wave[..])
    ensures n0 == 5 ==> wave[..] == old(wave[..])[0 := 1.0][1 := 0.0]
    ensures n0 == 4 || n0 > 5 ==> Tw.Mirrored(wave[..], n0, w1)
  {
    hide Plan, Entry, ForwardTable, InverseTable, Filled, Tw.Mirrored;
    ghost var fs := factors[0..nf];
    PlanPositive(n0, fs);
    if n0 <= 5 {
      itab[0] := 0;
      itab[n0 - 1] := n0 - 1;
      if n0 != 4 {
        var i := 1;
        while i < n0 - 1
          invariant 1 <= i <= n0 && itab[0] == 0 && itab[n0 - 1] == n0 - 1
          invariant forall t :: 1 <= t < i && t < n0 ==> itab[t] == t
          invariant wave[..] == old(wave[..])
        {
          itab[i] := i;
          i := i + 1;
        }
      } else {
        itab[1] := 2;
        itab[2] := 1;
      }
      SmallTables(itab[..], n0, fs);
      if n0 == 5 {
        wave[0] := 1.0;
        wave[1] := 0.0;
      }
      if n0 != 4 {
        return;
      }
    } else {
      var apart := inv && factors[0] != factors[nf - 1];
      FillForward(n0, nf, factors, if apart then scratch else itab, fs);
      if apart {
        InvertTable(n0, itab, scratch, fs);
      } else if inv {
        ForwardIsInverse(itab[..], n0, fs);
      }
    }
    Tw.FillWave(n0, w1, wave);
  }

  lemma SmallTables(tab: seq<int>, n0: int, fs: seq<int>)
    requires 1 <= n0 <= 5 && Plan(n0, fs) && n0 <= |tab|
    requires n0 != 4 ==> forall i :: 0 <= i < n0 ==> tab[i] == i
    requires n0 == 4 ==> tab[0] == 0 && tab[1] == 2 && tab[2] == 1 && tab[3] == 3
    ensures ForwardTable(tab, n0, fs) && InverseTable(tab, n0, fs)
  {
    if n0 == 4 {
      assert tab[..4] == [0, 2, 1, 3];
    }
    SmallForward(tab, n0, fs);
    ForwardIsInverse(tab, n0, fs);
  }

  /** The inverse, written from the forward table in scratch. */
  method InvertTable(n0: int, itab: array<int>, scratch: array<int>, ghost fs: seq<int>)
    requires scratch != itab && 1 <= n0 <= itab.Length && n0 <= scratch.Length
    requires Plan(n0, fs) && ForwardTable(scratch[..], n0, fs)
    modifies itab
    ensures InverseTable(itab[..], n0, fs)
  {
    PlanExpands(n0, fs);
    Invert(n0, itab, scratch, Expand(fs));
  }

  /** The set-up of one transform direction: the factors, then the tables for them. */
  method SetUp(n0: int, factors: array<int>, itab: array<int>, wave: array<real>, scratch: array<int>, inv: bool,
               w1: Tw.Complex)
    returns (nf: nat)
    requires itab != factors && scratch != factors && scratch != itab
    requires 1 <= n0 < 0x4000_0000
    requires 1 <= factors.Length < 34 && (n0 > 5 ==> n0 < Pow(3, factors.Length))
    requires n0 <= itab.Length && n0 <= scratch.Length && 2 * n0 <= wave.Length
    modifies factors, itab, scratch, wave
    ensures 1 <= nf <= factors.Length && Plan(n0, factors[0..nf])
    ensures !inv ==> ForwardTable(itab[..], n0, factors[0..nf])
    ensures inv ==> InverseTable(itab[..], n0, factors[0..nf])
    ensures (n0 == 4 || n0 > 5) && Tw.OnUnitCircle(w1) ==> (Tw.Exact(wave[..], n0, w1) <==> Tw.Root(w1, n0))
  {
    hide FactorList, ForwardTable, InverseTable, Tw.Mirrored, Tw.Exact, Tw.Root, Pow;
    nf := DFTFactorize(n0, factors);
    assert factors[0..nf] == factors[..nf];
    assert n0 <= 5 ==> factors[0..nf] == [n0];
    DFTInit(n0, nf, factors, itab, wave, scratch, inv, w1);
    if (n0 == 4 || n0 > 5) && Tw.OnUnitCircle(w1) {
      Tw.MirroredExact(wave[..], n0, w1);
    }
  }
}
