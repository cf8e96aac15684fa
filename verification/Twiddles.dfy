/** The twiddle table of a transform: powers of a root of unity, the upper half filled by conjugation. */
module Twiddles {

  datatype Complex = Complex(re: real, im: real)

  const ONE := Complex(1.0, 0.0)
  const MINUS_ONE := Complex(-1.0, 0.0)

  function Mul(a: Complex, b: Complex): Complex {
    Complex(a.re * b.re - a.im * b.im, a.re * b.im + a.im * b.re)
  }

  function Conj(a: Complex): Complex {
    Complex(a.re, -a.im)
  }

  function Power(w: Complex, k: nat): Complex {
    if k == 0 then ONE else Mul(Power(w, k - 1), w)
  }

  predicate OnUnitCircle(w: Complex) {
    w.re * w.re + w.im * w.im == 1.0
  }

  lemma MulAssoc(a: Complex, b: Complex, c: Complex)
    ensures Mul(Mul(a, b), c) == Mul(a, Mul(b, c))
  {
    assert (a.re * b.re - a.im * b.im) * c.re == a.re * (b.re * c.re) - a.im * (b.im * c.re);
    assert (a.re * b.im + a.im * b.re) * c.im == a.re * (b.im * c.im) + a.im * (b.re * c.im);
    assert (a.re * b.re - a.im * b.im) * c.im == a.re * (b.re * c.im) - a.im * (b.im * c.im);
    assert (a.re * b.im + a.im * b.re) * c.re == a.re * (b.im * c.re) + a.im * (b.re * c.re);
  }

  lemma ConjMul(a: Complex, b: Complex)
    ensures Conj(Mul(a, b)) == Mul(Conj(a), Conj(b))
  {
  }

  /** On the unit circle the conjugate is the inverse. */
  lemma ConjInverse(a: Complex)
    requires OnUnitCircle(a)
    ensures Mul(a, Conj(a)) == ONE && Mul(Conj(a), a) == ONE
  {
  }

  lemma {:induction false} PowerOnCircle(w: Complex, k: nat)
    requires OnUnitCircle(w)
    ensures OnUnitCircle(Power(w, k))
  {
    if k > 0 {
      PowerOnCircle(w, k - 1);
      var p := Power(w, k - 1);
      NormMul(p, w);
    }
  }

  lemma NormMul(a: Complex, b: Complex)
    requires OnUnitCircle(a) && OnUnitCircle(b)
    ensures OnUnitCircle(Mul(a, b))
  {
    var c := Mul(a, b);
    // (ab)(ab)* = (a a*)(b b*)
    ConjMul(a, b);
    MulAssoc(a, b, Mul(Conj(a), Conj(b)));
    MulComm(Conj(a), Conj(b));
    MulAssoc(b, Conj(b), Conj(a));
    ConjInverse(a);
    ConjInverse(b);
    assert Mul(ONE, Conj(a)) == Conj(a);
    assert Mul(c, Conj(c)) == ONE;
  }

  lemma MulComm(a: Complex, b: Complex)
    ensures Mul(a, b) == Mul(b, a)
  {
  }

  lemma {:induction false} PowerAdd(w: Complex, a: nat, b: nat)
    ensures Power(w, a + b) == Mul(Power(w, a), Power(w, b))
  {
    if b == 0 {
      assert Mul(Power(w, a), ONE) == Power(w, a);
    } else {
      PowerAdd(w, a, b - 1);
      MulAssoc(Power(w, a), Power(w, b - 1), w);
    }
  }

  /** A factor on the unit circle can be cancelled. */
  lemma Cancel(a: Complex, x: Complex, y: Complex)
    requires OnUnitCircle(a) && Mul(a, x) == Mul(a, y)
    ensures x == y
  {
    MulAssoc(Conj(a), a, x);
    MulAssoc(Conj(a), a, y);
    ConjInverse(a);
    assert Mul(ONE, x) == x && Mul(ONE, y) == y;
  }

  // ---- the table ----

  /** Entry i of a table of interleaved real and imaginary parts. */
  function Entry(tab: seq<real>, i: nat): Complex
    requires 2 * i + 1 < |tab|
  {
    Complex(tab[2 * i], tab[2 * i + 1])
  }

  /** What the recurrence leaves: powers of w below the middle, their conjugates above it, -1 in the middle. */
  ghost predicate Mirrored(tab: seq<real>, n0: nat, w: Complex) {
    && 1 <= n0 && 2 * n0 <= |tab|
    && (forall i :: 0 <= i < (n0 + 1) / 2 ==> Entry(tab, i) == Power(w, i))
    && (forall i :: 1 <= i < (n0 + 1) / 2 ==> Entry(tab, n0 - i) == Conj(Power(w, i)))
    && (n0 % 2 == 0 ==> Entry(tab, n0 / 2) == MINUS_ONE)
  }

  /** Every entry is the power of w that its index names. */
  ghost predicate Exact(tab: seq<real>, n0: nat, w: Complex) {
    2 * n0 <= |tab| && forall i :: 0 <= i < n0 ==> Entry(tab, i) == Power(w, i)
  }

  /** The condition on the first twiddle that a caller can check: it is a root of unity, and for an even length
      half-way round is -1. */
  predicate Root(w: Complex, n0: nat) {
    if n0 % 2 == 0 then Power(w, n0 / 2) == MINUS_ONE else Power(w, n0) == ONE
  }

  lemma RootPower(w: Complex, n0: nat)
    requires Root(w, n0)
    ensures Power(w, n0) == ONE
  {
    if n0 % 2 == 0 {
      PowerAdd(w, n0 / 2, n0 / 2);
    }
  }

  lemma MirrorsPower(w: Complex, n0: nat, i: nat)
    requires OnUnitCircle(w) && i <= n0
    ensures Conj(Power(w, i)) == Power(w, n0 - i) <==> Power(w, n0) == ONE
  {
    var p := Power(w, i);
    PowerOnCircle(w, i);
    PowerAdd(w, i, n0 - i);
    ConjInverse(p);
    if Power(w, n0) == ONE {
      Cancel(p, Conj(p), Power(w, n0 - i));
    }
  }

  /** The mirrored table is exact if and only if w is such a root. */
  lemma MirroredExact(tab: seq<real>, n0: nat, w: Complex)
    requires n0 >= 3 && OnUnitCircle(w) && Mirrored(tab, n0, w)
    ensures Exact(tab, n0, w) <==> Root(w, n0)
  {
    if Root(w, n0) {
      RootPower(w, n0);
      forall i | 0 <= i < n0
        ensures Entry(tab, i) == Power(w, i)
      {
        if i > n0 / 2 {
          MirrorsPower(w, n0, n0 - i);
          assert Entry(tab, n0 - (n0 - i)) == Conj(Power(w, n0 - i));
        }
      }
    }
    if Exact(tab, n0, w) {
      MirrorsPower(w, n0, 1);
      assert Entry(tab, n0 - 1) == Conj(Power(w, 1));
      assert Entry(tab, n0 - 1) == Power(w, n0 - 1);
    }
  }

  /** The highest index that round i of the recurrence computes. */
  function HighestIndex(n0: int, i: int): int {
    2 * (n0 - i) + 1
  }

  /** The indices of all rounds fit in 32 bits exactly for lengths up to 2^30. */
  lemma IndicesFitIff(n0: int)
    requires n0 >= 3
    ensures (forall i :: 1 <= i < (n0 + 1) / 2 ==> HighestIndex(n0, i) < 0x8000_0000) <==> n0 <= 0x4000_0000
  {
    assert HighestIndex(n0, 1) == 2 * n0 - 1;
  }

  /** The table after the first i rounds of the recurrence. */
  ghost predicate Rounds(tab: seq<real>, n0: nat, w: Complex, i: nat) {
    && 2 * n0 <= |tab| && 1 <= i <= (n0 + 1) / 2
    && (forall k :: 0 <= k < i ==> Entry(tab, k) == Power(w, k))
    && (forall k :: 1 <= k < i ==> Entry(tab, n0 - k) == Conj(Power(w, k)))
    && (n0 % 2 == 0 ==> Entry(tab, n0 / 2) == MINUS_ONE)
  }

  lemma NextRound(tab: seq<real>, n0: nat, w1: Complex, i: nat, w: Complex)
    requires Rounds(tab, n0, w1, i) && i < (n0 + 1) / 2 && w == Power(w1, i)
    ensures Rounds(tab[2 * i := w.re][2 * i + 1 := w.im][2 * (n0 - i) := w.re][2 * (n0 - i) + 1 := -w.im], n0, w1,
            i + 1)
  {
    hide Power;
    var now := tab[2 * i := w.re][2 * i + 1 := w.im][2 * (n0 - i) := w.re][2 * (n0 - i) + 1 := -w.im];
    assert forall k :: 0 <= k < n0 && k != i && k != n0 - i ==> Entry(now, k) == Entry(tab, k);
  }

  /** One round's four stores: entry i and, conjugated, its mirror image. */
  method StoreRound(n0: nat, ghost w1: Complex, wave: array<real>, i: nat, w: Complex)
    requires 2 * n0 <= wave.Length && 1 <= i < (n0 + 1) / 2 && w == Power(w1, i) && Rounds(wave[..], n0, w1, i)
    modifies wave
    ensures Rounds(wave[..], n0, w1, i + 1)
    ensures forall t :: 2 * n0 <= t < wave.Length ==> wave[t] == old(wave[t])
  {
    hide *;
    NextRound(wave[..], n0, w1, i, w);
    wave[2 * i] := w.re;
    wave[2 * i + 1] := w.im;
    wave[2 * (n0 - i)] := w.re;
    wave[2 * (n0 - i) + 1] := -w.im;
  }

  /** The recurrence: the next power of the first twiddle. */
  method NextTwiddle(w: Complex, w1: Complex, ghost i: nat) returns (v: Complex)
    requires w == Power(w1, i)
    ensures v == Power(w1, i + 1)
  {
    PowerNext(w1, i);
    hide *;
    var t := w.re * w1.re - w.im * w1.im;
    v := Complex(t, w.re * w1.im + w.im * w1.re);
  }

  /** The table of all twiddles. w1 is the first twiddle, from the table DFTTab or from a sine. */
  method FillWave(n0: nat, w1: Complex, wave: array<real>)
    requires n0 >= 3 && 2 * n0 <= wave.Length
    modifies wave
    ensures Mirrored(wave[..], n0, w1)
    ensures forall t :: 2 * n0 <= t < wave.Length ==> wave[t] == old(wave[t])
  {
    hide *;
    var w := w1;
    var n := (n0 + 1) / 2;
    wave[0] := 1.0;
    wave[1] := 0.0;
    if n0 % 2 == 0 {
      wave[2 * n] := -1.0;
      wave[2 * n + 1] := 0.0;
    }
    FirstRound(wave[..], n0, w1);
    for i := 1 to n
      invariant w == Power(w1, i)
      invariant Rounds(wave[..], n0, w1, i)
      invariant forall t :: 2 * n0 <= t < wave.Length ==> wave[t] == old(wave[t])
    {
      StoreRound(n0, w1, wave, i, w);
      w := NextTwiddle(w, w1, i);
    }
    LastRound(wave[..], n0, w1);
  }

  lemma PowerNext(w: Complex, k: nat)
    ensures var p := Power(w, k);
            Power(w, k + 1) == Complex(p.re * w.re - p.im * w.im, p.re * w.im + p.im * w.re)
  {
  }

  lemma FirstRound(tab: seq<real>, n0: nat, w: Complex)
    requires n0 >= 1 && 2 * n0 <= |tab| && tab[0] == 1.0 && tab[1] == 0.0
    requires n0 % 2 == 0 ==> tab[2 * (n0 / 2)] == -1.0 && tab[2 * (n0 / 2) + 1] == 0.0
    ensures Rounds(tab, n0, w, 1) && Power(w, 1) == w
  {
    assert Mul(ONE, w) == w;
  }

  lemma LastRound(tab: seq<real>, n0: nat, w: Complex)
    requires n0 >= 1 && Rounds(tab, n0, w, (n0 + 1) / 2)
    ensures Mirrored(tab, n0, w)
  {
  }
}
