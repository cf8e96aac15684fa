/** Nearest-neighbour resampling: the general kernel and the two fast paths for enlarging twice and four times.
    mem is the input as memory: the plane starts at ib, and every address reads as something. */
module ResampleNearest {
  import opened Canvas

  type Memory = int -> real

  /** round: to the nearest integer, halves away from zero. */
  function Round(x: real): int {
    if x >= 0.0 then (x + 0.5).Floor else -((-x + 0.5).Floor)
  }

  /** The source coordinate of output coordinate o. The kernel adds half of the scale of the other axis. */
  function Source(o: nat, f: real, other: real): real {
    (o as real) * f + other / 2.0 - 0.5
  }

  /** Round gives the nearest integer, and of two the one farther from zero. */
  lemma RoundNearest(x: real)
    ensures -0.5 <= x - Round(x) as real <= 0.5
    ensures x - Round(x) as real == 0.5 ==> x < 0.0
    ensures x - Round(x) as real == -0.5 ==> x > 0.0
  {
  }

  /** The value that the kernel gives to pixel (x, y). */
  function Nearest(mem: Memory, ib: int, iw: nat, fx: real, fy: real): Picture {
    (x: nat, y: nat) => mem(ib + Round(Source(y, fy, fx)) * iw + Round(Source(x, fx, fy)))
  }

  method NearestNeighborKernel(mem: Memory, ib: int, iw: nat, fx: real, fy: real, out: array<real>, ob: nat, ow: nat,
          oh: nat)
    returns (ghost times: seq<nat>)
    requires oh * ow >= 0 && ob + oh * ow <= out.Length
    modifies out
    ensures Complete(out[..], ob, ow, oh, Nearest(mem, ib, iw, fx, fy))
    ensures Once(times, ob, ow, oh)
    ensures Framed(out[..], old(out[..]), ob, ow, oh)
  {
    hide Painted, Framed, Complete, Once, Unwritten, Source, Round;
    ghost var pic := Nearest(mem, ib, iw, fx, fy);
    times := Unwritten(out.Length);
    Blank(out[..], ob, ow, oh, pic, 1, 1);
    FramedSame(out[..], ob, ow, oh);
    for oy := 0 to oh
      invariant Painted(out[..], times, ob, ow, oh, pic, 1, oy, 0, 1, 0) && Framed(out[..], old(out[..]), ob, ow, oh)
    {
      for ox := 0 to ow
        invariant Painted(out[..], times, ob, ow, oh, pic, 1, oy, ox, 1, 0) && Framed(out[..], old(out[..]), ob, ow, oh)
      {
        var ixr := Round(Source(ox, fx, fy));
        var iyr := Round(Source(oy, fy, fx));
        assert pic(ox, oy) == mem(ib + iyr * iw + ixr);
        ghost var was := out[..];
        times := Store(out, [mem(ib + iyr * iw + ixr)], times, ob, ow, oh, pic, 1, oy, ox, 0, oy);
        FramedTrans(old(out[..]), was, out[..], ob, ow, oh);
        NextBlock(out[..], times, ob, ow, oh, pic, 1, oy, ox, 1, 1);
      }
      NextBand(out[..], times, ob, ow, oh, pic, 1, oy, ow, 1, 1);
    }
    Finished(out[..], times, ob, ow, oh, pic, 1, oh, 1);
  }

  /** The kernel stays inside each row exactly when the scales are not too different: it adds half of the other
      axis's scale, so the last column of a plane scaled by fx is in range if and only if fy < 2 * fx. */
  lemma KernelStaysInRow(iw: nat, ow: nat, fx: real, fy: real)
    requires ow >= 1 && fx > 0.0 && fy > 0.0 && (ow as real) * fx == iw as real
    ensures (forall x: nat :: x < ow ==> 0 <= Round(Source(x, fx, fy)) < iw) <==> fy < 2.0 * fx
  {
    var last := ow - 1;
    assert (last as real) * fx == (iw as real) - fx;
    var s := Source(last, fx, fy);
    assert s == (iw as real) - 0.5 - (fx - fy / 2.0);
    if fy < 2.0 * fx {
      forall x: nat | x < ow
        ensures 0 <= Round(Source(x, fx, fy)) < iw
      {
        ColumnInside(iw, last, fx, fy, x);
      }
    } else {
      assert Round(s) >= iw;
    }
  }

  lemma ColumnInside(iw: nat, last: nat, fx: real, fy: real, x: nat)
    requires fx > 0.0 && fy > 0.0 && fy < 2.0 * fx && x <= last && (last as real) * fx == (iw as real) - fx
    ensures 0 <= Round(Source(x, fx, fy)) < iw
  {
    ProductMono(x, last, fx);
    assert Source(x, fx, fy) == (x as real) * fx - 0.5 + fy / 2.0;
    hide *;
    RoundBelow(Source(x, fx, fy), iw);
  }

  lemma ProductMono(a: nat, b: nat, f: real)
    requires a <= b && f > 0.0
    ensures 0.0 <= (a as real) * f <= (b as real) * f
  {
    assert ((b - a) as real) * f >= 0.0;
    assert (b as real) * f == (a as real) * f + ((b - a) as real) * f;
  }

  lemma RoundBelow(x: real, n: nat)
    requires -0.5 < x < (n as real) - 0.5
    ensures 0 <= Round(x) < n
  {
  }

  // ---- enlarging by a whole factor ----

  /** At scale 1/2 and 1/4 the rounded source coordinate is the quotient. */
  lemma HalfSource(o: nat)
    ensures Round(Source(o, 0.5, 0.5)) == o / 2
  {
    assert o == o / 2 * 2 + o % 2;
  }

  lemma QuarterSource(o: nat)
    ensures Round(Source(o, 0.25, 0.25)) == o / 4
  {
    assert o == o / 4 * 4 + o % 4;
  }

  /** Twice enlarged: each input pixel is written to its four output pixels. */
  method Upsample2xNearest(mem: Memory, ib: int, iw: nat, ih: nat, out: array<real>, ob: nat)
    returns (ghost times: seq<nat>)
    requires 2 * ih * (2 * iw) >= 0 && ob + 2 * ih * (2 * iw) <= out.Length
    modifies out
    ensures Complete(out[..], ob, 2 * iw, 2 * ih, Nearest(mem, ib, iw, 0.5, 0.5))
    ensures Once(times, ob, 2 * iw, 2 * ih)
    ensures Framed(out[..], old(out[..]), ob, 2 * iw, 2 * ih)
  {
    hide Painted, Framed, Complete, Once, Unwritten, Nearest;
    var ow, oh := 2 * iw, 2 * ih;
    ghost var pic := Nearest(mem, ib, iw, 0.5, 0.5);
    times := Unwritten(out.Length);
    Blank(out[..], ob, ow, oh, pic, 2, 2);
    FramedSame(out[..], ob, ow, oh);
    for iy := 0 to ih
      invariant Painted(out[..], times, ob, ow, oh, pic, 2, iy, 0, 2, 0) && Framed(out[..], old(out[..]), ob, ow, oh)
    {
      for ix := 0 to iw
        invariant Painted(out[..], times, ob, ow, oh, pic, 2, iy, 2 * ix, 2, 0)
                  && Framed(out[..], old(out[..]), ob, ow, oh)
      {
        var oy, ox := 2 * iy, 2 * ix;
        var value := mem(ib + iy * iw + ix);
        TwiceValue(mem, ib, iw, ix, iy);
        ghost var was := out[..];
        times := Store(out, [value, value], times, ob, ow, oh, pic, 2, iy, ox, 0, oy);
        FramedTrans(old(out[..]), was, out[..], ob, ow, oh);
        was := out[..];
        times := Store(out, [value, value], times, ob, ow, oh, pic, 2, iy, ox, 1, oy + 1);
        FramedTrans(old(out[..]), was, out[..], ob, ow, oh);
        NextBlock(out[..], times, ob, ow, oh, pic, 2, iy, ox, 2, 2);
      }
      NextBand(out[..], times, ob, ow, oh, pic, 2, iy, ow, 2, 2);
    }
    Finished(out[..], times, ob, ow, oh, pic, 2, ih, 2);
  }

  lemma TwiceValue(mem: Memory, ib: int, iw: nat, ix: nat, iy: nat)
    ensures forall x: nat, y: nat :: x / 2 == ix && y / 2 == iy ==>
                                       Nearest(mem, ib, iw, 0.5, 0.5)(x, y) == mem(ib + iy * iw + ix)
  {
    forall x: nat, y: nat | x / 2 == ix && y / 2 == iy
      ensures Nearest(mem, ib, iw, 0.5, 0.5)(x, y) == mem(ib + iy * iw + ix)
    {
      HalfSource(x);
      HalfSource(y);
    }
  }

  /** Four times enlarged: four output pixels of a row at a time share one source pixel. */
  method Upsample4xNearest(mem: Memory, ib: int, iw: nat, ih: nat, out: array<real>, ob: nat)
    returns (ghost times: seq<nat>)
    requires iw >= 1 && 4 * ih * (4 * iw) >= 0 && ob + 4 * ih * (4 * iw) <= out.Length
    modifies out
    ensures Complete(out[..], ob, 4 * iw, 4 * ih, Nearest(mem, ib, iw, 0.25, 0.25))
    ensures Once(times, ob, 4 * iw, 4 * ih)
    ensures Framed(out[..], old(out[..]), ob, 4 * iw, 4 * ih)
  {
    hide Painted, Framed, Complete, Once, Unwritten, Nearest, Source, Round;
    var ow, oh, fx, fy := 4 * iw, 4 * ih, 0.25, 0.25;
    ghost var pic := Nearest(mem, ib, iw, 0.25, 0.25);
    times := Unwritten(out.Length);
    Blank(out[..], ob, ow, oh, pic, 1, 4);
    FramedSame(out[..], ob, ow, oh);
    for oy := 0 to oh
      invariant Painted(out[..], times, ob, ow, oh, pic, 1, oy, 0, 4, 0) && Framed(out[..], old(out[..]), ob, ow, oh)
    {
      var ox := 0;
      while ox <= ow - 4
        invariant 0 <= ox <= ow && ox % 4 == 0
        invariant Painted(out[..], times, ob, ow, oh, pic, 1, oy, ox, 4, 0) && Framed(out[..], old(out[..]), ob, ow, oh)
      {
        var v := mem(ib + Round(Source(oy, fy, fx)) * iw + Round(Source(ox, fx, fy)));
        FourValue(mem, ib, iw, ox, oy);
        ghost var was := out[..];
        times := Store(out, [v, v, v, v], times, ob, ow, oh, pic, 1, oy, ox, 0, oy);
        FramedTrans(old(out[..]), was, out[..], ob, ow, oh);
        NextBlock(out[..], times, ob, ow, oh, pic, 1, oy, ox, 4, 4);
        ox := ox + 4;
      }
      NextBand(out[..], times, ob, ow, oh, pic, 1, oy, ox, 4, 4);
    }
    Finished(out[..], times, ob, ow, oh, pic, 1, oh, 4);
  }

  lemma FourValue(mem: Memory, ib: int, iw: nat, ox: nat, oy: nat)
    requires ox % 4 == 0
    ensures forall x: nat :: ox <= x < ox + 4 ==>
              Nearest(mem, ib, iw, 0.25, 0.25)(x, oy)
              == mem(ib + Round(Source(oy, 0.25, 0.25)) * iw + Round(Source(ox, 0.25, 0.25)))
  {
    forall x: nat | ox <= x < ox + 4
      ensures Round(Source(x, 0.25, 0.25)) == Round(Source(ox, 0.25, 0.25))
    {
      QuarterSource(x);
      QuarterSource(ox);
    }
  }
}
