/** The interpolation kernel of the resampling layer: a triangle filter over a window, normalised by the weights
    that fall inside the image; and what it comes to when an image is enlarged four times. */
module ResampleKernel {
  import opened Canvas
  import opened ResampleNearest

  function Abs(x: real): real {
    if x < 0.0 then -x else x
  }

  function Triangle(x: real): real {
    if 1.0 - Abs(x) > 0.0 then 1.0 - Abs(x) else 0.0
  }

  function Ceil(x: real): int {
    -((-x).Floor)
  }

  /** The input plane and the point that a pixel is computed at. */
  datatype Point = Point(mem: Memory, ib: int, iw: nat, ih: nat, ix: real, iy: real, ax: real, ay: real)

  datatype Acc = Acc(sum: real, wsum: real)

  function Pixel(p: Point, x: int, y: int): real {
    p.mem(p.ib + y * p.iw + x)
  }

  predicate Inside(p: Point, x: int, y: int) {
    0 <= y < p.ih && 0 <= x < p.iw
  }

  /** The factor of one axis in a weight. */
  function Factor(a: real, i: real, x: int): real {
    a * Triangle(a * (i - x as real))
  }

  function Weight(p: Point, x: int, y: int): real {
    Factor(p.ax, p.ix, x) * Factor(p.ay, p.iy, y)
  }

  /** One pixel of the window added; pixels outside the image are skipped. */
  function Add(p: Point, a: Acc, x: int, y: int): Acc {
    if Inside(p, x, y) then Acc(a.sum + Weight(p, x, y) * Pixel(p, x, y), a.wsum + Weight(p, x, y)) else a
  }

  function RowAcc(p: Point, a: Acc, y: int, x0: int, n: nat): Acc {
    if n == 0 then a else Add(p, RowAcc(p, a, y, x0, n - 1), x0 + n - 1, y)
  }

  function WindowAcc(p: Point, x0: int, nx: nat, y0: int, ny: nat): Acc {
    if ny == 0 then Acc(0.0, 0.0) else RowAcc(p, WindowAcc(p, x0, nx, y0, ny - 1), y0 + ny - 1, x0, nx)
  }

  function Quotient(a: Acc): real {
    if a.wsum == 0.0 then 0.0 else a.sum / a.wsum
  }

  function Scale(antialias: bool, f: real): real
    requires f > 0.0
  {
    1.0 / (if antialias then f else 1.0)
  }

  function Radius(f: real, a: real, width: nat): nat
    requires a > 0.0
  {
    if f < 1.0 then 2
    else
      var q := (width as real) / a;
      assert q >= 0.0;
      Ceil(q)
  }

  function PointAt(mem: Memory, ib: int, iw: nat, ih: nat, fx: real, fy: real, antialias: bool, ox: nat, oy: nat): Point
    requires fx > 0.0 && fy > 0.0
  {
    Point(mem, ib, iw, ih, Source(ox, fx, fy), Source(oy, fy, fx), Scale(antialias, fx), Scale(antialias, fy))
  }

  lemma ScalePositive(antialias: bool, f: real)
    requires f > 0.0
    ensures Scale(antialias, f) > 0.0
  {
  }

  function KernelAt(mem: Memory, ib: int, iw: nat, ih: nat, fx: real, fy: real, width: nat, antialias: bool, ox: nat,
          oy: nat): real
    requires fx > 0.0 && fy > 0.0
  {
    ScalePositive(antialias, fx);
    ScalePositive(antialias, fy);
    var p := PointAt(mem, ib, iw, ih, fx, fy, antialias, ox, oy);
    var rx, ry := Radius(fx, p.ax, width), Radius(fy, p.ay, width);
    Quotient(WindowAcc(p, Round(p.ix) - rx, 2 * rx + 1, Round(p.iy) - ry, 2 * ry + 1))
  }

  function Kernel(mem: Memory, ib: int, iw: nat, ih: nat, fx: real, fy: real, width: nat, antialias: bool): Picture
    requires fx > 0.0 && fy > 0.0
  {
    (x: nat, y: nat) => KernelAt(mem, ib, iw, ih, fx, fy, width, antialias, x, y)
  }

  /** The window loops of one pixel. */
  method Interpolate(mem: Memory, ib: int, iw: nat, ih: nat, fx: real, fy: real, width: nat, antialias: bool, ox: nat,
          oy: nat)
    returns (v: real)
    requires fx > 0.0 && fy > 0.0
    ensures v == KernelAt(mem, ib, iw, ih, fx, fy, width, antialias, ox, oy)
  {
    hide Add, Round, Source, Scale;
    ScalePositive(antialias, fx);
    ScalePositive(antialias, fy);
    var p := PointAt(mem, ib, iw, ih, fx, fy, antialias, ox, oy);
    var rx, ry := Radius(fx, p.ax, width), Radius(fy, p.ay, width);
    var acc := Acc(0.0, 0.0);
    var x0, y0 := Round(p.ix) - rx, Round(p.iy) - ry;
    var y := y0;
    while y <= y0 + 2 * ry
      invariant y0 <= y <= y0 + 2 * ry + 1 && acc == WindowAcc(p, x0, 2 * rx + 1, y0, y - y0)
    {
      ghost var was := acc;
      var x := x0;
      while x <= x0 + 2 * rx
        invariant x0 <= x <= x0 + 2 * rx + 1 && acc == RowAcc(p, was, y, x0, x - x0)
      {
        acc := Add(p, acc, x, y);
        x := x + 1;
      }
      y := y + 1;
    }
    v := Quotient(acc);
  }

  /** The general kernel. */
  method InterpolationKernel(mem: Memory, ib: int, iw: nat, ih: nat, fx: real, fy: real, width: nat, antialias: bool,
                             out: array<real>, ob: nat, ow: nat, oh: nat)
    returns (ghost times: seq<nat>)
    requires fx > 0.0 && fy > 0.0 && oh * ow >= 0 && ob + oh * ow <= out.Length
    modifies out
    ensures Complete(out[..], ob, ow, oh, Kernel(mem, ib, iw, ih, fx, fy, width, antialias))
    ensures Once(times, ob, ow, oh)
    ensures Framed(out[..], old(out[..]), ob, ow, oh)
  {
    hide Painted, Framed, Complete, Once, Unwritten, KernelAt;
    ghost var pic := Kernel(mem, ib, iw, ih, fx, fy, width, antialias);
    times := Unwritten(out.Length);
    Blank(out[..], ob, ow, oh, pic, 1, 1);
    FramedSame(out[..], ob, ow, oh);
    for oy := 0 to oh
      invariant Painted(out[..], times, ob, ow, oh, pic, 1, oy, 0, 1, 0) && Framed(out[..], old(out[..]), ob, ow, oh)
    {
      for ox := 0 to ow
        invariant Painted(out[..], times, ob, ow, oh, pic, 1, oy, ox, 1, 0) && Framed(out[..], old(out[..]), ob, ow, oh)
      {
        var v := Interpolate(mem, ib, iw, ih, fx, fy, width, antialias, ox, oy);
        ghost var was := out[..];
        times := Store(out, [v], times, ob, ow, oh, pic, 1, oy, ox, 0, oy);
        FramedTrans(old(out[..]), was, out[..], ob, ow, oh);
        NextBlock(out[..], times, ob, ow, oh, pic, 1, oy, ox, 1, 1);
      }
      NextBand(out[..], times, ob, ow, oh, pic, 1, oy, ow, 1, 1);
    }
    Finished(out[..], times, ob, ow, oh, pic, 1, oh, 1);
  }

  // ---- a weighted mean, at every scale ----

  /** The pixels of the image lie between lo and hi. */
  ghost predicate Ranges(p: Point, lo: real, hi: real) {
    forall x: int, y: int :: Inside(p, x, y) ==> lo <= Pixel(p, x, y) <= hi
  }

  ghost predicate ImageWithin(mem: Memory, ib: int, iw: nat, ih: nat, lo: real, hi: real) {
    Ranges(Point(mem, ib, iw, ih, 0.0, 0.0, 1.0, 1.0), lo, hi)
  }

  /** The weighted sum lies between the weight sum's multiples of lo and hi. */
  ghost predicate Between(a: Acc, lo: real, hi: real) {
    a.wsum >= 0.0 && lo * a.wsum <= a.sum <= hi * a.wsum
  }

  lemma TimesNonNegative(a: real, b: real)
    requires a >= 0.0 && b >= 0.0
    ensures a * b >= 0.0
  {
  }

  lemma WeightNonNegative(p: Point, x: int, y: int)
    requires p.ax > 0.0 && p.ay > 0.0
    ensures Weight(p, x, y) >= 0.0
  {
    TimesNonNegative(p.ax, Triangle(p.ax * (p.ix - x as real)));
    TimesNonNegative(p.ay, Triangle(p.ay * (p.iy - y as real)));
    TimesNonNegative(Factor(p.ax, p.ix, x), Factor(p.ay, p.iy, y));
  }

  lemma TapBetween(w: real, v: real, lo: real, hi: real)
    requires w >= 0.0 && lo <= v <= hi
    ensures lo * w <= w * v <= hi * w
  {
    TimesNonNegative(w, v - lo);
    TimesNonNegative(w, hi - v);
    assert w * (v - lo) == w * v - lo * w;
    assert w * (hi - v) == hi * w - w * v;
  }

  lemma AddBetween(p: Point, a: Acc, x: int, y: int, lo: real, hi: real)
    requires p.ax > 0.0 && p.ay > 0.0 && Ranges(p, lo, hi) && Between(a, lo, hi)
    ensures Between(Add(p, a, x, y), lo, hi)
  {
    if Inside(p, x, y) {
      var w, v := Weight(p, x, y), Pixel(p, x, y);
      assert lo <= v <= hi;
      WeightNonNegative(p, x, y);
      TapBetween(w, v, lo, hi);
      hide Weight, Pixel, Ranges;
      assert lo * (a.wsum + w) == lo * a.wsum + lo * w && hi * (a.wsum + w) == hi * a.wsum + hi * w;
    }
  }

  lemma {:induction false} RowBetween(p: Point, a: Acc, y: int, x0: int, n: nat, lo: real, hi: real)
    requires p.ax > 0.0 && p.ay > 0.0 && Ranges(p, lo, hi) && Between(a, lo, hi)
    ensures Between(RowAcc(p, a, y, x0, n), lo, hi)
  {
    hide Add, Ranges, Between;
    if n > 0 {
      RowBetween(p, a, y, x0, n - 1, lo, hi);
      AddBetween(p, RowAcc(p, a, y, x0, n - 1), x0 + n - 1, y, lo, hi);
    }
  }

  lemma {:induction false} WindowBetween(p: Point, x0: int, nx: nat, y0: int, ny: nat, lo: real, hi: real)
    requires p.ax > 0.0 && p.ay > 0.0 && Ranges(p, lo, hi)
    ensures Between(WindowAcc(p, x0, nx, y0, ny), lo, hi)
  {
    hide RowAcc, Ranges;
    if ny > 0 {
      WindowBetween(p, x0, nx, y0, ny - 1, lo, hi);
      RowBetween(p, WindowAcc(p, x0, nx, y0, ny - 1), y0 + ny - 1, x0, nx, lo, hi);
    }
  }

  lemma QuotientBetween(a: Acc, lo: real, hi: real)
    requires Between(a, lo, hi)
    ensures a.wsum == 0.0 || lo <= Quotient(a) <= hi
  {
    if a.wsum > 0.0 {
      var q := Quotient(a);
      assert q * a.wsum == a.sum;
      NoLess(lo, q, a.wsum);
      NoLess(q, hi, a.wsum);
    }
  }

  lemma NoLess(x: real, y: real, z: real)
    requires z > 0.0 && x * z <= y * z
    ensures x <= y
  {
    if y < x {
      MulStrict(y, x, z);
    }
  }

  lemma MulStrict(x: real, y: real, z: real)
    requires z > 0.0 && x < y
    ensures x * z < y * z
  {
    assert (y - x) * z == y * z - x * z;
  }

  /** The weight of all taps inside the image for one output pixel. */
  function WeightSum(mem: Memory, ib: int, iw: nat, ih: nat, fx: real, fy: real, width: nat, antialias: bool, ox: nat,
          oy: nat): real
    requires fx > 0.0 && fy > 0.0
  {
    ScalePositive(antialias, fx);
    ScalePositive(antialias, fy);
    var p := PointAt(mem, ib, iw, ih, fx, fy, antialias, ox, oy);
    var rx, ry := Radius(fx, p.ax, width), Radius(fy, p.ay, width);
    WindowAcc(p, Round(p.ix) - rx, 2 * rx + 1, Round(p.iy) - ry, 2 * ry + 1).wsum
  }

  /** At every scale the kernel stays within the range of the image, wherever a tap has weight. */
  lemma KernelWithin(mem: Memory, ib: int, iw: nat, ih: nat, fx: real, fy: real, width: nat, antialias: bool, ox: nat,
          oy: nat, lo: real, hi: real)
    requires fx > 0.0 && fy > 0.0
    requires ImageWithin(mem, ib, iw, ih, lo, hi)
    ensures WeightSum(mem, ib, iw, ih, fx, fy, width, antialias, ox, oy) >= 0.0
    ensures var v := KernelAt(mem, ib, iw, ih, fx, fy, width, antialias, ox, oy);
            if WeightSum(mem, ib, iw, ih, fx, fy, width, antialias, ox, oy) == 0.0 then v == 0.0 else lo <= v <= hi
  {
    ScalePositive(antialias, fx);
    ScalePositive(antialias, fy);
    var p := PointAt(mem, ib, iw, ih, fx, fy, antialias, ox, oy);
    var rx, ry := Radius(fx, p.ax, width), Radius(fy, p.ay, width);
    var x0, y0 := Round(p.ix) - rx, Round(p.iy) - ry;
    InRange(p, lo, hi);
    WindowBetween(p, x0, 2 * rx + 1, y0, 2 * ry + 1, lo, hi);
    QuotientBetween(WindowAcc(p, x0, 2 * rx + 1, y0, 2 * ry + 1), lo, hi);
    hide WindowAcc, Source, Scale, Round, Radius, Ranges;
  }

  lemma InRange(p: Point, lo: real, hi: real)
    requires ImageWithin(p.mem, p.ib, p.iw, p.ih, lo, hi)
    ensures Ranges(p, lo, hi)
  {
    var q := Point(p.mem, p.ib, p.iw, p.ih, 0.0, 0.0, 1.0, 1.0);
    forall x: int, y: int | Inside(p, x, y) ensures lo <= Pixel(p, x, y) <= hi {
      assert Inside(q, x, y) && Pixel(q, x, y) == Pixel(p, x, y);
    }
  }

  // ---- enlarging four times ----

  /** The weight of the neighbour on the near side, by the position of an output pixel within its source pixel. */
  function Side(phase: nat): real {
    if phase == 0 || phase == 3 then 0.375 else 0.125
  }

  /** The neighbour on the near side. */
  function Neighbour(o: nat): int {
    if o % 4 < 2 then o / 4 - 1 else o / 4 + 1
  }

  function SideWeight(o: nat, n: nat): real {
    if 0 <= Neighbour(o) < n then Side(o % 4) else 0.0
  }

  /** Four values mixed with a weight for each column and each row, near side first. */
  function Mix(wx: real, cx: real, wy: real, cy: real, near: real, nearRow: real, nearColumn: real,
          centre: real): real {
    Quotient(Acc(wy * (wx * near + cx * nearRow) + cy * (wx * nearColumn + cx * centre), (wx + cx) * (wy + cy)))
  }

  /** Four taps: the source pixel and its neighbours on the near sides, each axis weighted by distance and taps
      outside the image left out. */
  function Blend(mem: Memory, ib: int, iw: nat, ih: nat, ox: nat, oy: nat): real {
    var k, j, sx, sy := ox / 4, oy / 4, Neighbour(ox), Neighbour(oy);
    Mix(SideWeight(ox, iw), 1.0 - Side(ox % 4), SideWeight(oy, ih), 1.0 - Side(oy % 4),
        mem(ib + sy * iw + sx), mem(ib + sy * iw + k), mem(ib + j * iw + sx), mem(ib + j * iw + k))
  }

  /** The triangle around an output coordinate: full weight on two source coordinates, none elsewhere. */
  lemma TriangleWeights(o: nat)
    ensures var ix, k := Source(o, 0.25, 0.25), o / 4;
            && Round(ix) == k
            && Triangle(ix - (k - 2) as real) == 0.0 && Triangle(ix - (k + 2) as real) == 0.0
            && Triangle(ix - k as real) == 1.0 - Side(o % 4)
            && Triangle(ix - (k - 1) as real) == (if o % 4 < 2 then Side(o % 4) else 0.0)
            && Triangle(ix - (k + 1) as real) == (if o % 4 < 2 then 0.0 else Side(o % 4))
  {
    QuarterSource(o);
    var k, r := o / 4, o % 4;
    assert o == 4 * k + r;
    assert Source(o, 0.25, 0.25) == (k as real) + (r as real) * 0.25 - 0.375;
  }

  /** What one pixel adds at scale 1/4. */
  lemma AddQuarter(p: Point, a: Acc, x: int, y: int, tx: real, ty: real)
    requires p.ax == 1.0 && p.ay == 1.0 && tx == Triangle(p.ix - x as real) && ty == Triangle(p.iy - y as real)
    ensures Add(p, a, x, y)
         == if Inside(p, x, y) then Acc(a.sum + tx * ty * Pixel(p, x, y), a.wsum + tx * ty) else a
  {
    assert p.ax * (p.ix - x as real) == p.ix - x as real;
    assert p.ay * (p.iy - y as real) == p.iy - y as real;
    assert Weight(p, x, y) == tx * ty;
  }

  lemma AddNothing(p: Point, a: Acc, x: int, y: int)
    requires p.ax == 1.0 && p.ay == 1.0 && (Triangle(p.ix - x as real) == 0.0 || Triangle(p.iy - y as real) == 0.0)
    ensures Add(p, a, x, y) == a
  {
    var tx, ty := Triangle(p.ix - x as real), Triangle(p.iy - y as real);
    AddQuarter(p, a, x, y, tx, ty);
    assert tx * ty == 0.0;
    assert 0.0 * Pixel(p, x, y) == 0.0;
  }

  lemma FiveInARow(p: Point, a: Acc, y: int, k: int)
    ensures RowAcc(p, a, y, k - 2, 5)
            == Add(p, Add(p, Add(p, Add(p, Add(p, a, k - 2, y), k - 1, y), k, y), k + 1, y), k + 2, y)
  {
    hide Add;
    assert RowAcc(p, a, y, k - 2, 1) == Add(p, a, k - 2, y);
    assert RowAcc(p, a, y, k - 2, 2) == Add(p, RowAcc(p, a, y, k - 2, 1), k - 1, y);
    assert RowAcc(p, a, y, k - 2, 3) == Add(p, RowAcc(p, a, y, k - 2, 2), k, y);
    assert RowAcc(p, a, y, k - 2, 4) == Add(p, RowAcc(p, a, y, k - 2, 3), k + 1, y);
  }

  lemma FiveRows(p: Point, x0: int, j: int)
    ensures WindowAcc(p, x0, 5, j - 2, 5)
         == RowAcc(p, RowAcc(p, RowAcc(p, RowAcc(p, RowAcc(p, Acc(0.0, 0.0), j - 2, x0, 5), j - 1, x0, 5), j, x0, 5),
            j + 1, x0, 5), j + 2, x0, 5)
  {
    hide RowAcc;
    assert WindowAcc(p, x0, 5, j - 2, 1) == RowAcc(p, WindowAcc(p, x0, 5, j - 2, 0), j - 2, x0, 5);
    assert WindowAcc(p, x0, 5, j - 2, 2) == RowAcc(p, WindowAcc(p, x0, 5, j - 2, 1), j - 1, x0, 5);
    assert WindowAcc(p, x0, 5, j - 2, 3) == RowAcc(p, WindowAcc(p, x0, 5, j - 2, 2), j, x0, 5);
    assert WindowAcc(p, x0, 5, j - 2, 4) == RowAcc(p, WindowAcc(p, x0, 5, j - 2, 3), j + 1, x0, 5);
  }

  function QuarterPoint(mem: Memory, ib: int, iw: nat, ih: nat, ox: nat, oy: nat): Point {
    PointAt(mem, ib, iw, ih, 0.25, 0.25, false, ox, oy)
  }

  /** Two taps of one row. */
  function RowBlend(p: Point, ox: nat, y: int): real {
    SideWeight(ox, p.iw) * Pixel(p, Neighbour(ox), y) + (1.0 - Side(ox % 4)) * Pixel(p, ox / 4, y)
  }

  function RowWeight(p: Point, ox: nat): real {
    SideWeight(ox, p.iw) + (1.0 - Side(ox % 4))
  }

  /** One row of the window, at a vertical weight of ty. */
  lemma RowQuarter(p: Point, a: Acc, ox: nat, y: int, ty: real)
    requires p.ax == 1.0 && p.ay == 1.0 && p.ix == Source(ox, 0.25, 0.25) && ox / 4 < p.iw
             && ty == Triangle(p.iy - y as real)
    ensures RowAcc(p, a, y, ox / 4 - 2, 5)
         == if 0 <= y < p.ih && ty != 0.0 then Acc(a.sum + ty * RowBlend(p, ox, y), a.wsum + ty * RowWeight(p, ox))
            else a
  {
    hide Add, Triangle, Source, Round, Pixel, Tap;
    FiveInARow(p, a, y, ox / 4);
    if ty == 0.0 || !(0 <= y < p.ih) {
      RowSkipped(p, a, y);
    } else {
      RowTaps(p, a, ox, y, ty);
      TwoTaps(p, a, ox, y, ty);
    }
  }

  /** The five steps of a row that counts: three add nothing, two add a tap, the left one first. */
  lemma RowTaps(p: Point, a: Acc, ox: nat, y: int, ty: real)
    requires p.ax == 1.0 && p.ay == 1.0 && p.ix == Source(ox, 0.25, 0.25) && ty == Triangle(p.iy - y as real)
    ensures var k, s, n := ox / 4, Side(ox % 4), Neighbour(ox);
            Add(p, Add(p, Add(p, Add(p, Add(p, a, k - 2, y), k - 1, y), k, y), k + 1, y), k + 2, y)
            == if n < k then Tap(p, Tap(p, a, n, y, s, ty), k, y, 1.0 - s, ty)
               else Tap(p, Tap(p, a, k, y, 1.0 - s, ty), n, y, s, ty)
  {
    hide Add, Tap, Triangle, Source, Round;
    var k, s := ox / 4, Side(ox % 4);
    TriangleWeights(ox);
    if Neighbour(ox) < k {
      LeftTaps(p, a, k, y, s, ty);
    } else {
      RightTaps(p, a, k, y, s, ty);
    }
  }

  lemma LeftTaps(p: Point, a: Acc, k: int, y: int, s: real, ty: real)
    requires p.ax == 1.0 && p.ay == 1.0 && ty == Triangle(p.iy - y as real)
    requires Triangle(p.ix - (k - 2) as real) == 0.0 && Triangle(p.ix - (k - 1) as real) == s
    requires Triangle(p.ix - k as real) == 1.0 - s
    requires Triangle(p.ix - (k + 1) as real) == 0.0 && Triangle(p.ix - (k + 2) as real) == 0.0
    ensures Add(p, Add(p, Add(p, Add(p, Add(p, a, k - 2, y), k - 1, y), k, y), k + 1, y), k + 2, y)
         == Tap(p, Tap(p, a, k - 1, y, s, ty), k, y, 1.0 - s, ty)
  {
    hide Add, Triangle, Pixel;
    var b := Tap(p, a, k - 1, y, s, ty);
    var c := Tap(p, b, k, y, 1.0 - s, ty);
    AddNothing(p, a, k - 2, y);
    AddQuarter(p, a, k - 1, y, s, ty);
    assert Add(p, a, k - 1, y) == b;
    AddQuarter(p, b, k, y, 1.0 - s, ty);
    assert Add(p, b, k, y) == c;
    AddNothing(p, c, k + 1, y);
    AddNothing(p, c, k + 2, y);
  }

  lemma RightTaps(p: Point, a: Acc, k: int, y: int, s: real, ty: real)
    requires p.ax == 1.0 && p.ay == 1.0 && ty == Triangle(p.iy - y as real)
    requires Triangle(p.ix - (k - 2) as real) == 0.0 && Triangle(p.ix - (k - 1) as real) == 0.0
    requires Triangle(p.ix - k as real) == 1.0 - s
    requires Triangle(p.ix - (k + 1) as real) == s && Triangle(p.ix - (k + 2) as real) == 0.0
    ensures Add(p, Add(p, Add(p, Add(p, Add(p, a, k - 2, y), k - 1, y), k, y), k + 1, y), k + 2, y)
         == Tap(p, Tap(p, a, k, y, 1.0 - s, ty), k + 1, y, s, ty)
  {
    hide Add, Triangle, Pixel;
    var c := Tap(p, a, k, y, 1.0 - s, ty);
    var d := Tap(p, c, k + 1, y, s, ty);
    AddNothing(p, a, k - 2, y);
    AddNothing(p, a, k - 1, y);
    AddQuarter(p, a, k, y, 1.0 - s, ty);
    assert Add(p, a, k, y) == c;
    AddQuarter(p, c, k + 1, y, s, ty);
    assert Add(p, c, k + 1, y) == d;
    AddNothing(p, d, k + 2, y);
  }

  function Tap(p: Point, a: Acc, x: int, y: int, tx: real, ty: real): Acc {
    if Inside(p, x, y) then Acc(a.sum + tx * ty * Pixel(p, x, y), a.wsum + tx * ty) else a
  }

  lemma RowSkipped(p: Point, a: Acc, y: int)
    requires p.ax == 1.0 && p.ay == 1.0 && (Triangle(p.iy - y as real) == 0.0 || !(0 <= y < p.ih))
    ensures forall x: int :: Add(p, a, x, y) == a
  {
    forall x: int
      ensures Add(p, a, x, y) == a
    {
      if 0 <= y < p.ih {
        AddNothing(p, a, x, y);
      }
    }
  }

  lemma TwoTaps(p: Point, a: Acc, ox: nat, y: int, ty: real)
    requires ox / 4 < p.iw && 0 <= y < p.ih
    ensures var k, s, n := ox / 4, Side(ox % 4), Neighbour(ox);
            var r := Acc(a.sum + ty * RowBlend(p, ox, y), a.wsum + ty * RowWeight(p, ox));
            && Tap(p, Tap(p, a, n, y, s, ty), k, y, 1.0 - s, ty) == r
            && Tap(p, Tap(p, a, k, y, 1.0 - s, ty), n, y, s, ty) == r
  {
    var k, s, n := ox / 4, Side(ox % 4), Neighbour(ox);
    var u, v := Pixel(p, n, y), Pixel(p, k, y);
    Distribute(ty, SideWeight(ox, p.iw), 1.0 - s, u, v);
    assert s * ty * u == ty * (s * u);
    assert (1.0 - s) * ty * v == ty * ((1.0 - s) * v);
  }

  lemma Distribute(t: real, a: real, b: real, u: real, v: real)
    ensures t * (a * u + b * v) == t * (a * u) + t * (b * v)
    ensures t * (a + b) == t * a + t * b
  {
  }

  /** At scale 1/4 the kernel is the blend of four taps, for every pixel of every image. */
  lemma KernelIsBlend(mem: Memory, ib: int, iw: nat, ih: nat, width: nat, ox: nat, oy: nat)
    requires ox / 4 < iw && oy / 4 < ih
    ensures KernelAt(mem, ib, iw, ih, 0.25, 0.25, width, false, ox, oy) == Blend(mem, ib, iw, ih, ox, oy)
  {
    hide RowAcc, Triangle, Source, Round, WindowAcc, RowTap, Blend;
    var p := QuarterPoint(mem, ib, iw, ih, ox, oy);
    TriangleWeights(ox);
    TriangleWeights(oy);
    FiveRows(p, ox / 4 - 2, oy / 4);
    WindowTaps(p, ox, oy);
    BlendQuotient(p, ox, oy);
  }

  /** The five rows of the window: three add nothing, two count, the upper one first. */
  lemma WindowTaps(p: Point, ox: nat, oy: nat)
    requires p.ax == 1.0 && p.ay == 1.0 && p.ix == Source(ox, 0.25, 0.25) && p.iy == Source(oy, 0.25, 0.25)
             && ox / 4 < p.iw
    ensures var x0, j, s, n, z := ox / 4 - 2, oy / 4, Side(oy % 4), Neighbour(oy), Acc(0.0, 0.0);
            RowAcc(p, RowAcc(p, RowAcc(p, RowAcc(p, RowAcc(p, z, j - 2, x0, 5), j - 1, x0, 5), j, x0, 5), j + 1, x0, 5),
              j + 2, x0, 5)
            == if n < j then RowTap(p, RowTap(p, z, ox, n, s), ox, j, 1.0 - s)
               else RowTap(p, RowTap(p, z, ox, j, 1.0 - s), ox, n, s)
  {
    hide RowAcc, Triangle, Source, Round, RowTap;
    TriangleWeights(oy);
    if Neighbour(oy) < oy / 4 {
      UpperRows(p, ox, oy / 4, Side(oy % 4));
    } else {
      LowerRows(p, ox, oy / 4, Side(oy % 4));
    }
  }

  lemma UpperRows(p: Point, ox: nat, j: int, s: real)
    requires p.ax == 1.0 && p.ay == 1.0 && p.ix == Source(ox, 0.25, 0.25) && ox / 4 < p.iw && s != 0.0 && 1.0 - s != 0.0
    requires Triangle(p.iy - (j - 2) as real) == 0.0 && Triangle(p.iy - (j - 1) as real) == s
    requires Triangle(p.iy - j as real) == 1.0 - s
    requires Triangle(p.iy - (j + 1) as real) == 0.0 && Triangle(p.iy - (j + 2) as real) == 0.0
    ensures var x0, z := ox / 4 - 2, Acc(0.0, 0.0);
            RowAcc(p, RowAcc(p, RowAcc(p, RowAcc(p, RowAcc(p, z, j - 2, x0, 5), j - 1, x0, 5), j, x0, 5), j + 1, x0, 5),
              j + 2, x0, 5)
            == RowTap(p, RowTap(p, z, ox, j - 1, s), ox, j, 1.0 - s)
  {
    hide RowAcc, Triangle, Source, RowBlend, RowWeight;
    var x0, z := ox / 4 - 2, Acc(0.0, 0.0);
    var b := RowTap(p, z, ox, j - 1, s);
    var c := RowTap(p, b, ox, j, 1.0 - s);
    RowQuarter(p, z, ox, j - 2, 0.0);
    RowQuarter(p, z, ox, j - 1, s);
    assert RowAcc(p, z, j - 1, x0, 5) == b;
    RowQuarter(p, b, ox, j, 1.0 - s);
    assert RowAcc(p, b, j, x0, 5) == c;
    RowQuarter(p, c, ox, j + 1, 0.0);
    RowQuarter(p, c, ox, j + 2, 0.0);
  }

  lemma LowerRows(p: Point, ox: nat, j: int, s: real)
    requires p.ax == 1.0 && p.ay == 1.0 && p.ix == Source(ox, 0.25, 0.25) && ox / 4 < p.iw && s != 0.0 && 1.0 - s != 0.0
    requires Triangle(p.iy - (j - 2) as real) == 0.0 && Triangle(p.iy - (j - 1) as real) == 0.0
    requires Triangle(p.iy - j as real) == 1.0 - s
    requires Triangle(p.iy - (j + 1) as real) == s && Triangle(p.iy - (j + 2) as real) == 0.0
    ensures var x0, z := ox / 4 - 2, Acc(0.0, 0.0);
            RowAcc(p, RowAcc(p, RowAcc(p, RowAcc(p, RowAcc(p, z, j - 2, x0, 5), j - 1, x0, 5), j, x0, 5), j + 1, x0, 5),
              j + 2, x0, 5)
            == RowTap(p, RowTap(p, z, ox, j, 1.0 - s), ox, j + 1, s)
  {
    hide RowAcc, Triangle, Source, RowBlend, RowWeight;
    var x0, z := ox / 4 - 2, Acc(0.0, 0.0);
    var c := RowTap(p, z, ox, j, 1.0 - s);
    var d := RowTap(p, c, ox, j + 1, s);
    RowQuarter(p, z, ox, j - 2, 0.0);
    RowQuarter(p, z, ox, j - 1, 0.0);
    RowQuarter(p, z, ox, j, 1.0 - s);
    assert RowAcc(p, z, j, x0, 5) == c;
    RowQuarter(p, c, ox, j + 1, s);
    assert RowAcc(p, c, j + 1, x0, 5) == d;
    RowQuarter(p, d, ox, j + 2, 0.0);
  }

  function RowTap(p: Point, a: Acc, ox: nat, y: int, ty: real): Acc {
    if 0 <= y < p.ih then Acc(a.sum + ty * RowBlend(p, ox, y), a.wsum + ty * RowWeight(p, ox)) else a
  }

  lemma BlendQuotient(p: Point, ox: nat, oy: nat)
    requires ox / 4 < p.iw && oy / 4 < p.ih
    ensures var j, s, n, z := oy / 4, Side(oy % 4), Neighbour(oy), Acc(0.0, 0.0);
            && Quotient(RowTap(p, RowTap(p, z, ox, n, s), ox, j, 1.0 - s)) == Blend(p.mem, p.ib, p.iw, p.ih, ox, oy)
            && Quotient(RowTap(p, RowTap(p, z, ox, j, 1.0 - s), ox, n, s)) == Blend(p.mem, p.ib, p.iw, p.ih, ox, oy)
  {
    BlendRows(p, ox, oy);
    var j, s, n := oy / 4, Side(oy % 4), Neighbour(oy);
    Weigh(RowWeight(p, ox), SideWeight(oy, p.ih), 1.0 - s);
    hide RowBlend, RowWeight, Blend, Quotient, Side, Neighbour;
  }

  /** The blend in terms of its two rows. */
  lemma BlendRows(p: Point, ox: nat, oy: nat)
    ensures var w, wy, cy := RowWeight(p, ox), SideWeight(oy, p.ih), 1.0 - Side(oy % 4);
            Blend(p.mem, p.ib, p.iw, p.ih, ox, oy)
            == Quotient(Acc(wy * RowBlend(p, ox, Neighbour(oy)) + cy * RowBlend(p, ox, oy / 4), w * (wy + cy)))
  {
    hide Side, SideWeight, Neighbour;
    var wx, cx, sx, sy := SideWeight(ox, p.iw), 1.0 - Side(ox % 4), Neighbour(ox), Neighbour(oy);
    var near, nearRow := Pixel(p, sx, sy), Pixel(p, ox / 4, sy);
    var nearColumn, centre := Pixel(p, sx, oy / 4), Pixel(p, ox / 4, oy / 4);
    assert RowBlend(p, ox, sy) == wx * near + cx * nearRow;
    assert RowBlend(p, ox, oy / 4) == wx * nearColumn + cx * centre;
    var wy, cy := SideWeight(oy, p.ih), 1.0 - Side(oy % 4);
    assert Blend(p.mem, p.ib, p.iw, p.ih, ox, oy) == Mix(wx, cx, wy, cy, near, nearRow, nearColumn, centre);
    assert RowWeight(p, ox) == wx + cx;
    hide *;
    MixRows(wx, cx, wy, cy, near, nearRow, nearColumn, centre, RowBlend(p, ox, sy), RowBlend(p, ox, oy / 4));
  }

  lemma MixRows(wx: real, cx: real, wy: real, cy: real, a: real, b: real, c: real, d: real, u: real, v: real)
    requires u == wx * a + cx * b && v == wx * c + cx * d
    ensures Mix(wx, cx, wy, cy, a, b, c, d) == Quotient(Acc(wy * u + cy * v, (wx + cx) * (wy + cy)))
  {
    assert wy * u == wy * (wx * a + cx * b);
    assert cy * v == cy * (wx * c + cx * d);
    assert Acc(wy * u + cy * v, (wx + cx) * (wy + cy))
        == Acc(wy * (wx * a + cx * b) + cy * (wx * c + cx * d), (wx + cx) * (wy + cy));
  }

  lemma Weigh(w: real, wy: real, cy: real)
    ensures w * (wy + cy) == wy * w + cy * w
  {
  }
}
