/** What the interpolation kernel is, at every scale, without its window: a mean over the whole image, weighted by a
    tent on each axis. */
module ResampleMean {
  import opened Canvas
  import opened ResampleKernel
  import opened ResampleNearest
  import opened Sums

  function Distance(u: real, x: int): real {
    if u < x as real then x as real - u else u - x as real
  }

  /** A tent that falls from reach to zero with the distance. */
  function Tent(reach: real, d: real): real {
    if d < reach then reach - d else 0.0
  }

  /** An image in memory, or everywhere one, and the point it is looked at from. */
  datatype View = View(mem: Memory, ib: int, iw: nat, ih: nat, ones: bool, ix: real, iy: real)

  function ValueAt(v: View, x: int, y: int): real {
    if v.ones then 1.0 else v.mem(v.ib + y * v.iw + x)
  }

  /** The pixels of row y, each times the tent of its column. */
  function RowTaps(v: View, sx: real, y: int): Line {
    (x: int) => if 0 <= x < v.iw then Tent(sx, Distance(v.ix, x)) * ValueAt(v, x, y) else 0.0
  }

  function RowsFrom(v: View, sx: real, sy: real, x0: int, nx: nat): Line {
    (y: int) =>
      if 0 <= y < v.ih then Tent(sy, Distance(v.iy, y)) * SumFrom(RowTaps(v, sx, y), x0, nx) else 0.0
  }

  /** The tent-weighted sum over the whole image. */
  function Total(v: View, sx: real, sy: real): real {
    SumFrom(RowsFrom(v, sx, sy, 0, v.iw), 0, v.ih)
  }

  function Mean(v: View, sx: real, sy: real): real {
    var weight := Total(v.(ones := true), sx, sy);
    if weight == 0.0 then 0.0 else Total(v, sx, sy) / weight
  }

  // ---- one tap ----

  lemma TriangleIsTent(a: real, s: real, u: real, x: int)
    requires a > 0.0 && a * s == 1.0
    ensures Triangle(a * (u - x as real)) == a * Tent(s, Distance(u, x))
  {
    var d, w := Distance(u, x), x as real;
    assert a * (u - w) == a * u - a * w && a * (w - u) == a * w - a * u;
    assert a * (s - d) == 1.0 - a * d;
    SignOf(a, u - w);
    SignOf(a, s - d);
  }

  lemma SignOf(a: real, x: real)
    requires a > 0.0
    ensures a * x > 0.0 <==> x > 0.0
    ensures a * x < 0.0 <==> x < 0.0
  {
  }

  /** The constant that all weights have in common. */
  function Common(ax: real, ay: real): real {
    ax * ax * (ay * ay)
  }

  /** The same view with the scales of the kernel. */
  ghost predicate Shows(p: Point, v: View, sx: real, sy: real) {
    && p.mem == v.mem && p.ib == v.ib && p.iw == v.iw && p.ih == v.ih && p.ix == v.ix && p.iy == v.iy
    && p.ax > 0.0 && p.ay > 0.0 && p.ax * sx == 1.0 && p.ay * sy == 1.0
  }

  lemma FactorIsTent(a: real, s: real, u: real, x: int)
    requires a > 0.0 && a * s == 1.0
    ensures Factor(a, u, x) == a * (a * Tent(s, Distance(u, x)))
  {
    TriangleIsTent(a, s, u, x);
    hide Triangle, Tent, Distance;
  }

  lemma WeightIsTents(p: Point, v: View, sx: real, sy: real, x: int, y: int)
    requires Shows(p, v, sx, sy)
    ensures Weight(p, x, y)
            == Common(p.ax, p.ay) * (Tent(sy, Distance(v.iy, y)) * Tent(sx, Distance(v.ix, x)))
  {
    hide Factor, Tent, Distance, Common;
    FactorIsTent(p.ax, sx, v.ix, x);
    FactorIsTent(p.ay, sy, v.iy, y);
    FourFactors(p.ax, Tent(sx, Distance(v.ix, x)), Factor(p.ax, v.ix, x),
                p.ay, Tent(sy, Distance(v.iy, y)), Factor(p.ay, v.iy, y));
  }

  lemma FourFactors(a: real, t: real, at: real, b: real, u: real, bu: real)
    requires at == a * (a * t) && bu == b * (b * u)
    ensures at * bu == Common(a, b) * (u * t)
  {
    assert at == a * a * t && bu == b * b * u;
    assert (a * a * t) * (b * b * u) == a * a * (b * b) * (u * t);
  }

  /** What is summed up: the weighted pixels, or the weights. */
  function Of(a: Acc, ones: bool): real {
    if ones then a.wsum else a.sum
  }

  /** One pixel of a row of the image. */
  lemma AddIsTap(p: Point, v: View, sx: real, sy: real, a: Acc, x: int, y: int)
    requires Shows(p, v, sx, sy)
    ensures Of(Add(p, a, x, y), v.ones)
            == Of(a, v.ones)
               + if 0 <= y < v.ih
                 then Common(p.ax, p.ay) * Tent(sy, Distance(v.iy, y)) * RowTaps(v, sx, y)(x)
                 else 0.0
  {
    WeightIsTents(p, v, sx, sy, x, y);
    var c, u, t := Common(p.ax, p.ay), Tent(sy, Distance(v.iy, y)), Tent(sx, Distance(v.ix, x));
    var val := ValueAt(v, x, y);
    hide Weight, Tent, Distance, Common;
    TapProduct(c, u, t, val);
  }

  lemma TapProduct(c: real, u: real, t: real, val: real)
    ensures c * (u * t) * val == c * u * (t * val)
    ensures c * (u * t) == c * u * (t * 1.0)
    ensures c * u * 0.0 == 0.0
  {
    assert c * (u * t) == c * u * t;
    assert c * u * t * val == c * u * (t * val);
  }

  lemma {:induction false} RowIsSum(p: Point, v: View, sx: real, sy: real, a: Acc, y: int, x0: int, n: nat)
    requires Shows(p, v, sx, sy)
    ensures Of(RowAcc(p, a, y, x0, n), v.ones)
            == Of(a, v.ones)
               + if 0 <= y < v.ih
                 then Common(p.ax, p.ay) * Tent(sy, Distance(v.iy, y)) * SumFrom(RowTaps(v, sx, y), x0, n)
                 else 0.0
  {
    hide Add, Shows, Tent, Distance, Common, RowTaps;
    var k := Common(p.ax, p.ay) * Tent(sy, Distance(v.iy, y));
    if n > 0 {
      var f := RowTaps(v, sx, y);
      RowIsSum(p, v, sx, sy, a, y, x0, n - 1);
      AddIsTap(p, v, sx, sy, RowAcc(p, a, y, x0, n - 1), x0 + n - 1, y);
      Distribute(k, SumFrom(f, x0, n - 1), f(x0 + n - 1));
    } else {
      assert k * 0.0 == 0.0;
    }
  }

  lemma Distribute(k: real, a: real, b: real)
    ensures k * (a + b) == k * a + k * b
  {
  }

  lemma {:induction false} WindowIsSum(p: Point, v: View, sx: real, sy: real, x0: int, nx: nat, y0: int, ny: nat)
    requires Shows(p, v, sx, sy)
    ensures Of(WindowAcc(p, x0, nx, y0, ny), v.ones)
            == Common(p.ax, p.ay) * SumFrom(RowsFrom(v, sx, sy, x0, nx), y0, ny)
  {
    hide RowAcc, Shows, Tent, Distance, Common, RowTaps;
    var f, c := RowsFrom(v, sx, sy, x0, nx), Common(p.ax, p.ay);
    if ny > 0 {
      var y := y0 + ny - 1;
      WindowIsSum(p, v, sx, sy, x0, nx, y0, ny - 1);
      RowIsSum(p, v, sx, sy, WindowAcc(p, x0, nx, y0, ny - 1), y, x0, nx);
      Regroup(c, Tent(sy, Distance(v.iy, y)), SumFrom(RowTaps(v, sx, y), x0, nx));
      Distribute(c, SumFrom(f, y0, ny - 1), f(y));
    }
    assert c * 0.0 == 0.0;
  }

  lemma Regroup(c: real, u: real, s: real)
    ensures c * u * s == c * (u * s)
  {
  }

  // ---- the window holds every tap that has weight ----

  lemma RoundNear(x: real)
    ensures Distance(x, Round(x)) <= 0.5
  {
  }

  /** Whatever is outside the window is out of reach. */
  lemma OutOfReach(u: real, s: real, r: nat, x: int)
    requires r as real >= s - 0.5 && !(Round(u) - r <= x < Round(u) - r + (2 * r + 1))
    ensures Tent(s, Distance(u, x)) == 0.0
  {
    RoundNear(u);
    hide Round;
  }

  lemma RadiusReaches(antialias: bool, f: real, width: nat)
    requires f > 0.0 && width >= 1
    ensures Scale(antialias, f) > 0.0
    ensures Radius(f, Scale(antialias, f), width) as real >= (if antialias then f else 1.0) - 0.5
    ensures Scale(antialias, f) * (if antialias then f else 1.0) == 1.0
  {
    var s, a := if antialias then f else 1.0, Scale(antialias, f);
    assert a * s == 1.0;
    if f >= 1.0 {
      var q := width as real / a;
      assert q * a == width as real;
      WideQuotient(q, a, s, width as real);
    }
  }

  lemma WideQuotient(q: real, a: real, s: real, w: real)
    requires a > 0.0 && a * s == 1.0 && q * a == w && w >= 1.0
    ensures q >= s
  {
    assert s * a == a * s;
    NoLess(s, q, a);
  }

  /** The window and the whole image give the same total. */
  lemma WindowIsTotal(v: View, sx: real, sy: real, rx: nat, ry: nat)
    requires rx as real >= sx - 0.5 && ry as real >= sy - 0.5
    ensures SumFrom(RowsFrom(v, sx, sy, Round(v.ix) - rx, 2 * rx + 1), Round(v.iy) - ry, 2 * ry + 1)
            == Total(v, sx, sy)
  {
    hide *;
    var x0, y0 := Round(v.ix) - rx, Round(v.iy) - ry;
    var f, g := RowsFrom(v, sx, sy, x0, 2 * rx + 1), RowsFrom(v, sx, sy, 0, v.iw);
    forall y: int ensures f(y) == 1.0 * g(y) {
      RowWindow(v, sx, y, rx);
      RowsAgree(v, sx, sy, x0, 2 * rx + 1, y);
    }
    forall y: int | !(y0 <= y < y0 + (2 * ry + 1)) || !(0 <= y < 0 + v.ih) ensures g(y) == 0.0 {
      RowOutside(v, sx, sy, y, ry);
    }
    SumFromEither(g, y0, 2 * ry + 1, 0, v.ih);
    SumFromScaled(f, g, 1.0, y0, 2 * ry + 1);
    TotalIs(v, sx, sy);
  }

  lemma RowsAgree(v: View, sx: real, sy: real, x0: int, nx: nat, y: int)
    requires SumFrom(RowTaps(v, sx, y), x0, nx) == SumFrom(RowTaps(v, sx, y), 0, v.iw)
    ensures RowsFrom(v, sx, sy, x0, nx)(y) == RowsFrom(v, sx, sy, 0, v.iw)(y)
  {
    hide RowTaps, Tent, Distance;
  }

  lemma TotalIs(v: View, sx: real, sy: real)
    ensures Total(v, sx, sy) == SumFrom(RowsFrom(v, sx, sy, 0, v.iw), 0, v.ih)
  {
  }

  lemma RowWindow(v: View, sx: real, y: int, rx: nat)
    requires rx as real >= sx - 0.5
    ensures SumFrom(RowTaps(v, sx, y), Round(v.ix) - rx, 2 * rx + 1) == SumFrom(RowTaps(v, sx, y), 0, v.iw)
  {
    var f, x0 := RowTaps(v, sx, y), Round(v.ix) - rx;
    hide Round, Tent, Distance, ValueAt;
    forall x: int | !(x0 <= x < x0 + (2 * rx + 1)) || !(0 <= x < 0 + v.iw) ensures f(x) == 0.0 {
      if 0 <= x < v.iw {
        OutOfReach(v.ix, sx, rx, x);
        assert 0.0 * ValueAt(v, x, y) == 0.0;
      }
    }
    SumFromEither(f, x0, 2 * rx + 1, 0, v.iw);
  }

  lemma RowOutside(v: View, sx: real, sy: real, y: int, ry: nat)
    requires ry as real >= sy - 0.5
    requires !(Round(v.iy) - ry <= y < Round(v.iy) - ry + (2 * ry + 1)) || !(0 <= y < v.ih)
    ensures RowsFrom(v, sx, sy, 0, v.iw)(y) == 0.0
  {
    hide Round, Tent, Distance, RowTaps;
    if 0 <= y < v.ih {
      OutOfReach(v.iy, sy, ry, y);
      assert 0.0 * SumFrom(RowTaps(v, sx, y), 0, v.iw) == 0.0;
    }
  }

  // ---- the kernel ----

  /** The image as pixel (ox, oy) of the output looks at it. */
  function ViewAt(mem: Memory, ib: int, iw: nat, ih: nat, fx: real, fy: real, ox: nat, oy: nat): View {
    View(mem, ib, iw, ih, false, ox as real * fx + fy / 2.0 - 0.5, oy as real * fy + fx / 2.0 - 0.5)
  }

  lemma WindowOfPixel(mem: Memory, ib: int, iw: nat, ih: nat, fx: real, fy: real, width: nat, antialias: bool,
                      ones: bool, ox: nat, oy: nat)
    requires fx > 0.0 && fy > 0.0 && width >= 1
    ensures Scale(antialias, fx) > 0.0 && Scale(antialias, fy) > 0.0
    ensures var sx, sy := if antialias then fx else 1.0, if antialias then fy else 1.0;
            var p := PointAt(mem, ib, iw, ih, fx, fy, antialias, ox, oy);
            var rx, ry := Radius(fx, Scale(antialias, fx), width), Radius(fy, Scale(antialias, fy), width);
            Of(WindowAcc(p, Round(p.ix) - rx, 2 * rx + 1, Round(p.iy) - ry, 2 * ry + 1), ones)
            == Common(Scale(antialias, fx), Scale(antialias, fy))
               * Total(ViewAt(mem, ib, iw, ih, fx, fy, ox, oy).(ones := ones), sx, sy)
  {
    hide Radius, Round, Scale, Total, WindowAcc, RowsFrom, Common;
    var sx, sy := if antialias then fx else 1.0, if antialias then fy else 1.0;
    var p := PointAt(mem, ib, iw, ih, fx, fy, antialias, ox, oy);
    var v := ViewAt(mem, ib, iw, ih, fx, fy, ox, oy).(ones := ones);
    RadiusReaches(antialias, fx, width);
    RadiusReaches(antialias, fy, width);
    var rx, ry := Radius(fx, p.ax, width), Radius(fy, p.ay, width);
    WindowIsSum(p, v, sx, sy, Round(p.ix) - rx, 2 * rx + 1, Round(p.iy) - ry, 2 * ry + 1);
    WindowIsTotal(v, sx, sy, rx, ry);
  }

  lemma Positive(a: real, b: real, c: real)
    requires a > 0.0 && b > 0.0 && c == a * b
    ensures c > 0.0
  {
  }

  lemma CommonPositive(ax: real, ay: real)
    requires ax > 0.0 && ay > 0.0
    ensures Common(ax, ay) > 0.0
  {
    Positive(ax, ax, ax * ax);
    Positive(ay, ay, ay * ay);
    Positive(ax * ax, ay * ay, Common(ax, ay));
  }

  lemma SameQuotient(a: Acc, c: real, s: real, w: real)
    requires c > 0.0 && a.sum == c * s && a.wsum == c * w
    ensures Quotient(a) == if w == 0.0 then 0.0 else s / w
  {
    SignOf(c, w);
    if w != 0.0 {
      var q := s / w;
      assert q * w == s;
      assert q * (c * w) == c * s;
    }
  }

  /** At every scale the value of the kernel is the mean of the whole image, weighted by how much closer than the reach
      each pixel is on each axis; the reach is the scale with antialiasing and one pixel without. */
  lemma KernelIsMean(mem: Memory, ib: int, iw: nat, ih: nat, fx: real, fy: real, width: nat, antialias: bool, ox: nat,
                     oy: nat)
    requires fx > 0.0 && fy > 0.0 && width >= 1
    ensures KernelAt(mem, ib, iw, ih, fx, fy, width, antialias, ox, oy)
            == Mean(ViewAt(mem, ib, iw, ih, fx, fy, ox, oy), if antialias then fx else 1.0,
                    if antialias then fy else 1.0)
  {
    hide Radius, Round, Scale, Total, WindowAcc, Source, Quotient, Common;
    var v := ViewAt(mem, ib, iw, ih, fx, fy, ox, oy);
    WindowOfPixel(mem, ib, iw, ih, fx, fy, width, antialias, false, ox, oy);
    WindowOfPixel(mem, ib, iw, ih, fx, fy, width, antialias, true, ox, oy);
    var sx, sy := if antialias then fx else 1.0, if antialias then fy else 1.0;
    CommonPositive(Scale(antialias, fx), Scale(antialias, fy));
    assert v.(ones := false) == v;
    var p := PointAt(mem, ib, iw, ih, fx, fy, antialias, ox, oy);
    var rx, ry := Radius(fx, Scale(antialias, fx), width), Radius(fy, Scale(antialias, fy), width);
    var acc := WindowAcc(p, Round(p.ix) - rx, 2 * rx + 1, Round(p.iy) - ry, 2 * ry + 1);
    SameQuotient(acc, Common(Scale(antialias, fx), Scale(antialias, fy)), Total(v, sx, sy),
                 Total(v.(ones := true), sx, sy));
  }

  // ---- a single bright pixel ----

  /** The image is one at (x1, y1) and zero elsewhere. */
  ghost predicate Lit(v: View, x1: int, y1: int) {
    && !v.ones && 0 <= x1 < v.iw && 0 <= y1 < v.ih
    && forall x: int, y: int :: 0 <= x < v.iw && 0 <= y < v.ih ==>
         ValueAt(v, x, y) == if x == x1 && y == y1 then 1.0 else 0.0
  }

  lemma LitRow(v: View, sx: real, x1: int, y1: int, y: int)
    requires Lit(v, x1, y1) && 0 <= y < v.ih
    ensures SumFrom(RowTaps(v, sx, y), 0, v.iw) == if y == y1 then Tent(sx, Distance(v.ix, x1)) else 0.0
  {
    hide Tent, Distance, ValueAt;
    var f, t := RowTaps(v, sx, y), Tent(sx, Distance(v.ix, x1));
    forall x: int | 0 <= x < 0 + v.iw
      ensures f(x) == if x == x1 then (if y == y1 then t else 0.0) else 0.0
    {
      assert ValueAt(v, x, y) == if x == x1 && y == y1 then 1.0 else 0.0;
    }
    SumFromPoint(f, x1, if y == y1 then t else 0.0, 0, v.iw);
  }

  lemma LitTotal(v: View, sx: real, sy: real, x1: int, y1: int)
    requires Lit(v, x1, y1)
    ensures Total(v, sx, sy) == Tent(sy, Distance(v.iy, y1)) * Tent(sx, Distance(v.ix, x1))
  {
    hide Tent, Distance, RowTaps, Lit;
    assert 0 <= y1 < v.ih by { LitInside(v, x1, y1); }
    var f := RowsFrom(v, sx, sy, 0, v.iw);
    var t := Tent(sy, Distance(v.iy, y1)) * Tent(sx, Distance(v.ix, x1));
    forall y: int | 0 <= y < 0 + v.ih ensures f(y) == if y == y1 then t else 0.0 {
      LitRow(v, sx, x1, y1, y);
    }
    SumFromPoint(f, y1, t, 0, v.ih);
  }

  lemma LitInside(v: View, x1: int, y1: int)
    requires Lit(v, x1, y1)
    ensures 0 <= x1 < v.iw && 0 <= y1 < v.ih
  {
  }

  // ---- where there is weight ----

  ghost predicate ColumnNear(v: View, sx: real) {
    exists x: int :: 0 <= x < v.iw && Distance(v.ix, x) < sx
  }

  ghost predicate RowNear(v: View, sy: real) {
    exists y: int :: 0 <= y < v.ih && Distance(v.iy, y) < sy
  }

  lemma TentSign(reach: real, d: real)
    ensures Tent(reach, d) >= 0.0 && (Tent(reach, d) > 0.0 <==> d < reach)
  {
  }

  lemma RowWeight(v: View, sx: real, y: int)
    requires v.ones
    ensures SumFrom(RowTaps(v, sx, y), 0, v.iw) >= 0.0
    ensures SumFrom(RowTaps(v, sx, y), 0, v.iw) > 0.0 <==> ColumnNear(v, sx)
  {
    hide Tent, Distance;
    var f := RowTaps(v, sx, y);
    forall x: int | 0 <= x < 0 + v.iw
      ensures f(x) >= 0.0 && (f(x) > 0.0 <==> Distance(v.ix, x) < sx)
    {
      TentSign(sx, Distance(v.ix, x));
    }
    SumFromNonNegative(f, 0, v.iw);
    if ColumnNear(v, sx) {
      var x: int :| 0 <= x < v.iw && Distance(v.ix, x) < sx;
      assert f(x) > 0.0;
    }
  }

  /** The weights add up to more than zero exactly when some column and some row are within reach. */
  lemma TotalWeight(v: View, sx: real, sy: real)
    requires v.ones
    ensures Total(v, sx, sy) >= 0.0
    ensures Total(v, sx, sy) > 0.0 <==> ColumnNear(v, sx) && RowNear(v, sy)
  {
    hide Tent, Distance, RowTaps, ColumnNear;
    var f := RowsFrom(v, sx, sy, 0, v.iw);
    forall y: int | 0 <= y < 0 + v.ih
      ensures f(y) >= 0.0 && (f(y) > 0.0 <==> Distance(v.iy, y) < sy && ColumnNear(v, sx))
    {
      var d := Distance(v.iy, y);
      TentSign(sy, d);
      RowWeight(v, sx, y);
      ProductSign(Tent(sy, d), SumFrom(RowTaps(v, sx, y), 0, v.iw), f(y));
    }
    SumFromNonNegative(f, 0, v.ih);
    if RowNear(v, sy) && ColumnNear(v, sx) {
      var y: int :| 0 <= y < v.ih && Distance(v.iy, y) < sy;
      assert f(y) > 0.0;
    }
  }

  lemma ProductSign(a: real, b: real, c: real)
    requires a >= 0.0 && b >= 0.0 && c == a * b
    ensures c >= 0.0 && (c > 0.0 <==> a > 0.0 && b > 0.0)
  {
    if a > 0.0 && b > 0.0 {
      Positive(a, b, c);
    }
  }

  /** The weight sum of a pixel is positive exactly when some column and some row of the image are within reach. */
  lemma WeightPositiveIff(mem: Memory, ib: int, iw: nat, ih: nat, fx: real, fy: real, width: nat, antialias: bool,
                          ox: nat, oy: nat)
    requires fx > 0.0 && fy > 0.0 && width >= 1
    ensures var v := ViewAt(mem, ib, iw, ih, fx, fy, ox, oy);
            WeightSum(mem, ib, iw, ih, fx, fy, width, antialias, ox, oy) > 0.0
            <==> ColumnNear(v, if antialias then fx else 1.0) && RowNear(v, if antialias then fy else 1.0)
  {
    hide Radius, Round, Scale, Total, WindowAcc, Source, Common, Distance;
    var v := ViewAt(mem, ib, iw, ih, fx, fy, ox, oy);
    var u := v.(ones := true);
    var sx, sy := if antialias then fx else 1.0, if antialias then fy else 1.0;
    WindowOfPixel(mem, ib, iw, ih, fx, fy, width, antialias, true, ox, oy);
    CommonPositive(Scale(antialias, fx), Scale(antialias, fy));
    TotalWeight(u, sx, sy);
    SignOf(Common(Scale(antialias, fx), Scale(antialias, fy)), Total(u, sx, sy));
    assert ColumnNear(u, sx) <==> ColumnNear(v, sx);
    assert RowNear(u, sy) <==> RowNear(v, sy);
  }

  /** So a pixel whose nearest input pixel is inside has weight whenever the reach is more than half a pixel, as it is
      without antialiasing and where both axes shrink. */
  lemma NearestHasWeight(mem: Memory, ib: int, iw: nat, ih: nat, fx: real, fy: real, width: nat, antialias: bool,
                         ox: nat, oy: nat)
    requires fx > 0.0 && fy > 0.0 && width >= 1 && (antialias ==> fx > 0.5 && fy > 0.5)
    requires var v := ViewAt(mem, ib, iw, ih, fx, fy, ox, oy); 0 <= Round(v.ix) < iw && 0 <= Round(v.iy) < ih
    ensures WeightSum(mem, ib, iw, ih, fx, fy, width, antialias, ox, oy) > 0.0
  {
    hide Round, Distance;
    var v := ViewAt(mem, ib, iw, ih, fx, fy, ox, oy);
    RoundNear(v.ix);
    RoundNear(v.iy);
    hide WeightSum;
    WeightPositiveIff(mem, ib, iw, ih, fx, fy, width, antialias, ox, oy);
  }

  /** A single bright pixel: the value is the product of how much closer than the reach it is on the two axes, as a part
      of the weights, and zero exactly when it is out of reach. */
  lemma SinglePixel(mem: Memory, ib: int, iw: nat, ih: nat, fx: real, fy: real, width: nat, antialias: bool, ox: nat,
                    oy: nat, x1: int, y1: int)
    requires fx > 0.0 && fy > 0.0 && width >= 1 && Lit(ViewAt(mem, ib, iw, ih, fx, fy, ox, oy), x1, y1)
    ensures var v := ViewAt(mem, ib, iw, ih, fx, fy, ox, oy);
            var sx, sy := if antialias then fx else 1.0, if antialias then fy else 1.0;
            var dx, dy := Distance(v.ix, x1), Distance(v.iy, y1);
            var value := KernelAt(mem, ib, iw, ih, fx, fy, width, antialias, ox, oy);
            && (value != 0.0 <==> dx < sx && dy < sy)
            && (dx < sx && dy < sy ==> value * Total(v.(ones := true), sx, sy) == (sx - dx) * (sy - dy))
  {
    hide Distance, Total, KernelAt, Lit, ColumnNear, RowNear;
    var v := ViewAt(mem, ib, iw, ih, fx, fy, ox, oy);
    var sx, sy := if antialias then fx else 1.0, if antialias then fy else 1.0;
    var dx, dy := Distance(v.ix, x1), Distance(v.iy, y1);
    KernelIsMean(mem, ib, iw, ih, fx, fy, width, antialias, ox, oy);
    LitTotal(v, sx, sy, x1, y1);
    TotalWeight(v.(ones := true), sx, sy);
    if dx < sx && dy < sy {
      LitNear(v, sx, sy, x1, y1);
    }
    TentSign(sx, dx);
    TentSign(sy, dy);
    PartOf(Tent(sx, dx), Tent(sy, dy), Total(v.(ones := true), sx, sy),
           KernelAt(mem, ib, iw, ih, fx, fy, width, antialias, ox, oy));
  }

  lemma LitNear(v: View, sx: real, sy: real, x1: int, y1: int)
    requires Lit(v, x1, y1) && Distance(v.ix, x1) < sx && Distance(v.iy, y1) < sy
    ensures ColumnNear(v.(ones := true), sx) && RowNear(v.(ones := true), sy)
  {
    hide Distance;
    var u := v.(ones := true);
    assert Distance(u.ix, x1) < sx && Distance(u.iy, y1) < sy;
  }

  lemma PartOf(t: real, u: real, w: real, q: real)
    requires t >= 0.0 && u >= 0.0 && w >= 0.0 && (t > 0.0 && u > 0.0 ==> w > 0.0)
    requires q == if w == 0.0 then 0.0 else u * t / w
    ensures q != 0.0 <==> t > 0.0 && u > 0.0
    ensures t > 0.0 && u > 0.0 ==> q * w == t * u
  {
    ProductSign(u, t, u * t);
    if w > 0.0 {
      assert q * w == u * t;
    }
  }

  /** With antialiasing, shrinking one axis while enlarging the other more than twice leaves gaps: in an image of ones,
      four times as wide and half as high, the first pixel is zero. */
  lemma AntialiasGap()
    ensures KernelAt((a: int) => 1.0, 0, 2, 2, 0.25, 2.0, 2, true, 0, 0) == 0.0
    ensures Round(ViewAt((a: int) => 1.0, 0, 2, 2, 0.25, 2.0, 0, 0).ix) == 1
  {
    var mem: Memory := (a: int) => 1.0;
    var v := ViewAt(mem, 0, 2, 2, 0.25, 2.0, 0, 0);
    assert v.ix == 0.5;
    forall x: int | 0 <= x < 2 ensures Distance(v.ix, x) >= 0.25 {
      assert x == 0 || x == 1;
    }
    hide KernelAt, Total;
    KernelIsMean(mem, 0, 2, 2, 0.25, 2.0, 2, true, 0, 0);
    TotalWeight(v.(ones := true), 0.25, 2.0);
  }
}
