/** The table-driven path that enlarges four times: four output pixels to a vector, in blocks of eight columns and
    then of four, with shuffles that drop the taps outside the image at the left and right borders. */
module ResampleFast {
  import opened Canvas
  import opened Nonlinear
  import opened ResampleNearest
  import opened ResampleKernel

  // ---- vectors of four ----

  type Vec = v: seq<real> | |v| == 4 witness [0.0, 0.0, 0.0, 0.0]

  const ZERO: Vec := [0.0, 0.0, 0.0, 0.0]

  function Load(x: real): Vec {
    [x, 0.0, 0.0, 0.0]
  }

  function Shuffle(a: Vec, b: Vec, i0: nat, i1: nat, i2: nat, i3: nat): Vec
    requires i0 < 4 && i1 < 4 && i2 < 4 && i3 < 4
  {
    [a[i0], a[i1], b[i2], b[i3]]
  }

  function MulV(a: Vec, b: Vec): Vec {
    [a[0] * b[0], a[1] * b[1], a[2] * b[2], a[3] * b[3]]
  }

  function AddV(a: Vec, b: Vec): Vec {
    [a[0] + b[0], a[1] + b[1], a[2] + b[2], a[3] + b[3]]
  }

  function DivV(a: Vec, b: Vec): Vec {
    [Quotient(Acc(a[0], b[0])), Quotient(Acc(a[1], b[1])), Quotient(Acc(a[2], b[2])), Quotient(Acc(a[3], b[3]))]
  }

  /** Row i of the weight table, vector v. The eight-wide table holds each vector twice. */
  function Table(i: nat, v: nat): Vec
    requires i < 4 && v < 4
  {
    if i == 0 then
      if v == 0 then [0.140625, 0.046875, 0.046875, 0.140625]
      else if v == 1 then [0.234375, 0.328125, 0.328125, 0.234375]
      else if v == 2 then [0.234375, 0.078125, 0.078125, 0.234375]
      else [0.390625, 0.546875, 0.546875, 0.390625]
    else if i == 1 then
      if v == 0 then [0.046875, 0.015625, 0.015625, 0.046875]
      else if v == 1 then [0.078125, 0.109375, 0.109375, 0.078125]
      else if v == 2 then [0.328125, 0.109375, 0.109375, 0.328125]
      else [0.546875, 0.765625, 0.765625, 0.546875]
    else if i == 2 then
      if v == 0 then [0.328125, 0.109375, 0.109375, 0.328125]
      else if v == 1 then [0.546875, 0.765625, 0.765625, 0.546875]
      else if v == 2 then [0.046875, 0.015625, 0.015625, 0.046875]
      else [0.078125, 0.109375, 0.109375, 0.078125]
    else
      if v == 0 then [0.234375, 0.078125, 0.078125, 0.234375]
      else if v == 1 then [0.390625, 0.546875, 0.546875, 0.390625]
      else if v == 2 then [0.140625, 0.046875, 0.046875, 0.140625]
      else [0.234375, 0.328125, 0.328125, 0.234375]
  }

  /** The rows of source pixels: the first has none above it, the last none below. */
  datatype Part = Top | Middle | Bottom

  /** The weights of vector v for output row i of a block, after the shuffles at the borders. */
  function Coefs(i: nat, v: nat, part: Part, maskLeft: bool, maskRight: bool): Vec
    requires i < 4 && v < 4
  {
    var c := if (part.Top? && i < 2 && v < 2) || (part.Bottom? && i >= 2 && v >= 2) then ZERO else Table(i, v);
    if v == 1 || v == 3 then c
    else if maskLeft then Shuffle(ZERO, c, 0, 0, 1, 3)
    else if maskRight then Shuffle(c, ZERO, 3, 1, 0, 0)
    else c
  }

  function Read(mem: Memory, ib: int, iw: nat, part: Part, j: int, y: int, x: int): real {
    if (part.Top? && y < j) || (part.Bottom? && y > j) then 0.0 else mem(ib + y * iw + x)
  }

  /** The four output pixels of row i over source pixel (k, j). */
  function Half(mem: Memory, ib: int, iw: nat, part: Part, k: int, j: int, i: nat, maskLeft: bool, maskRight: bool,
          divide: bool): Vec
    requires i < 4
  {
    var upper, lower := if i < 2 then j - 1 else j, if i < 2 then j else j + 1;
    var s0 := Shuffle(Load(Read(mem, ib, iw, part, j, upper, k - 1)), Load(Read(mem, ib, iw, part, j, upper, k + 1)),
      0, 0, 0, 0);
    var s1 := Shuffle(Load(Read(mem, ib, iw, part, j, upper, k)), Load(Read(mem, ib, iw, part, j, upper, k)), 0, 0, 0,
      0);
    var s2 := Shuffle(Load(Read(mem, ib, iw, part, j, lower, k - 1)), Load(Read(mem, ib, iw, part, j, lower, k + 1)),
      0, 0, 0, 0);
    var s3 := Shuffle(Load(Read(mem, ib, iw, part, j, lower, k)), Load(Read(mem, ib, iw, part, j, lower, k)), 0, 0, 0,
      0);
    var c0, c1 := Coefs(i, 0, part, maskLeft, maskRight), Coefs(i, 1, part, maskLeft, maskRight);
    var c2, c3 := Coefs(i, 2, part, maskLeft, maskRight), Coefs(i, 3, part, maskLeft, maskRight);
    var res := AddV(AddV(MulV(s0, c0), MulV(s1, c1)), AddV(MulV(s2, c2), MulV(s3, c3)));
    var wei := AddV(AddV(c0, c1), AddV(c2, c3));
    if divide then DivV(res, wei) else res
  }

  // ---- the weights ----

  /** The weight of the upper of the two source rows that output row i uses, and of the lower. */
  function Upper(i: nat, part: Part): real {
    if i < 2 then (if part.Top? then 0.0 else Side(i)) else 1.0 - Side(i)
  }

  function Lower(i: nat, part: Part): real {
    if i < 2 then 1.0 - Side(i) else if part.Bottom? then 0.0 else Side(i)
  }

  function Near(p: nat, maskLeft: bool, maskRight: bool): real {
    if (maskLeft && p < 2) || (!maskLeft && maskRight && p >= 2) then 0.0 else Side(p)
  }

  /** The table entries are products of triangle weights: every entry of every row. */
  lemma TableProducts(i: nat, p: nat)
    requires i < 4 && p < 4
    ensures var u, l, s := if i < 2 then Side(i) else 1.0 - Side(i), if i < 2 then 1.0 - Side(i) else Side(i), Side(p);
            && Table(i, 0)[p] == u * s && Table(i, 1)[p] == u * (1.0 - s)
            && Table(i, 2)[p] == l * s && Table(i, 3)[p] == l * (1.0 - s)
  {
    if p == 0 || p == 3 {
      assert Side(p) == 0.375;
    } else {
      assert Side(p) == 0.125;
    }
  }

  /** After the shuffles, exactly the taps outside the image have lost their weight. */
  lemma CoefProducts(i: nat, part: Part, maskLeft: bool, maskRight: bool, p: nat)
    requires i < 4 && p < 4
    ensures var u, l, n, s := Upper(i, part), Lower(i, part), Near(p, maskLeft, maskRight), Side(p);
            && Coefs(i, 0, part, maskLeft, maskRight)[p] == u * n
               && Coefs(i, 1, part, maskLeft, maskRight)[p] == u * (1.0 - s)
            && Coefs(i, 2, part, maskLeft, maskRight)[p] == l * n
               && Coefs(i, 3, part, maskLeft, maskRight)[p] == l * (1.0 - s)
  {
    hide Table;
    TableProducts(i, p);
    TableProducts(i, 0);
    TableProducts(i, 1);
    TableProducts(i, 2);
    TableProducts(i, 3);
  }

  /** One lane: four taps with the weights of that lane. */
  lemma Lane(mem: Memory, ib: int, iw: nat, part: Part, k: int, j: int, i: nat, maskLeft: bool, maskRight: bool,
          divide: bool, p: nat)
    requires i < 4 && p < 4
    ensures var upper, lower, x := if i < 2 then j - 1 else j, if i < 2 then j else j + 1,
              if p < 2 then k - 1 else k + 1;
            var a, b := Coefs(i, 0, part, maskLeft, maskRight)[p], Coefs(i, 1, part, maskLeft, maskRight)[p];
            var c, d := Coefs(i, 2, part, maskLeft, maskRight)[p], Coefs(i, 3, part, maskLeft, maskRight)[p];
            var sum := Read(mem, ib, iw, part, j, upper, x) * a + Read(mem, ib, iw, part, j, upper, k) * b
                       + (Read(mem, ib, iw, part, j, lower, x) * c + Read(mem, ib, iw, part, j, lower, k) * d);
            Half(mem, ib, iw, part, k, j, i, maskLeft, maskRight, divide)[p]
              == if divide then Quotient(Acc(sum, a + b + (c + d))) else sum
  {
    hide Coefs, Read, MulV, AddV, DivV, Shuffle, Load;
    forall a: Vec, b: Vec
      ensures MulV(a, b)[p] == a[p] * b[p] && AddV(a, b)[p] == a[p] + b[p] && DivV(a, b)[p] == Quotient(Acc(a[p], b[p]))
    {
      Lanewise(a, b, p);
    }
    forall x: real, y: real
      ensures Shuffle(Load(x), Load(y), 0, 0, 0, 0)[p] == if p < 2 then x else y
    {
      Spread(x, y, p);
    }
  }

  lemma Lanewise(a: Vec, b: Vec, p: nat)
    requires p < 4
    ensures MulV(a, b)[p] == a[p] * b[p] && AddV(a, b)[p] == a[p] + b[p] && DivV(a, b)[p] == Quotient(Acc(a[p], b[p]))
  {
    hide MulV, AddV, DivV, Quotient;
    MulLane(a, b, p);
    AddLane(a, b, p);
    DivLane(a, b, p);
  }

  lemma MulLane(a: Vec, b: Vec, p: nat)
    requires p < 4
    ensures MulV(a, b)[p] == a[p] * b[p]
  {
    if p == 0 {
      assert MulV(a, b)[0] == a[0] * b[0];
    } else if p == 1 {
      assert MulV(a, b)[1] == a[1] * b[1];
    } else if p == 2 {
      assert MulV(a, b)[2] == a[2] * b[2];
    } else {
      assert MulV(a, b)[3] == a[3] * b[3];
    }
  }

  lemma AddLane(a: Vec, b: Vec, p: nat)
    requires p < 4
    ensures AddV(a, b)[p] == a[p] + b[p]
  {
  }

  lemma DivLane(a: Vec, b: Vec, p: nat)
    requires p < 4
    ensures DivV(a, b)[p] == Quotient(Acc(a[p], b[p]))
  {
    hide Quotient;
  }

  lemma Spread(x: real, y: real, p: nat)
    requires p < 4
    ensures Shuffle(Load(x), Load(y), 0, 0, 0, 0)[p] == if p < 2 then x else y
  {
  }

  /** The place of a row of source pixels in the image. */
  ghost predicate PartOf(part: Part, j: nat, ih: nat) {
    && j < ih && (part.Top? <==> j == 0) && (part.Bottom? <==> j == ih - 1)
  }

  /** The four output rows of a band use the two source rows that the triangle reaches, with its weights. */
  lemma RowsUsed(part: Part, j: nat, ih: nat, i: nat)
    requires PartOf(part, j, ih) && i < 4
    ensures (4 * j + i) / 4 == j && (4 * j + i) % 4 == i
    ensures i < 2 ==>
              && Neighbour(4 * j + i) == j - 1
              && Upper(i, part) == SideWeight(4 * j + i, ih) && Lower(i, part) == 1.0 - Side(i)
    ensures i >= 2 ==>
              && Neighbour(4 * j + i) == j + 1
              && Lower(i, part) == SideWeight(4 * j + i, ih) && Upper(i, part) == 1.0 - Side(i)
  {
    assert (4 * j + i) / 4 == j && (4 * j + i) % 4 == i;
  }

  lemma ColumnsUsed(k: nat, iw: nat, p: nat, maskLeft: bool, maskRight: bool)
    requires k < iw && p < 4 && (maskLeft <==> k == 0) && (!maskLeft ==> (maskRight <==> k == iw - 1))
             && (maskLeft ==> k != iw - 1)
    ensures (4 * k + p) / 4 == k && (4 * k + p) % 4 == p
    ensures Neighbour(4 * k + p) == (if p < 2 then k - 1 else k + 1)
    ensures Near(p, maskLeft, maskRight) == SideWeight(4 * k + p, iw)
  {
    assert (4 * k + p) / 4 == k && (4 * k + p) % 4 == p;
  }

  /** Four products of weights, grouped by rows; each tap is weighted by its row and its column. */
  lemma Group(u: real, l: real, n: real, c: real, r0: real, r1: real, r2: real, r3: real)
    ensures r0 * (u * n) + r1 * (u * c) + (r2 * (l * n) + r3 * (l * c)) == u * (n * r0 + c * r1) + l * (n * r2 + c * r3)
    ensures u * n + u * c + (l * n + l * c) == (n + c) * (u + l)
  {
    Three(r0, u, n);
    Three(r1, u, c);
    Three(r2, l, n);
    Three(r3, l, c);
    Distribute(u, n, c, r0, r1);
    Distribute(l, n, c, r2, r3);
    Distribute(n + c, u, l, 1.0, 1.0);
    Distribute(u, n, c, 1.0, 1.0);
    Distribute(l, n, c, 1.0, 1.0);
  }

  lemma Three(r: real, a: real, b: real)
    ensures r * (a * b) == a * (b * r)
  {
  }

  /** Which of the two source rows comes first does not matter, nor what a row without weight holds. */
  lemma MixRows(n: real, c: real, u: real, l: real, r0: real, r1: real, r2: real, r3: real)
    ensures Mix(n, c, u, l, r0, r1, r2, r3) == Mix(n, c, l, u, r2, r3, r0, r1)
    ensures u == 0.0 ==> forall a: real, b: real :: Mix(n, c, u, l, a, b, r2, r3) == Mix(n, c, u, l, r0, r1, r2, r3)
  {
    assert (n + c) * (u + l) == (n + c) * (l + u);
    forall a: real, b: real | u == 0.0
      ensures Mix(n, c, u, l, a, b, r2, r3) == Mix(n, c, u, l, r0, r1, r2, r3)
    {
      assert u * (n * a + c * b) == 0.0 && u * (n * r0 + c * r1) == 0.0;
    }
  }

  /** The four taps of a lane are the four taps of the blend. */
  lemma BlendByRows(mem: Memory, ib: int, iw: nat, ih: nat, part: Part, k: nat, j: nat, i: nat,
                    maskLeft: bool, maskRight: bool, p: nat)
    requires PartOf(part, j, ih) && i < 4 && p < 4
    requires k < iw && (maskLeft <==> k == 0) && (!maskLeft ==> (maskRight <==> k == iw - 1))
             && (maskLeft ==> k != iw - 1)
    ensures var u, l, n, c := Upper(i, part), Lower(i, part), Near(p, maskLeft, maskRight), 1.0 - Side(p);
            var upper, lower, x := if i < 2 then j - 1 else j, if i < 2 then j else j + 1,
              if p < 2 then k - 1 else k + 1;
            Blend(mem, ib, iw, ih, 4 * k + p, 4 * j + i)
            == Mix(n, c, u, l, Read(mem, ib, iw, part, j, upper, x), Read(mem, ib, iw, part, j, upper, k),
                   Read(mem, ib, iw, part, j, lower, x), Read(mem, ib, iw, part, j, lower, k))
  {
    hide Mix, Neighbour, SideWeight, Side, Near;
    var u, l, n, c := Upper(i, part), Lower(i, part), Near(p, maskLeft, maskRight), 1.0 - Side(p);
    var upper, lower, x := if i < 2 then j - 1 else j, if i < 2 then j else j + 1, if p < 2 then k - 1 else k + 1;
    RowsUsed(part, j, ih, i);
    ColumnsUsed(k, iw, p, maskLeft, maskRight);
    var r0, r1 := Read(mem, ib, iw, part, j, upper, x), Read(mem, ib, iw, part, j, upper, k);
    var r2, r3 := Read(mem, ib, iw, part, j, lower, x), Read(mem, ib, iw, part, j, lower, k);
    MixRows(n, c, u, l, r0, r1, r2, r3);
    MixRows(n, c, l, u, r2, r3, r0, r1);
  }

  /** A half block is the blend of four taps: on the borders because the taps outside have no weight and the sum is
      divided by the weights that are left, inside because the weights add up to one and need no division. What
      memory holds outside the image does not matter. */
  lemma HalfIsBlend(mem: Memory, ib: int, iw: nat, ih: nat, part: Part, k: nat, j: nat, i: nat,
                    maskLeft: bool, maskRight: bool, divide: bool, p: nat)
    requires PartOf(part, j, ih) && i < 4 && p < 4
    requires k < iw && (maskLeft <==> k == 0) && (!maskLeft ==> (maskRight <==> k == iw - 1))
             && (maskLeft ==> k != iw - 1)
    requires !divide ==> part.Middle? && !maskLeft && !maskRight
    ensures Half(mem, ib, iw, part, k, j, i, maskLeft, maskRight, divide)[p]
            == Blend(mem, ib, iw, ih, 4 * k + p, 4 * j + i)
  {
    hide Coefs, Half, Table, Blend, Upper, Lower, Near, Side, Read;
    var u, l, n, c := Upper(i, part), Lower(i, part), Near(p, maskLeft, maskRight), 1.0 - Side(p);
    var upper, lower, x := if i < 2 then j - 1 else j, if i < 2 then j else j + 1, if p < 2 then k - 1 else k + 1;
    Lane(mem, ib, iw, part, k, j, i, maskLeft, maskRight, divide, p);
    CoefProducts(i, part, maskLeft, maskRight, p);
    BlendByRows(mem, ib, iw, ih, part, k, j, i, maskLeft, maskRight, p);
    var r0, r1 := Read(mem, ib, iw, part, j, upper, x), Read(mem, ib, iw, part, j, upper, k);
    var r2, r3 := Read(mem, ib, iw, part, j, lower, x), Read(mem, ib, iw, part, j, lower, k);
    Group(u, l, n, c, r0, r1, r2, r3);
    if !divide {
      InsideWeights(i, part, p);
      assert (n + c) * (u + l) == 1.0;
    }
  }

  /** Away from the borders the weights add up to one, so the division can be left out. */
  lemma InsideWeights(i: nat, part: Part, p: nat)
    requires part.Middle?
    ensures Near(p, false, false) + (1.0 - Side(p)) == 1.0 && Upper(i, part) + Lower(i, part) == 1.0
  {
  }

  // ---- the blocks ----

  /** Eight columns: two halves over neighbouring source pixels. The border tests are exclusive, and inner rows
      divide in the first and the last block only. */
  function Block8(mem: Memory, ib: int, iw: nat, part: Part, ox: nat, ow: nat, j: int, i: nat): (lanes: seq<real>)
    requires i < 4
    ensures |lanes| == 8
  {
    var k, divide := ox / 4, !part.Middle? || ox == 0 || ox == ow - 8;
    Half(mem, ib, iw, part, k, j, i, ox == 0, false, divide)
    + Half(mem, ib, iw, part, k + 1, j, i, false, ox != 0 && ox == ow - 8, divide)
  }

  /** Four columns. */
  function Block4(mem: Memory, ib: int, iw: nat, part: Part, ox: nat, ow: nat, j: int, i: nat): (lanes: seq<real>)
    requires i < 4
    ensures |lanes| == 4
  {
    Half(mem, ib, iw, part, ox / 4, j, i, ox == 0, ox != 0 && ox == ow - 4, !part.Middle? || ox == 0 || ox == ow - 4)
  }

  lemma Block4Right(mem: Memory, ib: int, iw: nat, ih: nat, part: Part, ox: nat, j: nat, i: nat, row: nat, x: nat)
    requires PartOf(part, j, ih) && i < 4 && iw >= 2 && ox % 4 == 0 && ox + 4 <= 4 * iw && row == 4 * j + i
             && ox <= x < ox + 4
    ensures Block4(mem, ib, iw, part, ox, 4 * iw, j, i)[x - ox] == Blend(mem, ib, iw, ih, x, row)
  {
    hide Half, Blend;
    HalfIsBlend(mem, ib, iw, ih, part, ox / 4, j, i, ox == 0, ox != 0 && ox == 4 * iw - 4,
                !part.Middle? || ox == 0 || ox == 4 * iw - 4, x - ox);
  }

  lemma Block8Right(mem: Memory, ib: int, iw: nat, ih: nat, part: Part, ox: nat, j: nat, i: nat, row: nat, x: nat)
    requires PartOf(part, j, ih) && i < 4 && iw >= 3 && ox % 8 == 0 && ox + 8 <= 4 * iw && row == 4 * j + i
             && ox <= x < ox + 8
    ensures Block8(mem, ib, iw, part, ox, 4 * iw, j, i)[x - ox] == Blend(mem, ib, iw, ih, x, row)
  {
    hide Half, Blend, PartOf;
    if x < ox + 4 {
      LowHalf(mem, ib, iw, ih, part, ox, j, i, row, x);
    } else {
      HighHalf(mem, ib, iw, ih, part, ox, j, i, row, x);
    }
  }

  lemma LowHalf(mem: Memory, ib: int, iw: nat, ih: nat, part: Part, ox: nat, j: nat, i: nat, row: nat, x: nat)
    requires PartOf(part, j, ih) && i < 4 && iw >= 3 && ox % 8 == 0 && ox + 8 <= 4 * iw && row == 4 * j + i
             && ox <= x < ox + 4
    ensures Block8(mem, ib, iw, part, ox, 4 * iw, j, i)[x - ox] == Blend(mem, ib, iw, ih, x, row)
  {
    hide Half, Blend;
    HalfIsBlend(mem, ib, iw, ih, part, ox / 4, j, i, ox == 0, false,
      !part.Middle? || ox == 0 || ox == 4 * iw - 8, x - ox);
  }

  lemma HighHalf(mem: Memory, ib: int, iw: nat, ih: nat, part: Part, ox: nat, j: nat, i: nat, row: nat, x: nat)
    requires PartOf(part, j, ih) && i < 4 && iw >= 3 && ox % 8 == 0 && ox + 8 <= 4 * iw && row == 4 * j + i
             && ox + 4 <= x < ox + 8
    ensures Block8(mem, ib, iw, part, ox, 4 * iw, j, i)[x - ox] == Blend(mem, ib, iw, ih, x, row)
  {
    hide Half, Blend;
    HalfIsBlend(mem, ib, iw, ih, part, ox / 4 + 1, j, i, false, ox != 0 && ox == 4 * iw - 8,
                !part.Middle? || ox == 0 || ox == 4 * iw - 8, x - ox - 4);
  }

  // ---- the path as a picture ----

  function PartAt(j: nat, ih: nat): Part {
    if j == 0 then Top else if j == ih - 1 then Bottom else Middle
  }

  /** What the path puts into an output pixel: a lane of its block of eight while these fit, if the build has them, and
      otherwise of its block of four. */
  function PathAt(mem: Memory, ib: int, iw: nat, ih: nat, wide: bool, x: nat, y: nat): real {
    var j, i := y / 4, y % 4;
    if wide && 8 * (x / 8) + 8 <= 4 * iw then Block8(mem, ib, iw, PartAt(j, ih), 8 * (x / 8), 4 * iw, j, i)[x % 8]
    else Block4(mem, ib, iw, PartAt(j, ih), 4 * (x / 4), 4 * iw, j, i)[x % 4]
  }

  function Path(mem: Memory, ib: int, iw: nat, ih: nat, wide: bool): Picture {
    (x: nat, y: nat) => PathAt(mem, ib, iw, ih, wide, x, y)
  }

  /** In an image of enough columns the path puts the blend into every pixel. */
  lemma PathIsBlend(mem: Memory, ib: int, iw: nat, ih: nat, wide: bool, x: nat, y: nat)
    requires ih >= 2 && iw >= (if wide then 3 else 2) && x < 4 * iw && y < 4 * ih
    ensures PathAt(mem, ib, iw, ih, wide, x, y) == Blend(mem, ib, iw, ih, x, y)
  {
    hide Block8, Block4, Blend;
    var j, i := y / 4, y % 4;
    if wide && 8 * (x / 8) + 8 <= 4 * iw {
      Block8Right(mem, ib, iw, ih, PartAt(j, ih), 8 * (x / 8), j, i, y, x);
    } else {
      Block4Right(mem, ib, iw, ih, PartAt(j, ih), 4 * (x / 4), j, i, y, x);
    }
  }

  lemma PathIsKernel(mem: Memory, ib: int, iw: nat, ih: nat, wide: bool, x: nat, y: nat)
    requires ih >= 2 && iw >= (if wide then 3 else 2) && x < 4 * iw && y < 4 * ih
    ensures PathAt(mem, ib, iw, ih, wide, x, y) == KernelAt(mem, ib, iw, ih, 0.25, 0.25, 2, false, x, y)
  {
    hide *;
    PathIsBlend(mem, ib, iw, ih, wide, x, y);
    assert x / 4 < iw && y / 4 < ih;
    KernelIsBlend(mem, ib, iw, ih, 2, x, y);
  }

  // ---- the loops ----

  const SIZE_T: nat := 0x1_0000_0000_0000_0000

  /** Subtraction of unsigned sizes, which wraps round below zero. */
  function Minus(a: nat, b: nat): nat
    requires a < SIZE_T && b < SIZE_T
  {
    if a >= b then a - b else SIZE_T + a - b
  }

  /** Whether the loop with this step over an axis of this size comes to o. */
  predicate Visits(o: nat, step: nat, last: nat)
    requires step > 0
  {
    o % step == 0 && o <= last
  }

  /** Sizes count modulo 2^64. */
  lemma MinusWraps(a: nat, b: nat)
    requires a < SIZE_T && b < SIZE_T
    ensures Minus(a, b) == (a - b) % SIZE_T
  {
  }

  /** Where the subtraction does not wrap, the loop comes to exactly the blocks that fit. */
  lemma VisitsWhole(o: nat, step: nat, size: nat)
    requires 0 < step <= size < SIZE_T
    ensures Visits(o, step, Minus(size, step)) <==> o % step == 0 && o + step <= size
  {
  }

  /** Every block that the loops come to lies inside the plane. */
  ghost predicate StaysInside(iw: nat, ih: nat, wide: bool)
    requires 4 * iw < SIZE_T && 4 * ih < SIZE_T
  {
    && (wide ==> forall ox: nat :: Visits(ox, 8, Minus(4 * iw, 8)) ==> ox + 8 <= 4 * iw)
    && (forall ox: nat :: Visits(ox, 4, Minus(4 * iw, 4)) ==> ox + 4 <= 4 * iw)
    && (forall oy: nat :: Visits(oy, 4, Minus(4 * ih, 8)) && oy >= 4 ==> oy + 4 <= 4 * ih)
  }

  /** One column has no room for a block of eight, and one row none for a band between the first and the last: the
      bound of the loop wraps round. */
  lemma StaysInsideIff(iw: nat, ih: nat, wide: bool)
    requires 1 <= iw && 1 <= ih && 4 * iw < SIZE_T && 4 * ih < SIZE_T
    ensures StaysInside(iw, ih, wide) <==> ih >= 2 && iw >= (if wide then 2 else 1)
  {
    if wide && iw == 1 {
      assert Visits(0, 8, Minus(4, 8));
    }
    if ih == 1 {
      assert Visits(4, 4, Minus(4, 8));
    }
  }

  /** The four output rows of one block: block n of eight, or block n of four behind m whole blocks of eight. */
  method PaintBlock(mem: Memory, ib: int, iw: nat, ih: nat, wide: bool, eight: bool, out: array<real>,
          ghost times: seq<nat>, ob: nat, r: nat, ox: nat, ghost n: nat, ghost m: nat)
    returns (ghost times': seq<nat>)
    requires r < ih && (eight ==> wide && ox == 8 * n && ox + 8 <= 4 * iw)
    requires !eight ==> ox == 4 * n && ox + 4 <= 4 * iw && (wide ==> 8 * m <= ox && 4 * iw < 8 * m + 8)
    requires Painted(out[..], times, ob, 4 * iw, 4 * ih, Path(mem, ib, iw, ih, wide), 4, r, ox,
             if eight then 8 else 4, 0)
    modifies out
    ensures Painted(out[..], times', ob, 4 * iw, 4 * ih, Path(mem, ib, iw, ih, wide), 4, r,
                    ox + (if eight then 8 else 4), if eight then 8 else 4, 0)
    ensures Framed(out[..], old(out[..]), ob, 4 * iw, 4 * ih)
  {
    hide *;
    var ow, oh, part := 4 * iw, 4 * ih, PartAt(r, ih);
    var w := if eight then 8 else 4;
    ghost var pic := Path(mem, ib, iw, ih, wide);
    times' := times;
    FramedSame(out[..], ob, ow, oh);
    for i := 0 to 4
      invariant Painted(out[..], times', ob, ow, oh, pic, 4, r, ox, w, i) && Framed(out[..], old(out[..]), ob, ow, oh)
    {
      var lanes := if eight then Block8(mem, ib, iw, part, ox, ow, r, i) else Block4(mem, ib, iw, part, ox, ow, r, i);
      var row := 4 * r + i;
      forall x: nat | ox <= x < ox + w
        ensures lanes[x - ox] == pic(x, row)
      {
        if eight {
          Lane8(mem, ib, iw, ih, n, x - ox, r, i, x, row);
        } else {
          Lane4(mem, ib, iw, ih, wide, n, m, x - ox, r, i, x, row);
        }
      }
      ghost var was := out[..];
      times' := Store(out, lanes, times', ob, ow, oh, pic, 4, r, ox, i, row);
      FramedTrans(old(out[..]), was, out[..], ob, ow, oh);
    }
    NextBlock(out[..], times', ob, ow, oh, pic, 4, r, ox, w, w);
  }

  lemma Lane8(mem: Memory, ib: int, iw: nat, ih: nat, n: nat, l: nat, r: nat, i: nat, x: nat, y: nat)
    requires i < 4 && l < 8 && 8 * n + 8 <= 4 * iw && x == 8 * n + l && y == 4 * r + i
    ensures Block8(mem, ib, iw, PartAt(r, ih), 8 * n, 4 * iw, r, i)[l] == Path(mem, ib, iw, ih, true)(x, y)
  {
    DivModUnique(x, 8, n, l);
    DivModUnique(y, 4, r, i);
    hide Block8, Block4, PartAt;
  }

  lemma Lane4(mem: Memory, ib: int, iw: nat, ih: nat, wide: bool, n: nat, m: nat, l: nat, r: nat, i: nat, x: nat,
          y: nat)
    requires i < 4 && l < 4 && x == 4 * n + l && y == 4 * r + i
    requires wide ==> 8 * m <= 4 * n && 4 * iw < 8 * m + 8
    ensures Block4(mem, ib, iw, PartAt(r, ih), 4 * n, 4 * iw, r, i)[l] == Path(mem, ib, iw, ih, wide)(x, y)
  {
    DivModUnique(x, 4, n, l);
    DivModUnique(y, 4, r, i);
    hide Block8, Block4, PartAt;
    assert 8 * (x / 8) + 8 > x;
    assert wide ==> x / 8 >= m;
  }

  /** The first loop of a band: blocks of eight while they fit. */
  method WideBlocks(mem: Memory, ib: int, iw: nat, ih: nat, out: array<real>, ghost times: seq<nat>, ob: nat, r: nat,
          last: nat)
    returns (ox: nat, ghost times': seq<nat>, ghost m: nat)
    requires r < ih && iw >= 2 && last == 4 * iw - 8
    requires Painted(out[..], times, ob, 4 * iw, 4 * ih, Path(mem, ib, iw, ih, true), 4, r, 0, 8, 0)
    modifies out
    ensures ox == 8 * m <= 4 * iw < 8 * m + 8
    ensures Painted(out[..], times', ob, 4 * iw, 4 * ih, Path(mem, ib, iw, ih, true), 4, r, ox, 8, 0)
    ensures Framed(out[..], old(out[..]), ob, 4 * iw, 4 * ih)
  {
    hide *;
    var ow, oh := 4 * iw, 4 * ih;
    ghost var pic := Path(mem, ib, iw, ih, true);
    FramedSame(out[..], ob, ow, oh);
    times' := times;
    ox, m := 0, 0;
    while ox <= last
      invariant ox == 8 * m <= ow
      invariant Painted(out[..], times', ob, ow, oh, pic, 4, r, ox, 8, 0) && Framed(out[..], old(out[..]), ob, ow, oh)
    {
      ghost var was := out[..];
      times' := PaintBlock(mem, ib, iw, ih, true, true, out, times', ob, r, ox, m, 0);
      FramedTrans(old(out[..]), was, out[..], ob, ow, oh);
      ox, m := ox + 8, m + 1;
    }
  }

  /** The second loop: blocks of four from there on. */
  method NarrowBlocks(mem: Memory, ib: int, iw: nat, ih: nat, wide: bool, out: array<real>, ghost times: seq<nat>,
                      ob: nat, r: nat, start: nat, last: nat, ghost m: nat)
    returns (ghost times': seq<nat>)
    requires r < ih && iw >= 1 && last == 4 * iw - 4 && start == 8 * m <= 4 * iw && (wide ==> 4 * iw < 8 * m + 8)
    requires Painted(out[..], times, ob, 4 * iw, 4 * ih, Path(mem, ib, iw, ih, wide), 4, r, start, 4, 0)
    modifies out
    ensures Painted(out[..], times', ob, 4 * iw, 4 * ih, Path(mem, ib, iw, ih, wide), 4, r, 4 * iw, 4, 0)
    ensures Framed(out[..], old(out[..]), ob, 4 * iw, 4 * ih)
  {
    hide *;
    var ow, oh := 4 * iw, 4 * ih;
    ghost var pic := Path(mem, ib, iw, ih, wide);
    FramedSame(out[..], ob, ow, oh);
    times' := times;
    var ox := start;
    ghost var n := 2 * m;
    while ox <= last
      invariant start <= ox == 4 * n <= ow
      invariant Painted(out[..], times', ob, ow, oh, pic, 4, r, ox, 4, 0) && Framed(out[..], old(out[..]), ob, ow, oh)
    {
      ghost var was := out[..];
      times' := PaintBlock(mem, ib, iw, ih, wide, false, out, times', ob, r, ox, n, m);
      FramedTrans(old(out[..]), was, out[..], ob, ow, oh);
      ox, n := ox + 4, n + 1;
    }
  }

  /** The four output rows over one row of source pixels: blocks of eight while they fit, if the build has them,
      then blocks of four. */
  method PaintBand(mem: Memory, ib: int, iw: nat, ih: nat, wide: bool, out: array<real>, ghost times: seq<nat>,
          ob: nat, r: nat)
    returns (ghost times': seq<nat>)
    requires r < ih && iw >= (if wide then 2 else 1) && 4 * iw < SIZE_T
    requires Painted(out[..], times, ob, 4 * iw, 4 * ih, Path(mem, ib, iw, ih, wide), 4, r, 0, 4, 0)
    modifies out
    ensures Painted(out[..], times', ob, 4 * iw, 4 * ih, Path(mem, ib, iw, ih, wide), 4, r + 1, 0, 4, 0)
    ensures Framed(out[..], old(out[..]), ob, 4 * iw, 4 * ih)
  {
    var last8, last4 := Minus(4 * iw, 8), Minus(4 * iw, 4);
    assert last4 == 4 * iw - 4 && (wide ==> last8 == 4 * iw - 8);
    hide *;
    var ow, oh := 4 * iw, 4 * ih;
    ghost var pic := Path(mem, ib, iw, ih, wide);
    FramedSame(out[..], ob, ow, oh);
    times' := times;
    var ox := 0;
    ghost var m := 0;
    if wide {
      ChangeWidth(out[..], times', ob, ow, oh, pic, r, 0, 4, 8);
      ox, times', m := WideBlocks(mem, ib, iw, ih, out, times', ob, r, last8);
      ChangeWidth(out[..], times', ob, ow, oh, pic, r, ox, 8, 4);
    }
    ghost var was := out[..];
    times' := NarrowBlocks(mem, ib, iw, ih, wide, out, times', ob, r, ox, last4, m);
    FramedTrans(old(out[..]), was, out[..], ob, ow, oh);
    NextBand(out[..], times', ob, ow, oh, pic, 4, r, ow, 4, 4);
  }

  /** The bands between the first and the last. */
  method MiddleBands(mem: Memory, ib: int, iw: nat, ih: nat, wide: bool, out: array<real>, ghost times: seq<nat>,
          ob: nat, last: nat)
    returns (ghost times': seq<nat>)
    requires ih >= 2 && iw >= (if wide then 2 else 1) && 4 * iw < SIZE_T && last == 4 * ih - 8
    requires Painted(out[..], times, ob, 4 * iw, 4 * ih, Path(mem, ib, iw, ih, wide), 4, 1, 0, 4, 0)
    modifies out
    ensures Painted(out[..], times', ob, 4 * iw, 4 * ih, Path(mem, ib, iw, ih, wide), 4, ih - 1, 0, 4, 0)
    ensures Framed(out[..], old(out[..]), ob, 4 * iw, 4 * ih)
  {
    hide *;
    var ow, oh := 4 * iw, 4 * ih;
    ghost var pic := Path(mem, ib, iw, ih, wide);
    FramedSame(out[..], ob, ow, oh);
    times' := times;
    var oy := 4;
    ghost var n := 1;
    while oy <= last
      invariant 4 <= oy == 4 * n <= oh - 4
      invariant Painted(out[..], times', ob, ow, oh, pic, 4, n, 0, 4, 0) && Framed(out[..], old(out[..]), ob, ow, oh)
    {
      ghost var was := out[..];
      times' := PaintBand(mem, ib, iw, ih, wide, out, times', ob, oy / 4);
      FramedTrans(old(out[..]), was, out[..], ob, ow, oh);
      oy, n := oy + 4, n + 1;
    }
  }

  lemma ChangeWidth(out: seq<real>, times: seq<nat>, ob: nat, ow: nat, oh: nat, pic: Picture, r: nat, ox: nat, w: nat,
          w': nat)
    requires Painted(out, times, ob, ow, oh, pic, 4, r, ox, w, 0)
    ensures Painted(out, times, ob, ow, oh, pic, 4, r, ox, w', 0)
  {
    forall x: nat, y: nat
      ensures Region(x, y, 4, r, ox, w', 0) <==> Region(x, y, 4, r, ox, w, 0)
    {
    }
  }

  lemma LastBand(iw: nat, ih: nat, wide: bool)
    requires 1 <= iw && 1 <= ih && 4 * iw < SIZE_T && 4 * ih < SIZE_T && StaysInside(iw, ih, wide)
    ensures ih >= 2 && iw >= (if wide then 2 else 1) && Minus(4 * ih, 8) == 4 * ih - 8
  {
    StaysInsideIff(iw, ih, wide);
  }

  /** The fast path: the first row of source pixels, the rows between, the last. It writes every pixel of the plane
      once; and from three columns on, or two with blocks of four only, it computes what the general kernel computes at
      scale 1/4 without antialiasing. */
  method Upsample4xTriangle(mem: Memory, ib: int, iw: nat, ih: nat, wide: bool, out: array<real>, ob: nat)
    returns (ghost times: seq<nat>)
    requires 1 <= iw && 1 <= ih && 4 * iw < SIZE_T && 4 * ih < SIZE_T && StaysInside(iw, ih, wide)
    requires 4 * ih * (4 * iw) >= 0 && ob + 4 * ih * (4 * iw) <= out.Length
    modifies out
    ensures Complete(out[..], ob, 4 * iw, 4 * ih, Path(mem, ib, iw, ih, wide))
    ensures iw >= (if wide then 3 else 2) ==>
              Complete(out[..], ob, 4 * iw, 4 * ih, Kernel(mem, ib, iw, ih, 0.25, 0.25, 2, false))
    ensures Once(times, ob, 4 * iw, 4 * ih)
    ensures Framed(out[..], old(out[..]), ob, 4 * iw, 4 * ih)
  {
    hide *;
    LastBand(iw, ih, wide);
    var last := Minus(4 * ih, 8);
    var ow, oh := 4 * iw, 4 * ih;
    ghost var pic := Path(mem, ib, iw, ih, wide);
    times := Unwritten(out.Length);
    Blank(out[..], ob, ow, oh, pic, 4, 4);
    FramedSame(out[..], ob, ow, oh);
    times := PaintBand(mem, ib, iw, ih, wide, out, times, ob, 0);
    ghost var was := out[..];
    times := MiddleBands(mem, ib, iw, ih, wide, out, times, ob, last);
    FramedTrans(old(out[..]), was, out[..], ob, ow, oh);
    was := out[..];
    times := PaintBand(mem, ib, iw, ih, wide, out, times, ob, (oh - 4) / 4);
    FramedTrans(old(out[..]), was, out[..], ob, ow, oh);
    Finished(out[..], times, ob, ow, oh, pic, 4, ih, 4);
    if (wide && iw >= 3) || (!wide && iw >= 2) {
      PathCompletes(mem, ib, iw, ih, wide, out[..], ob);
    }
  }

  lemma PathCompletes(mem: Memory, ib: int, iw: nat, ih: nat, wide: bool, out: seq<real>, ob: nat)
    requires ih >= 2 && iw >= (if wide then 3 else 2)
    requires Complete(out, ob, 4 * iw, 4 * ih, Path(mem, ib, iw, ih, wide))
    ensures Complete(out, ob, 4 * iw, 4 * ih, Kernel(mem, ib, iw, ih, 0.25, 0.25, 2, false))
  {
    hide KernelAt, PathAt;
    forall x: nat, y: nat | x < 4 * iw && y < 4 * ih
      ensures Cell(out, ob, 4 * iw, x, y) == Kernel(mem, ib, iw, ih, 0.25, 0.25, 2, false)(x, y)
    {
      PathIsKernel(mem, ib, iw, ih, wide, x, y);
      assert Path(mem, ib, iw, ih, wide)(x, y) == PathAt(mem, ib, iw, ih, wide, x, y);
    }
  }

  // ---- why the image has to be wide enough ----

  /** In an image two pixels wide the only block of eight is first and last at once, the right border keeps its
      weight, and the pixel past the row leaks in. */
  lemma TwoColumnsTooFew(ib: int, ih: nat) returns (mem: Memory)
    requires ih >= 2
    ensures Block8(mem, ib, 2, Top, 0, 8, 0, 0)[6] != Blend(mem, ib, 2, ih, 6, 0)
  {
    mem := (a: int) => if a == ib + 2 then 1.0 else 0.0;
    Lane(mem, ib, 2, Top, 1, 0, 0, false, false, true, 2);
    CoefProducts(0, Top, false, false, 2);
    assert Neighbour(6) == 2 && Neighbour(0) == -1;
    assert Side(2) == 0.125 && Side(0) == 0.375;
    BlendByRows(mem, ib, 3, ih, Top, 1, 0, 0, false, false, 2);
  }

  /** So it does in a block of four in an image one pixel wide. */
  lemma OneColumnTooFew(ib: int, ih: nat) returns (mem: Memory)
    requires ih >= 2
    ensures Block4(mem, ib, 1, Top, 0, 4, 0, 0)[2] != Blend(mem, ib, 1, ih, 2, 0)
  {
    mem := (a: int) => if a == ib + 1 then 1.0 else 0.0;
    Lane(mem, ib, 1, Top, 0, 0, 0, true, false, true, 2);
    CoefProducts(0, Top, true, false, 2);
    assert Neighbour(2) == 1 && Neighbour(0) == -1;
    assert Side(2) == 0.125 && Side(0) == 0.375;
    BlendByRows(mem, ib, 2, ih, Top, 0, 0, 0, true, false, 2);
  }

  /** Some pixel of a narrower image differs from the kernel for some memory. */
  lemma TooNarrow(ib: int, iw: nat, ih: nat, wide: bool) returns (mem: Memory, x: nat)
    requires ih >= 2 && iw == (if wide then 2 else 1)
    ensures x < 4 * iw
    ensures PathAt(mem, ib, iw, ih, wide, x, 0) != KernelAt(mem, ib, iw, ih, 0.25, 0.25, 2, false, x, 0)
  {
    hide Block8, Block4, Blend, KernelAt;
    if wide {
      mem := TwoColumnsTooFew(ib, ih);
      x := 6;
    } else {
      mem := OneColumnTooFew(ib, ih);
      x := 2;
    }
    KernelIsBlend(mem, ib, iw, ih, 2, x, 0);
  }

  ghost predicate AlwaysKernel(ib: int, iw: nat, ih: nat, wide: bool) {
    forall mem: Memory, x: nat, y: nat :: x < 4 * iw && y < 4 * ih ==>
      PathAt(mem, ib, iw, ih, wide, x, y) == KernelAt(mem, ib, iw, ih, 0.25, 0.25, 2, false, x, y)
  }

  /** The loops stay inside the plane and the path equals the kernel, in every pixel and whatever memory holds, if and
      only if there are two rows and two columns, or three columns in the build with blocks of eight. */
  lemma FastPathIff(ib: int, iw: nat, ih: nat, wide: bool)
    requires 1 <= iw && 1 <= ih && 4 * iw < SIZE_T && 4 * ih < SIZE_T
    ensures StaysInside(iw, ih, wide) && AlwaysKernel(ib, iw, ih, wide) <==> ih >= 2 && iw >= (if wide then 3 else 2)
  {
    StaysInsideIff(iw, ih, wide);
    hide PathAt, KernelAt, StaysInside;
    if ih >= 2 && iw >= (if wide then 3 else 2) {
      forall mem: Memory, x: nat, y: nat | x < 4 * iw && y < 4 * ih
        ensures PathAt(mem, ib, iw, ih, wide, x, y) == KernelAt(mem, ib, iw, ih, 0.25, 0.25, 2, false, x, y)
      {
        PathIsKernel(mem, ib, iw, ih, wide, x, y);
      }
    } else if StaysInside(iw, ih, wide) {
      var mem, x := TooNarrow(ib, iw, ih, wide);
      assert !AlwaysKernel(ib, iw, ih, wide);
    }
  }
}
