/** Softmax over the channels of a tensor, in blocks of lanes with a scalar tail, and one location at a time.
    Channel c of location x of a batch at offset base is at base + c * hw + x: a plane with a row per channel. */
module SoftmaxLayer {
  import opened Canvas
  import opened Nonlinear
  import opened SoftmaxColumn

  /** The scores of location x. */
  function Column(src: seq<real>, base: nat, c: nat, hw: nat, x: nat): (col: seq<real>)
    ensures |col| == c && forall y :: 0 <= y < c ==> col[y] == Cell(src, base, hw, x, y)
  {
    seq(c, y requires 0 <= y < c => Cell(src, base, hw, x, y))
  }

  function Peak(src: seq<real>, base: nat, c: nat, hw: nat, x: nat): real
    requires c > 0
  {
    Largest(Column(src, base, c, hw, x))
  }

  function LocationWeights(exp: Fn, src: seq<real>, base: nat, c: nat, hw: nat, x: nat): (ws: seq<real>)
    requires c > 0
    ensures |ws| == c
  {
    Weights(exp, Column(src, base, c, hw, x), Peak(src, base, c, hw, x))
  }

  /** The plane after the second pass, */
  function WeightPic(exp: Fn, src: seq<real>, base: nat, c: nat, hw: nat): Picture {
    (x: nat, y: nat) => if y < c then LocationWeights(exp, src, base, c, hw, x)[y] else 0.0
  }

  /** and after the third: the softmax of every location. */
  ghost function SoftmaxPic(exp: Fn, src: seq<real>, base: nat, c: nat, hw: nat): Picture
    requires ExpLike(exp)
  {
    (x: nat, y: nat) => if y < c then Softmax(exp, Column(src, base, c, hw, x))[y] else 0.0
  }

  /** Channels y0 to y1 of locations x0 to x1 are as in the picture. */
  ghost predicate Shows(out: seq<real>, base: nat, hw: nat, pic: Picture, y0: nat, y1: nat, x0: nat, x1: nat) {
    forall x: nat, y: nat {:trigger pic(x, y)} :: x0 <= x < x1 && y0 <= y < y1
      ==> Cell(out, base, hw, x, y) == pic(x, y)
  }

  /** Only w locations of channel y change. */
  ghost predicate OnlyRun(was: seq<real>, now: seq<real>, base: nat, hw: nat, y: nat, x0: nat, w: nat) {
    && |now| == |was|
    && forall t :: 0 <= t < |was| && !(base + y * hw + x0 <= t < base + y * hw + x0 + w) ==> now[t] == was[t]
  }

  /** Only w locations change. */
  ghost predicate OnlyColumns(was: seq<real>, now: seq<real>, base: nat, c: nat, hw: nat, x0: nat, w: nat) {
    && Framed(now, was, base, hw, c)
    && forall x: nat, y: nat :: x < hw && y < c && !(x0 <= x < x0 + w) ==>
         Cell(now, base, hw, x, y) == Cell(was, base, hw, x, y)
  }

  lemma RunFits(c: nat, hw: nat, y: nat, x0: nat, w: nat)
    requires y < c && x0 + w <= hw
    ensures 0 <= y * hw && y * hw + x0 + w <= c * hw
  {
    MulMono(0, y, hw);
    MulMono(y + 1, c, hw);
    MulDist(y, 1, hw);
  }

  lemma RunInColumns(was: seq<real>, now: seq<real>, base: nat, c: nat, hw: nat, y: nat, x0: nat, w: nat)
    requires OnlyRun(was, now, base, hw, y, x0, w) && y < c && x0 + w <= hw
    ensures OnlyColumns(was, now, base, c, hw, x0, w)
  {
    RunFits(c, hw, y, x0, w);
    forall x: nat, y': nat | x < hw && y' < c && !(x0 <= x < x0 + w)
      ensures Cell(now, base, hw, x, y') == Cell(was, base, hw, x, y')
    {
      CellElsewhere(was, now, base, hw, x, y', y, x0, w);
    }
  }

  /** Other channels keep their picture when a run is stored. */
  lemma ShowsKept(was: seq<real>, now: seq<real>, base: nat, hw: nat, pic: Picture, y0: nat, y1: nat, x0: nat, x1: nat,
                  y: nat, w: nat)
    requires OnlyRun(was, now, base, hw, y, x0, w) && x0 + w <= hw && x1 <= hw
    requires Shows(was, base, hw, pic, y0, y1, x0, x1) && !(y0 <= y < y1)
    ensures Shows(now, base, hw, pic, y0, y1, x0, x1)
  {
    forall x: nat, y': nat | x0 <= x < x1 && y0 <= y' < y1
      ensures Cell(now, base, hw, x, y') == pic(x, y')
    {
      CellElsewhere(was, now, base, hw, x, y', y, x0, w);
    }
  }

  /** Stores one value per lane. */
  method StoreLanes(dst: array<real>, vals: seq<real>, base: nat, c: nat, hw: nat, y: nat, x0: nat)
    requires y < c && x0 + |vals| <= hw && c * hw >= 0 && base + c * hw <= dst.Length
    modifies dst
    ensures OnlyRun(old(dst[..]), dst[..], base, hw, y, x0, |vals|)
    ensures forall x :: x0 <= x < x0 + |vals| ==> Cell(dst[..], base, hw, x, y) == vals[x - x0]
  {
    RunFits(c, hw, y, x0, |vals|);
    ghost var was := dst[..];
    var at := base + y * hw + x0;
    for k := 0 to |vals|
      invariant forall t :: 0 <= t < dst.Length && !(at <= t < at + k) ==> dst[t] == was[t]
      invariant forall t :: at <= t < at + k ==> dst[t] == vals[t - at]
    {
      dst[at + k] := vals[k];
    }
    forall x | x0 <= x < x0 + |vals| ensures Cell(dst[..], base, hw, x, y) == vals[x - x0] {
      assert dst[base + y * hw + x] == vals[x - x0];
    }
  }

  /** Reads one value per lane. */
  method LoadLanes(src: seq<real>, base: nat, c: nat, hw: nat, y: nat, x0: nat, w: nat) returns (vals: seq<real>)
    requires y < c && x0 + w <= hw && c * hw >= 0 && base + c * hw <= |src|
    ensures |vals| == w && forall l :: 0 <= l < w ==> vals[l] == Cell(src, base, hw, x0 + l, y)
  {
    RunFits(c, hw, y, x0, w);
    var at := base + y * hw + x0;
    vals := src[at..at + w];
    forall l | 0 <= l < w ensures vals[l] == Cell(src, base, hw, x0 + l, y) {
      assert src[base + y * hw + (x0 + l)] == vals[l];
    }
  }

  lemma LargestSnoc(col: seq<real>, k: nat)
    requires 0 < k < |col|
    ensures Largest(col[..k + 1]) == var m := Largest(col[..k]); if col[k] > m then col[k] else m
  {
    assert col[..k + 1][..k] == col[..k];
  }

  /** The first pass: per lane the largest score. */
  method LaneMaxima(src: seq<real>, base: nat, c: nat, hw: nat, x0: nat, w: nat) returns (vmax: seq<real>)
    requires c > 0 && x0 + w <= hw && c * hw >= 0 && base + c * hw <= |src|
    ensures |vmax| == w && forall l: nat :: l < w ==> vmax[l] == Peak(src, base, c, hw, x0 + l)
  {
    hide Largest, Cell;
    vmax := LoadLanes(src, base, c, hw, 0, x0, w);
    for y := 0 to c
      invariant |vmax| == w
      invariant forall l: nat :: l < w ==> vmax[l] == MaxSoFar(src, base, c, hw, x0 + l, y)
    {
      var vval := LoadLanes(src, base, c, hw, y, x0, w);
      ghost var before := vmax;
      vmax := seq(w, l requires 0 <= l < w => if vval[l] > vmax[l] then vval[l] else vmax[l]);
      forall l: nat | l < w ensures vmax[l] == MaxSoFar(src, base, c, hw, x0 + l, y + 1) {
        MaxStep(src, base, c, hw, x0 + l, y);
        assert before[l] == MaxSoFar(src, base, c, hw, x0 + l, y);
      }
    }
    forall l: nat | l < w ensures vmax[l] == Peak(src, base, c, hw, x0 + l) {
      MaxWhole(src, base, c, hw, x0 + l);
    }
  }

  ghost function MaxSoFar(src: seq<real>, base: nat, c: nat, hw: nat, x: nat, y: nat): real
    requires 0 < c && y <= c
  {
    var col := Column(src, base, c, hw, x);
    if y == 0 then col[0] else Largest(col[..y])
  }

  lemma MaxStep(src: seq<real>, base: nat, c: nat, hw: nat, x: nat, y: nat)
    requires y < c
    ensures MaxSoFar(src, base, c, hw, x, y + 1)
            == var m := MaxSoFar(src, base, c, hw, x, y);
               if Cell(src, base, hw, x, y) > m then Cell(src, base, hw, x, y) else m
  {
    var col := Column(src, base, c, hw, x);
    if y > 0 {
      LargestSnoc(col, y);
    } else {
      assert col[..1] == [col[0]];
    }
  }

  lemma MaxWhole(src: seq<real>, base: nat, c: nat, hw: nat, x: nat)
    requires c > 0
    ensures MaxSoFar(src, base, c, hw, x, c) == Peak(src, base, c, hw, x)
  {
    assert Column(src, base, c, hw, x)[..c] == Column(src, base, c, hw, x);
  }

  ghost function SumSoFar(exp: Fn, src: seq<real>, base: nat, c: nat, hw: nat, x: nat, y: nat): real
    requires y <= c && c > 0
  {
    Sum(LocationWeights(exp, src, base, c, hw, x)[..y])
  }

  lemma SumStep(exp: Fn, src: seq<real>, base: nat, c: nat, hw: nat, x: nat, y: nat)
    requires y < c
    ensures var v := WeightPic(exp, src, base, c, hw)(x, y);
            && v == exp(Cell(src, base, hw, x, y) - Peak(src, base, c, hw, x))
            && SumSoFar(exp, src, base, c, hw, x, y + 1) == SumSoFar(exp, src, base, c, hw, x, y) + v
    ensures SumSoFar(exp, src, base, c, hw, x, 0) == 0.0
  {
    hide Peak, Cell;
    var ws := LocationWeights(exp, src, base, c, hw, x);
    assert ws[..y + 1][..y] == ws[..y];
  }

  /** One more channel is stored. */
  lemma ShowsMore(was: seq<real>, now: seq<real>, vals: seq<real>, base: nat, hw: nat, pic: Picture, y: nat, x0: nat,
          w: nat)
    requires OnlyRun(was, now, base, hw, y, x0, w) && |vals| == w && x0 + w <= hw
    requires Shows(was, base, hw, pic, 0, y, x0, x0 + w)
    requires forall x :: x0 <= x < x0 + w ==> Cell(now, base, hw, x, y) == vals[x - x0]
    requires forall l: nat :: l < w ==> vals[l] == pic(x0 + l, y)
    ensures Shows(now, base, hw, pic, 0, y + 1, x0, x0 + w)
  {
    hide Cell, OnlyRun;
    ShowsKept(was, now, base, hw, pic, 0, y, x0, x0 + w, y, w);
    forall x: nat, y': nat | x0 <= x < x0 + w && y' < y + 1
      ensures Cell(now, base, hw, x, y') == pic(x, y')
    {
      if y' == y {
        var l: nat := x - x0;
        assert vals[l] == pic(x0 + l, y);
        assert x0 + l == x;
      }
    }
  }

  lemma ColumnsTrans(a: seq<real>, b: seq<real>, z: seq<real>, base: nat, c: nat, hw: nat, x0: nat, w: nat)
    requires OnlyColumns(a, b, base, c, hw, x0, w) && OnlyColumns(b, z, base, c, hw, x0, w)
    ensures OnlyColumns(a, z, base, c, hw, x0, w)
  {
    hide Cell;
  }

  /** The second pass: exponentials stored, and per lane their sum. */
  method LaneWeights(exp: Fn, src: seq<real>, dst: array<real>, base: nat, c: nat, hw: nat, x0: nat, vmax: seq<real>)
    returns (vsum: seq<real>)
    requires c > 0 && x0 + |vmax| <= hw && c * hw >= 0 && base + c * hw <= |src| && base + c * hw <= dst.Length
    requires forall l: nat :: l < |vmax| ==> vmax[l] == Peak(src, base, c, hw, x0 + l)
    modifies dst
    ensures Shows(dst[..], base, hw, WeightPic(exp, src, base, c, hw), 0, c, x0, x0 + |vmax|)
    ensures |vsum| == |vmax|
    ensures forall l: nat :: l < |vmax| ==> vsum[l] == SumSoFar(exp, src, base, c, hw, x0 + l, c)
    ensures OnlyColumns(old(dst[..]), dst[..], base, c, hw, x0, |vmax|)
  {
    hide *;
    var w := |vmax|;
    ghost var pic := WeightPic(exp, src, base, c, hw);
    vsum := seq(w, l => 0.0);
    ShowsNone(dst[..], base, c, hw, pic, x0, w);
    forall l: nat | l < w ensures vsum[l] == SumSoFar(exp, src, base, c, hw, x0 + l, 0) {
      SumStep(exp, src, base, c, hw, x0 + l, 0);
    }
    for y := 0 to c
      invariant |vsum| == w && forall l: nat :: l < w ==> vsum[l] == SumSoFar(exp, src, base, c, hw, x0 + l, y)
      invariant Shows(dst[..], base, hw, pic, 0, y, x0, x0 + w)
      invariant OnlyColumns(old(dst[..]), dst[..], base, c, hw, x0, w)
    {
      var vval := LoadLanes(src, base, c, hw, y, x0, w);
      var vres := seq(w, l requires 0 <= l < w => exp(vval[l] - vmax[l]));
      ghost var before := vsum;
      vsum := seq(w, l requires 0 <= l < w => vsum[l] + vres[l]);
      forall l: nat | l < w
        ensures vres[l] == pic(x0 + l, y) && vsum[l] == SumSoFar(exp, src, base, c, hw, x0 + l, y + 1)
      {
        assert before[l] == SumSoFar(exp, src, base, c, hw, x0 + l, y);
        SumStep(exp, src, base, c, hw, x0 + l, y);
      }
      ghost var was := dst[..];
      StoreLanes(dst, vres, base, c, hw, y, x0);
      ShowsMore(was, dst[..], vres, base, hw, pic, y, x0, w);
      RunInColumns(was, dst[..], base, c, hw, y, x0, w);
      ColumnsTrans(old(dst[..]), was, dst[..], base, c, hw, x0, w);
    }
  }

  lemma ShowsNone(out: seq<real>, base: nat, c: nat, hw: nat, pic: Picture, x0: nat, w: nat)
    ensures Shows(out, base, hw, pic, 0, 0, x0, x0 + w) && OnlyColumns(out, out, base, c, hw, x0, w)
  {
  }

  lemma SoftmaxIs(exp: Fn, src: seq<real>, base: nat, c: nat, hw: nat, x: nat, y: nat)
    requires ExpLike(exp) && y < c
    ensures SumSoFar(exp, src, base, c, hw, x, c) > 0.0
    ensures SoftmaxPic(exp, src, base, c, hw)(x, y)
            == WeightPic(exp, src, base, c, hw)(x, y) / SumSoFar(exp, src, base, c, hw, x, c)
  {
    hide ExpLike, Weights, Sum, Cell, Largest, Column, Softmax;
    var col := Column(src, base, c, hw, x);
    Quotient(exp, col, y);
    var ws := LocationWeights(exp, src, base, c, hw, x);
    assert ws[..c] == ws;
    assert WeightPic(exp, src, base, c, hw)(x, y) == ws[y];
    assert SoftmaxPic(exp, src, base, c, hw)(x, y) == Softmax(exp, col)[y] == ws[y] / Sum(ws);
  }

  /** The third pass: every stored exponential divided by its sum. */
  method LaneScale(ghost exp: Fn, ghost src: seq<real>, dst: array<real>, base: nat, c: nat, hw: nat, x0: nat,
          vsum: seq<real>)
    requires ExpLike(exp) && c > 0 && x0 + |vsum| <= hw && c * hw >= 0 && base + c * hw <= dst.Length
    requires Shows(dst[..], base, hw, WeightPic(exp, src, base, c, hw), 0, c, x0, x0 + |vsum|)
    requires forall l: nat :: l < |vsum| ==> vsum[l] == SumSoFar(exp, src, base, c, hw, x0 + l, c)
    modifies dst
    ensures Shows(dst[..], base, hw, SoftmaxPic(exp, src, base, c, hw), 0, c, x0, x0 + |vsum|)
    ensures OnlyColumns(old(dst[..]), dst[..], base, c, hw, x0, |vsum|)
  {
    hide *;
    var w := |vsum|;
    ghost var weights, pic := WeightPic(exp, src, base, c, hw), SoftmaxPic(exp, src, base, c, hw);
    ShowsNone(dst[..], base, c, hw, pic, x0, w);
    for y := 0 to c
      invariant Shows(dst[..], base, hw, weights, y, c, x0, x0 + w)
      invariant Shows(dst[..], base, hw, pic, 0, y, x0, x0 + w)
      invariant OnlyColumns(old(dst[..]), dst[..], base, c, hw, x0, w)
    {
      ghost var was := dst[..];
      var vval := LoadLanes(dst[..], base, c, hw, y, x0, w);
      forall l: nat | l < w
        ensures vsum[l] != 0.0 && vval[l] / vsum[l] == pic(x0 + l, y)
      {
        SoftmaxIs(exp, src, base, c, hw, x0 + l, y);
        ShowsAt(was, base, hw, weights, y, c, x0, x0 + w, x0 + l, y);
      }
      var vres := seq(w, l requires 0 <= l < w => vval[l] / vsum[l]);
      StoreLanes(dst, vres, base, c, hw, y, x0);
      ShowsMore(was, dst[..], vres, base, hw, pic, y, x0, w);
      ShowsFewer(was, base, hw, weights, y, c, x0, x0 + w);
      ShowsKept(was, dst[..], base, hw, weights, y + 1, c, x0, x0 + w, y, w);
      RunInColumns(was, dst[..], base, c, hw, y, x0, w);
      ColumnsTrans(old(dst[..]), was, dst[..], base, c, hw, x0, w);
    }
  }

  lemma ShowsAt(out: seq<real>, base: nat, hw: nat, pic: Picture, y0: nat, y1: nat, x0: nat, x1: nat, x: nat, y: nat)
    requires Shows(out, base, hw, pic, y0, y1, x0, x1) && x0 <= x < x1 && y0 <= y < y1
    ensures Cell(out, base, hw, x, y) == pic(x, y)
  {
  }

  lemma ShowsFewer(out: seq<real>, base: nat, hw: nat, pic: Picture, y: nat, y1: nat, x0: nat, x1: nat)
    requires Shows(out, base, hw, pic, y, y1, x0, x1)
    ensures Shows(out, base, hw, pic, y + 1, y1, x0, x1)
  {
  }

  /** The three passes over w neighbouring locations. */
  method Block(exp: Fn, src: seq<real>, dst: array<real>, base: nat, c: nat, hw: nat, x0: nat, w: nat)
    requires ExpLike(exp) && c > 0 && x0 + w <= hw && c * hw >= 0 && base + c * hw <= |src|
             && base + c * hw <= dst.Length
    modifies dst
    ensures Shows(dst[..], base, hw, SoftmaxPic(exp, src, base, c, hw), 0, c, x0, x0 + w)
    ensures OnlyColumns(old(dst[..]), dst[..], base, c, hw, x0, w)
  {
    hide *;
    var vmax := LaneMaxima(src, base, c, hw, x0, w);
    var vsum := LaneWeights(exp, src, dst, base, c, hw, x0, vmax);
    ghost var was := dst[..];
    LaneScale(exp, src, dst, base, c, hw, x0, vsum);
    ColumnsTrans(old(dst[..]), was, dst[..], base, c, hw, x0, w);
  }

  lemma CellIs(out: seq<real>, at: nat, hw: nat, x: nat, y: nat)
    requires 0 <= at + y * hw + x < |out|
    ensures Cell(out, at, hw, x, y) == out[at + y * hw + x]
  {
  }

  /** A store to one place is a run of one. */
  lemma OnePlace(was: seq<real>, now: seq<real>, base: nat, c: nat, hw: nat, x: nat, y: nat, v: real)
    requires x < hw && y < c && c * hw >= 0 && base + c * hw <= |was|
    requires base + y * hw + x >= 0
    requires base + y * hw + x < |was| ==> now == was[base + y * hw + x := v]
    ensures base + y * hw + x < |was|
    ensures OnlyRun(was, now, base, hw, y, x, 1) && Cell(now, base, hw, x, y) == v
    ensures Cell(was, base, hw, x, y) == was[base + y * hw + x]
  {
    RunFits(c, hw, y, x, 1);
  }

  lemma OneMoreChannel(was: seq<real>, now: seq<real>, base: nat, c: nat, hw: nat, pic: Picture, x: nat, y: nat)
    requires x < hw && y < c && OnlyRun(was, now, base, hw, y, x, 1) && Shows(was, base, hw, pic, 0, y, x, x + 1)
    requires Cell(now, base, hw, x, y) == pic(x, y)
    ensures Shows(now, base, hw, pic, 0, y + 1, x, x + 1) && OnlyColumns(was, now, base, c, hw, x, 1)
  {
    hide Cell, OnlyRun, OnlyColumns;
    ShowsMore(was, now, [pic(x, y)], base, hw, pic, y, x, 1);
    RunInColumns(was, now, base, c, hw, y, x, 1);
  }

  /** Channel y of the location that starts at start is within the batch. */
  lemma InColumn(start: nat, base: nat, c: nat, hw: nat, x: nat, y: nat)
    requires x < hw && y < c && start == base + x
    ensures 0 <= y * hw && start + y * hw == base + y * hw + x && 0 <= c * hw && start + y * hw < base + c * hw
  {
    RunFits(c, hw, y, x, 1);
  }

  /** The scalar code: the three passes over one location, whose first channel is at start. */
  method Location(exp: Fn, src: seq<real>, dst: array<real>, start: nat, ghost base: nat, c: nat, hw: nat, ghost x: nat)
    requires ExpLike(exp) && c > 0 && x < hw && start == base + x && c * hw >= 0 && base + c * hw <= |src|
             && base + c * hw <= dst.Length
    modifies dst
    ensures Shows(dst[..], base, hw, SoftmaxPic(exp, src, base, c, hw), 0, c, x, x + 1)
    ensures OnlyColumns(old(dst[..]), dst[..], base, c, hw, x, 1)
  {
    hide *;
    var max := ScalarMax(src, start, base, c, hw, x);
    var expSum := ScalarWeights(exp, src, dst, start, base, c, hw, x, max);
    ghost var was := dst[..];
    ScalarScale(exp, src, dst, start, base, c, hw, x, expSum);
    ColumnsTrans(old(dst[..]), was, dst[..], base, c, hw, x, 1);
  }

  method ScalarMax(src: seq<real>, start: nat, ghost base: nat, c: nat, hw: nat, ghost x: nat) returns (max: real)
    requires c > 0 && x < hw && start == base + x && c * hw >= 0 && base + c * hw <= |src|
    ensures max == Peak(src, base, c, hw, x)
  {
    hide *;
    InColumn(start, base, c, hw, x, 0);
    max := src[start];
    CellIs(src, base, hw, x, 0);
    MaxStart(src, base, c, hw, x);
    for y := 0 to c
      invariant max == MaxSoFar(src, base, c, hw, x, y)
    {
      InColumn(start, base, c, hw, x, y);
      var val := src[start + y * hw];
      CellIs(src, base, hw, x, y);
      MaxStep(src, base, c, hw, x, y);
      if val > max { max := val; }
    }
    MaxWhole(src, base, c, hw, x);
  }

  lemma MaxStart(src: seq<real>, base: nat, c: nat, hw: nat, x: nat)
    requires c > 0
    ensures MaxSoFar(src, base, c, hw, x, 0) == Cell(src, base, hw, x, 0)
  {
  }

  method ScalarWeights(exp: Fn, src: seq<real>, dst: array<real>, start: nat, ghost base: nat, c: nat, hw: nat,
          ghost x: nat, max: real)
    returns (expSum: real)
    requires c > 0 && x < hw && start == base + x && c * hw >= 0 && base + c * hw <= |src|
             && base + c * hw <= dst.Length
    requires max == Peak(src, base, c, hw, x)
    modifies dst
    ensures Shows(dst[..], base, hw, WeightPic(exp, src, base, c, hw), 0, c, x, x + 1)
    ensures expSum == SumSoFar(exp, src, base, c, hw, x, c)
    ensures OnlyColumns(old(dst[..]), dst[..], base, c, hw, x, 1)
  {
    hide *;
    ghost var pic := WeightPic(exp, src, base, c, hw);
    expSum := 0.0;
    ShowsNone(dst[..], base, c, hw, pic, x, 1);
    SumStep(exp, src, base, c, hw, x, 0);
    for y := 0 to c
      invariant Shows(dst[..], base, hw, pic, 0, y, x, x + 1) && expSum == SumSoFar(exp, src, base, c, hw, x, y)
      invariant OnlyColumns(old(dst[..]), dst[..], base, c, hw, x, 1)
    {
      ghost var was := dst[..];
      InColumn(start, base, c, hw, x, y);
      var at := start + y * hw;
      dst[at] := exp(src[at] - max);
      expSum := expSum + dst[at];
      CellIs(src, base, hw, x, y);
      SumStep(exp, src, base, c, hw, x, y);
      OnePlace(was, dst[..], base, c, hw, x, y, dst[at]);
      OneMoreChannel(was, dst[..], base, c, hw, pic, x, y);
      ColumnsTrans(old(dst[..]), was, dst[..], base, c, hw, x, 1);
    }
  }

  method ScalarScale(ghost exp: Fn, ghost src: seq<real>, dst: array<real>, start: nat, ghost base: nat, c: nat,
          hw: nat, ghost x: nat, expSum: real)
    requires ExpLike(exp) && c > 0 && x < hw && start == base + x && c * hw >= 0 && base + c * hw <= dst.Length
    requires Shows(dst[..], base, hw, WeightPic(exp, src, base, c, hw), 0, c, x, x + 1)
    requires expSum == SumSoFar(exp, src, base, c, hw, x, c)
    modifies dst
    ensures Shows(dst[..], base, hw, SoftmaxPic(exp, src, base, c, hw), 0, c, x, x + 1)
    ensures OnlyColumns(old(dst[..]), dst[..], base, c, hw, x, 1)
  {
    hide *;
    ghost var weights, pic := WeightPic(exp, src, base, c, hw), SoftmaxPic(exp, src, base, c, hw);
    ShowsNone(dst[..], base, c, hw, pic, x, 1);
    for y := 0 to c
      invariant Shows(dst[..], base, hw, weights, y, c, x, x + 1) && Shows(dst[..], base, hw, pic, 0, y, x, x + 1)
      invariant OnlyColumns(old(dst[..]), dst[..], base, c, hw, x, 1)
    {
      ghost var was := dst[..];
      InColumn(start, base, c, hw, x, y);
      var at := start + y * hw;
      SoftmaxIs(exp, src, base, c, hw, x, y);
      ShowsAt(was, base, hw, weights, y, c, x, x + 1, x, y);
      CellIs(was, base, hw, x, y);
      dst[at] := dst[at] / expSum;
      OnePlace(was, dst[..], base, c, hw, x, y, dst[at]);
      OneMoreChannel(was, dst[..], base, c, hw, pic, x, y);
      ShowsFewer(was, base, hw, weights, y, c, x, x + 1);
      ShowsKept(was, dst[..], base, hw, weights, y + 1, c, x, x + 1, y, 1);
      ColumnsTrans(old(dst[..]), was, dst[..], base, c, hw, x, 1);
    }
  }

  /** The softmax of a whole batch, */
  ghost predicate BatchDone(exp: Fn, src: seq<real>, out: seq<real>, base: nat, c: nat, hw: nat, x: nat) {
    ExpLike(exp) && Shows(out, base, hw, SoftmaxPic(exp, src, base, c, hw), 0, c, 0, x)
  }

  /** Neighbouring locations of one batch add up. */
  lemma BatchGrows(exp: Fn, src: seq<real>, was: seq<real>, now: seq<real>, base: nat, c: nat, hw: nat, x0: nat, w: nat)
    requires BatchDone(exp, src, was, base, c, hw, x0) && x0 + w <= hw && OnlyColumns(was, now, base, c, hw, x0, w)
    requires Shows(now, base, hw, SoftmaxPic(exp, src, base, c, hw), 0, c, x0, x0 + w)
    ensures BatchDone(exp, src, now, base, c, hw, x0 + w)
  {
    hide Cell, SoftmaxPic, Framed, ExpLike;
    var pic := SoftmaxPic(exp, src, base, c, hw);
    forall x: nat, y: nat | x < x0 + w && y < c ensures Cell(now, base, hw, x, y) == pic(x, y) {
      if x < x0 {
        assert Cell(now, base, hw, x, y) == Cell(was, base, hw, x, y) == pic(x, y);
      }
    }
  }

  /** The blocks of lanes, then the scalar tail; without lanes all is tail. */
  method Batch(exp: Fn, src: seq<real>, dst: array<real>, base: nat, c: nat, hw: nat, lanes: nat)
    requires ExpLike(exp) && c > 0 && c * hw >= 0 && base + c * hw <= |src| && base + c * hw <= dst.Length
    modifies dst
    ensures BatchDone(exp, src, dst[..], base, c, hw, hw) && Framed(dst[..], old(dst[..]), base, hw, c)
  {
    hide *;
    var start := 0;
    BatchStart(exp, src, dst[..], base, c, hw);
    FramedSame(dst[..], base, hw, c);
    if lanes > 0 {
      var i := 0;
      ghost var k := 0;
      while i + lanes <= hw
        invariant i <= hw && i == k * lanes
        invariant BatchDone(exp, src, dst[..], base, c, hw, i) && Framed(dst[..], old(dst[..]), base, hw, c)
      {
        Grow(exp, src, dst, base, c, hw, i, lanes, old(dst[..]));
        MulDist(k, 1, lanes);
        i, k := i + lanes, k + 1;
      }
      DivModUnique(hw, lanes, k, hw - i);
      start := hw / lanes * lanes;
    }
    for i := start to hw
      invariant BatchDone(exp, src, dst[..], base, c, hw, i) && Framed(dst[..], old(dst[..]), base, hw, c)
    {
      GrowOne(exp, src, dst, base + i, base, c, hw, i, old(dst[..]));
    }
  }

  lemma BatchStart(exp: Fn, src: seq<real>, out: seq<real>, base: nat, c: nat, hw: nat)
    requires ExpLike(exp)
    ensures BatchDone(exp, src, out, base, c, hw, 0)
  {
  }

  /** One block, on top of what is done. */
  method Grow(exp: Fn, src: seq<real>, dst: array<real>, base: nat, c: nat, hw: nat, x0: nat, w: nat,
          ghost first: seq<real>)
    requires ExpLike(exp) && c > 0 && c * hw >= 0 && base + c * hw <= |src| && base + c * hw <= dst.Length
    requires x0 + w <= hw && BatchDone(exp, src, dst[..], base, c, hw, x0) && Framed(dst[..], first, base, hw, c)
    modifies dst
    ensures BatchDone(exp, src, dst[..], base, c, hw, x0 + w) && Framed(dst[..], first, base, hw, c)
    ensures OnlyColumns(old(dst[..]), dst[..], base, c, hw, x0, w)
  {
    hide *;
    ghost var was := dst[..];
    Block(exp, src, dst, base, c, hw, x0, w);
    BatchGrows(exp, src, was, dst[..], base, c, hw, x0, w);
    ColumnsFramed(was, dst[..], base, c, hw, x0, w);
    FramedTrans(first, was, dst[..], base, hw, c);
  }

  /** One location, on top of what is done. */
  method GrowOne(exp: Fn, src: seq<real>, dst: array<real>, start: nat, ghost base: nat, c: nat, hw: nat,
          ghost x0: nat, ghost first: seq<real>)
    requires ExpLike(exp) && c > 0 && c * hw >= 0 && base + c * hw <= |src| && base + c * hw <= dst.Length
    requires start == base + x0 && x0 + 1 <= hw && BatchDone(exp, src, dst[..], base, c, hw, x0)
             && Framed(dst[..], first, base, hw, c)
    modifies dst
    ensures BatchDone(exp, src, dst[..], base, c, hw, x0 + 1) && Framed(dst[..], first, base, hw, c)
    ensures OnlyColumns(old(dst[..]), dst[..], base, c, hw, x0, 1)
  {
    hide *;
    ghost var was := dst[..];
    Location(exp, src, dst, start, base, c, hw, x0);
    BatchGrows(exp, src, was, dst[..], base, c, hw, x0, 1);
    ColumnsFramed(was, dst[..], base, c, hw, x0, 1);
    FramedTrans(first, was, dst[..], base, hw, c);
  }

  lemma ColumnsFramed(was: seq<real>, now: seq<real>, base: nat, c: nat, hw: nat, x0: nat, w: nat)
    requires OnlyColumns(was, now, base, c, hw, x0, w)
    ensures Framed(now, was, base, hw, c)
  {
  }

  /** Where batch b starts. */
  function BatchBase(base: nat, c: nat, hw: nat, b: nat): (o: nat)
    ensures o >= base
  {
    MulMono(0, c, hw);
    MulMono(0, b, c * hw);
    base + b * (c * hw)
  }

  lemma BatchesApart(base: nat, c: nat, hw: nat, a: nat, b: nat)
    requires a < b
    ensures c * hw >= 0 && BatchBase(base, c, hw, a) + c * hw <= BatchBase(base, c, hw, b)
  {
    MulMono(0, c, hw);
    MulMono(a + 1, b, c * hw);
    MulDist(a, 1, c * hw);
  }

  /** Writing inside one batch leaves the others alone. */
  lemma OthersKept(exp: Fn, src: seq<real>, was: seq<real>, now: seq<real>, base: nat, c: nat, hw: nat, a: nat,
          b: nat, x: nat)
    requires a != b && x <= hw && Framed(now, was, BatchBase(base, c, hw, b), hw, c)
    requires BatchDone(exp, src, was, BatchBase(base, c, hw, a), c, hw, x)
    ensures BatchDone(exp, src, now, BatchBase(base, c, hw, a), c, hw, x)
  {
    var at := BatchBase(base, c, hw, a);
    if a < b { BatchesApart(base, c, hw, a, b); } else { BatchesApart(base, c, hw, b, a); }
    hide BatchBase, ExpLike, SoftmaxPic;
    forall x': nat, y: nat | x' < x && y < c
      ensures Cell(now, at, hw, x', y) == Cell(was, at, hw, x', y)
    {
      RunFits(c, hw, y, x', 1);
    }
  }

  /** Every batch has its softmax. */
  ghost predicate Softened(exp: Fn, src: seq<real>, out: seq<real>, base: nat, batches: nat, c: nat, hw: nat) {
    forall b: nat :: b < batches ==> BatchDone(exp, src, out, BatchBase(base, c, hw, b), c, hw, hw)
  }

  method SoftmaxGeneric(exp: Fn, src: seq<real>, dst: array<real>, base: nat, batches: nat, c: nat, hw: nat, lanes: nat)
    requires ExpLike(exp) && c > 0
    requires BatchBase(base, c, hw, batches) <= |src| && BatchBase(base, c, hw, batches) <= dst.Length
    modifies dst
    ensures Softened(exp, src, dst[..], base, batches, c, hw)
    ensures forall t :: 0 <= t < dst.Length && !(base <= t < BatchBase(base, c, hw, batches)) ==> dst[t] == old(dst[t])
  {
    hide *;
    BatchNone(exp, src, dst[..], base, c, hw);
    for b := 0 to batches
      invariant Softened(exp, src, dst[..], base, b, c, hw)
      invariant forall t :: 0 <= t < dst.Length && !(base <= t < BatchBase(base, c, hw, b)) ==> dst[t] == old(dst[t])
    {
      BatchesApart(base, c, hw, b, b + 1);
      if b + 1 < batches { BatchesApart(base, c, hw, b + 1, batches); }
      ghost var was := dst[..];
      Batch(exp, src, dst, BatchBase(base, c, hw, b), c, hw, lanes);
      SoftenedMore(exp, src, was, dst[..], base, b, c, hw);
    }
  }

  lemma BatchNone(exp: Fn, src: seq<real>, out: seq<real>, base: nat, c: nat, hw: nat)
    ensures Softened(exp, src, out, base, 0, c, hw) && BatchBase(base, c, hw, 0) == base
  {
  }

  lemma SoftenedMore(exp: Fn, src: seq<real>, was: seq<real>, now: seq<real>, base: nat, b: nat, c: nat, hw: nat)
    requires Softened(exp, src, was, base, b, c, hw) && Framed(now, was, BatchBase(base, c, hw, b), hw, c)
    requires BatchDone(exp, src, now, BatchBase(base, c, hw, b), c, hw, hw)
    ensures Softened(exp, src, now, base, b + 1, c, hw)
    ensures |now| == |was|
    ensures forall t :: 0 <= t < |was| && !(base <= t < BatchBase(base, c, hw, b + 1)) ==> now[t] == was[t]
  {
    hide BatchDone;
    BatchesApart(base, c, hw, b, b + 1);
    assert hw * c == c * hw;
    forall a: nat | a < b ensures BatchDone(exp, src, now, BatchBase(base, c, hw, a), c, hw, hw) {
      OthersKept(exp, src, was, now, base, c, hw, a, b, hw);
    }
  }

  /** What is done of batch b when location i, counted over all batches, is next. */
  function Upto(hw: nat, i: nat, b: nat): nat
    requires hw > 0
  {
    if b < i / hw then hw else if b == i / hw then i % hw else 0
  }

  lemma UptoStep(hw: nat, i: nat, b: nat)
    requires hw > 0
    ensures Upto(hw, i, i / hw) + 1 == Upto(hw, i + 1, i / hw)
    ensures b != i / hw ==> Upto(hw, i + 1, b) == Upto(hw, i, b)
    ensures Upto(hw, i, b) <= hw
  {
    var q, r := i / hw, i % hw;
    if r + 1 < hw {
      DivModUnique(i + 1, hw, q, r + 1);
    } else {
      MulDist(q, 1, hw);
      DivModUnique(i + 1, hw, q + 1, 0);
    }
  }

  /** The pointers shifted by all earlier batches less the locations counted in them: indexed by the running count
      they address the location in its own batch. */
  lemma ShiftedPointer(base: nat, c: nat, hw: nat, i: nat)
    requires hw > 0
    ensures base + (i / hw * c * hw - i / hw * hw) + i == BatchBase(base, c, hw, i / hw) + i % hw
  {
    MulAssoc(i / hw, c, hw);
  }

  ghost predicate DoneUpto(exp: Fn, src: seq<real>, out: seq<real>, base: nat, batches: nat, c: nat, hw: nat, i: nat)
    requires hw > 0
  {
    forall b: nat :: b < batches ==> BatchDone(exp, src, out, BatchBase(base, c, hw, b), c, hw, Upto(hw, i, b))
  }

  lemma OneMore(exp: Fn, src: seq<real>, was: seq<real>, now: seq<real>, base: nat, batches: nat, c: nat, hw: nat,
          i: nat)
    requires hw > 0 && i / hw < batches && DoneUpto(exp, src, was, base, batches, c, hw, i)
    requires BatchDone(exp, src, now, BatchBase(base, c, hw, i / hw), c, hw, i % hw + 1)
    requires Framed(now, was, BatchBase(base, c, hw, i / hw), hw, c)
    ensures DoneUpto(exp, src, now, base, batches, c, hw, i + 1)
  {
    hide BatchDone, Framed, BatchBase;
    forall b: nat | b < batches
      ensures BatchDone(exp, src, now, BatchBase(base, c, hw, b), c, hw, Upto(hw, i + 1, b))
    {
      UptoStep(hw, i, b);
      if b != i / hw {
        OthersKept(exp, src, was, now, base, c, hw, b, i / hw, Upto(hw, i, b));
      }
    }
  }

  lemma NothingYet(exp: Fn, src: seq<real>, out: seq<real>, base: nat, batches: nat, c: nat, hw: nat)
    requires hw > 0 && ExpLike(exp)
    ensures DoneUpto(exp, src, out, base, batches, c, hw, 0)
  {
    DivModUnique(0, hw, 0, 0);
    forall b: nat | b < batches
      ensures BatchDone(exp, src, out, BatchBase(base, c, hw, b), c, hw, Upto(hw, 0, b))
    {
      BatchStart(exp, src, out, BatchBase(base, c, hw, b), c, hw);
    }
  }

  lemma AllDone(exp: Fn, src: seq<real>, out: seq<real>, base: nat, batches: nat, c: nat, hw: nat)
    requires hw > 0 && DoneUpto(exp, src, out, base, batches, c, hw, batches * hw)
    ensures Softened(exp, src, out, base, batches, c, hw)
  {
    hide BatchDone, BatchBase;
    DivModUnique(batches * hw, hw, batches, 0);
    forall b: nat | b < batches ensures BatchDone(exp, src, out, BatchBase(base, c, hw, b), c, hw, hw) {
      assert Upto(hw, batches * hw, b) == hw;
    }
  }

  /** One location after the other, over all batches. */
  method SoftmaxManyBatches(exp: Fn, src: seq<real>, dst: array<real>, base: nat, batches: nat, c: nat, hw: nat)
    requires ExpLike(exp) && c > 0
    requires BatchBase(base, c, hw, batches) <= |src| && BatchBase(base, c, hw, batches) <= dst.Length
    modifies dst
    ensures Softened(exp, src, dst[..], base, batches, c, hw)
    ensures forall t :: 0 <= t < dst.Length && !(base <= t < BatchBase(base, c, hw, batches)) ==> dst[t] == old(dst[t])
  {
    if hw == 0 {
      EmptyPlane(exp, src, dst[..], base, batches, c);
      return;
    }
    hide *;
    MulMono(0, batches, hw);
    NothingYet(exp, src, dst[..], base, batches, c, hw);
    for i := 0 to batches * hw
      invariant DoneUpto(exp, src, dst[..], base, batches, c, hw, i)
      invariant forall t :: 0 <= t < dst.Length && !(base <= t < BatchBase(base, c, hw, batches))
                  ==> dst[t] == old(dst[t])
    {
      assert hw * batches == batches * hw;
      DivBound(i, hw, batches);
      Room(base, c, hw, i / hw, batches);
      ghost var was := dst[..];
      OneLocation(exp, src, dst, base, batches, c, hw, i);
      OneMore(exp, src, was, dst[..], base, batches, c, hw, i);
    }
    AllDone(exp, src, dst[..], base, batches, c, hw);
  }

  lemma Room(base: nat, c: nat, hw: nat, b: nat, batches: nat)
    requires b < batches
    ensures c * hw >= 0 && base <= BatchBase(base, c, hw, b)
            && BatchBase(base, c, hw, b) + c * hw <= BatchBase(base, c, hw, batches)
  {
    BatchesApart(base, c, hw, b, batches);
  }

  lemma EmptyPlane(exp: Fn, src: seq<real>, out: seq<real>, base: nat, batches: nat, c: nat)
    requires ExpLike(exp)
    ensures Softened(exp, src, out, base, batches, c, 0)
  {
  }

  method OneLocation(exp: Fn, src: seq<real>, dst: array<real>, base: nat, ghost batches: nat, c: nat, hw: nat, i: nat)
    requires ExpLike(exp) && c > 0 && hw > 0 && i / hw < batches
    requires BatchBase(base, c, hw, batches) <= |src| && BatchBase(base, c, hw, batches) <= dst.Length
    requires DoneUpto(exp, src, dst[..], base, batches, c, hw, i)
    modifies dst
    ensures BatchDone(exp, src, dst[..], BatchBase(base, c, hw, i / hw), c, hw, i % hw + 1)
    ensures Framed(dst[..], old(dst[..]), BatchBase(base, c, hw, i / hw), hw, c)
    ensures forall t :: 0 <= t < dst.Length && !(base <= t < BatchBase(base, c, hw, batches)) ==> dst[t] == old(dst[t])
  {
    hide Cell, BatchDone, BatchBase, ExpLike;
    Room(base, c, hw, i / hw, batches);
    ghost var at := BatchBase(base, c, hw, i / hw);
    assert Upto(hw, i, i / hw) == i % hw;
    FramedSame(dst[..], at, hw, c);
    ShiftedPointer(base, c, hw, i);
    var shift := i / hw * c * hw - i / hw * hw;
    GrowOne(exp, src, dst, base + shift + i, at, c, hw, i % hw, old(dst[..]));
    assert hw * c == c * hw;
  }

  /** The two codes compute the same: with any number of lanes, blocks and tail equal one location at a time. */
  lemma SameSoftmax(exp: Fn, src: seq<real>, a: seq<real>, b: seq<real>, base: nat, batches: nat, c: nat, hw: nat,
          t: nat)
    requires c > 0 && hw > 0 && base <= t < BatchBase(base, c, hw, batches) <= |a| == |b|
    requires Softened(exp, src, a, base, batches, c, hw) && Softened(exp, src, b, base, batches, c, hw)
    ensures a[t] == b[t]
  {
    MulMono(1, c, hw);
    var n := c * hw;
    assert n * batches == batches * n;
    DivBound(t - base, n, batches);
    var k: nat := (t - base) / n;
    var r: nat := (t - base) % n;
    assert n == hw * c;
    DivBound(r, hw, c);
    var x: nat, y: nat := r % hw, r / hw;
    var at := BatchBase(base, c, hw, k);
    var pic := SoftmaxPic(exp, src, at, c, hw);
    assert BatchDone(exp, src, a, at, c, hw, hw) && BatchDone(exp, src, b, at, c, hw, hw);
    assert t == at + y * hw + x;
    hide Cell, SoftmaxPic;
    ShowsAt(a, at, hw, pic, 0, c, 0, hw, x, y);
    ShowsAt(b, at, hw, pic, 0, c, 0, hw, x, y);
    CellIs(a, at, hw, x, y);
    CellIs(b, at, hw, x, y);
  }
}
