/** The feature map of an image: a pass over the inner pixels for magnitudes and directions, the weights, and the
    accumulation over the cells. */
module HogFeatures {
  import opened HogGradient
  import opened HogMap
  import opened Nonlinear
  import opened Tensor

  /** The derivatives of one pixel, a value per channel. */
  type Derivative = (nat, nat) -> seq<real>

  /** What the passes read: derivatives by row and column, the magnitude, and the boundaries of the sectors. */
  datatype Field = Field(width: nat, height: nat, dx: Derivative, dy: Derivative, magnitude: (real, real) -> real,
                         dirX: seq<real>, dirY: seq<real>)

  ghost predicate Legal(f: Field) {
    && |f.dirX| > NUM_SECTOR && |f.dirY| > NUM_SECTOR
    && forall y: nat, x: nat :: |f.dx(y, x)| == |f.dy(y, x)| > 0
  }

  /** Channel c is the first of the greatest magnitude, and direction m the first of the greatest product. */
  ghost predicate Chosen(f: Field, y: nat, x: nat, c: nat, m: nat)
    requires Legal(f)
  {
    var gx, gy := f.dx(y, x), f.dy(y, x);
    && c < |gx| && m < 2 * NUM_SECTOR
    && (forall ch :: 0 <= ch < |gx| ==> f.magnitude(gx[ch], gy[ch]) <= f.magnitude(gx[c], gy[c]))
    && (forall ch :: 0 <= ch < c ==> f.magnitude(gx[ch], gy[ch]) < f.magnitude(gx[c], gy[c]))
    && (forall n: nat :: n < 2 * NUM_SECTOR ==>
          Along(f.dirX, f.dirY, gx[c], gy[c], n) <= Along(f.dirX, f.dirY, gx[c], gy[c], m))
    && (forall n: nat :: n < 2 * NUM_SECTOR && Turn(n) < Turn(m) ==>
          Along(f.dirX, f.dirY, gx[c], gy[c], n) < Along(f.dirX, f.dirY, gx[c], gy[c], m))
  }

  /** The three numbers stored for a pixel. */
  ghost predicate Described(f: Field, y: nat, x: nat, r: real, a0: nat, a1: nat)
    requires Legal(f)
  {
    && a0 == a1 % NUM_SECTOR
    && exists c: nat :: Chosen(f, y, x, c, a1) && r == f.magnitude(f.dx(y, x)[c], f.dy(y, x)[c])
  }

  function Spot(f: Field, y: nat, x: nat): (d: nat)
    ensures x < f.width && y < f.height ==> d < f.width * f.height
  {
    MulMono(0, y, f.width);
    if x < f.width && y < f.height then
      Digit(f.width, y, x, f.height);
      assert f.height * f.width == f.width * f.height;
      y * f.width + x
    else y * f.width + x
  }

  lemma SpotsApart(f: Field, y: nat, x: nat, y': nat, x': nat)
    requires x < f.width && x' < f.width && Spot(f, y, x) == Spot(f, y', x')
    ensures y == y' && x == x'
  {
    DivModUnique(Spot(f, y, x), f.width, y, x);
    DivModUnique(Spot(f, y, x), f.width, y', x');
  }

  /** The inner pixels before column i of row j are described. */
  ghost predicate Done(f: Field, r: seq<real>, alfa: seq<nat>, j: nat, i: nat)
    requires Legal(f)
  {
    && |r| == f.width * f.height && |alfa| == 2 * (f.width * f.height)
    && forall y: nat, x: nat {:trigger Spot(f, y, x)} ::
         0 < y < f.height - 1 && 0 < x < f.width - 1 && (y < j || (y == j && x < i)) ==>
         var d := Spot(f, y, x); Described(f, y, x, r[d], alfa[2 * d], alfa[2 * d + 1])
  }

  /** One inner pixel. */
  method Describe(f: Field, y: nat, x: nat) returns (r: real, a0: nat, a1: nat)
    requires Legal(f)
    ensures Described(f, y, x, r, a0, a1)
  {
    var gx, gy := f.dx(y, x), f.dy(y, x);
    var c, vx, vy;
    r, c, vx, vy := StrongestChannel(f.magnitude, gx, gy);
    a1 := ChooseSector(f.dirX, f.dirY, vx, vy);
    a0 := a1 % NUM_SECTOR;
    assert Chosen(f, y, x, c, a1);
  }

  lemma OneMore(f: Field, wasR: seq<real>, wasA: seq<nat>, j: nat, i: nat, r: real, a0: nat, a1: nat)
    requires Legal(f) && Done(f, wasR, wasA, j, i) && i < f.width && j < f.height && Described(f, j, i, r, a0, a1)
    ensures var d := Spot(f, j, i);
            d < |wasR| && Done(f, wasR[d := r], wasA[2 * d := a0][2 * d + 1 := a1], j, i + 1)
  {
    hide Described, Legal;
    var d := Spot(f, j, i);
    var nowR, nowA := wasR[d := r], wasA[2 * d := a0][2 * d + 1 := a1];
    forall y: nat, x: nat | 0 < y < f.height - 1 && 0 < x < f.width - 1 && (y < j || (y == j && x < i + 1))
      ensures var e := Spot(f, y, x); Described(f, y, x, nowR[e], nowA[2 * e], nowA[2 * e + 1])
    {
      if Spot(f, y, x) == d {
        SpotsApart(f, y, x, j, i);
      }
    }
  }

  lemma NextRow(f: Field, r: seq<real>, alfa: seq<nat>, j: nat, i: nat)
    requires Legal(f) && Done(f, r, alfa, j, i) && i >= f.width - 1
    ensures Done(f, r, alfa, j + 1, 1)
  {
    hide Described, Legal, Spot;
  }

  /** The pixels of the border are as they were. */
  ghost predicate BorderKept(f: Field, wasR: seq<real>, wasA: seq<nat>, r: seq<real>, alfa: seq<nat>) {
    && |r| == |wasR| == f.width * f.height && |alfa| == |wasA| == 2 * (f.width * f.height)
    && forall y: nat, x: nat {:trigger Spot(f, y, x)} ::
         y < f.height && x < f.width && !(0 < y < f.height - 1 && 0 < x < f.width - 1) ==>
         var d := Spot(f, y, x); r[d] == wasR[d] && alfa[2 * d] == wasA[2 * d] && alfa[2 * d + 1] == wasA[2 * d + 1]
  }

  lemma InnerStored(f: Field, wasR: seq<real>, wasA: seq<nat>, r: seq<real>, alfa: seq<nat>, j: nat, i: nat, v: real,
                    a0: nat, a1: nat)
    requires BorderKept(f, wasR, wasA, r, alfa) && 0 < j < f.height - 1 && 0 < i < f.width - 1
    ensures var d := Spot(f, j, i);
            d < |r| && 2 * d + 1 < |alfa|
            && BorderKept(f, wasR, wasA, r[d := v], alfa[2 * d := a0][2 * d + 1 := a1])
  {
    var d := Spot(f, j, i);
    var now, nowA := r[d := v], alfa[2 * d := a0][2 * d + 1 := a1];
    forall y: nat, x: nat | y < f.height && x < f.width && !(0 < y < f.height - 1 && 0 < x < f.width - 1)
      ensures var e := Spot(f, y, x);
              now[e] == wasR[e] && nowA[2 * e] == wasA[2 * e] && nowA[2 * e + 1] == wasA[2 * e + 1]
    {
      if Spot(f, y, x) == d {
        SpotsApart(f, y, x, j, i);
      }
    }
  }

  /** The pass over all inner pixels. */
  method FirstPass(f: Field, r: array<real>, alfa: array<nat>)
    requires Legal(f) && r.Length == f.width * f.height && alfa.Length == 2 * (f.width * f.height)
    modifies r, alfa
    ensures Done(f, r[..], alfa[..], f.height, 1)
    ensures BorderKept(f, old(r[..]), old(alfa[..]), r[..], alfa[..])
  {
    hide *;
    var j := 1;
    Nothing(f, r[..], alfa[..]);
    while j < f.height - 1
      invariant 1 <= j && Done(f, r[..], alfa[..], j, 1)
      invariant BorderKept(f, old(r[..]), old(alfa[..]), r[..], alfa[..])
    {
      Row(f, r, alfa, j, old(r[..]), old(alfa[..]));
      j := j + 1;
    }
    Whole(f, r[..], alfa[..], j);
  }

  lemma Nothing(f: Field, r: seq<real>, alfa: seq<nat>)
    requires Legal(f) && |r| == f.width * f.height && |alfa| == 2 * (f.width * f.height)
    ensures Done(f, r, alfa, 1, 1) && BorderKept(f, r, alfa, r, alfa)
  {
  }

  lemma Whole(f: Field, r: seq<real>, alfa: seq<nat>, j: nat)
    requires Legal(f) && Done(f, r, alfa, j, 1) && j >= f.height - 1
    ensures Done(f, r, alfa, f.height, 1)
  {
    hide Described, Legal, Spot;
  }

  method Row(f: Field, r: array<real>, alfa: array<nat>, j: nat, ghost wasR: seq<real>, ghost wasA: seq<nat>)
    requires Legal(f) && 0 < j < f.height - 1 && Done(f, r[..], alfa[..], j, 1)
    requires BorderKept(f, wasR, wasA, r[..], alfa[..])
    modifies r, alfa
    ensures Done(f, r[..], alfa[..], j + 1, 1) && BorderKept(f, wasR, wasA, r[..], alfa[..])
  {
    hide *;
    var i := 1;
    while i < f.width - 1
      invariant 1 <= i && Done(f, r[..], alfa[..], j, i) && BorderKept(f, wasR, wasA, r[..], alfa[..])
    {
      var v, a0, a1 := Describe(f, j, i);
      OneMore(f, r[..], alfa[..], j, i, v, a0, a1);
      InnerStored(f, wasR, wasA, r[..], alfa[..], j, i, v, a0, a1);
      var d := Spot(f, j, i);
      Sizes(f, r[..], alfa[..], j, i);
      r[d] := v;
      alfa[d * 2] := a0;
      alfa[d * 2 + 1] := a1;
      i := i + 1;
    }
    NextRow(f, r[..], alfa[..], j, i);
  }

  lemma Sizes(f: Field, r: seq<real>, alfa: seq<nat>, j: nat, i: nat)
    requires Legal(f) && Done(f, r, alfa, j, i)
    ensures |alfa| == 2 * |r|
  {
  }

  /** A described image is fit for the accumulation. */
  lemma DoneSound(f: Field, im: Image)
    requires Legal(f) && Done(f, im.r, im.alfa, f.height, 1) && im.width == f.width && im.height == f.height
    requires im.k > 0 && |im.w| == 2 * im.k && |im.nearest| == im.k
    requires forall h :: 0 <= h < im.k ==> im.nearest[h] == -1 || im.nearest[h] == 1
    ensures Sound(im)
  {
    hide Inner, Directed, Offset, Legal, Done;
    forall p: Place | Inside(Pixels(im), p) && Inner(im, p)
      ensures Directed(im, Offset(im, p))
    {
      InnerDirected(f, im, p, p.b * im.k + p.h, p.c * im.k + p.w);
    }
  }

  lemma InnerDirected(f: Field, im: Image, p: Place, y: int, x: int)
    requires Legal(f) && Done(f, im.r, im.alfa, f.height, 1) && im.width == f.width && im.height == f.height
    requires Inner(im, p) && y == p.b * im.k + p.h && x == p.c * im.k + p.w
    ensures Directed(im, Offset(im, p))
  {
    assert im.k * p.b == p.b * im.k;
    var d := Spot(f, y, x);
    assert Offset(im, p) == d;
    assert Described(f, y, x, im.r[d], im.alfa[2 * d], im.alfa[2 * d + 1]);
    hide Done, Inner, Offset, Spot, Legal, Chosen;
    SectorInRange(f, y, x, im.r[d], im.alfa[2 * d], im.alfa[2 * d + 1]);
  }

  lemma SectorInRange(f: Field, y: nat, x: nat, r: real, a0: nat, a1: nat)
    requires Legal(f) && Described(f, y, x, r, a0, a1)
    ensures a1 < 18 && a0 == a1 % 9
  {
  }

  /** The feature map from the derivatives on. */
  method FeatureMap(f: Field, k: nat) returns (im: Image, hist: array<real>)
    requires Legal(f) && k > 0
    ensures im.width == f.width && im.height == f.height && im.k == k
    ensures Done(f, im.r, im.alfa, f.height, 1)
    ensures Sound(im) && FilledTables(im)
    ensures hist.Length == Entries(im) && forall u :: 0 <= u < hist.Length ==> hist[u] == Gathered(im, u)
  {
    MulMono(0, f.width, f.height);
    var r, alfa := new real[f.width * f.height], new nat[2 * (f.width * f.height)];
    FirstPass(f, r, alfa);
    var w, nearest := FillWeights(k);
    hide Done, Weighted, Legal, Sound, Gathered, Entries;
    im := Image(f.width, f.height, k, r[..], alfa[..], w[..], nearest[..]);
    DoneSound(f, im);
    hist := new real[Entries(im)](_ => 0.0);
    Accumulate(im, hist);
  }
}
