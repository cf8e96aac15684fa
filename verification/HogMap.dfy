/** The histogram of oriented gradients: every inner pixel is shared out over up to four cells, under its
    direction among 9 and under its direction among 18. */
module HogMap {
  import opened HogGradient
  import opened Nonlinear
  import opened Sums
  import opened Tensor

  const FEATURES: nat := 27

  /** The inputs of the accumulation: per pixel a magnitude and two sector numbers, per pixel of a cell two weights
      and the direction of the nearest other cell. */
  datatype Image = Image(width: nat, height: nat, k: nat, r: seq<real>, alfa: seq<nat>, w: seq<real>, nearest: seq<int>)

  function SizeX(im: Image): nat requires im.k > 0 { im.width / im.k }

  function SizeY(im: Image): nat requires im.k > 0 { im.height / im.k }

  /** The loops run over the rows and columns of cells, then over the pixels of a cell. */
  function Pixels(im: Image): Grid
    requires im.k > 0
  {
    Grid(SizeY(im), SizeX(im), im.k, im.k)
  }

  predicate Inner(im: Image, p: Place) {
    && 0 < p.b * im.k + p.h < im.height - 1
    && 0 < p.c * im.k + p.w < im.width - 1
  }

  /** The offset of a pixel in the image. */
  function Offset(im: Image, p: Place): int {
    (im.k * p.b + p.h) * im.width + (p.c * im.k + p.w)
  }

  ghost predicate Directed(im: Image, d: int) {
    && 0 <= d < |im.r| && 2 * d + 1 < |im.alfa|
    && im.alfa[2 * d + 1] < 18 && im.alfa[2 * d] == im.alfa[2 * d + 1] % 9
  }

  /** Every inner pixel has its direction, and the tables have an entry for every pixel of a cell. */
  ghost predicate Sound(im: Image) {
    && im.k > 0 && |im.w| == 2 * im.k && |im.nearest| == im.k
    && (forall h :: 0 <= h < im.k ==> im.nearest[h] == -1 || im.nearest[h] == 1)
    && (forall p: Place :: Inside(Pixels(im), p) && Inner(im, p) ==> Directed(im, Offset(im, p)))
  }

  /** The row of cells, or column, that a pixel reaches besides its own. */
  function Beside(im: Image, own: nat, h: nat): int {
    if h < |im.nearest| then own + im.nearest[h] else own
  }

  function Weight(im: Image, i: nat): real {
    if i < |im.w| then im.w[i] else 0.0
  }

  function Magnitude(im: Image, p: Place): real {
    var d := Offset(im, p);
    if 0 <= d < |im.r| then im.r[d] else 0.0
  }

  function Sector(im: Image, p: Place): nat {
    var d := Offset(im, p);
    if 0 <= 2 * d + 1 < |im.alfa| then im.alfa[2 * d + 1] else 0
  }

  /** What a share v put into a cell under sector a adds to entry u of the map. */
  function Put(sizeX: int, row: int, col: int, a: nat, v: real, u: int): real {
    var cell := (row * sizeX + col) * FEATURES;
    if u == cell + a % 9 || u == cell + 9 + a then v else 0.0
  }

  /** The same, nothing being added where there is no such cell. */
  function Corner(sizeX: nat, sizeY: nat, row: int, col: int, a: nat, v: real, u: int): real {
    if 0 <= row < sizeY && 0 <= col < sizeX then Put(sizeX, row, col, a, v, u) else 0.0
  }

  /** A magnitude with its two weights. */
  function Weighed(m: real, a: real, b: real): real {
    m * a * b
  }

  /** The part of a pixel's magnitude that goes to its own row (dh = 0) or the row beside, and likewise column. */
  function Part(im: Image, p: Place, dh: nat, dw: nat): real {
    Weighed(Magnitude(im, p), Weight(im, 2 * p.h + dh), Weight(im, 2 * p.w + dw))
  }

  /** The cell that a share goes to. */
  function Row(im: Image, p: Place, dh: nat): int { if dh == 0 then p.b else Beside(im, p.b, p.h) }

  function Col(im: Image, p: Place, dw: nat): int { if dw == 0 then p.c else Beside(im, p.c, p.w) }

  function Share(im: Image, p: Place, dh: nat, dw: nat, u: int): real
    requires im.k > 0
  {
    Corner(SizeX(im), SizeY(im), Row(im, p, dh), Col(im, p, dw), Sector(im, p), Part(im, p, dh, dw), u)
  }

  /** What one pixel adds to entry u. */
  function Deposit(im: Image, p: Place, u: int): real
    requires im.k > 0
  {
    if Inner(im, p) then Share(im, p, 0, 0, u) + Share(im, p, 1, 0, u) + Share(im, p, 0, 1, u) + Share(im, p, 1, 1, u)
    else 0.0
  }

  ghost predicate Paired(im: Image, p: Place) {
    Inner(im, p) ==> Sector(im, p) < 18
  }

  lemma PutSplits(sizeX: int, row: int, col: int, a: nat, v: real, cell: int, s: nat)
    requires a < 18 && s < 9
    ensures Put(sizeX, row, col, a, v, cell * FEATURES + s)
            == Put(sizeX, row, col, a, v, cell * FEATURES + 9 + s)
               + Put(sizeX, row, col, a, v, cell * FEATURES + 18 + s)
  {
    var n := row * sizeX + col;
    assert a % 9 == if a < 9 then a else a - 9;
    hide Put;
    PutAt(sizeX, row, col, a, v, cell, s);
    PutAt(sizeX, row, col, a, v, cell, 9 + s);
    PutAt(sizeX, row, col, a, v, cell, 18 + s);
  }

  /** Entry f of a cell is hit by a share for that cell under the two numbers of its sector. */
  lemma PutAt(sizeX: int, row: int, col: int, a: nat, v: real, cell: int, f: nat)
    requires a < 18 && f < FEATURES
    ensures Put(sizeX, row, col, a, v, cell * FEATURES + f)
            == if cell == row * sizeX + col && (f == a % 9 || f == 9 + a) then v else 0.0
  {
  }

  /** One deposit keeps the unsigned histogram the sum of the two halves of the signed one. */
  lemma DepositSplits(im: Image, p: Place, cell: int, s: nat)
    requires im.k > 0 && Paired(im, p) && s < 9
    ensures Deposit(im, p, cell * FEATURES + s)
            == Deposit(im, p, cell * FEATURES + 9 + s) + Deposit(im, p, cell * FEATURES + 18 + s)
  {
    hide Share, Inner;
    if Inner(im, p) {
      ShareSplits(im, p, 0, 0, cell, s);
      ShareSplits(im, p, 1, 0, cell, s);
      ShareSplits(im, p, 0, 1, cell, s);
      ShareSplits(im, p, 1, 1, cell, s);
    }
  }

  lemma ShareSplits(im: Image, p: Place, dh: nat, dw: nat, cell: int, s: nat)
    requires im.k > 0 && Sector(im, p) < 18 && s < 9
    ensures Share(im, p, dh, dw, cell * FEATURES + s)
            == Share(im, p, dh, dw, cell * FEATURES + 9 + s) + Share(im, p, dh, dw, cell * FEATURES + 18 + s)
  {
    hide Corner, Part, SizeX, SizeY, Sector, Row, Col;
    CornerSplits(SizeX(im), SizeY(im), Row(im, p, dh), Col(im, p, dw), Sector(im, p), Part(im, p, dh, dw), cell, s);
  }

  lemma CornerSplits(sizeX: nat, sizeY: nat, row: int, col: int, a: nat, v: real, cell: int, s: nat)
    requires a < 18 && s < 9
    ensures Corner(sizeX, sizeY, row, col, a, v, cell * FEATURES + s)
            == Corner(sizeX, sizeY, row, col, a, v, cell * FEATURES + 9 + s)
               + Corner(sizeX, sizeY, row, col, a, v, cell * FEATURES + 18 + s)
  {
    hide Put;
    PutSplits(sizeX, row, col, a, v, cell, s);
  }

  /** How many entries the map has. */
  function Entries(im: Image): (n: nat)
    requires im.k > 0
  {
    MulMono(0, SizeY(im), SizeX(im));
    SizeY(im) * SizeX(im) * FEATURES
  }

  lemma CellFits(sizeX: nat, sizeY: nat, row: nat, col: nat)
    requires row < sizeY && col < sizeX
    ensures 0 <= (row * sizeX + col) * FEATURES <= sizeY * sizeX * FEATURES - FEATURES
    ensures row * (sizeX * FEATURES) + col * FEATURES == (row * sizeX + col) * FEATURES
  {
    Digit(sizeX, row, col, sizeY);
    MulAssoc(row, sizeX, FEATURES);
    MulDist(row * sizeX, col, FEATURES);
  }

  /** Two of the eight additions: one share under both numbers of its sector. */
  method AddCorner(hist: array<real>, sizeX: nat, ghost sizeY: nat, row: nat, col: nat, a0: nat, a1: nat, v: real)
    requires row < sizeY && col < sizeX && a1 < 18 && a0 == a1 % 9 && hist.Length == sizeY * sizeX * FEATURES
    modifies hist
    ensures forall u :: 0 <= u < hist.Length ==> hist[u] == old(hist[u]) + Corner(sizeX, sizeY, row, col, a1, v, u)
  {
    CellFits(sizeX, sizeY, row, col);
    var stringSize := sizeX * FEATURES;
    var at := row * stringSize + col * FEATURES;
    hist[at + a0] := hist[at + a0] + v;
    hist[at + a1 + 9] := hist[at + a1 + 9] + v;
    forall u | 0 <= u < hist.Length
      ensures hist[u] == old(hist[u]) + Corner(sizeX, sizeY, row, col, a1, v, u)
    {
      CornerIs(sizeX, sizeY, row, col, a1, v, u, at);
    }
  }

  lemma CornerIs(sizeX: nat, sizeY: nat, row: int, col: int, a: nat, v: real, u: int, at: int)
    requires 0 <= row < sizeY && 0 <= col < sizeX && at == (row * sizeX + col) * FEATURES
    ensures Corner(sizeX, sizeY, row, col, a, v, u) == if u == at + a % 9 || u == at + 9 + a then v else 0.0
  {
  }

  predicate Reaches(im: Image, p: Place, dh: nat, dw: nat)
    requires im.k > 0
  {
    0 <= Row(im, p, dh) < SizeY(im) && 0 <= Col(im, p, dw) < SizeX(im)
  }

  lemma NoShare(im: Image, p: Place, dh: nat, dw: nat, u: int)
    requires im.k > 0 && !Reaches(im, p, dh, dw)
    ensures Share(im, p, dh, dw, u) == 0.0
  {
    hide Put, Part, Beside, SizeX, SizeY, Sector;
  }

  /** One share, where its cell exists. */
  method AddShare(im: Image, hist: array<real>, p: Place, dh: nat, dw: nat)
    requires Sound(im) && Inside(Pixels(im), p) && Inner(im, p) && hist.Length == Entries(im)
    requires dh < 2 && dw < 2 && Reaches(im, p, dh, dw)
    modifies hist
    ensures forall u :: 0 <= u < hist.Length ==> hist[u] == old(hist[u]) + Share(im, p, dh, dw, u)
  {
    assert Directed(im, Offset(im, p));
    var d := (im.k * p.b + p.h) * im.width + (p.c * im.k + p.w);
    var a0, a1 := im.alfa[d * 2], im.alfa[d * 2 + 1];
    assert a1 == Sector(im, p) && im.r[d] == Magnitude(im, p);
    hide Sound, Inner, Directed, Offset, Put, Magnitude, Sector, Beside, Corner;
    var v := im.r[d] * im.w[p.h * 2 + dh] * im.w[p.w * 2 + dw];
    assert v == Part(im, p, dh, dw);
    AddCorner(hist, im.width / im.k, im.height / im.k, Row(im, p, dh), Col(im, p, dw), a0, a1, v);
  }

  /** The body of the innermost loop: the pixel's own cell, the one beside it in its column, in its row, and in both,
      as far as they exist. */
  method AddPixel(im: Image, hist: array<real>, p: Place)
    requires Sound(im) && Inside(Pixels(im), p) && hist.Length == Entries(im)
    modifies hist
    ensures forall u :: 0 <= u < hist.Length ==> hist[u] == old(hist[u]) + Deposit(im, p, u)
  {
    hide Sound, Share, Beside, Directed;
    if Inner(im, p) {
      hide Inner;
      var row, col := Row(im, p, 1), Col(im, p, 1);
      var rowInside, colInside := 0 <= row <= SizeY(im) - 1, 0 <= col <= SizeX(im) - 1;
      AddShare(im, hist, p, 0, 0);
      if rowInside {
        AddShare(im, hist, p, 1, 0);
      }
      Skipped(im, p, 1, 0);
      if colInside {
        AddShare(im, hist, p, 0, 1);
      }
      Skipped(im, p, 0, 1);
      if rowInside && colInside {
        AddShare(im, hist, p, 1, 1);
      }
      Skipped(im, p, 1, 1);
    }
  }

  lemma Skipped(im: Image, p: Place, dh: nat, dw: nat)
    requires im.k > 0
    ensures !Reaches(im, p, dh, dw) ==> forall u: int :: Share(im, p, dh, dw, u) == 0.0
  {
    hide Share, Reaches;
    if !Reaches(im, p, dh, dw) {
      forall u: int ensures Share(im, p, dh, dw, u) == 0.0 { NoShare(im, p, dh, dw, u); }
    }
  }

  /** Pixel number q, counted in the order of the loops, with what it adds to entry u. */
  function Entry(im: Image, u: int): Term
    requires im.k > 0
  {
    (q: nat) => if Full(Pixels(im)) then Deposit(im, Unflat(Pixels(im), q), u) else 0.0
  }

  /** Entry u of the map: the deposits of all pixels of all cells. */
  function Gathered(im: Image, u: int): real
    requires im.k > 0
  {
    SumTo(Entry(im, u), Size(Pixels(im)))
  }

  /** The map when the place with offset n is next. */
  ghost predicate Filled(im: Image, hist: seq<real>, n: nat)
    requires im.k > 0
  {
    forall u :: 0 <= u < |hist| ==> hist[u] == SumTo(Entry(im, u), n)
  }

  lemma FilledMore(im: Image, was: seq<real>, now: seq<real>, p: Place)
    requires im.k > 0 && Full(Pixels(im)) && Inside(Pixels(im), p) && |was| == |now|
    requires Filled(im, was, Flat(Pixels(im), p))
    requires forall u :: 0 <= u < |was| ==> now[u] == was[u] + Deposit(im, p, u)
    ensures Filled(im, now, Flat(Pixels(im), p) + 1)
  {
    hide Deposit, Flat, Unflat, Pixels, Size, Full;
    var n := Flat(Pixels(im), p);
    FlatInside(Pixels(im), p);
    forall u | 0 <= u < |now| ensures now[u] == SumTo(Entry(im, u), n + 1) {
      assert was[u] == SumTo(Entry(im, u), n);
      assert Entry(im, u)(n) == Deposit(im, p, u);
    }
  }

  /** The four loops over a cleared map. */
  method Accumulate(im: Image, hist: array<real>)
    requires Sound(im) && hist.Length == Entries(im)
    requires forall u :: 0 <= u < hist.Length ==> hist[u] == 0.0
    modifies hist
    ensures forall u :: 0 <= u < hist.Length ==> hist[u] == Gathered(im, u)
  {
    var g := Pixels(im);
    Cleared(im, hist[..]);
    hide Sound, Filled, Flat, Deposit, Pixels, Size, Entry, Entries, SumTo;
    for i := 0 to g.b
      invariant Filled(im, hist[..], Flat(g, Place(i, 0, 0, 0)))
    {
      for j := 0 to g.c
        invariant Filled(im, hist[..], Flat(g, Place(i, j, 0, 0)))
      {
        for ii := 0 to g.h
          invariant Filled(im, hist[..], Flat(g, Place(i, j, ii, 0)))
        {
          for jj := 0 to g.w
            invariant Filled(im, hist[..], Flat(g, Place(i, j, ii, jj)))
          {
            ghost var was := hist[..];
            AddPixel(im, hist, Place(i, j, ii, jj));
            FilledMore(im, was, hist[..], Place(i, j, ii, jj));
            Next(g, i, j, ii, jj);
          }
          Carry(g, i, j, ii);
        }
        Carry(g, i, j, 0);
      }
      Carry(g, i, 0, 0);
    }
    Carry(g, 0, 0, 0);
    Collected(im, hist[..]);
  }

  lemma Cleared(im: Image, hist: seq<real>)
    requires im.k > 0 && forall u :: 0 <= u < |hist| ==> hist[u] == 0.0
    ensures Filled(im, hist, Flat(Pixels(im), Place(0, 0, 0, 0)))
  {
  }

  lemma Collected(im: Image, hist: seq<real>)
    requires im.k > 0 && Filled(im, hist, Size(Pixels(im)))
    ensures forall u :: 0 <= u < |hist| ==> hist[u] == Gathered(im, u)
  {
  }

  lemma Pairing(im: Image, q: nat)
    requires Sound(im) && Full(Pixels(im)) && q < Size(Pixels(im))
    ensures Paired(im, Unflat(Pixels(im), q))
  {
    var p := Unflat(Pixels(im), q);
    UnflatInside(Pixels(im), q);
    if Inner(im, p) {
      assert Directed(im, Offset(im, p));
    }
  }

  lemma DepositSplitsAt(im: Image, p: Place, cell: int, u: int, s: nat)
    requires im.k > 0 && Paired(im, p) && s < 9 && u == cell * FEATURES
    ensures Deposit(im, p, u + s) == Deposit(im, p, u + 9 + s) + Deposit(im, p, u + 18 + s)
  {
    hide Deposit, Paired;
    DepositSplits(im, p, cell, s);
  }

  lemma EntryIs(im: Image, u: int, q: nat)
    requires im.k > 0
    ensures Entry(im, u)(q) == if Full(Pixels(im)) then Deposit(im, Unflat(Pixels(im), q), u) else 0.0
  {
    hide Deposit, Unflat, Pixels;
  }

  lemma EntrySplits(im: Image, cell: nat, u: nat, s: nat, q: nat)
    requires Sound(im) && s < 9 && q < Size(Pixels(im)) && u == cell * FEATURES
    ensures Entry(im, u + s)(q) == Entry(im, u + 9 + s)(q) + Entry(im, u + 18 + s)(q)
  {
    assert im.k > 0;
    hide Deposit, Unflat, Sound, Paired, Size, Pixels, Entry;
    EntryIs(im, u + s, q);
    EntryIs(im, u + 9 + s, q);
    EntryIs(im, u + 18 + s, q);
    if Full(Pixels(im)) {
      Pairing(im, q);
      DepositSplitsAt(im, Unflat(Pixels(im), q), cell, u, s);
    }
  }

  lemma SumSplits(im: Image, cell: nat, u: nat, s: nat, n: nat)
    requires Sound(im) && s < 9 && n == Size(Pixels(im)) && u == cell * FEATURES
    ensures SumTo(Entry(im, u + s), n) == SumTo(Entry(im, u + 9 + s), n) + SumTo(Entry(im, u + 18 + s), n)
  {
    assert im.k > 0;
    hide *;
    var f, g, h := Entry(im, u + s), Entry(im, u + 9 + s), Entry(im, u + 18 + s);
    forall q: nat | q < n ensures f(q) == g(q) + h(q) {
      EntrySplits(im, cell, u, s, q);
    }
    SumOfSums(f, g, h, n);
  }

  /** In every cell, for every sector, the unsigned entry is the sum of the two signed ones. */
  lemma UnsignedIsSum(im: Image, cell: nat, s: nat)
    requires Sound(im) && s < 9
    ensures Gathered(im, cell * FEATURES + s)
            == Gathered(im, cell * FEATURES + 9 + s) + Gathered(im, cell * FEATURES + 18 + s)
  {
    assert im.k > 0;
    hide Sound, Pixels, Size, Entry, SumTo;
    SumSplits(im, cell, cell * FEATURES, s, Size(Pixels(im)));
  }

  /** An entry of the unsigned histogram, as opposed to the signed one. */
  predicate Unsigned(u: nat) { u % FEATURES < 9 }

  /** Pixel by entry, what the pixels add to the unsigned histogram. */
  function UnsignedDeposits(im: Image): Table
    requires im.k > 0
  {
    (q: nat, u: nat) => if Unsigned(u) then Entry(im, u)(q) else 0.0
  }

  /** The total of the unsigned histogram. */
  function Mass(im: Image): real
    requires im.k > 0
  {
    SumTo((u: nat) => if Unsigned(u) then Gathered(im, u) else 0.0, Entries(im))
  }

  /** The weights that reach a row or column of cells that exists. */
  function Cover(im: Image, own: nat, h: nat, size: nat): real {
    Weight(im, 2 * h) + if 0 <= Beside(im, own, h) < size then Weight(im, 2 * h + 1) else 0.0
  }

  /** What a pixel should add: its magnitude times the weights in range. */
  function PixelMass(im: Image, p: Place): real
    requires im.k > 0
  {
    if Inner(im, p) then Weighed(Magnitude(im, p), Cover(im, p.b, p.h, SizeY(im)), Cover(im, p.c, p.w, SizeX(im)))
    else 0.0
  }

  /** One share adds its whole value once to the unsigned histogram, if its cell exists. */
  lemma ShareMass(im: Image, p: Place, dh: nat, dw: nat)
    requires im.k > 0 && Sector(im, p) < 18
    ensures SumTo((u: nat) => if Unsigned(u) then Share(im, p, dh, dw, u) else 0.0, Entries(im))
            == if Reaches(im, p, dh, dw) then Part(im, p, dh, dw) else 0.0
  {
    var f: Term := (u: nat) => if Unsigned(u) then Share(im, p, dh, dw, u) else 0.0;
    var row, col := Row(im, p, dh), Col(im, p, dw);
    var v := Part(im, p, dh, dw);
    if Reaches(im, p, dh, dw) {
      CellFits(SizeX(im), SizeY(im), row, col);
      var at := (row * SizeX(im) + col) * FEATURES + Sector(im, p) % 9;
      forall u: nat | u < Entries(im) ensures f(u) == if u == at then v else 0.0 {
        UnsignedCorner(SizeX(im), SizeY(im), row, col, Sector(im, p), v, u);
      }
      SumOfPoint(f, at, v, Entries(im));
    } else {
      forall u: nat | u < Entries(im) ensures f(u) == if u == 0 then 0.0 else 0.0 {
        NoShare(im, p, dh, dw, u);
      }
      SumOfPoint(f, 0, 0.0, Entries(im));
    }
  }

  lemma UnsignedCorner(sizeX: nat, sizeY: nat, row: int, col: int, a: nat, v: real, u: nat)
    requires 0 <= row < sizeY && 0 <= col < sizeX && a < 18
    ensures (if Unsigned(u) then Corner(sizeX, sizeY, row, col, a, v, u) else 0.0)
            == if u == (row * sizeX + col) * FEATURES + a % 9 then v else 0.0
  {
    var cell := row * sizeX + col;
    var c, f := u / FEATURES, u % FEATURES;
    hide Put;
    assert u == c * FEATURES + f;
    PutAt(sizeX, row, col, a, v, c, f);
  }

  /** What pixel number q adds to the unsigned histogram in all. */
  lemma DepositMass(im: Image, p: Place)
    requires Sound(im) && Inside(Pixels(im), p)
    ensures SumTo((u: nat) => if Unsigned(u) then Deposit(im, p, u) else 0.0, Entries(im)) == PixelMass(im, p)
  {
    var all: Term := (u: nat) => if Unsigned(u) then Deposit(im, p, u) else 0.0;
    var n := Entries(im);
    if Inner(im, p) {
      assert Directed(im, Offset(im, p));
      var f: Term := (u: nat) => if Unsigned(u) then Share(im, p, 0, 0, u) else 0.0;
      var g: Term := (u: nat) => if Unsigned(u) then Share(im, p, 1, 0, u) else 0.0;
      var h: Term := (u: nat) => if Unsigned(u) then Share(im, p, 0, 1, u) else 0.0;
      var i: Term := (u: nat) => if Unsigned(u) then Share(im, p, 1, 1, u) else 0.0;
      ShareMass(im, p, 0, 0);
      ShareMass(im, p, 1, 0);
      ShareMass(im, p, 0, 1);
      ShareMass(im, p, 1, 1);
      hide Share, Inner, Entries, Magnitude, Weight, Beside;
      SumOfFour(all, f, g, h, i, n);
      OwnReached(im, p);
      PartsMakeMass(im, p);
    } else {
      SumOfPoint(all, 0, 0.0, n);
    }
  }

  lemma SumOfFour(all: Term, f: Term, g: Term, h: Term, i: Term, n: nat)
    requires forall u: nat :: u < n ==> all(u) == f(u) + g(u) + h(u) + i(u)
    ensures SumTo(all, n) == SumTo(f, n) + SumTo(g, n) + SumTo(h, n) + SumTo(i, n)
  {
    var a: Term := (u: nat) => f(u) + g(u);
    var b: Term := (u: nat) => a(u) + h(u);
    SumOfSums(a, f, g, n);
    SumOfSums(b, a, h, n);
    SumOfSums(all, b, i, n);
  }

  /** The four parts that reach a cell make up the magnitude times both covers. */
  lemma PartsMakeMass(im: Image, p: Place)
    requires im.k > 0 && Inner(im, p) && Inside(Pixels(im), p)
    ensures PixelMass(im, p)
            == Part(im, p, 0, 0)
               + (if Reaches(im, p, 1, 0) then Part(im, p, 1, 0) else 0.0)
               + (if Reaches(im, p, 0, 1) then Part(im, p, 0, 1) else 0.0)
               + (if Reaches(im, p, 1, 1) then Part(im, p, 1, 1) else 0.0)
  {
    OwnReached(im, p);
    ReachesApart(im, p);
    FourParts(Magnitude(im, p), Weight(im, 2 * p.h), Weight(im, 2 * p.h + 1), Weight(im, 2 * p.w),
      Weight(im, 2 * p.w + 1),
              Reaches(im, p, 1, 0), Reaches(im, p, 0, 1));
    hide Magnitude, Weight, Inner, Reaches, SizeX, SizeY, Beside, Weighed;
  }

  /** Whether a row of cells is reached does not depend on the column, and the other way round. */
  lemma ReachesApart(im: Image, p: Place)
    requires im.k > 0 && Reaches(im, p, 0, 0)
    ensures Reaches(im, p, 1, 0) <==> 0 <= Beside(im, p.b, p.h) < SizeY(im)
    ensures Reaches(im, p, 0, 1) <==> 0 <= Beside(im, p.c, p.w) < SizeX(im)
    ensures Reaches(im, p, 1, 1) <==> Reaches(im, p, 1, 0) && Reaches(im, p, 0, 1)
  {
    hide SizeX, SizeY, Beside;
  }

  lemma FourParts(m: real, a: real, b: real, c: real, d: real, rowIn: bool, colIn: bool)
    ensures Weighed(m, a + if rowIn then b else 0.0, c + if colIn then d else 0.0)
            == Weighed(m, a, c) + (if rowIn then Weighed(m, b, c) else 0.0) + (if colIn then Weighed(m, a, d) else 0.0)
               + (if rowIn && colIn then Weighed(m, b, d) else 0.0)
  {
    Product(m, a, if rowIn then b else 0.0, c, if colIn then d else 0.0);
  }

  lemma OwnReached(im: Image, p: Place)
    requires im.k > 0 && Inside(Pixels(im), p)
    ensures Reaches(im, p, 0, 0) && 0 <= p.b < SizeY(im) && 0 <= p.c < SizeX(im)
  {
  }

  lemma Product(r: real, a: real, b: real, c: real, d: real)
    ensures r * (a + b) * (c + d) == r * a * c + r * b * c + r * a * d + r * b * d
  {
    assert r * (a + b) == r * a + r * b;
    assert (r * a + r * b) * (c + d) == (r * a + r * b) * c + (r * a + r * b) * d;
  }

  /** Pixel number q's mass. */
  function PixelMasses(im: Image): Term
    requires im.k > 0
  {
    (q: nat) => if Full(Pixels(im)) then PixelMass(im, Unflat(Pixels(im), q)) else 0.0
  }

  /** Nothing is lost or made up: the unsigned histogram holds exactly the magnitudes of the inner pixels, each times
      the weights that are in range. */
  lemma MassConserved(im: Image)
    requires Sound(im)
    ensures Mass(im) == SumTo(PixelMasses(im), Size(Pixels(im)))
  {
    var f, n, m := UnsignedDeposits(im), Size(Pixels(im)), Entries(im);
    Exchange(f, n, m);
    assert im.k > 0;
    hide Deposit, Size, Pixels, Unflat, Entries, PixelMass, Sound, Entry;
    ByColumns(im, n, m);
    forall q: nat | q < n ensures RowSums(f, m)(q) == PixelMasses(im)(q) {
      ByRow(im, q, n, m);
    }
    SumSame(RowSums(f, m), PixelMasses(im), n);
  }

  lemma ByColumns(im: Image, n: nat, m: nat)
    requires im.k > 0 && n == Size(Pixels(im)) && m == Entries(im)
    ensures SumTo(ColumnSums(UnsignedDeposits(im), n), m) == Mass(im)
  {
    hide Size, Pixels, Entries, Entry;
    var f := UnsignedDeposits(im);
    var g: Term := (u: nat) => if Unsigned(u) then Gathered(im, u) else 0.0;
    forall u: nat | u < m ensures ColumnSums(f, n)(u) == g(u) {
      OneColumn(im, u, n);
    }
    SumSame(ColumnSums(f, n), g, m);
  }

  lemma OneColumn(im: Image, u: nat, n: nat)
    requires im.k > 0 && n == Size(Pixels(im))
    ensures ColumnSums(UnsignedDeposits(im), n)(u) == if Unsigned(u) then Gathered(im, u) else 0.0
  {
    hide Size, Pixels, Entry;
    var column := DownColumn(UnsignedDeposits(im), u);
    if Unsigned(u) {
      var entry := Entry(im, u);
      forall q: nat | q < n ensures column(q) == entry(q) {
        assert column(q) == UnsignedDeposits(im)(q, u);
      }
      SumSame(column, entry, n);
    } else {
      forall q: nat | q < n ensures column(q) == if q == 0 then 0.0 else 0.0 {
        assert column(q) == UnsignedDeposits(im)(q, u);
      }
      SumOfPoint(column, 0, 0.0, n);
    }
  }

  lemma ByRow(im: Image, q: nat, n: nat, m: nat)
    requires Sound(im) && q < n && n == Size(Pixels(im)) && m == Entries(im)
    ensures RowSums(UnsignedDeposits(im), m)(q) == PixelMasses(im)(q)
  {
    assert im.k > 0;
    var p := Unflat(Pixels(im), q);
    var row := AcrossRow(UnsignedDeposits(im), q);
    hide Deposit, Size, Pixels, Unflat, Entries, PixelMass, Sound, Inside, Unsigned, SumTo, Full;
    if Full(Pixels(im)) {
      UnflatInside(Pixels(im), q);
      DepositMass(im, p);
      var all: Term := (u: nat) => if Unsigned(u) then Deposit(im, p, u) else 0.0;
      forall u: nat | u < m ensures row(u) == all(u) {
        RowEntry(im, q, u);
      }
      SumSame(row, all, m);
    }
  }

  lemma RowEntry(im: Image, q: nat, u: nat)
    requires im.k > 0
    ensures AcrossRow(UnsignedDeposits(im), q)(u)
            == if Unsigned(u) && Full(Pixels(im)) then Deposit(im, Unflat(Pixels(im), q), u) else 0.0
  {
    hide Deposit, Pixels, Unflat, Unsigned, Entry;
    var f := UnsignedDeposits(im);
    assert AcrossRow(f, q)(u) == f(q, u) == if Unsigned(u) then Entry(im, u)(q) else 0.0;
    EntryIs(im, u, q);
  }

  /** Away from the border, where both cells beside exist, a pixel counts in full with the weights that FillWeights
      computes; at the border it counts for less, unless its magnitude is zero. */
  lemma CountsInFull(im: Image, p: Place)
    requires Sound(im) && Inside(Pixels(im), p) && Inner(im, p) && Magnitude(im, p) >= 0.0
    requires forall j :: 0 <= j < im.k ==> Weighted(im.k, j, im.w[2 * j], im.w[2 * j + 1])
    ensures PixelMass(im, p) == Magnitude(im, p)
            <==> Magnitude(im, p) == 0.0 || (Reaches(im, p, 1, 0) && Reaches(im, p, 0, 1))
    ensures 0.0 <= PixelMass(im, p) <= Magnitude(im, p)
  {
    OwnReached(im, p);
    ReachesApart(im, p);
    CoverIs(im, p.b, p.h, SizeY(im));
    CoverIs(im, p.c, p.w, SizeX(im));
    WeighedBelow(Magnitude(im, p), Cover(im, p.b, p.h, SizeY(im)), Cover(im, p.c, p.w, SizeX(im)));
    hide Magnitude, Cover, Reaches, Inner, Weighed, Beside, SizeX, SizeY;
  }

  /** Exactly the pixels on the border of the image count for nothing. */
  lemma BorderOnly(im: Image, p: Place)
    requires im.k > 0
    ensures Inner(im, p) <==> 0 < p.b * im.k + p.h < im.height - 1 && 0 < p.c * im.k + p.w < im.width - 1
    ensures !(0 < p.b * im.k + p.h < im.height - 1 && 0 < p.c * im.k + p.w < im.width - 1) ==>
              PixelMass(im, p) == 0.0 && forall u: int :: Deposit(im, p, u) == 0.0
  {
    hide Share;
  }

  lemma CoverIs(im: Image, own: nat, h: nat, size: nat)
    requires Sound(im) && h < im.k && Weighted(im.k, h, im.w[2 * h], im.w[2 * h + 1])
    ensures 0.0 < Cover(im, own, h, size) <= 1.0
    ensures Cover(im, own, h, size) == 1.0 <==> 0 <= Beside(im, own, h) < size
  {
    hide Beside;
  }

  lemma WeighedBelow(m: real, a: real, b: real)
    requires m >= 0.0 && 0.0 < a <= 1.0 && 0.0 < b <= 1.0
    ensures 0.0 <= Weighed(m, a, b) <= m
    ensures Weighed(m, a, b) == m <==> m == 0.0 || (a == 1.0 && b == 1.0)
  {
    var x := m * a;
    Less(m, a, x);
    Less(x, b, x * b);
    assert Weighed(m, a, b) == x * b;
  }

  lemma Less(m: real, a: real, x: real)
    requires m >= 0.0 && 0.0 < a <= 1.0 && x == m * a
    ensures 0.0 <= x <= m && (x == 0.0 <==> m == 0.0)
    ensures x == m <==> m == 0.0 || a == 1.0
  {
    assert m - x == m * (1.0 - a);
  }

  // ---- the first moment: where the magnitude goes ----

  type Centre = nat -> real

  /** Entry by entry, what one pixel adds to the unsigned histogram, times a coordinate of the entry's cell. */
  function Moments(im: Image, p: Place, at: Centre): Term
    requires im.k > 0
  {
    (u: nat) => if Unsigned(u) then Deposit(im, p, u) * at(u) else 0.0
  }

  function ShareMoments(im: Image, p: Place, dh: nat, dw: nat, at: Centre): Term
    requires im.k > 0
  {
    (u: nat) => if Unsigned(u) then Share(im, p, dh, dw, u) * at(u) else 0.0
  }

  /** The unsigned entry that a share goes to. */
  function Target(im: Image, p: Place, dh: nat, dw: nat): int
    requires im.k > 0
  {
    (Row(im, p, dh) * SizeX(im) + Col(im, p, dw)) * FEATURES + Sector(im, p) % 9
  }

  lemma TargetInside(im: Image, p: Place, dh: nat, dw: nat)
    requires im.k > 0 && Reaches(im, p, dh, dw)
    ensures 0 <= Target(im, p, dh, dw) < Entries(im)
  {
    CellFits(SizeX(im), SizeY(im), Row(im, p, dh), Col(im, p, dw));
  }

  lemma ShareMomentAt(im: Image, p: Place, dh: nat, dw: nat, at: Centre, u: nat)
    requires im.k > 0 && Sector(im, p) < 18 && Reaches(im, p, dh, dw)
    ensures ShareMoments(im, p, dh, dw, at)(u)
            == if u == Target(im, p, dh, dw) then Part(im, p, dh, dw) * at(u) else 0.0
  {
    hide *;
    ShareUnsigned(im, p, dh, dw, u);
    MomentsOf(im, p, dh, dw, at, u);
  }

  lemma ShareUnsigned(im: Image, p: Place, dh: nat, dw: nat, u: nat)
    requires im.k > 0 && Sector(im, p) < 18 && Reaches(im, p, dh, dw)
    ensures (if Unsigned(u) then Share(im, p, dh, dw, u) else 0.0)
            == if u == Target(im, p, dh, dw) then Part(im, p, dh, dw) else 0.0
  {
    hide Part, Row, Col, SizeX, SizeY, Put, Corner, Sector, Unsigned;
    UnsignedCorner(SizeX(im), SizeY(im), Row(im, p, dh), Col(im, p, dw), Sector(im, p), Part(im, p, dh, dw), u);
  }

  lemma MomentsOf(im: Image, p: Place, dh: nat, dw: nat, at: Centre, u: nat)
    requires im.k > 0
    ensures ShareMoments(im, p, dh, dw, at)(u)
            == (if Unsigned(u) then Share(im, p, dh, dw, u) else 0.0) * at(u)
  {
    hide Share, Unsigned;
  }

  lemma ShareMoment(im: Image, p: Place, dh: nat, dw: nat, at: Centre)
    requires im.k > 0 && Sector(im, p) < 18 && Reaches(im, p, dh, dw)
    ensures 0 <= Target(im, p, dh, dw) < Entries(im)
    ensures SumTo(ShareMoments(im, p, dh, dw, at), Entries(im)) == Part(im, p, dh, dw) * at(Target(im, p, dh, dw))
  {
    hide *;
    TargetInside(im, p, dh, dw);
    var to, v := Target(im, p, dh, dw), Part(im, p, dh, dw) * at(Target(im, p, dh, dw));
    var f := ShareMoments(im, p, dh, dw, at);
    forall u: nat | u < Entries(im) ensures f(u) == if u == to then v else 0.0 {
      ShareMomentAt(im, p, dh, dw, at, u);
    }
    SumOfPoint(f, to, v, Entries(im));
  }

  /** The pixel and the three cells beside its own. */
  lemma AllReached(im: Image, p: Place)
    requires Sound(im) && Inside(Pixels(im), p) && Inner(im, p) && Reaches(im, p, 1, 0) && Reaches(im, p, 0, 1)
    ensures im.k > 0 && p.h < im.k && p.w < im.k && Sector(im, p) < 18 && SizeX(im) > 0
    ensures Reaches(im, p, 0, 0) && Reaches(im, p, 1, 1)
  {
    assert Directed(im, Offset(im, p));
    OwnReached(im, p);
    ReachesApart(im, p);
  }

  lemma MomentsAt(im: Image, p: Place, at: Centre, u: nat)
    requires im.k > 0 && Inner(im, p)
    ensures Moments(im, p, at)(u)
            == ShareMoments(im, p, 0, 0, at)(u) + ShareMoments(im, p, 1, 0, at)(u)
               + ShareMoments(im, p, 0, 1, at)(u) + ShareMoments(im, p, 1, 1, at)(u)
  {
    hide Share, Unsigned, Inner;
    Distribute(Share(im, p, 0, 0, u), Share(im, p, 1, 0, u), Share(im, p, 0, 1, u), Share(im, p, 1, 1, u), at(u));
  }

  lemma DepositMoment(im: Image, p: Place, at: Centre)
    requires Sound(im) && Inside(Pixels(im), p) && Inner(im, p) && Reaches(im, p, 1, 0) && Reaches(im, p, 0, 1)
    ensures Target(im, p, 0, 0) >= 0 && Target(im, p, 1, 0) >= 0 && Target(im, p, 0, 1) >= 0 && Target(im, p, 1, 1) >= 0
    ensures SumTo(Moments(im, p, at), Entries(im))
            == Part(im, p, 0, 0) * at(Target(im, p, 0, 0)) + Part(im, p, 1, 0) * at(Target(im, p, 1, 0))
               + Part(im, p, 0, 1) * at(Target(im, p, 0, 1)) + Part(im, p, 1, 1) * at(Target(im, p, 1, 1))
  {
    hide *;
    AllReached(im, p);
    ShareMoment(im, p, 0, 0, at);
    ShareMoment(im, p, 1, 0, at);
    ShareMoment(im, p, 0, 1, at);
    ShareMoment(im, p, 1, 1, at);
    var all := Moments(im, p, at);
    var f, g := ShareMoments(im, p, 0, 0, at), ShareMoments(im, p, 1, 0, at);
    var h, i := ShareMoments(im, p, 0, 1, at), ShareMoments(im, p, 1, 1, at);
    forall u: nat | u < Entries(im) ensures all(u) == f(u) + g(u) + h(u) + i(u) {
      MomentsAt(im, p, at, u);
    }
    SumOfFour(all, f, g, h, i, Entries(im));
  }

  lemma Distribute(a: real, b: real, c: real, d: real, x: real)
    ensures (a + b + c + d) * x == a * x + b * x + c * x + d * x
  {
  }

  /** The row and the column of the centre of the cell that an entry belongs to. */
  function CentreRow(im: Image): Centre
    requires im.k > 0 && SizeX(im) > 0
  {
    (u: nat) => (((u / FEATURES / SizeX(im)) * im.k) as real + im.k as real / 2.0)
  }

  function CentreColumn(im: Image): Centre
    requires im.k > 0 && SizeX(im) > 0
  {
    (u: nat) => (((u / FEATURES % SizeX(im)) * im.k) as real + im.k as real / 2.0)
  }

  lemma TargetCell(im: Image, p: Place, dh: nat, dw: nat)
    requires im.k > 0 && Reaches(im, p, dh, dw) && Target(im, p, dh, dw) >= 0
    ensures Target(im, p, dh, dw) / FEATURES / SizeX(im) == Row(im, p, dh)
    ensures Target(im, p, dh, dw) / FEATURES % SizeX(im) == Col(im, p, dw)
  {
    var row, col := Row(im, p, dh), Col(im, p, dw);
    Digit(SizeX(im), row, col, SizeY(im));
    DivModUnique(Target(im, p, dh, dw), FEATURES, row * SizeX(im) + col, Sector(im, p) % 9);
  }

  /** The tables that FillWeights leaves. */
  ghost predicate FilledTables(im: Image) {
    && |im.w| == 2 * im.k && |im.nearest| == im.k
    && (forall j :: 0 <= j < im.k ==> Weighted(im.k, j, im.w[2 * j], im.w[2 * j + 1]))
    && (forall j :: 0 <= j < im.k ==> im.nearest[j] == if j < im.k / 2 then -1 else 1)
  }

  /** Along one axis: both cells' centres, weighted, come out at the middle of the pixel. */
  lemma AxisMoment(im: Image, own: nat, h: nat)
    requires FilledTables(im) && im.k % 2 == 0 && h < im.k
    ensures Weight(im, 2 * h) + Weight(im, 2 * h + 1) == 1.0
    ensures Weight(im, 2 * h) * ((own * im.k) as real + im.k as real / 2.0)
            + Weight(im, 2 * h + 1) * ((Beside(im, own, h) * im.k) as real + im.k as real / 2.0)
            == (own * im.k + h) as real + 0.5
  {
    Linear(im.k, h);
    assert Weighted(im.k, h, im.w[2 * h], im.w[2 * h + 1]);
    var k, a := im.k as real, Weight(im, 2 * h);
    var away := h as real + 0.5 - k / 2.0;
    var dir := if h < im.k / 2 then -1 else 1;
    assert Beside(im, own, h) == own + dir;
    assert a == HogGradient.Share(im.k, h) && Weight(im, 2 * h + 1) == 1.0 - a;
    assert (im.k / 2) as real == k / 2.0;
    StepTimes(own, dir, im.k);
    hide HogGradient.Share, Weight, Beside, Weighted;
    if away < 0.0 {
      Balance(k, away, (own * im.k) as real + k / 2.0, a, -1.0);
    } else {
      Balance(k, away, (own * im.k) as real + k / 2.0, a, 1.0);
    }
  }

  lemma StepTimes(own: nat, dir: int, k: nat)
    ensures ((own + dir) * k) as real == (own * k) as real + dir as real * k as real
  {
    MulDist(own, dir, k);
    assert (dir * k) as real == dir as real * k as real;
  }

  lemma Balance(k: real, away: real, c: real, a: real, dir: real)
    requires k > 0.0 && (dir == 1.0 || dir == -1.0) && a == 1.0 - dir * away / k
    ensures a * c + (1.0 - a) * (c + dir * k) == c + away
  {
    var b := dir * away / k;
    assert b * k == dir * away;
    assert (1.0 - a) * (dir * k) == dir * (b * k);
    assert a * c + (1.0 - a) * c == c;
  }

  /** The pixel has a cell beside its own above or below, and one to the left or right. */
  predicate Between(im: Image, p: Place)
    requires im.k > 0
  {
    && 0 <= p.b + (if p.h < im.k / 2 then -1 else 1) < SizeY(im)
    && 0 <= p.c + (if p.w < im.k / 2 then -1 else 1) < SizeX(im)
  }

  lemma BetweenReaches(im: Image, p: Place)
    requires Sound(im) && FilledTables(im) && Inside(Pixels(im), p) && Between(im, p)
    ensures SizeX(im) > 0 && Reaches(im, p, 1, 0) && Reaches(im, p, 0, 1)
  {
    OwnReached(im, p);
    ReachesApart(im, p);
  }

  /** What one share weighs, and the centre of the cell that it goes to. */
  lemma ShareAt(im: Image, p: Place, dh: nat, dw: nat)
    requires im.k > 0 && SizeX(im) > 0 && Reaches(im, p, dh, dw) && Target(im, p, dh, dw) >= 0 && dh < 2 && dw < 2
    ensures Part(im, p, dh, dw)
            == Weighed(Magnitude(im, p), Weight(im, 2 * p.h + dh), Weight(im, 2 * p.w + dw))
    ensures CentreRow(im)(Target(im, p, dh, dw)) == (Row(im, p, dh) * im.k) as real + im.k as real / 2.0
    ensures CentreColumn(im)(Target(im, p, dh, dw)) == (Col(im, p, dw) * im.k) as real + im.k as real / 2.0
  {
    TargetCell(im, p, dh, dw);
    hide Target, Weight, Magnitude, Weighed, Row, Col, SizeX;
  }

  lemma RowMoment(im: Image, p: Place)
    requires Sound(im) && FilledTables(im) && im.k % 2 == 0
    requires Inside(Pixels(im), p) && Inner(im, p) && Between(im, p)
    ensures SizeX(im) > 0
    ensures SumTo(Moments(im, p, CentreRow(im)), Entries(im)) == Magnitude(im, p) * ((p.b * im.k + p.h) as real + 0.5)
  {
    hide *;
    BetweenReaches(im, p);
    AllReached(im, p);
    DepositMoment(im, p, CentreRow(im));
    ShareAt(im, p, 0, 0);
    ShareAt(im, p, 1, 0);
    ShareAt(im, p, 0, 1);
    ShareAt(im, p, 1, 1);
    CellsOf(im, p);
    AxisMoment(im, p.b, p.h);
    AxisMoment(im, p.c, p.w);
    RowProduct(Magnitude(im, p), Weight(im, 2 * p.h), Weight(im, 2 * p.h + 1), Weight(im, 2 * p.w),
      Weight(im, 2 * p.w + 1), (p.b * im.k) as real + im.k as real / 2.0,
      (Beside(im, p.b, p.h) * im.k) as real + im.k as real / 2.0);
  }

  lemma ColumnMoment(im: Image, p: Place)
    requires Sound(im) && FilledTables(im) && im.k % 2 == 0
    requires Inside(Pixels(im), p) && Inner(im, p) && Between(im, p)
    ensures SizeX(im) > 0
    ensures SumTo(Moments(im, p, CentreColumn(im)), Entries(im))
            == Magnitude(im, p) * ((p.c * im.k + p.w) as real + 0.5)
  {
    hide *;
    BetweenReaches(im, p);
    AllReached(im, p);
    DepositMoment(im, p, CentreColumn(im));
    ShareAt(im, p, 0, 0);
    ShareAt(im, p, 1, 0);
    ShareAt(im, p, 0, 1);
    ShareAt(im, p, 1, 1);
    CellsOf(im, p);
    AxisMoment(im, p.b, p.h);
    AxisMoment(im, p.c, p.w);
    ColumnProduct(Magnitude(im, p), Weight(im, 2 * p.h), Weight(im, 2 * p.h + 1), Weight(im, 2 * p.w),
      Weight(im, 2 * p.w + 1), (p.c * im.k) as real + im.k as real / 2.0,
      (Beside(im, p.c, p.w) * im.k) as real + im.k as real / 2.0);
  }

  /** For an even cell size a pixel between cells is spread about its own place: what it adds to the unsigned histogram,
      times the rows of the centres of the cells that get it, adds up to the magnitude times the pixel's row, and
      likewise for columns. */
  lemma FirstMoment(im: Image, p: Place)
    requires Sound(im) && FilledTables(im) && im.k % 2 == 0
    requires Inside(Pixels(im), p)
    requires 0 <= p.b + (if p.h < im.k / 2 then -1 else 1) < SizeY(im)
    requires 0 <= p.c + (if p.w < im.k / 2 then -1 else 1) < SizeX(im)
    requires 0 < p.b * im.k + p.h < im.height - 1 && 0 < p.c * im.k + p.w < im.width - 1
    ensures SizeX(im) > 0
    ensures SumTo(Moments(im, p, CentreRow(im)), Entries(im)) == Magnitude(im, p) * ((p.b * im.k + p.h) as real + 0.5)
    ensures SumTo(Moments(im, p, CentreColumn(im)), Entries(im))
            == Magnitude(im, p) * ((p.c * im.k + p.w) as real + 0.5)
  {
    assert im.k > 0;
    assert Between(im, p);
    hide *;
    BorderOnly(im, p);
    RowMoment(im, p);
    ColumnMoment(im, p);
  }

  lemma CellsOf(im: Image, p: Place)
    ensures Row(im, p, 0) == p.b && Row(im, p, 1) == Beside(im, p.b, p.h)
    ensures Col(im, p, 0) == p.c && Col(im, p, 1) == Beside(im, p.c, p.w)
  {
  }

  lemma RowProduct(m: real, a: real, b: real, c: real, d: real, x: real, y: real)
    requires c + d == 1.0
    ensures Weighed(m, a, c) * x + Weighed(m, b, c) * y + Weighed(m, a, d) * x + Weighed(m, b, d) * y
            == m * (a * x + b * y)
  {
    WeighedPair(m, a, c, d);
    WeighedPair(m, b, c, d);
    TwoTerms(m, a, b, x, y);
    assert Weighed(m, a, c) * x + Weighed(m, a, d) * x == (Weighed(m, a, c) + Weighed(m, a, d)) * x;
    assert Weighed(m, b, c) * y + Weighed(m, b, d) * y == (Weighed(m, b, c) + Weighed(m, b, d)) * y;
  }

  lemma WeighedPair(m: real, a: real, c: real, d: real)
    requires c + d == 1.0
    ensures Weighed(m, a, c) + Weighed(m, a, d) == m * a
  {
    assert m * a * c + m * a * d == m * a * (c + d);
  }

  lemma TwoTerms(m: real, a: real, b: real, x: real, y: real)
    ensures m * a * x + m * b * y == m * (a * x + b * y)
  {
  }

  lemma ColumnProduct(m: real, a: real, b: real, c: real, d: real, x: real, y: real)
    requires a + b == 1.0
    ensures Weighed(m, a, c) * x + Weighed(m, b, c) * x + Weighed(m, a, d) * y + Weighed(m, b, d) * y
            == m * (c * x + d * y)
  {
    Turned(m, a, c);
    Turned(m, b, c);
    Turned(m, a, d);
    Turned(m, b, d);
    RowProduct(m, c, d, a, b, x, y);
  }

  lemma Turned(m: real, a: real, b: real)
    ensures Weighed(m, a, b) == Weighed(m, b, a)
  {
  }
}
