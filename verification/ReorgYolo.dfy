/** The reorganising layer: a stride x stride patch of every plane becomes stride * stride channels. */
module ReorgYolo {
  import opened Nonlinear
  import opened Tensor

  /** The grid that the layer reads: fewer channels of larger planes. */
  function SourceGrid(g: Grid, s: nat): Grid
    requires s > 0
  {
    assert s * s > 0;
    Grid(g.b, g.c / (s * s), g.h * s, g.w * s)
  }

  /** Where the value for place p of the output is read. */
  function Move(k: nat, s: nat, p: Place): Place
    requires k > 0 && s > 0
  {
    MoveInside(k, s, p);
    Place(p.b, p.c % k, p.h * s + p.c / k / s, p.w * s + p.c / k % s)
  }

  lemma MoveInside(k: nat, s: nat, p: Place)
    requires k > 0 && s > 0
    ensures p.c % k >= 0 && p.h * s + p.c / k / s >= 0 && p.w * s + p.c / k % s >= 0
  {
    MulMono(0, p.h, s);
    MulMono(0, p.w, s);
    DivBound(p.c, k, p.c + 1);
    DivBound(p.c / k, s, p.c / k + 1);
  }

  /** Which pixel of a patch goes to which channel: pixel (dy, dx) of the patch at (h, w) of channel c goes to channel
      (dy * stride + dx) * k + c. */
  lemma PatchPlace(k: nat, s: nat, b: nat, c: nat, h: nat, w: nat, dy: nat, dx: nat)
    requires c < k && dy < s && dx < s
    ensures 0 <= (dy * s + dx) * k + c && 0 <= h * s + dy && 0 <= w * s + dx
    ensures Move(k, s, Place(b, (dy * s + dx) * k + c, h, w)) == Place(b, c, h * s + dy, w * s + dx)
  {
    Digit(s, dy, dx, s);
    Digit(k, dy * s + dx, c, s * s);
    MulMono(0, h, s);
    MulMono(0, w, s);
  }

  function Back(k: nat, s: nat, q: Place): Place
    requires s > 0
  {
    Place(q.b, (q.h % s * s + q.w % s) * k + q.c, q.h / s, q.w / s)
  }

  lemma MoveBack(g: Grid, k: nat, s: nat, p: Place)
    requires k > 0 && s > 0 && g.c == k * s * s && Inside(g, p)
    ensures Inside(Grid(g.b, k, g.h * s, g.w * s), Move(k, s, p)) && Back(k, s, Move(k, s, p)) == p
  {
    var o := p.c / k;
    MulAssoc(k, s, s);
    assert k * (s * s) == s * s * k;
    Within(p.c, k, s * s);
    Within(o, s, s);
    Digit(s, p.h, o / s, g.h);
    Digit(s, p.w, o % s, g.w);
  }

  lemma BackMove(g: Grid, k: nat, s: nat, q: Place)
    requires k > 0 && s > 0 && g.c == k * s * s && Inside(Grid(g.b, k, g.h * s, g.w * s), q)
    ensures Inside(g, Back(k, s, q)) && Move(k, s, Back(k, s, q)) == q
  {
    Within(q.h, s, g.h);
    Within(q.w, s, g.w);
    Digit(s, q.h % s, q.w % s, s);
    MulAssoc(k, s, s);
    assert k * (s * s) == s * s * k;
    Digit(k, q.h % s * s + q.w % s, q.c, s * s);
  }

  /** Both grids hold the same number of values. */
  lemma SameSize(g: Grid, k: nat, s: nat)
    requires g.c == k * s * s
    ensures Size(Grid(g.b, k, g.h * s, g.w * s)) == Size(g)
  {
    var bk := g.b * k;
    calc {
      bk * (g.h * s) * (g.w * s);
      bk * s * g.h * (s * g.w);
      { MulAssoc(bk * s * g.h, s, g.w); }
      bk * s * g.h * s * g.w;
      bk * s * s * g.h * g.w;
      { MulAssoc(g.b, k, s); MulAssoc(g.b, k * s, s); }
      g.b * (k * s * s) * g.h * g.w;
    }
  }

  /** The offset at which the layer reads the value for offset d of its output. */
  function Source(g: Grid, s: nat, d: nat): nat
    requires Full(g) && s > 0 && SourceGrid(g, s).c > 0
  {
    Flat(SourceGrid(g, s), Move(SourceGrid(g, s).c, s, Unflat(g, d)))
  }

  /** Its inverse. */
  function Target(g: Grid, s: nat, x: nat): nat
    requires Full(g) && s > 0 && SourceGrid(g, s).c > 0
  {
    Flat(g, Back(SourceGrid(g, s).c, s, Unflat(SourceGrid(g, s), x)))
  }

  /** stride * stride divides the channels. */
  ghost predicate Divides(g: Grid, s: nat) {
    s > 0 && s * s > 0 && g.c % (s * s) == 0
  }

  lemma Channels(g: Grid, s: nat)
    requires Full(g) && Divides(g, s)
    ensures var k := SourceGrid(g, s).c; k > 0 && g.c == k * s * s
    ensures Full(SourceGrid(g, s)) && Size(SourceGrid(g, s)) == Size(g)
  {
    var k := SourceGrid(g, s).c;
    Quotients(g.c, k, s);
    SameSize(g, k, s);
    MulBelow(0, g.h, s);
    MulBelow(0, g.w, s);
  }

  lemma Quotients(c: nat, k: nat, s: nat)
    requires c > 0 && s > 0 && s * s > 0 && c % (s * s) == 0 && k == c / (s * s)
    ensures k > 0 && c == k * s * s
  {
    assert c == k * (s * s);
    MulAssoc(k, s, s);
  }

  /** The layer loses nothing: Source is a bijection of the offsets, and Target is its inverse. */
  lemma Lossless(g: Grid, s: nat, d: nat)
    requires Full(g) && Divides(g, s) && d < Size(g)
    ensures SourceGrid(g, s).c > 0
    ensures Source(g, s, d) < Size(g) && Target(g, s, Source(g, s, d)) == d
    ensures Target(g, s, d) < Size(g) && Source(g, s, Target(g, s, d)) == d
  {
    hide Flat, Unflat, Move, Back, Size;
    Channels(g, s);
    var to := SourceGrid(g, s);
    var p := Unflat(g, d);
    UnflatInside(g, d);
    MoveBack(g, to.c, s, p);
    FlatInside(to, Move(to.c, s, p));
    var q := Unflat(to, d);
    UnflatInside(to, d);
    BackMove(g, to.c, s, q);
    FlatInside(g, Back(to.c, s, q));
  }

  lemma Remainder(c: nat, k: nat, s: nat)
    requires s > 0 && s * s > 0 && k > 0 && k == c / (s * s) && c % (s * s) != 0
    ensures k * s * s < c && k * s * s / k == s * s && k * s * s % k == 0
    ensures s * s / s == s && s * s % s == 0
  {
    MulAssoc(k, s, s);
    DivModUnique(s * s, s, s, 0);
    assert k * (s * s) == s * s * k;
    DivModUnique(k * s * s, k, s * s, 0);
  }

  /** The one shape in which nothing is read twice although stride * stride need not divide the channels: a single batch
      of single rows, with fewer channels than twice stride * stride. Some of it may still be read past the input. */
  predicate SingleRow(g: Grid, s: nat) {
    g.b == 1 && g.h == 1 && g.c < 2 * (s * s)
  }

  /** Two places of the output that read the same place of the input make two equal offsets. */
  lemma SamePlace(g: Grid, s: nat, p: Place, q: Place)
    requires Full(g) && s > 0 && SourceGrid(g, s).c > 0 && Inside(g, p) && Inside(g, q) && p != q
    requires Flat(SourceGrid(g, s), Move(SourceGrid(g, s).c, s, p))
             == Flat(SourceGrid(g, s), Move(SourceGrid(g, s).c, s, q))
    ensures exists d, d' :: 0 <= d < d' < Size(g) && Source(g, s, d) == Source(g, s, d')
  {
    hide Flat, Size, Unflat, Move, SourceGrid;
    FlatInside(g, p);
    FlatInside(g, q);
    var d, d' := Flat(g, p), Flat(g, q);
    assert Source(g, s, d) == Source(g, s, d');
    if d < d' {
    } else {
      assert Source(g, s, d') == Source(g, s, d);
    }
  }

  /** The first channel past the last whole group of channels is read past the stretch of the first place. */
  lemma FirstLeftOver(g: Grid, s: nat)
    requires Full(g) && s > 0 && SourceGrid(g, s).c > 0 && !Divides(g, s)
    ensures var k := SourceGrid(g, s).c;
            && 0 < k * s * s < g.c
            && Inside(g, Place(0, k * s * s, 0, 0)) && Move(k, s, Place(0, k * s * s, 0, 0)) == Place(0, 0, s, 0)
  {
    Remainder(g.c, SourceGrid(g, s).c, s);
  }

  /** In any other shape the first channel past the last whole group reads what another place reads: the next row,
      or on single rows the next channel or the next batch. */
  lemma Collision(g: Grid, s: nat)
    requires Full(g) && s > 0 && SourceGrid(g, s).c > 0 && !Divides(g, s) && !SingleRow(g, s)
    ensures exists d, d' :: 0 <= d < d' < Size(g) && Source(g, s, d) == Source(g, s, d')
  {
    var k := SourceGrid(g, s).c;
    FirstLeftOver(g, s);
    if g.h > 1 {
      NextRow(g, k, s);
    } else if k >= 2 {
      NextChannel(g, k, s);
    } else {
      NextBatch(g, s);
    }
  }

  lemma NextRow(g: Grid, k: nat, s: nat)
    requires Full(g) && s > 0 && SourceGrid(g, s).c == k > 0 && g.h > 1
    requires 0 < k * s * s && Inside(g, Place(0, k * s * s, 0, 0))
    requires Move(k, s, Place(0, k * s * s, 0, 0)) == Place(0, 0, s, 0)
    ensures exists d, d' :: 0 <= d < d' < Size(g) && Source(g, s, d) == Source(g, s, d')
  {
    var p := Place(0, 0, 1, 0);
    assert Inside(g, p);
    DivModUnique(0, k, 0, 0);
    DivModUnique(0, s, 0, 0);
    assert Move(k, s, p) == Place(0, 0, s, 0);
    hide *;
    SamePlace(g, s, p, Place(0, k * s * s, 0, 0));
  }

  lemma NextChannel(g: Grid, k: nat, s: nat)
    requires Full(g) && s > 0 && SourceGrid(g, s).c == k >= 2 && g.h == 1 && k * s * s < g.c
    requires 0 < k * s * s && Inside(g, Place(0, k * s * s, 0, 0))
    requires Move(k, s, Place(0, k * s * s, 0, 0)) == Place(0, 0, s, 0)
    ensures exists d, d' :: 0 <= d < d' < Size(g) && Source(g, s, d) == Source(g, s, d')
  {
    var p, q := Place(0, 1, 0, 0), Place(0, k * s * s, 0, 0);
    ManyChannels(k, s, g.c);
    assert Inside(g, p) && p != q;
    DivModUnique(0, s, 0, 0);
    assert Move(k, s, p) == Place(0, 1, 0, 0);
    assert Flat(SourceGrid(g, s), Place(0, 1, 0, 0)) == Flat(SourceGrid(g, s), Place(0, 0, s, 0));
    hide *;
    SamePlace(g, s, p, q);
  }

  lemma NextBatch(g: Grid, s: nat)
    requires Full(g) && s > 0 && SourceGrid(g, s).c == 1 && g.h == 1 && !SingleRow(g, s)
    requires 0 < 1 * s * s && Inside(g, Place(0, 1 * s * s, 0, 0))
    requires Move(1, s, Place(0, 1 * s * s, 0, 0)) == Place(0, 0, s, 0)
    ensures exists d, d' :: 0 <= d < d' < Size(g) && Source(g, s, d) == Source(g, s, d')
  {
    var p := Place(1, 0, 0, 0);
    OneGroup(g, s);
    assert Inside(g, p);
    DivModUnique(0, s, 0, 0);
    assert Move(1, s, p) == Place(1, 0, 0, 0);
    assert Flat(SourceGrid(g, s), Place(1, 0, 0, 0)) == Flat(SourceGrid(g, s), Place(0, 0, s, 0));
    hide *;
    SamePlace(g, s, p, Place(0, 1 * s * s, 0, 0));
  }

  lemma ManyChannels(k: nat, s: nat, c: nat)
    requires k >= 2 && s > 0 && k * s * s < c
    ensures 1 < c && k * s * s != 1 && 1 / k == 0 && 1 % k == 1
  {
    MulMono(1, s, s);
    MulMono(1, s * s, k);
    MulAssoc(k, s, s);
    assert k * (s * s) == s * s * k;
    DivModUnique(1, k, 0, 1);
  }

  lemma OneGroup(g: Grid, s: nat)
    requires Full(g) && s > 0 && SourceGrid(g, s).c == 1 && !SingleRow(g, s) && g.h == 1
    ensures g.b > 1
  {
    assert s * s > 0;
    assert g.c == g.c / (s * s) * (s * s) + g.c % (s * s);
  }

  lemma RowInjective(g: Grid, s: nat, p: Place, q: Place)
    requires Full(g) && s > 0 && SourceGrid(g, s).c == 1 && SingleRow(g, s) && Inside(g, p) && Inside(g, q)
    requires Flat(SourceGrid(g, s), Move(1, s, p)) == Flat(SourceGrid(g, s), Move(1, s, q))
    ensures p == q
  {
    hide *;
    RowOffset(g, s, p);
    RowOffset(g, s, q);
    SameDigits(g.w * s, p.c / s, p.w * s + p.c % s, q.c / s, q.w * s + q.c % s);
    SameDigits(s, p.w, p.c % s, q.w, q.c % s);
    SameNumber(p.c, q.c, s);
  }

  lemma SameDigits(d: int, a: int, r: int, b: int, t: int)
    requires d > 0 && 0 <= r < d && 0 <= t < d && a * d + r == b * d + t
    ensures a == b && r == t
  {
    DivModUnique(a * d + r, d, a, r);
    DivModUnique(b * d + t, d, b, t);
  }

  lemma SameNumber(x: int, y: int, d: int)
    requires d > 0 && x / d == y / d && x % d == y % d
    ensures x == y
  {
    assert x == x / d * d + x % d && y == y / d * d + y % d;
  }

  lemma RowOffset(g: Grid, s: nat, p: Place)
    requires Full(g) && s > 0 && SourceGrid(g, s).c == 1 && SingleRow(g, s) && Inside(g, p)
    ensures p.b == 0 && p.h == 0 && g.w * s > 0 && 0 <= p.c / s * (g.w * s)
    ensures 0 <= p.w * s && p.w * s + p.c % s < g.w * s
    ensures Flat(SourceGrid(g, s), Move(1, s, p)) == p.c / s * (g.w * s) + (p.w * s + p.c % s)
  {
    Digit(s, p.w, p.c % s, g.w);
    MulMono(0, p.c / s, g.w * s);
    DivModUnique(p.c, 1, p.c, 0);
  }

  /** No input is read for two places of the output. */
  ghost predicate ReadOnce(g: Grid, s: nat)
    requires Full(g) && s > 0 && SourceGrid(g, s).c > 0
  {
    forall d, d' :: 0 <= d < d' < Size(g) ==> Source(g, s, d) != Source(g, s, d')
  }

  /** Every read is within the input. */
  ghost predicate ReadsInside(g: Grid, s: nat, room: nat)
    requires Full(g) && s > 0 && SourceGrid(g, s).c > 0
  {
    forall d :: 0 <= d < Size(g) ==> Source(g, s, d) < room
  }

  /** The offsets that are read, in the order of the output. */
  function Sources(g: Grid, s: nat): (xs: seq<nat>)
    requires Full(g) && s > 0 && SourceGrid(g, s).c > 0
    ensures |xs| == Size(g) && forall d :: 0 <= d < Size(g) ==> xs[d] == Source(g, s, d)
  {
    seq(Size(g), d requires 0 <= d < Size(g) => Source(g, s, d))
  }

  /** Every value of an input of the size of the output is read. */
  ghost predicate ReadsAll(g: Grid, s: nat)
    requires Full(g) && s > 0 && SourceGrid(g, s).c > 0
  {
    forall x: nat :: x < Size(g) ==> x in Sources(g, s)
  }

  /** No input is read twice if and only if stride * stride divides the channels or the shape is that one. */
  lemma ReadOnceIff(g: Grid, s: nat)
    requires Full(g) && s > 0 && SourceGrid(g, s).c > 0
    ensures ReadOnce(g, s) <==> Divides(g, s) || SingleRow(g, s)
  {
    if Divides(g, s) {
      forall d, d' | 0 <= d < d' < Size(g) ensures Source(g, s, d) != Source(g, s, d') {
        Lossless(g, s, d);
        Lossless(g, s, d');
      }
    } else if SingleRow(g, s) {
      SmallQuotient(g.c, s);
      hide Flat, Unflat, Move, Size;
      forall d, d' | 0 <= d < d' < Size(g) ensures Source(g, s, d) != Source(g, s, d') {
        UnflatInside(g, d);
        UnflatInside(g, d');
        if Source(g, s, d) == Source(g, s, d') {
          RowInjective(g, s, Unflat(g, d), Unflat(g, d'));
        }
      }
    } else {
      Collision(g, s);
    }
  }

  lemma SmallQuotient(c: nat, s: nat)
    requires s > 0 && s * s > 0 && c / (s * s) > 0 && c < 2 * (s * s)
    ensures c / (s * s) == 1
  {
    assert c < s * s * 2;
    DivBound(c, s * s, 2);
  }

  // ---- nothing lost ----

  /** A row that fits: its columns or its channels leave no gap. */
  predicate RowFits(g: Grid, s: nat)
    requires s > 0
  {
    SingleRow(g, s) && (g.w == 1 || g.c % s == 0)
  }

  /** Whole groups of s channels, or one column, are read without a gap. */
  lemma RowBelow(c: nat, s: nat, w: nat, x: nat, y: nat)
    requires s > 0 && x < c && y < w && (w == 1 || c % s == 0)
    ensures x / s * (w * s) + (y * s + x % s) < c * w
  {
    if w == 1 {
      assert x == x / s * s + x % s;
    } else {
      var q := c / s;
      assert c == q * s + c % s;
      Within(x, s, q);
      Digit(s, y, x % s, w);
      MulBelow(x / s, q, w * s);
      GroupsTimes(q, s, w);
    }
  }

  lemma GroupsTimes(q: nat, s: nat, w: nat)
    ensures q * (w * s) == q * s * w
  {
    MulAssoc(q, s, w);
    assert w * s == s * w;
  }

  /** Otherwise the last channel of the last column is read past the end. */
  lemma RowBeyond(c: nat, s: nat, w: nat)
    requires s > 0 && c > 0 && w >= 2 && c % s != 0
    ensures (c - 1) / s * (w * s) + ((w - 1) * s + (c - 1) % s) >= c * w
  {
    var q, r := c / s, c % s;
    assert c == q * s + r;
    DivModUnique(c - 1, s, q, r - 1);
    MulDist(q * s, r, w);
    GroupsTimes(q, s, w);
    MulMono(r + 1, s, w - 1);
    MulDist(r, 1, w - 1);
    MulDist(w, -1, s);
    assert s * (w - 1) == (w - 1) * s && r * (w - 1) == r * w - r;
  }

  lemma RowInside(g: Grid, s: nat)
    requires Full(g) && s > 0 && SourceGrid(g, s).c == 1 && RowFits(g, s)
    ensures ReadsInside(g, s, Size(g))
  {
    hide Flat, Unflat, Move, Size;
    RowSize(g);
    forall d | 0 <= d < Size(g) ensures Source(g, s, d) < Size(g) {
      UnflatInside(g, d);
      var p := Unflat(g, d);
      RowOffset(g, s, p);
      RowBelow(g.c, s, g.w, p.c, p.w);
    }
  }

  lemma RowOutside(g: Grid, s: nat)
    requires Full(g) && s > 0 && SourceGrid(g, s).c == 1 && SingleRow(g, s) && !RowFits(g, s)
    ensures !ReadsInside(g, s, Size(g))
  {
    hide Flat, Unflat, Move, Size;
    RowSize(g);
    var p := Place(0, g.c - 1, 0, g.w - 1);
    FlatInside(g, p);
    RowOffset(g, s, p);
    RowBeyond(g.c, s, g.w);
    assert Source(g, s, Flat(g, p)) >= Size(g);
  }

  lemma RowSize(g: Grid)
    ensures g.b == 1 && g.h == 1 ==> Size(g) == g.c * g.w
  {
  }

  /** The layer permutes its input, every read inside and no input read twice, if and only if stride * stride divides
      the channels or the shape is a row that fits. */
  lemma PermutesIff(g: Grid, s: nat)
    requires Full(g) && s > 0 && SourceGrid(g, s).c > 0
    ensures ReadsInside(g, s, Size(g)) && ReadOnce(g, s) <==> Divides(g, s) || RowFits(g, s)
  {
    ReadOnceIff(g, s);
    if Divides(g, s) {
      hide Source, Size;
      DividesInside(g, s);
    } else if SingleRow(g, s) {
      SmallQuotient(g.c, s);
      hide ReadsInside, ReadOnce;
      if RowFits(g, s) {
        RowInside(g, s);
      } else {
        RowOutside(g, s);
      }
    }
  }

  /** No value of the input is lost under exactly the same condition. */
  lemma LosslessIff(g: Grid, s: nat)
    requires Full(g) && s > 0 && SourceGrid(g, s).c > 0
    ensures ReadsAll(g, s) <==> Divides(g, s) || RowFits(g, s)
  {
    PermutesIff(g, s);
    hide Source, Size, Divides, RowFits, SourceGrid;
    if ReadsInside(g, s, Size(g)) && ReadOnce(g, s) {
      DistinctCovers(Sources(g, s));
    }
    if ReadsAll(g, s) {
      CoversDistinct(Sources(g, s));
    }
  }

  // ---- counting ----

  /** The numbers below n. */
  function Below(n: nat): (s: set<nat>)
    ensures |s| == n && forall x: nat :: x in s <==> x < n
  {
    if n == 0 then {} else Below(n - 1) + {n - 1}
  }

  lemma {:induction false} Elements(xs: seq<nat>) returns (s: set<nat>)
    ensures (forall x :: x in s <==> x in xs) && |s| <= |xs|
    ensures |s| == |xs| <==> forall a, b :: 0 <= a < b < |xs| ==> xs[a] != xs[b]
  {
    if xs == [] {
      s := {};
    } else {
      var m := |xs| - 1;
      var rest := Elements(xs[..m]);
      s := rest + {xs[m]};
      assert xs == xs[..m] + [xs[m]];
      if xs[m] in xs[..m] {
        assert s == rest;
        var a :| 0 <= a < m && xs[..m][a] == xs[m];
        assert xs[a] == xs[m];
      } else if |s| == |xs| {
        forall a, b | 0 <= a < b < |xs| ensures xs[a] != xs[b] {
          assert xs[..m][a] == xs[a];
          if b < m {
            assert xs[..m][b] == xs[b];
          }
        }
      } else {
        var a, b :| 0 <= a < b < m && xs[..m][a] == xs[..m][b];
        assert xs[a] == xs[b];
      }
    }
  }

  /** n different numbers below n are all of them. */
  lemma DistinctCovers(xs: seq<nat>)
    requires forall a :: 0 <= a < |xs| ==> xs[a] < |xs|
    requires forall a, b :: 0 <= a < b < |xs| ==> xs[a] != xs[b]
    ensures forall x: nat :: x < |xs| ==> x in xs
  {
    var s := Elements(xs);
    SameSet(s, Below(|xs|));
  }

  /** n numbers among which are all below n are different and below n. */
  lemma CoversDistinct(xs: seq<nat>)
    requires forall x: nat :: x < |xs| ==> x in xs
    ensures forall a :: 0 <= a < |xs| ==> xs[a] < |xs|
    ensures forall a, b :: 0 <= a < b < |xs| ==> xs[a] != xs[b]
  {
    var s := Elements(xs);
    SameSet(Below(|xs|), s);
    forall a | 0 <= a < |xs| ensures xs[a] < |xs| {
      assert xs[a] in s;
    }
  }

  lemma {:induction false} SameSet(a: set<nat>, b: set<nat>)
    requires a <= b && |a| >= |b|
    ensures a == b && |a| == |b|
  {
    if a != {} {
      var x :| x in a;
      SameSet(a - {x}, b - {x});
      assert a == a - {x} + {x} && b == b - {x} + {x};
    }
  }

  /** The first n values of the output. */
  ghost predicate Filled(src: seq<real>, dst: seq<real>, g: Grid, s: nat, n: nat)
    requires Full(g) && s > 0 && SourceGrid(g, s).c > 0
  {
    n <= |dst| && forall d :: 0 <= d < n ==> Source(g, s, d) < |src| && dst[d] == src[Source(g, s, d)]
  }

  lemma FilledSnoc(src: seq<real>, was: seq<real>, now: seq<real>, g: Grid, s: nat, n: nat)
    requires Full(g) && s > 0 && SourceGrid(g, s).c > 0 && n < |was| && Source(g, s, n) < |src|
    requires Filled(src, was, g, s, n) && now == was[n := src[Source(g, s, n)]]
    ensures Filled(src, now, g, s, n + 1)
  {
    hide Source, SourceGrid;
  }

  lemma Offsets(g: Grid, s: nat, p: Place)
    requires Full(g) && s > 0 && SourceGrid(g, s).c > 0 && Inside(g, p)
    ensures Flat(g, p) < Size(g)
    ensures Flat(SourceGrid(g, s), Move(SourceGrid(g, s).c, s, p)) == Source(g, s, Flat(g, p))
  {
    hide Flat, Unflat, Size, Move, SourceGrid;
    FlatInside(g, p);
  }

  /** The two offsets of one turn of the innermost loop. */
  method Indices(g: Grid, stride: nat, from: Grid, b: nat, ic: nat, ih: nat, iw: nat)
    returns (dstIndex: nat, srcIndex: nat)
    requires Full(g) && stride > 0 && from == SourceGrid(g, stride) && from.c > 0
    requires Inside(g, Place(b, ic, ih, iw))
    ensures dstIndex == Flat(g, Place(b, ic, ih, iw)) < Size(g)
    ensures srcIndex == Source(g, stride, dstIndex)
  {
    Offsets(g, stride, Place(b, ic, ih, iw));
    FlatIsSum(g, Place(b, ic, ih, iw));
    dstIndex := b * g.c * g.h * g.w + ic * g.h * g.w + ih * g.w + iw;
    hide Source, Size, Flat, Unflat;
    var oc, offset := ic % from.c, ic / from.c;
    var ow, oh := iw * stride + offset % stride, ih * stride + offset / stride;
    FlatIsSum(from, Place(b, oc, oh, ow));
    srcIndex := b * from.c * from.h * from.w + oc * from.h * from.w + oh * from.w + ow;
  }

  /** One turn of the innermost loop: one value copied. */
  method CopyOne(src: seq<real>, dst: array<real>, g: Grid, stride: nat, from: Grid, b: nat, ic: nat, ih: nat, iw: nat)
    requires Full(g) && stride > 0 && from == SourceGrid(g, stride) && from.c > 0
    requires ReadsInside(g, stride, |src|) && dst.Length == Size(g) && Inside(g, Place(b, ic, ih, iw))
    requires Filled(src, dst[..], g, stride, Flat(g, Place(b, ic, ih, iw)))
    modifies dst
    ensures Filled(src, dst[..], g, stride, Flat(g, Place(b, ic, ih, iw + 1)))
  {
    hide Source, Size, Flat, Unflat, Filled, SourceGrid;
    var dstIndex, srcIndex := Indices(g, stride, from, b, ic, ih, iw);
    ghost var was := dst[..];
    dst[dstIndex] := src[srcIndex];
    FilledSnoc(src, was, dst[..], g, stride, dstIndex);
    Next(g, b, ic, ih, iw);
  }

  /** The four loops. They need the input to hold what they read, which they do not check. */
  method Execute(src: seq<real>, dst: array<real>, g: Grid, stride: nat)
    requires Full(g) && stride > 0 && SourceGrid(g, stride).c > 0
    requires dst.Length == Size(g) && ReadsInside(g, stride, |src|)
    modifies dst
    ensures Filled(src, dst[..], g, stride, Size(g))
    ensures Divides(g, stride) || RowFits(g, stride) ==>
              forall x :: 0 <= x < |src| && x < Size(g) ==> src[x] in dst[..]
    ensures Divides(g, stride) && |src| == Size(g) ==>
              forall x :: 0 <= x < |src| ==> Target(g, stride, x) < dst.Length && src[x] == dst[Target(g, stride, x)]
  {
    hide Source, Target, Size, Flat, Unflat, Filled, SourceGrid, Divides, RowFits, ReadsInside;
    var from := SourceGrid(g, stride);
    Start(src, dst[..], g, stride);
    for b := 0 to g.b
      invariant Filled(src, dst[..], g, stride, Flat(g, Place(b, 0, 0, 0)))
    {
      for ic := 0 to g.c
        invariant Filled(src, dst[..], g, stride, Flat(g, Place(b, ic, 0, 0)))
      {
        for ih := 0 to g.h
          invariant Filled(src, dst[..], g, stride, Flat(g, Place(b, ic, ih, 0)))
        {
          for iw := 0 to g.w
            invariant Filled(src, dst[..], g, stride, Flat(g, Place(b, ic, ih, iw)))
          {
            CopyOne(src, dst, g, stride, from, b, ic, ih, iw);
          }
          Carry(g, b, ic, ih);
        }
        Carry(g, b, ic, 0);
      }
      Carry(g, b, 0, 0);
    }
    Carry(g, 0, 0, 0);
    if Divides(g, stride) || RowFits(g, stride) {
      NothingLost(src, dst[..], g, stride);
    }
    if Divides(g, stride) && |src| == Size(g) {
      Recovered(src, dst[..], g, stride);
    }
  }

  /** When stride * stride divides the channels, an input of the size of the output holds all reads. */
  lemma DividesInside(g: Grid, s: nat)
    requires Full(g) && Divides(g, s)
    ensures SourceGrid(g, s).c > 0 && ReadsInside(g, s, Size(g))
  {
    hide Source, Size;
    Channels(g, s);
    forall d | 0 <= d < Size(g) ensures Source(g, s, d) < Size(g) {
      Lossless(g, s, d);
    }
  }

  lemma Start(src: seq<real>, dst: seq<real>, g: Grid, s: nat)
    requires Full(g) && s > 0 && SourceGrid(g, s).c > 0
    ensures Flat(g, Place(0, 0, 0, 0)) == 0 && Filled(src, dst, g, s, 0)
  {
  }

  lemma Copied(src: seq<real>, dst: seq<real>, g: Grid, s: nat, x: nat)
    requires Full(g) && s > 0 && SourceGrid(g, s).c > 0 && Filled(src, dst, g, s, Size(g))
    requires x < |src| && x in Sources(g, s)
    ensures src[x] in dst
  {
    hide Source, Size, SourceGrid;
    var xs := Sources(g, s);
    var d :| 0 <= d < |xs| && xs[d] == x;
    assert dst[d] == src[Source(g, s, d)];
  }

  lemma NothingLost(src: seq<real>, dst: seq<real>, g: Grid, s: nat)
    requires Full(g) && s > 0 && SourceGrid(g, s).c > 0 && Filled(src, dst, g, s, Size(g))
    requires Divides(g, s) || RowFits(g, s)
    ensures forall x :: 0 <= x < |src| && x < Size(g) ==> src[x] in dst
  {
    hide Source, Size, SourceGrid, Divides, RowFits, Filled;
    LosslessIff(g, s);
    forall x | 0 <= x < |src| && x < Size(g) ensures src[x] in dst {
      Copied(src, dst, g, s, x);
    }
  }

  lemma Recovered(src: seq<real>, dst: seq<real>, g: Grid, s: nat)
    requires Full(g) && Divides(g, s) && |src| == |dst| == Size(g)
    requires SourceGrid(g, s).c > 0 && Filled(src, dst, g, s, Size(g))
    ensures forall x :: 0 <= x < |src| ==> Target(g, s, x) < |dst| && src[x] == dst[Target(g, s, x)]
  {
    hide Source, Target, Size;
    forall x | 0 <= x < |src| ensures Target(g, s, x) < |dst| && src[x] == dst[Target(g, s, x)] {
      Lossless(g, s, x);
    }
  }
}
