/** Dense tensors of four dimensions: places, offsets, and back. */
module Tensor {
  import opened Nonlinear

  datatype Grid = Grid(b: nat, c: nat, h: nat, w: nat)
  datatype Place = Place(b: nat, c: nat, h: nat, w: nat)

  predicate Full(g: Grid) { g.b > 0 && g.c > 0 && g.h > 0 && g.w > 0 }

  predicate Inside(g: Grid, p: Place) {
    p.b < g.b && p.c < g.c && p.h < g.h && p.w < g.w
  }

  function Size(g: Grid): (n: nat) {
    g.b * g.c * g.h * g.w
  }

  /** The offset of a place in a dense tensor. */
  function Flat(g: Grid, p: Place): nat {
    ((p.b * g.c + p.c) * g.h + p.h) * g.w + p.w
  }

  function Unflat(g: Grid, x: nat): Place
    requires g.c > 0 && g.h > 0 && g.w > 0
  {
    var y: nat := x / g.w;
    var z: nat := y / g.h;
    Place(z / g.c, z % g.c, y % g.h, x % g.w)
  }

  lemma Digit(d: nat, q: nat, r: nat, n: nat)
    requires q < n && r < d
    ensures 0 <= q * d + r < n * d && (q * d + r) / d == q && (q * d + r) % d == r
  {
    MulMono(0, q, d);
    MulMono(q + 1, n, d);
    MulDist(q, 1, d);
    DivModUnique(q * d + r, d, q, r);
  }

  lemma FlatInside(g: Grid, p: Place)
    requires Inside(g, p)
    ensures Flat(g, p) < Size(g) && Unflat(g, Flat(g, p)) == p
  {
    Digit(g.c, p.b, p.c, g.b);
    Digit(g.h, p.b * g.c + p.c, p.h, g.b * g.c);
    Digit(g.w, (p.b * g.c + p.c) * g.h + p.h, p.w, g.b * g.c * g.h);
  }

  lemma UnflatInside(g: Grid, x: nat)
    requires x < Size(g) && g.c > 0 && g.h > 0 && g.w > 0
    ensures Inside(g, Unflat(g, x)) && Flat(g, Unflat(g, x)) == x
  {
    Within(x, g.w, g.b * g.c * g.h);
    Within(x / g.w, g.h, g.b * g.c);
    Within(x / g.w / g.h, g.c, g.b);
  }

  lemma Within(x: nat, d: nat, n: nat)
    requires d > 0 && x < n * d
    ensures x / d < n && x / d * d + x % d == x
  {
    assert n * d == d * n;
    DivBound(x, d, n);
  }

  /** The offset as the code adds it up. */
  lemma FlatIsSum(g: Grid, p: Place)
    ensures Flat(g, p) == p.b * g.c * g.h * g.w + p.c * g.h * g.w + p.h * g.w + p.w
  {
    MulDist(p.b * g.c, p.c, g.h);
    MulDist((p.b * g.c + p.c) * g.h, p.h, g.w);
    MulDist(p.b * g.c * g.h, p.c * g.h, g.w);
  }

  /** Running past the end of a row, a plane or a batch is the start of the next. */
  lemma Carry(g: Grid, b: nat, c: nat, h: nat)
    ensures Flat(g, Place(b, c, h, g.w)) == Flat(g, Place(b, c, h + 1, 0))
    ensures Flat(g, Place(b, c, g.h, 0)) == Flat(g, Place(b, c + 1, 0, 0))
    ensures Flat(g, Place(b, g.c, 0, 0)) == Flat(g, Place(b + 1, 0, 0, 0))
    ensures Flat(g, Place(g.b, 0, 0, 0)) == Size(g)
  {
    MulDist((b * g.c + c) * g.h + h, 1, g.w);
    MulDist(b * g.c + c, 1, g.h);
    MulDist(b, 1, g.c);
  }

  lemma Next(g: Grid, b: nat, c: nat, h: nat, w: nat)
    ensures Flat(g, Place(b, c, h, w + 1)) == Flat(g, Place(b, c, h, w)) + 1
  {
  }
}
