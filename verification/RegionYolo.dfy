/** The region layer: per anchor a logistic for the box and the objectness, a softmax over the classes.
    Anchor a of all batches holds classes + coords + 1 entries of hw values, entry by entry. */
module RegionYolo {
  import opened Canvas
  import opened Nonlinear
  import opened SoftmaxColumn
  import opened SoftmaxLayer
  import opened Tensor

  function Logistic(exp: Fn, x: real): real
    requires ExpLike(exp)
  {
    assert exp(-x) > 0.0;
    1.0 / (1.0 + exp(-x))
  }

  /** The logistic is between 0 and 1 and keeps the order. */
  lemma LogisticOpen(exp: Fn, x: real, y: real)
    requires ExpLike(exp)
    ensures 0.0 < Logistic(exp, x) < 1.0
    ensures x < y <==> Logistic(exp, x) < Logistic(exp, y)
  {
    ExpOrder(exp, -x, -y);
    ExpOrder(exp, -y, -x);
    Reciprocals(1.0 + exp(-x), 1.0 + exp(-y));
  }

  lemma ExpOpposite(exp: Fn, x: real)
    requires ExpLike(exp) && Multiplicative(exp)
    ensures exp(x) > 0.0 && exp(-x) > 0.0 && exp(x) * exp(-x) == 1.0
  {
    assert exp(0.0 + 0.0) == exp(0.0) * exp(0.0);
    assert exp(0.0) > 0.0;
    OneOnly(exp(0.0));
    assert exp(x + -x) == exp(x) * exp(-x);
    assert x + -x == 0.0;
  }

  lemma OneOnly(e: real)
    requires e > 0.0 && e * e == e
    ensures e == 1.0
  {
    assert e * (e - 1.0) == 0.0;
  }

  lemma ReciprocalSum(e: real, f: real)
    requires e > 0.0 && f > 0.0 && e * f == 1.0
    ensures 1.0 / (1.0 + f) + 1.0 / (1.0 + e) == 1.0
    ensures 1.0 / (1.0 + f) == e * (1.0 / (1.0 + e))
  {
    var p, q := 1.0 / (1.0 + f), 1.0 / (1.0 + e);
    assert p * (1.0 + f) == 1.0 && q * (1.0 + e) == 1.0;
    assert (e * q) * (1.0 + f) == q * (e + e * f);
    SameFactor(p, e * q, 1.0 + f);
    assert q * (1.0 + e) == q + e * q;
  }

  lemma SameFactor(x: real, y: real, z: real)
    requires z > 0.0 && x * z == y * z
    ensures x == y
  {
    assert (x - y) * z == 0.0;
  }

  /** For a multiplicative exponential the logistic of a value and of its opposite add up to one, and their ratio, the
      odds, is the exponential of the value. */
  lemma LogisticOdds(exp: Fn, x: real)
    requires ExpLike(exp) && Multiplicative(exp)
    ensures Logistic(exp, x) + Logistic(exp, -x) == 1.0
    ensures Logistic(exp, x) == exp(x) * Logistic(exp, -x)
    ensures Logistic(exp, x) == exp(x) * (1.0 - Logistic(exp, x))
  {
    hide Multiplicative, ExpLike;
    ExpOpposite(exp, x);
    assert -(-x) == x;
    ReciprocalSum(exp(x), exp(-x));
  }

  lemma Reciprocals(a: real, b: real)
    requires a > 1.0 && b > 1.0
    ensures 0.0 < 1.0 / a < 1.0
    ensures b < a <==> 1.0 / a < 1.0 / b
  {
    assert 1.0 / a * a == 1.0 && 1.0 / b * b == 1.0;
    Inverses(a, b, 1.0 / a, 1.0 / b);
    Inverses(a, 1.0, 1.0 / a, 1.0);
  }

  lemma Inverses(a: real, b: real, p: real, q: real)
    requires a > 0.0 && b > 0.0 && p * a == 1.0 && q * b == 1.0
    ensures p > 0.0 && (b < a <==> p < q)
  {
    Factor(0.0, p, a);
    Factor(p, q, b);
    Factor(b, a, p);
  }

  /** A positive factor keeps the order. */
  lemma Factor(x: real, y: real, z: real)
    requires z > 0.0
    ensures x < y <==> x * z < y * z
  {
    assert (y - x) * z == y * z - x * z;
  }

  datatype Dims = Dims(batches: nat, num: nat, classes: nat, coords: nat, hw: nat)

  /** What the layer needs to divide by its numbers and to stay inside its tensors. */
  predicate Legal(d: Dims) {
    d.num > 0 && d.classes > 0 && d.hw > 0
  }

  /** No tensor of the layer is empty for a batch. */
  lemma LegalIff(d: Dims)
    ensures Legal(d) <==> d.num * d.classes * d.hw > 0
  {
    if Legal(d) {
      MulMono(1, d.num, d.classes);
      MulMono(1, d.num * d.classes, d.hw);
    }
  }

  function Entries(d: Dims): (e: nat)
    ensures e >= 1
  {
    d.classes + d.coords + 1
  }

  /** batch x anchor x entry x location. */
  function Shape(d: Dims): Grid {
    Grid(d.batches, d.num, Entries(d), d.hw)
  }

  /** The offset computed by the code, which passes anchor and location as one number. */
  function EntryIndex(d: Dims, outputs: nat, batch: nat, location: nat, entry: nat): nat
    requires Legal(d)
  {
    var n: nat := location / d.hw;
    var loc := location % d.hw;
    assert n * d.hw >= 0;
    assert n * d.hw * Entries(d) >= 0;
    batch * outputs + n * d.hw * Entries(d) + entry * d.hw + loc
  }

  /** How many values one anchor holds, and where its classes start. */
  function Span(d: Dims): (n: nat)
    ensures n == (d.coords + 1) * d.hw + d.classes * d.hw
    ensures 0 <= d.coords * d.hw && (d.coords + 1) * d.hw == d.coords * d.hw + d.hw
    ensures d.classes > 0 ==> 2 * d.hw <= n
  {
    MulMono(0, d.coords, d.hw);
    MulMono(0, d.classes, d.hw);
    MulMono(if d.classes > 0 then 2 else 0, Entries(d), d.hw);
    MulDist(d.coords, 1, d.hw);
    MulDist(d.coords + 1, d.classes, d.hw);
    Entries(d) * d.hw
  }

  lemma IndexIs(d: Dims, b: nat, n: nat, e: nat)
    requires Legal(d)
    ensures 0 <= n * d.hw && 0 <= d.hw * d.num * Entries(d)
    ensures EntryIndex(d, d.hw * d.num * Entries(d), b, n * d.hw, e) == (b * d.num + n) * Span(d) + e * d.hw
  {
    MulMono(0, n, d.hw);
    MulMono(0, d.num, d.hw);
    assert d.hw * d.num == d.num * d.hw;
    MulMono(0, d.hw * d.num, Entries(d));
    DivModUnique(n * d.hw, d.hw, n, 0);
    MulDist(b * d.num, n, Span(d));
    calc {
      b * (d.hw * d.num * Entries(d));
      { MulAssoc(d.num, d.hw, Entries(d)); assert d.hw * Entries(d) == Span(d); }
      b * (d.num * Span(d));
      { MulAssoc(b, d.num, Span(d)); }
      b * d.num * Span(d);
    }
    MulAssoc(n, d.hw, Entries(d));
  }

  /** Value j of an anchor after the logistic passes: the first two entries, then the entry at off. */
  ghost function Activated(exp: Fn, x: real, j: int, hw: nat, off: nat): real
    requires ExpLike(exp)
  {
    var y := if j < 2 * hw then Logistic(exp, x) else x;
    if off <= j < off + hw then Logistic(exp, y) else y
  }

  /** The in-place logistic of a run of values. */
  method LogisticRun(exp: Fn, dst: array<real>, index: nat, len: nat)
    requires ExpLike(exp) && index + len <= dst.Length
    modifies dst
    ensures forall t :: 0 <= t < dst.Length ==>
              dst[t] == if index <= t < index + len then Logistic(exp, old(dst[t])) else old(dst[t])
  {
    hide Logistic, ExpLike;
    for i := index to index + len
      invariant forall t :: 0 <= t < dst.Length ==>
                  dst[t] == if index <= t < i then Logistic(exp, old(dst[t])) else old(dst[t])
    {
      dst[i] := Logistic(exp, dst[i]);
    }
  }

  /** Every value of the first a anchors is activated, all others are still the input. */
  ghost predicate Anchored(exp: Fn, src: seq<real>, out: seq<real>, span: nat, a: nat, hw: nat, off: nat)
    requires ExpLike(exp)
  {
    && |out| == |src| && a * span >= 0
    && (forall b: nat, j: nat :: b < a && j < span
          ==> Cell(out, 0, span, j, b) == Activated(exp, Cell(src, 0, span, j, b), j, hw, off))
    && (forall t :: a * span <= t < |src| ==> out[t] == src[t])
  }

  lemma AnchorMore(exp: Fn, src: seq<real>, was: seq<real>, now: seq<real>, span: nat, a: nat, hw: nat, off: nat,
          at: nat)
    requires ExpLike(exp) && Anchored(exp, src, was, span, a, hw, off) && |now| == |was|
    requires at == a * span && at + span <= |was|
    requires forall t :: at <= t < at + span ==> now[t] == Activated(exp, was[t], t - at, hw, off)
    requires forall t :: 0 <= t < |was| && !(at <= t < at + span) ==> now[t] == was[t]
    ensures Anchored(exp, src, now, span, a + 1, hw, off)
  {
    hide Activated, ExpLike, Cell;
    MulDist(a, 1, span);
    forall b: nat, j: nat | b < a + 1 && j < span
      ensures Cell(now, 0, span, j, b) == Activated(exp, Cell(src, 0, span, j, b), j, hw, off)
    {
      MulMono(0, b, span);
      MulMono(b, a, span);
      var t := b * span + j;
      if b == a {
        CellIs(now, 0, span, j, b);
        CellIs(src, 0, span, j, b);
        assert now[t] == Activated(exp, was[t], t - at, hw, off);
        assert was[t] == src[t];
      } else {
        MulMono(b + 1, a, span);
        MulDist(b, 1, span);
        CellIs(now, 0, span, j, b);
        CellIs(was, 0, span, j, b);
        assert now[t] == was[t];
      }
    }
  }

  /** The two logistic loops of one anchor. */
  method ActivateAnchor(exp: Fn, ghost src: seq<real>, dst: array<real>, d: Dims, inputsSize: nat, b: nat, n: nat)
    requires ExpLike(exp) && Legal(d) && b < d.batches && n < d.num && inputsSize == d.hw * d.num * Entries(d)
    requires dst.Length == d.batches * d.num * Span(d)
    requires Anchored(exp, src, dst[..], Span(d), b * d.num + n, d.hw, d.coords * d.hw)
    modifies dst
    ensures Anchored(exp, src, dst[..], Span(d), b * d.num + n + 1, d.hw, d.coords * d.hw)
  {
    hide Anchored, Logistic, ExpLike, EntryIndex, Span;
    ghost var was, span, off := dst[..], Span(d), d.coords * d.hw;
    IndexIs(d, b, n, 0);
    IndexIs(d, b, n, d.coords);
    Digit(d.num, b, n, d.batches);
    RunFits(d.batches * d.num, span, b * d.num + n, 0, span);
    ghost var at := (b * d.num + n) * span;
    var index := EntryIndex(d, inputsSize, b, n * d.hw, 0);
    LogisticRun(exp, dst, index, 2 * d.hw);
    index := EntryIndex(d, inputsSize, b, n * d.hw, d.coords);
    LogisticRun(exp, dst, index, d.hw);
    AnchorMore(exp, src, was, dst[..], span, b * d.num + n, d.hw, off, at);
  }

  lemma AnchoredNone(exp: Fn, src: seq<real>, span: nat, hw: nat, off: nat)
    requires ExpLike(exp)
    ensures Anchored(exp, src, src, span, 0, hw, off)
  {
  }

  /** The logistic passes of all batches. */
  method ActivateAll(exp: Fn, ghost src: seq<real>, dst: array<real>, d: Dims)
    requires ExpLike(exp) && Legal(d) && dst[..] == src
    requires dst.Length == d.batches * d.num * Span(d)
    modifies dst
    ensures Anchored(exp, src, dst[..], Span(d), d.batches * d.num, d.hw, d.coords * d.hw)
  {
    hide Anchored, ExpLike, Span;
    assert Entries(d) > 0;
    var inputsSize := d.hw * d.num * Entries(d);
    AnchoredNone(exp, src, Span(d), d.hw, d.coords * d.hw);
    for b := 0 to d.batches
      invariant Anchored(exp, src, dst[..], Span(d), b * d.num, d.hw, d.coords * d.hw)
    {
      for n := 0 to d.num
        invariant Anchored(exp, src, dst[..], Span(d), b * d.num + n, d.hw, d.coords * d.hw)
      {
        ActivateAnchor(exp, src, dst, d, inputsSize, b, n);
      }
      MulDist(b, 1, d.num);
    }
  }

  /** Where the class scores of anchor a start. */
  function ClassBase(d: Dims, a: nat): (o: nat)
    ensures o == a * Span(d) + (d.coords + 1) * d.hw && a * Span(d) >= 0 && (d.coords + 1) * d.hw >= 0
    ensures o + d.classes * d.hw == (a + 1) * Span(d)
  {
    MulMono(0, a, Span(d));
    MulDist(a, 1, Span(d));
    (d.coords + 1) * d.hw + a * Span(d)
  }

  /** Below the class scores every value is activated. */
  ghost predicate Boxes(exp: Fn, src: seq<real>, out: seq<real>, d: Dims)
    requires ExpLike(exp)
  {
    forall a: nat, j: nat :: a < d.batches * d.num && j < (d.coords + 1) * d.hw ==>
      Cell(out, 0, Span(d), j, a) == Activated(exp, Cell(src, 0, Span(d), j, a), j, d.hw, d.coords * d.hw)
  }

  /** The class scores of the first k anchors have their softmax. */
  ghost predicate Classes(exp: Fn, src: seq<real>, out: seq<real>, d: Dims, k: nat) {
    forall a: nat :: a < k ==> BatchDone(exp, src, out, ClassBase(d, a), d.classes, d.hw, d.hw)
  }

  lemma AnchoredBoxes(exp: Fn, src: seq<real>, out: seq<real>, d: Dims)
    requires ExpLike(exp) && Anchored(exp, src, out, Span(d), d.batches * d.num, d.hw, d.coords * d.hw)
    ensures Boxes(exp, src, out, d) && Classes(exp, src, out, d, 0)
  {
    hide Activated, Cell;
  }

  /** Writing the class scores of anchor k changes no other value. */
  lemma SameElsewhere(was: seq<real>, now: seq<real>, d: Dims, k: nat, a: nat, j: nat)
    requires |now| == |was| && j < Span(d) && (a != k || j < (d.coords + 1) * d.hw)
    requires forall t :: 0 <= t < |was| && !(ClassBase(d, k) <= t < (k + 1) * Span(d)) ==> now[t] == was[t]
    ensures Cell(now, 0, Span(d), j, a) == Cell(was, 0, Span(d), j, a)
  {
    var n := Span(d);
    hide Span, ClassBase;
    MulMono(0, a, n);
    if a < k {
      MulMono(a + 1, k, n);
      MulDist(a, 1, n);
    } else if k < a {
      MulMono(k + 1, a, n);
    }
  }

  lemma BoxesKept(exp: Fn, src: seq<real>, was: seq<real>, now: seq<real>, d: Dims, k: nat)
    requires ExpLike(exp) && Boxes(exp, src, was, d) && |now| == |was|
    requires forall t :: 0 <= t < |was| && !(ClassBase(d, k) <= t < (k + 1) * Span(d)) ==> now[t] == was[t]
    ensures Boxes(exp, src, now, d)
  {
    hide Activated, Cell, ClassBase, ExpLike;
    MulMono(0, d.classes, d.hw);
    forall a: nat, j: nat | a < d.batches * d.num && j < (d.coords + 1) * d.hw
      ensures Cell(now, 0, Span(d), j, a) == Activated(exp, Cell(src, 0, Span(d), j, a), j, d.hw, d.coords * d.hw)
    {
      SameElsewhere(was, now, d, k, a, j);
    }
  }

  lemma ClassesMore(exp: Fn, src: seq<real>, was: seq<real>, now: seq<real>, d: Dims, k: nat)
    requires Classes(exp, src, was, d, k) && |now| == |was|
    requires BatchDone(exp, src, now, ClassBase(d, k), d.classes, d.hw, d.hw)
    requires forall t :: 0 <= t < |was| && !(ClassBase(d, k) <= t < (k + 1) * Span(d)) ==> now[t] == was[t]
    ensures Classes(exp, src, now, d, k + 1)
  {
    hide BatchDone;
    forall a: nat | a < k ensures BatchDone(exp, src, now, ClassBase(d, a), d.classes, d.hw, d.hw) {
      BatchKept(exp, src, was, now, d, k, a);
    }
  }

  lemma BatchKept(exp: Fn, src: seq<real>, was: seq<real>, now: seq<real>, d: Dims, k: nat, a: nat)
    requires a < k && |now| == |was| && BatchDone(exp, src, was, ClassBase(d, a), d.classes, d.hw, d.hw)
    requires forall t :: 0 <= t < |was| && !(ClassBase(d, k) <= t < (k + 1) * Span(d)) ==> now[t] == was[t]
    ensures BatchDone(exp, src, now, ClassBase(d, a), d.classes, d.hw, d.hw)
  {
    var at := ClassBase(d, a);
    MulMono(a + 1, k, Span(d));
    assert at + d.classes * d.hw <= ClassBase(d, k);
    hide ExpLike, SoftmaxPic, ClassBase, Span;
    forall x: nat, y: nat | x < d.hw && y < d.classes
      ensures Cell(now, at, d.hw, x, y) == Cell(was, at, d.hw, x, y)
    {
      RunFits(d.classes, d.hw, y, x, 1);
    }
  }

  /** The two numbers that place the softmax of anchor a. */
  lemma ClassOffset(d: Dims, a: nat)
    requires Legal(d)
    ensures 0 <= d.hw * d.num * Entries(d)
    ensures EntryIndex(d, d.hw * d.num * Entries(d), 0, 0, d.coords + 1)
            + a * (d.hw * d.num * Entries(d) / d.num) == ClassBase(d, a)
    ensures BatchBase(ClassBase(d, a), d.classes, d.hw, 1) == (a + 1) * Span(d)
    ensures BatchBase(ClassBase(d, a), d.classes, d.hw, 0) == ClassBase(d, a)
  {
    IndexIs(d, 0, 0, d.coords + 1);
    assert d.hw * d.num * Entries(d) == Span(d) * d.num + 0 by {
      assert d.hw * d.num == d.num * d.hw;
      MulAssoc(d.num, d.hw, Entries(d));
      assert d.hw * Entries(d) == Span(d);
    }
    DivModUnique(d.hw * d.num * Entries(d), d.num, Span(d), 0);
  }

  /** The whole layer: a copy, the logistic passes, and one softmax per anchor. */
  method Execute(exp: Fn, src: seq<real>, dst: array<real>, d: Dims, lanes: nat)
    requires ExpLike(exp) && Legal(d) && |src| == dst.Length == d.batches * d.num * Span(d)
    modifies dst
    ensures Boxes(exp, src, dst[..], d) && Classes(exp, src, dst[..], d, d.batches * d.num)
  {
    hide Anchored, Boxes, Classes, ExpLike, EntryIndex, Span, Softened, BatchDone, ClassBase, BatchBase;
    for i := 0 to dst.Length
      invariant forall t :: 0 <= t < i ==> dst[t] == src[t]
    {
      dst[i] := src[i];
    }
    assert dst[..] == src;
    ActivateAll(exp, src, dst, d);
    AnchoredBoxes(exp, src, dst[..], d);
    var inputsSize := d.hw * d.num * Entries(d);
    for b := 0 to d.batches * d.num
      invariant Boxes(exp, src, dst[..], d) && Classes(exp, src, dst[..], d, b)
    {
      SoftmaxAnchor(exp, src, dst, d, inputsSize, b, lanes);
    }
  }

  method SoftmaxAnchor(exp: Fn, src: seq<real>, dst: array<real>, d: Dims, inputsSize: nat, b: nat, lanes: nat)
    requires ExpLike(exp) && Legal(d) && |src| == dst.Length == d.batches * d.num * Span(d)
    requires b < d.batches * d.num && inputsSize == d.hw * d.num * Entries(d)
    requires Boxes(exp, src, dst[..], d) && Classes(exp, src, dst[..], d, b)
    modifies dst
    ensures Boxes(exp, src, dst[..], d) && Classes(exp, src, dst[..], d, b + 1)
  {
    hide Boxes, Classes, ExpLike, EntryIndex, Span, BatchDone, BatchBase, ClassBase;
    ClassOffset(d, b);
    MulMono(b + 1, d.batches * d.num, Span(d));
    var index := EntryIndex(d, inputsSize, 0, 0, d.coords + 1);
    var batchOffset := inputsSize / d.num;
    ghost var was := dst[..];
    SoftmaxGeneric(exp, src, dst, index + b * batchOffset, 1, d.classes, d.hw, lanes);
    assert BatchDone(exp, src, dst[..], ClassBase(d, b), d.classes, d.hw, d.hw);
    BoxesKept(exp, src, was, dst[..], d, b);
    ClassesMore(exp, src, was, dst[..], d, b);
  }

  /** The class scores of one location of one anchor. */
  function ClassScores(src: seq<real>, d: Dims, b: nat, n: nat, x: nat): (col: seq<real>)
    ensures |col| == d.classes
  {
    Column(src, ClassBase(d, b * d.num + n), d.classes, d.hw, x)
  }

  lemma PlaceOf(d: Dims, b: nat, n: nat, e: nat, x: nat)
    requires Inside(Shape(d), Place(b, n, e, x))
    ensures var t, a := Flat(Shape(d), Place(b, n, e, x)), b * d.num + n;
            && a < d.batches * d.num && 0 <= a * Span(d) && 0 <= e * d.hw
            && t == a * Span(d) + e * d.hw + x < d.batches * d.num * Span(d)
            && e * d.hw + x < Span(d)
  {
    Digit(d.num, b, n, d.batches);
    Digit(Entries(d), b * d.num + n, e, d.batches * d.num);
    Digit(d.hw, e, x, Entries(d));
    FlatInside(Shape(d), Place(b, n, e, x));
    MulDist((b * d.num + n) * Entries(d), e, d.hw);
    MulAssoc(b * d.num + n, Entries(d), d.hw);
    MulAssoc(d.batches * d.num, Entries(d), d.hw);
  }

  lemma EntryRange(d: Dims, e: nat, x: nat)
    requires x < d.hw
    ensures e * d.hw + x < 2 * d.hw <==> e < 2
    ensures d.coords * d.hw <= e * d.hw + x < d.coords * d.hw + d.hw <==> e == d.coords
    ensures e * d.hw + x < (d.coords + 1) * d.hw <==> e <= d.coords
  {
    MulDist(d.coords, 1, d.hw);
    if e < 2 { MulMono(e, 1, d.hw); } else { MulMono(2, e, d.hw); }
    if e < d.coords {
      MulMono(e + 1, d.coords, d.hw);
      MulDist(e, 1, d.hw);
    } else if e > d.coords {
      MulMono(d.coords + 1, e, d.hw);
    }
  }

  /** Every entry below the classes: the logistic for entries 0 and 1, the logistic for entry coords (a second one
      where coords is below 2), and otherwise the input. */
  lemma BoxEntry(exp: Fn, src: seq<real>, out: seq<real>, d: Dims, b: nat, n: nat, e: nat, x: nat)
    requires ExpLike(exp) && |src| == |out| == d.batches * d.num * Span(d) && Boxes(exp, src, out, d)
    requires Inside(Shape(d), Place(b, n, e, x)) && e <= d.coords
    ensures Flat(Shape(d), Place(b, n, e, x)) < |src|
    ensures var t := Flat(Shape(d), Place(b, n, e, x));
            var y := if e < 2 then Logistic(exp, src[t]) else src[t];
            out[t] == if e == d.coords then Logistic(exp, y) else y
  {
    PlaceOf(d, b, n, e, x);
    EntryRange(d, e, x);
    var a, j := b * d.num + n, e * d.hw + x;
    hide Flat, ExpLike, Logistic, Cell, Span;
    CellIs(src, 0, Span(d), j, a);
    CellIs(out, 0, Span(d), j, a);
  }

  /** In numbers, with at least two coordinates: the entries for the position and for the object are probabilities with
      the exponential of their input as the odds. */
  lemma EntryOdds(exp: Fn, src: seq<real>, out: seq<real>, d: Dims, b: nat, n: nat, e: nat, x: nat)
    requires ExpLike(exp) && Multiplicative(exp) && d.coords >= 2
    requires |src| == |out| == d.batches * d.num * Span(d) && Boxes(exp, src, out, d)
    requires Inside(Shape(d), Place(b, n, e, x)) && (e < 2 || e == d.coords)
    ensures Flat(Shape(d), Place(b, n, e, x)) < |src|
    ensures var t := Flat(Shape(d), Place(b, n, e, x));
            0.0 < out[t] < 1.0 && out[t] == exp(src[t]) * (1.0 - out[t])
  {
    hide Flat, ExpLike, Multiplicative, Logistic, Boxes, Span;
    BoxEntry(exp, src, out, d, b, n, e, x);
    var v := src[Flat(Shape(d), Place(b, n, e, x))];
    LogisticOpen(exp, v, v);
    LogisticOdds(exp, v);
  }

  lemma ClassEntry(exp: Fn, src: seq<real>, out: seq<real>, d: Dims, b: nat, n: nat, c: nat, x: nat)
    requires ExpLike(exp) && |src| == |out| == d.batches * d.num * Span(d)
    requires Classes(exp, src, out, d, d.batches * d.num)
    requires Inside(Shape(d), Place(b, n, d.coords + 1 + c, x))
    ensures var t := Flat(Shape(d), Place(b, n, d.coords + 1 + c, x));
            && t < |src|
            && ClassScores(src, d, b, n, x)[c] == src[t]
            && out[t] == Softmax(exp, ClassScores(src, d, b, n, x))[c]
  {
    hide *;
    ClassPlace(src, d, b, n, c, x);
    var a := b * d.num + n;
    ClassCell(exp, src, out, d, a, c, x);
    CellIs(src, ClassBase(d, a), d.hw, x, c);
    CellIs(out, ClassBase(d, a), d.hw, x, c);
  }

  lemma ClassPlace(src: seq<real>, d: Dims, b: nat, n: nat, c: nat, x: nat)
    requires Inside(Shape(d), Place(b, n, d.coords + 1 + c, x))
    ensures c < d.classes && x < d.hw && 0 <= b * d.num + n < d.batches * d.num
    ensures var at := ClassBase(d, b * d.num + n);
            && Flat(Shape(d), Place(b, n, d.coords + 1 + c, x)) == at + c * d.hw + x < d.batches * d.num * Span(d)
            && ClassScores(src, d, b, n, x) == Column(src, at, d.classes, d.hw, x)
  {
    hide Flat, Span;
    PlaceOf(d, b, n, d.coords + 1 + c, x);
    MulDist(d.coords + 1, c, d.hw);
  }

  lemma ClassCell(exp: Fn, src: seq<real>, out: seq<real>, d: Dims, a: nat, c: nat, x: nat)
    requires ExpLike(exp) && Classes(exp, src, out, d, d.batches * d.num) && a < d.batches * d.num
    requires c < d.classes && x < d.hw
    ensures Column(src, ClassBase(d, a), d.classes, d.hw, x)[c] == Cell(src, ClassBase(d, a), d.hw, x, c)
    ensures Cell(out, ClassBase(d, a), d.hw, x, c)
            == Softmax(exp, Column(src, ClassBase(d, a), d.classes, d.hw, x))[c]
  {
    var at := ClassBase(d, a);
    assert BatchDone(exp, src, out, at, d.classes, d.hw, d.hw);
    hide Cell, Softmax, ExpLike, ClassBase;
    ShowsAt(out, at, d.hw, SoftmaxPic(exp, src, at, d.classes, d.hw), 0, d.classes, 0, d.hw, x, c);
  }

  /** The three kinds of entries: logistic, softmax, untouched. */
  ghost function Expected(exp: Fn, src: seq<real>, d: Dims, p: Place): (v: real)
    requires ExpLike(exp) && Legal(d) && |src| == d.batches * d.num * Span(d) && Inside(Shape(d), p)
    ensures p.h > d.coords ==> v > 0.0
    ensures p.h <= d.coords && (p.h <= 1 || p.h == d.coords) ==> 0.0 < v < 1.0
  {
    PlaceOf(d, p.b, p.c, p.h, p.w);
    var x := src[Flat(Shape(d), p)];
    if p.h > d.coords then
      var scores := ClassScores(src, d, p.b, p.c, p.w);
      Distribution(exp, scores);
      Softmax(exp, scores)[p.h - d.coords - 1]
    else if p.h <= 1 || p.h == d.coords then
      LogisticOpen(exp, x, x);
      Logistic(exp, x)
    else x
  }

  /** With at least two coordinates every entry of the output is of its kind. */
  lemma Partition(exp: Fn, src: seq<real>, out: seq<real>, d: Dims, p: Place)
    requires ExpLike(exp) && Legal(d) && d.coords >= 2 && |src| == |out| == d.batches * d.num * Span(d)
    requires Boxes(exp, src, out, d) && Classes(exp, src, out, d, d.batches * d.num)
    requires Inside(Shape(d), p)
    ensures Flat(Shape(d), p) < |out| && out[Flat(Shape(d), p)] == Expected(exp, src, d, p)
  {
    hide ExpLike, Boxes, Classes, Softmax, Logistic, Flat, Span, ClassScores;
    if p.h <= d.coords {
      BoxEntry(exp, src, out, d, p.b, p.c, p.h, p.w);
    } else {
      ClassEntry(exp, src, out, d, p.b, p.c, p.h - d.coords - 1, p.w);
    }
  }

  // ---- below two coordinates ----

  /** The layer's output as a function of its input, offset by offset. */
  ghost function Output(exp: Fn, src: seq<real>, d: Dims): (out: seq<real>)
    requires ExpLike(exp) && Legal(d) && |src| == d.batches * d.num * Span(d)
    ensures |out| == |src|
  {
    seq(|src|, t requires 0 <= t < |src| => OutputAt(exp, src, d, t))
  }

  ghost function OutputAt(exp: Fn, src: seq<real>, d: Dims, t: nat): real
    requires ExpLike(exp) && Legal(d) && t < |src|
  {
    var a: nat, j: nat := t / Span(d), t % Span(d);
    var head := (d.coords + 1) * d.hw;
    if j < head then Activated(exp, src[t], j, d.hw, d.coords * d.hw)
    else SoftmaxAt(exp, src, ClassBase(d, a), d.classes, d.hw, j - head)
  }

  /** Offset r behind the base of one anchor's class scores. */
  ghost function SoftmaxAt(exp: Fn, src: seq<real>, base: nat, classes: nat, hw: nat, r: nat): real
    requires ExpLike(exp) && hw > 0
  {
    SoftmaxPic(exp, src, base, classes, hw)(r % hw, r / hw)
  }

  lemma OutputBox(exp: Fn, src: seq<real>, d: Dims, a: nat, j: nat)
    requires ExpLike(exp) && Legal(d) && |src| == d.batches * d.num * Span(d)
    requires a < d.batches * d.num && j < (d.coords + 1) * d.hw
    ensures Cell(Output(exp, src, d), 0, Span(d), j, a)
         == Activated(exp, Cell(src, 0, Span(d), j, a), j, d.hw, d.coords * d.hw)
  {
    MulMono(0, d.classes, d.hw);
    RunFits(d.batches * d.num, Span(d), a, j, 1);
    DivModUnique(a * Span(d) + j, Span(d), a, j);
    hide Activated, SoftmaxPic, ClassBase, ExpLike;
    CellIs(src, 0, Span(d), j, a);
    CellIs(Output(exp, src, d), 0, Span(d), j, a);
  }

  lemma OutputClass(exp: Fn, src: seq<real>, d: Dims, a: nat, x: nat, y: nat)
    requires ExpLike(exp) && Legal(d) && |src| == d.batches * d.num * Span(d)
    requires a < d.batches * d.num && x < d.hw && y < d.classes
    ensures Cell(Output(exp, src, d), ClassBase(d, a), d.hw, x, y)
         == SoftmaxPic(exp, src, ClassBase(d, a), d.classes, d.hw)(x, y)
  {
    var at, head := ClassBase(d, a), (d.coords + 1) * d.hw;
    RunFits(d.classes, d.hw, y, x, 1);
    MulMono(a + 1, d.batches * d.num, Span(d));
    MulMono(0, y, d.hw);
    assert at + y * d.hw + x == a * Span(d) + (head + y * d.hw + x);
    DivModUnique(a * Span(d) + (head + y * d.hw + x), Span(d), a, head + y * d.hw + x);
    DivModUnique(y * d.hw + x, d.hw, y, x);
    hide Activated, SoftmaxPic, ClassBase, ExpLike, Span;
    CellIs(Output(exp, src, d), at, d.hw, x, y);
  }

  /** That function is what the layer leaves. */
  lemma OutputIsLayer(exp: Fn, src: seq<real>, d: Dims)
    requires ExpLike(exp) && Legal(d) && |src| == d.batches * d.num * Span(d)
    ensures Boxes(exp, src, Output(exp, src, d), d) && Classes(exp, src, Output(exp, src, d), d, d.batches * d.num)
  {
    hide Output, Activated, SoftmaxPic, Cell, ClassBase, Span, ExpLike;
    var out := Output(exp, src, d);
    forall a: nat, j: nat | a < d.batches * d.num && j < (d.coords + 1) * d.hw
      ensures Cell(out, 0, Span(d), j, a) == Activated(exp, Cell(src, 0, Span(d), j, a), j, d.hw, d.coords * d.hw)
    {
      OutputBox(exp, src, d, a, j);
    }
    forall a: nat | a < d.batches * d.num
      ensures BatchDone(exp, src, out, ClassBase(d, a), d.classes, d.hw, d.hw)
    {
      var pic := SoftmaxPic(exp, src, ClassBase(d, a), d.classes, d.hw);
      forall x: nat, y: nat | x < d.hw && y < d.classes
        ensures Cell(out, ClassBase(d, a), d.hw, x, y) == pic(x, y)
      {
        OutputClass(exp, src, d, a, x, y);
      }
    }
  }

  /** A second logistic changes a value of at least one. */
  lemma TwiceDiffers(exp: Fn, x: real)
    requires ExpLike(exp) && x >= 1.0
    ensures Logistic(exp, Logistic(exp, x)) != Logistic(exp, x)
  {
    hide Logistic, ExpLike;
    var y := Logistic(exp, x);
    LogisticOpen(exp, x, x);
    LogisticOpen(exp, y, x);
  }

  /** Every value of the input is of its kind in the output. */
  ghost predicate AllExpected(exp: Fn, src: seq<real>, out: seq<real>, d: Dims)
    requires ExpLike(exp) && Legal(d) && |src| == |out| == d.batches * d.num * Span(d)
  {
    forall p :: Inside(Shape(d), p) ==> Flat(Shape(d), p) < |out| && out[Flat(Shape(d), p)] == Expected(exp, src, d, p)
  }

  /** out is what the layer leaves for src. */
  ghost predicate LayerOf(exp: Fn, src: seq<real>, out: seq<real>, d: Dims)
    requires ExpLike(exp)
  {
    && |src| == |out| == d.batches * d.num * Span(d)
    && Boxes(exp, src, out, d) && Classes(exp, src, out, d, d.batches * d.num)
  }

  /** Below two coordinates an input of ones comes out wrong. */
  lemma OnesFail(exp: Fn, d: Dims)
    requires ExpLike(exp) && Legal(d) && d.batches > 0 && d.coords < 2
    ensures d.batches * d.num * Span(d) >= 0
    ensures var src := seq(d.batches * d.num * Span(d), t => 1.0);
            !AllExpected(exp, src, Output(exp, src, d), d)
  {
    MulMono(0, d.batches, d.num);
    MulMono(0, d.classes, d.hw);
    MulMono(0, d.batches * d.num, Span(d));
    var src := seq(d.batches * d.num * Span(d), t => 1.0);
    var p := Place(0, 0, d.coords, 0);
    assert Inside(Shape(d), p);
    OutputIsLayer(exp, src, d);
    hide Output, Boxes, Classes, Flat, Span, Softmax, Logistic, ClassScores, ExpLike;
    BoxEntry(exp, src, Output(exp, src, d), d, 0, 0, d.coords, 0);
    TwiceDiffers(exp, 1.0);
    assert Expected(exp, src, d, p) == Logistic(exp, 1.0);
  }

  /** For every input the entries are of the three kinds if and only if there are at least two coordinates. */
  lemma PartitionIff(exp: Fn, d: Dims)
    requires ExpLike(exp) && Legal(d) && d.batches > 0
    ensures (forall src: seq<real>, out: seq<real> :: LayerOf(exp, src, out, d) ==> AllExpected(exp, src, out, d))
       <==> d.coords >= 2
  {
    hide Boxes, Classes, Output, Expected, Flat, Span;
    if d.coords >= 2 {
      forall src: seq<real>, out: seq<real> | LayerOf(exp, src, out, d)
        ensures AllExpected(exp, src, out, d)
      {
        forall p | Inside(Shape(d), p)
          ensures Flat(Shape(d), p) < |out| && out[Flat(Shape(d), p)] == Expected(exp, src, d, p)
        {
          Partition(exp, src, out, d, p);
        }
      }
    } else {
      OnesFail(exp, d);
      var src := seq(d.batches * d.num * Span(d), t => 1.0);
      OutputIsLayer(exp, src, d);
      assert LayerOf(exp, src, Output(exp, src, d), d);
    }
  }
}
