/** The greedy CTC decoder: per sequence the most probable class of every step, collapsed, padded with -1. */
module CtcGreedy {
  import opened CtcPath
  import opened Nonlinear
  import T = Tensor

  /** steps x sequences x classes; the last class is the blank. */
  datatype Shape = Shape(t: nat, n: nat, c: nat)

  ghost predicate Sized(p: seq<real>, ind: seq<real>, s: Shape) {
    s.t > 0 && s.c > 0 && |p| == s.t * s.c * s.n && |ind| == s.t * s.n
  }

  lemma OffsetBound(s: Shape, t: nat, n: nat)
    requires t < s.t && n < s.n
    ensures 0 <= t * s.c * s.n + n * s.c
    ensures t * s.c * s.n + n * s.c + s.c <= s.t * s.c * s.n
  {
    MulBelow(t, s.t, s.c);
    MulBelow(n, s.n, s.c);
    WideStep(t * s.c, s.c, s.t * s.c, s.n);
  }

  lemma WideStep(x: int, c: int, y: int, n: int)
    requires 0 <= x && x + c <= y && n >= 0
    ensures 0 <= x * n && x * n + n * c <= y * n
  {
    MulMono(0, x, n);
    MulMono(x + c, y, n);
    MulDist(x, c, n);
  }

  /** Where the probabilities of step t of sequence n start. */
  function Offset(s: Shape, t: nat, n: nat): (o: nat)
    requires t < s.t && n < s.n
    ensures o + s.c <= s.t * s.c * s.n
  {
    OffsetBound(s, t, n);
    t * s.c * s.n + n * s.c
  }

  /** Where the indicator of step t of sequence n is. */
  function Flag(s: Shape, t: nat, n: nat): (o: nat)
    requires t < s.t && n < s.n
    ensures o < s.t * s.n
  {
    MulBelow(t, s.t, s.n);
    t * s.n + n
  }

  /** Probabilities are a tensor steps x sequences x classes, indicators one steps x sequences. */
  lemma OffsetsAre(s: Shape, t: nat, n: nat, c: nat)
    requires t < s.t && n < s.n && c < s.c
    ensures Offset(s, t, n) + c == T.Flat(T.Grid(s.t, s.n, s.c, 1), T.Place(t, n, c, 0))
    ensures Flag(s, t, n) == T.Flat(T.Grid(s.t, s.n, 1, 1), T.Place(t, n, 0, 0))
  {
    MulDist(t * s.n, n, s.c);
    assert t * s.c * s.n == t * s.n * s.c;
  }

  /** The first of the largest entries. */
  ghost predicate FirstLargest(row: seq<real>, k: nat) {
    && k < |row|
    && (forall j :: 0 <= j < |row| ==> row[j] <= row[k])
    && (forall j :: 0 <= j < k ==> row[j] < row[k])
  }

  function ArgMax(row: seq<real>): (k: nat)
    requires row != []
    ensures k < |row| && FirstLargest(row, k)
  {
    var n := |row| - 1;
    if n == 0 then 0 else
    var k := ArgMax(row[..n]);
    assert forall j :: 0 <= j < n ==> row[..n][j] == row[j];
    if row[n] > row[k] then n else k
  }

  /** The step after the last one of sequence n, looking from step t on. */
  function SequenceEnd(ind: seq<real>, s: Shape, n: nat, t: nat): (e: nat)
    requires t < s.t && n < s.n && |ind| == s.t * s.n
    ensures t < e <= s.t && (e == s.t || ind[Flag(s, e, n)] == 0.0)
    ensures forall u: nat :: t < u < e ==> ind[Flag(s, u, n)] != 0.0
    decreases s.t - t
  {
    if t + 1 == s.t || ind[Flag(s, t + 1, n)] == 0.0 then t + 1 else SequenceEnd(ind, s, n, t + 1)
  }

  function Scores(p: seq<real>, s: Shape, t: nat, n: nat): (row: seq<real>)
    requires t < s.t && n < s.n && |p| == s.t * s.c * s.n
    ensures |row| == s.c
  {
    p[Offset(s, t, n)..Offset(s, t, n) + s.c]
  }

  /** The most probable class of each of the first e steps. */
  function BestPath(p: seq<real>, s: Shape, n: nat, e: nat): (path: seq<nat>)
    requires e <= s.t && n < s.n && s.c > 0 && |p| == s.t * s.c * s.n
    ensures |path| == e && forall t :: 0 <= t < e ==> FirstLargest(Scores(p, s, t, n), path[t])
  {
    if e == 0 then [] else BestPath(p, s, n, e - 1) + [ArgMax(Scores(p, s, e - 1, n))]
  }

  /** What the decoder owes sequence n. */
  function Decoded(p: seq<real>, ind: seq<real>, s: Shape, n: nat): (labels: seq<nat>)
    requires n < s.n && Sized(p, ind, s)
    ensures |labels| <= s.t
  {
    Collapse(BestPath(p, s, n, SequenceEnd(ind, s, n, 0)), s.c - 1)
  }

  /** A row of the output: the labels, then -1. */
  ghost predicate Holds(out: seq<int>, base: nat, width: nat, labels: seq<nat>) {
    && base + width <= |out| && |labels| <= width
    && forall k :: base <= k < base + width ==> out[k] == if k - base < |labels| then labels[k - base] else -1
  }

  /** One more step of a best path, and what it adds to the labels. */
  lemma PathStep(p: seq<real>, s: Shape, n: nat, t: nat)
    requires t < s.t && n < s.n && s.c > 0 && |p| == s.t * s.c * s.n
    ensures var path, best := BestPath(p, s, n, t), ArgMax(Scores(p, s, t, n));
            && BestPath(p, s, n, t + 1)[t] == best < s.c
            && Collapse(BestPath(p, s, n, t + 1), s.c - 1)
               == Collapse(path, s.c - 1) + if best == s.c - 1 || (t > 0 && path[t - 1] == best) then [] else [best]
  {
    hide Collapse, FirstLargest, Scores;
    CollapseSnoc(BestPath(p, s, n, t), ArgMax(Scores(p, s, t, n)), s.c - 1);
  }

  method FirstMaximum(p: seq<real>, base: nat, c: nat) returns (best: nat)
    requires c > 0 && base + c <= |p|
    ensures best == ArgMax(p[base..base + c])
  {
    ghost var row := p[base..base + c];
    best := 0;
    var largest := p[base];
    for i := 1 to c
      invariant best < i && best == ArgMax(row[..i]) && largest == row[best]
    {
      assert row[..i + 1][..i] == row[..i];
      if p[base + i] > largest {
        best := i;
        largest := p[base + i];
      }
    }
    assert row[..c] == row;
  }

  /** Decoding one sequence into its row, which is filled with -1 before. */
  method DecodeRow(p: seq<real>, ind: seq<real>, out: array<int>, s: Shape, n: nat, row: nat)
    requires n < s.n && Sized(p, ind, s)
    requires row + s.t <= out.Length && forall k :: row <= k < row + s.t ==> out[k] == -1
    modifies out
    ensures Holds(out[..], row, s.t, Decoded(p, ind, s, n))
    ensures forall k :: 0 <= k < out.Length && !(row <= k < row + s.t) ==> out[k] == old(out[k])
  {
    hide *;
    Sizes(p, ind, s);
    PathStart(p, s, n);
    var blank := s.c - 1;
    var prev := -1;
    var next := row;
    var t := 0;
    ghost var path, labels := BestPath(p, s, n, 0), Collapse(BestPath(p, s, n, 0), blank);
    while true
      invariant t < s.t && path == BestPath(p, s, n, t) && prev == if t == 0 then -1 else path[t - 1]
      invariant labels == Collapse(path, blank) && next == row + |labels|
      invariant SequenceEnd(ind, s, n, 0) == SequenceEnd(ind, s, n, t)
      invariant forall k :: row <= k < row + s.t ==> out[k] == if k < next then labels[k - row] else -1
      invariant forall k :: 0 <= k < out.Length && !(row <= k < row + s.t) ==> out[k] == old(out[k])
      decreases s.t - t
    {
      var best := FirstMaximum(p, Offset(s, t, n), s.c);
      PathStep(p, s, n, t);
      ScoresAre(p, s, t, n);
      EndStep(ind, s, n, t);
      if best < blank && best != prev {
        out[next] := best;
        next := next + 1;
        labels := labels + [best];
      }
      path := BestPath(p, s, n, t + 1);
      prev := best;
      assert labels == Collapse(path, blank) && |labels| <= t + 1;
      if t + 1 == s.t || ind[Flag(s, t + 1, n)] == 0.0 { break; }
      t := t + 1;
    }
    DecodedIs(p, ind, s, n);
    LabelsHeld(out[..], row, s.t, labels);
  }

  lemma Sizes(p: seq<real>, ind: seq<real>, s: Shape)
    requires Sized(p, ind, s)
    ensures s.t > 0 && s.c > 0 && |p| == s.t * s.c * s.n && |ind| == s.t * s.n
  {
  }

  lemma PathStart(p: seq<real>, s: Shape, n: nat)
    requires n < s.n && s.c > 0 && |p| == s.t * s.c * s.n
    ensures BestPath(p, s, n, 0) == [] && Collapse([], s.c - 1) == []
  {
  }

  lemma ScoresAre(p: seq<real>, s: Shape, t: nat, n: nat)
    requires t < s.t && n < s.n && |p| == s.t * s.c * s.n
    ensures Scores(p, s, t, n) == p[Offset(s, t, n)..Offset(s, t, n) + s.c]
  {
  }

  lemma DecodedIs(p: seq<real>, ind: seq<real>, s: Shape, n: nat)
    requires n < s.n && Sized(p, ind, s)
    requires s.t > 0 && s.c > 0 && |p| == s.t * s.c * s.n && |ind| == s.t * s.n
    ensures Decoded(p, ind, s, n) == Collapse(BestPath(p, s, n, SequenceEnd(ind, s, n, 0)), s.c - 1)
  {
    hide Sized, BestPath, Collapse, SequenceEnd;
  }

  lemma EndStep(ind: seq<real>, s: Shape, n: nat, t: nat)
    requires t < s.t && n < s.n && |ind| == s.t * s.n
    ensures SequenceEnd(ind, s, n, t)
            == if t + 1 == s.t || ind[Flag(s, t + 1, n)] == 0.0 then t + 1 else SequenceEnd(ind, s, n, t + 1)
  {
  }

  lemma LabelsHeld(out: seq<int>, row: nat, width: nat, labels: seq<nat>)
    requires row + width <= |out| && |labels| <= width
    requires forall k :: row <= k < row + width ==> out[k] == if k < row + |labels| then labels[k - row] else -1
    ensures Holds(out, row, width, labels)
  {
  }

  /** Where row n of the output starts. */
  function RowStart(s: Shape, n: nat): (o: nat)
    ensures n < s.n ==> o + s.t <= s.n * s.t
  {
    MulMono(0, n, s.t);
    if n < s.n then
      MulMono(n + 1, s.n, s.t);
      MulDist(n, 1, s.t);
      n * s.t
    else n * s.t
  }

  lemma RowsApart(s: Shape, m: nat, n: nat)
    requires m < n
    ensures RowStart(s, m) + s.t <= RowStart(s, n)
  {
    MulMono(m + 1, n, s.t);
    MulDist(m, 1, s.t);
  }

  /** The whole decoder. */
  method Execute(p: seq<real>, ind: seq<real>, out: array<int>, s: Shape)
    requires Sized(p, ind, s) && out.Length == s.n * s.t
    modifies out
    ensures forall n: nat :: n < s.n ==> Holds(out[..], RowStart(s, n), s.t, Decoded(p, ind, s, n))
  {
    hide Decoded, RowStart;
    for i := 0 to out.Length
      invariant forall k :: 0 <= k < i ==> out[k] == -1
    {
      out[i] := -1;
    }
    for n := 0 to s.n
      invariant forall m: nat :: m < n ==> Holds(out[..], RowStart(s, m), s.t, Decoded(p, ind, s, m))
      invariant forall k :: RowStart(s, n) <= k < out.Length ==> out[k] == -1
    {
      ghost var was := out[..];
      DecodeRow(p, ind, out, s, n, RowStart(s, n));
      forall m: nat | m < n ensures Holds(out[..], RowStart(s, m), s.t, Decoded(p, ind, s, m)) {
        RowsApart(s, m, n);
        assert Holds(was, RowStart(s, m), s.t, Decoded(p, ind, s, m));
      }
      RowsApart(s, n, n + 1);
    }
  }
}
