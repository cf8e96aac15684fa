/** Boxes with whole-number corners as sets of unit cells: what an overlap ratio is, counted out. */
module UnitCells {
  import opened Nonlinear

  /** The unit cells from one corner up to the other. */
  ghost function Cells(x0: int, y0: int, x1: int, y1: int): set<(int, int)> {
    set x: int, y: int | x0 <= x < x1 && y0 <= y < y1 :: (x, y)
  }

  lemma {:induction false} ColumnCount(x: int, y0: int, y1: int)
    requires y0 <= y1
    ensures |Cells(x, y0, x + 1, y1)| == y1 - y0
    decreases y1 - y0
  {
    if y0 == y1 {
      assert Cells(x, y0, x + 1, y1) == {};
    } else {
      ColumnCount(x, y0, y1 - 1);
      assert Cells(x, y0, x + 1, y1) == Cells(x, y0, x + 1, y1 - 1) + {(x, y1 - 1)};
    }
  }

  /** A box has as many cells as width times height. */
  lemma {:induction false} CellCount(x0: int, y0: int, x1: int, y1: int)
    requires x0 <= x1 && y0 <= y1
    ensures |Cells(x0, y0, x1, y1)| == (x1 - x0) * (y1 - y0)
    decreases x1 - x0
  {
    if x0 == x1 {
      assert Cells(x0, y0, x1, y1) == {};
    } else {
      var front, column := Cells(x0, y0, x1 - 1, y1), Cells(x1 - 1, y0, x1, y1);
      CellCount(x0, y0, x1 - 1, y1);
      ColumnCount(x1 - 1, y0, y1);
      assert Cells(x0, y0, x1, y1) == front + column && front !! column;
      MulDist(x1 - 1 - x0, 1, y1 - y0);
    }
  }

  function Larger(a: int, b: int): int { if a < b then b else a }
  function Smaller(a: int, b: int): int { if b < a then b else a }

  datatype Corners = Corners(x0: int, y0: int, x1: int, y1: int)

  ghost function Of(a: Corners): set<(int, int)> {
    Cells(a.x0, a.y0, a.x1, a.y1)
  }

  function Width(a: Corners, b: Corners): int { Smaller(a.x1, b.x1) - Larger(a.x0, b.x0) }
  function Height(a: Corners, b: Corners): int { Smaller(a.y1, b.y1) - Larger(a.y0, b.y0) }
  function Extent(a: Corners): int { (a.x1 - a.x0) * (a.y1 - a.y0) }

  predicate Upright(a: Corners) { a.x0 <= a.x1 && a.y0 <= a.y1 }

  function Shared(a: Corners, b: Corners): Corners {
    Corners(Larger(a.x0, b.x0), Larger(a.y0, b.y0), Smaller(a.x1, b.x1), Smaller(a.y1, b.y1))
  }

  lemma SharedBox(a: Corners, b: Corners)
    ensures Of(a) * Of(b) == Of(Shared(a, b))
  {
  }

  lemma CountOf(a: Corners)
    requires Upright(a)
    ensures |Of(a)| == Extent(a)
  {
    CellCount(a.x0, a.y0, a.x1, a.y1);
  }

  lemma NoCells(a: Corners)
    requires a.x1 <= a.x0 || a.y1 <= a.y0
    ensures Of(a) == {}
  {
  }

  /** The cells that two boxes share are a box again, and the cells of either are counted once. */
  lemma SharedCells(a: Corners, b: Corners)
    requires Upright(a) && Upright(b)
    ensures |Of(a) * Of(b)| == if Width(a, b) <= 0 || Height(a, b) <= 0 then 0 else Width(a, b) * Height(a, b)
    ensures |Of(a) + Of(b)| == Extent(a) + Extent(b) - |Of(a) * Of(b)|
  {
    hide Of, Extent, Larger, Smaller;
    SharedBox(a, b);
    CountOf(a);
    CountOf(b);
    if Width(a, b) <= 0 || Height(a, b) <= 0 {
      NoCells(Shared(a, b));
    } else {
      CountOf(Shared(a, b));
      ExtentShared(a, b);
    }
  }

  lemma ExtentShared(a: Corners, b: Corners)
    ensures Extent(Shared(a, b)) == Width(a, b) * Height(a, b)
  {
  }

  /** The shared cells are more than the threshold's part of all cells of the two boxes. */
  ghost predicate Overlapping(a: set<(int, int)>, b: set<(int, int)>, threshold: real) {
    |a * b| as real > threshold * |a + b| as real
  }

  /** No shared cell means no overlap for a threshold that is not negative; otherwise it is the ratio that decides. */
  lemma OverlapByCount(a: Corners, b: Corners, threshold: real)
    requires Upright(a) && Upright(b) && threshold >= 0.0
    ensures Width(a, b) <= 0 || Height(a, b) <= 0 ==> !Overlapping(Of(a), Of(b), threshold)
    ensures Width(a, b) > 0 && Height(a, b) > 0 ==>
              var inter := Width(a, b) * Height(a, b);
              var all := Extent(a) + Extent(b) - inter;
              && all > 0
              && (Overlapping(Of(a), Of(b), threshold) <==> threshold < inter as real / all as real)
  {
    hide Of, Extent, Width, Height;
    SharedCells(a, b);
    var n, m := |Of(a) * Of(b)|, |Of(a) + Of(b)|;
    if Width(a, b) > 0 && Height(a, b) > 0 {
      MulMono(1, Width(a, b), Height(a, b));
      SubsetCount(Of(a) * Of(b), Of(a) + Of(b));
      RatioAbove(threshold, n as real, m as real);
    } else {
      NotNegative(threshold, m as real);
    }
  }

  lemma NotNegative(x: real, y: real)
    requires x >= 0.0 && y >= 0.0
    ensures x * y >= 0.0
  {
  }

  lemma {:induction false} SubsetCount(a: set<(int, int)>, b: set<(int, int)>)
    requires a <= b
    ensures |a| <= |b|
  {
    assert b == a + (b - a);
  }

  lemma RatioAbove(t: real, n: real, d: real)
    requires d > 0.0
    ensures n > t * d <==> t < n / d
  {
    var q := n / d;
    assert q * d == n;
    if t < q {
      assert (q - t) * d > 0.0;
      assert (q - t) * d == q * d - t * d;
    } else {
      NotNegative(t - q, d);
      assert (t - q) * d == t * d - q * d;
    }
  }
}
