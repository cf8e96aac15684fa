/** The lazy non-maximum suppression of the SimplerNMS layer: each box is tested against the boxes kept so far,
    and the pass stops as soon as enough are kept. */
module SimplerNms {
  import opened Greedy
  import opened Ranking
  import opened UnitCells
  import P = Proposal

  type Roi = P.Box

  datatype Ranked = Ranked(roi: Roi, confidence: real, ord: nat)

  function Area(a: Roi): real {
    P.Max(0.0, a.y1 - a.y0 + 1.0) * P.Max(0.0, a.x1 - a.x0 + 1.0)
  }

  function Intersect(a: Roi, b: Roi): Roi {
    P.Box(P.Max(a.x0, b.x0), P.Max(a.y0, b.y0), P.Min(a.x1, b.x1), P.Min(a.y1, b.y1))
  }

  /** The overlap test: kept suppresses bbox. */
  predicate Exceeds(interArea: real, threshold: real, unionArea: real) {
    interArea > threshold * unionArea
  }

  predicate Overlaps(kept: Roi, bbox: Roi, threshold: real) {
    Exceeds(Area(Intersect(bbox, kept)), threshold, Area(kept) + Area(bbox) - Area(Intersect(bbox, kept)))
  }

  function Test(ps: seq<Ranked>, threshold: real): Relation {
    (p: nat, i: nat) => p < |ps| && i < |ps| && Overlaps(ps[p].roi, ps[i].roi, threshold)
  }

  function Positive(ps: seq<Ranked>): Filter {
    (i: nat) => i < |ps| && ps[i].confidence > 0.0
  }

  /** The ranks that a pass over the first n proposals keeps. */
  function Lazy(ps: seq<Ranked>, threshold: real, n: nat): seq<nat> {
    Kept(Positive(ps), Test(ps, threshold), n)
  }

  function Rois(ps: seq<Ranked>, ranks: seq<nat>): (r: seq<Roi>)
    requires forall k :: 0 <= k < |ranks| ==> ranks[k] < |ps|
    ensures |r| == |ranks|
    ensures forall k :: 0 <= k < |ranks| ==> r[k] == ps[ranks[k]].roi
  {
    seq(|ranks|, k requires 0 <= k < |ranks| => ps[ranks[k]].roi)
  }

  method AnyOverlap(res: seq<Roi>, bbox: Roi, threshold: real) returns (found: bool)
    ensures found <==> exists k :: 0 <= k < |res| && Overlaps(res[k], bbox, threshold)
  {
    hide Area, Intersect, Exceeds;
    for k := 0 to |res|
      invariant forall j :: 0 <= j < k ==> !Overlaps(res[j], bbox, threshold)
    {
      var area := Area(bbox);
      var interArea := Area(Intersect(bbox, res[k]));
      var unionArea := Area(res[k]) + area - interArea;
      if Exceeds(interArea, threshold, unionArea) {
        return true;
      }
    }
    return false;
  }

  lemma RanksInside(ps: seq<Ranked>, threshold: real, n: nat, max: int)
    requires n <= |ps|
    ensures forall k :: 0 <= k < |FirstOf(max, Lazy(ps, threshold, n))|
              ==> FirstOf(max, Lazy(ps, threshold, n))[k] < |ps|
    ensures forall k :: 0 <= k < |Lazy(ps, threshold, n)| ==> Lazy(ps, threshold, n)[k] < n
  {
  }

  /** The boxes of the first topN positively scored proposals that no kept one overlaps. A bound of zero is no
      bound, as the size is only compared after a box has been added. */
  method PerformNms(ps: seq<Ranked>, threshold: real, topN: nat) returns (res: seq<Roi>)
    ensures (forall k :: 0 <= k < |FirstOf(topN, Lazy(ps, threshold, |ps|))|
               ==> FirstOf(topN, Lazy(ps, threshold, |ps|))[k] < |ps|)
            && res == Rois(ps, FirstOf(topN, Lazy(ps, threshold, |ps|)))
  {
    hide Overlaps, Rois, Kept;
    RanksInside(ps, threshold, |ps|, topN);
    ghost var ranks: seq<nat> := [];
    res := [];
    Nothing(ps, threshold);
    for i := 0 to |ps|
      invariant ranks == Lazy(ps, threshold, i) && (topN > 0 ==> |ranks| < topN)
      invariant (forall k :: 0 <= k < |ranks| ==> ranks[k] < i) && res == Rois(ps, ranks)
    {
      Step(ps, threshold, i);
      if ps[i].confidence > 0.0 {
        var overlaps := AnyOverlap(res, ps[i].roi, threshold);
        Tested(ps, threshold, ranks, i);
        if !overlaps {
          res := res + [ps[i].roi];
          Snoc(ps, ranks, i);
          ranks := ranks + [i];
          if |res| == topN {
            StopEarly(Positive(ps), Test(ps, threshold), i + 1, |ps|, topN);
            return;
          }
        }
      }
    }
  }

  lemma Nothing(ps: seq<Ranked>, threshold: real)
    ensures Lazy(ps, threshold, 0) == [] && Rois(ps, []) == []
  {
  }

  lemma Step(ps: seq<Ranked>, threshold: real, i: nat)
    requires i < |ps|
    ensures var s := Lazy(ps, threshold, i);
            Lazy(ps, threshold, i + 1)
            == if ps[i].confidence > 0.0 && !Suppressed(Test(ps, threshold), s, i) then s + [i] else s
  {
  }

  lemma Snoc(ps: seq<Ranked>, ranks: seq<nat>, i: nat)
    requires i < |ps| && forall k :: 0 <= k < |ranks| ==> ranks[k] < |ps|
    ensures Rois(ps, ranks + [i]) == Rois(ps, ranks) + [ps[i].roi]
  {
  }

  lemma Tested(ps: seq<Ranked>, threshold: real, ranks: seq<nat>, i: nat)
    requires i < |ps| && forall k :: 0 <= k < |ranks| ==> ranks[k] < |ps|
    ensures (exists k :: 0 <= k < |ranks| && Overlaps(Rois(ps, ranks)[k], ps[i].roi, threshold))
       <==> Suppressed(Test(ps, threshold), ranks, i)
  {
    if Suppressed(Test(ps, threshold), ranks, i) {
      var k :| 0 <= k < |ranks| && Test(ps, threshold)(ranks[k], i);
      assert Overlaps(Rois(ps, ranks)[k], ps[i].roi, threshold);
    }
    if exists k :: 0 <= k < |ranks| && Overlaps(Rois(ps, ranks)[k], ps[i].roi, threshold) {
      var k :| 0 <= k < |ranks| && Overlaps(Rois(ps, ranks)[k], ps[i].roi, threshold);
      assert Test(ps, threshold)(ranks[k], i);
    }
  }

  // ---- the eager and the lazy layer compared ----

  /** A box whose corners are in order. */
  predicate Proper(a: Roi) {
    a.x0 <= a.x1 && a.y0 <= a.y1
  }

  lemma RectangleInside(w: real, h: real, W: real, H: real)
    requires 0.0 <= w <= W && 0.0 <= h <= H && 1.0 <= W && 1.0 <= H
    ensures 0.0 <= w * h <= W * H && W * H >= 1.0
  {
    assert w * h <= W * h;
    assert W * h <= W * H;
    assert W * H >= 1.0 * H;
  }

  lemma Commute(x: real, y: real)
    ensures x * y == y * x
  {
  }

  /** Both layers test the ratio of the overlap to the union, which for proper boxes is at least one. */
  lemma UnionPositive(a: Roi, b: Roi)
    requires Proper(a) && Proper(b)
    ensures P.Overlap(a, b) == Area(Intersect(b, a)) && Area(Intersect(b, a)) >= 0.0
    ensures P.Area(a) == Area(a) && Area(a) >= P.Overlap(a, b)
    ensures P.Area(b) == Area(b) && Area(b) >= 1.0
  {
    hide *;
    OverlapAsIntersection(a, b);
    ProperArea(a);
    ProperArea(b);
    ProperSides(a, b);
    var c := Intersect(b, a);
    RectangleInside(P.Max(0.0, c.x1 - c.x0 + 1.0), P.Max(0.0, c.y1 - c.y0 + 1.0), a.x1 - a.x0 + 1.0, a.y1 - a.y0 + 1.0);
  }

  lemma ProperSides(a: Roi, b: Roi)
    requires Proper(a)
    ensures var c := Intersect(b, a);
            && 0.0 <= P.Max(0.0, c.x1 - c.x0 + 1.0) <= a.x1 - a.x0 + 1.0
            && 0.0 <= P.Max(0.0, c.y1 - c.y0 + 1.0) <= a.y1 - a.y0 + 1.0
    ensures 1.0 <= a.x1 - a.x0 + 1.0 && 1.0 <= a.y1 - a.y0 + 1.0
  {
  }

  lemma OverlapAsIntersection(a: Roi, b: Roi)
    ensures P.Overlap(a, b) == Area(Intersect(b, a))
    ensures var c := Intersect(b, a);
            Area(c) == P.Max(0.0, c.x1 - c.x0 + 1.0) * P.Max(0.0, c.y1 - c.y0 + 1.0)
  {
    var c := Intersect(b, a);
    Commute(P.Max(0.0, c.x1 - c.x0 + 1.0), P.Max(0.0, c.y1 - c.y0 + 1.0));
    assert P.Max(a.x0, b.x0) == c.x0 && P.Min(a.x1, b.x1) == c.x1;
    assert P.Max(a.y0, b.y0) == c.y0 && P.Min(a.y1, b.y1) == c.y1;
  }

  lemma ProperArea(a: Roi)
    requires Proper(a)
    ensures P.Area(a) == Area(a) && Area(a) == (a.x1 - a.x0 + 1.0) * (a.y1 - a.y0 + 1.0)
    ensures Area(a) >= 1.0
  {
    var w, h := a.x1 - a.x0 + 1.0, a.y1 - a.y0 + 1.0;
    Commute(w, h);
    RectangleInside(0.0, 0.0, w, h);
    assert Area(a) == h * w;
  }

  lemma RatioTest(thresh: real, num: real, den: real)
    requires den > 0.0
    ensures P.QuotientAbove(thresh, num, den) <==> num > thresh * den
  {
    var q := num / den;
    assert q * den == num;
    if thresh < q {
      assert (q - thresh) * den > 0.0;
    } else {
      assert (thresh - q) * den >= 0.0;
    }
  }

  /** On proper boxes and a threshold that is not negative, the lazy test suppresses whatever the eager test does,
      and the two differ exactly on boxes that do not meet but whose one-pixel-wide rims overlap enough. */
  lemma TestsCompared(a: Roi, b: Roi, thresh: real)
    requires Proper(a) && Proper(b) && thresh >= 0.0
    ensures P.ScalarDead(a, b, thresh) <==> Overlaps(a, b, thresh) && P.Touch(a, b)
  {
    hide P.Overlap, P.Area, Area, P.QuotientAbove;
    UnionPositive(a, b);
    var inter := P.Overlap(a, b);
    RatioTest(thresh, inter, P.Area(a) + P.Area(b) - inter);
  }

  /** For boxes of whole pixels the lazy test asks the same: whether the shared pixels are more than the threshold's
      part of all pixels. */
  lemma OverlapsByCount(a: Roi, b: Roi, c: Corners, d: Corners, thresh: real)
    requires P.Framing(a, c) && P.Framing(b, d) && thresh >= 0.0
    ensures Overlaps(a, b, thresh) <==> Overlapping(Of(c), Of(d), thresh)
  {
    hide Of, Overlapping, P.Overlap, P.Area, Area, P.Touch, Width, Height, Extent, P.QuotientAbove;
    P.OverlapIsCount(a, b, c, d);
    P.OverlapIsCount(b, a, d, c);
    OverlapByCount(c, d, thresh);
    UnionPositive(a, b);
    var inter := P.Overlap(a, b);
    var all := P.Area(a) + P.Area(b) - inter;
    if Width(c, d) > 0 && Height(c, d) > 0 {
      RatioTest(thresh, inter, all);
      Above(thresh, inter, all);
    } else {
      NotNegative(thresh, all);
    }
  }

  lemma Above(thresh: real, num: real, den: real)
    requires den > 0.0
    ensures P.QuotientAbove(thresh, num, den) <==> thresh < num / den
  {
  }

  lemma AreaOf(a: Roi, w: real, h: real)
    requires a.x1 - a.x0 + 1.0 == w && a.y1 - a.y0 + 1.0 == h && w >= 0.0 && h >= 0.0
    ensures Area(a) == h * w
  {
  }

  /** Such boxes exist: half a pixel apart. */
  lemma TestsDiffer()
    ensures var a, b := P.Box(0.0, 0.0, 1.0, 1.0), P.Box(1.5, 0.0, 2.5, 1.0);
            Overlaps(a, b, 0.1) && !P.ScalarDead(a, b, 0.1)
  {
    hide Area;
    var a, b := P.Box(0.0, 0.0, 1.0, 1.0), P.Box(1.5, 0.0, 2.5, 1.0);
    assert Intersect(b, a) == P.Box(1.5, 0.0, 1.0, 1.0);
    AreaOf(a, 2.0, 2.0);
    AreaOf(b, 2.0, 2.0);
    AreaOf(Intersect(b, a), 0.5, 2.0);
  }

  /** The eager layer and the lazy layer, given the same ranked boxes, keep the same ranks when no two boxes are
      that close without meeting. */
  lemma LayersAgree(planes: seq<real>, ps: seq<Ranked>, thresh: real)
    requires |planes| >= 4 * |ps| && thresh >= 0.0
    requires forall i :: 0 <= i < |ps| ==>
               && ps[i].roi == P.BoxAt(planes, |ps|, i) && Proper(ps[i].roi) && ps[i].confidence > 0.0
    requires forall p, i :: 0 <= p < i < |ps| && Overlaps(ps[p].roi, ps[i].roi, thresh)
               ==> P.Touch(ps[p].roi, ps[i].roi)
    ensures P.Lazy(planes, |ps|, thresh, false, |ps|) == Lazy(ps, thresh, |ps|)
  {
    forall p: nat, i: nat | p < i < |ps|
      ensures P.Marking(planes, |ps|, thresh, false)(p, i) == Test(ps, thresh)(p, i)
    {
      TestsCompared(ps[p].roi, ps[i].roi, thresh);
    }
    KeptCongruence(P.Everything(), P.Marking(planes, |ps|, thresh, false), Positive(ps), Test(ps, thresh), |ps|);
  }

  /** The eager and the lazy layer are given the same ranked boxes, all from one collection and with positive scores. */
  ghost predicate SameRanks(planes: seq<real>, ps: seq<Ranked>, boxes: set<Roi>) {
    && |planes| >= 4 * |ps|
    && forall i :: 0 <= i < |ps| ==>
          && ps[i].roi == P.BoxAt(planes, |ps|, i) && ps[i].roi in boxes && ps[i].confidence > 0.0
  }

  /** No box of the collection reaches another with its rim only. */
  ghost predicate NoRims(boxes: set<Roi>, thresh: real) {
    forall a, b :: a in boxes && b in boxes && Overlaps(a, b, thresh) ==> P.Touch(a, b)
  }

  /** The two boxes, ranked a before b, are kept by the eager layer, and by the lazy one unless a reaches b. */
  lemma PairKept(a: Roi, b: Roi, thresh: real)
    requires thresh >= 0.0 && Proper(a) && Proper(b) && Overlaps(a, b, thresh) && !P.Touch(a, b)
    ensures var ps := [Ranked(a, 1.0, 0), Ranked(b, 1.0, 1)];
            var planes := [a.x0, b.x0, a.y0, b.y0, a.x1, b.x1, a.y1, b.y1];
            P.Lazy(planes, 2, thresh, false, 2) != Lazy(ps, thresh, 2)
  {
    var ps := [Ranked(a, 1.0, 0), Ranked(b, 1.0, 1)];
    var planes := [a.x0, b.x0, a.y0, b.y0, a.x1, b.x1, a.y1, b.y1];
    TestsCompared(a, b, thresh);
    assert P.BoxAt(planes, 2, 0) == a && P.BoxAt(planes, 2, 1) == b;
    P.SecondRank(planes, 2, thresh, false);
    var s := Lazy(ps, thresh, 2);
    KeptSolves(Positive(ps), Test(ps, thresh), 2);
    hide Overlaps, P.ScalarDead, P.Touch;
    assert !SuppressedBelow(Test(ps, thresh), s, 0);
    var k :| 0 <= k < |s| && s[k] == 0;
    assert Test(ps, thresh)(s[k], 1);
    assert 1 !in s;
  }

  /** Below zero every pair of proper boxes is suppressed by both tests. */
  lemma NegativeThreshold(a: Roi, b: Roi, thresh: real)
    requires Proper(a) && Proper(b) && thresh < 0.0
    ensures Overlaps(a, b, thresh) && P.ScalarDead(a, b, thresh)
  {
    hide P.Overlap, P.Area, Area, P.QuotientAbove;
    UnionPositive(a, b);
    var inter := P.Overlap(a, b);
    var union := P.Area(a) + P.Area(b) - inter;
    BelowZero(thresh, union);
    RatioTest(thresh, inter, union);
  }

  lemma BelowZero(x: real, y: real)
    requires x < 0.0 && y > 0.0
    ensures x * y < 0.0
  {
  }

  /** So there the layers keep the same ranks, whatever the boxes. */
  lemma LayersAgreeBelowZero(planes: seq<real>, ps: seq<Ranked>, boxes: set<Roi>, thresh: real)
    requires thresh < 0.0 && SameRanks(planes, ps, boxes) && forall a :: a in boxes ==> Proper(a)
    ensures P.Lazy(planes, |ps|, thresh, false, |ps|) == Lazy(ps, thresh, |ps|)
  {
    hide Overlaps, P.ScalarDead, Proper;
    forall p: nat, i: nat | p < i < |ps|
      ensures P.Marking(planes, |ps|, thresh, false)(p, i) == Test(ps, thresh)(p, i)
    {
      NegativeThreshold(ps[p].roi, ps[i].roi, thresh);
    }
    KeptCongruence(P.Everything(), P.Marking(planes, |ps|, thresh, false), Positive(ps), Test(ps, thresh), |ps|);
  }

  /** The layers keep the same ranks of every list drawn from a collection of proper boxes if and only if the threshold
      is negative or no box of the collection reaches another with its rim only. */
  lemma LayersAgreeIff(boxes: set<Roi>, thresh: real)
    requires forall a :: a in boxes ==> Proper(a)
    ensures (forall planes, ps :: SameRanks(planes, ps, boxes) ==>
               P.Lazy(planes, |ps|, thresh, false, |ps|) == Lazy(ps, thresh, |ps|))
       <==> thresh < 0.0 || NoRims(boxes, thresh)
  {
    hide Overlaps, P.Touch, Lazy, P.Lazy, Proper;
    if thresh < 0.0 {
      forall planes, ps | SameRanks(planes, ps, boxes)
        ensures P.Lazy(planes, |ps|, thresh, false, |ps|) == Lazy(ps, thresh, |ps|)
      {
        LayersAgreeBelowZero(planes, ps, boxes, thresh);
      }
    } else if NoRims(boxes, thresh) {
      forall planes, ps | SameRanks(planes, ps, boxes)
        ensures P.Lazy(planes, |ps|, thresh, false, |ps|) == Lazy(ps, thresh, |ps|)
      {
        LayersAgree(planes, ps, thresh);
      }
    } else {
      var a, b :| a in boxes && b in boxes && Overlaps(a, b, thresh) && !P.Touch(a, b);
      PairKept(a, b, thresh);
      var ps := [Ranked(a, 1.0, 0), Ranked(b, 1.0, 1)];
      var planes := [a.x0, b.x0, a.y0, b.y0, a.x1, b.x1, a.y1, b.y1];
      assert SameRanks(planes, ps, boxes);
    }
  }

  // ---- the sort before the pass ----

  /** Higher confidence first, and the later proposal first among equals. */
  function ByOrd(): (Ranked, Ranked) -> bool {
    (a: Ranked, b: Ranked) => a.confidence > b.confidence || (a.confidence == b.confidence && a.ord > b.ord)
  }

  /** In numbers: top holds n of the proposals and rest the others; confidences do not increase along top, ordinals
      decrease among equals, and nothing in rest has a higher confidence than anything in top, nor the same and a
      higher ordinal. */
  ghost predicate Best(ps: seq<Ranked>, n: nat, top: seq<Ranked>, rest: seq<Ranked>) {
    && |top| == n && multiset(top + rest) == multiset(ps)
    && (forall a, b :: 0 <= a < b < |top| ==>
          top[b].confidence < top[a].confidence
          || (top[b].confidence == top[a].confidence && top[b].ord <= top[a].ord))
    && (forall a, b :: 0 <= a < |top| && 0 <= b < |rest| ==>
          rest[b].confidence < top[a].confidence
          || (rest[b].confidence == top[a].confidence && rest[b].ord <= top[a].ord))
  }

  lemma ForemostBest(ps: seq<Ranked>, n: nat, top: seq<Ranked>) returns (rest: seq<Ranked>)
    requires Foremost(ByOrd(), top, ps, n)
    ensures Best(ps, n, top, rest)
  {
    rest :| multiset(top + rest) == multiset(ps) && NoneBefore(ByOrd(), rest, top);
    forall a, b | 0 <= a < b < |top|
      ensures !ByOrd()(top[b], top[a])
    {
    }
    forall a, b | 0 <= a < |top| && 0 <= b < |rest|
      ensures !ByOrd()(rest[b], top[a])
    {
    }
  }

  ghost predicate DistinctOrds(ps: seq<Ranked>) {
    forall a, b :: 0 <= a < |ps| && 0 <= b < |ps| && ps[a].ord == ps[b].ord ==> ps[a] == ps[b]
  }

  /** The proposals that are passed on: at most topN, ranked. */
  function Top(ps: seq<Ranked>, topN: nat): seq<Ranked> {
    var all := Sort(ByOrd(), ps);
    if |all| > topN then all[..topN] else all
  }

  /** std::partial_sort and std::sort, whichever is called. */
  method SortAndKeepAtMostTopN(ps: seq<Ranked>, topN: nat) returns (top: seq<Ranked>, ghost rest: seq<Ranked>)
    ensures Foremost(ByOrd(), top, ps, if |ps| > topN then topN else |ps|)
    ensures Best(ps, if |ps| > topN then topN else |ps|, top, rest)
  {
    hide Foremost, Sort, Best;
    var n := if |ps| > topN then topN else |ps|;
    SortForemost(ByOrd(), ps, n);
    top := Sort(ByOrd(), ps)[..n];
    rest := ForemostBest(ps, n, top);
  }

  /** With distinct ordinals the comparator tells any two proposals apart, so the sort has one result. */
  lemma TopUnique(ps: seq<Ranked>, topN: nat, top: seq<Ranked>)
    requires DistinctOrds(ps) && Foremost(ByOrd(), top, ps, if |ps| > topN then topN else |ps|)
    ensures top == Top(ps, topN)
  {
    assert StrictWeak(ByOrd()) && TotalOn(ByOrd(), ps);
    hide Foremost, StrictWeak, Sort, TotalOn;
    var n := if |ps| > topN then topN else |ps|;
    ForemostUnique(ByOrd(), top, ps, n);
    SortLength(ps);
  }

  lemma SortLength(ps: seq<Ranked>)
    ensures |Sort(ByOrd(), ps)| == |ps|
  {
    SortSorts(ByOrd(), ps);
    SameLength(Sort(ByOrd(), ps), ps);
  }

  lemma TopBest(ps: seq<Ranked>, topN: nat) returns (rest: seq<Ranked>)
    ensures Best(ps, if |ps| > topN then topN else |ps|, Top(ps, topN), rest)
  {
    assert StrictWeak(ByOrd());
    hide Foremost, Sort, Best, StrictWeak;
    var n := if |ps| > topN then topN else |ps|;
    SortForemost(ByOrd(), ps, n);
    SortLength(ps);
    assert Top(ps, topN) == Sort(ByOrd(), ps)[..n];
    rest := ForemostBest(ps, n, Top(ps, topN));
  }

  /** The proposals behind the boxes returned: each among the foremost, none scored zero or less, and no score higher
      than the one before it. */
  ghost predicate Behind(ps: seq<Ranked>, res: seq<Roi>, from: seq<Ranked>) {
    && |from| == |res|
    && (forall k :: 0 <= k < |res| ==> from[k].roi == res[k] && from[k] in ps && from[k].confidence > 0.0)
    && (forall a, b :: 0 <= a < b < |res| ==> from[b].confidence <= from[a].confidence)
  }

  /** The ranks picked go up, and name positive scores. */
  lemma PickedRanks(top: seq<Ranked>, threshold: real, topN: nat)
    ensures var ranks := FirstOf(topN, Lazy(top, threshold, |top|));
            && (forall k :: 0 <= k < |ranks| ==> ranks[k] < |top| && top[ranks[k]].confidence > 0.0)
            && (forall a, b :: 0 <= a < b < |ranks| ==> ranks[a] < ranks[b])
  {
    var all := Lazy(top, threshold, |top|);
    var ranks := FirstOf(topN, all);
    KeptSolves(Positive(top), Test(top, threshold), |top|);
    forall k | 0 <= k < |ranks|
      ensures ranks[k] < |top| && top[ranks[k]].confidence > 0.0
    {
      assert all[k] == ranks[k] && all[k] in all;
    }
  }

  lemma FrontIn(ps: seq<Ranked>, top: seq<Ranked>, rest: seq<Ranked>, k: nat)
    requires multiset(top + rest) == multiset(ps) && k < |top|
    ensures top[k] in ps
  {
    assert (top + rest)[k] in multiset(ps);
  }

  lemma PicksBehind(ps: seq<Ranked>, preN: nat, threshold: real, topN: nat) returns (from: seq<Ranked>)
    ensures var top := Top(ps, preN);
            var ranks := FirstOf(topN, Lazy(top, threshold, |top|));
            && (forall k :: 0 <= k < |ranks| ==> ranks[k] < |top|)
            && Behind(ps, Rois(top, ranks), from)
  {
    hide Top, Lazy, FirstOf;
    var top := Top(ps, preN);
    var ranks := FirstOf(topN, Lazy(top, threshold, |top|));
    var rest := TopBest(ps, preN);
    PickedRanks(top, threshold, topN);
    from := seq(|ranks|, k requires 0 <= k < |ranks| => top[ranks[k]]);
    forall k | 0 <= k < |ranks|
      ensures from[k] in ps
    {
      FrontIn(ps, top, rest, ranks[k]);
    }
  }

  /** The layer: the sort, then the pass. With distinct ordinals its result is determined by the proposals. */
  method SortedNms(ps: seq<Ranked>, preN: nat, threshold: real, topN: nat)
    returns (res: seq<Roi>, ghost from: seq<Ranked>)
    requires DistinctOrds(ps)
    ensures forall k :: 0 <= k < |FirstOf(topN, Lazy(Top(ps, preN), threshold, |Top(ps, preN)|))| ==>
              FirstOf(topN, Lazy(Top(ps, preN), threshold, |Top(ps, preN)|))[k] < |Top(ps, preN)|
    ensures res == Rois(Top(ps, preN), FirstOf(topN, Lazy(Top(ps, preN), threshold, |Top(ps, preN)|)))
    ensures Behind(ps, res, from)
  {
    hide *;
    var top, rest := SortAndKeepAtMostTopN(ps, preN);
    TopUnique(ps, preN, top);
    res := PerformNms(top, threshold, topN);
    from := PicksBehind(ps, preN, threshold, topN);
  }
}
