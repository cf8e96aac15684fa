/** Per-class non-maximum suppression of the detection-output layer: candidates above the confidence threshold,
    the best of them ranked, and a lazy pass that writes what it keeps over the candidate list. */
module DetectionNms {
  import opened Greedy
  import opened Ranking
  import opened UnitCells
  import P = Proposal

  // ---- ranking ----

  function At(conf: seq<real>, i: nat): real {
    if i < |conf| then conf[i] else 0.0
  }

  /** The comparator: higher confidence first, lower index first among equals. */
  function ByConfidence(conf: seq<real>): (nat, nat) -> bool {
    (i: nat, j: nat) => At(conf, i) > At(conf, j) || (At(conf, i) == At(conf, j) && i < j)
  }

  lemma ByConfidenceTotal(conf: seq<real>)
    ensures StrictWeak(ByConfidence(conf)) && Total(ByConfidence(conf))
  {
  }

  /** The indices below n whose confidence is above the threshold, in index order. */
  function Candidates(conf: seq<real>, threshold: real, n: nat): (s: seq<nat>)
    ensures |s| <= n
    ensures forall k :: 0 <= k < |s| ==> s[k] < n && At(conf, s[k]) > threshold
    ensures forall a, b :: 0 <= a < b < |s| ==> s[a] < s[b]
  {
    if n == 0 then []
    else
      var s := Candidates(conf, threshold, n - 1);
      if At(conf, n - 1) > threshold then s + [n - 1] else s
  }

  function OutputScores(topK: int, count: nat): nat
    requires topK >= -1
  {
    if topK == -1 then count else if topK < count then topK else count
  }

  /** All candidates, ranked. */
  function FullRanking(conf: seq<real>, threshold: real, n: nat): seq<nat> {
    Sort<nat>(ByConfidence(conf), Candidates(conf, threshold, n))
  }

  /** What partial_sort_copy leaves in the buffer. */
  function Ranked(conf: seq<real>, threshold: real, n: nat, topK: int): (r: seq<nat>)
    requires topK >= -1
  {
    var all := FullRanking(conf, threshold, n);
    var m := OutputScores(topK, |Candidates(conf, threshold, n)|);
    if m <= |all| then all[..m] else all
  }

  lemma {:induction false} CandidatesComplete(conf: seq<real>, threshold: real, n: nat, i: nat)
    requires i < n && At(conf, i) > threshold
    ensures i in Candidates(conf, threshold, n)
  {
    var s := Candidates(conf, threshold, n);
    if i < n - 1 {
      CandidatesComplete(conf, threshold, n - 1, i);
      assert i in Candidates(conf, threshold, n - 1);
    } else {
      assert s[|s| - 1] == i;
    }
  }

  /** The ranked list holds distinct candidates in strictly descending order, as many as asked for, and whatever
      candidate is left out ranks below all of it. */
  lemma RankedBest(conf: seq<real>, threshold: real, n: nat, topK: int)
    requires topK >= -1
    ensures var r := Ranked(conf, threshold, n, topK);
            && |r| == OutputScores(topK, |Candidates(conf, threshold, n)|)
            && (forall a, b :: 0 <= a < b < |r| ==> ByConfidence(conf)(r[a], r[b]))
            && (forall k :: 0 <= k < |r| ==> r[k] < n && At(conf, r[k]) > threshold)
            && (forall i: nat, k :: i < n && At(conf, i) > threshold && i !in r && 0 <= k < |r|
                  ==> ByConfidence(conf)(r[k], i))
  {
    hide FullRanking, ByConfidence, Candidates;
    var all := FullRanking(conf, threshold, n);
    AllRanked(conf, threshold, n);
    var r := Ranked(conf, threshold, n, topK);
    var m := |r|;
    assert r == all[..m];
    forall i: nat, k | i < n && At(conf, i) > threshold && i !in r && 0 <= k < |r|
      ensures ByConfidence(conf)(r[k], i)
    {
      forall q | 0 <= q < m
        ensures all[q] != i
      {
        assert r[q] in r;
      }
      assert i in all;
    }
  }

  /** The whole ranking: every candidate, each once, in strictly descending order. */
  lemma AllRanked(conf: seq<real>, threshold: real, n: nat)
    ensures var all := FullRanking(conf, threshold, n);
            && |all| == |Candidates(conf, threshold, n)|
            && (forall a, b :: 0 <= a < b < |all| ==> ByConfidence(conf)(all[a], all[b]))
            && (forall k :: 0 <= k < |all| ==> all[k] < n && At(conf, all[k]) > threshold)
            && (forall i: nat :: i < n && At(conf, i) > threshold ==> i in all)
  {
    hide StrictWeak, Total, Sorted;
    var cs, all := Candidates(conf, threshold, n), FullRanking(conf, threshold, n);
    ByConfidenceTotal(conf);
    SortSorts<nat>(ByConfidence(conf), cs);
    SameLength(all, cs);
    SortedDistinct(conf, all, cs);
    forall k | 0 <= k < |all|
      ensures all[k] < n && At(conf, all[k]) > threshold
    {
      assert all[k] in multiset(cs);
    }
    forall i: nat | i < n && At(conf, i) > threshold
      ensures i in all
    {
      CandidatesComplete(conf, threshold, n, i);
      assert i in multiset(all);
    }
  }

  lemma SortedDistinct(conf: seq<real>, s: seq<nat>, t: seq<nat>)
    requires SortOf(ByConfidence(conf), s, t) && forall a, b :: 0 <= a < b < |t| ==> t[a] < t[b]
    ensures forall a, b :: 0 <= a < b < |s| ==> ByConfidence(conf)(s[a], s[b])
  {
    ByConfidenceTotal(conf);
    forall a, b | 0 <= a < b < |s|
      ensures s[a] != s[b]
    {
      if s[a] == s[b] {
        TwiceIn(s, a, b);
        OnceIn(t, s[a]);
      }
    }
  }

  lemma TwiceIn(s: seq<nat>, a: nat, b: nat)
    requires a < b < |s| && s[a] == s[b]
    ensures multiset(s)[s[a]] >= 2
  {
    assert s == s[..a] + [s[a]] + s[a + 1..b] + [s[b]] + s[b + 1..];
  }

  lemma {:induction false} OnceIn(t: seq<nat>, x: nat)
    requires forall a, b :: 0 <= a < b < |t| ==> t[a] < t[b]
    ensures multiset(t)[x] <= 1
  {
    if t != [] {
      var m := |t| - 1;
      assert t == t[..m] + [t[m]];
      OnceIn(t[..m], x);
      if x == t[m] {
        assert x !in t[..m];
        assert x !in multiset(t[..m]);
      }
    }
  }

  /** In numbers: confidences do not increase along the list, the lower index comes first among equals, and no
      candidate left out has a higher confidence than one in the list, nor the same and a lower index. */
  lemma RankedDescending(conf: seq<real>, threshold: real, n: nat, topK: int)
    requires topK >= -1 && n <= |conf|
    ensures var r := Ranked(conf, threshold, n, topK);
            && (forall k :: 0 <= k < |r| ==> r[k] < n && conf[r[k]] > threshold)
            && (forall a, b :: 0 <= a < b < |r| ==>
                  conf[r[a]] > conf[r[b]] || (conf[r[a]] == conf[r[b]] && r[a] < r[b]))
            && (forall i: nat, k :: i < n && conf[i] > threshold && i !in r && 0 <= k < |r| ==>
                  conf[r[k]] > conf[i] || (conf[r[k]] == conf[i] && r[k] < i))
  {
    hide Ranked, Candidates, FullRanking, OutputScores;
    RankedBest(conf, threshold, n, topK);
    var r := Ranked(conf, threshold, n, topK);
    forall a, b | 0 <= a < b < |r|
      ensures conf[r[a]] > conf[r[b]] || (conf[r[a]] == conf[r[b]] && r[a] < r[b])
    {
      assert ByConfidence(conf)(r[a], r[b]);
    }
    forall i: nat, k | i < n && conf[i] > threshold && i !in r && 0 <= k < |r|
      ensures conf[r[k]] > conf[i] || (conf[r[k]] == conf[i] && r[k] < i)
    {
      assert At(conf, i) == conf[i];
      assert ByConfidence(conf)(r[k], i);
    }
  }

  // ---- overlap ----

  /** JaccardOverlap(idx, kept) > threshold. */
  predicate Exceeds(boxes: seq<real>, sizes: seq<real>, idx: nat, kept: nat, threshold: real)
    requires Fits(boxes, sizes, idx) && Fits(boxes, sizes, kept)
  {
    RatioAbove(BoxAt(boxes, idx), BoxAt(boxes, kept), sizes[idx] + sizes[kept], threshold)
  }

  function BoxAt(boxes: seq<real>, idx: nat): P.Box
    requires 4 * idx + 3 < |boxes|
  {
    P.Box(boxes[4 * idx], boxes[4 * idx + 1], boxes[4 * idx + 2], boxes[4 * idx + 3])
  }

  /** The comparison for two boxes whose sizes add up to both. */
  predicate RatioAbove(a: P.Box, b: P.Box, both: real, threshold: real) {
    if b.x0 > a.x1 || b.x1 < a.x0 || b.y0 > a.y1 || b.y1 < a.y0 then 0.0 > threshold
    else SharedAbove(P.Min(a.x1, b.x1) - P.Max(a.x0, b.x0), P.Min(a.y1, b.y1) - P.Max(a.y0, b.y0), both, threshold)
  }

  predicate SharedAbove(w: real, h: real, both: real, threshold: real) {
    if w <= 0.0 || h <= 0.0 then 0.0 > threshold else P.QuotientAbove(threshold, w * h, both - w * h)
  }

  /** A box that shares no area with the kept one has overlap zero, whatever the sizes say. */
  lemma ApartExceeds(boxes: seq<real>, sizes: seq<real>, idx: nat, kept: nat, threshold: real)
    requires Fits(boxes, sizes, idx) && Fits(boxes, sizes, kept)
    requires || boxes[4 * idx + 2] <= boxes[4 * kept] || boxes[4 * kept + 2] <= boxes[4 * idx]
             || boxes[4 * idx + 3] <= boxes[4 * kept + 1] || boxes[4 * kept + 3] <= boxes[4 * idx + 1]
    ensures Exceeds(boxes, sizes, idx, kept, threshold) <==> threshold < 0.0
  {
  }

  /** The overlap test between ranks: the item ranked at p is kept and tested by the one ranked at i. */
  function Test(boxes: seq<real>, sizes: seq<real>, threshold: real, ranked: seq<nat>): Relation {
    (p: nat, i: nat) => p < |ranked| && i < |ranked| && Fits(boxes, sizes, ranked[p]) && Fits(boxes, sizes, ranked[i])
                        && Exceeds(boxes, sizes, ranked[i], ranked[p], threshold)
  }

  predicate Fits(boxes: seq<real>, sizes: seq<real>, idx: nat) {
    4 * idx + 3 < |boxes| && idx < |sizes|
  }

  function Lazy(boxes: seq<real>, sizes: seq<real>, threshold: real, ranked: seq<nat>, n: nat): seq<nat> {
    Kept(P.Everything(), Test(boxes, sizes, threshold, ranked), n)
  }

  function Named(ranked: seq<nat>, ranks: seq<nat>): (s: seq<nat>)
    requires forall k :: 0 <= k < |ranks| ==> ranks[k] < |ranked|
    ensures |s| == |ranks|
    ensures forall k :: 0 <= k < |ranks| ==> s[k] == ranked[ranks[k]]
  {
    seq(|ranks|, k requires 0 <= k < |ranks| => ranked[ranks[k]])
  }

  /** The indices that a class keeps. */
  function Selected(boxes: seq<real>, sizes: seq<real>, threshold: real, ranked: seq<nat>): seq<nat> {
    Named(ranked, Lazy(boxes, sizes, threshold, ranked, |ranked|))
  }

  /** What the class keeps: distinct indices above the confidence threshold, in descending confidence, no two
      overlapping too much, and every ranked candidate that is missing overlaps one that is kept and ranks above it. */
  lemma SelectedSound(conf: seq<real>, boxes: seq<real>, sizes: seq<real>, confThr: real, nmsThr: real, n: nat,
          topK: int)
    requires topK >= -1 && |boxes| >= 4 * n && |sizes| >= n
    ensures var r := Ranked(conf, confThr, n, topK);
            var s := Selected(boxes, sizes, nmsThr, r);
            && (forall k :: 0 <= k < |s| ==> s[k] in r && s[k] < n && At(conf, s[k]) > confThr)
            && (forall a, b :: 0 <= a < b < |s| ==> ByConfidence(conf)(s[a], s[b]) && s[a] != s[b])
            && (forall a, b :: 0 <= a < b < |s| ==> !Exceeds(boxes, sizes, s[b], s[a], nmsThr))
  {
    var r := Ranked(conf, confThr, n, topK);
    RankedBest(conf, confThr, n, topK);
    var sup := Test(boxes, sizes, nmsThr, r);
    var ks := Lazy(boxes, sizes, nmsThr, r, |r|);
    KeptSolves(P.Everything(), sup, |r|);
    var s := Selected(boxes, sizes, nmsThr, r);
    forall a, b | 0 <= a < b < |s|
      ensures !Exceeds(boxes, sizes, s[b], s[a], nmsThr)
    {
      assert ks[a] < ks[b] && ks[b] in ks;
      assert !SuppressedBelow(sup, ks, ks[b]);
    }
  }

  /** What the class keeps fits the stretch of its list. */
  lemma SelectedWithin(conf: seq<real>, boxes: seq<real>, sizes: seq<real>, confThr: real, nmsThr: real, n: nat,
          topK: int)
    requires topK >= -1 && |boxes| >= 4 * n && |sizes| >= n
    ensures var s := Selected(boxes, sizes, nmsThr, Ranked(conf, confThr, n, topK));
            |s| <= n && forall k :: 0 <= k < |s| ==> s[k] < n
  {
    hide Ranked;
    SelectedSound(conf, boxes, sizes, confThr, nmsThr, n, topK);
    RankedFits(conf, boxes, sizes, confThr, n, topK);
  }

  lemma SelectedComplete(conf: seq<real>, boxes: seq<real>, sizes: seq<real>, confThr: real, nmsThr: real, n: nat,
          topK: int, i: nat)
    returns (k: nat)
    requires topK >= -1 && |boxes| >= 4 * n && |sizes| >= n
    requires i < |Ranked(conf, confThr, n, topK)|
    requires Ranked(conf, confThr, n, topK)[i] !in Selected(boxes, sizes, nmsThr, Ranked(conf, confThr, n, topK))
    ensures var r := Ranked(conf, confThr, n, topK);
            var s := Selected(boxes, sizes, nmsThr, r);
            k < |s| && Fits(boxes, sizes, s[k]) && Fits(boxes, sizes, r[i])
            && ByConfidence(conf)(s[k], r[i]) && Exceeds(boxes, sizes, r[i], s[k], nmsThr)
  {
    var r := Ranked(conf, confThr, n, topK);
    RankedBest(conf, confThr, n, topK);
    var sup := Test(boxes, sizes, nmsThr, r);
    var ks := Lazy(boxes, sizes, nmsThr, r, |r|);
    var s := Selected(boxes, sizes, nmsThr, r);
    KeptSolves(P.Everything(), sup, |r|);
    forall m | 0 <= m < |ks|
      ensures ks[m] != i
    {
      assert s[m] in s;
    }
    assert SuppressedBelow(sup, ks, i);
    k :| 0 <= k < |ks| && ks[k] < i && sup(ks[k], i);
  }

  /** Box idx has whole-number corners, and its size is its area. */
  ghost predicate Whole(boxes: seq<real>, sizes: seq<real>, idx: nat, c: Corners) {
    && Fits(boxes, sizes, idx) && Upright(c)
    && boxes[4 * idx] == c.x0 as real && boxes[4 * idx + 1] == c.y0 as real
    && boxes[4 * idx + 2] == c.x1 as real && boxes[4 * idx + 3] == c.y1 as real
    && sizes[idx] == Extent(c) as real
  }

  function Frame(c: Corners): P.Box {
    P.Box(c.x0 as real, c.y0 as real, c.x1 as real, c.y1 as real)
  }

  lemma RatioIs(a: Corners, b: Corners, both: real, thr: real)
    ensures RatioAbove(Frame(a), Frame(b), both, thr)
            <==> SharedAbove(Width(a, b) as real, Height(a, b) as real, both, thr)
  {
    if Width(a, b) > 0 && Height(a, b) > 0 {
      hide SharedAbove;
    }
  }

  lemma SharedIs(w: int, h: int, both: int, thr: real)
    ensures SharedAbove(w as real, h as real, both as real, thr)
            <==> if w <= 0 || h <= 0 then 0.0 > thr
                 else P.QuotientAbove(thr, (w * h) as real, (both - w * h) as real)
  {
    assert w as real * h as real == (w * h) as real;
  }

  /** Such a box excludes another exactly when the cells that they share are more than the threshold's part of all
      their cells. */
  lemma ExceedsByCount(boxes: seq<real>, sizes: seq<real>, idx: nat, kept: nat, a: Corners, b: Corners, thr: real)
    requires Whole(boxes, sizes, idx, a) && Whole(boxes, sizes, kept, b) && thr >= 0.0
    ensures Exceeds(boxes, sizes, idx, kept, thr) <==> Overlapping(Of(a), Of(b), thr)
  {
    assert BoxAt(boxes, idx) == Frame(a) && BoxAt(boxes, kept) == Frame(b);
    assert sizes[idx] + sizes[kept] == (Extent(a) + Extent(b)) as real;
    assert Exceeds(boxes, sizes, idx, kept, thr)
      == RatioAbove(Frame(a), Frame(b), (Extent(a) + Extent(b)) as real, thr);
    assert Upright(a) && Upright(b);
    hide *;
    OverlapByCount(a, b, thr);
    RatioIs(a, b, (Extent(a) + Extent(b)) as real, thr);
    SharedIs(Width(a, b), Height(a, b), Extent(a) + Extent(b), thr);
    var w, h := Width(a, b), Height(a, b);
    var all := Extent(a) + Extent(b) - w * h;
    if w > 0 && h > 0 {
      P.QuotientIs(thr, (w * h) as real, all as real);
    }
  }

  /** What a class keeps of whole-number boxes, in numbers: descending confidences above the threshold, no two boxes
      sharing more than the threshold's part of their cells, and every ranked box that is missing sharing more than
      that with a kept one of at least its confidence. */
  lemma SelectedByCount(conf: seq<real>, boxes: seq<real>, sizes: seq<real>, cs: seq<Corners>, confThr: real,
                        nmsThr: real, n: nat, topK: int)
    requires topK >= -1 && |boxes| >= 4 * n && |sizes| >= n && |conf| >= n && |cs| >= n && nmsThr >= 0.0
    requires forall i :: 0 <= i < n ==> Whole(boxes, sizes, i, cs[i])
    ensures var r := Ranked(conf, confThr, n, topK);
            var s := Selected(boxes, sizes, nmsThr, r);
            && (forall k :: 0 <= k < |s| ==> s[k] < n && conf[s[k]] > confThr)
            && (forall a, b :: 0 <= a < b < |s| ==> conf[s[a]] >= conf[s[b]]
                                                    && !Overlapping(Of(cs[s[b]]), Of(cs[s[a]]), nmsThr))
            && (forall i :: 0 <= i < |r| && r[i] !in s ==>
                  r[i] < n && exists k :: 0 <= k < |s| && conf[s[k]] >= conf[r[i]]
                                          && Overlapping(Of(cs[r[i]]), Of(cs[s[k]]), nmsThr))
  {
    hide Ranked, Selected, Whole, Of, Overlapping, Exceeds;
    var r := Ranked(conf, confThr, n, topK);
    var s := Selected(boxes, sizes, nmsThr, r);
    RankedDescending(conf, confThr, n, topK);
    SelectedSound(conf, boxes, sizes, confThr, nmsThr, n, topK);
    forall a, b | 0 <= a < b < |s|
      ensures conf[s[a]] >= conf[s[b]] && !Overlapping(Of(cs[s[b]]), Of(cs[s[a]]), nmsThr)
    {
      assert ByConfidence(conf)(s[a], s[b]);
      ExceedsByCount(boxes, sizes, s[b], s[a], cs[s[b]], cs[s[a]], nmsThr);
    }
    forall i | 0 <= i < |r| && r[i] !in s
      ensures exists k :: 0 <= k < |s| && conf[s[k]] >= conf[r[i]] && Overlapping(Of(cs[r[i]]), Of(cs[s[k]]), nmsThr)
    {
      var k := SelectedComplete(conf, boxes, sizes, confThr, nmsThr, n, topK, i);
      assert ByConfidence(conf)(s[k], r[i]);
      ExceedsByCount(boxes, sizes, r[i], s[k], cs[r[i]], cs[s[k]], nmsThr);
    }
  }

  /** std::partial_sort_copy: the m foremost candidates of the list at off, in order. */
  method PartialSortCopy(conf: seq<real>, indices: array<nat>, off: nat, count: nat, buffer: array<nat>, m: nat)
    requires buffer != indices && off + count <= indices.Length && m <= count && m <= buffer.Length
    modifies buffer
    ensures Foremost<nat>(ByConfidence(conf), buffer[..m], indices[off..off + count], m)
  {
    hide Foremost, Sort, ByConfidence;
    var all := Sort<nat>(ByConfidence(conf), indices[off..off + count]);
    ByConfidenceTotal(conf);
    SortForemost<nat>(ByConfidence(conf), indices[off..off + count], m);
    for k := 0 to m
      invariant forall j :: 0 <= j < k ==> buffer[j] == all[j]
    {
      buffer[k] := all[k];
    }
    assert buffer[..m] == all[..m];
  }

  /** The comparator is total, so the buffer can hold only one list. */
  lemma ForemostRanked(conf: seq<real>, r: seq<nat>, threshold: real, n: nat, topK: int)
    requires topK >= -1
    requires var cs := Candidates(conf, threshold, n); Foremost(ByConfidence(conf), r, cs, OutputScores(topK, |cs|))
    ensures r == Ranked(conf, threshold, n, topK)
  {
    hide ByConfidence, Candidates, Sort, Foremost, StrictWeak;
    var cs := Candidates(conf, threshold, n);
    ByConfidenceTotal(conf);
    ForemostUnique<nat>(ByConfidence(conf), r, cs, OutputScores(topK, |cs|));
    RankedIsPrefix(conf, threshold, n, topK);
  }

  /** Collects the candidates of a class into its list. */
  method Collect(conf: seq<real>, indices: array<nat>, off: nat, num: nat, confThr: real) returns (count: nat)
    requires num <= |conf| && off + num <= indices.Length
    modifies indices
    ensures count <= num && indices[off..off + count] == Candidates(conf, confThr, num)
    ensures forall t :: 0 <= t < indices.Length && !(off <= t < off + num) ==> indices[t] == old(indices[t])
  {
    count := 0;
    for i := 0 to num
      invariant count <= i && indices[off..off + count] == Candidates(conf, confThr, i)
      invariant forall t :: 0 <= t < indices.Length && !(off <= t < off + num) ==> indices[t] == old(indices[t])
    {
      if conf[i] > confThr {
        indices[off + count] := i;
        assert indices[off..off + count + 1] == indices[off..off + count] + [i];
        count := count + 1;
      }
    }
  }

  lemma LazyStep(boxes: seq<real>, sizes: seq<real>, threshold: real, ranked: seq<nat>, n: nat)
    ensures var s := Lazy(boxes, sizes, threshold, ranked, n);
            Lazy(boxes, sizes, threshold, ranked, n + 1)
            == if Suppressed(Test(boxes, sizes, threshold, ranked), s, n) then s else s + [n]
  {
  }

  /** Tests one candidate against the list kept so far. */
  method KeepTest(boxes: seq<real>, sizes: seq<real>, nmsThr: real, indices: array<nat>, off: nat, detections: nat,
                  ghost ranked: seq<nat>, ghost ranks: seq<nat>, i: nat, idx: nat)
    returns (keep: bool)
    requires off + detections <= indices.Length && i < |ranked| && idx == ranked[i]
    requires forall k :: 0 <= k < |ranked| ==> Fits(boxes, sizes, ranked[k])
    requires |ranks| == detections && forall k :: 0 <= k < |ranks| ==> ranks[k] < |ranked|
    requires forall k :: 0 <= k < detections ==> indices[off + k] == ranked[ranks[k]]
    ensures keep <==> !Suppressed(Test(boxes, sizes, nmsThr, ranked), ranks, i)
  {
    for k := 0 to detections
      invariant forall j :: 0 <= j < k ==> !Test(boxes, sizes, nmsThr, ranked)(ranks[j], i)
    {
      assert Fits(boxes, sizes, ranked[i]) && Fits(boxes, sizes, ranked[ranks[k]]);
      if Exceeds(boxes, sizes, idx, indices[off + k], nmsThr) {
        assert Test(boxes, sizes, nmsThr, ranked)(ranks[k], i);
        return false;
      }
    }
    return true;
  }

  /** The selection loop: writes what is kept over the front of the list. */
  method Select(boxes: seq<real>, sizes: seq<real>, buffer: array<nat>, indices: array<nat>, off: nat, nmsThr: real,
                numOutput: nat, ghost ranked: seq<nat>)
    returns (detections: nat)
    requires buffer != indices && numOutput <= buffer.Length && off + numOutput <= indices.Length
    requires buffer[..numOutput] == ranked
    requires forall k :: 0 <= k < |ranked| ==> Fits(boxes, sizes, ranked[k])
    modifies indices
    ensures detections <= numOutput
    ensures indices[off..off + detections] == Selected(boxes, sizes, nmsThr, ranked)
    ensures forall t :: 0 <= t < indices.Length && !(off <= t < off + numOutput) ==> indices[t] == old(indices[t])
  {
    hide *;
    ghost var ranks := Lazy(boxes, sizes, nmsThr, ranked, 0);
    NothingKept(boxes, sizes, nmsThr, ranked);
    detections := 0;
    for i := 0 to numOutput
      invariant ranks == Lazy(boxes, sizes, nmsThr, ranked, i) && |ranks| == detections <= i
      invariant forall k :: 0 <= k < |ranks| ==> ranks[k] < i
      invariant forall k :: 0 <= k < detections ==> indices[off + k] == ranked[ranks[k]]
      invariant forall t :: 0 <= t < indices.Length && !(off <= t < off + numOutput) ==> indices[t] == old(indices[t])
    {
      var idx := buffer[i];
      assert idx == buffer[..numOutput][i];
      var keep := KeepTest(boxes, sizes, nmsThr, indices, off, detections, ranked, ranks, i, idx);
      LazyStep(boxes, sizes, nmsThr, ranked, i);
      if keep {
        indices[off + detections] := idx;
        detections := detections + 1;
        ranks := ranks + [i];
      }
    }
    SelectedIs(boxes, sizes, nmsThr, ranked, ranks, indices[off..off + detections]);
  }

  lemma SelectedIs(boxes: seq<real>, sizes: seq<real>, threshold: real, ranked: seq<nat>, ranks: seq<nat>, s: seq<nat>)
    requires ranks == Lazy(boxes, sizes, threshold, ranked, |ranked|) && |s| == |ranks|
    requires forall k :: 0 <= k < |ranks| ==> ranks[k] < |ranked| && s[k] == ranked[ranks[k]]
    ensures s == Selected(boxes, sizes, threshold, ranked)
  {
    hide Lazy;
  }

  /** nms for one class. The list at off first holds the candidates and then, written over them, what is kept. */
  method Nms(conf: seq<real>, boxes: seq<real>, sizes: seq<real>, buffer: array<nat>, indices: array<nat>, off: nat,
             confThr: real, nmsThr: real, topK: int, num: nat)
    returns (detections: nat)
    requires topK >= -1 && buffer != indices && num <= buffer.Length && off + num <= indices.Length
    requires num <= |conf| && |boxes| >= 4 * num && |sizes| >= num
    modifies buffer, indices
    ensures detections <= num
    ensures indices[off..off + detections] == Selected(boxes, sizes, nmsThr, Ranked(conf, confThr, num, topK))
    ensures forall t :: 0 <= t < indices.Length && !(off <= t < off + num) ==> indices[t] == old(indices[t])
  {
    hide ByConfidence, Sort, Candidates, Selected, Ranked, Fits, Foremost;
    var count := Collect(conf, indices, off, num, confThr);
    var numOutput := OutputScores(topK, count);
    PartialSortCopy(conf, indices, off, count, buffer, numOutput);
    RankedFits(conf, boxes, sizes, confThr, num, topK);
    ForemostRanked(conf, buffer[..numOutput], confThr, num, topK);
    detections := Select(boxes, sizes, buffer, indices, off, nmsThr, numOutput, Ranked(conf, confThr, num, topK));
  }

  lemma NothingKept(boxes: seq<real>, sizes: seq<real>, threshold: real, ranked: seq<nat>)
    ensures Lazy(boxes, sizes, threshold, ranked, 0) == []
  {
  }

  lemma RankedFits(conf: seq<real>, boxes: seq<real>, sizes: seq<real>, confThr: real, num: nat, topK: int)
    requires topK >= -1 && |boxes| >= 4 * num && |sizes| >= num
    ensures forall k :: 0 <= k < |Ranked(conf, confThr, num, topK)|
              ==> Fits(boxes, sizes, Ranked(conf, confThr, num, topK)[k])
    ensures |Ranked(conf, confThr, num, topK)| <= num
  {
    RankedBest(conf, confThr, num, topK);
  }

  lemma RankedIsPrefix(conf: seq<real>, confThr: real, num: nat, topK: int)
    requires topK >= -1
    ensures var m := OutputScores(topK, |Candidates(conf, confThr, num)|);
            var all := Sort<nat>(ByConfidence(conf), Candidates(conf, confThr, num));
            m <= |all| && Ranked(conf, confThr, num, topK) == all[..m]
  {
    AllRanked(conf, confThr, num);
  }
}
