/** The detection-output layer as a whole: per image a suppression for every class and the cut over all classes,
    then the rows of what is left. */
module DetectionOutput {
  import opened ClassLists
  import opened DetectionNms
  import opened DetectionWriter
  import opened KeepTopK
  import opened Nonlinear
  import opened UnitCells
  import T = Tensor

  datatype Config = Config(confThr: real, nmsThr: real, topK: int, keepTopK: int, background: int)

  /** The sizes go with the boxes; actual says how many prior boxes of each image count. */
  ghost predicate Given(l: Layer, cfg: Config, sizes: seq<real>, actual: seq<nat>) {
    && Inputs(l) && cfg.topK >= -1
    && |sizes| >= l.images * (l.priors * BoxSets(l))
    && |actual| == l.images && forall n :: 0 <= n < l.images ==> actual[n] <= l.priors
  }

  /** Where the sizes for class c of image n start. */
  function SizeBase(l: Layer, sizes: seq<real>, n: nat, c: nat): (b: nat)
    requires l.classes > 0 && |sizes| >= l.images * (l.priors * BoxSets(l)) && n < l.images && c < l.classes
    ensures b + l.priors <= |sizes|
  {
    var which: nat := if l.share then 0 else c;
    MulMono(0, n, l.priors * BoxSets(l));
    MulMono(n + 1, l.images, l.priors * BoxSets(l));
    MulDist(n, 1, l.priors * BoxSets(l));
    MulMono(which + 1, BoxSets(l), l.priors);
    MulDist(which, 1, l.priors);
    assert BoxSets(l) * l.priors == l.priors * BoxSets(l);
    MulMono(0, which, l.priors);
    n * (l.priors * BoxSets(l)) + which * l.priors
  }

  /** The first group of image n. */
  function ImageBase(l: Layer, n: nat): (lo: nat)
    ensures lo == n * l.classes && (n < l.images ==> lo + l.classes <= l.images * l.classes)
  {
    MulMono(0, n, l.classes);
    if n < l.images then
      MulMono(n + 1, l.images, l.classes);
      MulDist(n, 1, l.classes);
      n * l.classes
    else n * l.classes
  }

  /** What class c of image n keeps before the cut. */
  function ClassKeeps(l: Layer, cfg: Config, sizes: seq<real>, actual: seq<nat>, n: nat, c: nat): seq<nat>
    requires Given(l, cfg, sizes, actual) && n < l.images && c < l.classes
  {
    if c == cfg.background then []
    else
      var b, z := BoxBase(l, n, c), SizeBase(l, sizes, n, c);
      Selected(l.boxes[b..b + l.priors * 4], sizes[z..z + l.priors], cfg.nmsThr,
               Ranked(Confidences(l, ImageBase(l, n) + c), cfg.confThr, actual[n], cfg.topK))
  }

  function Confidences(l: Layer, g: nat): (conf: seq<real>)
    requires Inputs(l) && g < l.images * l.classes
    ensures |conf| == l.priors
  {
    Stretch(l.images * l.classes, l.priors, g);
    l.conf[g * l.priors..g * l.priors + l.priors]
  }

  /** The sizes are images x sets x priors. */
  function SizeAt(l: Layer, n: nat, c: nat, idx: nat): nat {
    T.Flat(T.Grid(l.images, if l.share then 1 else l.classes, l.priors, 1),
           T.Place(n, if l.share then 0 else c, idx, 0))
  }

  lemma SizeIs(l: Layer, sizes: seq<real>, n: nat, c: nat, idx: nat)
    requires l.classes > 0 && |sizes| >= l.images * (l.priors * BoxSets(l)) && n < l.images && c < l.classes
    requires idx < l.priors
    ensures SizeAt(l, n, c, idx) == SizeBase(l, sizes, n, c) + idx < |sizes|
  {
    var sets, which := BoxSets(l), if l.share then 0 else c;
    MulDist(n * sets, which, l.priors);
    assert n * sets * l.priors == n * (l.priors * sets);
  }

  /** The boxes for class c of image n have whole-number corners, and their sizes are their areas. */
  ghost predicate WholeBoxes(l: Layer, sizes: seq<real>, cs: seq<Corners>, n: nat, c: nat) {
    && |cs| >= l.priors
    && forall idx: nat :: idx < l.priors ==>
         && Upright(cs[idx]) && CornerAt(l, n, c, idx, 3) < |l.boxes| && SizeAt(l, n, c, idx) < |sizes|
         && l.boxes[CornerAt(l, n, c, idx, 0)] == cs[idx].x0 as real
         && l.boxes[CornerAt(l, n, c, idx, 1)] == cs[idx].y0 as real
         && l.boxes[CornerAt(l, n, c, idx, 2)] == cs[idx].x1 as real
         && l.boxes[CornerAt(l, n, c, idx, 3)] == cs[idx].y1 as real
         && sizes[SizeAt(l, n, c, idx)] == Extent(cs[idx]) as real
  }

  lemma WholeInSlices(l: Layer, sizes: seq<real>, cs: seq<Corners>, n: nat, c: nat, idx: nat)
    requires Inputs(l) && |sizes| >= l.images * (l.priors * BoxSets(l)) && n < l.images && c < l.classes
    requires WholeBoxes(l, sizes, cs, n, c) && idx < l.priors
    ensures var b, z := BoxBase(l, n, c), SizeBase(l, sizes, n, c);
            Whole(l.boxes[b..b + l.priors * 4], sizes[z..z + l.priors], idx, cs[idx])
  {
    CornerIs(l, n, c, idx, 0);
    CornerIs(l, n, c, idx, 1);
    CornerIs(l, n, c, idx, 2);
    CornerIs(l, n, c, idx, 3);
    SizeIs(l, sizes, n, c, idx);
    hide BoxBase, SizeBase, CornerAt, SizeAt, Extent;
  }

  lemma ConfidenceIs(l: Layer, n: nat, c: nat, idx: nat)
    requires Inputs(l) && n < l.images && c < l.classes && idx < l.priors
    ensures ImageBase(l, n) + c < l.images * l.classes && ConfidenceAt(l, n, c, idx) < |l.conf|
    ensures Confidences(l, ImageBase(l, n) + c)[idx] == l.conf[ConfidenceAt(l, n, c, idx)]
    ensures Score(l.conf, l.priors, ImageBase(l, n) + c, idx) == l.conf[ConfidenceAt(l, n, c, idx)]
  {
    Stretch(l.images * l.classes, l.priors, ImageBase(l, n) + c);
  }

  /** What a class of an image keeps, in numbers and for whole-number boxes: confidences above the threshold that do not
      increase, and no two boxes that share more than the threshold's part of their cells; the background nothing. */
  lemma ClassByCount(l: Layer, cfg: Config, sizes: seq<real>, actual: seq<nat>, cs: seq<Corners>, n: nat, c: nat)
    requires Given(l, cfg, sizes, actual) && n < l.images && c < l.classes && cfg.nmsThr >= 0.0
    requires WholeBoxes(l, sizes, cs, n, c)
    ensures var s := ClassKeeps(l, cfg, sizes, actual, n, c);
            && (c == cfg.background ==> s == [])
            && (forall k :: 0 <= k < |s| ==> s[k] < l.priors && ConfidenceAt(l, n, c, s[k]) < |l.conf|
                                             && l.conf[ConfidenceAt(l, n, c, s[k])] > cfg.confThr)
            && (forall a, b :: 0 <= a < b < |s| ==>
                  && l.conf[ConfidenceAt(l, n, c, s[a])] >= l.conf[ConfidenceAt(l, n, c, s[b])]
                  && !Overlapping(Of(cs[s[b]]), Of(cs[s[a]]), cfg.nmsThr))
  {
    hide *;
    if c == cfg.background {
      BackgroundEmpty(l, cfg, sizes, actual, n, c);
    } else {
      var s := ClassKeeps(l, cfg, sizes, actual, n, c);
      SliceByCount(l, cfg, sizes, actual, cs, n, c);
      forall i: nat | i < l.priors
        ensures ConfidenceAt(l, n, c, i) < |l.conf|
        ensures ImageBase(l, n) + c < l.images * l.classes
                && Confidences(l, ImageBase(l, n) + c)[i] == l.conf[ConfidenceAt(l, n, c, i)]
      {
        ConfidenceOf(l, cfg, sizes, actual, n, c, i);
      }
    }
  }

  lemma BackgroundEmpty(l: Layer, cfg: Config, sizes: seq<real>, actual: seq<nat>, n: nat, c: nat)
    requires Given(l, cfg, sizes, actual) && n < l.images && c < l.classes && c == cfg.background
    ensures ClassKeeps(l, cfg, sizes, actual, n, c) == []
  {
  }

  lemma ConfidenceOf(l: Layer, cfg: Config, sizes: seq<real>, actual: seq<nat>, n: nat, c: nat, idx: nat)
    requires Given(l, cfg, sizes, actual) && n < l.images && c < l.classes && idx < l.priors
    ensures Inputs(l) && ImageBase(l, n) + c < l.images * l.classes && ConfidenceAt(l, n, c, idx) < |l.conf|
    ensures Confidences(l, ImageBase(l, n) + c)[idx] == l.conf[ConfidenceAt(l, n, c, idx)]
  {
    ConfidenceIs(l, n, c, idx);
  }

  /** The same on the stretches that the class works on. */
  lemma SliceByCount(l: Layer, cfg: Config, sizes: seq<real>, actual: seq<nat>, cs: seq<Corners>, n: nat, c: nat)
    requires Given(l, cfg, sizes, actual) && n < l.images && c < l.classes && cfg.nmsThr >= 0.0
    requires WholeBoxes(l, sizes, cs, n, c) && c != cfg.background
    ensures Inputs(l) && ImageBase(l, n) + c < l.images * l.classes && |cs| >= l.priors
    ensures var s, conf := ClassKeeps(l, cfg, sizes, actual, n, c), Confidences(l, ImageBase(l, n) + c);
            && (forall k :: 0 <= k < |s| ==> s[k] < l.priors && conf[s[k]] > cfg.confThr)
            && (forall a, b :: 0 <= a < b < |s| ==>
                  conf[s[a]] >= conf[s[b]] && !Overlapping(Of(cs[s[b]]), Of(cs[s[a]]), cfg.nmsThr))
  {
    hide *;
    ClassIs(l, cfg, sizes, actual, n, c);
    EnoughCorners(l, sizes, cs, n, c);
    var b, z := BoxBase(l, n, c), SizeBase(l, sizes, n, c);
    forall i | 0 <= i < actual[n]
      ensures Whole(l.boxes[b..b + l.priors * 4], sizes[z..z + l.priors], i, cs[i])
    {
      WholeInSlices(l, sizes, cs, n, c, i);
    }
    SelectedByCount(Confidences(l, ImageBase(l, n) + c), l.boxes[b..b + l.priors * 4], sizes[z..z + l.priors], cs,
                    cfg.confThr, cfg.nmsThr, actual[n], cfg.topK);
  }

  lemma EnoughCorners(l: Layer, sizes: seq<real>, cs: seq<Corners>, n: nat, c: nat)
    requires WholeBoxes(l, sizes, cs, n, c)
    ensures |cs| >= l.priors
  {
  }

  lemma ClassIs(l: Layer, cfg: Config, sizes: seq<real>, actual: seq<nat>, n: nat, c: nat)
    requires Given(l, cfg, sizes, actual) && n < l.images && c < l.classes && c != cfg.background
    ensures Inputs(l) && ImageBase(l, n) + c < l.images * l.classes && cfg.topK >= -1
    ensures l.classes > 0 && |sizes| >= l.images * (l.priors * BoxSets(l))
    ensures n < |actual| && actual[n] <= l.priors
    ensures var b, z := BoxBase(l, n, c), SizeBase(l, sizes, n, c);
            ClassKeeps(l, cfg, sizes, actual, n, c)
            == Selected(l.boxes[b..b + l.priors * 4], sizes[z..z + l.priors], cfg.nmsThr,
                        Ranked(Confidences(l, ImageBase(l, n) + c), cfg.confThr, actual[n], cfg.topK))
  {
    hide BoxBase, SizeBase, Confidences, Selected, Ranked;
  }

  function ImageKeeps(l: Layer, cfg: Config, sizes: seq<real>, actual: seq<nat>, n: nat,
          classes: nat): (ls: seq<seq<nat>>)
    requires Given(l, cfg, sizes, actual) && n < l.images && classes <= l.classes
    ensures |ls| == classes && forall c :: 0 <= c < classes ==> ls[c] == ClassKeeps(l, cfg, sizes, actual, n, c)
  {
    seq(classes, c requires 0 <= c < classes => ClassKeeps(l, cfg, sizes, actual, n, c))
  }

  lemma KeepsBelow(l: Layer, cfg: Config, sizes: seq<real>, actual: seq<nat>, n: nat, c: nat)
    requires Given(l, cfg, sizes, actual) && n < l.images && c < l.classes
    ensures var s := ClassKeeps(l, cfg, sizes, actual, n, c);
            |s| <= l.priors && forall i :: 0 <= i < |s| ==> s[i] < l.priors
  {
    if c != cfg.background {
      var b, z := BoxBase(l, n, c), SizeBase(l, sizes, n, c);
      SelectedWithin(Confidences(l, ImageBase(l, n) + c), l.boxes[b..b + l.priors * 4], sizes[z..z + l.priors],
                     cfg.confThr, cfg.nmsThr, actual[n], cfg.topK);
    }
    hide Selected, Ranked, Confidences, BoxBase, SizeBase, ImageBase;
  }

  /** One class of one image: its list, empty before, becomes what the class keeps. */
  method ClassNms(l: Layer, cfg: Config, sizes: seq<real>, actual: seq<nat>, n: nat, c: nat,
                  buffer: array<nat>, indices: array<nat>, counts: array<nat>)
    requires Given(l, cfg, sizes, actual) && n < l.images && c < l.classes
    requires buffer != indices && buffer != counts && indices != counts && buffer.Length >= l.priors
    requires ClassLists.Shape(indices[..], counts[..], l.images * l.classes, l.priors)
             && counts[ImageBase(l, n) + c] == 0
    modifies buffer, indices, counts
    ensures ClassLists.Shape(indices[..], counts[..], l.images * l.classes, l.priors)
    ensures List(indices[..], counts[..], l.images * l.classes, l.priors, ImageBase(l, n) + c)
         == ClassKeeps(l, cfg, sizes, actual, n, c)
    ensures Only(old(indices[..]), old(counts[..]), indices[..], counts[..], l.priors, ImageBase(l, n) + c, 1)
  {
    hide Selected, Ranked, ImageBase, BoxBase, SizeBase;
    var g := ImageBase(l, n) + c;
    if c == cfg.background {
      return;
    }
    var b, z := BoxBase(l, n, c), SizeBase(l, sizes, n, c);
    Stretch(l.images * l.classes, l.priors, g);
    KeepsBelow(l, cfg, sizes, actual, n, c);
    var detections := Nms(Confidences(l, g), l.boxes[b..b + l.priors * 4], sizes[z..z + l.priors], buffer, indices,
                          g * l.priors, cfg.confThr, cfg.nmsThr, cfg.topK, actual[n]);
    counts[g] := detections;
    MulDist(g, 1, l.priors);
  }

  /** All classes of one image. */
  method ImageNms(l: Layer, cfg: Config, sizes: seq<real>, actual: seq<nat>, n: nat,
                  buffer: array<nat>, indices: array<nat>, counts: array<nat>)
    requires Given(l, cfg, sizes, actual) && n < l.images
    requires buffer != indices && buffer != counts && indices != counts && buffer.Length >= l.priors
    requires ClassLists.Shape(indices[..], counts[..], l.images * l.classes, l.priors)
    requires forall g :: ImageBase(l, n) <= g < ImageBase(l, n) + l.classes ==> counts[g] == 0
    modifies buffer, indices, counts
    ensures ClassLists.Shape(indices[..], counts[..], l.images * l.classes, l.priors)
    ensures Lists(indices[..], counts[..], l.images * l.classes, l.priors, ImageBase(l, n), l.classes)
         == ImageKeeps(l, cfg, sizes, actual, n, l.classes)
    ensures Only(old(indices[..]), old(counts[..]), indices[..], counts[..], l.priors, ImageBase(l, n), l.classes)
  {
    assert ImageBase(l, n) + l.classes <= counts.Length;
    hide *;
    var lo := ImageBase(l, n);
    ghost var groups := l.images * l.classes;
    OnlySame(indices[..], counts[..], l.priors, lo, l.classes);
    for c := 0 to l.classes
      invariant ClassLists.Shape(indices[..], counts[..], groups, l.priors)
      invariant Lists(indices[..], counts[..], groups, l.priors, lo, c) == ImageKeeps(l, cfg, sizes, actual, n, c)
      invariant forall g :: lo + c <= g < lo + l.classes ==> counts[g] == 0
      invariant Only(old(indices[..]), old(counts[..]), indices[..], counts[..], l.priors, lo, l.classes)
    {
      ghost var was, wasC := indices[..], counts[..];
      ClassNms(l, cfg, sizes, actual, n, c, buffer, indices, counts);
      OneMoreClass(l, cfg, sizes, actual, n, c, was, wasC, indices[..], counts[..]);
      OnlyWider(was, wasC, indices[..], counts[..], l.priors, lo + c, 1, lo, l.classes);
      OnlyTrans(old(indices[..]), old(counts[..]), was, wasC, indices[..], counts[..], l.priors, lo, l.classes);
    }
  }

  lemma OneMoreClass(l: Layer, cfg: Config, sizes: seq<real>, actual: seq<nat>, n: nat, c: nat,
                     was: seq<nat>, wasC: seq<nat>, now: seq<nat>, nowC: seq<nat>)
    requires Given(l, cfg, sizes, actual) && n < l.images && c < l.classes
    requires ClassLists.Shape(was, wasC, l.images * l.classes, l.priors)
    requires ClassLists.Shape(now, nowC, l.images * l.classes, l.priors)
    requires Lists(was, wasC, l.images * l.classes, l.priors, ImageBase(l, n), c)
             == ImageKeeps(l, cfg, sizes, actual, n, c)
    requires List(now, nowC, l.images * l.classes, l.priors, ImageBase(l, n) + c)
             == ClassKeeps(l, cfg, sizes, actual, n, c)
    requires Only(was, wasC, now, nowC, l.priors, ImageBase(l, n) + c, 1)
    ensures Lists(now, nowC, l.images * l.classes, l.priors, ImageBase(l, n), c + 1)
         == ImageKeeps(l, cfg, sizes, actual, n, c + 1)
    ensures forall g :: ImageBase(l, n) + c < g < ImageBase(l, n) + l.classes ==> nowC[g] == wasC[g]
  {
    var groups, lo := l.images * l.classes, ImageBase(l, n);
    ListsKept(was, wasC, now, nowC, groups, l.priors, lo + c, 1, lo, c);
    var a, b := Lists(now, nowC, groups, l.priors, lo, c + 1), ImageKeeps(l, cfg, sizes, actual, n, c + 1);
    hide List, ClassKeeps, ClassLists.Shape, Given, ImageBase;
    forall d | 0 <= d < c + 1
      ensures a[d] == b[d]
    {
      if d < c {
        assert Lists(now, nowC, groups, l.priors, lo, c)[d] == ImageKeeps(l, cfg, sizes, actual, n, c)[d];
      }
    }
  }

  /** Image m has been cut: of what its classes kept, the best keepTopK detections are left, or all of them. */
  ghost predicate Finished(l: Layer, cfg: Config, sizes: seq<real>, actual: seq<nat>, indices: seq<nat>,
          counts: seq<nat>, m: nat) {
    && Given(l, cfg, sizes, actual) && m < l.images
    && ClassLists.Shape(indices, counts, l.images * l.classes, l.priors)
    && CutDone(l.conf, l.priors, ImageBase(l, m), ImageKeeps(l, cfg, sizes, actual, m, l.classes),
               Lists(indices, counts, l.images * l.classes, l.priors, ImageBase(l, m), l.classes), cfg.keepTopK)
  }

  /** One image: suppression and cut. */
  method Image(l: Layer, cfg: Config, sizes: seq<real>, actual: seq<nat>, n: nat,
               buffer: array<nat>, indices: array<nat>, counts: array<nat>)
    requires Given(l, cfg, sizes, actual) && n < l.images
    requires buffer != indices && buffer != counts && indices != counts && buffer.Length >= l.priors
    requires ClassLists.Shape(indices[..], counts[..], l.images * l.classes, l.priors)
    requires forall g :: ImageBase(l, n) <= g < ImageBase(l, n) + l.classes ==> counts[g] == 0
    modifies buffer, indices, counts
    ensures Finished(l, cfg, sizes, actual, indices[..], counts[..], n)
    ensures Only(old(indices[..]), old(counts[..]), indices[..], counts[..], l.priors, ImageBase(l, n), l.classes)
  {
    ImageNms(l, cfg, sizes, actual, n, buffer, indices, counts);
    ghost var was, wasC := indices[..], counts[..];
    KeepsAllBelow(l, cfg, sizes, actual, n);
    hide CutDone, ImageKeeps, Below, ImageBase, Only;
    CutImage(l.conf, l.images * l.classes, l.priors, ImageBase(l, n), l.classes, indices, counts, cfg.keepTopK);
    OnlyTrans(old(indices[..]), old(counts[..]), was, wasC, indices[..], counts[..], l.priors, ImageBase(l, n),
      l.classes);
  }

  lemma KeepsAllBelow(l: Layer, cfg: Config, sizes: seq<real>, actual: seq<nat>, n: nat)
    requires Given(l, cfg, sizes, actual) && n < l.images
    ensures Below(ImageKeeps(l, cfg, sizes, actual, n, l.classes), l.priors)
  {
    hide ClassKeeps, Given;
    var ls := ImageKeeps(l, cfg, sizes, actual, n, l.classes);
    forall c, i | 0 <= c < |ls| && 0 <= i < |ls[c]|
      ensures ls[c][i] < l.priors
    {
      KeepsBelow(l, cfg, sizes, actual, n, c);
    }
  }

  /** A step on one image leaves the others as they are. */
  lemma FinishedKept(l: Layer, cfg: Config, sizes: seq<real>, actual: seq<nat>, was: seq<nat>, wasC: seq<nat>,
                     now: seq<nat>, nowC: seq<nat>, m: nat, n: nat)
    requires Finished(l, cfg, sizes, actual, was, wasC, m) && m < n < l.images
    requires ClassLists.Shape(now, nowC, l.images * l.classes, l.priors)
    requires Only(was, wasC, now, nowC, l.priors, ImageBase(l, n), l.classes)
    ensures Finished(l, cfg, sizes, actual, now, nowC, m)
  {
    MulMono(m + 1, n, l.classes);
    MulDist(m, 1, l.classes);
    ListsKept(was, wasC, now, nowC, l.images * l.classes, l.priors, ImageBase(l, n), l.classes, ImageBase(l, m),
      l.classes);
  }

  method ClearAll(l: Layer, indices: array<nat>, counts: array<nat>)
    requires indices != counts && counts.Length == l.images * l.classes
    requires indices.Length >= l.images * l.classes * l.priors
    modifies counts
    ensures ClassLists.Shape(indices[..], counts[..], l.images * l.classes, l.priors)
    ensures forall g :: 0 <= g < counts.Length ==> counts[g] == 0
  {
    for g := 0 to counts.Length
      invariant forall h :: 0 <= h < g ==> counts[h] == 0
    {
      counts[g] := 0;
    }
  }

  lemma NextImage(l: Layer, cfg: Config, sizes: seq<real>, actual: seq<nat>, was: seq<nat>, wasC: seq<nat>,
                  now: seq<nat>, nowC: seq<nat>, n: nat)
    requires n < l.images && Finished(l, cfg, sizes, actual, now, nowC, n)
    requires forall m: nat :: m < n ==> Finished(l, cfg, sizes, actual, was, wasC, m)
    requires forall g :: ImageBase(l, n) <= g < l.images * l.classes ==> g < |wasC| && wasC[g] == 0
    requires Only(was, wasC, now, nowC, l.priors, ImageBase(l, n), l.classes)
    ensures forall m: nat :: m < n + 1 ==> Finished(l, cfg, sizes, actual, now, nowC, m)
    ensures ClassLists.Shape(now, nowC, l.images * l.classes, l.priors)
    ensures forall g :: ImageBase(l, n + 1) <= g < l.images * l.classes ==> nowC[g] == 0
  {
    MulDist(n, 1, l.classes);
    hide CutDone, ImageKeeps, Given, Lists;
    forall m: nat | m < n ensures Finished(l, cfg, sizes, actual, now, nowC, m) {
      FinishedKept(l, cfg, sizes, actual, was, wasC, now, nowC, m, n);
    }
  }

  /** An image that has been cut keeps no more than the bound, and only prior boxes. */
  lemma FinishedBounds(l: Layer, cfg: Config, sizes: seq<real>, actual: seq<nat>, indices: seq<nat>, counts: seq<nat>,
          m: nat)
    requires Finished(l, cfg, sizes, actual, indices, counts, m)
    ensures cfg.keepTopK >= 0 ==> ImageTotal(counts, m, l.classes) <= cfg.keepTopK
    ensures Below(Lists(indices, counts, l.images * l.classes, l.priors, ImageBase(l, m), l.classes), l.priors)
  {
    var lo := ImageBase(l, m);
    var was, now := ImageKeeps(l, cfg, sizes, actual, m, l.classes),
      Lists(indices, counts, l.images * l.classes, l.priors, lo, l.classes);
    TotalIsLengths(counts, lo, now);
    hide Lists, ImageKeeps, ImageBase, CutDone, Below, Given;
    KeepsAllBelow(l, cfg, sizes, actual, m);
    CutBounds(l.conf, l.priors, lo, was, now, cfg.keepTopK);
  }

  lemma CutBounds(conf: seq<real>, priors: nat, lo: nat, was: seq<seq<nat>>, now: seq<seq<nat>>, k: int)
    requires CutDone(conf, priors, lo, was, now, k) && Below(was, priors)
    ensures Below(now, priors) && (k >= 0 ==> Lengths(now) <= k)
  {
    hide Descending, LostNoBetter, Below;
    if 0 <= k < Lengths(was) {
      SubListsBelow(was, now, priors);
    }
  }

  lemma SubListsBelow(was: seq<seq<nat>>, now: seq<seq<nat>>, p: nat)
    requires Below(was, p) && |now| == |was| && forall c :: 0 <= c < |now| ==> multiset(now[c]) <= multiset(was[c])
    ensures Below(now, p)
  {
    forall c, i | 0 <= c < |now| && 0 <= i < |now[c]|
      ensures now[c][i] < p
    {
      assert now[c][i] in multiset(now[c]);
      assert now[c][i] in multiset(was[c]);
    }
  }

  /** When all images have been cut, the lists are fit to be written, and their rows are within the bound. */
  lemma AllFinished(l: Layer, cfg: Config, sizes: seq<real>, actual: seq<nat>, indices: seq<nat>, counts: seq<nat>)
    requires Given(l, cfg, sizes, actual) && ClassLists.Shape(indices, counts, l.images * l.classes, l.priors)
    requires forall m: nat :: m < l.images ==> Finished(l, cfg, sizes, actual, indices, counts, m)
    ensures DetectionWriter.Shape(l, indices, counts)
    ensures cfg.keepTopK >= 0 ==> CountSum(counts, 0, l.images * l.classes) <= l.images * cfg.keepTopK
  {
    hide Finished, ImageTotal, List, Given;
    var groups := l.images * l.classes;
    forall g, i | 0 <= g < groups && 0 <= i < counts[g]
      ensures List(indices, counts, groups, l.priors, g)[i] < l.priors
    {
      EntryNamed(l, cfg, sizes, actual, indices, counts, g, i);
    }
    if cfg.keepTopK >= 0 {
      forall m: nat | m < l.images ensures ImageTotal(counts, m, l.classes) <= cfg.keepTopK {
        FinishedBounds(l, cfg, sizes, actual, indices, counts, m);
      }
      ImagesBound(counts, l.images, l.classes, cfg.keepTopK);
    }
    InputsOf(l, cfg, sizes, actual);
  }

  lemma InputsOf(l: Layer, cfg: Config, sizes: seq<real>, actual: seq<nat>)
    requires Given(l, cfg, sizes, actual)
    ensures Inputs(l)
  {
  }

  lemma ClassNamed(l: Layer, cfg: Config, sizes: seq<real>, actual: seq<nat>, indices: seq<nat>, counts: seq<nat>,
          m: nat, c: nat, i: nat)
    requires Finished(l, cfg, sizes, actual, indices, counts, m) && c < l.classes
    requires ImageBase(l, m) + c < |counts| && i < counts[ImageBase(l, m) + c]
    ensures List(indices, counts, l.images * l.classes, l.priors, ImageBase(l, m) + c)[i] < l.priors
  {
    FinishedBounds(l, cfg, sizes, actual, indices, counts, m);
    var ls := Lists(indices, counts, l.images * l.classes, l.priors, ImageBase(l, m), l.classes);
    hide Given, CutDone, ImageKeeps, List;
    assert ls[c][i] < l.priors;
  }

  lemma EntryNamed(l: Layer, cfg: Config, sizes: seq<real>, actual: seq<nat>, indices: seq<nat>, counts: seq<nat>,
          g: nat, i: nat)
    requires Given(l, cfg, sizes, actual) && ClassLists.Shape(indices, counts, l.images * l.classes, l.priors)
    requires forall m: nat :: m < l.images ==> Finished(l, cfg, sizes, actual, indices, counts, m)
    requires g < l.images * l.classes && i < counts[g]
    ensures List(indices, counts, l.images * l.classes, l.priors, g)[i] < l.priors
  {
    Within(l, g);
    ClassNamed(l, cfg, sizes, actual, indices, counts, g / l.classes, g % l.classes, i);
  }

  /** The layer: clears the counts, works on the images in turn, and writes the rows. With a bound no more than
      images * keepTopK rows can be written, because every image has been cut. */
  method Execute(l: Layer, cfg: Config, sizes: seq<real>, actual: seq<nat>, detectionSize: int,
                 buffer: array<nat>, indices: array<nat>, counts: array<nat>, dst: array<real>)
    returns (status: Status, count: nat)
    requires Given(l, cfg, sizes, actual)
    requires buffer != indices && buffer != counts && indices != counts
    requires buffer.Length >= l.priors && counts.Length == l.images * l.classes
    requires indices.Length >= l.images * l.classes * l.priors
    modifies buffer, indices, counts, dst
    ensures forall m: nat :: m < l.images ==> Finished(l, cfg, sizes, actual, indices[..], counts[..], m)
    ensures status == Precheck(l.images, cfg.keepTopK, detectionSize, dst.Length)
    ensures status != Ok ==> dst[..] == old(dst[..])
    ensures DetectionWriter.Shape(l, indices[..], counts[..])
    ensures status == Ok ==> RowsWritten(l, indices[..], counts[..], cfg.keepTopK, dst[..], count)
  {
    hide *;
    ClearAll(l, indices, counts);
    for n := 0 to l.images
      invariant ClassLists.Shape(indices[..], counts[..], l.images * l.classes, l.priors)
      invariant forall m: nat :: m < n ==> Finished(l, cfg, sizes, actual, indices[..], counts[..], m)
      invariant forall g :: ImageBase(l, n) <= g < l.images * l.classes ==> counts[g] == 0
      invariant dst[..] == old(dst[..])
    {
      ghost var was, wasC := indices[..], counts[..];
      Image(l, cfg, sizes, actual, n, buffer, indices, counts);
      NextImage(l, cfg, sizes, actual, was, wasC, indices[..], counts[..], n);
    }
    AllFinished(l, cfg, sizes, actual, indices[..], counts[..]);
    status, count := Write(l, indices, counts, cfg.keepTopK, detectionSize, dst);
  }
}
