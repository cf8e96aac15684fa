/** Non-maximum suppression of the proposal layer: later boxes are marked dead as soon as a box is kept, eight at
    a time while eight are left. */
module Proposal {
  import opened Greedy
  import opened UnitCells

  datatype Box = Box(x0: real, y0: real, x1: real, y1: real)

  function Max(a: real, b: real): real { if a < b then b else a }
  function Min(a: real, b: real): real { if b < a then b else a }

  /** thresh < num / den as floating point decides it: a positive number over zero is infinite, zero over zero
      compares false. */
  predicate QuotientAbove(thresh: real, num: real, den: real) {
    if den == 0.0 then num > 0.0 else thresh < num / den
  }

  lemma QuotientIs(thresh: real, num: real, den: real)
    requires den != 0.0
    ensures QuotientAbove(thresh, num, den) <==> thresh < num / den
  {
  }

  /** Where nothing is negative below, this is the comparison without the division. */
  lemma QuotientIsProduct(thresh: real, num: real, den: real)
    requires den >= 0.0
    ensures QuotientAbove(thresh, num, den) <==> num > thresh * den
  {
    if den > 0.0 {
      var q := num / den;
      assert q * den == num;
      Factored(q, thresh, den, num - thresh * den);
    }
  }

  lemma Factored(q: real, t: real, d: real, r: real)
    requires d > 0.0 && r == q * d - t * d
    ensures t < q <==> r > 0.0
  {
    assert r == (q - t) * d;
  }

  /** The boxes meet, edges included. */
  predicate Touch(a: Box, b: Box) {
    a.x0 <= b.x1 && a.y0 <= b.y1 && b.x0 <= a.x1 && b.y0 <= a.y1
  }

  function Area(a: Box): real {
    (a.x1 - a.x0 + 1.0) * (a.y1 - a.y0 + 1.0)
  }

  function Overlap(a: Box, b: Box): real {
    Max(0.0, Min(a.x1, b.x1) - Max(a.x0, b.x0) + 1.0) * Max(0.0, Min(a.y1, b.y1) - Max(a.y0, b.y0) + 1.0)
  }

  /** The test of the scalar loop: the overlap ratio of boxes that do not meet is zero. */
  predicate ScalarDead(a: Box, b: Box, thresh: real) {
    if Touch(a, b) then QuotientAbove(thresh, Overlap(a, b), Area(a) + Area(b) - Overlap(a, b)) else thresh < 0.0
  }

  /** The test of one lane of the eight-wide loop: the ratio is computed in any case and masked afterwards. */
  predicate LaneDead(a: Box, b: Box, thresh: real) {
    QuotientAbove(thresh, Overlap(a, b), Area(a) + Area(b) - Overlap(a, b)) && Touch(a, b)
  }

  /** The two tests agree exactly for boxes that meet or a threshold that is not negative. */
  lemma LaneAgreesWithScalar(a: Box, b: Box, thresh: real)
    ensures LaneDead(a, b, thresh) == ScalarDead(a, b, thresh) <==> Touch(a, b) || thresh >= 0.0
  {
  }

  /** A box between the first and the last of its pixels, in whole numbers. */
  ghost predicate Framing(a: Box, c: Corners) {
    && c.x0 < c.x1 && c.y0 < c.y1
    && a.x0 == c.x0 as real && a.y0 == c.y0 as real
    && a.x1 == (c.x1 - 1) as real && a.y1 == (c.y1 - 1) as real
  }

  /** Along one axis. */
  lemma AxisOverlap(a0: int, a1: int, b0: int, b1: int)
    ensures Min((a1 - 1) as real, (b1 - 1) as real) - Max(a0 as real, b0 as real) + 1.0
            == (Smaller(a1, b1) - Larger(a0, b0)) as real
    ensures a0 < a1 && b0 < b1 ==>
              (a0 as real <= (b1 - 1) as real && b0 as real <= (a1 - 1) as real <==> Smaller(a1, b1) > Larger(a0, b0))
  {
  }

  lemma WholeProduct(u: int, v: int)
    ensures u as real * v as real == (u * v) as real
  {
  }

  lemma PositiveParts(u: int, v: int)
    ensures Max(0.0, u as real) * Max(0.0, v as real) == if u <= 0 || v <= 0 then 0.0 else (u * v) as real
  {
    WholeProduct(u, v);
  }

  lemma OverlapIsCount(a: Box, b: Box, c: Corners, d: Corners)
    requires Framing(a, c) && Framing(b, d)
    ensures Overlap(a, b) == if Width(c, d) <= 0 || Height(c, d) <= 0 then 0.0
                             else (Width(c, d) * Height(c, d)) as real
    ensures Area(a) == Extent(c) as real
    ensures Touch(a, b) <==> Width(c, d) > 0 && Height(c, d) > 0
  {
    AxisOverlap(c.x0, c.x1, d.x0, d.x1);
    AxisOverlap(c.y0, c.y1, d.y0, d.y1);
    WholeProduct(c.x1 - c.x0, c.y1 - c.y0);
    PositiveParts(Width(c, d), Height(c, d));
    hide Max, Min, Larger, Smaller;
  }

  /** For boxes of whole pixels and a threshold that is not negative, both tests ask whether the pixels that two boxes
      share are more than the threshold's part of all their pixels. */
  lemma DeadByCount(a: Box, b: Box, c: Corners, d: Corners, thresh: real)
    requires Framing(a, c) && Framing(b, d) && thresh >= 0.0
    ensures ScalarDead(a, b, thresh) <==> Overlapping(Of(c), Of(d), thresh)
    ensures LaneDead(a, b, thresh) <==> Overlapping(Of(c), Of(d), thresh)
  {
    hide Of, Overlapping, Overlap, Area, Touch, Width, Height, Extent;
    OverlapIsCount(a, b, c, d);
    OverlapIsCount(b, a, d, c);
    OverlapByCount(c, d, thresh);
  }

  /** Box i of the four coordinate planes that unpack_boxes lays out. */
  function BoxAt(planes: seq<real>, num: nat, i: nat): Box
    requires |planes| >= 4 * num && i < num
  {
    Box(planes[i], planes[num + i], planes[2 * num + i], planes[3 * num + i])
  }

  /** The sorted proposals, five numbers each, laid out in planes. */
  method UnpackBoxes(proposals: seq<real>, planes: array<real>, num: nat)
    requires |proposals| >= 5 * num && planes.Length >= 4 * num
    modifies planes
    ensures forall i :: 0 <= i < num ==>
              BoxAt(planes[..], num, i)
              == Box(proposals[5 * i], proposals[5 * i + 1], proposals[5 * i + 2], proposals[5 * i + 3])
    ensures planes[4 * num..] == old(planes[4 * num..])
  {
    for i := 0 to num
      invariant forall t :: 0 <= t < i ==>
                  BoxAt(planes[..], num, t)
                  == Box(proposals[5 * t], proposals[5 * t + 1], proposals[5 * t + 2], proposals[5 * t + 3])
      invariant planes[4 * num..] == old(planes[4 * num..])
    {
      planes[i] := proposals[5 * i];
      planes[num + i] := proposals[5 * i + 1];
      planes[2 * num + i] := proposals[5 * i + 2];
      planes[3 * num + i] := proposals[5 * i + 3];
    }
  }

  /** Whether the kept box p reaches the later box i in one of its whole blocks of eight. */
  predicate InBlock(num: nat, p: nat, i: nat) {
    p < i < num && i < p + 1 + (num - p - 1) / 8 * 8
  }

  /** Box p marks box i dead. */
  predicate Marks(planes: seq<real>, num: nat, thresh: real, wide: bool, p: nat, i: nat) {
    && |planes| >= 4 * num && p < num && i < num
    && if wide && InBlock(num, p, i)
       then LaneDead(BoxAt(planes, num, p), BoxAt(planes, num, i), thresh)
       else ScalarDead(BoxAt(planes, num, p), BoxAt(planes, num, i), thresh)
  }

  function Marking(planes: seq<real>, num: nat, thresh: real, wide: bool): Relation {
    (p: nat, i: nat) => Marks(planes, num, thresh, wide, p, i)
  }

  function Everything(): Filter {
    (i: nat) => true
  }

  /** The boxes below num that a lazy pass keeps. */
  function Lazy(planes: seq<real>, num: nat, thresh: real, wide: bool, n: nat): seq<nat> {
    Kept(Everything(), Marking(planes, num, thresh, wide), n)
  }

  lemma MarksAgree(planes: seq<real>, num: nat, thresh: real, p: nat, i: nat)
    requires |planes| >= 4 * num && (thresh >= 0.0 || num <= 8) && p < i < num
    ensures Marking(planes, num, thresh, true)(p, i) == Marking(planes, num, thresh, false)(p, i)
  {
    LaneAgreesWithScalar(BoxAt(planes, num, p), BoxAt(planes, num, i), thresh);
  }

  /** For a threshold that is not negative, or too few boxes for a block of eight, the wide build and the scalar build
      keep the same boxes. */
  lemma WideAgreesWithScalar(planes: seq<real>, num: nat, thresh: real)
    requires |planes| >= 4 * num && (thresh >= 0.0 || num <= 8)
    ensures Lazy(planes, num, thresh, true, num) == Lazy(planes, num, thresh, false, num)
  {
    forall p: nat, i: nat | p < i < num
      ensures Marking(planes, num, thresh, true)(p, i) == Marking(planes, num, thresh, false)(p, i)
    {
      MarksAgree(planes, num, thresh, p, i);
    }
    hide *;
    KeptCongruence(Everything(), Marking(planes, num, thresh, true),
                   Everything(), Marking(planes, num, thresh, false), num);
  }

  /** Boxes that are points ten apart in a row. */
  function Scattered(num: nat): (planes: seq<real>)
    ensures |planes| == 4 * num
  {
    seq(4 * num, t =>
      if t < num then 10.0 * t as real else if 2 * num <= t < 3 * num then 10.0 * (t - 2 * num) as real else 0.0)
  }

  /** The first of nine or more such boxes marks the second in the scalar build only, once the threshold is negative. */
  lemma ScatteredMarks(num: nat, thresh: real)
    requires num >= 9 && thresh < 0.0
    ensures Marking(Scattered(num), num, thresh, false)(0, 1) && !Marking(Scattered(num), num, thresh, true)(0, 1)
  {
    assert InBlock(num, 0, 1);
    assert !Touch(BoxAt(Scattered(num), num, 0), BoxAt(Scattered(num), num, 1));
  }

  /** Rank 0 is always kept, and rank 1 exactly if rank 0 does not mark it. */
  lemma SecondRank(planes: seq<real>, num: nat, thresh: real, wide: bool)
    requires num >= 2
    ensures 1 in Lazy(planes, num, thresh, wide, num) <==> !Marking(planes, num, thresh, wide)(0, 1)
  {
    var sup, s := Marking(planes, num, thresh, wide), Lazy(planes, num, thresh, wide, num);
    KeptSolves(Everything(), sup, num);
    assert !SuppressedBelow(sup, s, 0);
    assert 0 in s;
    var k :| 0 <= k < |s| && s[k] == 0;
    assert SuppressedBelow(sup, s, 1) <==> sup(0, 1);
  }

  /** The two builds keep the same boxes of every input if and only if the threshold is not negative or there are too
      few boxes for a block. */
  lemma WideAgreesIff(num: nat, thresh: real)
    ensures (forall planes: seq<real> :: |planes| >= 4 * num ==>
               Lazy(planes, num, thresh, true, num) == Lazy(planes, num, thresh, false, num))
       <==> thresh >= 0.0 || num <= 8
  {
    hide Lazy, Marking;
    if thresh >= 0.0 || num <= 8 {
      forall planes: seq<real> | |planes| >= 4 * num
        ensures Lazy(planes, num, thresh, true, num) == Lazy(planes, num, thresh, false, num)
      {
        WideAgreesWithScalar(planes, num, thresh);
      }
    } else {
      ScatteredMarks(num, thresh);
      SecondRank(Scattered(num), num, thresh, true);
      SecondRank(Scattered(num), num, thresh, false);
      assert Lazy(Scattered(num), num, thresh, true, num) != Lazy(Scattered(num), num, thresh, false, num);
    }
  }

  /** The flags from tail on say which of those boxes some kept box marks. */
  ghost predicate Flags(dead: seq<int>, num: nat, sup: Relation, kept: seq<nat>, from: nat) {
    |dead| >= num && forall t: nat :: from <= t < num ==> (dead[t] != 0 <==> Suppressed(sup, kept, t))
  }

  /** Marks what the kept box suppresses, in blocks of eight while they fit and one by one after that. */
  method MarkDead(num: nat, isDead: array<int>, planes: seq<real>, thresh: real, wide: bool, box: nat,
                  ghost kept: seq<nat>)
    requires isDead.Length >= num && |planes| >= 4 * num && box < num
    requires Flags(isDead[..], num, Marking(planes, num, thresh, wide), kept, box + 1)
    modifies isDead
    ensures Flags(isDead[..], num, Marking(planes, num, thresh, wide), kept + [box], box + 1)
  {
    hide Suppressed, ScalarDead, LaneDead, BoxAt;
    ghost var sup := Marking(planes, num, thresh, wide);
    var tail := box + 1;
    if wide {
      while tail + 8 <= num
        invariant box + 1 <= tail <= num && (tail - box - 1) % 8 == 0
        invariant forall t: nat :: box + 1 <= t < tail ==> (isDead[t] != 0 <==> Suppressed(sup, kept + [box], t))
        invariant forall t: nat :: tail <= t < num ==> (isDead[t] != 0 <==> Suppressed(sup, kept, t))
      {
        MarkBlock(num, isDead, planes, thresh, box, tail, kept);
        tail := tail + 8;
      }
    }
    ghost var edge := tail;
    assert wide ==> edge == box + 1 + (num - box - 1) / 8 * 8;
    while tail < num
      invariant box + 1 <= edge <= tail <= num
      invariant forall t: nat :: box + 1 <= t < tail ==> (isDead[t] != 0 <==> Suppressed(sup, kept + [box], t))
      invariant forall t: nat :: tail <= t < num ==> (isDead[t] != 0 <==> Suppressed(sup, kept, t))
    {
      OneMore(sup, kept, box, tail);
      if ScalarDead(BoxAt(planes, num, box), BoxAt(planes, num, tail), thresh) {
        isDead[tail] := 1;
      }
      tail := tail + 1;
    }
  }

  lemma OneMore(sup: Relation, kept: seq<nat>, box: nat, t: nat)
    ensures Suppressed(sup, kept + [box], t) <==> Suppressed(sup, kept, t) || sup(box, t)
  {
    var s := kept + [box];
    if Suppressed(sup, kept, t) {
      var k :| 0 <= k < |kept| && sup(kept[k], t);
      assert s[k] == kept[k];
    }
    if sup(box, t) {
      assert s[|kept|] == box;
    }
  }

  method MarkBlock(num: nat, isDead: array<int>, planes: seq<real>, thresh: real, box: nat, tail: nat,
                   ghost kept: seq<nat>)
    requires isDead.Length >= num && |planes| >= 4 * num && box < tail <= num - 8 && (tail - box - 1) % 8 == 0
    requires forall t: nat :: tail <= t < num
               ==> (isDead[t] != 0 <==> Suppressed(Marking(planes, num, thresh, true), kept, t))
    modifies isDead
    ensures forall t: nat :: tail <= t < tail + 8 ==>
                               (isDead[t] != 0 <==> Suppressed(Marking(planes, num, thresh, true), kept + [box], t))
    ensures forall t: nat :: t < tail || tail + 8 <= t < isDead.Length ==> isDead[t] == old(isDead[t])
  {
    ghost var sup := Marking(planes, num, thresh, true);
    for lane := 0 to 8
      invariant forall t: nat :: tail <= t < tail + lane ==> (isDead[t] != 0 <==> Suppressed(sup, kept + [box], t))
      invariant forall t: nat :: t < tail || tail + lane <= t < isDead.Length ==> isDead[t] == old(isDead[t])
    {
      var t := tail + lane;
      assert InBlock(num, box, t);
      OneMore(sup, kept, box, t);
      isDead[t] := if LaneDead(BoxAt(planes, num, box), BoxAt(planes, num, t), thresh) then 1 else isDead[t];
    }
  }

  function Shifted(base: int, s: seq<nat>): (r: seq<int>)
    ensures |r| == |s|
  {
    seq(|s|, k requires 0 <= k < |s| => base + s[k])
  }

  lemma ShiftedSnoc(base: int, s: seq<nat>, x: nat)
    ensures Shifted(base, s + [x]) == Shifted(base, s) + [base + x]
  {
  }

  lemma LazyStep(planes: seq<real>, num: nat, thresh: real, wide: bool, n: nat)
    ensures var s := Lazy(planes, num, thresh, wide, n);
            Lazy(planes, num, thresh, wide, n + 1)
            == if Suppressed(Marking(planes, num, thresh, wide), s, n) then s else s + [n]
  {
  }

  lemma LazyStop(planes: seq<real>, num: nat, thresh: real, wide: bool, n: nat, max: int)
    requires n <= num && max > 0 && |Lazy(planes, num, thresh, wide, n)| == max
    ensures Lazy(planes, num, thresh, wide, n) == FirstOf(max, Lazy(planes, num, thresh, wide, num))
  {
    StopEarly(Everything(), Marking(planes, num, thresh, wide), n, num, max);
  }

  lemma FlagAt(dead: seq<int>, num: nat, sup: Relation, kept: seq<nat>, from: nat)
    requires from < num && Flags(dead, num, sup, kept, from)
    ensures |dead| >= num && (dead[from] != 0 <==> Suppressed(sup, kept, from))
    ensures Flags(dead, num, sup, kept, from + 1)
  {
  }

  lemma NoFlags(dead: seq<int>, num: nat, sup: Relation)
    requires |dead| >= num && forall t :: 0 <= t < num ==> dead[t] == 0
    ensures Flags(dead, num, sup, [], 0)
  {
  }

  /** The eager pass: the first maxNumOut boxes of the lazy one. The index buffer needs room for no more than that,
      because the pass stops there; a bound that is not positive is none. */
  method NmsCpu(num: nat, isDead: array<int>, planes: seq<real>, indexOut: array<int>, base: int, thresh: real,
                maxNumOut: int, wide: bool)
    returns (count: nat)
    requires isDead != indexOut && isDead.Length >= num && |planes| >= 4 * num
    requires indexOut.Length >= (if 0 < maxNumOut < num then maxNumOut else num)
    modifies isDead, indexOut
    ensures count <= num && count <= indexOut.Length
    ensures indexOut[..count] == Shifted(base, FirstOf(maxNumOut, Lazy(planes, num, thresh, wide, num)))
  {
    hide Marking, Lazy, Flags, Shifted, Kept, Suppressed;
    ghost var sup := Marking(planes, num, thresh, wide);
    ghost var kept := Lazy(planes, num, thresh, wide, 0);
    count := 0;
    for t := 0 to num
      invariant forall u :: 0 <= u < t ==> isDead[u] == 0
    {
      isDead[t] := 0;
    }
    NoFlags(isDead[..], num, sup);
    NothingKept(base, planes, num, thresh, wide);
    for box := 0 to num
      invariant kept == Lazy(planes, num, thresh, wide, box) && count == |kept| <= box
      invariant count <= indexOut.Length && (maxNumOut > 0 ==> count < maxNumOut)
      invariant indexOut[..count] == Shifted(base, kept)
      invariant Flags(isDead[..], num, sup, kept, box)
    {
      FlagAt(isDead[..], num, sup, kept, box);
      LazyStep(planes, num, thresh, wide, box);
      if isDead[box] == 0 {
        ShiftedSnoc(base, kept, box);
        indexOut[count] := base + box;
        assert indexOut[..count + 1] == indexOut[..count] + [base + box];
        count := count + 1;
        if count == maxNumOut {
          LazyStop(planes, num, thresh, wide, box + 1, maxNumOut);
          return;
        }
        MarkDead(num, isDead, planes, thresh, wide, box, kept);
        kept := kept + [box];
      }
    }
  }

  lemma NothingKept(base: int, planes: seq<real>, num: nat, thresh: real, wide: bool)
    ensures Lazy(planes, num, thresh, wide, 0) == [] && Shifted(base, []) == []
  {
  }
}
