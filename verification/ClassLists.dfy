/** The index buffer of the detection-output layer: one list of prior boxes per group, where group g is class
    g % classes of image g / classes. The list of group g is the first counts[g] entries of its stretch. */
module ClassLists {
  import opened Nonlinear

  ghost predicate Shape(indices: seq<nat>, counts: seq<nat>, groups: nat, priors: nat) {
    && |counts| >= groups && |indices| >= groups * priors
    && forall g :: 0 <= g < groups ==> counts[g] <= priors
  }

  lemma Stretch(groups: nat, priors: nat, g: nat)
    requires g < groups
    ensures 0 <= g * priors && g * priors + priors <= groups * priors
  {
    MulMono(g + 1, groups, priors);
    MulDist(g, 1, priors);
    MulMono(0, g, priors);
  }

  ghost function List(indices: seq<nat>, counts: seq<nat>, groups: nat, priors: nat, g: nat): (s: seq<nat>)
    requires Shape(indices, counts, groups, priors) && g < groups
    ensures |s| == counts[g]
  {
    Stretch(groups, priors, g);
    indices[g * priors..g * priors + counts[g]]
  }

  lemma ListAt(indices: seq<nat>, counts: seq<nat>, groups: nat, priors: nat, g: nat, i: nat)
    requires Shape(indices, counts, groups, priors) && g < groups && i < counts[g]
    ensures 0 <= g * priors && g * priors + i < |indices|
    ensures List(indices, counts, groups, priors, g)[i] == indices[g * priors + i]
  {
    Stretch(groups, priors, g);
  }

  /** The lists hold numbers below p only. */
  ghost predicate Below(ls: seq<seq<nat>>, p: nat) {
    forall c, i :: 0 <= c < |ls| && 0 <= i < |ls[c]| ==> ls[c][i] < p
  }

  /** Every list entry names a prior box. */
  ghost predicate Named(indices: seq<nat>, counts: seq<nat>, groups: nat, priors: nat)
    requires Shape(indices, counts, groups, priors)
  {
    forall g, i :: 0 <= g < groups && 0 <= i < counts[g] ==> List(indices, counts, groups, priors, g)[i] < priors
  }

  /** The lists of the classes of one image, whose first group is lo. */
  ghost function Lists(indices: seq<nat>, counts: seq<nat>, groups: nat, priors: nat, lo: nat,
          classes: nat): (ls: seq<seq<nat>>)
    requires Shape(indices, counts, groups, priors) && lo + classes <= groups
    ensures |ls| == classes
    ensures forall c :: 0 <= c < classes ==> ls[c] == List(indices, counts, groups, priors, lo + c)
  {
    seq(classes, c requires 0 <= c < classes => List(indices, counts, groups, priors, lo + c))
  }

  function CountSum(counts: seq<nat>, lo: nat, m: nat): nat
    requires lo + m <= |counts|
  {
    if m == 0 then 0 else CountSum(counts, lo, m - 1) + counts[lo + m - 1]
  }

  function Lengths(ls: seq<seq<nat>>): nat {
    if ls == [] then 0 else Lengths(ls[..|ls| - 1]) + |ls[|ls| - 1]|
  }

  lemma {:induction false} TotalIsLengths(counts: seq<nat>, lo: nat, ls: seq<seq<nat>>)
    requires lo + |ls| <= |counts| && forall c :: 0 <= c < |ls| ==> |ls[c]| == counts[lo + c]
    ensures CountSum(counts, lo, |ls|) == Lengths(ls)
  {
    if ls != [] {
      TotalIsLengths(counts, lo, ls[..|ls| - 1]);
    }
  }

  lemma {:induction false} TotalSplit(counts: seq<nat>, lo: nat, m: nat)
    requires lo + m <= |counts|
    ensures CountSum(counts, 0, lo + m) == CountSum(counts, 0, lo) + CountSum(counts, lo, m)
  {
    if m > 0 {
      TotalSplit(counts, lo, m - 1);
    }
  }

  lemma {:induction false} TotalMono(counts: seq<nat>, a: nat, b: nat)
    requires a <= b <= |counts|
    ensures CountSum(counts, 0, a) <= CountSum(counts, 0, b)
  {
    if a < b {
      TotalMono(counts, a, b - 1);
    }
  }

  // ---- what a step on one stretch of groups leaves alone ----

  /** Only the counts and the stretches of the groups from lo on, m of them, change. */
  ghost predicate Only(wasI: seq<nat>, wasC: seq<nat>, nowI: seq<nat>, nowC: seq<nat>, priors: nat, lo: nat, m: nat) {
    && |nowI| == |wasI| && |nowC| == |wasC|
    && (forall g :: 0 <= g < |wasC| && !(lo <= g < lo + m) ==> nowC[g] == wasC[g])
    && (forall t :: 0 <= t < |wasI| && !(lo * priors <= t < (lo + m) * priors) ==> nowI[t] == wasI[t])
  }

  lemma OnlySame(ix: seq<nat>, cs: seq<nat>, priors: nat, lo: nat, m: nat)
    ensures Only(ix, cs, ix, cs, priors, lo, m)
  {
  }

  lemma OnlyTrans(aI: seq<nat>, aC: seq<nat>, bI: seq<nat>, bC: seq<nat>, zI: seq<nat>, zC: seq<nat>, priors: nat,
          lo: nat, m: nat)
    requires Only(aI, aC, bI, bC, priors, lo, m) && Only(bI, bC, zI, zC, priors, lo, m)
    ensures Only(aI, aC, zI, zC, priors, lo, m)
  {
  }

  /** A step on fewer groups is a step on more. */
  lemma OnlyWider(wasI: seq<nat>, wasC: seq<nat>, nowI: seq<nat>, nowC: seq<nat>, priors: nat, lo: nat, m: nat,
          lo': nat, m': nat)
    requires Only(wasI, wasC, nowI, nowC, priors, lo, m) && lo' <= lo && lo + m <= lo' + m'
    ensures Only(wasI, wasC, nowI, nowC, priors, lo', m')
  {
    MulMono(lo', lo, priors);
    MulMono(lo + m, lo' + m', priors);
  }

  /** The lists of other groups stay what they were. */
  lemma ListKept(wasI: seq<nat>, wasC: seq<nat>, nowI: seq<nat>, nowC: seq<nat>, groups: nat, priors: nat, lo: nat,
          m: nat, g: nat)
    requires Only(wasI, wasC, nowI, nowC, priors, lo, m)
    requires Shape(wasI, wasC, groups, priors) && Shape(nowI, nowC, groups, priors)
    requires g < groups && !(lo <= g < lo + m)
    ensures List(nowI, nowC, groups, priors, g) == List(wasI, wasC, groups, priors, g)
  {
    Stretch(groups, priors, g);
    if g < lo {
      MulMono(g + 1, lo, priors);
    } else {
      MulMono(lo + m, g, priors);
    }
    MulDist(g, 1, priors);
    assert nowI[g * priors..g * priors + nowC[g]] == wasI[g * priors..g * priors + wasC[g]];
  }

  lemma ListsKept(wasI: seq<nat>, wasC: seq<nat>, nowI: seq<nat>, nowC: seq<nat>, groups: nat, priors: nat, lo: nat,
          m: nat, from: nat, classes: nat)
    requires Only(wasI, wasC, nowI, nowC, priors, lo, m)
    requires Shape(wasI, wasC, groups, priors) && Shape(nowI, nowC, groups, priors)
    requires from + classes <= groups && (from + classes <= lo || lo + m <= from)
    ensures Lists(nowI, nowC, groups, priors, from, classes) == Lists(wasI, wasC, groups, priors, from, classes)
  {
    hide List, Only, Shape;
    var now, was := Lists(nowI, nowC, groups, priors, from, classes), Lists(wasI, wasC, groups, priors, from, classes);
    forall c | 0 <= c < classes
      ensures now[c] == was[c]
    {
      ListKept(wasI, wasC, nowI, nowC, groups, priors, lo, m, from + c);
    }
  }
}
