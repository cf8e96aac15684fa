/** The global cut of the detection-output layer: when the classes of an image keep more detections than allowed,
    the per-class lists are rewritten in place from the best detections over all classes. */
module KeepTopK {
  import opened ClassLists
  import opened Nonlinear
  import opened Ranking

  datatype Entry = Entry(score: real, cls: nat, idx: nat)

  /** SortScorePairDescend. It leaves the order of equal scores open. */
  function ByScore(): (Entry, Entry) -> bool {
    (a: Entry, b: Entry) => a.score > b.score
  }

  /** The confidence of prior box idx in group g. */
  function Score(conf: seq<real>, priors: nat, g: nat, idx: nat): real {
    MulMono(0, g, priors);
    if g * priors + idx < |conf| then conf[g * priors + idx] else 0.0
  }

  function Tagged(conf: seq<real>, priors: nat, lo: nat, c: nat, list: seq<nat>): seq<Entry> {
    seq(|list|, i requires 0 <= i < |list| => Entry(Score(conf, priors, lo + c, list[i]), c, list[i]))
  }

  /** All detections of the image, class by class. */
  function Entries(conf: seq<real>, priors: nat, lo: nat, lists: seq<seq<nat>>): seq<Entry> {
    if lists == [] then []
    else
      var c := |lists| - 1;
      Entries(conf, priors, lo, lists[..c]) + Tagged(conf, priors, lo, c, lists[c])
  }

  /** The indices that a list of detections gives to class c, in order. */
  function ByClass(s: seq<Entry>, c: nat): seq<nat> {
    if s == [] then []
    else ByClass(s[..|s| - 1], c) + if s[|s| - 1].cls == c then [s[|s| - 1].idx] else []
  }

  /** The lists that dealing s out to the classes makes. */
  function Deals(s: seq<Entry>, classes: nat): (ls: seq<seq<nat>>)
    ensures |ls| == classes && forall c :: 0 <= c < classes ==> ls[c] == ByClass(s, c)
  {
    seq(classes, c requires 0 <= c < classes => ByClass(s, c))
  }

  lemma {:induction false} ByClassConcat(s: seq<Entry>, t: seq<Entry>, c: nat)
    ensures ByClass(s + t, c) == ByClass(s, c) + ByClass(t, c)
  {
    if t == [] {
      assert s + t == s;
    } else {
      assert (s + t)[..|s + t| - 1] == s + t[..|t| - 1];
      ByClassConcat(s, t[..|t| - 1], c);
    }
  }

  lemma {:induction false} ByClassOfTagged(conf: seq<real>, priors: nat, lo: nat, d: nat, list: seq<nat>, c: nat)
    ensures ByClass(Tagged(conf, priors, lo, d, list), c) == if c == d then list else []
  {
    if list != [] {
      var m := |list| - 1;
      assert Tagged(conf, priors, lo, d, list)[..m] == Tagged(conf, priors, lo, d, list[..m]);
      ByClassOfTagged(conf, priors, lo, d, list[..m], c);
      assert list == list[..m] + [list[m]];
    }
  }

  /** Dealing all detections out again makes the lists they came from. */
  lemma {:induction false} ByClassOfEntries(conf: seq<real>, priors: nat, lo: nat, lists: seq<seq<nat>>, c: nat)
    ensures ByClass(Entries(conf, priors, lo, lists), c) == if c < |lists| then lists[c] else []
  {
    hide Tagged;
    if lists != [] {
      var d := |lists| - 1;
      ByClassOfEntries(conf, priors, lo, lists[..d], c);
      ByClassConcat(Entries(conf, priors, lo, lists[..d]), Tagged(conf, priors, lo, d, lists[d]), c);
      ByClassOfTagged(conf, priors, lo, d, lists[d], c);
    }
  }

  /** Reordering the detections only reorders the list of each class. */
  lemma {:induction false} ByClassPermutes(s: seq<Entry>, t: seq<Entry>, c: nat)
    requires multiset(s) == multiset(t)
    ensures multiset(ByClass(s, c)) == multiset(ByClass(t, c))
    decreases |s|
  {
    SameLength(s, t);
    if s != [] {
      var m := |s| - 1;
      var e := s[m];
      assert e in multiset(t);
      var a :| 0 <= a < |t| && t[a] == e;
      OneRemoved(s, t, a);
      ByClassPermutes(s[..m], t[..a] + t[a + 1..], c);
      assert s == s[..m] + [e];
      ByClassConcat(s[..m], [e], c);
      ByClassRemoved(t, a, c);
    }
  }

  lemma OneRemoved(s: seq<Entry>, t: seq<Entry>, a: nat)
    requires s != [] && a < |t| && t[a] == s[|s| - 1] && multiset(s) == multiset(t)
    ensures multiset(s[..|s| - 1]) == multiset(t[..a] + t[a + 1..])
  {
    var e, lo, hi := t[a], t[..a], t[a + 1..];
    assert s == s[..|s| - 1] + [e];
    assert multiset(s) == multiset(s[..|s| - 1]) + multiset{e};
    assert t == lo + [e] + hi;
    assert multiset(t) == multiset(lo) + multiset{e} + multiset(hi);
    assert multiset(lo + hi) == multiset(lo) + multiset(hi);
    CancelOne(multiset(s[..|s| - 1]), multiset(lo + hi), e);
  }

  lemma CancelOne<T>(a: multiset<T>, b: multiset<T>, e: T)
    requires a + multiset{e} == b + multiset{e}
    ensures a == b
  {
    assert a == (a + multiset{e}) - multiset{e};
    assert b == (b + multiset{e}) - multiset{e};
  }

  lemma ByClassRemoved(t: seq<Entry>, a: nat, c: nat)
    requires a < |t|
    ensures multiset(ByClass(t, c)) == multiset(ByClass(t[..a] + t[a + 1..], c)) + multiset(ByClass([t[a]], c))
  {
    assert t == t[..a] + ([t[a]] + t[a + 1..]);
    ByClassConcat(t[..a], [t[a]] + t[a + 1..], c);
    ByClassConcat([t[a]], t[a + 1..], c);
    ByClassConcat(t[..a], t[a + 1..], c);
  }

  // ---- what the cut leaves ----

  ghost predicate Descending(conf: seq<real>, priors: nat, g: nat, l: seq<nat>) {
    forall a, b :: 0 <= a < b < |l| ==> Score(conf, priors, g, l[a]) >= Score(conf, priors, g, l[b])
  }

  /** What class c has lost. */
  ghost function Dropped(was: seq<seq<nat>>, now: seq<seq<nat>>, c: nat): multiset<nat>
    requires c < |was| && c < |now|
  {
    multiset(was[c]) - multiset(now[c])
  }

  /** No detection that some class has lost scores higher than one that some class has left. */
  ghost predicate LostNoBetter(conf: seq<real>, priors: nat, lo: nat, was: seq<seq<nat>>, now: seq<seq<nat>>)
    requires |was| == |now|
  {
    forall c, e, i, j :: 0 <= c < |now| && 0 <= e < |now| && i in now[c] && j in Dropped(was, now, e) ==>
      Score(conf, priors, lo + e, j) <= Score(conf, priors, lo + c, i)
  }

  /** The k best detections: so many in all, every class keeping some of its own, in descending order, and none of
      the others better than any of these. */
  ghost predicate Best(conf: seq<real>, priors: nat, lo: nat, was: seq<seq<nat>>, now: seq<seq<nat>>, k: nat) {
    && |now| == |was| && Lengths(now) == k
    && (forall c :: 0 <= c < |now| ==> multiset(now[c]) <= multiset(was[c]))
    && (forall c :: 0 <= c < |now| ==> Descending(conf, priors, lo + c, now[c]))
    && LostNoBetter(conf, priors, lo, was, now)
  }

  /** Kept and lost together are what each class had. */
  lemma CutFromOld(conf: seq<real>, priors: nat, lo: nat, lists: seq<seq<nat>>, ranked: seq<Entry>, k: nat, c: nat)
    requires c < |lists| && k <= |ranked| && multiset(ranked) == multiset(Entries(conf, priors, lo, lists))
    ensures multiset(ByClass(ranked[..k], c)) + multiset(ByClass(ranked[k..], c)) == multiset(lists[c])
    ensures |ByClass(ranked[..k], c)| <= |lists[c]|
  {
    var all := Entries(conf, priors, lo, lists);
    ByClassPermutes(ranked, all, c);
    ByClassOfEntries(conf, priors, lo, lists, c);
    assert ranked == ranked[..k] + ranked[k..];
    ByClassConcat(ranked[..k], ranked[k..], c);
    assert |multiset(ByClass(ranked[..k], c))| <= |multiset(lists[c])|;
  }

  /** Every entry carries the score of its index and the label of a class. */
  ghost predicate Scored(conf: seq<real>, priors: nat, lo: nat, s: seq<Entry>, classes: nat) {
    forall i :: 0 <= i < |s| ==> s[i].cls < classes && s[i].score == Score(conf, priors, lo + s[i].cls, s[i].idx)
  }

  lemma {:induction false} EntriesScored(conf: seq<real>, priors: nat, lo: nat, lists: seq<seq<nat>>)
    ensures Scored(conf, priors, lo, Entries(conf, priors, lo, lists), |lists|)
    ensures |Entries(conf, priors, lo, lists)| == Lengths(lists)
  {
    hide Score;
    if lists != [] {
      EntriesScored(conf, priors, lo, lists[..|lists| - 1]);
    }
  }

  lemma RankedScored(conf: seq<real>, priors: nat, lo: nat, lists: seq<seq<nat>>, ranked: seq<Entry>)
    requires multiset(ranked) == multiset(Entries(conf, priors, lo, lists))
    ensures Scored(conf, priors, lo, ranked, |lists|) && |ranked| == Lengths(lists)
  {
    var all := Entries(conf, priors, lo, lists);
    EntriesScored(conf, priors, lo, lists);
    SameLength(ranked, all);
    hide Score, Entries;
    forall i | 0 <= i < |ranked|
      ensures ranked[i].cls < |lists| && ranked[i].score == Score(conf, priors, lo + ranked[i].cls, ranked[i].idx)
    {
      assert ranked[i] in multiset(all);
    }
  }

  ghost predicate AllAtLeast(conf: seq<real>, priors: nat, g: nat, l: seq<nat>, bound: real) {
    forall a :: 0 <= a < |l| ==> Score(conf, priors, g, l[a]) >= bound
  }

  lemma {:induction false} ListSorted(conf: seq<real>, priors: nat, lo: nat, s: seq<Entry>, classes: nat, c: nat)
    requires Sorted(ByScore(), s) && Scored(conf, priors, lo, s, classes)
    ensures Descending(conf, priors, lo + c, ByClass(s, c))
    ensures s != [] ==> AllAtLeast(conf, priors, lo + c, ByClass(s, c), s[|s| - 1].score)
  {
    hide Score;
    if s != [] {
      var m := |s| - 1;
      var p := ByClass(s[..m], c);
      ListSorted(conf, priors, lo, s[..m], classes, c);
      if m > 0 {
        assert !ByScore()(s[m], s[m - 1]);
        assert s[..m][m - 1] == s[m - 1];
      }
      assert AllAtLeast(conf, priors, lo + c, p, s[m].score);
      assert ByClass(s, c) == p || ByClass(s, c) == p + [s[m].idx];
    }
  }

  /** An index dealt to a class comes from an entry with its label. */
  lemma {:induction false} PlaceOf(s: seq<Entry>, c: nat, x: nat) returns (p: nat)
    requires x in ByClass(s, c)
    ensures p < |s| && s[p].cls == c && s[p].idx == x
  {
    var m := |s| - 1;
    if s[m].cls == c && s[m].idx == x {
      p := m;
    } else {
      p := PlaceOf(s[..m], c, x);
    }
  }

  /** What is dealt from the back of a ranking scores no higher than what is dealt from its front. */
  lemma BackNoBetter(conf: seq<real>, priors: nat, lo: nat, ranked: seq<Entry>, classes: nat, k: nat, c: nat, e: nat,
          i: nat, j: nat)
    requires Sorted(ByScore(), ranked) && Scored(conf, priors, lo, ranked, classes) && k <= |ranked|
    requires i in ByClass(ranked[..k], c) && j in ByClass(ranked[k..], e)
    ensures Score(conf, priors, lo + e, j) <= Score(conf, priors, lo + c, i)
  {
    hide Score;
    var a := PlaceOf(ranked[..k], c, i);
    var b := PlaceOf(ranked[k..], e, j);
    assert ranked[..k][a] == ranked[a] && ranked[k..][b] == ranked[k + b];
    assert !ByScore()(ranked[k + b], ranked[a]);
  }

  /** The first k entries of any ranking of the detections, dealt out, are the k best. */
  lemma CutIsBest(conf: seq<real>, priors: nat, lo: nat, was: seq<seq<nat>>, ranked: seq<Entry>, k: nat)
    requires SortOf(ByScore(), ranked, Entries(conf, priors, lo, was)) && k <= |ranked|
    ensures Best(conf, priors, lo, was, Deals(ranked[..k], |was|), k)
  {
    hide Score, Entries, ByClass;
    var now := Deals(ranked[..k], |was|);
    RankedScored(conf, priors, lo, was, ranked);
    CutTotal(ranked[..k], |was|);
    forall c | 0 <= c < |was|
      ensures multiset(now[c]) <= multiset(was[c]) && Descending(conf, priors, lo + c, now[c])
    {
      CutFromOld(conf, priors, lo, was, ranked, k, c);
      ListSorted(conf, priors, lo, ranked[..k], |was|, c);
    }
    forall c, e, i, j | 0 <= c < |now| && 0 <= e < |now| && i in now[c] && j in Dropped(was, now, e)
      ensures Score(conf, priors, lo + e, j) <= Score(conf, priors, lo + c, i)
    {
      CutFromOld(conf, priors, lo, was, ranked, k, e);
      assert j in multiset(ByClass(ranked[k..], e));
      BackNoBetter(conf, priors, lo, ranked, |was|, k, c, e, i, j);
    }
  }

  /** As many detections are left as are dealt. */
  lemma {:induction false} CutTotal(s: seq<Entry>, classes: nat)
    requires forall i :: 0 <= i < |s| ==> s[i].cls < classes
    ensures Lengths(Deals(s, classes)) == |s|
  {
    if s == [] {
      NothingDealt(classes);
    } else {
      var m := |s| - 1;
      CutTotal(s[..m], classes);
      OneLonger(Deals(s[..m], classes), Deals(s, classes), s[m].cls);
    }
  }

  lemma {:induction false} NothingDealt(classes: nat)
    ensures Lengths(Deals([], classes)) == 0
  {
    if classes > 0 {
      NothingDealt(classes - 1);
      assert Deals([], classes)[..classes - 1] == Deals([], classes - 1);
    }
  }

  lemma {:induction false} OneLonger(a: seq<seq<nat>>, b: seq<seq<nat>>, c: nat)
    requires |a| == |b| && c < |a| && |b[c]| == |a[c]| + 1
    requires forall d :: 0 <= d < |a| && d != c ==> |b[d]| == |a[d]|
    ensures Lengths(b) == Lengths(a) + 1
  {
    var m := |a| - 1;
    if c == m {
      SameLengths(a[..m], b[..m]);
    } else {
      OneLonger(a[..m], b[..m], c);
    }
  }

  lemma {:induction false} SameLengths(a: seq<seq<nat>>, b: seq<seq<nat>>)
    requires |a| == |b| && forall d :: 0 <= d < |a| ==> |b[d]| == |a[d]|
    ensures Lengths(b) == Lengths(a)
  {
    if a != [] {
      SameLengths(a[..|a| - 1], b[..|b| - 1]);
    }
  }

  // ---- the loops ----

  /** Adds up the detections of the classes. */
  method CountAll(lo: nat, classes: nat, counts: array<nat>) returns (total: nat)
    requires lo + classes <= counts.Length
    ensures total == CountSum(counts[..], lo, classes)
  {
    total := 0;
    for c := 0 to classes
      invariant total == CountSum(counts[..], lo, c)
    {
      total := total + counts[lo + c];
    }
  }

  lemma ScoreAt(conf: seq<real>, groups: nat, priors: nat, g: nat, idx: nat)
    requires g < groups && idx < priors && groups * priors <= |conf|
    ensures 0 <= g * priors && g * priors + idx < |conf| && Score(conf, priors, g, idx) == conf[g * priors + idx]
  {
    Stretch(groups, priors, g);
  }

  /** Gathers all detections of the image into one vector. */
  method Gather(conf: seq<real>, groups: nat, priors: nat, lo: nat, classes: nat, indices: array<nat>,
          counts: array<nat>)
    returns (all: seq<Entry>)
    requires Shape(indices[..], counts[..], groups, priors) && lo + classes <= groups && |conf| >= groups * priors
    requires Below(Lists(indices[..], counts[..], groups, priors, lo, classes), priors)
    ensures all == Entries(conf, priors, lo, Lists(indices[..], counts[..], groups, priors, lo, classes))
  {
    hide Entries, Score, List, Shape;
    ghost var lists := Lists(indices[..], counts[..], groups, priors, lo, classes);
    all := [];
    NoEntries(conf, priors, lo);
    for c := 0 to classes
      invariant all == Entries(conf, priors, lo, lists[..c])
    {
      assert [lists[c]][0] == lists[c];
      var more := GatherClass(conf, groups, priors, lo, c, indices, counts);
      EntriesMore(conf, priors, lo, lists[..c], lists[c]);
      assert lists[..c + 1] == lists[..c] + [lists[c]];
      all := all + more;
    }
    assert lists[..classes] == lists;
  }

  lemma NoEntries(conf: seq<real>, priors: nat, lo: nat)
    ensures Entries(conf, priors, lo, []) == []
  {
  }

  lemma EntriesMore(conf: seq<real>, priors: nat, lo: nat, lists: seq<seq<nat>>, list: seq<nat>)
    ensures Entries(conf, priors, lo, lists + [list])
            == Entries(conf, priors, lo, lists) + Tagged(conf, priors, lo, |lists|, list)
  {
    assert (lists + [list])[..|lists|] == lists;
  }

  method GatherClass(conf: seq<real>, groups: nat, priors: nat, lo: nat, c: nat, indices: array<nat>,
          counts: array<nat>)
    returns (all: seq<Entry>)
    requires Shape(indices[..], counts[..], groups, priors) && lo + c < groups && |conf| >= groups * priors
    requires Below([List(indices[..], counts[..], groups, priors, lo + c)], priors)
    ensures all == Tagged(conf, priors, lo, c, List(indices[..], counts[..], groups, priors, lo + c))
  {
    hide Score, List;
    ghost var list := List(indices[..], counts[..], groups, priors, lo + c);
    var g := lo + c;
    all := [];
    for i := 0 to counts[g]
      invariant all == Tagged(conf, priors, lo, c, list[..i])
    {
      ListAt(indices[..], counts[..], groups, priors, g, i);
      assert [list][0][i] < priors;
      var idx := indices[g * priors + i];
      ScoreAt(conf, groups, priors, g, idx);
      assert list[..i + 1] == list[..i] + [idx];
      all := all + [Entry(conf[g * priors + idx], c, idx)];
    }
    assert list[..counts[g]] == list;
  }

  /** std::sort by score: some ranking, with equal scores in any order. */
  method SortByScore(all: seq<Entry>) returns (ranked: seq<Entry>)
    ensures SortOf(ByScore(), ranked, all)
  {
    SortSorts(ByScore(), all);
    ranked := Sort(ByScore(), all);
  }

  /** The rewriting loop: clears the counts of the image and deals the first keepTopK detections out again. */
  method Deal(groups: nat, priors: nat, lo: nat, classes: nat, indices: array<nat>, counts: array<nat>,
          ranked: seq<Entry>, keepTopK: nat)
    requires indices != counts && Shape(indices[..], counts[..], groups, priors) && lo + classes <= groups
    requires keepTopK <= |ranked| && forall i :: 0 <= i < |ranked| ==> ranked[i].cls < classes
    requires forall c :: 0 <= c < classes ==> |ByClass(ranked[..keepTopK], c)| <= priors
    modifies indices, counts
    ensures Shape(indices[..], counts[..], groups, priors)
    ensures Lists(indices[..], counts[..], groups, priors, lo, classes) == Deals(ranked[..keepTopK], classes)
    ensures Only(old(indices[..]), old(counts[..]), indices[..], counts[..], priors, lo, classes)
  {
    hide *;
    ClearCounts(groups, priors, lo, classes, indices, counts);
    for j := 0 to keepTopK
      invariant Shape(indices[..], counts[..], groups, priors)
      invariant Lists(indices[..], counts[..], groups, priors, lo, classes) == Deals(ranked[..j], classes)
      invariant Only(old(indices[..]), old(counts[..]), indices[..], counts[..], priors, lo, classes)
    {
      ghost var was, wasCounts := indices[..], counts[..];
      DealRoom(ranked, keepTopK, j, priors);
      assert ranked[..j + 1] == ranked[..j] + [ranked[j]];
      DealOne(groups, priors, lo, classes, indices, counts, ranked[..j], ranked[j]);
      OnlyTrans(old(indices[..]), old(counts[..]), was, wasCounts, indices[..], counts[..], priors, lo, classes);
    }
  }

  method ClearCounts(groups: nat, priors: nat, lo: nat, classes: nat, indices: array<nat>, counts: array<nat>)
    requires indices != counts && Shape(indices[..], counts[..], groups, priors) && lo + classes <= groups
    modifies counts
    ensures Shape(indices[..], counts[..], groups, priors)
    ensures Lists(indices[..], counts[..], groups, priors, lo, classes) == Deals([], classes)
    ensures Only(indices[..], old(counts[..]), indices[..], counts[..], priors, lo, classes)
  {
    for c := 0 to classes
      invariant forall g :: lo <= g < lo + c ==> counts[g] == 0
      invariant forall g :: 0 <= g < counts.Length && !(lo <= g < lo + c) ==> counts[g] == old(counts[g])
    {
      counts[lo + c] := 0;
    }
  }

  /** One entry appended to the list of its class. */
  method DealOne(groups: nat, priors: nat, lo: nat, classes: nat, indices: array<nat>, counts: array<nat>,
                 ghost dealt: seq<Entry>, e: Entry)
    requires indices != counts && Shape(indices[..], counts[..], groups, priors) && lo + classes <= groups
    requires e.cls < classes && |ByClass(dealt, e.cls)| < priors
    requires Lists(indices[..], counts[..], groups, priors, lo, classes) == Deals(dealt, classes)
    modifies indices, counts
    ensures Shape(indices[..], counts[..], groups, priors)
    ensures Lists(indices[..], counts[..], groups, priors, lo, classes) == Deals(dealt + [e], classes)
    ensures Only(old(indices[..]), old(counts[..]), indices[..], counts[..], priors, lo, classes)
  {
    ghost var was, wasCounts := indices[..], counts[..];
    var g := lo + e.cls;
    hide ByClass, List, Only;
    assert Deals(dealt, classes)[e.cls] == List(was, wasCounts, groups, priors, g);
    Stretch(groups, priors, g);
    indices[g * priors + counts[g]] := e.idx;
    counts[g] := counts[g] + 1;
    DealtOne(was, wasCounts, groups, priors, lo, classes, dealt, e, indices[..], counts[..]);
  }

  lemma DealtOne(was: seq<nat>, wasC: seq<nat>, groups: nat, priors: nat, lo: nat, classes: nat, dealt: seq<Entry>,
          e: Entry, now: seq<nat>, nowC: seq<nat>)
    requires Shape(was, wasC, groups, priors) && lo + classes <= groups && e.cls < classes && wasC[lo + e.cls] < priors
    requires 0 <= (lo + e.cls) * priors && (lo + e.cls) * priors + wasC[lo + e.cls] < |was|
    requires now == was[(lo + e.cls) * priors + wasC[lo + e.cls] := e.idx]
             && nowC == wasC[lo + e.cls := wasC[lo + e.cls] + 1]
    requires Lists(was, wasC, groups, priors, lo, classes) == Deals(dealt, classes)
    ensures Shape(now, nowC, groups, priors)
    ensures Lists(now, nowC, groups, priors, lo, classes) == Deals(dealt + [e], classes)
    ensures Only(was, wasC, now, nowC, priors, lo, classes)
  {
    var g := lo + e.cls;
    OneGroup(was, wasC, now, nowC, priors, g, g * priors + wasC[g]);
    OnlyWider(was, wasC, now, nowC, priors, g, 1, lo, classes);
    var before, after := Lists(was, wasC, groups, priors, lo, classes), Lists(now, nowC, groups, priors, lo, classes);
    hide Only;
    forall c | 0 <= c < classes
      ensures after[c] == ByClass(dealt + [e], c)
    {
      assert (dealt + [e])[..|dealt|] == dealt;
      assert before[c] == ByClass(dealt, c);
      if c == e.cls {
        Stretch(groups, priors, g);
        assert after[c] == before[c] + [e.idx];
      } else {
        ListKept(was, wasC, now, nowC, groups, priors, g, 1, lo + c);
      }
    }
  }

  lemma OneGroup(was: seq<nat>, wasC: seq<nat>, now: seq<nat>, nowC: seq<nat>, priors: nat, g: nat, at: nat)
    requires g < |wasC| && wasC[g] < priors && at == g * priors + wasC[g] < |was|
    requires |now| == |was| && (forall t :: 0 <= t < |was| && t != at ==> now[t] == was[t])
    requires |nowC| == |wasC| && (forall h :: 0 <= h < |wasC| && h != g ==> nowC[h] == wasC[h])
    ensures Only(was, wasC, now, nowC, priors, g, 1)
  {
    MulDist(g, 1, priors);
  }

  lemma DealRoom(ranked: seq<Entry>, k: nat, j: nat, priors: nat)
    requires j < k <= |ranked| && |ByClass(ranked[..k], ranked[j].cls)| <= priors
    ensures |ByClass(ranked[..j], ranked[j].cls)| < priors
  {
    var c := ranked[j].cls;
    assert ranked[..k] == ranked[..j + 1] + ranked[j + 1..k];
    ByClassConcat(ranked[..j + 1], ranked[j + 1..k], c);
    assert ranked[..j + 1][..j] == ranked[..j];
  }

  /** The lists of an image after the cut: the best ones if there is a bound and more detections than it allows,
      and otherwise what they were. */
  ghost predicate CutDone(conf: seq<real>, priors: nat, lo: nat, was: seq<seq<nat>>, now: seq<seq<nat>>,
          keepTopK: int) {
    if 0 <= keepTopK < Lengths(was) then Best(conf, priors, lo, was, now, keepTopK) else now == was
  }

  /** The cut of the image whose groups start at lo. The lists of other images are left alone. */
  method CutImage(conf: seq<real>, groups: nat, priors: nat, lo: nat, classes: nat, indices: array<nat>,
          counts: array<nat>, keepTopK: int)
    requires indices != counts && Shape(indices[..], counts[..], groups, priors) && lo + classes <= groups
    requires |conf| >= groups * priors && Below(Lists(indices[..], counts[..], groups, priors, lo, classes), priors)
    modifies indices, counts
    ensures Shape(indices[..], counts[..], groups, priors)
    ensures CutDone(conf, priors, lo, old(Lists(indices[..], counts[..], groups, priors, lo, classes)),
                    Lists(indices[..], counts[..], groups, priors, lo, classes), keepTopK)
    ensures Only(old(indices[..]), old(counts[..]), indices[..], counts[..], priors, lo, classes)
  {
    ghost var was := Lists(indices[..], counts[..], groups, priors, lo, classes);
    hide Entries, ByClass, Best, Below, List, Only, Lengths, Scored, Sorted;
    TotalIsLengths(counts[..], lo, was);
    OnlySame(indices[..], counts[..], priors, lo, classes);
    var total := CountAll(lo, classes, counts);
    if keepTopK > -1 && total > keepTopK {
      var all := Gather(conf, groups, priors, lo, classes, indices, counts);
      var ranked := SortByScore(all);
      Ready(conf, priors, lo, was, ranked, keepTopK);
      Deal(groups, priors, lo, classes, indices, counts, ranked, keepTopK);
      CutIsBest(conf, priors, lo, was, ranked, keepTopK);
    }
  }

  lemma Ready(conf: seq<real>, priors: nat, lo: nat, was: seq<seq<nat>>, ranked: seq<Entry>, k: nat)
    requires SortOf(ByScore(), ranked, Entries(conf, priors, lo, was)) && k < Lengths(was)
    requires forall c :: 0 <= c < |was| ==> |was[c]| <= priors
    ensures k <= |ranked| && forall i :: 0 <= i < |ranked| ==> ranked[i].cls < |was|
    ensures forall c :: 0 <= c < |was| ==> |ByClass(ranked[..k], c)| <= priors
  {
    hide Entries, ByClass, Score;
    RankedScored(conf, priors, lo, was, ranked);
    forall c | 0 <= c < |was|
      ensures |ByClass(ranked[..k], c)| <= priors
    {
      CutFromOld(conf, priors, lo, was, ranked, k, c);
    }
  }
}
