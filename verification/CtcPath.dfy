/** Greedy decoding on paths: merge the repeats, then delete the blanks; and the alignments it inverts. */
module CtcPath {

  /** One entry for every maximal stretch of equal entries. */
  function Merge(path: seq<nat>): (r: seq<nat>)
    ensures |r| <= |path|
  {
    if path == [] then [] else
    var front := path[..|path| - 1];
    Merge(front) + (if front != [] && front[|front| - 1] == path[|front|] then [] else [path[|front|]])
  }

  function DropBlank(labels: seq<nat>, blank: nat): (r: seq<nat>)
    ensures |r| <= |labels| && blank !in r
  {
    if labels == [] then [] else
    var last := labels[|labels| - 1];
    DropBlank(labels[..|labels| - 1], blank) + (if last == blank then [] else [last])
  }

  function Collapse(path: seq<nat>, blank: nat): (r: seq<nat>)
    ensures |r| <= |path|
  {
    DropBlank(Merge(path), blank)
  }

  /** One more entry adds its label unless it is the blank or repeats the entry before. */
  lemma CollapseSnoc(path: seq<nat>, x: nat, blank: nat)
    ensures Collapse(path + [x], blank) == Collapse(path, blank)
                                           + (if x == blank || (path != [] && path[|path| - 1] == x) then [] else [x])
  {
    assert (path + [x])[..|path|] == path;
    var merged := Merge(path);
    if path != [] && path[|path| - 1] == x {
      assert Merge(path + [x]) == merged + [] == merged;
    } else {
      assert Merge(path + [x]) == merged + [x];
      assert (merged + [x])[..|merged|] == merged;
    }
  }

  /** A label, how often it is repeated, and how many blanks follow. */
  datatype Run = Run(symbol: nat, count: nat, blanks: nat)

  function Times(x: nat, m: nat): (r: seq<nat>)
    ensures |r| == m && forall k :: 0 <= k < m ==> r[k] == x
  {
    if m == 0 then [] else Times(x, m - 1) + [x]
  }

  function Spell(runs: seq<Run>, blank: nat): seq<nat> {
    if runs == [] then [] else
    var last := runs[|runs| - 1];
    Spell(runs[..|runs| - 1], blank) + Times(last.symbol, last.count) + Times(blank, last.blanks)
  }

  /** Every label appears, and two equal labels in a row are kept apart by a blank. */
  predicate Proper(runs: seq<Run>, blank: nat) {
    && (forall k :: 0 <= k < |runs| ==> runs[k].symbol != blank && runs[k].count > 0)
    && (forall k :: 0 < k < |runs| ==> runs[k].symbol != runs[k - 1].symbol || runs[k - 1].blanks > 0)
  }

  function Labels(runs: seq<Run>): (r: seq<nat>)
    ensures |r| == |runs|
  {
    if runs == [] then [] else Labels(runs[..|runs| - 1]) + [runs[|runs| - 1].symbol]
  }

  /** The alignments of a label sequence: its spellings, with blanks in front. */
  function Align(lead: nat, runs: seq<Run>, blank: nat): seq<nat> {
    Times(blank, lead) + Spell(runs, blank)
  }

  lemma {:induction false} CollapseTimes(path: seq<nat>, x: nat, m: nat, blank: nat)
    requires m > 0
    ensures Collapse(path + Times(x, m), blank) == Collapse(path + [x], blank)
  {
    if m == 1 {
      assert Times(x, 1) == [x];
    } else {
      var longer := path + Times(x, m - 1);
      assert path + Times(x, m) == longer + [x];
      hide Collapse, Times;
      CollapseTimes(path, x, m - 1, blank);
      CollapseSnoc(longer, x, blank);
    }
  }

  lemma CollapseBlanks(path: seq<nat>, m: nat, blank: nat)
    ensures Collapse(path + Times(blank, m), blank) == Collapse(path, blank)
  {
    if m == 0 {
      assert path + Times(blank, 0) == path;
    } else {
      CollapseTimes(path, blank, m, blank);
      CollapseSnoc(path, blank, blank);
    }
  }

  /** A stretch that may follow an alignment differs from its last entry. */
  lemma AlignEnd(lead: nat, runs: seq<Run>, r: Run, blank: nat)
    requires Proper(runs + [r], blank)
    ensures Proper(runs, blank) && r.symbol != blank && r.count > 0
    ensures var path := Align(lead, runs, blank); path == [] || path[|path| - 1] != r.symbol
  {
    var all, n := runs + [r], |runs|;
    assert all[n] == r && forall k :: 0 <= k < n ==> all[k] == runs[k];
    if n > 0 {
      assert all[n].symbol != all[n - 1].symbol || all[n - 1].blanks > 0;
    }
  }

  lemma CollapseRun(path: seq<nat>, r: Run, blank: nat)
    requires r.symbol != blank && r.count > 0 && (path == [] || path[|path| - 1] != r.symbol)
    ensures Collapse(path + Times(r.symbol, r.count) + Times(blank, r.blanks), blank)
            == Collapse(path, blank) + [r.symbol]
  {
    hide Collapse;
    CollapseSnoc(path, r.symbol, blank);
    CollapseTimes(path, r.symbol, r.count, blank);
    CollapseBlanks(path + Times(r.symbol, r.count), r.blanks, blank);
  }

  lemma AlignSnoc(lead: nat, runs: seq<Run>, r: Run, blank: nat)
    ensures Align(lead, runs + [r], blank)
            == Align(lead, runs, blank) + Times(r.symbol, r.count) + Times(blank, r.blanks)
  {
    assert (runs + [r])[..|runs|] == runs;
  }

  /** Every alignment collapses to its labels. */
  lemma {:induction false} CollapseAlign(lead: nat, runs: seq<Run>, blank: nat)
    requires Proper(runs, blank)
    ensures Collapse(Align(lead, runs, blank), blank) == Labels(runs)
  {
    if runs == [] {
      var before := Times(blank, lead);
      CollapseBlanks([], lead, blank);
      assert [] + before == before == before + [];
    } else {
      hide Collapse, Align, Proper, Times, Spell;
      var front, last := runs[..|runs| - 1], runs[|runs| - 1];
      assert runs == front + [last];
      AlignEnd(lead, front, last, blank);
      CollapseAlign(lead, front, blank);
      AlignSnoc(lead, front, last, blank);
      CollapseRun(Align(lead, front, blank), last, blank);
    }
  }

  /** Reading a path as an alignment. */
  function Read(lead: nat, runs: seq<Run>, x: nat, blank: nat): (nat, seq<Run>) {
    var n := |runs| - 1;
    if x == blank then
      if runs == [] then (lead + 1, []) else (lead, runs[n := runs[n].(blanks := runs[n].blanks + 1)])
    else if runs != [] && runs[n].symbol == x && runs[n].blanks == 0 then
      (lead, runs[n := runs[n].(count := runs[n].count + 1)])
    else
      (lead, runs + [Run(x, 1, 0)])
  }

  function Parse(path: seq<nat>, blank: nat): (nat, seq<Run>) {
    if path == [] then (0, []) else
    var (lead, runs) := Parse(path[..|path| - 1], blank);
    Read(lead, runs, path[|path| - 1], blank)
  }

  /** Lengthening the last stretch by one lengthens the alignment by one entry. */
  lemma AlignGrows(lead: nat, runs: seq<Run>, r: Run, x: nat, blank: nat)
    requires runs != [] && r.symbol == runs[|runs| - 1].symbol
    requires var last := runs[|runs| - 1];
             || (x == blank && r == last.(blanks := last.blanks + 1))
             || (x == last.symbol && r == last.(count := last.count + 1) && last.blanks == 0)
    ensures Align(lead, runs[|runs| - 1 := r], blank) == Align(lead, runs, blank) + [x]
  {
    hide Align;
    var front, last := runs[..|runs| - 1], runs[|runs| - 1];
    AlignSnoc(lead, front, r, blank);
    AlignSnoc(lead, front, last, blank);
    assert runs == front + [last] && runs[|runs| - 1 := r] == front + [r];
  }

  /** Every path is an alignment. */
  lemma {:induction false} ParseAligns(path: seq<nat>, blank: nat)
    ensures var (lead, runs) := Parse(path, blank); Proper(runs, blank) && Align(lead, runs, blank) == path
  {
    if path != [] {
      var front, x := path[..|path| - 1], path[|path| - 1];
      ParseAligns(front, blank);
      var (lead, runs) := Parse(front, blank);
      assert path == front + [x];
      ParseStep(lead, runs, x, blank);
    } else {
      assert Parse(path, blank) == (0, []);
    }
  }

  lemma ParseStep(lead: nat, runs: seq<Run>, x: nat, blank: nat)
    requires Proper(runs, blank)
    ensures var (lead', runs') := Read(lead, runs, x, blank);
            Proper(runs', blank) && Align(lead', runs', blank) == Align(lead, runs, blank) + [x]
  {
    var n := |runs| - 1;
    if x == blank && runs == [] {
      assert Align(lead + 1, [], blank) == Align(lead, [], blank) + [blank];
    } else if x == blank {
      hide Align;
      AlignGrows(lead, runs, runs[n].(blanks := runs[n].blanks + 1), x, blank);
    } else if runs != [] && runs[n].symbol == x && runs[n].blanks == 0 {
      hide Align;
      AlignGrows(lead, runs, runs[n].(count := runs[n].count + 1), x, blank);
    } else {
      hide Align;
      AlignSnoc(lead, runs, Run(x, 1, 0), blank);
      assert Times(x, 1) == [x];
    }
  }

  /** Collapsing inverts alignment: a path decodes to exactly those labels of which it is an alignment. */
  lemma CollapseIffAligned(path: seq<nat>, labels: seq<nat>, blank: nat)
    ensures Collapse(path, blank) == labels <==>
            exists lead: nat, runs: seq<Run> ::
              Proper(runs, blank) && Labels(runs) == labels && Align(lead, runs, blank) == path
  {
    ParseAligns(path, blank);
    var (lead, runs) := Parse(path, blank);
    CollapseAlign(lead, runs, blank);
    forall lead: nat, runs: seq<Run> | Proper(runs, blank) && Labels(runs) == labels && Align(lead, runs, blank) == path
      ensures Collapse(path, blank) == labels
    {
      CollapseAlign(lead, runs, blank);
    }
  }
}
