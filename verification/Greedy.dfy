/** Greedy non-maximum suppression over ranked items, independent of how overlap is measured.
    Items are ranks 0, 1, 2, ...; sup(p, i) says that a kept item p suppresses a later item i. */
module Greedy {

  type Relation = (nat, nat) -> bool
  type Filter = nat -> bool

  predicate Suppressed(sup: Relation, kept: seq<nat>, i: nat) {
    exists k :: 0 <= k < |kept| && sup(kept[k], i)
  }

  /** The ranks below n that are kept when each item in turn is tested against the items kept before it. */
  function Kept(elig: Filter, sup: Relation, n: nat): (s: seq<nat>)
    ensures |s| <= n
    ensures forall k :: 0 <= k < |s| ==> s[k] < n
  {
    if n == 0 then []
    else
      var s := Kept(elig, sup, n - 1);
      if elig(n - 1) && !Suppressed(sup, s, n - 1) then s + [n - 1] else s
  }

  /** The result of stopping as soon as max items have been kept. No bound is ever met when max is not positive. */
  function FirstOf(max: int, s: seq<nat>): seq<nat> {
    if max <= 0 || |s| <= max then s else s[..max]
  }

  predicate Increasing(s: seq<nat>) {
    forall a, b :: 0 <= a < b < |s| ==> s[a] < s[b]
  }

  /** A rank below n is in s exactly when it is eligible and no lower rank in s suppresses it. */
  ghost predicate Solution(elig: Filter, sup: Relation, n: nat, s: seq<nat>) {
    && Increasing(s)
    && (forall k :: 0 <= k < |s| ==> s[k] < n)
    && (forall i: nat :: i < n ==> (i in s <==> elig(i) && !SuppressedBelow(sup, s, i)))
  }

  ghost predicate SuppressedBelow(sup: Relation, s: seq<nat>, i: nat) {
    exists k :: 0 <= k < |s| && s[k] < i && sup(s[k], i)
  }

  lemma {:induction false} KeptSolves(elig: Filter, sup: Relation, n: nat)
    ensures Solution(elig, sup, n, Kept(elig, sup, n))
  {
    if n > 0 {
      KeptSolves(elig, sup, n - 1);
      var s, t := Kept(elig, sup, n - 1), Kept(elig, sup, n);
      forall i: nat | i < n
        ensures i in t <==> elig(i) && !SuppressedBelow(sup, t, i)
      {
        if i < n - 1 {
          LaterChangesNothing(sup, s, t, i, n - 1);
        } else {
          assert Suppressed(sup, s, i) <==> SuppressedBelow(sup, t, i) by {
            LastTested(sup, s, t, i);
          }
        }
      }
    }
  }

  lemma LaterChangesNothing(sup: Relation, s: seq<nat>, t: seq<nat>, i: nat, last: nat)
    requires i < last && (t == s || t == s + [last])
    ensures SuppressedBelow(sup, t, i) <==> SuppressedBelow(sup, s, i)
    ensures i in t <==> i in s
  {
    if SuppressedBelow(sup, s, i) {
      var k :| 0 <= k < |s| && s[k] < i && sup(s[k], i);
      assert t[k] == s[k];
    }
  }

  lemma LastTested(sup: Relation, s: seq<nat>, t: seq<nat>, last: nat)
    requires (forall k :: 0 <= k < |s| ==> s[k] < last) && (t == s || t == s + [last])
    ensures Suppressed(sup, s, last) <==> SuppressedBelow(sup, t, last)
  {
    if Suppressed(sup, s, last) {
      var k :| 0 <= k < |s| && sup(s[k], last);
      assert t[k] == s[k];
    }
  }

  /** There is only one solution, so any way of computing one computes the greedy one. */
  lemma SolutionUnique(elig: Filter, sup: Relation, n: nat, s: seq<nat>, t: seq<nat>)
    requires Solution(elig, sup, n, s) && Solution(elig, sup, n, t)
    ensures s == t
  {
    forall i: nat | i < n
      ensures i in s <==> i in t
    {
      SameMembers(elig, sup, n, s, t, i);
    }
    IncreasingDetermined(s, t);
  }

  lemma SameMembers(elig: Filter, sup: Relation, n: nat, s: seq<nat>, t: seq<nat>, i: nat)
    requires Solution(elig, sup, n, s) && Solution(elig, sup, n, t) && i < n
    ensures i in s <==> i in t
    decreases i
  {
    forall j: nat | j < i
      ensures j in s <==> j in t
    {
      SameMembers(elig, sup, n, s, t, j);
    }
    if SuppressedBelow(sup, s, i) {
      var k :| 0 <= k < |s| && s[k] < i && sup(s[k], i);
      assert s[k] in t;
      var m :| 0 <= m < |t| && t[m] == s[k];
    }
    if SuppressedBelow(sup, t, i) {
      var k :| 0 <= k < |t| && t[k] < i && sup(t[k], i);
      assert t[k] in s;
      var m :| 0 <= m < |s| && s[m] == t[k];
    }
  }

  /** An increasing sequence is determined by its members. */
  lemma {:induction false} IncreasingDetermined(s: seq<nat>, t: seq<nat>)
    requires Increasing(s) && Increasing(t)
    requires forall i: nat :: i in s <==> i in t
    ensures s == t
  {
    assert s != [] ==> s[0] in t;
    assert t != [] ==> t[0] in s;
    if s != [] {
      var a, b := |s| - 1, |t| - 1;
      assert s[a] in t && t[b] in s;
      assert s[a] == t[b];
      forall i: nat
        ensures i in s[..a] <==> i in t[..b]
      {
        Front(s, i);
        Front(t, i);
      }
      IncreasingDetermined(s[..a], t[..b]);
      assert s == s[..a] + [s[a]] && t == t[..b] + [t[b]];
    }
  }

  lemma Front(s: seq<nat>, i: nat)
    requires Increasing(s) && s != []
    ensures i in s[..|s| - 1] <==> i in s && i != s[|s| - 1]
  {
    if i in s && i != s[|s| - 1] {
      var k :| 0 <= k < |s| && s[k] == i;
      assert s[..|s| - 1][k] == i;
    }
  }

  /** Items ranked later never change what was kept before. */
  lemma {:induction false} KeptPrefix(elig: Filter, sup: Relation, m: nat, n: nat)
    requires m <= n
    ensures Kept(elig, sup, m) <= Kept(elig, sup, n)
    decreases n
  {
    if m < n {
      KeptPrefix(elig, sup, m, n - 1);
    }
  }

  /** Stopping with max items kept gives the first max of what the full pass keeps. */
  lemma StopEarly(elig: Filter, sup: Relation, m: nat, n: nat, max: int)
    requires m <= n && max > 0 && |Kept(elig, sup, m)| == max
    ensures Kept(elig, sup, m) == FirstOf(max, Kept(elig, sup, n))
  {
    KeptPrefix(elig, sup, m, n);
  }

  /** Relations and filters that agree on the ranks in play keep the same items. */
  lemma {:induction false} KeptCongruence(e1: Filter, s1: Relation, e2: Filter, s2: Relation, n: nat)
    requires forall i: nat :: i < n ==> e1(i) == e2(i)
    requires forall p: nat, i: nat :: p < i < n ==> s1(p, i) == s2(p, i)
    ensures Kept(e1, s1, n) == Kept(e2, s2, n)
  {
    if n > 0 {
      KeptCongruence(e1, s1, e2, s2, n - 1);
      var s := Kept(e1, s1, n - 1);
      assert Suppressed(s1, s, n - 1) == Suppressed(s2, s, n - 1) by {
        if Suppressed(s1, s, n - 1) {
          var k :| 0 <= k < |s| && s1(s[k], n - 1);
          assert s2(s[k], n - 1);
        }
        if Suppressed(s2, s, n - 1) {
          var k :| 0 <= k < |s| && s2(s[k], n - 1);
          assert s1(s[k], n - 1);
        }
      }
    }
  }
}
