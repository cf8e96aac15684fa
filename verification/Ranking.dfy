/** Sorting by a comparator, as the standard library's sorts promise it: a permutation in which nothing stands
    before something that the comparator puts first. */
module Ranking {

  ghost predicate StrictWeak<T(!new)>(before: (T, T) -> bool) {
    && (forall a, b :: before(a, b) ==> !before(b, a))
    && (forall a, b, c :: before(a, b) && before(b, c) ==> before(a, c))
    && (forall a, b, c :: !before(a, b) && !before(b, c) ==> !before(a, c))
  }

  ghost predicate Total<T(!new)>(before: (T, T) -> bool) {
    forall a, b :: a == b || before(a, b) || before(b, a)
  }

  ghost predicate Sorted<T>(before: (T, T) -> bool, s: seq<T>) {
    forall a, b :: 0 <= a < b < |s| ==> !before(s[b], s[a])
  }

  /** s is a result that a sort of t may give. */
  ghost predicate SortOf<T>(before: (T, T) -> bool, s: seq<T>, t: seq<T>) {
    Sorted(before, s) && multiset(s) == multiset(t)
  }

  function Insert<T>(before: (T, T) -> bool, x: T, s: seq<T>): seq<T> {
    if s == [] then [x]
    else if before(s[0], x) then [s[0]] + Insert(before, x, s[1..])
    else [x] + s
  }

  function Sort<T>(before: (T, T) -> bool, s: seq<T>): (r: seq<T>) {
    if s == [] then [] else Insert(before, s[0], Sort(before, s[1..]))
  }

  lemma {:induction false} InsertPermutes<T>(before: (T, T) -> bool, x: T, s: seq<T>)
    ensures multiset(Insert(before, x, s)) == multiset(s) + multiset{x}
  {
    if s != [] {
      assert s == [s[0]] + s[1..];
      InsertPermutes(before, x, s[1..]);
    }
  }

  lemma {:induction false} InsertSorts<T(!new)>(before: (T, T) -> bool, x: T, s: seq<T>)
    requires StrictWeak(before) && Sorted(before, s)
    ensures Sorted(before, Insert(before, x, s))
  {
    if s != [] {
      if before(s[0], x) {
        var t := Insert(before, x, s[1..]);
        InsertSorts(before, x, s[1..]);
        InsertPermutes(before, x, s[1..]);
        forall b | 0 <= b < |t|
          ensures !before(t[b], s[0])
        {
          assert t[b] in multiset(t);
          assert t[b] == x || t[b] in s[1..];
        }
      } else {
        forall b | 0 <= b < |s|
          ensures !before(s[b], x)
        {
          assert b == 0 || !before(s[b], s[0]);
        }
      }
    }
  }

  lemma {:induction false} SortSorts<T(!new)>(before: (T, T) -> bool, s: seq<T>)
    requires StrictWeak(before)
    ensures SortOf(before, Sort(before, s), s)
  {
    if s != [] {
      SortSorts(before, s[1..]);
      InsertSorts(before, s[0], Sort(before, s[1..]));
      InsertPermutes(before, s[0], Sort(before, s[1..]));
      assert s == [s[0]] + s[1..];
    }
  }

  /** The comparator tells any two different elements of s apart. */
  ghost predicate TotalOn<T>(before: (T, T) -> bool, s: seq<T>) {
    forall a, b :: 0 <= a < |s| && 0 <= b < |s| ==> s[a] == s[b] || before(s[a], s[b]) || before(s[b], s[a])
  }

  /** Under a comparator that is total on the elements there is only one sorted permutation, so every sort gives the
      same result. */
  lemma {:induction false} SortUnique<T(!new)>(before: (T, T) -> bool, s: seq<T>, t: seq<T>)
    requires StrictWeak(before) && TotalOn(before, s)
    requires Sorted(before, s) && Sorted(before, t) && multiset(s) == multiset(t)
    ensures s == t
  {
    hide StrictWeak, Sorted;
    SameLength(s, t);
    if s != [] {
      FirstAgree(before, s, t);
      Tails(before, s, t);
      assert TotalOn(before, s[1..]);
      SortUnique(before, s[1..], t[1..]);
    }
  }

  lemma Tails<T(!new)>(before: (T, T) -> bool, s: seq<T>, t: seq<T>)
    requires s != [] && t != [] && s[0] == t[0]
    requires Sorted(before, s) && Sorted(before, t) && multiset(s) == multiset(t)
    ensures Sorted(before, s[1..]) && Sorted(before, t[1..]) && multiset(s[1..]) == multiset(t[1..])
    ensures s == [s[0]] + s[1..] && t == [t[0]] + t[1..]
  {
    assert s == [s[0]] + s[1..] && t == [t[0]] + t[1..];
    assert multiset(s[1..]) == multiset(s) - multiset{s[0]};
    assert multiset(t[1..]) == multiset(t) - multiset{t[0]};
  }

  lemma FirstAgree<T(!new)>(before: (T, T) -> bool, s: seq<T>, t: seq<T>)
    requires TotalOn(before, s) && Sorted(before, s) && Sorted(before, t) && multiset(s) == multiset(t)
    requires s != [] && t != []
    ensures s[0] == t[0]
  {
    assert s[0] in multiset(t) && t[0] in multiset(s);
    var a :| 0 <= a < |t| && t[a] == s[0];
    var b :| 0 <= b < |s| && s[b] == t[0];
    assert a == 0 || !before(t[a], t[0]);
    assert b == 0 || !before(s[b], s[0]);
  }

  /** r is a result that a partial sort of t may give: its n foremost elements, in order. */
  ghost predicate Foremost<T(!new)>(before: (T, T) -> bool, r: seq<T>, t: seq<T>, n: nat) {
    && |r| == n && Sorted(before, r)
    && exists rest: seq<T> :: multiset(r + rest) == multiset(t) && NoneBefore(before, rest, r)
  }

  ghost predicate NoneBefore<T>(before: (T, T) -> bool, rest: seq<T>, r: seq<T>) {
    forall a, b :: 0 <= a < |r| && 0 <= b < |rest| ==> !before(rest[b], r[a])
  }

  lemma SortForemost<T(!new)>(before: (T, T) -> bool, t: seq<T>, n: nat)
    requires StrictWeak(before) && n <= |t|
    ensures n <= |Sort(before, t)| && Foremost(before, Sort(before, t)[..n], t, n)
  {
    hide StrictWeak;
    var s := Sort(before, t);
    SortSorts(before, t);
    SameLength(s, t);
    assert s == s[..n] + s[n..];
    assert NoneBefore(before, s[n..], s[..n]);
  }

  /** A partial sort under a comparator that is total on the elements has one result, the front of the whole sort. */
  lemma ForemostUnique<T(!new)>(before: (T, T) -> bool, r: seq<T>, t: seq<T>, n: nat)
    requires StrictWeak(before) && TotalOn(before, t) && Foremost(before, r, t, n)
    ensures n <= |Sort(before, t)| && r == Sort(before, t)[..n]
  {
    var rest :| multiset(r + rest) == multiset(t) && NoneBefore(before, rest, r);
    var tail, s := Sort(before, rest), Sort(before, t);
    SortSorts(before, rest);
    SortSorts(before, t);
    hide StrictWeak, Sort;
    Glued(before, r, rest, tail);
    SamePermutation(r, rest, tail);
    TotalPermuted(before, t, r + tail);
    SortUnique(before, r + tail, s);
  }

  lemma SamePermutation<T>(r: seq<T>, rest: seq<T>, tail: seq<T>)
    requires multiset(tail) == multiset(rest)
    ensures multiset(r + tail) == multiset(r + rest)
  {
    assert multiset(r + tail) == multiset(r) + multiset(tail);
    assert multiset(r + rest) == multiset(r) + multiset(rest);
  }

  lemma Glued<T>(before: (T, T) -> bool, r: seq<T>, rest: seq<T>, tail: seq<T>)
    requires Sorted(before, r) && Sorted(before, tail) && NoneBefore(before, rest, r)
             && multiset(tail) == multiset(rest)
    ensures Sorted(before, r + tail)
  {
    forall b | 0 <= b < |tail| ensures exists k :: 0 <= k < |rest| && rest[k] == tail[b] {
      assert tail[b] in multiset(tail);
      assert tail[b] in multiset(rest);
    }
  }

  lemma TotalPermuted<T>(before: (T, T) -> bool, s: seq<T>, t: seq<T>)
    requires TotalOn(before, s) && multiset(s) == multiset(t)
    ensures TotalOn(before, t)
  {
    forall b | 0 <= b < |t| ensures exists k :: 0 <= k < |s| && s[k] == t[b] {
      assert t[b] in multiset(t);
      assert t[b] in multiset(s);
    }
  }

  lemma SameLength<T>(s: seq<T>, t: seq<T>)
    requires multiset(s) == multiset(t)
    ensures |s| == |t|
  {
    assert |multiset(s)| == |s| && |multiset(t)| == |t|;
  }
}
