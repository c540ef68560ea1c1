/** The stable sort behind `Array.prototype.sort` as the site uses it, for a
    comparator that describes a strict weak order: `before(a, b)` holds when
    the comparator puts `a` strictly ahead of `b`. Since ECMAScript 2019 the
    built-in sort is stable, so its result is the one insertion sort gives:
    ordered by `before`, and elements the comparator ties keep their input
    order. The pure `InsertionSort` is that result; `SortInPlace` produces
    it in an array. */
module Sorting {

  /** `before` is asymmetric and its complement is transitive, so the ties of
      `before` form equivalence classes that it orders totally. */
  ghost predicate StrictWeakOrder<T(!new)>(before: (T, T) -> bool) {
    && (forall a, b :: before(a, b) ==> !before(b, a))
    && (forall a, b, c :: !before(a, b) && !before(b, c) ==> !before(a, c))
  }

  /** No element is strictly ahead of an element to its left. */
  predicate Sorted<T>(s: seq<T>, before: (T, T) -> bool) {
    forall i, j :: 0 <= i < j < |s| ==> !before(s[j], s[i])
  }

  /** Neither element is ahead of the other. */
  predicate Tie<T>(a: T, b: T, before: (T, T) -> bool) {
    !before(a, b) && !before(b, a)
  }

  /** `x` placed into `s` after every element it is not strictly ahead of. */
  function Insert<T>(s: seq<T>, x: T, before: (T, T) -> bool): (r: seq<T>)
    ensures |r| == |s| + 1
    decreases |s|
  {
    if s == [] || !before(x, s[|s| - 1]) then s + [x]
    else Insert(s[..|s| - 1], x, before) + [s[|s| - 1]]
  }

  /** The sorted arrangement of `s`: insertion of each element in turn. */
  function InsertionSort<T>(s: seq<T>, before: (T, T) -> bool): (r: seq<T>)
    ensures |r| == |s|
    decreases |s|
  {
    if s == [] then []
    else Insert(InsertionSort(s[..|s| - 1], before), s[|s| - 1], before)
  }

  lemma {:induction false} InsertPermutes<T>(s: seq<T>, x: T, before: (T, T) -> bool)
    ensures multiset(Insert(s, x, before)) == multiset(s) + multiset{x}
    decreases |s|
  {
    if s != [] && before(x, s[|s| - 1]) {
      InsertPermutes(s[..|s| - 1], x, before);
      assert s == s[..|s| - 1] + [s[|s| - 1]];
    }
  }

  /** The sorted arrangement is a permutation of the input. */
  lemma {:induction false} SortPermutes<T>(s: seq<T>, before: (T, T) -> bool)
    ensures multiset(InsertionSort(s, before)) == multiset(s)
    decreases |s|
  {
    if s != [] {
      SortPermutes(s[..|s| - 1], before);
      InsertPermutes(InsertionSort(s[..|s| - 1], before), s[|s| - 1], before);
      assert s == s[..|s| - 1] + [s[|s| - 1]];
    }
  }

  /** The elements of `s` tied with `z`, in their order in `s`. */
  function Ties<T>(s: seq<T>, z: T, before: (T, T) -> bool): seq<T>
    decreases |s|
  {
    if s == [] then []
    else Ties(s[..|s| - 1], z, before) + (if Tie(s[|s| - 1], z, before) then [s[|s| - 1]] else [])
  }

  lemma TiesSnoc<T>(s: seq<T>, x: T, z: T, before: (T, T) -> bool)
    ensures Ties(s + [x], z, before) == Ties(s, z, before) + (if Tie(x, z, before) then [x] else [])
  {
    assert (s + [x])[..|s|] == s;
  }

  lemma {:induction false} InsertSorted<T(!new)>(s: seq<T>, x: T, before: (T, T) -> bool)
    requires StrictWeakOrder(before) && Sorted(s, before)
    ensures Sorted(Insert(s, x, before), before)
    decreases |s|
  {
    if s == [] || !before(x, s[|s| - 1]) {
      var r := s + [x];
      forall i, j | 0 <= i < j < |r|
        ensures !before(r[j], r[i])
      {
        if j == |s| && i < |s| - 1 {
          assert !before(s[|s| - 1], s[i]);
        }
      }
    } else {
      var init, last := s[..|s| - 1], s[|s| - 1];
      assert Sorted(init, before);
      InsertSorted(init, x, before);
      InsertPermutes(init, x, before);
      var left := Insert(init, x, before);
      var r := left + [last];
      forall i, j | 0 <= i < j < |r|
        ensures !before(r[j], r[i])
      {
        if j == |left| {
          assert r[i] in multiset(left);
          assert r[i] in multiset(init) || r[i] == x;
          if r[i] != x {
            var k :| 0 <= k < |init| && init[k] == r[i];
            assert !before(s[|s| - 1], s[k]);
          }
        }
      }
    }
  }

  /** The sorted arrangement is ordered by `before`. */
  lemma {:induction false} SortSorted<T(!new)>(s: seq<T>, before: (T, T) -> bool)
    requires StrictWeakOrder(before)
    ensures Sorted(InsertionSort(s, before), before)
    decreases |s|
  {
    if s != [] {
      SortSorted(s[..|s| - 1], before);
      InsertSorted(InsertionSort(s[..|s| - 1], before), s[|s| - 1], before);
    }
  }

  lemma {:induction false} InsertTies<T(!new)>(s: seq<T>, x: T, z: T, before: (T, T) -> bool)
    requires StrictWeakOrder(before)
    ensures Ties(Insert(s, x, before), z, before) == Ties(s, z, before) + (if Tie(x, z, before) then [x] else [])
    decreases |s|
  {
    if s == [] || !before(x, s[|s| - 1]) {
      TiesSnoc(s, x, z, before);
    } else {
      var init, last := s[..|s| - 1], s[|s| - 1];
      InsertTies(init, x, z, before);
      TiesSnoc(Insert(init, x, before), last, z, before);
      assert s == init + [last];
      TiesSnoc(init, last, z, before);
      if Tie(x, z, before) {
        // `last` is strictly behind `x`, hence strictly behind `z`: not tied with `z`
        assert !Tie(last, z, before);
      }
    }
  }

  /** Stability: the elements tied with any `z` keep their input order. */
  lemma {:induction false} SortStable<T(!new)>(s: seq<T>, z: T, before: (T, T) -> bool)
    requires StrictWeakOrder(before)
    ensures Ties(InsertionSort(s, before), z, before) == Ties(s, z, before)
    decreases |s|
  {
    if s != [] {
      var init, last := s[..|s| - 1], s[|s| - 1];
      SortStable(init, z, before);
      InsertTies(InsertionSort(init, before), last, z, before);
    }
  }

  /** Where `Insert` puts `x`: after the last element it is not ahead of. */
  lemma {:induction false} InsertAt<T>(s: seq<T>, x: T, j: nat, before: (T, T) -> bool)
    requires j <= |s|
    requires forall m :: j <= m < |s| ==> before(x, s[m])
    requires j == 0 || !before(x, s[j - 1])
    ensures Insert(s, x, before) == s[..j] + [x] + s[j..]
    decreases |s|
  {
    if j == |s| {
      assert s[..j] == s && s[j..] == [];
    } else {
      var init, last := s[..|s| - 1], s[|s| - 1];
      assert before(x, last);
      forall m | j <= m < |init|
        ensures before(x, init[m])
      {
        assert init[m] == s[m];
      }
      assert j == 0 || init[j - 1] == s[j - 1];
      InsertAt(init, x, j, before);
      calc {
        Insert(s, x, before);
        Insert(init, x, before) + [last];
        init[..j] + [x] + init[j..] + [last];
        { assert init[..j] == s[..j]; assert init[j..] + [last] == s[j..]; }
        s[..j] + [x] + s[j..];
      }
    }
  }

  /** Moves `a[i]` left past every element of `a[..i]` it is strictly ahead
      of: the prefix `a[..i + 1]` becomes `Insert(a[..i], a[i])`. */
  method InsertInPlace<T>(a: array<T>, i: nat, before: (T, T) -> bool)
    requires i < a.Length
    modifies a
    ensures a[..i + 1] == Insert(old(a[..i]), old(a[i]), before)
    ensures a[i + 1..] == old(a[i + 1..])
  {
    ghost var prefix := a[..i];
    var x := a[i];
    var j := i;
    while j > 0 && before(x, a[j - 1])
      invariant 0 <= j <= i
      invariant forall m :: 0 <= m < j ==> a[m] == prefix[m]
      invariant forall m :: j < m <= i ==> a[m] == prefix[m - 1]
      invariant forall m :: i < m < a.Length ==> a[m] == old(a[m])
      invariant forall m :: j <= m < i ==> before(x, prefix[m])
    {
      a[j] := a[j - 1];
      j := j - 1;
    }
    a[j] := x;
    ShiftedIsInsert(a[..i + 1], prefix, x, j, before);
  }

  lemma ShiftedIsInsert<T>(r: seq<T>, prefix: seq<T>, x: T, j: nat, before: (T, T) -> bool)
    requires j <= |prefix| && |r| == |prefix| + 1
    requires forall m :: 0 <= m < j ==> r[m] == prefix[m]
    requires r[j] == x
    requires forall m :: j < m < |r| ==> r[m] == prefix[m - 1]
    requires forall m :: j <= m < |prefix| ==> before(x, prefix[m])
    requires j == 0 || !before(x, prefix[j - 1])
    ensures r == Insert(prefix, x, before)
  {
    InsertAt(prefix, x, j, before);
    var t := prefix[..j] + [x] + prefix[j..];
    forall m | 0 <= m < |r|
      ensures r[m] == t[m]
    {
      if m < j {
        assert t[m] == prefix[m];
      } else if m > j {
        assert t[m] == prefix[m - 1];
      }
    }
  }

  /** Sorts `a` in place, with the result `InsertionSort` describes. */
  method SortInPlace<T>(a: array<T>, before: (T, T) -> bool)
    modifies a
    ensures a[..] == InsertionSort(old(a[..]), before)
  {
    ghost var s := a[..];
    var i := 0;
    while i < a.Length
      invariant 0 <= i <= a.Length
      invariant a[..i] == InsertionSort(s[..i], before)
      invariant a[i..] == s[i..]
    {
      assert a[i] == s[i];
      assert a[i + 1..] == s[i + 1..] by {
        assert a[i..][1..] == a[i + 1..] && s[i..][1..] == s[i + 1..];
      }
      InsertInPlace(a, i, before);
      SortStep(s, i, before);
      i := i + 1;
    }
    assert s[..a.Length] == s && a[..a.Length] == a[..];
  }

  lemma SortStep<T>(s: seq<T>, i: nat, before: (T, T) -> bool)
    requires i < |s|
    ensures InsertionSort(s[..i + 1], before) == Insert(InsertionSort(s[..i], before), s[i], before)
  {
    var next := s[..i + 1];
    assert next[..|next| - 1] == s[..i] && next[|next| - 1] == s[i];
  }
}
