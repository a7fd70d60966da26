/** What both quick sorts (base/QuickSort.h) rest on: rearranging a window of a sequence, and pivots. */
module SortOrder {
  ghost predicate StrictWeak<T(!new)>(less: (T, T) -> bool) {
    && (forall x {:trigger less(x, x)} :: !less(x, x))
    && (forall x, y, z {:trigger Linked(less, x, y, z)} :: Linked(less, x, y, z))
  }

  /** Being less is transitive, and so is not being less. */
  ghost predicate Linked<T>(less: (T, T) -> bool, x: T, y: T, z: T) {
    && (less(x, y) && less(y, z) ==> less(x, z))
    && (!less(x, y) && !less(y, z) ==> !less(x, z))
  }

  /** Element x is less than element p. */
  predicate Below<T>(less: (T, T) -> bool, s: seq<T>, x: int, p: int)
    requires 0 <= x < |s| && 0 <= p < |s|
  {
    less(s[x], s[p])
  }

  /** Elements lo to hi, both included, are in order. */
  ghost predicate Sorted<T>(less: (T, T) -> bool, s: seq<T>, lo: int, hi: int)
    requires 0 <= lo && hi < |s|
  {
    forall i, k {:trigger Below(less, s, k, i)} :: lo <= i < k <= hi ==> !Below(less, s, k, i)
  }

  // ---------------------------------------------------------------- permutations of a window

  /** `t` is `s` with the elements lo to hi rearranged. */
  ghost predicate Rearranged<T>(s: seq<T>, t: seq<T>, lo: int, hi: int) {
    && |s| == |t| && 0 <= lo <= hi + 1 <= |s|
    && multiset(s) == multiset(t)
    && (forall k {:trigger Same(s, t, k)} :: 0 <= k < |s| && !(lo <= k <= hi) ==> Same(s, t, k))
  }

  ghost predicate Same<T>(s: seq<T>, t: seq<T>, k: int)
    requires 0 <= k < |s| == |t|
  {
    s[k] == t[k]
  }

  function Swapped<T>(s: seq<T>, i: int, k: int): (t: seq<T>)
    requires 0 <= i < |s| && 0 <= k < |s|
    ensures |t| == |s|
  {
    s[i := s[k]][k := s[i]]
  }

  lemma SwapRearranges<T>(s: seq<T>, i: int, k: int, lo: int, hi: int)
    requires 0 <= lo <= i <= hi < |s| && lo <= k <= hi
    ensures Rearranged(s, Swapped(s, i, k), lo, hi)
  {
    assert multiset(s[i := s[k]]) == multiset(s) - multiset{s[i]} + multiset{s[k]};
  }

  lemma RearrangedTwice<T>(s: seq<T>, t: seq<T>, u: seq<T>, lo: int, hi: int)
    requires Rearranged(s, t, lo, hi) && Rearranged(t, u, lo, hi)
    ensures Rearranged(s, u, lo, hi)
  {
    forall k | 0 <= k < |s| && !(lo <= k <= hi) ensures Same(s, u, k) { assert Same(s, t, k) && Same(t, u, k); }
  }

  lemma RearrangedWider<T>(s: seq<T>, t: seq<T>, lo: int, hi: int, lo': int, hi': int)
    requires Rearranged(s, t, lo, hi) && 0 <= lo' <= lo && hi <= hi' < |s|
    ensures Rearranged(s, t, lo', hi')
  {
  }

  lemma WindowMultiset<T>(s: seq<T>, t: seq<T>, lo: int, hi: int)
    requires Rearranged(s, t, lo, hi)
    ensures multiset(s[lo..hi + 1]) == multiset(t[lo..hi + 1])
  {
    forall k | 0 <= k < |s| && !(lo <= k <= hi) ensures s[k] == t[k] { assert Same(s, t, k); }
    assert s == s[..lo] + s[lo..hi + 1] + s[hi + 1..];
    assert t == t[..lo] + t[lo..hi + 1] + t[hi + 1..];
    assert s[..lo] == t[..lo];
    assert s[hi + 1..] == t[hi + 1..];
    var outside := multiset(s[..lo]) + multiset(s[hi + 1..]);
    assert multiset(s[lo..hi + 1]) == multiset(s) - outside;
    assert multiset(t[lo..hi + 1]) == multiset(t) - outside;
  }

  /** Where element k came from: from inside the window if it is there, else it did not move. */
  lemma CameFrom<T>(s: seq<T>, t: seq<T>, lo: int, hi: int, k: int) returns (i: int)
    requires Rearranged(s, t, lo, hi) && 0 <= k < |s|
    ensures 0 <= i < |s| && s[i] == t[k]
    ensures if lo <= k <= hi then lo <= i <= hi else i == k
  {
    if lo <= k <= hi {
      WindowMultiset(s, t, lo, hi);
      assert t[k] == t[lo..hi + 1][k - lo];
      assert t[k] in multiset(s[lo..hi + 1]);
      var j :| 0 <= j < |s[lo..hi + 1]| && s[lo..hi + 1][j] == t[k];
      i := lo + j;
    } else {
      i := k;
      assert Same(s, t, k);
    }
  }

  // ---------------------------------------------------------------- pivots

  /** Element m is where it belongs among lo to hi: nothing before it is greater, nothing behind it less. */
  ghost predicate PivotAt<T>(less: (T, T) -> bool, s: seq<T>, lo: int, hi: int, m: int) {
    && 0 <= lo <= m <= hi < |s|
    && (forall i {:trigger Below(less, s, m, i)} :: lo <= i < m ==> !Below(less, s, m, i))
    && (forall k {:trigger Below(less, s, k, m)} :: m < k <= hi ==> !Below(less, s, k, m))
  }

  /** Of lo to hi, all pairs are in order but those inside the window first to last. */
  ghost predicate SortedBut<T>(less: (T, T) -> bool, s: seq<T>, lo: int, hi: int, first: int, last: int)
    requires 0 <= lo && hi < |s|
  {
    forall i, k {:trigger Below(less, s, k, i)} :: lo <= i < k <= hi && !(first <= i && k <= last)
      ==> !Below(less, s, k, i)
  }

  /** Rearranging a part that lies on one side of a pivot leaves it a pivot. */
  lemma PivotStays<T>(less: (T, T) -> bool, s: seq<T>, t: seq<T>, lo: int, hi: int, m: int, first: int, last: int)
    requires PivotAt(less, s, lo, hi, m)
    requires Rearranged(s, t, first, last) && lo <= first && last <= hi && (last < m || m < first)
    ensures PivotAt(less, t, lo, hi, m)
  {
    var m' := CameFrom(s, t, first, last, m);
    forall k | lo <= k <= hi ensures (k < m ==> !Below(less, t, m, k)) && (m < k ==> !Below(less, t, k, m)) {
      var i := CameFrom(s, t, first, last, k);
      if k < m { assert !Below(less, s, m, i); }
      if m < k { assert !Below(less, s, i, m); }
    }
  }

  lemma SortedStays<T>(less: (T, T) -> bool, s: seq<T>, t: seq<T>, lo: int, hi: int, first: int, last: int)
    requires 0 <= lo && hi < |s| && Sorted(less, s, lo, hi)
    requires Rearranged(s, t, first, last) && (last < lo || hi < first)
    ensures Sorted(less, t, lo, hi)
  {
    forall i, k | lo <= i < k <= hi ensures !Below(less, t, k, i) {
      assert Same(s, t, i) && Same(s, t, k) && !Below(less, s, k, i);
    }
  }

  /** Rearranging the window keeps the other pairs in order. */
  lemma WindowRearranged<T>(less: (T, T) -> bool, s: seq<T>, t: seq<T>, lo: int, hi: int, first: int, last: int)
    requires Rearranged(s, t, first, last) && 0 <= lo <= first && last <= hi < |s|
    requires SortedBut(less, s, lo, hi, first, last)
    ensures SortedBut(less, t, lo, hi, first, last)
  {
    forall i, k | lo <= i < k <= hi && !(first <= i && k <= last) ensures !Below(less, t, k, i) {
      var i' := CameFrom(s, t, first, last, i);
      var k' := CameFrom(s, t, first, last, k);
      assert !Below(less, s, k', i');
    }
  }

  /** A pivot whose right side is sorted shrinks the window to the left side. */
  lemma ShrinkRight<T(!new)>(less: (T, T) -> bool, s: seq<T>, lo: int, hi: int, first: int, last: int, m: int)
    requires StrictWeak(less) && 0 <= lo <= first && last <= hi < |s|
    requires SortedBut(less, s, lo, hi, first, last) && PivotAt(less, s, first, last, m) && Sorted(less, s, m + 1, last)
    ensures SortedBut(less, s, lo, hi, first, m - 1)
  {
    forall i, k | first <= i < k <= last && k > m - 1 ensures !Below(less, s, k, i) {
      if i <= m { ThroughPivot(less, s, first, last, m, i, k); }
    }
  }

  lemma ShrinkLeft<T(!new)>(less: (T, T) -> bool, s: seq<T>, lo: int, hi: int, first: int, last: int, m: int)
    requires StrictWeak(less) && 0 <= lo <= first && last <= hi < |s|
    requires SortedBut(less, s, lo, hi, first, last) && PivotAt(less, s, first, last, m)
      && Sorted(less, s, first, m - 1)
    ensures SortedBut(less, s, lo, hi, m + 1, last)
  {
    forall i, k | first <= i < k <= last && i < m + 1 ensures !Below(less, s, k, i) {
      if m <= k { ThroughPivot(less, s, first, last, m, i, k); }
    }
  }

  lemma ThroughPivot<T(!new)>(less: (T, T) -> bool, s: seq<T>, lo: int, hi: int, m: int, i: int, k: int)
    requires StrictWeak(less) && PivotAt(less, s, lo, hi, m) && lo <= i <= m <= k <= hi
    ensures !Below(less, s, k, i)
  {
    assert i == m || !Below(less, s, m, i);
    assert k == m || !Below(less, s, k, m);
    assert Linked(less, s[k], s[m], s[i]);
  }

  /** One of the parts beside the pivots j and g has been sorted: what it leaves as it was. */
  lemma PartSorted<T>(less: (T, T) -> bool, was: seq<T>, s: seq<T>, t: seq<T>, lo: int, hi: int,
                      first: int, last: int, j: int, g: int, partFirst: int, partLast: int)
    requires 0 <= lo <= first && last <= hi < |s|
    requires Rearranged(was, s, lo, hi) && Rearranged(s, t, partFirst, partLast)
    requires first <= partFirst && partLast <= last
    requires (partLast < j || j < partFirst) && (partLast < g || g < partFirst)
    requires PivotAt(less, s, first, last, j) && PivotAt(less, s, first, last, g)
    requires SortedBut(less, s, lo, hi, first, last)
    ensures Rearranged(was, t, lo, hi) && SortedBut(less, t, lo, hi, first, last)
    ensures PivotAt(less, t, first, last, j) && PivotAt(less, t, first, last, g)
  {
    PivotStays(less, s, t, first, last, j, partFirst, partLast);
    PivotStays(less, s, t, first, last, g, partFirst, partLast);
    RearrangedWider(s, t, partFirst, partLast, first, last);
    WindowRearranged(less, s, t, lo, hi, first, last);
    RearrangedWider(s, t, partFirst, partLast, lo, hi);
    RearrangedTwice(was, s, t, lo, hi);
  }

  /** The window has been partitioned. */
  lemma WindowParted<T>(less: (T, T) -> bool, was: seq<T>, s: seq<T>, t: seq<T>, lo: int, hi: int, first: int,
      last: int)
    requires 0 <= lo <= first && last <= hi < |s|
    requires Rearranged(was, s, lo, hi) && Rearranged(s, t, first, last)
    requires SortedBut(less, s, lo, hi, first, last)
    ensures Rearranged(was, t, lo, hi) && SortedBut(less, t, lo, hi, first, last)
  {
    WindowRearranged(less, s, t, lo, hi, first, last);
    RearrangedWider(s, t, first, last, lo, hi);
    RearrangedTwice(was, s, t, lo, hi);
  }

  /** The right side of the pivot m has been sorted: go on with the left side. */
  lemma RightDone<T(!new)>(less: (T, T) -> bool, was: seq<T>, s: seq<T>, t: seq<T>, lo: int, hi: int, first: int,
      last: int, m: int)
    requires StrictWeak(less) && 0 <= lo <= first && last <= hi < |s|
    requires Rearranged(was, s, lo, hi) && Rearranged(s, t, m + 1, last)
    requires PivotAt(less, s, first, last, m) && SortedBut(less, s, lo, hi, first, last) && Sorted(less, t, m + 1, last)
    ensures Rearranged(was, t, lo, hi) && SortedBut(less, t, lo, hi, first, m - 1)
  {
    PartSorted(less, was, s, t, lo, hi, first, last, m, m, m + 1, last);
    ShrinkRight(less, t, lo, hi, first, last, m);
  }

  lemma LeftDone<T(!new)>(less: (T, T) -> bool, was: seq<T>, s: seq<T>, t: seq<T>, lo: int, hi: int, first: int,
      last: int, m: int)
    requires StrictWeak(less) && 0 <= lo <= first && last <= hi < |s|
    requires Rearranged(was, s, lo, hi) && Rearranged(s, t, first, m - 1)
    requires PivotAt(less, s, first, last, m) && SortedBut(less, s, lo, hi, first, last)
      && Sorted(less, t, first, m - 1)
    ensures Rearranged(was, t, lo, hi) && SortedBut(less, t, lo, hi, m + 1, last)
  {
    PartSorted(less, was, s, t, lo, hi, first, last, m, m, first, m - 1);
    ShrinkLeft(less, t, lo, hi, first, last, m);
  }

  lemma PivotNarrow<T>(less: (T, T) -> bool, s: seq<T>, lo: int, hi: int, m: int, lo': int, hi': int)
    requires PivotAt(less, s, lo, hi, m) && lo <= lo' <= m <= hi' <= hi
    ensures PivotAt(less, s, lo', hi', m)
  {
  }

  // Two of the three parts beside the pivots j and g have been sorted, s to t to u: go on with the third.

  lemma LeftRemains<T(!new)>(less: (T, T) -> bool, was: seq<T>, s: seq<T>, t: seq<T>, u: seq<T>, lo: int, hi: int,
      first: int, last: int, j: int, g: int)
    requires StrictWeak(less) && 0 <= lo <= first && last <= hi < |s| && j < g
    requires Rearranged(was, s, lo, hi) && Rearranged(s, t, j + 1, g - 1) && Rearranged(t, u, g + 1, last)
    requires PivotAt(less, s, first, last, j) && PivotAt(less, s, first, last, g)
      && SortedBut(less, s, lo, hi, first, last)
    requires Sorted(less, t, j + 1, g - 1) && Sorted(less, u, g + 1, last)
    ensures Rearranged(was, u, lo, hi) && SortedBut(less, u, lo, hi, first, j - 1)
  {
    PartSorted(less, was, s, t, lo, hi, first, last, j, g, j + 1, g - 1);
    PartSorted(less, was, t, u, lo, hi, first, last, j, g, g + 1, last);
    SortedStays(less, t, u, j + 1, g - 1, g + 1, last);
    ShrinkRight(less, u, lo, hi, first, last, g);
    PivotNarrow(less, u, first, last, j, first, g - 1);
    ShrinkRight(less, u, lo, hi, first, g - 1, j);
  }

  lemma MiddleRemains<T(!new)>(less: (T, T) -> bool, was: seq<T>, s: seq<T>, t: seq<T>, u: seq<T>, lo: int, hi: int,
      first: int, last: int, j: int, g: int)
    requires StrictWeak(less) && 0 <= lo <= first && last <= hi < |s| && j < g
    requires Rearranged(was, s, lo, hi) && Rearranged(s, t, first, j - 1) && Rearranged(t, u, g + 1, last)
    requires PivotAt(less, s, first, last, j) && PivotAt(less, s, first, last, g)
      && SortedBut(less, s, lo, hi, first, last)
    requires Sorted(less, t, first, j - 1) && Sorted(less, u, g + 1, last)
    ensures Rearranged(was, u, lo, hi) && SortedBut(less, u, lo, hi, j + 1, g - 1)
  {
    PartSorted(less, was, s, t, lo, hi, first, last, j, g, first, j - 1);
    PartSorted(less, was, t, u, lo, hi, first, last, j, g, g + 1, last);
    SortedStays(less, t, u, first, j - 1, g + 1, last);
    ShrinkRight(less, u, lo, hi, first, last, g);
    PivotNarrow(less, u, first, last, j, first, g - 1);
    ShrinkLeft(less, u, lo, hi, first, g - 1, j);
  }

  lemma RightRemains<T(!new)>(less: (T, T) -> bool, was: seq<T>, s: seq<T>, t: seq<T>, u: seq<T>, lo: int, hi: int,
      first: int, last: int, j: int, g: int)
    requires StrictWeak(less) && 0 <= lo <= first && last <= hi < |s| && j < g
    requires Rearranged(was, s, lo, hi) && Rearranged(s, t, first, j - 1) && Rearranged(t, u, j + 1, g - 1)
    requires PivotAt(less, s, first, last, j) && PivotAt(less, s, first, last, g)
      && SortedBut(less, s, lo, hi, first, last)
    requires Sorted(less, t, first, j - 1) && Sorted(less, u, j + 1, g - 1)
    ensures Rearranged(was, u, lo, hi) && SortedBut(less, u, lo, hi, g + 1, last)
  {
    PartSorted(less, was, s, t, lo, hi, first, last, j, g, first, j - 1);
    PartSorted(less, was, t, u, lo, hi, first, last, j, g, j + 1, g - 1);
    SortedStays(less, t, u, first, j - 1, j + 1, g - 1);
    ShrinkLeft(less, u, lo, hi, first, last, j);
    PivotNarrow(less, u, first, last, g, j + 1, last);
    ShrinkLeft(less, u, lo, hi, j + 1, last, g);
  }
}
