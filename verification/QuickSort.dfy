/** Both quick sorts (base/QuickSort.h), in place on an array, for every strict weak order. */
module QuickSort {
  import opened SortOrder

  method Swap<T>(a: array<T>, i: int, k: int)
    requires 0 <= i < a.Length && 0 <= k < a.Length
    modifies a
    ensures a[..] == Swapped(old(a[..]), i, k)
  {
    a[i], a[k] := a[k], a[i];
  }

  /** A swap inside the window of what is already a rearrangement of it. */
  method SwapWithin<T>(a: array<T>, i: int, k: int, ghost lo: int, ghost hi: int, ghost was: seq<T>)
    requires 0 <= lo <= i <= hi < a.Length && lo <= k <= hi && Rearranged(was, a[..], lo, hi)
    modifies a
    ensures a[..] == Swapped(old(a[..]), i, k) && Rearranged(was, a[..], lo, hi)
  {
    SwapRearranges(a[..], i, k, lo, hi);
    RearrangedTwice(was, a[..], Swapped(a[..], i, k), lo, hi);
    Swap(a, i, k);
  }

  // ---------------------------------------------------------------- nesting depth

  /** The floor of the binary logarithm. */
  function Log2(n: nat): nat
    requires n > 0
  {
    if n == 1 then 0 else 1 + Log2(n / 2)
  }

  /** How deep the calls for n elements may nest. */
  function DepthBound(n: int): nat {
    if n <= 1 then 1 else 1 + Log2(n)
  }

  lemma {:induction false} Log2Monotone(n: nat, m: nat)
    requires 0 < n <= m
    ensures Log2(n) <= Log2(m)
  {
    if n > 1 { Log2Monotone(n / 2, m / 2); }
  }

  /** A call for at most half of the elements nests one level less deep. */
  lemma DepthHalved(n: int, m: int, all: int)
    requires 2 * n <= m <= all && m > 1
    ensures DepthBound(n) + 1 <= DepthBound(all)
  {
    Log2Monotone(m, all);
    if n > 1 {
      Log2Monotone(n, m / 2);
    } else {
      assert Log2(m) == 1 + Log2(m / 2);
    }
  }

  /** Of three parts, each but the largest. */
  lemma PartsHalved(l: int, m: int, r: int, all: int)
    requires l >= 0 && m >= 0 && r >= 0 && l + m + r + 2 <= all
    ensures l <= m || l <= r ==> DepthBound(l) + 1 <= DepthBound(all)
    ensures m <= l || m <= r ==> DepthBound(m) + 1 <= DepthBound(all)
    ensures r <= l || r <= m ==> DepthBound(r) + 1 <= DepthBound(all)
  {
    if l <= m || l <= r { DepthHalved(l, l + m + r + 2, all); }
    if m <= l || m <= r { DepthHalved(m, l + m + r + 2, all); }
    if r <= l || r <= m { DepthHalved(r, l + m + r + 2, all); }
  }

  ghost function Max(a: nat, b: nat): nat {
    if a < b then b else a
  }

  // ---------------------------------------------------------------- one pivot

  /** Of the elements start + 1 to start + j, the first i - 1 are less than the pivot at `start` and the others not. */
  ghost predicate SingleParted<T>(less: (T, T) -> bool, s: seq<T>, start: int, i: int, j: int) {
    && 0 <= start && 1 <= i <= j && start + j <= |s|
    && (forall k {:trigger Below(less, s, k, start)} ::
      start < k < start + j ==> (Below(less, s, k, start) <==> k < start + i))
  }

  lemma SingleSkip<T>(less: (T, T) -> bool, s: seq<T>, start: int, i: int, j: int)
    requires SingleParted(less, s, start, i, j) && start + j < |s| && !Below(less, s, start + j, start)
    ensures SingleParted(less, s, start, i, j + 1)
  {
  }

  lemma SingleStep<T>(less: (T, T) -> bool, s: seq<T>, start: int, i: int, j: int)
    requires SingleParted(less, s, start, i, j) && start + j < |s| && Below(less, s, start + j, start)
    ensures SingleParted(less, Swapped(s, start + j, start + i), start, i + 1, j + 1)
  {
    var t := Swapped(s, start + j, start + i);
    forall k | start < k < start + j + 1 ensures Below(less, t, k, start) <==> k < start + i + 1 {
      assert i < j ==> !Below(less, s, start + i, start);
      assert k < start + j ==> (Below(less, s, k, start) <==> k < start + i);
    }
  }

  lemma SingleEnd<T(!new)>(less: (T, T) -> bool, s: seq<T>, start: int, i: int, size: int)
    requires StrictWeak(less) && SingleParted(less, s, start, i, size)
    ensures PivotAt(less, Swapped(s, start, start + i - 1), start, start + size - 1, start + i - 1)
  {
    var m := start + i - 1;
    var t := Swapped(s, start, m);
    forall k | start <= k < m ensures !Below(less, t, m, k) {
      var k' := if k == start then m else k;
      assert Below(less, s, k', start);
      assert Linked(less, s[start], s[k'], s[start]);
    }
    forall k | m < k < start + size ensures !Below(less, t, k, m) { assert !Below(less, s, k, start); }
  }

  /** The inner loop of single_pivot_quick_sort: brings what is less than the pivot at `start` to the front. */
  method SingleSweep<T(!new)>(a: array<T>, start: int, size: int, less: (T, T) -> bool, ghost was: seq<T>)
    returns (i: int)
    requires 0 <= start && 1 < size && start + size <= a.Length && Rearranged(was, a[..], start, start + size - 1)
    modifies a
    ensures Rearranged(was, a[..], start, start + size - 1)
    ensures SingleParted(less, a[..], start, i, size)
  {
    i := 1;
    var j := 1;
    while j < size
      invariant 1 <= i <= j <= size
      invariant Rearranged(was, a[..], start, start + size - 1)
      invariant SingleParted(less, a[..], start, i, j)
    {
      if Below(less, a[..], start + j, start) {
        SingleStep(less, a[..], start, i, j);
        SwapWithin(a, start + j, start + i, start, start + size - 1, was);
        i := i + 1;
      } else {
        SingleSkip(less, a[..], start, i, j);
      }
      j := j + 1;
    }
  }

  /** Brings the middle element where it belongs. */
  method SinglePartition<T(!new)>(a: array<T>, start: int, size: int, less: (T, T) -> bool) returns (i: int)
    requires StrictWeak(less) && 0 <= start && 1 < size && start + size <= a.Length
    modifies a
    ensures 1 <= i <= size
    ensures Rearranged(old(a[..]), a[..], start, start + size - 1)
    ensures PivotAt(less, a[..], start, start + size - 1, start + i - 1)
  {
    var pivotPoint := size / 2;
    ghost var was := a[..];
    SwapWithin(a, start + pivotPoint, start, start, start + size - 1, was);
    i := SingleSweep(a, start, size, less, was);
    SingleEnd(less, a[..], start, i, size);
    SwapWithin(a, start, start + i - 1, start, start + size - 1, was);
  }

  /** Sorts the elements start to end, end excluded. */
  method SinglePivotQuickSort<T(!new)>(a: array<T>, start: int, end: int, less: (T, T) -> bool)
    returns (ghost depth: nat)
    requires StrictWeak(less) && 0 <= start <= end <= a.Length
    modifies a
    ensures Rearranged(old(a[..]), a[..], start, end - 1)
    ensures Sorted(less, a[..], start, end - 1)
    ensures depth <= DepthBound(end - start)
    decreases end - start
  {
    var first, last := start, end;
    ghost var was := a[..];
    depth := 1;
    while true
      invariant start <= first <= last <= end
      invariant Rearranged(was, a[..], start, end - 1)
      invariant SortedBut(less, a[..], start, end - 1, first, last - 1)
      invariant depth <= DepthBound(end - start)
      decreases last - first
    {
      var size := last - first;
      if size <= 1 {
        return;
      }
      ghost var s := a[..];
      var i := SinglePartition(a, first, size, less);
      ghost var t := a[..];
      ghost var d, m := 0, first + i - 1;
      WindowParted(less, was, s, t, start, end - 1, first, last - 1);
      if i > size / 2 {
        d := SinglePivotQuickSort(a, first + i, last, less);
        RightDone(less, was, t, a[..], start, end - 1, first, last - 1, m);
        DepthHalved(size - i, size, end - start);
        last := first + i - 1;
      } else {
        d := SinglePivotQuickSort(a, first, first + i - 1, less);
        LeftDone(less, was, t, a[..], start, end - 1, first, last - 1, m);
        DepthHalved(i - 1, size, end - start);
        first := first + i;
      }
      depth := Max(depth, d + 1);
    }
  }

  // ---------------------------------------------------------------- two pivots

  /** Between the pivots at start and end: elements before j are below the left pivot, those from j to k are between
      the pivots, and those behind g are not below the right pivot. */
  ghost predicate DualParted<T>(less: (T, T) -> bool, s: seq<T>, start: int, end: int, j: int, k: int, g: int) {
    && 0 <= start < j <= k <= g + 2 && j <= g + 1 <= end < |s|
    && !Below(less, s, end, start)
    && (forall x {:trigger Below(less, s, x, start)} :: start < x < j ==> Below(less, s, x, start))
    && (forall x {:trigger Below(less, s, x, start)} :: j <= x < k && x <= g ==> !Below(less, s, x, start))
    && (forall x {:trigger Below(less, s, x, end)} :: j <= x < k && x <= g ==> Below(less, s, x, end))
    && (forall x {:trigger Below(less, s, x, end)} :: g < x < end ==> !Below(less, s, x, end))
  }

  /** An element below the left pivot goes to the front. */
  lemma DualFront<T>(less: (T, T) -> bool, s: seq<T>, start: int, end: int, j: int, k: int, g: int)
    requires DualParted(less, s, start, end, j, k, g) && k <= g && Below(less, s, k, start)
    ensures DualParted(less, Swapped(s, k, j), start, end, j + 1, k + 1, g)
  {
    var t := Swapped(s, k, j);
    forall x | start < x < j + 1 ensures Below(less, t, x, start) {
      if x < j { assert Below(less, s, x, start); }
    }
    forall x | j + 1 <= x < k + 1 && x <= g ensures !Below(less, t, x, start) && Below(less, t, x, end) {
      var x' := if x == k then j else x;
      assert !Below(less, s, x', start) && Below(less, s, x', end);
    }
    forall x | g < x < end ensures !Below(less, t, x, end) { assert !Below(less, s, x, end); }
  }

  /** An element between the pivots stays. */
  lemma DualStay<T>(less: (T, T) -> bool, s: seq<T>, start: int, end: int, j: int, k: int, g: int)
    requires DualParted(less, s, start, end, j, k, g) && k <= g && !Below(less, s, k, start) && Below(less, s, k, end)
    ensures DualParted(less, s, start, end, j, k + 1, g)
  {
  }

  /** An element at g not below the right pivot stays behind. */
  lemma DualSkip<T>(less: (T, T) -> bool, s: seq<T>, start: int, end: int, j: int, k: int, g: int)
    requires DualParted(less, s, start, end, j, k, g) && k < g && !Below(less, s, g, end)
    ensures DualParted(less, s, start, end, j, k, g - 1)
  {
  }

  /** Elements k and g trade places: k was not below the right pivot, and g is, or they have met. */
  lemma DualBack<T>(less: (T, T) -> bool, s: seq<T>, start: int, end: int, j: int, k: int, g: int)
    requires DualParted(less, s, start, end, j, k, g) && k <= g && !Below(less, s, k, end)
    requires k == g || Below(less, s, g, end)
    ensures DualParted(less, Swapped(s, k, g), start, end, j, k, g - 1)
    ensures k < g ==> Below(less, Swapped(s, k, g), k, end)
    ensures k == g ==> Swapped(s, k, g) == s
  {
    var t := Swapped(s, k, g);
    forall x | start < x < j ensures Below(less, t, x, start) { assert Below(less, s, x, start); }
    forall x | j <= x < k && x <= g - 1 ensures !Below(less, t, x, start) && Below(less, t, x, end) {
      assert !Below(less, s, x, start) && Below(less, s, x, end);
    }
    forall x | g - 1 < x < end ensures !Below(less, t, x, end) {
      if x > g { assert !Below(less, s, x, end); }
    }
  }

  /** The pivots go where they belong. */
  lemma DualEnd<T(!new)>(less: (T, T) -> bool, s: seq<T>, start: int, end: int, j: int, k: int, g: int)
    requires StrictWeak(less) && DualParted(less, s, start, end, j, k, g) && k > g
    ensures var t := Swapped(Swapped(s, start, j - 1), end, g + 1);
      PivotAt(less, t, start, end, j - 1) && PivotAt(less, t, start, end, g + 1)
  {
    var l, r := j - 1, g + 1;
    var t := Swapped(Swapped(s, start, l), end, r);
    forall x | start <= x < l ensures !Below(less, t, l, x) && !Below(less, t, r, x) {
      var x' := if x == start then l else x;
      assert Below(less, s, x', start);
      assert Linked(less, s[start], s[x'], s[start]) && Linked(less, s[end], s[start], s[x']);
    }
    forall x | l < x < r ensures !Below(less, t, x, l) && !Below(less, t, r, x) {
      assert !Below(less, s, x, start) && Below(less, s, x, end);
      assert Linked(less, s[end], s[x], s[end]);
    }
    forall x | r < x <= end ensures !Below(less, t, x, l) && !Below(less, t, x, r) {
      var x' := if x == end then r else x;
      assert !Below(less, s, x', end);
      assert Linked(less, s[x'], s[end], s[start]);
    }
  }

  lemma DualMet<T(!new)>(less: (T, T) -> bool, s: seq<T>, start: int, end: int, j: int, k: int)
    requires StrictWeak(less) && DualParted(less, s, start, end, j, k, k - 1) && k < end && !Below(less, s, k, end)
    ensures !Below(less, s, k, start) && DualParted(less, s, start, end, j, k + 1, k - 1)
  {
    assert Linked(less, s[k], s[end], s[start]);
  }

  /** The pivots in order, whichever way the elements at i and k compare. */
  lemma ThirdsOrdered<T(!new)>(less: (T, T) -> bool, s: seq<T>, start: int, end: int, i: int, k: int)
    requires StrictWeak(less) && 0 <= start < i < k < end < |s|
    ensures Below(less, s, i, k) ==> !Below(less, Swapped(Swapped(s, i, start), k, end), end, start)
    ensures !Below(less, s, i, k) ==> !Below(less, Swapped(Swapped(s, i, end), k, start), end, start)
  {
    assert Linked(less, s[k], s[i], s[k]);
  }

  lemma EndsOrdered<T(!new)>(less: (T, T) -> bool, s: seq<T>, start: int, end: int)
    requires StrictWeak(less) && 0 <= start < end < |s|
    ensures Below(less, s, start, end) ==> !Below(less, s, end, start)
    ensures !Below(less, s, start, end) ==> !Below(less, Swapped(s, start, end), end, start)
  {
    assert Linked(less, s[end], s[start], s[end]);
  }

  /** Chooses the pivots at the thirds, or the ends of a short stretch, and puts them at the ends in order. */
  method DualPivots<T(!new)>(a: array<T>, start: int, end: int, less: (T, T) -> bool)
    requires StrictWeak(less) && 0 <= start < end < a.Length
    modifies a
    ensures Rearranged(old(a[..]), a[..], start, end)
    ensures !Below(less, a[..], end, start)
  {
    var size := end - start + 1;
    if size > 3 {
      var third := size / 3;
      DualThirds(a, start, end, start + third, end - third, less);
    } else {
      EndsOrdered(less, a[..], start, end);
      if !Below(less, a[..], start, end) {
        SwapWithin(a, start, end, start, end, a[..]);
      }
    }
  }

  method DualThirds<T(!new)>(a: array<T>, start: int, end: int, i: int, k: int, less: (T, T) -> bool)
    requires StrictWeak(less) && 0 <= start < i < k < end < a.Length
    modifies a
    ensures Rearranged(old(a[..]), a[..], start, end)
    ensures !Below(less, a[..], end, start)
  {
    ghost var was := a[..];
    ThirdsOrdered(less, was, start, end, i, k);
    if Below(less, a[..], i, k) {
      SwapWithin(a, i, start, start, end, was);
      SwapWithin(a, k, end, start, end, was);
    } else {
      SwapWithin(a, i, end, start, end, was);
      SwapWithin(a, k, start, start, end, was);
    }
  }

  /** Passes over what is already behind. */
  method DualScan<T(!new)>(a: array<T>, start: int, end: int, j: int, k: int, g0: int, less: (T, T) -> bool)
    returns (g: int)
    requires end < a.Length && DualParted(less, a[..], start, end, j, k, g0) && k <= g0
    ensures k <= g <= g0 && DualParted(less, a[..], start, end, j, k, g) && (k == g || Below(less, a[..], g, end))
  {
    g := g0;
    while !Below(less, a[..], g, end) && k < g
      invariant k <= g <= g0 && DualParted(less, a[..], start, end, j, k, g)
    {
      DualSkip(less, a[..], start, end, j, k, g);
      g := g - 1;
    }
  }

  /** Sends element k, which is not below the right pivot, behind, and places what comes back for it. */
  method DualSendBack<T(!new)>(a: array<T>, start: int, end: int, j0: int, k: int, g0: int, less: (T, T) -> bool,
      ghost was: seq<T>)
    returns (j: int, g: int)
    requires StrictWeak(less) && end < a.Length && Rearranged(was, a[..], start, end)
    requires DualParted(less, a[..], start, end, j0, k, g0) && k <= g0 && !Below(less, a[..], k, end)
    modifies a
    ensures Rearranged(was, a[..], start, end)
    ensures g < g0 && DualParted(less, a[..], start, end, j, k + 1, g)
  {
    j := j0;
    g := DualScan(a, start, end, j, k, g0, less);
    DualBack(less, a[..], start, end, j, k, g);
    SwapWithin(a, k, g, start, end, was);
    if k == g { DualMet(less, a[..], start, end, j, k); }
    g := g - 1;
    if Below(less, a[..], k, start) {
      DualFront(less, a[..], start, end, j, k, g);
      SwapWithin(a, k, j, start, end, was);
      j := j + 1;
    } else if k <= g {
      DualStay(less, a[..], start, end, j, k, g);
    }
  }

  /** The loop of dual_pivot_quick_sort over the elements between the pivots. */
  method DualSweep<T(!new)>(a: array<T>, start: int, end: int, less: (T, T) -> bool, ghost was: seq<T>)
    returns (j: int, g: int)
    requires StrictWeak(less) && 0 <= start < end < a.Length && Rearranged(was, a[..], start, end)
    requires !Below(less, a[..], end, start)
    modifies a
    ensures Rearranged(was, a[..], start, end)
    ensures DualParted(less, a[..], start, end, j, g + 1, g)
  {
    j := start + 1;
    var k := start + 1;
    g := end - 1;
    while k <= g
      invariant Rearranged(was, a[..], start, end) && DualParted(less, a[..], start, end, j, k, g)
      decreases g - k
    {
      if Below(less, a[..], k, start) {
        DualFront(less, a[..], start, end, j, k, g);
        SwapWithin(a, k, j, start, end, was);
        j := j + 1;
      } else if !Below(less, a[..], k, end) {
        j, g := DualSendBack(a, start, end, j, k, g, less, was);
      } else {
        DualStay(less, a[..], start, end, j, k, g);
      }
      k := k + 1;
    }
  }

  method DualPartition<T(!new)>(a: array<T>, start: int, end: int, less: (T, T) -> bool) returns (j: int, g: int)
    requires StrictWeak(less) && 0 <= start < end < a.Length
    modifies a
    ensures start <= j < g <= end
    ensures Rearranged(old(a[..]), a[..], start, end)
    ensures PivotAt(less, a[..], start, end, j) && PivotAt(less, a[..], start, end, g)
  {
    ghost var was := a[..];
    DualPivots(a, start, end, less);
    j, g := DualSweep(a, start, end, less, was);
    DualEnd(less, a[..], start, end, j, g + 1, g);
    j := j - 1;
    g := g + 1;
    SwapWithin(a, start, j, start, end, was);
    SwapWithin(a, end, g, start, end, was);
  }

  /** Sorts the elements start to end, both included. */
  method DualPivotQuickSort<T(!new)>(a: array<T>, start: int, end: int, less: (T, T) -> bool) returns (ghost depth: nat)
    requires StrictWeak(less) && 0 <= start <= end + 1 <= a.Length
    modifies a
    ensures Rearranged(old(a[..]), a[..], start, end)
    ensures Sorted(less, a[..], start, end)
    ensures depth <= DepthBound(end - start + 1)
    decreases end - start + 1, 2
  {
    var first, last := start, end;
    ghost var was := a[..];
    depth := 1;
    while first < last
      invariant start <= first <= last + 1 <= end + 1
      invariant Rearranged(was, a[..], start, end)
      invariant SortedBut(less, a[..], start, end, first, last)
      invariant depth <= DepthBound(end - start + 1)
      decreases last - first
    {
      ghost var d;
      first, last, d := DualRound(a, first, last, less, start, end, was);
      depth := Max(depth, d + 1);
    }
  }

  /** Parts the window, sorts the two smaller parts and leaves the largest as the new window. */
  method DualRound<T(!new)>(a: array<T>, first: int, last: int, less: (T, T) -> bool, ghost start: int, ghost end: int,
      ghost was: seq<T>)
    returns (first': int, last': int, ghost depth: nat)
    requires StrictWeak(less) && 0 <= start <= first < last <= end < a.Length
    requires Rearranged(was, a[..], start, end) && SortedBut(less, a[..], start, end, first, last)
    modifies a
    ensures first <= first' <= last' + 1 <= last + 1 && last' - first' < last - first
    ensures Rearranged(was, a[..], start, end) && SortedBut(less, a[..], start, end, first', last')
    ensures depth + 1 <= DepthBound(end - start + 1)
    decreases last - first + 1, 1
  {
    ghost var s := a[..];
    var j, g := DualPartition(a, first, last, less);
    WindowParted(less, was, s, a[..], start, end, first, last);
    var leftSize := j - first;
    var middleSize := g - (j + 1);
    var rightSize := (last + 1) - (g + 1);
    PartsHalved(leftSize, middleSize, rightSize, end - start + 1);
    first', last' := first, last;
    if leftSize >= middleSize && leftSize >= rightSize {
      depth := SortMiddleRight(a, first, last, j, g, less, start, end, was);
      last' := j - 1;
    } else if middleSize >= rightSize {
      depth := SortLeftRight(a, first, last, j, g, less, start, end, was);
      first' := j + 1;
      last' := g - 1;
    } else {
      depth := SortLeftMiddle(a, first, last, j, g, less, start, end, was);
      first' := g + 1;
    }
  }

  method SortMiddleRight<T(!new)>(a: array<T>, first: int, last: int, j: int, g: int, less: (T, T) -> bool,
                               ghost start: int, ghost end: int, ghost was: seq<T>)
    returns (ghost depth: nat)
    requires StrictWeak(less) && 0 <= start <= first <= j < g <= last <= end < a.Length
    requires Rearranged(was, a[..], start, end) && SortedBut(less, a[..], start, end, first, last)
    requires PivotAt(less, a[..], first, last, j) && PivotAt(less, a[..], first, last, g)
    modifies a
    ensures Rearranged(was, a[..], start, end) && SortedBut(less, a[..], start, end, first, j - 1)
    ensures depth <= Max(DepthBound(g - j - 1), DepthBound(last - g))
    decreases last - first + 1, 0, 1
  {
    ghost var t, u := a[..], [];
    u, depth := SortTwo(a, j + 1, g - 1, g + 1, last, less, last - first + 1);
    LeftRemains(less, was, t, u, a[..], start, end, first, last, j, g);
  }

  method SortLeftRight<T(!new)>(a: array<T>, first: int, last: int, j: int, g: int, less: (T, T) -> bool,
                               ghost start: int, ghost end: int, ghost was: seq<T>)
    returns (ghost depth: nat)
    requires StrictWeak(less) && 0 <= start <= first <= j < g <= last <= end < a.Length
    requires Rearranged(was, a[..], start, end) && SortedBut(less, a[..], start, end, first, last)
    requires PivotAt(less, a[..], first, last, j) && PivotAt(less, a[..], first, last, g)
    modifies a
    ensures Rearranged(was, a[..], start, end) && SortedBut(less, a[..], start, end, j + 1, g - 1)
    ensures depth <= Max(DepthBound(j - first), DepthBound(last - g))
    decreases last - first + 1, 0, 1
  {
    ghost var t, u := a[..], [];
    u, depth := SortTwo(a, first, j - 1, g + 1, last, less, last - first + 1);
    MiddleRemains(less, was, t, u, a[..], start, end, first, last, j, g);
  }

  method SortLeftMiddle<T(!new)>(a: array<T>, first: int, last: int, j: int, g: int, less: (T, T) -> bool,
                               ghost start: int, ghost end: int, ghost was: seq<T>)
    returns (ghost depth: nat)
    requires StrictWeak(less) && 0 <= start <= first <= j < g <= last <= end < a.Length
    requires Rearranged(was, a[..], start, end) && SortedBut(less, a[..], start, end, first, last)
    requires PivotAt(less, a[..], first, last, j) && PivotAt(less, a[..], first, last, g)
    modifies a
    ensures Rearranged(was, a[..], start, end) && SortedBut(less, a[..], start, end, g + 1, last)
    ensures depth <= Max(DepthBound(j - first), DepthBound(g - j - 1))
    decreases last - first + 1, 0, 1
  {
    ghost var t, u := a[..], [];
    u, depth := SortTwo(a, first, j - 1, j + 1, g - 1, less, last - first + 1);
    RightRemains(less, was, t, u, a[..], start, end, first, last, j, g);
  }

  /** The two recursive calls; `u` is what is there between them. */
  method SortTwo<T(!new)>(a: array<T>, f0: int, l0: int, f1: int, l1: int, less: (T, T) -> bool, ghost size: nat)
    returns (ghost u: seq<T>, ghost depth: nat)
    requires StrictWeak(less) && 0 <= f0 <= l0 + 1 <= f1 <= l1 + 1 <= a.Length && l0 - f0 + 1 < size
      && l1 - f1 + 1 < size
    modifies a
    ensures Rearranged(old(a[..]), u, f0, l0) && Sorted(less, u, f0, l0)
    ensures Rearranged(u, a[..], f1, l1) && Sorted(less, a[..], f1, l1)
    ensures depth <= Max(DepthBound(l0 - f0 + 1), DepthBound(l1 - f1 + 1))
    decreases size, 0, 0
  {
    depth := DualPivotQuickSort(a, f0, l0, less);
    u := a[..];
    ghost var d := DualPivotQuickSort(a, f1, l1, less);
    depth := Max(depth, d);
  }

  /** Sorting a whole collection, with either sort. */
  method SortCollection<T(!new)>(a: array<T>, less: (T, T) -> bool, dual: bool) returns (ghost depth: nat)
    requires StrictWeak(less)
    modifies a
    ensures multiset(a[..]) == multiset(old(a[..]))
    ensures forall i, k :: 0 <= i < k < a.Length ==> !less(a[k], a[i])
    ensures a.Length > 0 ==> depth <= 1 + Log2(a.Length)
  {
    if dual {
      depth := DualPivotQuickSort(a, 0, a.Length - 1, less);
    } else {
      depth := SinglePivotQuickSort(a, 0, a.Length, less);
    }
    forall i, k | 0 <= i < k < a.Length ensures !less(a[k], a[i]) { assert !Below(less, a[..], k, i); }
  }
}
