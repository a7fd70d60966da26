/** Finding ranges of unset bits in a bitmap, 32 bits at a time (base/BitmapView.h). A bitmap is its bits, true for a
    set one; a 32-bit word is 32 of them, lowest first. */
module BitRanges {
  ghost predicate Unset(bits: seq<bool>, a: int, b: int)
    requires 0 <= a && b <= |bits|
  {
    forall i :: a <= i < b ==> !bits[i]
  }

  /** n unset bits from s on. */
  ghost predicate Fit(bits: seq<bool>, s: int, n: nat) {
    0 <= s && s + n <= |bits| && Unset(bits, s, s + n)
  }

  /** No n unset bits between the two positions. */
  ghost predicate NoFit(bits: seq<bool>, first: int, end: int, n: nat) {
    forall s {:trigger Fit(bits, s, n)} :: first <= s && s + n <= end ==> !Fit(bits, s, n)
  }

  /** The bits from `first` to p have been seen: the last `free` of them are unset, what is before them is set, and
      there was no range of n before that. */
  ghost predicate Scanned(bits: seq<bool>, first: nat, n: nat, p: nat, free: nat) {
    && first <= p - free && p <= |bits|
    && Unset(bits, p - free, p)
    && (first < p - free ==> bits[p - free - 1])
    && NoFit(bits, first, p - free, n)
  }

  lemma ScanStart(bits: seq<bool>, first: nat, n: nat)
    requires first <= |bits| && n > 0
    ensures Scanned(bits, first, n, first, 0)
  {
  }

  lemma ScanUnset(bits: seq<bool>, first: nat, n: nat, p: nat, free: nat, k: nat)
    requires Scanned(bits, first, n, p, free) && p + k <= |bits| && Unset(bits, p, p + k)
    ensures Scanned(bits, first, n, p + k, free + k)
  {
  }

  lemma ScanSet(bits: seq<bool>, first: nat, n: nat, p: nat, free: nat, k: nat)
    requires Scanned(bits, first, n, p, free) && free < n && k > 0 && p + k <= |bits|
    requires forall i :: p <= i < p + k ==> bits[i]
    ensures Scanned(bits, first, n, p + k, 0)
  {
    forall s | first <= s && s + n <= p + k ensures !Fit(bits, s, n) {
      if s + n > p - free {
        if s < p - free {
          assert bits[p - free - 1];
        } else if s + n > p {
          assert bits[if s < p then p else s];
        }
      }
    }
  }

  /** A run that is long enough is the first that is. */
  lemma ScanFound(bits: seq<bool>, first: nat, n: nat, p: nat, free: nat)
    requires Scanned(bits, first, n, p, free) && free >= n > 0
    ensures Fit(bits, p - free, n)
    ensures forall s {:trigger Fit(bits, s, n)} :: first <= s < p - free ==> !Fit(bits, s, n)
  {
    forall s | first <= s < p - free ensures !Fit(bits, s, n) {
      if s + n > p - free { assert bits[p - free - 1]; }
    }
  }

  lemma ScanEnd(bits: seq<bool>, first: nat, n: nat, free: nat)
    requires Scanned(bits, first, n, |bits|, free) && free < n
    ensures NoFit(bits, first, |bits|, n)
  {
    forall s | first <= s && s + n <= |bits| ensures !Fit(bits, s, n) {
      if s + n > |bits| - free { assert bits[|bits| - free - 1]; }
    }
  }
}
