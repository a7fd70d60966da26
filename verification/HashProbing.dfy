/** The bucket array of the hash table (base/HashTable.h) as a value: probe paths, tombstones and counters. */
module HashProbing {
  import opened Optional

  /** There are so many hashes: they are 32-bit words. */
  const HASHES: nat := 0x1_0000_0000

  type Hash = h: nat | h < HASHES

  /** The template parameters and helpers of the table: hash and equality of the values, the next hash on a probe path,
      which is double_hash in the source and any function here, and the capacity that an allocation of the asked size
      turns out to have. */
  datatype Traits<!T> = Traits(hash: T -> Hash, equals: (T, T) -> bool, next: Hash -> Hash, good: nat -> nat)

  ghost predicate Coherent<T(!new)>(tr: Traits<T>) {
    && (forall x :: tr.equals(x, x))
    && (forall x, y :: tr.equals(x, y) ==> tr.equals(y, x) && tr.hash(x) == tr.hash(y))
    && (forall x, y, z :: tr.equals(x, y) && tr.equals(y, z) ==> tr.equals(x, z))
    && (forall n :: tr.good(n) >= n)
  }

  /** The n-th hash on the probe path that starts at `h`. */
  function Probe(next: Hash -> Hash, h: Hash, n: nat): Hash {
    if n == 0 then h else next(Probe(next, h, n - 1))
  }

  /** The n-th bucket on that path. */
  function At(next: Hash -> Hash, capacity: nat, h: Hash, n: nat): (i: nat)
    requires capacity > 0
    ensures i < capacity
  {
    Probe(next, h, n) % capacity
  }

  /** In an array of this capacity every probe path comes by every bucket. */
  ghost predicate Covers(next: Hash -> Hash, capacity: nat) {
    forall h: Hash, i: nat {:trigger Comes(next, capacity, h, i)} :: i < capacity ==> Comes(next, capacity, h, i)
  }

  ghost predicate Comes(next: Hash -> Hash, capacity: nat, h: Hash, i: nat)
    requires i < capacity
  {
    exists n: nat :: At(next, capacity, h, n) == i
  }

  // ---------------------------------------------------------------- a path that goes round

  ghost function Seen(next: Hash -> Hash, h: Hash, n: nat): set<nat> {
    set m: nat | m < n :: Probe(next, h, m) as nat
  }

  ghost predicate Repeats(next: Hash -> Hash, h: Hash, i: nat, j: nat) {
    i < j && Probe(next, h, i) == Probe(next, h, j)
  }

  lemma {:induction false} SeenGrows(next: Hash -> Hash, h: Hash, n: nat)
    requires forall i, j: nat :: j < n ==> !Repeats(next, h, i, j)
    ensures |Seen(next, h, n)| == n
  {
    if n == 0 {
      assert Seen(next, h, 0) == {};
    } else {
      SeenGrows(next, h, n - 1);
      assert Seen(next, h, n) == Seen(next, h, n - 1) + {Probe(next, h, n - 1) as nat};
      if Probe(next, h, n - 1) as nat in Seen(next, h, n - 1) {
        var m: nat :| m < n - 1 && Probe(next, h, m) == Probe(next, h, n - 1);
        assert Repeats(next, h, m, n - 1);
      }
    }
  }

  lemma {:induction false} BoundedSize(s: set<nat>, n: nat)
    requires forall x :: x in s ==> x < n
    ensures |s| <= n
  {
    if n == 0 {
      assert s == {};
    } else {
      BoundedSize(s - {n - 1}, n - 1);
      assert s <= s - {n - 1} + {n - 1};
      assert if n - 1 in s then s == s - {n - 1} + {n - 1} else s == s - {n - 1};
    }
  }

  /** Among one hash more than there are, one comes twice. */
  lemma SomeRepeat(next: Hash -> Hash, h: Hash) returns (i: nat, j: nat)
    ensures Repeats(next, h, i, j) && j <= HASHES
  {
    if forall i, j: nat :: j < HASHES + 1 ==> !Repeats(next, h, i, j) {
      SeenGrows(next, h, HASHES + 1);
      BoundedSize(Seen(next, h, HASHES + 1), HASHES);
      assert false;
    }
    i, j :| j < HASHES + 1 && Repeats(next, h, i, j);
  }

  lemma {:induction false} GoesRound(next: Hash -> Hash, h: Hash, i: nat, j: nat, n: nat)
    requires Repeats(next, h, i, j)
    ensures Probe(next, h, i + n) == Probe(next, h, j + n)
  {
    if n > 0 { GoesRound(next, h, i, j, n - 1); }
  }

  /** Whatever a path ever comes to, it has come to among its first hashes. */
  lemma {:induction false} EarlyEnough(next: Hash -> Hash, h: Hash, n: nat) returns (m: nat)
    ensures m < HASHES && Probe(next, h, m) == Probe(next, h, n)
    decreases n
  {
    if n < HASHES {
      m := n;
    } else {
      var i, j := SomeRepeat(next, h);
      GoesRound(next, h, i, j, n - j);
      m := EarlyEnough(next, h, n - (j - i));
    }
  }

  // ---------------------------------------------------------------- a function that covers

  /** The path that goes from each hash to the one behind it. */
  function NextHash(h: Hash): Hash {
    if h + 1 == HASHES then 0 else h + 1
  }

  lemma {:induction false} NextHashes(h: Hash, n: nat)
    requires n < HASHES
    ensures Probe(NextHash, h, n) == if h + n < HASHES then h + n else h + n - HASHES
  {
    if n > 0 { NextHashes(h, n - 1); }
  }

  lemma StepsTo(h: Hash, i: Hash) returns (n: nat)
    ensures Probe(NextHash, h, n) == i
  {
    n := if i >= h then i - h else i + HASHES - h;
    NextHashes(h, n);
  }

  /** It covers every capacity that hashes can tell apart. */
  lemma NextHashCovers(capacity: nat)
    requires capacity <= HASHES
    ensures Covers(NextHash, capacity)
  {
    forall h: Hash, i: nat | i < capacity ensures Comes(NextHash, capacity, h, i) {
      var n := StepsTo(h, i);
      assert At(NextHash, capacity, h, n) == i % capacity;
    }
  }

  /** No function of hashes covers more. */
  lemma NoneCoversMore(next: Hash -> Hash, capacity: nat)
    requires capacity > HASHES
    ensures !Covers(next, capacity)
  {
    assert !Comes(next, capacity, 0, HASHES);
  }

  datatype Bucket<T> = Bucket(used: bool, deleted: bool, end: bool, slot: Option<T>)

  predicate Free<T>(b: Bucket<T>) {
    !b.used && !b.deleted
  }

  predicate Holds<T>(b: Bucket<T>) {
    b.used && b.slot.Some? && !b.deleted && !b.end
  }

  /** The array is either not there or one longer than the capacity, with the end mark behind the last bucket. */
  ghost predicate Laid<T>(b: seq<Bucket<T>>, capacity: nat) {
    && |b| == (if capacity == 0 then 0 else capacity + 1)
    && (forall i {:trigger b[i]} :: 0 <= i < capacity ==> !b[i].end && (b[i].used ==> Holds(b[i])))
    && (capacity > 0 ==> b[capacity] == Bucket(false, false, true, None))
  }

  /** The probe path of the value in bucket `i` comes there at its n-th step and meets no free bucket before. */
  ghost predicate HomeAt<T>(tr: Traits<T>, b: seq<Bucket<T>>, capacity: nat, i: nat, n: nat)
    requires Laid(b, capacity) && i < capacity && b[i].used
  {
    Clear(tr.next, b, capacity, tr.hash(b[i].slot.value), n) && At(tr.next, capacity, tr.hash(b[i].slot.value), n) == i
  }

  /** The first n buckets on the path are used or were. */
  ghost predicate Clear<T>(next: Hash -> Hash, b: seq<Bucket<T>>, capacity: nat, h: Hash, n: nat)
    requires capacity > 0 && |b| > capacity
  {
    forall m: nat {:trigger At(next, capacity, h, m)} :: m < n ==> !Free(b[At(next, capacity, h, m)])
  }

  ghost predicate Reachable<T>(tr: Traits<T>, b: seq<Bucket<T>>, capacity: nat, i: nat)
    requires Laid(b, capacity) && i < capacity && b[i].used
  {
    exists n: nat :: HomeAt(tr, b, capacity, i, n)
  }

  ghost predicate Distinct<T>(tr: Traits<T>, b: seq<Bucket<T>>, capacity: nat)
    requires Laid(b, capacity)
  {
    forall i, j {:trigger b[i], b[j]} :: 0 <= i < j < capacity && b[i].used && b[j].used
      ==> !tr.equals(b[i].slot.value, b[j].slot.value)
  }

  ghost predicate Layout<T>(tr: Traits<T>, b: seq<Bucket<T>>, capacity: nat) {
    && Laid(b, capacity)
    && Distinct(tr, b, capacity)
    && (forall i: nat {:trigger Reachable(tr, b, capacity, i)} ::
      i < capacity && b[i].used ==> Reachable(tr, b, capacity, i))
  }

  // ---------------------------------------------------------------- what is in the table

  function UsedCount<T>(b: seq<Bucket<T>>, n: nat): nat
    requires n <= |b|
  {
    if n == 0 then 0 else UsedCount(b, n - 1) + if b[n - 1].used then 1 else 0
  }

  function DeletedCount<T>(b: seq<Bucket<T>>, n: nat): nat
    requires n <= |b|
  {
    if n == 0 then 0 else DeletedCount(b, n - 1) + if b[n - 1].deleted then 1 else 0
  }

  ghost function Values<T>(b: seq<Bucket<T>>, n: nat): set<T>
    requires n <= |b|
  {
    set i | 0 <= i < n && b[i].used && b[i].slot.Some? :: b[i].slot.value
  }

  ghost predicate Contains<T(!new)>(tr: Traits<T>, contents: set<T>, v: T) {
    exists x :: x in contents && tr.equals(x, v)
  }

  lemma {:induction false} CountsUpdate<T>(b: seq<Bucket<T>>, k: nat, nb: Bucket<T>, n: nat)
    requires k < |b| && n <= |b|
    ensures UsedCount(b[k := nb], n) ==
      UsedCount(b, n) + if k < n then (if nb.used then 1 else 0) - (if b[k].used then 1 else 0) else 0
    ensures DeletedCount(b[k := nb], n) ==
      DeletedCount(b, n) + if k < n then (if nb.deleted then 1 else 0) - (if b[k].deleted then 1 else 0) else 0
  {
    if n > 0 { CountsUpdate(b, k, nb, n - 1); }
  }

  lemma {:induction false} CountsPositive<T>(b: seq<Bucket<T>>, k: nat, n: nat)
    requires k < n <= |b|
    ensures b[k].used ==> UsedCount(b, n) > 0
    ensures b[k].deleted ==> DeletedCount(b, n) > 0
  {
    if k < n - 1 { CountsPositive(b, k, n - 1); }
  }

  /** With fewer used and deleted buckets than buckets, one is free. */
  lemma {:induction false} SomeFree<T>(b: seq<Bucket<T>>, n: nat) returns (i: nat)
    requires n <= |b| && UsedCount(b, n) + DeletedCount(b, n) < n
    ensures i < n && Free(b[i])
  {
    if Free(b[n - 1]) { i := n - 1; } else { i := SomeFree(b, n - 1); }
  }

  lemma {:induction false} NoneUsed<T>(b: seq<Bucket<T>>, n: nat)
    requires n <= |b| && forall i :: 0 <= i < n ==> Free(b[i])
    ensures UsedCount(b, n) == 0 && DeletedCount(b, n) == 0 && Values(b, n) == {}
  {
    if n > 0 { NoneUsed(b, n - 1); }
  }

  /** Distinct values: the number of used buckets is the size of the set. */
  lemma {:induction false} SizeIsUsed<T(!new)>(tr: Traits<T>, b: seq<Bucket<T>>, capacity: nat, n: nat)
    requires Coherent(tr) && Laid(b, capacity) && Distinct(tr, b, capacity) && n <= capacity
    ensures |Values(b, n)| == UsedCount(b, n)
  {
    if n == 0 {
      assert Values(b, 0) == {};
    } else {
      SizeIsUsed(tr, b, capacity, n - 1);
      if b[n - 1].used {
        var v := b[n - 1].slot.value;
        assert Values(b, n) == Values(b, n - 1) + {v};
        assert v !in Values(b, n - 1);
      } else {
        assert Values(b, n) == Values(b, n - 1);
      }
    }
  }

  // ---------------------------------------------------------------- the lookups

  /** What a call comes to: a value, or a probe loop that never ends. */
  datatype Outcome<A> = Hangs | Returns(value: A)

  /** A lookup for `v` stops at the n-th bucket of the path: it holds an equal value or is free. */
  ghost predicate StopsAt<T>(tr: Traits<T>, b: seq<Bucket<T>>, capacity: nat, v: T, n: nat)
    requires Laid(b, capacity) && capacity > 0
  {
    var i := At(tr.next, capacity, tr.hash(v), n);
    Free(b[i]) || (b[i].used && tr.equals(b[i].slot.value, v))
  }

  /** The path of `v` comes to no bucket at which a lookup stops, however far it goes. */
  ghost predicate Endless<T>(tr: Traits<T>, b: seq<Bucket<T>>, capacity: nat, v: T)
    requires Laid(b, capacity) && capacity > 0
  {
    forall n: nat :: !StopsAt(tr, b, capacity, v, n)
  }

  /** A lookup that has not stopped at as many buckets as there are hashes goes round forever. */
  lemma RoundForever<T>(tr: Traits<T>, b: seq<Bucket<T>>, capacity: nat, v: T)
    requires Laid(b, capacity) && capacity > 0
    requires forall n: nat :: n < HASHES ==> !StopsAt(tr, b, capacity, v, n)
    ensures Endless(tr, b, capacity, v)
  {
    forall n: nat ensures !StopsAt(tr, b, capacity, v, n) {
      var m := EarlyEnough(tr.next, tr.hash(v), n);
      assert !StopsAt(tr, b, capacity, v, m);
    }
  }

  /** With a free bucket, no lookup is endless if the paths come by every bucket. */
  lemma CoveredEnds<T>(tr: Traits<T>, b: seq<Bucket<T>>, capacity: nat, v: T)
    requires Laid(b, capacity) && UsedCount(b, capacity) + DeletedCount(b, capacity) < capacity
    requires Covers(tr.next, capacity)
    ensures !Endless(tr, b, capacity, v)
  {
    var i := SomeFree(b, capacity);
    assert Comes(tr.next, capacity, tr.hash(v), i);
    var n: nat :| At(tr.next, capacity, tr.hash(v), n) == i;
    assert StopsAt(tr, b, capacity, v, n);
  }

  /** A path that has come to a free bucket without meeting an equal value will meet none. */
  lemma NotFurther<T(!new)>(tr: Traits<T>, b: seq<Bucket<T>>, capacity: nat, v: T, n: nat, i: nat)
    requires Coherent(tr) && Layout(tr, b, capacity) && capacity > 0
    requires forall m: nat :: m < n ==> !StopsAt(tr, b, capacity, v, m)
    requires Free(b[At(tr.next, capacity, tr.hash(v), n)])
    requires i < capacity && b[i].used
    ensures !tr.equals(b[i].slot.value, v)
  {
    assert Reachable(tr, b, capacity, i);
    var home: nat :| HomeAt(tr, b, capacity, i, home);
    if tr.equals(b[i].slot.value, v) {
      assert StopsAt(tr, b, capacity, v, home);
    }
  }

  /** Buckets that do not become free leave every other value where its path finds it. */
  lemma ReachableKept<T>(tr: Traits<T>, b: seq<Bucket<T>>, capacity: nat, k: nat, nb: Bucket<T>, i: nat)
    requires Laid(b, capacity) && k < capacity && Laid(b[k := nb], capacity)
    requires Free(nb) ==> Free(b[k])
    requires i < capacity && b[i].used && b[k := nb][i].used && b[k := nb][i].slot == b[i].slot
    requires Reachable(tr, b, capacity, i)
    ensures Reachable(tr, b[k := nb], capacity, i)
  {
    var n :| HomeAt(tr, b, capacity, i, n);
    assert HomeAt(tr, b[k := nb], capacity, i, n);
  }

  /** Writing a new value at the first unused bucket of its path. */
  lemma PutKeepsLayout<T(!new)>(tr: Traits<T>, b: seq<Bucket<T>>, capacity: nat, k: nat, v: T, n: nat)
    requires Coherent(tr) && Layout(tr, b, capacity) && k < capacity && !b[k].used
    requires At(tr.next, capacity, tr.hash(v), n) == k && Clear(tr.next, b, capacity, tr.hash(v), n)
    requires forall i :: 0 <= i < capacity && b[i].used ==> !tr.equals(b[i].slot.value, v)
    ensures Layout(tr, b[k := Bucket(true, false, false, Some(v))], capacity)
    ensures Values(b[k := Bucket(true, false, false, Some(v))], capacity) == Values(b, capacity) + {v}
  {
    var b' := b[k := Bucket(true, false, false, Some(v))];
    forall i: nat | i < capacity && b'[i].used ensures Reachable(tr, b', capacity, i) {
      if i == k {
        assert HomeAt(tr, b', capacity, k, n);
      } else {
        assert Reachable(tr, b, capacity, i);
        ReachableKept(tr, b, capacity, k, b'[k], i);
      }
    }
    PutValues(b, capacity, k, v);
  }

  lemma PutValues<T>(b: seq<Bucket<T>>, capacity: nat, k: nat, v: T)
    requires Laid(b, capacity) && k < capacity && !b[k].used
    ensures Values(b[k := Bucket(true, false, false, Some(v))], capacity) == Values(b, capacity) + {v}
  {
    var b' := b[k := Bucket(true, false, false, Some(v))];
    forall x ensures x in Values(b', capacity) <==> x in Values(b, capacity) + {v} {
      if x in Values(b, capacity) {
        var i :| 0 <= i < capacity && b[i].used && b[i].slot.Some? && b[i].slot.value == x;
        assert b'[i] == b[i];
      }
      assert b'[k].slot.value == v;
    }
  }

  /** A removed value leaves a tombstone, so the paths through its bucket stay unbroken. */
  lemma TombstoneKeepsLayout<T(!new)>(tr: Traits<T>, b: seq<Bucket<T>>, capacity: nat, k: nat)
    requires Coherent(tr) && Layout(tr, b, capacity) && k < capacity && b[k].used
    ensures Layout(tr, b[k := Bucket(false, true, false, None)], capacity)
    ensures Values(b[k := Bucket(false, true, false, None)], capacity) == Values(b, capacity) - {b[k].slot.value}
  {
    var b' := b[k := Bucket(false, true, false, None)];
    forall i: nat | i < capacity && b'[i].used ensures Reachable(tr, b', capacity, i) {
      assert Reachable(tr, b, capacity, i);
      ReachableKept(tr, b, capacity, k, b'[k], i);
    }
    TombstoneValues(tr, b, capacity, k);
  }

  lemma TombstoneValues<T(!new)>(tr: Traits<T>, b: seq<Bucket<T>>, capacity: nat, k: nat)
    requires Coherent(tr) && Laid(b, capacity) && Distinct(tr, b, capacity) && k < capacity && b[k].used
    ensures Values(b[k := Bucket(false, true, false, None)], capacity) == Values(b, capacity) - {b[k].slot.value}
  {
    var b' := b[k := Bucket(false, true, false, None)];
    forall x ensures x in Values(b', capacity) <==> x in Values(b, capacity) - {b[k].slot.value} {
      if x in Values(b, capacity) {
        var i :| 0 <= i < capacity && b[i].used && b[i].slot.Some? && b[i].slot.value == x;
        if i != k {
          assert b'[i] == b[i];
          var lo, hi := if i < k then i else k, if i < k then k else i;
          assert !tr.equals(b[lo].slot.value, b[hi].slot.value);
        }
      }
    }
  }

  /** Overwriting a value with an equal one. */
  lemma ReplaceKeepsLayout<T(!new)>(tr: Traits<T>, b: seq<Bucket<T>>, capacity: nat, k: nat, v: T)
    requires Coherent(tr) && Layout(tr, b, capacity) && k < capacity && b[k].used && tr.equals(b[k].slot.value, v)
    ensures Layout(tr, b[k := Bucket(true, false, false, Some(v))], capacity)
    ensures Values(b[k := Bucket(true, false, false, Some(v))], capacity)
      == Values(b, capacity) - {b[k].slot.value} + {v}
  {
    var b' := b[k := Bucket(true, false, false, Some(v))];
    assert Distinct(tr, b', capacity) by {
      forall i, j | 0 <= i < j < capacity && b'[i].used && b'[j].used
        ensures !tr.equals(b'[i].slot.value, b'[j].slot.value)
      {
        assert !tr.equals(b[i].slot.value, b[j].slot.value);
      }
    }
    forall i: nat | i < capacity && b'[i].used ensures Reachable(tr, b', capacity, i) {
      assert Reachable(tr, b, capacity, i);
      var n :| HomeAt(tr, b, capacity, i, n);
      assert HomeAt(tr, b', capacity, i, n);
    }
    TombstoneValues(tr, b, capacity, k);
    var gone := b[k := Bucket(false, true, false, None)];
    assert gone[k := Bucket(true, false, false, Some(v))] == b';
    PutValues(gone, capacity, k, v);
  }
}
