/** The unordered hash table (base/HashTable.h): open addressing with tombstones and a load bound of sixty percent. */
module HashTables {
  import opened Optional
  import opened HashProbing

  const LOAD_FACTOR_IN_PERCENT: nat := 60

  datatype SetResult = InsertedNewEntry | ReplacedExistingEntry | KeptExistingEntry

  datatype ExistingEntry = Keep | Replace

  /** The values that are not equal to `v`. */
  ghost function Others<T>(tr: Traits<T>, contents: set<T>, v: T): set<T> {
    set x | x in contents && !tr.equals(x, v)
  }

  /** How far a table of this capacity is from having room for `size` values and one more. */
  function Shortage(size: nat, capacity: nat): nat {
    if (size + 1) * 100 < capacity * LOAD_FACTOR_IN_PERCENT then 0
    else (size + 1) * 100 - capacity * LOAD_FACTOR_IN_PERCENT + 1
  }

  function AtLeastFour(n: nat): nat {
    if n < 4 then 4 else n
  }

  /** Doubling the capacity once makes room. */
  predicate RoomWhenDoubled(size: nat, capacity: nat) {
    (size + 1) * 100 < AtLeastFour(capacity * 2) * LOAD_FACTOR_IN_PERCENT
  }

  lemma OneEqual<T(!new)>(tr: Traits<T>, b: seq<Bucket<T>>, capacity: nat, i: nat, j: nat)
    requires Coherent(tr) && Laid(b, capacity) && Distinct(tr, b, capacity)
    requires i < capacity && j < capacity && b[i].used && b[j].used
    requires tr.equals(b[i].slot.value, b[j].slot.value)
    ensures i == j
  {
  }

  lemma OthersAre<T(!new)>(tr: Traits<T>, b: seq<Bucket<T>>, capacity: nat, k: nat, v: T)
    requires Coherent(tr) && Layout(tr, b, capacity) && k < capacity && b[k].used && tr.equals(b[k].slot.value, v)
    ensures Values(b, capacity) - {b[k].slot.value} == Others(tr, Values(b, capacity), v)
    ensures Contains(tr, Values(b, capacity), v)
  {
    var values := Values(b, capacity);
    assert b[k].slot.value in values;
    forall x | x in values && tr.equals(x, v) ensures x == b[k].slot.value {
      var i :| 0 <= i < capacity && b[i].used && b[i].slot.Some? && b[i].slot.value == x;
      OneEqual(tr, b, capacity, i, k);
    }
  }

  lemma NotContained<T(!new)>(tr: Traits<T>, b: seq<Bucket<T>>, capacity: nat, v: T)
    requires Coherent(tr) && Laid(b, capacity)
    requires forall i :: 0 <= i < capacity && b[i].used ==> !tr.equals(b[i].slot.value, v)
    ensures !Contains(tr, Values(b, capacity), v)
    ensures Others(tr, Values(b, capacity), v) == Values(b, capacity)
  {
  }

  /** What a set makes of the contents. */
  ghost function AfterSet<T(!new)>(tr: Traits<T>, contents: set<T>, v: T, existing: ExistingEntry): set<T> {
    if existing == Keep && Contains(tr, contents, v) then contents else Others(tr, contents, v) + {v}
  }

  /** What find says after a set and after a remove. */
  lemma FoundAfterSet<T(!new)>(tr: Traits<T>, contents: set<T>, v: T, existing: ExistingEntry, w: T)
    requires Coherent(tr)
    ensures Contains(tr, AfterSet(tr, contents, v, existing), w) <==> Contains(tr, contents, w) || tr.equals(v, w)
  {
    var after := AfterSet(tr, contents, v, existing);
    if tr.equals(v, w) {
      if existing == Keep && Contains(tr, contents, v) {
        var x :| x in contents && tr.equals(x, v);
        assert x in after && tr.equals(x, w);
      } else {
        assert v in after;
      }
    } else if Contains(tr, contents, w) {
      var x :| x in contents && tr.equals(x, w);
      assert x in after;
    }
  }

  lemma FoundAfterRemove<T(!new)>(tr: Traits<T>, contents: set<T>, v: T, w: T)
    requires Coherent(tr)
    ensures Contains(tr, Others(tr, contents, v), w) <==> Contains(tr, contents, w) && !tr.equals(v, w)
  {
    if Contains(tr, contents, w) && !tr.equals(v, w) {
      var x :| x in contents && tr.equals(x, w);
      assert x in Others(tr, contents, v);
    }
  }

  lemma {:induction false} UsedMonotone<T>(b: seq<Bucket<T>>, n: nat, m: nat)
    requires n <= m <= |b|
    ensures UsedCount(b, n) <= UsedCount(b, m)
  {
    if n < m { UsedMonotone(b, n, m - 1); }
  }

  lemma NotYetMoved<T(!new)>(tr: Traits<T>, b: seq<Bucket<T>>, capacity: nat, n: nat)
    requires Coherent(tr) && Layout(tr, b, capacity) && n < capacity && b[n].used
    ensures !Contains(tr, Values(b, n), b[n].slot.value)
  {
  }

  lemma {:induction false} UnusedPrefix<T>(b: seq<Bucket<T>>, n: nat)
    requires n <= |b| && forall j :: 0 <= j < n ==> !b[j].used
    ensures Values(b, n) == {} && UsedCount(b, n) == 0
  {
    if n > 0 { UnusedPrefix(b, n - 1); }
  }

  lemma {:induction false} SkippedUnused<T>(b: seq<Bucket<T>>, n: nat, m: nat)
    requires n < m <= |b| && b[n].used && b[n].slot.Some? && forall j :: n < j < m ==> !b[j].used
    ensures Values(b, m) == Values(b, n) + {b[n].slot.value}
    ensures UsedCount(b, m) == UsedCount(b, n) + 1
  {
    if m > n + 1 {
      SkippedUnused(b, n, m - 1);
      assert Values(b, m) == Values(b, m - 1);
    }
  }

  /** The next used bucket behind `i`: the iterator's step. */
  method SkipToNext<T>(b: seq<Bucket<T>>, capacity: nat, i: nat) returns (r: Option<nat>)
    requires Laid(b, capacity) && i < capacity
    ensures r.Some? ==> i < r.value < capacity && b[r.value].used && forall j :: i < j < r.value ==> !b[j].used
    ensures r.None? ==> forall j :: i < j < capacity ==> !b[j].used
  {
    var k := i + 1;
    while !b[k].used && !b[k].end
      invariant i < k <= capacity
      invariant forall j :: i < j < k ==> !b[j].used
      decreases capacity - k
    {
      k := k + 1;
    }
    if b[k].used { r := Some(k); } else { r := None; }
  }

  class HashTable<T(!new)> {
    const tr: Traits<T>
    var buckets: seq<Bucket<T>>
    var size: nat
    var capacity: nat
    var deleted: nat

    ghost function Contents(): set<T>
      requires capacity <= |buckets|
      reads this
    {
      Values(buckets, capacity)
    }

    /** What holds also in the middle of a rehash, when `size` counts values that are not moved yet. */
    ghost predicate Sound()
      reads this
    {
      && Coherent(tr)
      && Layout(tr, buckets, capacity)
      && deleted == DeletedCount(buckets, capacity)
      && UsedCount(buckets, capacity) <= size
    }

    ghost predicate Valid()
      reads this
    {
      && Sound()
      && UsedCount(buckets, capacity) == size
      && (capacity > 0 ==> (size + deleted) * 100 < capacity * LOAD_FACTOR_IN_PERCENT)
    }

    predicate ShouldGrow()
      reads this
    {
      (size + deleted + 1) * 100 >= capacity * LOAD_FACTOR_IN_PERCENT
    }

    constructor (traits: Traits<T>)
      requires Coherent(traits)
      ensures tr == traits && Valid() && Contents() == {} && size == 0
    {
      tr := traits;
      buckets := [];
      size := 0;
      capacity := 0;
      deleted := 0;
    }

    /** lookup_with_hash, as find calls it. The source does not count its probes: what a path has not come to among as
        many as there are hashes, it never comes to. */
    method Find(v: T) returns (r: Outcome<Option<nat>>)
      requires Valid()
      ensures r.Hangs? <==> size > 0 && Endless(tr, buckets, capacity, v)
      ensures r.Hangs? ==> !Covers(tr.next, capacity)
      ensures r.Returns? && r.value.Some? ==>
        var i := r.value.value; i < capacity && buckets[i].used && tr.equals(buckets[i].slot.value, v)
      ensures r.Returns? ==> (r.value.Some? <==> Contains(tr, Contents(), v))
    {
      if size == 0 {
        NothingIn();
        return Returns(None);
      }
      var hash := tr.hash(v);
      var probes: nat := 0;
      while probes < HASHES
        invariant probes <= HASHES && hash == Probe(tr.next, tr.hash(v), probes)
        invariant forall m: nat :: m < probes ==> !StopsAt(tr, buckets, capacity, v, m)
      {
        var i := hash % capacity;
        assert i == At(tr.next, capacity, tr.hash(v), probes);
        if buckets[i].used && tr.equals(v, buckets[i].slot.value) {
          OthersAre(tr, buckets, capacity, i, v);
          assert StopsAt(tr, buckets, capacity, v, probes);
          return Returns(Some(i));
        }
        if !buckets[i].used && !buckets[i].deleted {
          NotFound(v, probes);
          assert StopsAt(tr, buckets, capacity, v, probes);
          return Returns(None);
        }
        hash := tr.next(hash);
        probes := probes + 1;
      }
      HangsHere(v);
      return Hangs;
    }

    lemma NotFound(v: T, n: nat)
      requires Sound() && capacity > 0
      requires forall m: nat :: m < n ==> !StopsAt(tr, buckets, capacity, v, m)
      requires Free(buckets[At(tr.next, capacity, tr.hash(v), n)])
      ensures forall j :: 0 <= j < capacity && buckets[j].used ==> !tr.equals(buckets[j].slot.value, v)
      ensures !Contains(tr, Contents(), v)
    {
      forall j | 0 <= j < capacity && buckets[j].used ensures !tr.equals(buckets[j].slot.value, v) {
        NotFurther(tr, buckets, capacity, v, n, j);
      }
      NotContained(tr, buckets, capacity, v);
    }

    lemma HangsHere(v: T)
      requires Laid(buckets, capacity) && UsedCount(buckets, capacity) + DeletedCount(buckets, capacity) < capacity
      requires forall n: nat :: n < HASHES ==> !StopsAt(tr, buckets, capacity, v, n)
      ensures Endless(tr, buckets, capacity, v) && !Covers(tr.next, capacity)
    {
      RoundForever(tr, buckets, capacity, v);
      if Covers(tr.next, capacity) { CoveredEnds(tr, buckets, capacity, v); }
    }

    /** The first used bucket. */
    method Begin() returns (r: Option<nat>)
      requires Laid(buckets, capacity)
      ensures r.Some? ==>
        r.value < capacity && buckets[r.value].used && forall j :: 0 <= j < r.value ==> !buckets[j].used
      ensures r.None? ==> forall j :: 0 <= j < capacity ==> !buckets[j].used
    {
      for i := 0 to capacity
        invariant forall j :: 0 <= j < i ==> !buckets[j].used
      {
        if buckets[i].used { return Some(i); }
      }
      return None;
    }

    /** A lookup for one of the values never ends in the array that is there. */
    ghost predicate Hung(values: set<T>)
      reads this
    {
      && capacity > 0 && Laid(buckets, capacity) && !Covers(tr.next, capacity)
      && exists w :: w in values && Endless(tr, buckets, capacity, w)
    }

    lemma HungInMore(values: set<T>, more: set<T>)
      requires Hung(values) && values <= more
      ensures Hung(more)
    {
      var w :| w in values && Endless(tr, buckets, capacity, w);
      assert w in more;
    }

    lemma NothingIn()
      requires Sound() && size == 0
      ensures Contents() == {}
    {
      SizeIsUsed(tr, buckets, capacity, capacity);
    }

    /** The bucket that holds a value equal to `v`, else the first unused one on its path; grows the table first when it
        is too full. `n` is the place of the bucket on the path. */
    method LookupForWriting(v: T) returns (r: Outcome<nat>, ghost n: nat)
      requires Sound() && RoomWhenDoubled(size, capacity)
      modifies this
      ensures r.Hangs? ==> Hung(old(Contents()) + {v})
      ensures old(!ShouldGrow()) ==>
        && (r.Hangs? <==> old(Endless(tr, buckets, capacity, v)))
        && buckets == old(buckets) && capacity == old(capacity) && deleted == old(deleted) && size == old(size)
      ensures r.Returns? ==>
        && Sound() && Contents() == old(Contents()) && size == old(size)
        && UsedCount(buckets, capacity) == old(UsedCount(buckets, capacity))
        && !ShouldGrow() && capacity >= old(capacity)
        && (deleted == 0 || deleted == old(deleted))
        && WritePlace(v, r.value, n)
      decreases if deleted > 0 then 1 else 0, Shortage(size, capacity), if ShouldGrow() then 2 else 0, 0
    {
      if ShouldGrow() {
        var done := Rehash(capacity * 2);
        if !done {
          HungInMore(old(Contents()), old(Contents()) + {v});
          return Hangs, 0;
        }
      }
      r, n := ProbeForWriting(v);
      assert v in old(Contents()) + {v};
    }

    /** Bucket `k` holds the value equal to `v`, or there is none and it is the n-th and first unused on its path. */
    ghost predicate WritePlace(v: T, k: nat, n: nat)
      requires Laid(buckets, capacity)
      reads this
    {
      && k < capacity && (buckets[k].used <==> Contains(tr, Contents(), v))
      && (buckets[k].used ==> tr.equals(buckets[k].slot.value, v))
      && (!buckets[k].used ==>
        && At(tr.next, capacity, tr.hash(v), n) == k && Clear(tr.next, buckets, capacity, tr.hash(v), n)
        && (forall m: nat {:trigger At(tr.next, capacity, tr.hash(v), m)} ::
          m < n ==> buckets[At(tr.next, capacity, tr.hash(v), m)].used)
        && forall i :: 0 <= i < capacity && buckets[i].used ==> !tr.equals(buckets[i].slot.value, v))
    }

    method ProbeForWriting(v: T) returns (r: Outcome<nat>, ghost n: nat)
      requires Sound() && !ShouldGrow()
      ensures r.Hangs? <==> Endless(tr, buckets, capacity, v)
      ensures r.Hangs? ==> !Covers(tr.next, capacity)
      ensures r.Returns? ==> WritePlace(v, r.value, n)
    {
      var hash := tr.hash(v);
      var probes: nat := 0;
      var firstEmpty: Option<nat> := None;
      n := 0;
      while probes < HASHES
        invariant probes <= HASHES && hash == Probe(tr.next, tr.hash(v), probes)
        invariant forall m: nat :: m < probes ==> !StopsAt(tr, buckets, capacity, v, m)
        invariant FirstUnused(v, firstEmpty, n, probes)
      {
        var i := hash % capacity;
        assert i == At(tr.next, capacity, tr.hash(v), probes);
        if buckets[i].used && tr.equals(buckets[i].slot.value, v) {
          OthersAre(tr, buckets, capacity, i, v);
          assert StopsAt(tr, buckets, capacity, v, probes);
          return Returns(i), probes;
        }
        if !buckets[i].used {
          if firstEmpty.None? {
            firstEmpty := Some(i);
            n := probes;
          }
          if !buckets[i].deleted {
            NotFound(v, probes);
            assert StopsAt(tr, buckets, capacity, v, probes);
            PlaceFound(v, firstEmpty.value, n, probes);
            return Returns(firstEmpty.value), n;
          }
        }
        hash := tr.next(hash);
        probes := probes + 1;
      }
      HangsHere(v);
      return Hangs, 0;
    }

    /** The first unused bucket among the first ones of the path, or none. */
    ghost predicate FirstUnused(v: T, first: Option<nat>, n: nat, probes: nat)
      requires Laid(buckets, capacity) && capacity > 0
      reads this
    {
      && (first.Some? ==>
        n < probes && first.value == At(tr.next, capacity, tr.hash(v), n) && !buckets[first.value].used)
      && forall m: nat {:trigger At(tr.next, capacity, tr.hash(v), m)} ::
        m < (if first.Some? then n else probes) ==> buckets[At(tr.next, capacity, tr.hash(v), m)].used
    }

    lemma PlaceFound(v: T, k: nat, n: nat, probes: nat)
      requires Sound() && capacity > 0 && !Contains(tr, Contents(), v)
      requires forall j :: 0 <= j < capacity && buckets[j].used ==> !tr.equals(buckets[j].slot.value, v)
      requires FirstUnused(v, Some(k), n, probes + 1)
      ensures WritePlace(v, k, n)
    {
    }

    method InsertDuringRehash(v: T) returns (done: bool)
      requires Sound() && deleted == 0 && !Contains(tr, Contents(), v)
      requires UsedCount(buckets, capacity) < size && RoomWhenDoubled(size, capacity)
      modifies this
      ensures !done ==> Hung(old(Contents()) + {v})
      ensures done ==>
        && Sound() && deleted == 0 && size == old(size) && Contents() == old(Contents()) + {v}
        && UsedCount(buckets, capacity) == old(UsedCount(buckets, capacity)) + 1
        && !ShouldGrow() && capacity >= old(capacity)
      decreases 0, Shortage(size, capacity), if ShouldGrow() then 2 else 0, 1
    {
      var r: Outcome<nat>;
      ghost var n: nat;
      r, n := LookupForWriting(v);
      if r.Hangs? {
        return false;
      }
      var k := r.value;
      PutKeepsLayout(tr, buckets, capacity, k, v, n);
      CountsUpdate(buckets, k, Bucket(true, false, false, Some(v)), capacity);
      if buckets[k].deleted { CountsPositive(buckets, k, capacity); }
      buckets := buckets[k := Bucket(true, false, false, Some(v))];
      return true;
    }

    /** Moves all values to a fresh array of at least the asked capacity and at least four buckets. */
    method Rehash(newCapacity: nat) returns (done: bool)
      requires Sound() && RoomWhenDoubled(size, AtLeastFour(newCapacity))
      modifies this
      ensures !done ==> Hung(old(Contents()))
      ensures done ==>
        && Sound() && deleted == 0 && size == old(size) && Contents() == old(Contents())
        && UsedCount(buckets, capacity) == old(UsedCount(buckets, capacity))
        && capacity >= newCapacity && capacity >= 4
        && (old(UsedCount(buckets, capacity)) > 0 || (size + 1) * 100 < capacity * LOAD_FACTOR_IN_PERCENT ==>
          !ShouldGrow())
      decreases 0, Shortage(size, AtLeastFour(newCapacity)), 3
    {
      var oldBuckets, oldCapacity := buckets, capacity;
      var it := Begin();
      UnusedPrefix(oldBuckets, if it.Some? then it.value else oldCapacity);
      Allocate(tr.good(AtLeastFour(newCapacity)));
      done := MoveFrom(oldBuckets, oldCapacity, it, AtLeastFour(newCapacity));
    }

    method Allocate(newCapacity: nat)
      requires Coherent(tr) && newCapacity > 0
      modifies this
      ensures Sound() && capacity == newCapacity && deleted == 0 && size == old(size) && Contents() == {}
      ensures UsedCount(buckets, capacity) == 0
    {
      capacity := newCapacity;
      buckets := seq(capacity, _ => Bucket(false, false, false, None)) + [Bucket(false, false, true, None)];
      deleted := 0;
      NoneUsed(buckets, capacity);
    }

    /** The loop of rehash, from the first used bucket of the old array on. */
    method MoveFrom(from: seq<Bucket<T>>, oldCapacity: nat, first: Option<nat>, ghost least: nat) returns (done: bool)
      requires Sound() && deleted == 0 && Layout(tr, from, oldCapacity) && UsedCount(from, oldCapacity) <= size
      requires capacity >= least > 0 && RoomWhenDoubled(size, least)
      requires first.Some? ==> first.value < oldCapacity && from[first.value].used
      requires var n := if first.Some? then first.value else oldCapacity;
        Contents() == Values(from, n) == {} && UsedCount(buckets, capacity) == UsedCount(from, n) == 0
      modifies this
      ensures !done ==> Hung(Values(from, oldCapacity))
      ensures done ==>
        && Sound() && deleted == 0 && size == old(size) && capacity >= least
        && Contents() == Values(from, oldCapacity)
        && UsedCount(buckets, capacity) == UsedCount(from, oldCapacity)
        && (UsedCount(from, oldCapacity) > 0 || (size + 1) * 100 < capacity * LOAD_FACTOR_IN_PERCENT ==> !ShouldGrow())
      decreases 0, Shortage(size, least), 2, 2
    {
      var it := first;
      ghost var place := if it.Some? then it.value else oldCapacity;
      while it.Some?
        invariant Sound() && deleted == 0 && size == old(size) && capacity >= least
        invariant place == if it.Some? then it.value else oldCapacity
        invariant place <= oldCapacity && (it.Some? ==> place < oldCapacity && from[place].used)
        invariant Contents() == Values(from, place)
        invariant UsedCount(buckets, capacity) == UsedCount(from, place)
        invariant UsedCount(from, place) > 0 || (size + 1) * 100 < capacity * LOAD_FACTOR_IN_PERCENT ==> !ShouldGrow()
        decreases oldCapacity - place
      {
        UsedMonotone(from, place + 1, oldCapacity);
        NotYetMoved(tr, from, oldCapacity, place);
        ghost var moved := Contents() + {from[it.value].slot.value};
        done := InsertDuringRehash(from[it.value].slot.value);
        if !done {
          HungInMore(moved, Values(from, oldCapacity));
          return;
        }
        it := SkipToNext(from, oldCapacity, it.value);
        ghost var next := if it.Some? then it.value else oldCapacity;
        SkippedUnused(from, place, next);
        place := next;
      }
      done := true;
    }

    /** Adds `v`, or replaces or keeps the equal value that is there. */
    method Set(v: T, existing: ExistingEntry) returns (r: Outcome<SetResult>)
      requires Valid()
      modifies this
      ensures r.Hangs? ==> Hung(old(Contents()) + {v})
      ensures old(!ShouldGrow()) ==> (r.Hangs? <==> old(Endless(tr, buckets, capacity, v)))
      ensures old(!ShouldGrow()) && r.Hangs? ==>
        buckets == old(buckets) && capacity == old(capacity) && deleted == old(deleted) && size == old(size)
      ensures r.Returns? ==>
        && Valid() && capacity > 0 && (size + deleted) * 100 < capacity * LOAD_FACTOR_IN_PERCENT
        && size == |Contents()| && Contents() == AfterSet(tr, old(Contents()), v, existing)
        && r.value == if !old(Contains(tr, Contents(), v)) then InsertedNewEntry
                      else if existing == Keep then KeptExistingEntry else ReplacedExistingEntry
    {
      var place: Outcome<nat>;
      ghost var n: nat;
      place, n := LookupForWriting(v);
      if place.Hangs? {
        return Hangs;
      }
      var k := place.value;
      if buckets[k].used {
        OthersAre(tr, buckets, capacity, k, v);
        if existing == Keep {
          SizeIsUsed(tr, buckets, capacity, capacity);
          return Returns(KeptExistingEntry);
        }
        ReplaceAt(k, v);
        return Returns(ReplacedExistingEntry);
      }
      NotContained(tr, buckets, capacity, v);
      InsertAt(k, v, n);
      return Returns(InsertedNewEntry);
    }

    method ReplaceAt(k: nat, v: T)
      requires Valid() && k < capacity && buckets[k].used && tr.equals(buckets[k].slot.value, v)
      modifies this
      ensures Valid() && capacity == old(capacity) && size == |Contents()|
      ensures Contents() == old(Contents()) - {old(buckets)[k].slot.value} + {v}
    {
      var entry := Bucket(true, false, false, Some(v));
      CountsUpdate(buckets, k, entry, capacity);
      ReplaceKeepsLayout(tr, buckets, capacity, k, v);
      buckets := buckets[k := entry];
      SizeIsUsed(tr, buckets, capacity, capacity);
    }

    /** Writes a new value into a free bucket or over a tombstone. */
    method InsertAt(k: nat, v: T, ghost n: nat)
      requires Valid() && k < capacity && !buckets[k].used && !ShouldGrow()
      requires At(tr.next, capacity, tr.hash(v), n) == k && Clear(tr.next, buckets, capacity, tr.hash(v), n)
      requires forall i :: 0 <= i < capacity && buckets[i].used ==> !tr.equals(buckets[i].slot.value, v)
      modifies this
      ensures Valid() && capacity == old(capacity) && size == |Contents()|
      ensures Contents() == old(Contents()) + {v}
    {
      var entry := Bucket(true, false, false, Some(v));
      CountsUpdate(buckets, k, entry, capacity);
      CountsPositive(buckets, k, capacity);
      PutKeepsLayout(tr, buckets, capacity, k, v, n);
      if buckets[k].deleted {
        deleted := deleted - 1;
      }
      buckets := buckets[k := entry];
      size := size + 1;
      SizeIsUsed(tr, buckets, capacity, capacity);
    }

    /** Removes the value equal to `v`, leaving a tombstone. */
    method Remove(v: T) returns (r: Outcome<bool>)
      requires Valid()
      modifies this
      ensures r.Hangs? <==> old(size > 0 && Endless(tr, buckets, capacity, v))
      ensures Valid() && size == |Contents()| && capacity == old(capacity)
      ensures r.Hangs? ==> !Covers(tr.next, capacity) && Contents() == old(Contents())
      ensures r.Returns? ==>
        r.value == old(Contains(tr, Contents(), v)) && Contents() == Others(tr, old(Contents()), v)
    {
      var it := Find(v);
      SizeIsUsed(tr, buckets, capacity, capacity);
      if it.Hangs? {
        return Hangs;
      }
      if it.value.None? {
        return Returns(false);
      }
      var k := it.value.value;
      OthersAre(tr, buckets, capacity, k, v);
      TombstoneKeepsLayout(tr, buckets, capacity, k);
      CountsUpdate(buckets, k, Bucket(false, true, false, None), capacity);
      CountsPositive(buckets, k, capacity);
      buckets := buckets[k := Bucket(false, true, false, None)];
      size := size - 1;
      deleted := deleted + 1;
      SizeIsUsed(tr, buckets, capacity, capacity);
      return Returns(true);
    }

    /** Makes room for `wanted` values. */
    method EnsureCapacity(wanted: nat) returns (done: bool)
      requires Valid() && wanted >= size
      modifies this
      ensures !done ==> Hung(old(Contents()))
      ensures done ==>
        && Valid() && deleted == 0 && size == old(size) && Contents() == old(Contents()) && capacity >= wanted * 2
    {
      done := Rehash(wanted * 2);
    }

    /** The values the iterator yields, bucket by bucket. */
    method Iterate() returns (all: seq<T>)
      requires Valid()
      ensures (set x | x in all) == Contents() && |all| == size
    {
      all := [];
      var it := Begin();
      ghost var done := if it.Some? then it.value else capacity;
      UnusedPrefix(buckets, done);
      while it.Some?
        invariant done == if it.Some? then it.value else capacity
        invariant done <= capacity && (it.Some? ==> done < capacity && buckets[done].used)
        invariant (set x | x in all) == Values(buckets, done) && |all| == UsedCount(buckets, done)
        decreases capacity - done
      {
        all := all + [buckets[it.value].slot.value];
        it := SkipToNext(buckets, capacity, it.value);
        ghost var next := if it.Some? then it.value else capacity;
        SkippedUnused(buckets, done, next);
        done := next;
      }
    }
  }
}
