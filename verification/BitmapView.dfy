/** The searches of base/BitmapView.h, word by word. */
module BitmapViews {
  import opened Bytes
  import opened Optional
  import opened BitRanges

  function Zeros(n: nat): (w: seq<bool>)
    ensures |w| == n && forall i :: 0 <= i < n ==> !w[i]
  {
    seq(n, _ => false)
  }

  /** A 32-bit word shifted right. */
  function Shr(w: seq<bool>, n: nat): seq<bool>
    requires n <= |w|
  {
    w[n..] + Zeros(n)
  }

  function Inverted(w: seq<bool>): (r: seq<bool>)
    ensures |r| == |w| && forall i :: 0 <= i < |w| ==> r[i] == !w[i]
  {
    seq(|w|, i requires 0 <= i < |w| => !w[i])
  }

  /** count_trailing_zeroes_32 of a word that is not zero. */
  function TrailingZeroes(w: seq<bool>): (t: nat)
    requires exists i :: 0 <= i < |w| && w[i]
    ensures t < |w| && w[t] && forall i :: 0 <= i < t ==> !w[i]
  {
    if w[0] then 0
    else
      assert exists i :: 0 <= i < |w[1..]| && w[1..][i] by {
        var i :| 0 <= i < |w| && w[i];
        assert w[1..][i - 1];
      }
      1 + TrailingZeroes(w[1..])
  }

  /** What find_next_range_of_unset_bits returns: the first range of at least n, cut to `max`. */
  ghost predicate Found(bits: seq<bool>, first: nat, n: nat, max: nat, start: nat, len: nat) {
    && n <= len <= max && first <= start && Fit(bits, start, len)
    && forall s {:trigger Fit(bits, s, n)} :: first <= s < start ==> !Fit(bits, s, n)
  }

  /** The range is as long as it can be. */
  ghost predicate Whole(bits: seq<bool>, max: nat, start: nat, len: nat)
    requires start + len <= |bits|
  {
    len == max || start + len == |bits| || bits[start + len]
  }

  /** In whole buckets a range is taken whole, up to their end; behind them it is only taken as far as asked for. */
  ghost predicate Exact(bits: seq<bool>, n: nat, max: nat, start: nat, len: nat)
    requires start + len <= |bits|
  {
    var end := |bits| / 32 * 32;
    if start + n <= end then start + len <= end && (len == max || start + len == end || bits[start + len]) else len == n
  }

  lemma FoundFrom(bits: seq<bool>, first: nat, n: nat, max: nat, p: nat, free: nat)
    requires Scanned(bits, first, n, p, free) && 0 < n <= free && n <= max
    ensures Found(bits, first, n, max, p - free, Min(free, max))
  {
    ScanFound(bits, first, n, p, free);
  }

  /** The word holds the bits of a bucket from `viewed` on, and zeros behind them. */
  ghost predicate WordAt(word: seq<bool>, bits: seq<bool>, base: nat, viewed: nat)
    requires base + 32 <= |bits| && viewed <= 32
  {
    |word| == 32
      && forall i {:trigger word[i]} :: 0 <= i < 32 ==> word[i] == (i < 32 - viewed && bits[base + viewed + i])
  }

  lemma WordShifted(word: seq<bool>, bits: seq<bool>, base: nat, viewed: nat, k: nat)
    requires base + 32 <= |bits| && viewed + k <= 32 && WordAt(word, bits, base, viewed)
    ensures WordAt(Shr(word, k), bits, base, viewed + k)
  {
  }

  lemma WordOfBucket(bits: seq<bool>, base: nat, viewed: nat)
    requires base + 32 <= |bits| && viewed <= 32
    ensures WordAt(Shr(bits[base..base + 32], viewed), bits, base, viewed)
  {
  }

  predicate NotZero(word: seq<bool>) {
    exists i :: 0 <= i < |word| && word[i]
  }

  lemma WordZero(word: seq<bool>, bits: seq<bool>, base: nat, viewed: nat)
    requires base + 32 <= |bits| && viewed <= 32 && WordAt(word, bits, base, viewed) && !NotZero(word)
    ensures Unset(bits, base + viewed, base + 32)
  {
    forall i | base + viewed <= i < base + 32 ensures !bits[i] { assert !word[i - base - viewed]; }
  }

  lemma WordZeroes(word: seq<bool>, bits: seq<bool>, base: nat, viewed: nat)
    requires base + 32 <= |bits| && viewed <= 32 && WordAt(word, bits, base, viewed) && NotZero(word)
    ensures viewed + TrailingZeroes(word) < 32 && bits[base + viewed + TrailingZeroes(word)]
    ensures Unset(bits, base + viewed, base + viewed + TrailingZeroes(word))
  {
    var t := TrailingZeroes(word);
    assert word[t];
    forall i | base + viewed <= i < base + viewed + t ensures !bits[i] { assert !word[i - base - viewed]; }
  }

  /** The set bits in front: there are some, and they end in the bucket or with it. */
  lemma WordOnes(word: seq<bool>, bits: seq<bool>, base: nat, viewed: nat)
    requires base + 32 <= |bits| && viewed < 32 && WordAt(word, bits, base, viewed) && bits[base + viewed]
    requires !Full(bits, base)
    ensures NotZero(Inverted(word))
    ensures var k := TrailingZeroes(Inverted(word));
      0 < k <= 32 - viewed && forall i :: base + viewed <= i < base + viewed + k ==> bits[i]
  {
    var w := Inverted(word);
    assert word[0] && !w[0];
    if viewed > 0 {
      assert !word[32 - viewed] && w[32 - viewed];
    } else {
      var i :| base <= i < base + 32 && !bits[i];
      assert !word[i - base] && w[i - base];
    }
    var k := TrailingZeroes(w);
    forall i | base + viewed <= i < base + viewed + k ensures i < base + 32 && bits[i] { assert !w[i - base - viewed]; }
  }

  predicate Full(bits: seq<bool>, base: nat)
    requires base + 32 <= |bits|
  {
    forall i :: base <= i < base + 32 ==> bits[i]
  }

  predicate Empty(bits: seq<bool>, base: nat)
    requires base + 32 <= |bits|
  {
    forall i :: base <= i < base + 32 ==> !bits[i]
  }

  /** The scan has come to p, and `start` is where the current run began. */
  ghost predicate At(bits: seq<bool>, first: nat, n: nat, p: nat, free: nat, start: nat) {
    Scanned(bits, first, n, p, free) && (free > 0 ==> start == p - free)
  }

  /** One round of the loop over a bucket that is neither full nor empty. */
  method ScanRound(bits: seq<bool>, ghost first: nat, n: nat, max: nat, base: nat, viewed: nat, free: nat, start: nat,
      word: seq<bool>)
    returns (found: Option<nat>, viewed': nat, free': nat, start': nat, word': seq<bool>)
    requires 0 < n <= max && base + 32 <= |bits| && viewed < 32 && !Full(bits, base)
    requires WordAt(word, bits, base, viewed) && At(bits, first, n, base + viewed, free, start)
    ensures found.Some? ==> Found(bits, first, n, max, start', found.value) && Whole(bits, max, start', found.value)
    ensures found.Some? ==> start' + found.value <= base + 32
    ensures found.None? ==>
      viewed < viewed' <= 32 && WordAt(word', bits, base, viewed') && At(bits, first, n, base + viewed', free', start')
  {
    start' := if free == 0 then base + viewed else start;
    if !NotZero(word) {
      WordZero(word, bits, base, viewed);
      ScanUnset(bits, first, n, base + viewed, free, 32 - viewed);
      WordShifted(word, bits, base, viewed, 32 - viewed);
      return None, 32, free + (32 - viewed), start', Shr(word, 32 - viewed);
    }
    viewed', free', word' := TakeZeroes(bits, first, n, base, viewed, free, word);
    if free' >= n {
      FoundFrom(bits, first, n, max, base + viewed', free');
      return Some(Min(free', max)), viewed', free', start', word';
    }
    viewed', word' := SkipOnes(bits, first, n, base, viewed', free', word');
    return None, viewed', 0, start', word';
  }

  /** Counts the unset bits in front of a word that is not zero. */
  method TakeZeroes(bits: seq<bool>, ghost first: nat, ghost n: nat, ghost base: nat, viewed: nat, free: nat,
      word: seq<bool>)
    returns (viewed': nat, free': nat, word': seq<bool>)
    requires base + 32 <= |bits| && viewed < 32 && WordAt(word, bits, base, viewed) && NotZero(word)
    requires Scanned(bits, first, n, base + viewed, free)
    ensures viewed <= viewed' < 32 && bits[base + viewed'] && free' - free == viewed' - viewed
    ensures WordAt(word', bits, base, viewed') && Scanned(bits, first, n, base + viewed', free')
  {
    var zeroes := TrailingZeroes(word);
    WordZeroes(word, bits, base, viewed);
    ScanUnset(bits, first, n, base + viewed, free, zeroes);
    WordShifted(word, bits, base, viewed, zeroes);
    free' := free + zeroes;
    viewed' := viewed + zeroes;
    word' := Shr(word, zeroes);
  }

  /** Passes over the set bits in front of the word. */
  method SkipOnes(bits: seq<bool>, ghost first: nat, ghost n: nat, ghost base: nat, viewed: nat, ghost free: nat,
      word: seq<bool>)
    returns (viewed': nat, word': seq<bool>)
    requires base + 32 <= |bits| && viewed < 32 && !Full(bits, base) && WordAt(word, bits, base, viewed)
      && bits[base + viewed]
    requires Scanned(bits, first, n, base + viewed, free) && free < n
    ensures viewed < viewed' <= 32 && WordAt(word', bits, base, viewed') && Scanned(bits, first, n, base + viewed', 0)
  {
    WordOnes(word, bits, base, viewed);
    var ones := TrailingZeroes(Inverted(word));
    ScanSet(bits, first, n, base + viewed, free, ones);
    WordShifted(word, bits, base, viewed, ones);
    viewed' := viewed + ones;
    word' := Shr(word, ones);
  }

  method ScanBucket(bits: seq<bool>, ghost first: nat, n: nat, max: nat, base: nat, viewed0: nat, free0: nat,
      start0: nat)
    returns (found: Option<nat>, free: nat, start: nat)
    requires 0 < n <= max && base + 32 <= |bits| && viewed0 < 32 && !Full(bits, base)
    requires At(bits, first, n, base + viewed0, free0, start0)
    ensures found.Some? ==> Found(bits, first, n, max, start, found.value) && Whole(bits, max, start, found.value)
    ensures found.Some? ==> start + found.value <= base + 32
    ensures found.None? ==> At(bits, first, n, base + 32, free, start)
  {
    free, start := free0, start0;
    var viewed: nat := viewed0;
    var word := Shr(bits[base..base + 32], viewed);
    WordOfBucket(bits, base, viewed);
    while viewed < 32
      invariant viewed <= 32 && WordAt(word, bits, base, viewed) && At(bits, first, n, base + viewed, free, start)
      decreases 32 - viewed
    {
      found, viewed, free, start, word := ScanRound(bits, first, n, max, base, viewed, free, start, word);
      if found.Some? {
        return;
      }
    }
    found := None;
  }

  /** The first bit behind the whole buckets. */
  function Border(bits: seq<bool>): nat {
    |bits| / 32 * 32
  }

  /** Where a scan from `first` begins: in an empty bucket with its first bit, and behind the whole buckets with the
      first bit there. */
  ghost function Begins(bits: seq<bool>, first: nat): (b: nat)
    ensures b <= first && b <= |bits|
  {
    if first / 32 >= |bits| / 32 then Border(bits)
    else if Empty(bits, first / 32 * 32) then first / 32 * 32
    else first
  }

  /** One bucket: full and empty ones are passed over at once. */
  method ScanWholeBucket(bits: seq<bool>, ghost first: nat, n: nat, max: nat, base: nat, startBit: nat, free: nat,
      start: nat)
    returns (found: Option<nat>, free': nat, start': nat)
    requires 0 < n <= max && base + 32 <= |bits| && startBit < 32
    requires At(bits, first, n, if Empty(bits, base) then base else base + startBit, free, start)
    ensures found.Some? ==> Found(bits, first, n, max, start', found.value) && Whole(bits, max, start', found.value)
    ensures found.Some? ==> start' + found.value <= base + 32
    ensures found.None? ==> At(bits, first, n, base + 32, free', start')
  {
    found, free', start' := None, free, start;
    if Full(bits, base) {
      assert bits[base];
      if free >= n {
        FoundFrom(bits, first, n, max, base + startBit, free);
        return Some(Min(free, max)), free, start;
      }
      ScanSet(bits, first, n, base + startBit, free, 32 - startBit);
      free' := 0;
    } else if Empty(bits, base) {
      if free == 0 {
        start' := base;
      }
      ScanUnset(bits, first, n, base, free, 32);
      free' := free + 32;
      if free' >= max {
        FoundFrom(bits, first, n, max, base + 32, free');
        return Some(max), free', start';
      }
    } else {
      found, free', start' := ScanBucket(bits, first, n, max, base, startBit, free, start);
    }
  }

  /** find_next_range_of_unset_bits */
  method FindNextRangeOfUnsetBits(bits: seq<bool>, first: nat, n: nat, max: nat)
    returns (found: Option<nat>, start: nat)
    requires n > 0
    ensures n > max ==> found.None?
    ensures found.Some? ==> Found(bits, Begins(bits, first), n, max, start, found.value)
    ensures found.Some? ==> Exact(bits, n, max, start, found.value)
    ensures found.None? && n <= max ==> NoFit(bits, Begins(bits, first), |bits|, n)
  {
    start := first;
    if n > max {
      return None, start;
    }
    ghost var begin := Begins(bits, first);
    var startBit: nat := first % 32;
    var free: nat := 0;
    ScanStart(bits, begin, n);
    var bucket: nat := first / 32;
    while bucket < |bits| / 32
      invariant startBit < 32 && first / 32 <= bucket
        && (startBit > 0 ==> bucket == first / 32 && startBit == first % 32)
      invariant if bucket == first / 32 then startBit == first % 32 && free == 0 && Scanned(bits, begin, n, begin, 0)
        else startBit == 0 && bucket <= |bits| / 32 && At(bits, begin, n, bucket * 32, free, start)
      decreases |bits| / 32 - bucket
    {
      found, free, start := ScanWholeBucket(bits, begin, n, max, bucket * 32, startBit, free, start);
      if found.Some? {
        return;
      }
      startBit := 0;
      bucket := bucket + 1;
    }
    found, start := ScanTrailing(bits, begin, n, max, free, start);
  }

  /** What is left behind the last whole bucket is looked at bit by bit. */
  method ScanTrailing(bits: seq<bool>, ghost first: nat, n: nat, max: nat, free0: nat, start0: nat)
    returns (found: Option<nat>, start: nat)
    requires 0 < n <= max && At(bits, first, n, |bits| / 32 * 32, free0, start0)
    ensures found.Some? ==> Found(bits, first, n, max, start, found.value)
    ensures found.Some? ==> Exact(bits, n, max, start, found.value)
    ensures found.None? ==> NoFit(bits, first, |bits|, n)
  {
    start := start0;
    var firstTrailing := |bits| / 32 * 32;
    if free0 >= n {
      FoundFrom(bits, first, n, max, firstTrailing, free0);
      return Some(Min(free0, max)), start;
    }
    var free: nat := free0;
    for i := 0 to |bits| % 32
      invariant At(bits, first, n, firstTrailing + i, free, start) && free < n
    {
      if !bits[firstTrailing + i] {
        if free == 0 {
          start := firstTrailing + i;
        }
        ScanUnset(bits, first, n, firstTrailing + i, free, 1);
        free := free + 1;
        if free >= n {
          FoundFrom(bits, first, n, max, firstTrailing + i + 1, free);
          return Some(Min(free, max)), start;
        }
      } else {
        ScanSet(bits, first, n, firstTrailing + i, free, 1);
        free := 0;
      }
    }
    ScanEnd(bits, first, n, free);
    found := None;
  }

  /** The lowest place for n bits, in a bitmap of any size. */
  method FindFirstFit(bits: seq<bool>, n: nat) returns (r: Option<nat>)
    requires n > 0
    ensures r.Some? ==>
      Fit(bits, r.value, n) && forall s {:trigger Fit(bits, s, n)} :: 0 <= s < r.value ==> !Fit(bits, s, n)
    ensures r.None? ==> forall s {:trigger Fit(bits, s, n)} :: !Fit(bits, s, n)
  {
    var found, start := FindNextRangeOfUnsetBits(bits, 0, n, n);
    r := if found.Some? then Some(start) else None;
  }

  /** No range longer than `best` begins before `start`. */
  ghost predicate NoLonger(bits: seq<bool>, start: nat, best: nat) {
    forall s {:trigger Fit(bits, s, best + 1)} :: 0 <= s < start ==> !Fit(bits, s, best + 1)
  }

  lemma LongerFound(bits: seq<bool>, start: nat, best: nat, max: nat, found: nat, len: nat)
    requires Found(bits, start, best + 1, max, found, len) && Whole(bits, max, found, len)
      && NoLonger(bits, start, best)
    ensures len == max || NoLonger(bits, found + len, len)
  {
    var longer := len + 1;
    forall s | 0 <= s < found + len && len != max ensures !Fit(bits, s, longer) {
      assert Fit(bits, s, longer) ==> Fit(bits, s, best + 1);
    }
  }

  /** A bitmap size and a limit for which the search finds a longest range in every bitmap: whole buckets, none, or a
      limit of one. */
  predicate Safe(size: nat, max: nat) {
    size % 32 == 0 || size < 32 || max <= 1
  }

  /** Only the last bit of the buckets and the first one behind them are unset. */
  ghost predicate Trap(bits: seq<bool>) {
    && |bits| > 32 && |bits| % 32 != 0
    && forall i :: 0 <= i < |bits| ==> (!bits[i] <==> i == Border(bits) - 1 || i == Border(bits))
  }

  /** In a trap the first round finds one bit. */
  lemma TrapFirst(bits: seq<bool>, max: nat, start: nat, len: nat)
    requires Trap(bits) && Found(bits, Begins(bits, 0), 1, max, start, len) && Exact(bits, 1, max, start, len)
    ensures len == 1 && start + 1 == Border(bits)
  {
    assert bits[0] && !bits[start];
    assert Fit(bits, Border(bits) - 1, 1);
  }

  /** From the border on there are no two. */
  lemma TrapSecond(bits: seq<bool>, start: nat, len: nat)
    requires Trap(bits) && Fit(bits, start, len) && len >= 2
    ensures start < Border(bits)
  {
    assert !bits[start] && !bits[start + 1];
  }

  /** find_longest_range_of_unset_bits: a longest range of unset bits, cut to `max`, if the size is safe. */
  method FindLongestRangeOfUnsetBits(bits: seq<bool>, max: nat) returns (r: Option<nat>, size: nat)
    ensures size <= max && (r.Some? <==> size > 0) && (r.Some? ==> Fit(bits, r.value, size))
    ensures Safe(|bits|, max) ==>
      forall s, n: nat {:trigger Fit(bits, s, n)} :: Fit(bits, s, n) && n <= max ==> n <= size
    ensures Trap(bits) && max >= 2 ==> size == 1
  {
    var start: nat := 0;
    var bestStart: nat := 0;
    size := 0;
    while true
      invariant size <= max && (size > 0 ==> Fit(bits, bestStart, size))
      invariant Safe(|bits|, max) ==> size == max || NoLonger(bits, Begins(bits, start), size)
      invariant Trap(bits) ==> if size == 0 then start == 0 else size == 1 && start == Border(bits)
      decreases max - size
    {
      var found: Option<nat>;
      ghost var before := Begins(bits, start);
      found, start := FindNextRangeOfUnsetBits(bits, start, size + 1, max);
      if found.None? {
        forall s, n: nat | Safe(|bits|, max) && Fit(bits, s, n) && n <= max ensures n <= size {
          if n > size { assert Fit(bits, s, size + 1); }
        }
        assert Trap(bits) ==> Fit(bits, Border(bits) - 1, 1) && Begins(bits, 0) == 0 by {
          if Trap(bits) { assert bits[0]; }
        }
        break;
      }
      if Trap(bits) && size == 0 { TrapFirst(bits, max, start, found.value); }
      if Trap(bits) && size == 1 { TrapSecond(bits, start, found.value); }
      if |bits| % 32 == 0 { LongerFound(bits, before, size, max, start, found.value); }
      bestStart := start;
      size := found.value;
      start := start + size;
    }
    r := if size > 0 then Some(bestStart) else None;
  }

  /** Every other size and limit has a bitmap with a range of two of which the search finds one. */
  method LongestLosesTail(l: nat, max: nat) returns (bits: seq<bool>, r: Option<nat>, size: nat)
    requires !Safe(l, max)
    ensures |bits| == l && max >= 2 && Fit(bits, l / 32 * 32 - 1, 2) && size == 1
  {
    bits := seq(l, i => i != l / 32 * 32 - 1 && i != l / 32 * 32);
    r, size := FindLongestRangeOfUnsetBits(bits, max);
  }
}
