/** What base/MemMem.h searches for, as plain mathematics on sequences. */
module Occurrences {
  import opened Optional

  ghost predicate OccursAt<T>(hay: seq<T>, needle: seq<T>, i: int) {
    0 <= i <= i + |needle| <= |hay| && hay[i..i + |needle|] == needle
  }

  /** `r` is the least index at which the needle occurs, or None if there is none. */
  ghost predicate IsFirst<T>(hay: seq<T>, needle: seq<T>, r: Option<nat>) {
    match r
    case Some(i) => OccursAt(hay, needle, i) && forall j :: 0 <= j < i ==> !OccursAt(hay, needle, j)
    case None => forall j :: 0 <= j <= |hay| ==> !OccursAt(hay, needle, j)
  }

  /** The first `k` elements of `p` stand right before index `t` of `s`. */
  ghost predicate EndsAt<T>(s: seq<T>, p: seq<T>, t: int, k: int) {
    0 <= k <= t <= |s| && k <= |p| && s[t - k..t] == p[..k]
  }

  /** The pieces of a chunked haystack put together. */
  ghost function Flat<T>(chunks: seq<seq<T>>): seq<T> {
    if chunks == [] then [] else Flat(chunks[..|chunks| - 1]) + chunks[|chunks| - 1]
  }

  lemma FlatAppend<T>(chunks: seq<seq<T>>, last: seq<T>)
    ensures Flat(chunks + [last]) == Flat(chunks) + last
  {
    assert (chunks + [last])[..|chunks|] == chunks;
  }

  lemma {:induction false} FlatPrefix<T>(chunks: seq<seq<T>>, n: nat)
    requires n <= |chunks|
    ensures Flat(chunks[..n]) <= Flat(chunks)
  {
    if n < |chunks| {
      FlatPrefix(chunks[..|chunks| - 1], n);
      assert chunks[..|chunks| - 1][..n] == chunks[..n];
    } else {
      assert chunks[..n] == chunks;
    }
  }

  /** Element `j` of chunk `i` stands after all earlier chunks. */
  lemma FlatAt<T>(chunks: seq<seq<T>>, i: nat, j: nat)
    requires i < |chunks| && j <= |chunks[i]|
    ensures |Flat(chunks[..i])| + j <= |Flat(chunks)|
    ensures |Flat(chunks[..i + 1])| == |Flat(chunks[..i])| + |chunks[i]|
    ensures j < |chunks[i]| ==>
      |Flat(chunks[..i])| + j < |Flat(chunks)| && Flat(chunks)[|Flat(chunks[..i])| + j] == chunks[i][j]
  {
    FlatPrefix(chunks, i + 1);
    assert chunks[..i + 1][..i] == chunks[..i];
  }
}

/** The Knuth-Morris-Pratt search of base/MemMem.h: the failure table with its shortcut, and the scan over chunks. */
module KnuthMorrisPratt {
  import opened Optional
  import opened Occurrences

  /** The first `k` elements of the needle end at `i` as well, with `k < i`. */
  ghost predicate Border<T>(p: seq<T>, i: int, k: int) {
    k < i && EndsAt(p, p, i, k)
  }

  /** `f` is the longest border of `p[..i]` that is not followed by `p[i]` again; -1 if there is none. */
  ghost predicate FallsBackTo<T>(p: seq<T>, i: int, f: int) {
    && 0 <= i < |p| && -1 <= f < i
    && (f >= 0 ==> Border(p, i, f) && p[f] != p[i])
    && forall k :: f < k < i && Border(p, i, k) ==> p[k] == p[i]
  }

  ghost predicate LongestBorder<T>(p: seq<T>, i: int, c: int) {
    Border(p, i, c) && forall k :: c < k < i ==> !Border(p, i, k)
  }

  /** Two matches that end in the same place: the shorter is a border of the longer. */
  lemma ShorterIsBorder<T>(s: seq<T>, p: seq<T>, t: int, j: int, k: int)
    requires EndsAt(s, p, t, j) && EndsAt(s, p, t, k) && k < j
    ensures Border(p, j, k)
  {
    assert p[j - k..j] == s[t - j..t][j - k..j] == s[t - k..t];
  }

  lemma BorderEndsAt<T>(s: seq<T>, p: seq<T>, t: int, j: int, k: int)
    requires EndsAt(s, p, t, j) && Border(p, j, k)
    ensures EndsAt(s, p, t, k)
  {
    assert s[t - k..t] == s[t - j..t][j - k..j] == p[j - k..j];
  }

  lemma EndsAtExtends<T>(s: seq<T>, p: seq<T>, t: int, k: int)
    requires 0 <= t < |s| && 0 <= k < |p|
    ensures EndsAt(s, p, t + 1, k + 1) <==> EndsAt(s, p, t, k) && s[t] == p[k]
  {
    if EndsAt(s, p, t + 1, k + 1) {
      assert s[t - k..t] == s[t - k..t + 1][..k] == p[..k + 1][..k];
      assert s[t] == s[t - k..t + 1][k] == p[..k + 1][k];
    }
    if EndsAt(s, p, t, k) && s[t] == p[k] {
      assert s[t - k..t + 1] == s[t - k..t] + [s[t]];
      assert p[..k + 1] == p[..k] + [p[k]];
    }
  }

  /** Copying the entry of an equal element: the shortcut that makes the table the optimised one. */
  lemma SameElementFallsBack<T>(p: seq<T>, i: int, c: int, f: int)
    requires 0 < i < |p| && LongestBorder(p, i, c) && p[i] == p[c] && FallsBackTo(p, c, f)
    ensures FallsBackTo(p, i, f)
  {
    if f >= 0 { BorderEndsAt(p, p, i, c, f); }
    forall k | f < k < i && Border(p, i, k) ensures p[k] == p[i] {
      if k < c { ShorterIsBorder(p, p, i, c, k); }
    }
  }

  /** What the inner loop keeps: every longer border is followed by the wrong element. */
  ghost predicate TriedAbove<T>(p: seq<T>, i: int, c: int) {
    && 0 < i < |p| && -1 <= c < i && (c >= 0 ==> Border(p, i, c))
    && forall k :: c < k < i && Border(p, i, k) ==> p[k] != p[i]
  }

  lemma FallBackTries<T>(p: seq<T>, i: int, c: int, f: int)
    requires TriedAbove(p, i, c) && c >= 0 && p[c] != p[i] && FallsBackTo(p, c, f)
    ensures TriedAbove(p, i, f)
  {
    if f >= 0 { BorderEndsAt(p, p, i, c, f); }
    forall k | f < k < i && Border(p, i, k) ensures p[k] != p[i] {
      if k < c { ShorterIsBorder(p, p, i, c, k); }
    }
  }

  lemma NextLongestBorder<T>(p: seq<T>, i: int, c: int)
    requires TriedAbove(p, i, c) && (c >= 0 ==> p[c] == p[i])
    ensures LongestBorder(p, i + 1, c + 1)
  {
    if c >= 0 { EndsAtExtends(p, p, i, c); }
    var next := i + 1;
    forall k | c + 1 < k < next ensures !Border(p, next, k) {
      EndsAtExtends(p, p, i, k - 1);
    }
  }

  /** The inner loop of prepare_kmp_partial_table: the longest border that the element at `position` continues. */
  method NextCandidate<T(==)>(needle: seq<T>, table: array<int>, position: nat, start: int)
    returns (candidate: int, ghost comparisons: nat)
    requires 0 < position < |needle| == table.Length && TriedAbove(needle, position, start) && start >= 0
    requires needle[start] != needle[position]
    requires forall i :: 0 <= i < position ==> FallsBackTo(needle, i, table[i])
    ensures TriedAbove(needle, position, candidate) && (candidate >= 0 ==> needle[candidate] == needle[position])
    ensures comparisons <= start - candidate
  {
    FallBackTries(needle, position, start, table[start]);
    candidate, comparisons := table[start], 0;
    while candidate >= 0 && needle[candidate] != needle[position]
      invariant TriedAbove(needle, position, candidate)
      invariant comparisons <= start - 1 - candidate
      decreases candidate + 1
    {
      FallBackTries(needle, position, candidate, table[candidate]);
      candidate, comparisons := table[candidate], comparisons + 1;
    }
    comparisons := comparisons + if candidate >= 0 then 1 else 0;
  }

  /** prepare_kmp_partial_table, with a count of the comparisons between elements. */
  method PartialTable<T(==)>(needle: seq<T>) returns (table: array<int>, ghost comparisons: nat)
    requires |needle| > 0
    ensures fresh(table) && table.Length == |needle|
    ensures forall i :: 0 <= i < |needle| ==> FallsBackTo(needle, i, table[i])
    ensures comparisons <= 2 * |needle|
  {
    table := new int[|needle|];
    comparisons := 0;
    var position := 1;
    var candidate := 0;
    table[0] := -1;
    while position < |needle|
      invariant 1 <= position <= |needle|
      invariant LongestBorder(needle, position, candidate)
      invariant forall i :: 0 <= i < position ==> FallsBackTo(needle, i, table[i])
      invariant comparisons <= 2 * (position - 1) - candidate
    {
      comparisons := comparisons + 1;
      if needle[position] == needle[candidate] {
        SameElementFallsBack(needle, position, candidate, table[candidate]);
        table[position] := table[candidate];
      } else {
        table[position] := candidate;
        ghost var more;
        candidate, more := NextCandidate(needle, table, position, candidate);
        comparisons := comparisons + more;
      }
      NextLongestBorder(needle, position, candidate);
      position := position + 1;
      candidate := candidate + 1;
    }
  }

  /** What the scan keeps after `t` elements with `j` of the needle matched. */
  ghost predicate Scanned<T>(hay: seq<T>, needle: seq<T>, t: int, j: int) {
    && 0 <= j < |needle| && EndsAt(hay, needle, t, j)
    && forall s :: 0 <= s < t - j ==> !OccursAt(hay, needle, s)
  }

  lemma OccursEndsAt<T>(hay: seq<T>, needle: seq<T>, s: int, k: int)
    requires OccursAt(hay, needle, s) && 0 <= k <= |needle|
    ensures EndsAt(hay, needle, s + k, k)
    ensures k < |needle| ==> hay[s + k] == needle[k]
  {
    assert hay[s..s + k] == hay[s..s + |needle|][..k];
    if k < |needle| { assert hay[s + k] == hay[s..s + |needle|][k]; }
  }

  /** A mismatch: falling back passes over no occurrence. */
  lemma FallBackScans<T>(hay: seq<T>, needle: seq<T>, t: int, j: int, f: int)
    requires Scanned(hay, needle, t, j) && t < |hay| && hay[t] != needle[j] && FallsBackTo(needle, j, f)
    ensures if f >= 0 then Scanned(hay, needle, t, f) else Scanned(hay, needle, t + 1, 0)
  {
    if f >= 0 { BorderEndsAt(hay, needle, t, j, f); }
    forall s | 0 <= s < t - f ensures !OccursAt(hay, needle, s) {
      if s >= t - j && OccursAt(hay, needle, s) {
        var k := t - s;
        OccursEndsAt(hay, needle, s, k);
        if k < j { ShorterIsBorder(hay, needle, t, j, k); }
        assert false;
      }
    }
  }

  lemma MatchScans<T>(hay: seq<T>, needle: seq<T>, t: int, j: int)
    requires Scanned(hay, needle, t, j) && t < |hay| && hay[t] == needle[j]
    ensures EndsAt(hay, needle, t + 1, j + 1)
    ensures j + 1 < |needle| ==> Scanned(hay, needle, t + 1, j + 1)
    ensures j + 1 == |needle| ==> IsFirst(hay, needle, Some(t - j))
  {
    EndsAtExtends(hay, needle, t, j);
    if j + 1 == |needle| { assert needle[..j + 1] == needle; }
  }

  lemma ScannedAll<T>(hay: seq<T>, needle: seq<T>, j: int)
    requires Scanned(hay, needle, |hay|, j)
    ensures IsFirst(hay, needle, None)
  {
  }

  /** memmem over a list of chunks, with a count of the comparisons between elements. */
  method MemMem<T(==)>(chunks: seq<seq<T>>, needle: seq<T>) returns (result: Option<nat>, ghost comparisons: nat)
    requires |needle| > 0
    ensures IsFirst(Flat(chunks), needle, result)
    ensures comparisons <= 2 * |needle| + 2 * |Flat(chunks)|
  {
    ghost var hay := Flat(chunks);
    var table;
    ghost var inTable;
    table, inTable := PartialTable(needle);
    var total, current, matched := 0, 0, 0;
    var it := 0;
    ghost var scanned: nat := 0;
    while it < |chunks|
      invariant 0 <= it <= |chunks| && current >= 0
      invariant it < |chunks| ==> current <= |chunks[it]|
      invariant it == |chunks| ==> current == 0
      invariant total == |Flat(chunks[..it])| + current <= |hay|
      invariant Scanned(hay, needle, total, matched)
      invariant forall i :: 0 <= i < |needle| ==> FallsBackTo(needle, i, table[i])
      invariant scanned <= 2 * total - matched
      decreases |chunks| - it, if it < |chunks| then |chunks[it]| - current else 0, matched
    {
      FlatAt(chunks, it, current);
      if current >= |chunks[it]| {
        current := 0;
        it := it + 1;
        assert it == |chunks| ==> chunks[..it] == chunks;
        continue;
      }
      scanned := scanned + 1;
      if needle[matched] == chunks[it][current] {
        MatchScans(hay, needle, total, matched);
        matched := matched + 1;
        current := current + 1;
        total := total + 1;
        if matched == |needle| {
          return Some(total - matched), inTable + scanned;
        }
        continue;
      }
      FallBackScans(hay, needle, total, matched, table[matched]);
      matched := table[matched];
      if matched < 0 {
        matched := matched + 1;
        current := current + 1;
        total := total + 1;
      }
    }
    assert chunks[..it] == chunks;
    ScannedAll(hay, needle, matched);
    return None, inTable + scanned;
  }
}

/** A u64 as its 64 bits, least significant first. */
module Words {
  type Word = w: seq<bool> | |w| == 64 witness seq(64, i => false)

  function Or(a: Word, b: Word): Word {
    seq(64, i requires 0 <= i < 64 => a[i] || b[i])
  }

  function And(a: Word, b: Word): Word {
    seq(64, i requires 0 <= i < 64 => a[i] && b[i])
  }

  function Not(a: Word): Word {
    seq(64, i requires 0 <= i < 64 => !a[i])
  }

  function ShiftLeftOne(a: Word): Word {
    seq(64, i requires 0 <= i < 64 => i > 0 && a[i - 1])
  }

  predicate IsZero(a: Word) {
    forall i :: 0 <= i < 64 ==> !a[i]
  }

  /** 0x00000001 << n is an int: its sign bit is copied into the upper half of the word. */
  function IntOneShifted(n: nat): Word
    requires n < 32
  {
    seq(64, i requires 0 <= i < 64 => i == n || (n == 31 && i > 31))
  }

  /** A constant with the bits from `lo` up to `hi` set, as 0xffffffff and 0xfffffffe are. */
  function Run(lo: nat, hi: nat): Word {
    seq(64, i requires 0 <= i < 64 => lo <= i < hi)
  }
}

/** bitap_bitwise and memmem_optional of base/MemMem.h. */
module Bitap {
  import opened Optional
  import opened Occurrences
  import opened Words
  import opened KnuthMorrisPratt
  import opened Bytes

  /** A bit of the mask for `c` is clear just where `c` stands among the first `m` elements of the needle. */
  ghost predicate MaskFor(mask: Word, c: int, needle: seq<u8>, m: nat)
    requires m <= |needle|
  {
    forall i :: 0 <= i < 32 ==> (!mask[i] <==> i < m && needle[i] as int == c)
  }

  method NeedleMasks(needle: seq<u8>) returns (masks: array<Word>)
    requires |needle| < 32
    ensures fresh(masks) && masks.Length == 256
    ensures forall c :: 0 <= c < 256 ==> MaskFor(masks[c], c, needle, |needle|)
  {
    masks := new Word[256](i => Run(0, 32));
    var i := 0;
    while i < |needle|
      invariant 0 <= i <= |needle|
      invariant forall c :: 0 <= c < 256 ==> MaskFor(masks[c], c, needle, i)
    {
      var at := needle[i] as int;
      masks[at] := And(masks[at], Not(IntOneShifted(i)));
      i := i + 1;
    }
  }

  /** Bit `k` of the lookup word is clear just when `k` elements of the needle end at `t`. */
  ghost predicate Tracks(lookup: Word, hay: seq<u8>, needle: seq<u8>, t: nat) {
    forall k :: 0 <= k <= |needle| && k < 32 ==> (!lookup[k] <==> EndsAt(hay, needle, t, k))
  }

  lemma TracksNext(lookup: Word, mask: Word, hay: seq<u8>, needle: seq<u8>, t: nat)
    requires |needle| < 32 && t < |hay| && Tracks(lookup, hay, needle, t)
      && MaskFor(mask, hay[t] as int, needle, |needle|)
    ensures Tracks(ShiftLeftOne(Or(lookup, mask)), hay, needle, t + 1)
  {
    var next := ShiftLeftOne(Or(lookup, mask));
    forall k | 0 <= k <= |needle| && k < 32 ensures !next[k] <==> EndsAt(hay, needle, t + 1, k) {
      if k > 0 { EndsAtExtends(hay, needle, t, k - 1); }
    }
  }

  lemma EndsAtIsOccurrence(hay: seq<u8>, needle: seq<u8>, s: int)
    ensures OccursAt(hay, needle, s) <==> s >= 0 && EndsAt(hay, needle, s + |needle|, |needle|)
  {
    assert needle[..|needle|] == needle;
  }

  /** Up to 30 elements the bit test sees just the one bit; at 31 it sees all bits from 31 up. */
  lemma TestBit(lookup: Word, m: nat)
    requires m < 32
    ensures m < 31 ==> (IsZero(And(lookup, IntOneShifted(m))) <==> !lookup[m])
    ensures m == 31 && lookup[32] ==> !IsZero(And(lookup, IntOneShifted(m)))
  {
    var test := And(lookup, IntOneShifted(m));
    if lookup[m] { assert test[m]; }
    if m == 31 && lookup[32] { assert test[32]; }
  }

  method BitapBitwise(hay: seq<u8>, needle: seq<u8>) returns (result: Option<nat>)
    requires 0 < |needle| < 32
    ensures |needle| < 31 ==> IsFirst(hay, needle, result)
    ensures |needle| == 31 ==> result == None
  {
    var lookup := Run(1, 32);
    var masks := NeedleMasks(needle);
    var i := 0;
    while i < |hay|
      invariant 0 <= i <= |hay|
      invariant forall c :: 0 <= c < 256 ==> MaskFor(masks[c], c, needle, |needle|)
      invariant Tracks(lookup, hay, needle, i)
      invariant forall s :: 0 <= s <= i - |needle| ==> |needle| < 31 ==> !OccursAt(hay, needle, s)
    {
      var c := hay[i] as int;
      TracksNext(lookup, masks[c], hay, needle, i);
      lookup := Or(lookup, masks[c]);
      assert |needle| == 31 ==> lookup[31];
      lookup := ShiftLeftOne(lookup);
      TestBit(lookup, |needle|);
      EndsAtIsOccurrence(hay, needle, i - |needle| + 1);
      if IsZero(And(lookup, IntOneShifted(|needle|))) {
        return Some(i - |needle| + 1);
      }
      i := i + 1;
    }
    return None;
  }

  /** Every answer of memmem_optional, in terms of the first occurrence. */
  ghost predicate MemMemAnswer(hay: seq<u8>, needle: seq<u8>, r: Option<nat>) {
    if |needle| == 31 && |hay| > 31 then r == None else IsFirst(hay, needle, r)
  }

  method MemMemOptional(hay: seq<u8>, needle: seq<u8>) returns (result: Option<nat>)
    ensures MemMemAnswer(hay, needle, result)
  {
    if |needle| == 0 {
      assert OccursAt(hay, needle, 0);
      return Some(0);
    }
    if |hay| < |needle| {
      return None;
    }
    if |hay| == |needle| {
      assert hay[0..|needle|] == hay;
      if hay == needle {
        assert OccursAt(hay, needle, 0);
        return Some(0);
      }
      return None;
    }
    if |needle| < 32 {
      result := BitapBitwise(hay, needle);
      return;
    }
    ghost var comparisons;
    result, comparisons := MemMem([hay], needle);
    assert Flat([hay]) == hay by {
      assert [hay][..0] == [];
    }
  }

  /** The lengths for which memmem_optional is a first-occurrence search: all but needles of 31 in longer haystacks. */
  lemma MemMemLengths(m: nat, l: nat)
    ensures (forall hay: seq<u8>, needle: seq<u8>, r: Option<nat> ::
              |hay| == l && |needle| == m && MemMemAnswer(hay, needle, r) ==> IsFirst(hay, needle, r))
            <==> !(m == 31 && l > 31)
  {
    if m == 31 && l > 31 {
      var hay: seq<u8> := seq(l, i => 7);
      var needle: seq<u8> := seq(m, i => 7);
      assert hay[0..m] == needle;
      assert OccursAt(hay, needle, 0);
      assert MemMemAnswer(hay, needle, None) && !IsFirst(hay, needle, None);
    }
  }

  /** A concrete miss: 31 equal bytes are not found in 32 of them, although they occur at once. */
  lemma MissedNeedle()
    ensures var hay: seq<u8>, needle: seq<u8> := seq(32, i => 7), seq(31, i => 7);
      MemMemAnswer(hay, needle, None) && IsFirst(hay, needle, Some(0))
  {
    var hay: seq<u8>, needle: seq<u8> := seq(32, i => 7), seq(31, i => 7);
    assert hay[0..31] == needle;
  }
}
