/** Counting the entries of a finite map that satisfy a predicate, one update at a time. */
module Tallies {
  ghost function One(b: bool): nat {
    if b then 1 else 0
  }

  ghost function Where<K(!new), V(!new)>(m: map<K, V>, p: V -> bool): set<K> {
    set k | k in m && p(m[k])
  }

  ghost function Tally<K(!new), V(!new)>(m: map<K, V>, p: V -> bool): nat {
    |Where(m, p)|
  }

  lemma RemoveOne<K>(s: set<K>, k: K)
    ensures |s| == |s - {k}| + if k in s then 1 else 0
  {
    if k in s { assert s == s - {k} + {k}; } else { assert s == s - {k}; }
  }

  /** Changing one entry changes the tally by what that entry stood for and stands for now. */
  lemma TallyUpdate<K(!new), V(!new)>(m: map<K, V>, k: K, v: V, p: V -> bool)
    ensures Tally(m[k := v], p) == Tally(m, p) - (if k in m && p(m[k]) then 1 else 0) + (if p(v) then 1 else 0)
  {
    var before, after := Where(m, p), Where(m[k := v], p);
    assert after - {k} == before - {k};
    RemoveOne(before, k);
    RemoveOne(after, k);
  }

  lemma TallyPositive<K(!new), V(!new)>(m: map<K, V>, k: K, p: V -> bool)
    requires k in m && p(m[k])
    ensures Tally(m, p) > 0
  {
    assert k in Where(m, p);
  }

  lemma TallyNone<K(!new), V(!new)>(m: map<K, V>, p: V -> bool)
    requires forall k :: k in m ==> !p(m[k])
    ensures Tally(m, p) == 0
  {
    assert Where(m, p) == {};
  }

  lemma SubsetSize<K>(a: set<K>, b: set<K>)
    requires a <= b
    ensures |a| <= |b|
  {
    assert b == a + (b - a);
  }
}
