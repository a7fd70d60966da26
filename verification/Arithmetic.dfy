/** Powers of two and the division facts the wide integers rest on. */
module Arithmetic {
  function Pow2(n: nat): (p: nat)
    ensures p > 0
  {
    if n == 0 then 1 else 2 * Pow2(n - 1)
  }

  lemma {:induction false} Pow2Add(a: nat, b: nat)
    ensures Pow2(a) * Pow2(b) == Pow2(a + b)
  {
    if a > 0 {
      Pow2Add(a - 1, b);
      assert 2 * Pow2(a - 1) * Pow2(b) == 2 * (Pow2(a - 1) * Pow2(b));
    }
  }

  lemma {:induction false} Pow2Monotone(a: nat, b: nat)
    requires a <= b
    ensures Pow2(a) <= Pow2(b)
  {
    if a < b { Pow2Monotone(a, b - 1); }
  }

  lemma MulCommutes(x: int, y: int)
    ensures x * y == y * x
  {
  }

  lemma MulMonotone(x: nat, y: nat, m: nat)
    requires x <= y
    ensures x * m <= y * m
  {
  }

  lemma MulBelow(x: nat, y: nat, m: nat)
    requires x < y && m > 0
    ensures x * m + m <= y * m
  {
    MulMonotone(x + 1, y, m);
    assert (x + 1) * m == x * m + m;
  }

  lemma SmallMultiple(d: int, m: int)
    requires m > 0 && -m < d * m < m
    ensures d == 0
  {
  }

  /** Division with remainder has one answer. */
  lemma DivModUnique(x: int, m: int, q: int, r: int)
    requires m > 0 && x == q * m + r && 0 <= r < m
    ensures x / m == q && x % m == r
  {
    var d := x / m - q;
    assert d * m == r - x % m by {
      assert x == m * (x / m) + x % m;
      Distribute(x / m, -q, m);
    }
    SmallMultiple(d, m);
  }

  lemma DivMod(x: nat, m: nat)
    requires m > 0
    ensures x == (x / m) * m + x % m && x % m < m
  {
    MulCommutes(x / m, m);
  }

  lemma DivBelow(x: nat, p: nat, q: nat)
    requires q > 0 && x < p * q
    ensures x / q < p
  {
    DivMod(x, q);
    if x / q >= p { MulMonotone(p, x / q, q); }
  }

  lemma MulAssoc(x: int, y: int, z: int)
    ensures x * y * z == x * (y * z)
  {
  }

  lemma Distribute(x: int, y: int, z: int)
    ensures (x + y) * z == x * z + y * z
    ensures z * (x + y) == z * x + z * y
  {
  }

  // ---------------------------------------------------------------- shifts of a value in two halves

  /** A half shifted left by p out of a half of size h = p * q: what stays and what goes over. */
  lemma ShiftLow(lo: nat, p: nat, q: nat, h: nat)
    requires p > 0 && q > 0 && h == p * q && lo < h
    ensures lo * p == (lo / q) * h + (lo % q) * p
    ensures (lo * p) % h == (lo % q) * p && (lo * p) / h == lo / q
    ensures 0 <= (lo % q) * p <= h - p && 0 <= lo / q < p
  {
    DivMod(lo, q);
    DivBelow(lo, p, q);
    assert lo * p == (lo / q) * h + (lo % q) * p by {
      Distribute((lo / q) * q, lo % q, p);
      MulAssoc(lo / q, q, p);
      MulCommutes(q, p);
    }
    assert 0 <= (lo % q) * p <= h - p by {
      MulBelow(lo % q, q, p);
      MulCommutes(q, p);
      MulMonotone(0, lo % q, p);
    }
    DivModUnique(lo * p, h, lo / q, (lo % q) * p);
  }

  /** The high half times p, when p times it is b rounds of h and B. */
  lemma LeftHigh(hi: int, p: int, h: int, b: int, rest: int)
    requires hi * p == b * h + rest
    ensures h * hi * p == b * (h * h) + h * rest
  {
    MulAssoc(h, hi, p);
    Distribute(b * h, rest, h);
    MulCommutes(h, b * h);
    MulAssoc(b, h, h);
  }

  /** Both halves times p, put together again. */
  lemma LeftWhole(lo: int, hi: int, p: int, h: int, a: int, lowRest: int, b: int, highRest: int)
    requires lo * p == a * h + lowRest && hi * p == b * h + highRest
    ensures (lo + h * hi) * p == b * (h * h) + (lowRest + h * (highRest + a))
  {
    Distribute(lo, h * hi, p);
    LeftHigh(hi, p, h, b, highRest);
    Distribute(highRest, a, h);
    MulCommutes(a, h);
  }

  lemma LeftBelow(lowRest: int, highRest: int, a: int, h: int)
    requires 0 <= lowRest < h && 0 <= highRest + a < h
    ensures 0 <= lowRest + h * (highRest + a) < h * h
  {
    MulBelow(highRest + a, h, h);
    MulCommutes(highRest + a, h);
    MulMonotone(0, highRest + a, h);
  }

  lemma LeftMod(lo: nat, hi: nat, p: nat, h: nat, a: int, lowRest: int, b: int, highRest: int)
    requires lo * p == a * h + lowRest && hi * p == b * h + highRest && 0 <= lowRest < h && 0 <= highRest + a < h
    ensures h * h > 0 && ((lo + h * hi) * p) % (h * h) == lowRest + h * (highRest + a)
  {
    LeftWhole(lo, hi, p, h, a, lowRest, b, highRest);
    LeftBelow(lowRest, highRest, a, h);
    DivModUnique((lo + h * hi) * p, h * h, b, lowRest + h * (highRest + a));
  }

  lemma ShiftLeftHalves(lo: nat, hi: nat, p: nat, q: nat, h: nat)
    requires p > 0 && q > 0 && h == p * q && lo < h && hi < h
    ensures h * h > 0 && (lo * p) % h + h * ((hi * p) % h + lo / q) == ((lo + h * hi) * p) % (h * h)
    ensures 0 <= (hi * p) % h + lo / q < h
  {
    ShiftLow(lo, p, q, h);
    ShiftLow(hi, p, q, h);
    LeftMod(lo, hi, p, h, lo / q, (lo * p) % h, hi / q, (hi * p) % h);
  }

  /** h times hi, for h = p * q and hi = a * p + b, as a multiple of p. */
  lemma RightParts(hi: nat, a: nat, b: nat, p: nat, q: nat, h: nat)
    requires h == p * q && hi == a * p + b
    ensures h * hi == (b * q + h * a) * p
  {
    assert h * hi == h * (a * p) + h * b by { Distribute(a * p, b, h); }
    assert h * (a * p) == h * a * p by { MulAssoc(h, a, p); }
    assert h * b == b * q * p by {
      MulCommutes(h, b);
      MulCommutes(p, q);
      MulAssoc(b, q, p);
    }
    Distribute(b * q, h * a, p);
  }

  lemma ShiftRightHalves(lo: nat, hi: nat, p: nat, q: nat, h: nat)
    requires p > 0 && h == p * q
    ensures lo / p + (hi % p) * q + h * (hi / p) == (lo + h * hi) / p
  {
    var c, rest := lo / p, (hi % p) * q + h * (hi / p);
    DivMod(lo, p);
    DivMod(hi, p);
    RightParts(hi, hi / p, hi % p, p, q, h);
    Distribute(c, rest, p);
    DivModUnique(lo + h * hi, p, c + rest, lo % p);
  }

  lemma ShiftRightCarry(lo: nat, hi: nat, p: nat, q: nat, h: nat)
    requires p > 0 && q > 0 && h == p * q && lo < h && hi < h
    ensures lo / p < q && (hi * q) % h == (hi % p) * q
  {
    MulCommutes(p, q);
    ShiftLow(hi, q, p, h);
    DivBelow(lo, q, p);
  }
}
