/** Multiplication, division and square root of wide integers, bit by bit (base/UFixedBigInt.h). */
module BigIntegerLoops {
  import opened Arithmetic
  import opened BigIntegers

  // ---------------------------------------------------------------- leading zeros, lowest bit

  function BitLength(n: nat): nat {
    if n == 0 then 0 else 1 + BitLength(n / 2)
  }

  lemma {:induction false} BitLengthIs(n: nat)
    requires n > 0
    ensures BitLength(n) > 0 && Pow2(BitLength(n) - 1) <= n < Pow2(BitLength(n))
  {
    if n > 1 { BitLengthIs(n / 2); }
  }

  lemma BitLengthUnique(n: nat, m: nat)
    requires m > 0 && Pow2(m - 1) <= n < Pow2(m)
    ensures BitLength(n) == m
  {
    BitLengthIs(n);
    if BitLength(n) < m { Pow2Monotone(BitLength(n), m - 1); }
    if m < BitLength(n) { Pow2Monotone(m, BitLength(n) - 1); }
  }

  function Clz(a: Big, k: nat): int
    requires Level(a, k)
  {
    if k == 0 then 64 - BitLength(a.w)
    else if a.high != Zero(k - 1) then Clz(a.high, k - 1)
    else Bits(k - 1) + Clz(a.low, k - 1)
  }

  lemma {:induction false} ClzIs(a: Big, k: nat)
    requires Level(a, k) && Val(a, k) > 0
    ensures Clz(a, k) + BitLength(Val(a, k)) == Bits(k)
  {
    if k > 0 {
      ValPair(a, k);
      ZeroIs(k - 1);
      LessIs(a.high, Zero(k - 1), k - 1);
      if a.high != Zero(k - 1) {
        ClzIs(a.high, k - 1);
        ValBelow(a.low, k - 1);
        BaseIs(k - 1);
        HighBits(Val(a.low, k - 1), Val(a.high, k - 1), Bits(k - 1));
      } else {
        ClzIs(a.low, k - 1);
      }
    }
  }

  lemma HighBits(lo: nat, hi: nat, h: nat)
    requires lo < Pow2(h) && hi > 0
    ensures BitLength(lo + Pow2(h) * hi) == h + BitLength(hi)
  {
    BitLengthIs(hi);
    var m := BitLength(hi);
    Pow2Add(h, m - 1);
    Pow2Add(h, m);
    MulMonotone(Pow2(m - 1), hi, Pow2(h));
    MulBelow(hi, Pow2(m), Pow2(h));
    MulCommutes(Pow2(h), hi);
    MulCommutes(Pow2(h), Pow2(m - 1));
    MulCommutes(Pow2(h), Pow2(m));
    BitLengthUnique(lo + Pow2(h) * hi, h + m);
  }

  /** a & 1 */
  function LowBit(a: Big, k: nat): nat
    requires Level(a, k)
  {
    if k == 0 then a.w % 2 else LowBit(a.low, k - 1)
  }

  lemma EvenHigh(lo: nat, hi: nat, half: nat, h: nat)
    requires h == 2 * half
    ensures (lo + h * hi) % 2 == lo % 2
  {
    MulAssoc(2, half, hi);
  }

  lemma {:induction false} LowBitIs(a: Big, k: nat)
    requires Level(a, k)
    ensures LowBit(a, k) == Val(a, k) % 2
  {
    if k > 0 {
      LowBitIs(a.low, k - 1);
      ValPair(a, k);
      BaseIs(k - 1);
      EvenHigh(Val(a.low, k - 1), Val(a.high, k - 1), Pow2(Bits(k - 1) - 1), Base(k - 1));
    }
  }

  // ---------------------------------------------------------------- multiplication

  lemma ModShift(x: int, y: int, c: int, b: int)
    requires b > 0 && x == y + c * b
    ensures x % b == y % b
  {
    var d := x / b - y / b - c;
    assert x == b * (x / b) + x % b && y == b * (y / b) + y % b;
    assert d * b == y % b - x % b by {
      Distribute(x / b, -(y / b) - c, b);
      Distribute(-(y / b), -c, b);
    }
    SmallMultiple(d, b);
  }

  lemma HalfProduct(t: int, o: int)
    ensures t * o == 2 * t * (o / 2) + t * (o % 2)
  {
    assert o == 2 * (o / 2) + o % 2;
    Distribute(2 * (o / 2), o % 2, t);
    MulAssoc(t, 2, o / 2);
    MulCommutes(t, 2);
  }

  /** t * half and what is cut off its double. */
  lemma DoubleProduct(t: int, t': int, s: int, b: int, half: int)
    requires 2 * t == s * b + t'
    ensures 2 * t * half == t' * half + s * half * b
  {
    Distribute(s * b, t', half);
    MulAssoc(s, b, half);
    MulCommutes(b, half);
    MulAssoc(s, half, b);
  }

  /** What is cut off in one round is a multiple of the size. */
  lemma MulCut(r: int, t: int, o: int, b: int, r': int, t': int, q: int, s: int)
    requires r + t * (o % 2) == q * b + r' && 2 * t == s * b + t'
    ensures r + t * o == r' + t' * (o / 2) + (q + s * (o / 2)) * b
  {
    HalfProduct(t, o);
    DoubleProduct(t, t', s, b, o / 2);
    Distribute(q, s * (o / 2), b);
  }

  /** One round: the sum of the result and of what is still to be added stays the same, modulo the size. */
  lemma MulStep(r: nat, t: nat, o: nat, b: nat, r': nat, t': nat)
    requires b > 0 && r' == (if o % 2 == 1 then (r + t) % b else r) && t' == (2 * t) % b
    ensures (r' + t' * (o / 2)) % b == (r + t * o) % b
  {
    var q: int := if o % 2 == 1 then (r + t) / b else 0;
    var s: int := (2 * t) / b;
    assert r + t * (o % 2) == q * b + r' by { DivMod(r + t, b); }
    assert 2 * t == s * b + t' by { DivMod(2 * t, b); }
    MulCut(r, t, o, b, r', t', q, s);
    ModShift(r + t * o, r' + t' * (o / 2), q + s * (o / 2), b);
  }

  lemma ReducedSum(x: nat, y: nat, r: nat, b: nat, carry: bool)
    requires r < b && r + b * One(carry) == x + y
    ensures r == (x + y) % b
  {
    DivModUnique(x + y, b, One(carry), r);
  }

  lemma PlusIs(a: Big, b: Big, k: nat)
    requires k > 0 && Level(a, k) && Level(b, k)
    ensures Val(Addc(a, b, false, k).0, k) == (Val(a, k) + Val(b, k)) % Base(k)
  {
    AddcIs(a, b, false, k);
    var r := Addc(a, b, false, k);
    ValBelow(r.0, k);
    ReducedSum(Val(a, k), Val(b, k), Val(r.0, k), Base(k), r.1);
  }

  lemma ShlOne(a: Big, k: nat)
    requires Level(a, k)
    ensures Val(Shl(a, 1, k), k) == (2 * Val(a, k)) % Base(k)
  {
    assert Pow2(1) == 2;
    ShlIs(a, 1, k);
    MulCommutes(Val(a, k), 2);
  }

  lemma ShrOne(a: Big, k: nat)
    requires Level(a, k)
    ensures Val(Shr(a, 1, k), k) == Val(a, k) / 2
  {
    assert Pow2(1) == 2;
    ShrIs(a, 1, k);
  }

  /** One round of the loop. */
  method MultiplyRound(res: Big, that: Big, other: Big, k: nat) returns (res': Big, that': Big, other': Big)
    requires k > 0 && Level(res, k) && Level(that, k) && Level(other, k)
    ensures Level(res', k) && Level(that', k) && Level(other', k) && Val(other', k) == Val(other, k) / 2
    ensures (Val(res', k) + Val(that', k) * Val(other', k)) % Base(k)
      == (Val(res, k) + Val(that, k) * Val(other, k)) % Base(k)
  {
    res' := res;
    if LowBit(other, k) == 1 {
      res' := Addc(res, that, false, k).0;
    }
    that' := Shl(that, 1, k);
    other' := Shr(other, 1, k);
    ghost var r, t, o, b := Val(res, k), Val(that, k), Val(other, k), Base(k);
    ghost var r', t' := Val(res', k), Val(that', k);
    assert r' == if o % 2 == 1 then (r + t) % b else r by {
      LowBitIs(other, k);
      PlusIs(res, that, k);
    }
    assert t' == (2 * t) % b by { ShlOne(that, k); }
    ShrOne(other, k);
    MulStep(r, t, o, b, r', t');
  }

  method Multiply(a: Big, b: Big, k: nat) returns (res: Big)
    requires k > 0 && Level(a, k) && Level(b, k)
    ensures Level(res, k) && Val(res, k) == (Val(a, k) * Val(b, k)) % Base(k)
  {
    res := Zero(k);
    var that, other := a, b;
    ZeroIs(k);
    while other != Zero(k)
      invariant Level(res, k) && Level(that, k) && Level(other, k)
      invariant (Val(res, k) + Val(that, k) * Val(other, k)) % Base(k) == (Val(a, k) * Val(b, k)) % Base(k)
      decreases Val(other, k)
    {
      LessIs(other, Zero(k), k);
      res, that, other := MultiplyRound(res, that, other, k);
    }
    ValBelow(res, k);
    SmallMod(Val(res, k), Base(k));
  }

  lemma SmallMod(x: nat, m: nat)
    requires x < m
    ensures x % m == x
  {
    DivModUnique(x, m, 0, x);
  }

  // ---------------------------------------------------------------- division

  /** x shifted right, one bit at a time. */
  function Shifted(x: nat, i: nat): nat {
    if i == 0 then x else Shifted(x, i - 1) / 2
  }

  lemma HalfOfQuotient(x: nat, p: nat)
    requires p > 0
    ensures x / p / 2 == x / (2 * p)
  {
    var y := Quotient(x, p);
    DivMod(x, p);
    HalvedQuotient(x, y, p, y / 2, y % 2, x % p);
    DivModUnique(x, 2 * p, y / 2, (y % 2) * p + x % p);
  }

  lemma {:induction false} ShiftedIs(x: nat, i: nat)
    ensures Shifted(x, i) == x / Pow2(i)
  {
    if i > 0 {
      ShiftedIs(x, i - 1);
      HalfOfQuotient(x, Pow2(i - 1));
    }
  }

  lemma {:induction false} ShiftedShrinks(x: nat, i: nat)
    ensures Shifted(x, i) <= x
  {
    if i > 0 { ShiftedShrinks(x, i - 1); }
  }

  lemma {:induction false} AllShiftedOut(x: nat, i: nat)
    requires x < Pow2(i)
    ensures Shifted(x, i) == 0
  {
    ShiftedIs(x, i);
    DivModUnique(x, Pow2(i), 0, x);
  }

  lemma HalvedQuotient(x: int, y: int, p: int, q: int, bit: int, rest: int)
    requires x == y * p + rest && y == q * 2 + bit && 0 <= bit <= 1 && 0 <= rest < p
    ensures x == q * (2 * p) + (bit * p + rest) && 0 <= bit * p + rest < 2 * p
  {
    Distribute(q * 2, bit, p);
    MulAssoc(q, 2, p);
  }

  lemma DoubleIs(a: Big, k: nat)
    requires k > 0 && Level(a, k) && 2 * Val(a, k) < Base(k)
    ensures Val(Shl(a, 1, k), k) == 2 * Val(a, k)
  {
    ShlIs(a, 1, k);
    assert Pow2(1) == 2;
    DivModUnique(Val(a, k) * 2, Base(k), 0, Val(a, k) * 2);
  }

  lemma DoubledIs(a: Big, bit: nat, k: nat)
    requires k > 0 && Level(a, k) && bit <= 1 && 2 * Val(a, k) + bit < Base(k)
    ensures Val(Or(Shl(a, 1, k), Small(bit, k), k), k) == 2 * Val(a, k) + bit
  {
    SmallIs(bit, k);
    DoubleIs(a, k);
    assert Pow2(1) == 2;
    OrIs(Shl(a, 1, k), Small(bit, k), 1, k);
  }

  /** Setting bit i of a number that has no bits up to there. */
  lemma SetBitIs(q: Big, v: nat, i: nat, k: nat)
    requires k > 0 && Level(q, k) && i < Bits(k) && Val(q, k) == Joined(0, v, Pow2(i + 1))
    ensures Val(Or(q, Shl(Small(1, k), i, k), k), k) == Joined(0, 2 * v + 1, Pow2(i))
  {
    JoinedHalved(v, Pow2(i));
    BaseIs(k);
    SmallIs(1, k);
    ShlIs(Small(1, k), i, k);
    Pow2Monotone(i + 1, Bits(k));
    SmallMod(Pow2(i), Base(k));
    JoinedMultiple(v, Pow2(i + 1));
    OrIs(q, Shl(Small(1, k), i, k), i + 1, k);
  }

  /** v pieces of twice p are twice as many of p. */
  lemma {:induction false} JoinedHalved(v: nat, p: nat)
    ensures Joined(0, 2 * v, p) == Joined(0, v, 2 * p)
  {
    if v > 0 {
      JoinedHalved(v - 1, p);
      assert Joined(0, 2 * v, p) == Joined(0, 2 * v - 1, p) + p;
    }
  }

  lemma JoinedMultiple(v: nat, p: nat)
    requires p > 0
    ensures Joined(0, v, p) % p == 0
  {
    JoinedIs(0, v, p);
    MulCommutes(p, v);
    MultipleMod(v, p);
  }

  /** The part of n read so far is v divisors and the remainder; one bit more doubles both. */
  lemma {:induction false} DivValue(bit: nat, v: nat, d: nat, r: nat)
    ensures Joined(2 * r + bit, 2 * v, d) == 2 * Joined(r, v, d) + bit
    ensures Joined(2 * r + bit, 2 * v, d) >= 2 * r + bit
  {
    JoinedAtLeast(2 * r + bit, 2 * v, d);
    if v > 0 {
      DivValue(bit, v - 1, d, r);
      assert Joined(2 * r + bit, 2 * v, d) == Joined(2 * r + bit, 2 * v - 1, d) + d;
    }
  }

  /** A remainder that is large enough gives one more divisor. */
  lemma {:induction false} TakeDivisor(r: nat, v: nat, d: nat)
    requires r >= d
    ensures Joined(r - d, v + 1, d) == Joined(r, v, d)
  {
    if v > 0 { TakeDivisor(r, v - 1, d); }
  }

  /** Takes the divisor away once more. */
  method TakeAway(rem: Big, d: Big, k: nat, ghost v: nat) returns (rem': Big)
    requires Level(rem, k) && Level(d, k) && Val(d, k) <= Val(rem, k)
    ensures Level(rem', k) && Val(rem', k) == Val(rem, k) - Val(d, k)
    ensures Joined(Val(rem', k), v + 1, Val(d, k)) == Joined(Val(rem, k), v, Val(d, k))
  {
    MinusIs(rem, d, k);
    TakeDivisor(Val(rem, k), v, Val(d, k));
    rem' := Minus(rem, d, k);
  }

  method WithBit(quotient: Big, i: nat, k: nat, ghost v: nat) returns (quotient': Big)
    requires k > 0 && Level(quotient, k) && i < Bits(k) && Val(quotient, k) == Joined(0, v, Pow2(i + 1))
    ensures Level(quotient', k) && Val(quotient', k) == Joined(0, 2 * v + 1, Pow2(i))
  {
    SetBitIs(quotient, v, i, k);
    quotient' := Or(quotient, Shl(Small(1, k), i, k), k);
  }

  /** The remainder shifted, with the next bit of n: nothing of it is lost. */
  method NextRemainder(n: Big, d: Big, rem: Big, i: nat, k: nat, ghost v: nat) returns (next: Big)
    requires k > 0 && Level(n, k) && Level(d, k) && Level(rem, k) && i < Bits(k)
    requires Shifted(Val(n, k), i + 1) == Joined(Val(rem, k), v, Val(d, k)) && Val(rem, k) < Val(d, k)
    ensures Level(next, k) && Val(next, k) < 2 * Val(d, k)
    ensures Shifted(Val(n, k), i) == Joined(Val(next, k), 2 * v, Val(d, k))
  {
    var bit := LowBit(Shr(n, i, k), k);
    assert bit == Shifted(Val(n, k), i) % 2 by {
      ShrIs(n, i, k);
      ShiftedIs(Val(n, k), i);
      LowBitIs(Shr(n, i, k), k);
    }
    DivValue(bit, v, Val(d, k), Val(rem, k));
    assert 2 * Val(rem, k) + bit < Base(k) by {
      ValBelow(n, k);
      ShiftedShrinks(Val(n, k), i);
    }
    DoubledIs(rem, bit, k);
    next := Or(Shl(rem, 1, k), Small(bit, k), k);
  }

  /** One round of the division: `v` is the quotient found so far. */
  method DivRound(n: Big, d: Big, rem: Big, quotient: Big, i: nat, k: nat, ghost v: nat)
    returns (rem': Big, quotient': Big, ghost v': nat)
    requires k > 0 && Level(n, k) && Level(d, k) && Level(rem, k) && Level(quotient, k) && i < Bits(k)
    requires Shifted(Val(n, k), i + 1) == Joined(Val(rem, k), v, Val(d, k)) && Val(rem, k) < Val(d, k)
    requires Val(quotient, k) == Joined(0, v, Pow2(i + 1))
    ensures Level(rem', k) && Level(quotient', k)
    ensures Shifted(Val(n, k), i) == Joined(Val(rem', k), v', Val(d, k)) && Val(rem', k) < Val(d, k)
    ensures Val(quotient', k) == Joined(0, v', Pow2(i))
  {
    rem' := NextRemainder(n, d, rem, i, k, v);
    LessIs(rem', d, k);
    quotient' := quotient;
    v' := 2 * v;
    if !Less(rem', d, k) {
      rem' := TakeAway(rem', d, k, 2 * v);
      quotient' := WithBit(quotient, i, k, v);
      v' := 2 * v + 1;
    } else {
      JoinedHalved(v, Pow2(i));
    }
  }

  /** The loop, from the highest bit of n down. */
  method DivLoop(n: Big, d: Big, top: nat, k: nat) returns (quotient: Big, rem: Big)
    requires k > 0 && Level(n, k) && Level(d, k) && Val(d, k) > 0 && top < Bits(k) && Val(n, k) < Pow2(top + 1)
    ensures Level(quotient, k) && Level(rem, k)
    ensures Val(n, k) == Joined(Val(rem, k), Val(quotient, k), Val(d, k)) && Val(rem, k) < Val(d, k)
  {
    ZeroIs(k);
    rem, quotient := Zero(k), Zero(k);
    ghost var v: nat := 0;
    var i: int := top;
    AllShiftedOut(Val(n, k), top + 1);
    while i >= 0
      invariant -1 <= i < Bits(k)
      invariant Level(rem, k) && Level(quotient, k)
      invariant Shifted(Val(n, k), i + 1) == Joined(Val(rem, k), v, Val(d, k)) && Val(rem, k) < Val(d, k)
      invariant Val(quotient, k) == Joined(0, v, Pow2(i + 1))
    {
      rem, quotient, v := DivRound(n, d, rem, quotient, i, k, v);
      i := i - 1;
    }
    JoinedIs(0, v, 1);
    assert Pow2(0) == 1;
  }

  /** Quotient and remainder for a divisor of the same width that is not zero. */
  method DivModBig(n: Big, d: Big, k: nat) returns (quotient: Big, rem: Big)
    requires k > 0 && Level(n, k) && Level(d, k) && Val(d, k) > 0
    ensures Level(quotient, k) && Level(rem, k)
    ensures Val(n, k) == Val(quotient, k) * Val(d, k) + Val(rem, k) && Val(rem, k) < Val(d, k)
  {
    quotient, rem := DivModPaths(n, d, k);
    JoinedIs(Val(rem, k), Val(quotient, k), Val(d, k));
    MulCommutes(Val(quotient, k), Val(d, k));
  }

  /** The three short cuts, and the loop. */
  method DivModPaths(n: Big, d: Big, k: nat) returns (quotient: Big, rem: Big)
    requires k > 0 && Level(n, k) && Level(d, k) && Val(d, k) > 0
    ensures Level(quotient, k) && Level(rem, k)
    ensures Val(n, k) == Joined(Val(rem, k), Val(quotient, k), Val(d, k)) && Val(rem, k) < Val(d, k)
  {
    ZeroIs(k);
    SmallIs(1, k);
    LessIs(n, d, k);
    LessIs(d, Small(1, k), k);
    if Less(n, d, k) {
      return Zero(k), n;
    }
    if n == d {
      assert Joined(0, 1, Val(d, k)) == Joined(0, 0, Val(d, k)) + Val(d, k);
      return Small(1, k), Zero(k);
    }
    if d == Small(1, k) {
      JoinedIs(0, Val(n, k), 1);
      return n, Zero(k);
    }
    ClzIs(n, k);
    BitLengthIs(Val(n, k));
    BitLengthBound(Val(n, k), Bits(k), n, k);
    quotient, rem := DivLoop(n, d, Bits(k) - Clz(n, k) - 1, k);
  }

  lemma BitLengthBound(x: nat, n: nat, a: Big, k: nat)
    requires Level(a, k) && x == Val(a, k) && n == Bits(k) && x > 0
    ensures BitLength(x) <= n
  {
    BaseIs(k);
    ValBelow(a, k);
    BitLengthIs(x);
    if BitLength(x) > n { Pow2Monotone(n, BitLength(x) - 1); }
  }

  // ---------------------------------------------------------------- square root

  /** r * r, as the sum of the first r odd numbers. */
  function Square(r: nat): nat {
    if r == 0 then 0 else Square(r - 1) + 2 * r - 1
  }

  lemma {:induction false} SquareIs(r: nat)
    ensures Square(r) == r * r
  {
    if r > 0 { SquareIs(r - 1); }
  }

  /** r is the floor of the square root of x. */
  ghost predicate IsRoot(r: nat, x: int) {
    Square(r) <= x < Square(r + 1)
  }

  lemma SquareBelow(r: nat, s: nat)
    requires r * r < s * s
    ensures r < s
  {
    if r >= s {
      MulMonotone(s, r, s);
      MulMonotone(s, r, r);
      MulCommutes(s, r);
    }
  }

  lemma {:induction false} SquareDouble(r: nat)
    ensures Square(2 * r) == 4 * Square(r)
  {
    if r > 0 {
      SquareDouble(r - 1);
      assert Square(2 * r) == Square(2 * r - 1) + 4 * r - 1;
      assert Square(2 * r - 1) == Square(2 * r - 2) + 4 * r - 3;
    }
  }

  /** Two bits more: the root is twice the old one, or one more. */
  lemma RootStep(r: nat, x: nat, x': nat, bits: nat)
    requires IsRoot(r, x) && x' == 4 * x + bits && bits <= 3
    ensures IsRoot(if x' >= Square(2 * r + 1) then 2 * r + 1 else 2 * r, x')
  {
    SquareDouble(r);
    SquareDouble(r + 1);
  }

  /** The candidate's square fits. */
  lemma CandidateFits(r: nat, x: nat, x': nat, half: nat, h: nat)
    requires r * r <= x && 4 * x <= x' < h * h && h == 2 * half
    ensures (2 * r + 1) * (2 * r + 1) < h * h && 2 * r + 1 < h
  {
    assert h * h == 4 * (half * half);
    SquareBelow(r, half);
    var c := 2 * r + 1;
    MulBelow(c, h, c);
    MulMonotone(c, h, h);
    MulCommutes(c, h);
  }

  lemma TwoBits(x: nat, i: nat)
    ensures 0 <= Shifted(x, i) - 4 * Shifted(x, i + 2) <= 3
  {
    assert Shifted(x, i + 2) == Shifted(x, i + 1) / 2;
  }

  /** Everything one round computes stays below the size. */
  lemma RoundFits(r: nat, x: nat, x': nat, k: nat)
    requires k > 0 && Square(r) <= x && 4 * x <= x' < Base(k)
    ensures Square(2 * r + 1) < Base(k) && 2 * r + 1 < Base(k)
  {
    BaseIs(k - 1);
    BaseSquare(k);
    SquareIs(r);
    SquareIs(2 * r + 1);
    var half, h := Pow2(Bits(k - 1) - 1), Base(k - 1);
    CandidateFits(r, x, x', half, h);
    MulMonotone(1, h, h);
  }

  /** The candidate's square, which does not wrap. */
  method SquareOf(candidate: Big, k: nat) returns (square: Big)
    requires k > 0 && Level(candidate, k) && Square(Val(candidate, k)) < Base(k)
    ensures Level(square, k) && Val(square, k) == Square(Val(candidate, k))
  {
    square := Multiply(candidate, candidate, k);
    SquareIs(Val(candidate, k));
    SmallMod(Square(Val(candidate, k)), Base(k));
  }

  method SqrtRound(n: Big, res: Big, shift: nat, k: nat) returns (res': Big)
    requires k > 0 && Level(n, k) && Level(res, k)
    requires IsRoot(Val(res, k), Shifted(Val(n, k), shift + 2))
    ensures Level(res', k) && IsRoot(Val(res', k), Shifted(Val(n, k), shift))
  {
    ghost var r, x, x' := Val(res, k), Shifted(Val(n, k), shift + 2), Shifted(Val(n, k), shift);
    TwoBits(Val(n, k), shift);
    ValBelow(n, k);
    ShiftedShrinks(Val(n, k), shift);
    RoundFits(r, x, x', k);
    DoubleIs(res, k);
    DoubledIs(res, 1, k);
    var candidate := Or(Shl(res, 1, k), Small(1, k), k);
    var square := SquareOf(candidate, k);
    ShrIs(n, shift, k);
    ShiftedIs(Val(n, k), shift);
    LessIs(Shr(n, shift, k), square, k);
    RootStep(r, x, x', x' - 4 * x);
    if !Less(Shr(n, shift, k), square, k) {
      res' := candidate;
    } else {
      res' := Shl(res, 1, k);
    }
  }

  /** The loop, from an even shift that leaves at most one bit, down to none. */
  method SqrtLoop(n: Big, top: nat, k: nat) returns (res: Big)
    requires k > 0 && Level(n, k) && top % 2 == 0 && Val(n, k) < Pow2(top + 2)
    ensures Level(res, k) && IsRoot(Val(res, k), Val(n, k))
  {
    res := Zero(k);
    ZeroIs(k);
    var shift: int := top;
    ghost var half: int := top / 2;
    AllShiftedOut(Val(n, k), top + 2);
    while shift >= 0
      invariant shift == 2 * half && half >= -1
      invariant Level(res, k) && IsRoot(Val(res, k), Shifted(Val(n, k), shift + 2))
    {
      res := SqrtRound(n, res, shift, k);
      shift := shift - 2;
      half := half - 1;
    }
    assert Pow2(0) == 1;
  }

  /** The floor of the square root, two bits of n at a time. */
  method Sqrt(n: Big, k: nat) returns (res: Big)
    requires k > 0 && Level(n, k) && Val(n, k) >= 1
    ensures Level(res, k) && Val(res, k) * Val(res, k) <= Val(n, k) < (Val(res, k) + 1) * (Val(res, k) + 1)
  {
    res := SqrtPaths(n, k);
    SquareIs(Val(res, k));
    SquareIs(Val(res, k) + 1);
  }

  method SqrtPaths(n: Big, k: nat) returns (res: Big)
    requires k > 0 && Level(n, k) && Val(n, k) >= 1
    ensures Level(res, k) && IsRoot(Val(res, k), Val(n, k))
  {
    SmallIs(1, k);
    LessIs(n, Small(1, k), k);
    if n == Small(1, k) {
      assert Square(1) == 1 && Square(2) == 4;
      return Small(1, k);
    }
    ClzIs(n, k);
    BitLengthIs(Val(n, k));
    var length := Bits(k) - Clz(n, k);
    Pow2Monotone(length, length - length % 2 + 2);
    res := SqrtLoop(n, length - length % 2, k);
  }
}
