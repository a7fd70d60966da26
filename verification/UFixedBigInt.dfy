/** Wide unsigned integers (base/UFixedBigInt.h): a value of level k is two values of level k - 1, down to 64-bit words.
    Every operation works on the halves; what it computes is stated about the number they stand for. */
module BigIntegers {
  import opened Arithmetic

  datatype Big = Word(w: nat) | Pair(low: Big, high: Big)

  function Bits(k: nat): (n: nat)
    ensures n >= 64
  {
    if k == 0 then 64 else 2 * Bits(k - 1)
  }

  /** 2 to the 64. */
  const WORD: nat := 0x1_0000_0000_0000_0000

  /** One more than the greatest value of level k. */
  function Base(k: nat): (b: nat)
    ensures b > 1
  {
    if k == 0 then WORD else (JoinedAtLeast(0, Base(k - 1), Base(k - 1)); Joined(0, Base(k - 1), Base(k - 1)))
  }

  lemma BaseSquare(k: nat)
    requires k > 0
    ensures Base(k) == Base(k - 1) * Base(k - 1)
  {
    JoinedIs(0, Base(k - 1), Base(k - 1));
  }

  lemma {:induction false} BaseIs(k: nat)
    ensures Base(k) == Pow2(Bits(k))
  {
    if k == 0 {
      WordIs();
    } else {
      BaseIs(k - 1);
      BaseSquare(k);
      Pow2Add(Bits(k - 1), Bits(k - 1));
    }
  }

  lemma WordIs()
    ensures WORD == Pow2(64)
  {
    Pow2Add(1, 1);
    Pow2Add(2, 2);
    Pow2Add(4, 4);
    Pow2Add(8, 8);
    Pow2Add(16, 16);
    Pow2Add(32, 32);
  }

  /** low + h * high, as an addition repeated so that products stay out of the proofs that do not need them. */
  function Joined(low: nat, high: nat, h: nat): nat {
    if high == 0 then low else Joined(low, high - 1, h) + h
  }

  lemma {:induction false} JoinedIs(low: nat, high: nat, h: nat)
    ensures Joined(low, high, h) == low + h * high
  {
    if high > 0 {
      JoinedIs(low, high - 1, h);
      Distribute(high - 1, 1, h);
    }
  }

  lemma {:induction false} JoinedAtLeast(low: nat, high: nat, h: nat)
    ensures Joined(low, high, h) >= low && (high > 0 ==> Joined(low, high, h) >= low + h)
  {
    if high > 0 { JoinedAtLeast(low, high - 1, h); }
  }

  predicate Level(a: Big, k: nat) {
    match a
    case Word(w) => k == 0 && w < Base(0)
    case Pair(low, high) => k > 0 && Level(low, k - 1) && Level(high, k - 1)
  }

  /** The number. */
  function Val(a: Big, k: nat): nat
    requires Level(a, k)
  {
    match a
    case Word(w) => w
    case Pair(low, high) => Joined(Val(low, k - 1), Val(high, k - 1), Base(k - 1))
  }

  lemma ValPair(a: Big, k: nat)
    requires k > 0 && Level(a, k)
    ensures Val(a, k) == Val(a.low, k - 1) + Base(k - 1) * Val(a.high, k - 1)
  {
    JoinedIs(Val(a.low, k - 1), Val(a.high, k - 1), Base(k - 1));
  }

  lemma {:induction false} ValBelow(a: Big, k: nat)
    requires Level(a, k)
    ensures Val(a, k) < Base(k)
  {
    if k > 0 {
      ValBelow(a.low, k - 1);
      ValBelow(a.high, k - 1);
      ValPair(a, k);
      BaseSquare(k);
      MulBelow(Val(a.high, k - 1), Base(k - 1), Base(k - 1));
      MulCommutes(Val(a.high, k - 1), Base(k - 1));
    }
  }

  function Zero(k: nat): (z: Big)
    ensures Level(z, k)
  {
    if k == 0 then Word(0) else Pair(Zero(k - 1), Zero(k - 1))
  }

  /** The value of one bit. */
  function Small(n: nat, k: nat): (r: Big)
    requires n <= 1
    ensures Level(r, k)
  {
    if k == 0 then Word(n) else Pair(Small(n, k - 1), Zero(k - 1))
  }

  lemma {:induction false} ZeroIs(k: nat)
    ensures Val(Zero(k), k) == 0
  {
    if k > 0 { ZeroIs(k - 1); }
  }

  lemma {:induction false} SmallIs(n: nat, k: nat)
    requires n <= 1
    ensures Val(Small(n, k), k) == n
  {
    if k > 0 {
      SmallIs(n, k - 1);
      ZeroIs(k - 1);
    }
  }

  // ---------------------------------------------------------------- comparisons

  predicate Less(a: Big, b: Big, k: nat)
    requires Level(a, k) && Level(b, k)
  {
    if k == 0 then a.w < b.w
    else Less(a.high, b.high, k - 1) || (a.high == b.high && Less(a.low, b.low, k - 1))
  }

  lemma {:induction false} LessIs(a: Big, b: Big, k: nat)
    requires Level(a, k) && Level(b, k)
    ensures Less(a, b, k) <==> Val(a, k) < Val(b, k)
    ensures a == b <==> Val(a, k) == Val(b, k)
  {
    if k > 0 {
      LessIs(a.high, b.high, k - 1);
      LessIs(a.low, b.low, k - 1);
      ValPair(a, k);
      ValPair(b, k);
      Lexicographic(Val(a.low, k - 1), Val(a.high, k - 1), Val(b.low, k - 1), Val(b.high, k - 1), Base(k - 1), a, b, k);
    }
  }

  lemma Lexicographic(al: nat, ah: nat, bl: nat, bh: nat, h: nat, a: Big, b: Big, k: nat)
    requires k > 0 && Level(a, k) && Level(b, k) && h == Base(k - 1)
    requires al == Val(a.low, k - 1) && ah == Val(a.high, k - 1) && bl == Val(b.low, k - 1) && bh == Val(b.high, k - 1)
    ensures ah < bh ==> al + h * ah < bl + h * bh
    ensures bh < ah ==> bl + h * bh < al + h * ah
  {
    ValBelow(a.low, k - 1);
    ValBelow(b.low, k - 1);
    MulCommutes(h, ah);
    MulCommutes(h, bh);
    if ah < bh { MulBelow(ah, bh, h); }
    if bh < ah { MulBelow(bh, ah, h); }
  }

  // ---------------------------------------------------------------- addition

  /** A word addition that wraps, and whether it would. */
  function PlusWord(x: nat, y: nat): nat {
    (x + y) % Base(0)
  }

  predicate Overflows(x: nat, y: nat) {
    x + y >= Base(0)
  }

  function One(b: bool): nat {
    if b then 1 else 0
  }

  function Addc(a: Big, b: Big, carry: bool, k: nat): (r: (Big, bool))
    requires k > 0 && Level(a, k) && Level(b, k)
    ensures Level(r.0, k)
  {
    if k == 1 then
      assert Level(a.low, 0) && Level(a.high, 0) && Level(b.low, 0) && Level(b.high, 0);
      var lowCarry := Overflows(a.low.w, b.low.w);
      var highCarry := Overflows(a.high.w, b.high.w);
      var lower := PlusWord(a.low.w, b.low.w);
      var higher := PlusWord(a.high.w, b.high.w);
      var lowCarry' := lowCarry || Overflows(lower, One(carry));
      var highCarry' := highCarry || Overflows(higher, One(lowCarry'));
      (Pair(Word(PlusWord(lower, One(carry))), Word(PlusWord(higher, One(lowCarry')))), highCarry')
    else
      var (lower, lowCarry) := Addc(a.low, b.low, carry, k - 1);
      var (higher, highCarry) := Addc(a.high, b.high, lowCarry, k - 1);
      (Pair(lower, higher), highCarry)
  }

  /** One word with its carries: at most one of the two additions overflows. */
  lemma CarryOnce(x: nat, y: nat, c: nat, b: nat, s: nat)
    requires x < b && y < b && c <= 1 && s == (x + y) % b
    ensures (s + c) % b + b * One(x + y >= b || s + c >= b) == x + y + c
  {
    if x + y >= b { DivModUnique(x + y, b, 1, x + y - b); } else { DivModUnique(x + y, b, 0, x + y); }
    if s + c >= b { DivModUnique(s + c, b, 1, s + c - b); } else { DivModUnique(s + c, b, 0, s + c); }
  }

  lemma WordCarry(x: nat, y: nat, c: nat)
    requires x < Base(0) && y < Base(0) && c <= 1
    ensures var s := PlusWord(x, y);
      PlusWord(s, c) + Base(0) * One(Overflows(x, y) || Overflows(s, c)) == x + y + c
  {
    CarryOnce(x, y, c, Base(0), PlusWord(x, y));
  }

  lemma Combine(al: int, ah: int, bl: int, bh: int, rl: int, rh: int, c: int, c1: int, c2: int, h: int)
    requires rl + h * c1 == al + bl + c && rh + h * c2 == ah + bh + c1
    ensures rl + h * rh + (h * h) * c2 == (al + h * ah) + (bl + h * bh) + c
  {
    assert h * (rh + h * c2) == h * (ah + bh + c1);
    Distribute(rh, h * c2, h);
    MulAssoc(h, h, c2);
    Distribute(ah, bh, h);
    Distribute(ah + bh, c1, h);
  }

  /** Sum and carry out are exact. */
  lemma {:induction false} AddcIs(a: Big, b: Big, carry: bool, k: nat)
    requires k > 0 && Level(a, k) && Level(b, k)
    ensures var r := Addc(a, b, carry, k);
      Val(r.0, k) + Base(k) * One(r.1) == Val(a, k) + Val(b, k) + One(carry)
  {
    var h := Base(k - 1);
    ValPair(a, k);
    ValPair(b, k);
    ValPair(Addc(a, b, carry, k).0, k);
    BaseSquare(k);
    if k == 1 {
      WordCarry(a.low.w, b.low.w, One(carry));
      var lowCarry := Overflows(a.low.w, b.low.w) || Overflows(PlusWord(a.low.w, b.low.w), One(carry));
      WordCarry(a.high.w, b.high.w, One(lowCarry));
      var r := Addc(a, b, carry, k);
      Combine(a.low.w, a.high.w, b.low.w, b.high.w, r.0.low.w, r.0.high.w, One(carry), One(lowCarry), One(r.1), h);
    } else {
      AddcIs(a.low, b.low, carry, k - 1);
      var (lower, lowCarry) := Addc(a.low, b.low, carry, k - 1);
      AddcIs(a.high, b.high, lowCarry, k - 1);
      var (higher, highCarry) := Addc(a.high, b.high, lowCarry, k - 1);
      Combine(Val(a.low, k - 1), Val(a.high, k - 1), Val(b.low, k - 1), Val(b.high, k - 1),
              Val(lower, k - 1), Val(higher, k - 1), One(carry), One(lowCarry), One(highCarry), h);
    }
  }

  // ---------------------------------------------------------------- subtraction

  /** x - y in arithmetic that wraps at h. */
  function Wrapped(x: nat, y: nat, h: nat): (r: nat)
    requires x < h && y <= h
    ensures r < h
  {
    if x >= y then x - y else x + h - y
  }

  /** a - bool: the narrow subtraction with one or nothing to take away. */
  function MinusBool(a: Big, c: bool, k: nat): (r: Big)
    requires Level(a, k)
    ensures Level(r, k)
    decreases k
  {
    if k == 0 then Word(Wrapped(a.w, One(c), Base(0)))
    else
      var lowCarry := Less(MinusBool(a.low, false, k - 1), Small(One(c), k - 1), k - 1);
      Pair(MinusBool(MinusBool(a.low, c, k - 1), false, k - 1), MinusBool(a.high, lowCarry, k - 1))
  }

  function Minus(a: Big, b: Big, k: nat): (r: Big)
    requires Level(a, k) && Level(b, k)
    ensures Level(r, k)
    decreases k, 0
  {
    if k == 0 then Word(Wrapped(a.w, b.w, Base(0))) else Subc(a, b, false, k).0
  }

  /** Whether one half borrows. */
  predicate Borrows(x: Big, y: Big, carry: bool, k: nat)
    requires Level(x, k) && Level(y, k)
  {
    (x == Zero(k) && carry) || Less(MinusBool(x, carry, k), y, k)
  }

  function Subc(a: Big, b: Big, carry: bool, k: nat): (r: (Big, bool))
    requires k > 0 && Level(a, k) && Level(b, k)
    ensures Level(r.0, k)
    decreases k - 1, 1
  {
    var lowCarry := Borrows(a.low, b.low, carry, k - 1);
    var highCarry := Borrows(a.high, b.high, lowCarry, k - 1);
    var lower := MinusBool(Minus(a.low, b.low, k - 1), carry, k - 1);
    var higher := MinusBool(Minus(a.high, b.high, k - 1), lowCarry, k - 1);
    (Pair(lower, higher), highCarry)
  }

  lemma {:induction false} MinusBoolIs(a: Big, c: bool, k: nat)
    requires Level(a, k)
    ensures Val(a, k) < Base(k) && Val(MinusBool(a, c, k), k) == Wrapped(Val(a, k), One(c), Base(k))
    decreases k, 0
  {
    ValBelow(a, k);
    if k > 0 {
      LowBorrow(a.low, c, k - 1);
      var lowCarry := Val(a.low, k - 1) < One(c);
      MinusBoolIs(a.low, c, k - 1);
      MinusBoolIs(MinusBool(a.low, c, k - 1), false, k - 1);
      MinusBoolIs(a.high, lowCarry, k - 1);
      ValPair(a, k);
      ValPair(MinusBool(a, c, k), k);
      BaseSquare(k);
      BorrowAcross(Val(a.low, k - 1), Val(a.high, k - 1), One(c), Base(k - 1));
    }
  }

  lemma {:induction false} LowBorrow(a: Big, c: bool, k: nat)
    requires Level(a, k)
    ensures Less(MinusBool(a, false, k), Small(One(c), k), k) <==> Val(a, k) < One(c)
    decreases k, 1
  {
    MinusBoolIs(a, false, k);
    SmallIs(One(c), k);
    LessIs(MinusBool(a, false, k), Small(One(c), k), k);
  }

  lemma BorrowAcross(lo: nat, hi: nat, c: nat, h: nat)
    requires lo < h && hi < h && c <= 1 && lo + h * hi < h * h
    ensures Wrapped(lo, c, h) + h * Wrapped(hi, One(lo < c), h) == Wrapped(lo + h * hi, c, h * h)
  {
    Distribute(hi, -1, h);
    if hi == 0 { assert h * (h - 1) == h * h - h; }
  }

  lemma BorrowsIs(x: Big, y: Big, carry: bool, k: nat)
    requires Level(x, k) && Level(y, k)
    ensures Borrows(x, y, carry, k) <==> Val(x, k) < Val(y, k) + One(carry)
  {
    ValBelow(x, k);
    ValBelow(y, k);
    ZeroIs(k);
    LessIs(x, Zero(k), k);
    MinusBoolIs(x, carry, k);
    LessIs(MinusBool(x, carry, k), y, k);
  }

  /** Difference and borrow are exact. */
  lemma {:induction false} SubcIs(a: Big, b: Big, carry: bool, k: nat)
    requires k > 0 && Level(a, k) && Level(b, k)
    ensures var r := Subc(a, b, carry, k);
      Val(r.0, k) + Val(b, k) + One(carry) == Val(a, k) + Base(k) * One(r.1)
    decreases k - 1, 2
  {
    var h := Base(k - 1);
    var lowCarry := Borrows(a.low, b.low, carry, k - 1);
    HalfMinus(a.low, b.low, carry, k - 1);
    HalfMinus(a.high, b.high, lowCarry, k - 1);
    var r := Subc(a, b, carry, k);
    ValPair(a, k);
    ValPair(b, k);
    ValPair(r.0, k);
    BaseSquare(k);
    Combine(Val(r.0.low, k - 1), Val(r.0.high, k - 1), Val(b.low, k - 1), Val(b.high, k - 1),
            Val(a.low, k - 1), Val(a.high, k - 1), One(carry), One(lowCarry), One(r.1), h);
  }

  lemma {:induction false} HalfMinus(x: Big, y: Big, carry: bool, k: nat)
    requires Level(x, k) && Level(y, k)
    ensures Val(MinusBool(Minus(x, y, k), carry, k), k) + Val(y, k) + One(carry)
      == Val(x, k) + Base(k) * One(Borrows(x, y, carry, k))
    decreases k, 1
  {
    MinusIs(x, y, k);
    BorrowsIs(x, y, carry, k);
    MinusBoolIs(Minus(x, y, k), carry, k);
  }

  lemma {:induction false} MinusIs(x: Big, y: Big, k: nat)
    requires Level(x, k) && Level(y, k)
    ensures Val(x, k) < Base(k) && Val(y, k) < Base(k)
    ensures Val(Minus(x, y, k), k) == Wrapped(Val(x, k), Val(y, k), Base(k))
    decreases k, 0
  {
    ValBelow(x, k);
    ValBelow(y, k);
    if k > 0 {
      ValBelow(Minus(x, y, k), k);
      SubcIs(x, y, false, k);
      OneWrap(Val(Minus(x, y, k), k), Val(x, k), Val(y, k), Base(k), Subc(x, y, false, k).1);
    }
  }

  lemma OneWrap(r: nat, x: nat, y: nat, h: nat, borrow: bool)
    requires r < h && x < h && y < h && r + y == x + h * One(borrow)
    ensures r == Wrapped(x, y, h)
  {
  }

  // ---------------------------------------------------------------- bits

  /** Bitwise or of words. */
  function OrWord(x: nat, y: nat): nat {
    if x == 0 then y else if y == 0 then x else 2 * OrWord(x / 2, y / 2) + (if x % 2 == 1 || y % 2 == 1 then 1 else 0)
  }

  /** Where the bits do not meet, or is addition. */
  lemma {:induction false} OrWordIs(x: nat, y: nat, s: nat)
    requires x % Pow2(s) == 0 && y < Pow2(s)
    ensures OrWord(x, y) == x + y
    decreases x
  {
    if x > 0 && y > 0 {
      var p := Pow2(s - 1);
      DivMod(x, 2 * p);
      MulAssoc(x / (2 * p), 2, p);
      assert x == 2 * (x / (2 * p) * p);
      DivModUnique(x / 2, p, x / (2 * p), 0);
      OrWordIs(x / 2, y / 2, s - 1);
    }
  }

  lemma {:induction false} OrWordBelow(x: nat, y: nat, n: nat)
    requires x < Pow2(n) && y < Pow2(n)
    ensures OrWord(x, y) < Pow2(n)
    decreases x
  {
    if x > 0 && y > 0 { OrWordBelow(x / 2, y / 2, n - 1); }
  }

  function Or(a: Big, b: Big, k: nat): (r: Big)
    requires Level(a, k) && Level(b, k)
    ensures Level(r, k)
  {
    if k == 0 then (WordIs(); OrWordBelow(a.w, b.w, 64); Word(OrWord(a.w, b.w)))
      else Pair(Or(a.low, b.low, k - 1), Or(a.high, b.high, k - 1))
  }

  lemma {:induction false} OrZero(a: Big, z: Big, k: nat)
    requires Level(a, k) && Level(z, k) && Val(z, k) == 0
    ensures Or(a, z, k) == a && Or(z, a, k) == a
  {
    if k > 0 {
      ValPair(z, k);
      ZeroProduct(Base(k - 1), Val(z.high, k - 1));
      OrZero(a.low, z.low, k - 1);
      OrZero(a.high, z.high, k - 1);
    }
  }

  lemma ZeroProduct(h: nat, x: nat)
    requires h > 0 && h * x == 0
    ensures x == 0
  {
  }

  lemma LowDivides(al: nat, ah: nat, p: nat, q: nat, h: nat)
    requires p > 0 && h == p * q && (al + h * ah) % p == 0
    ensures al % p == 0
  {
    DivMod(al, p);
    MulAssoc(p, q, ah);
    MulCommutes(p, q * ah);
    Distribute(al / p, q * ah, p);
    DivModUnique(al + h * ah, p, al / p + q * ah, al % p);
  }

  lemma HighDivides(al: nat, ah: nat, h: nat, p: nat)
    requires h > 0 && p > 0 && al < h && (al + h * ah) % (h * p) == 0
    ensures al == 0 && ah % p == 0
  {
    var x := al + h * ah;
    var t := x / (h * p);
    DivMod(x, h * p);
    MulAssoc(h, p, t);
    MulCommutes(h * p, t);
    MulCommutes(h, p * t);
    MulCommutes(h, ah);
    DivModUnique(x, h, p * t, 0);
    DivModUnique(x, h, ah, al);
    MulCommutes(p, t);
    DivModUnique(ah, p, t, 0);
  }

  lemma HighBelow(bl: nat, bh: nat, h: nat, p: nat)
    requires h > 0 && bl + h * bh < h * p
    ensures bh < p
  {
    if bh >= p {
      MulMonotone(p, bh, h);
      MulCommutes(p, h);
      MulCommutes(bh, h);
    }
  }

  /** Where the bits do not meet, or is addition. */
  lemma {:induction false} OrIs(a: Big, b: Big, s: nat, k: nat)
    requires Level(a, k) && Level(b, k) && s <= Bits(k)
    requires Val(a, k) % Pow2(s) == 0 && Val(b, k) < Pow2(s)
    ensures Val(Or(a, b, k), k) == Val(a, k) + Val(b, k)
    decreases k
  {
    if k == 0 {
      OrWordIs(a.w, b.w, s);
    } else if s <= Bits(k - 1) {
      OrSplitLow(a, b, s, k);
      OrIs(a.low, b.low, s, k - 1);
      OrZero(a.high, b.high, k - 1);
      JoinedLow(Val(a.low, k - 1), Val(b.low, k - 1), Val(a.high, k - 1), Base(k - 1));
    } else {
      OrSplitHigh(a, b, s, k);
      OrZero(b.low, a.low, k - 1);
      OrIs(a.high, b.high, s - Bits(k - 1), k - 1);
      JoinedHigh(Val(b.low, k - 1), Val(a.high, k - 1), Val(b.high, k - 1), Base(k - 1));
    }
  }

  lemma {:induction false} JoinedLow(al: nat, bl: nat, ah: nat, h: nat)
    ensures Joined(al + bl, ah, h) == Joined(al, ah, h) + bl
  {
    if ah > 0 { JoinedLow(al, bl, ah - 1, h); }
  }

  lemma {:induction false} JoinedHigh(bl: nat, ah: nat, bh: nat, h: nat)
    ensures Joined(bl, ah + bh, h) == Joined(0, ah, h) + Joined(bl, bh, h)
  {
    if ah > 0 { JoinedHigh(bl, ah - 1, bh, h); }
  }

  lemma SplitLow(al: nat, ah: nat, bl: nat, bh: nat, p: nat, q: nat, h: nat)
    requires p > 0 && q > 0 && h == p * q && (al + h * ah) % p == 0 && bl + h * bh < p
    ensures al % p == 0 && bl < p && bh == 0
  {
    LowDivides(al, ah, p, q, h);
    MulMonotone(1, q, p);
    MulCommutes(p, q);
    HighBelow(bl, bh, h, 1);
  }

  lemma OrSplitLow(a: Big, b: Big, s: nat, k: nat)
    requires k > 0 && Level(a, k) && Level(b, k) && s <= Bits(k - 1)
    requires Val(a, k) % Pow2(s) == 0 && Val(b, k) < Pow2(s)
    ensures Val(a.low, k - 1) % Pow2(s) == 0 && Val(b.low, k - 1) < Pow2(s) && Val(b.high, k - 1) == 0
  {
    BaseIs(k - 1);
    var q := Pow2(Bits(k - 1) - s);
    ValPair(a, k);
    ValPair(b, k);
    Pow2Add(s, Bits(k - 1) - s);
    SplitLow(Val(a.low, k - 1), Val(a.high, k - 1), Val(b.low, k - 1), Val(b.high, k - 1), Pow2(s), q, Base(k - 1));
  }

  lemma OrSplitHigh(a: Big, b: Big, s: nat, k: nat)
    requires k > 0 && Level(a, k) && Level(b, k) && s > Bits(k - 1)
    requires Val(a, k) % Pow2(s) == 0 && Val(b, k) < Pow2(s)
    ensures Val(a.low, k - 1) == 0
    ensures Val(a.high, k - 1) % Pow2(s - Bits(k - 1)) == 0 && Val(b.high, k - 1) < Pow2(s - Bits(k - 1))
  {
    BaseIs(k - 1);
    var h := Bits(k - 1);
    ValPair(a, k);
    ValPair(b, k);
    ValBelow(a.low, k - 1);
    Pow2Add(h, s - h);
    HighDivides(Val(a.low, k - 1), Val(a.high, k - 1), Base(k - 1), Pow2(s - h));
    HighBelow(Val(b.low, k - 1), Val(b.high, k - 1), Base(k - 1), Pow2(s - h));
  }

  lemma {:induction false} OrWordCommutes(x: nat, y: nat)
    ensures OrWord(x, y) == OrWord(y, x)
    decreases x
  {
    if x > 0 && y > 0 { OrWordCommutes(x / 2, y / 2); }
  }

  lemma {:induction false} OrCommutes(a: Big, b: Big, k: nat)
    requires Level(a, k) && Level(b, k)
    ensures Or(a, b, k) == Or(b, a, k)
  {
    if k == 0 {
      OrWordCommutes(a.w, b.w);
    } else {
      OrCommutes(a.low, b.low, k - 1);
      OrCommutes(a.high, b.high, k - 1);
    }
  }

  // ---------------------------------------------------------------- shifts

  function Shl(a: Big, s: nat, k: nat): (r: Big)
    requires Level(a, k)
    ensures Level(r, k)
    decreases k
  {
    if k == 0 then Word((a.w * Pow2(s)) % Base(0))
    else if s >= Bits(k) then Zero(k)
    else if s >= Bits(k - 1) then Pair(Zero(k - 1), Shl(a.low, s - Bits(k - 1), k - 1))
    else if s == 0 then a
    else
      var overflow := Shr(a.low, Bits(k - 1) - s, k - 1);
      Pair(Shl(a.low, s, k - 1), Or(Shl(a.high, s, k - 1), overflow, k - 1))
  }

  function Shr(a: Big, s: nat, k: nat): (r: Big)
    requires Level(a, k)
    ensures Level(r, k)
    decreases k
  {
    if k == 0 then Word(ShrWord(a.w, s))
    else if s >= Bits(k) then Zero(k)
    else if s >= Bits(k - 1) then Pair(Shr(a.high, s - Bits(k - 1), k - 1), Zero(k - 1))
    else if s == 0 then a
    else
      var underflow := Shl(a.high, Bits(k - 1) - s, k - 1);
      Pair(Or(Shr(a.low, s, k - 1), underflow, k - 1), Shr(a.high, s, k - 1))
  }

  function ShrWord(w: nat, s: nat): (r: nat)
    ensures r <= w && r == w / Pow2(s)
  {
    Quotient(w, Pow2(s))
  }

  function Quotient(x: nat, p: nat): (r: nat)
    requires p > 0
    ensures r == x / p && r <= x
  {
    DivisionShrinks(x, p);
    x / p
  }

  lemma DivisionShrinks(x: nat, p: nat)
    requires p > 0
    ensures 0 <= x / p <= x
  {
    DivMod(x, p);
    MulMonotone(1, p, x / p);
    MulCommutes(x / p, p);
  }

  lemma MultipleMod(x: nat, m: nat)
    requires m > 0
    ensures (x * m) % m == 0
  {
    DivModUnique(x * m, m, x, 0);
  }

  lemma FarLow(lo: nat, h: nat, t: nat)
    ensures lo * (h * t) == h * (lo * t)
  {
    MulCommutes(h, t);
    MulAssoc(lo, t, h);
    MulCommutes(lo * t, h);
  }

  lemma FarHigh(hi: nat, h: nat, t: nat)
    ensures h * hi * (h * t) == hi * t * (h * h)
  {
    MulCommutes(h, hi);
    MulAssoc(hi, h, h * t);
    MulAssoc(h, h, t);
    MulCommutes(h * h, t);
    MulAssoc(hi, t, h * h);
  }

  lemma FarQuotient(low: nat, h: nat)
    requires h > 0
    ensures h * low == low / h * (h * h) + h * (low % h) && h * (low % h) < h * h
  {
    DivMod(low, h);
    Distribute(low / h * h, low % h, h);
    MulCommutes(h, low / h * h);
    MulAssoc(low / h, h, h);
    MulBelow(low % h, h, h);
    MulCommutes(h, low % h);
  }

  lemma FarWhole(lo: nat, hi: nat, h: nat, t: nat, low: nat)
    requires h > 0 && low == lo * t
    ensures (lo + h * hi) * (h * t) == (low / h + hi * t) * (h * h) + h * (low % h)
  {
    assert (lo + h * hi) * (h * t) == h * low + hi * t * (h * h) by {
      Distribute(lo, h * hi, h * t);
      FarLow(lo, h, t);
      FarHigh(hi, h, t);
    }
    FarQuotient(low, h);
    Distribute(low / h, hi * t, h * h);
  }

  /** A shift by half the width or more. */
  lemma ShiftFar(lo: nat, hi: nat, h: nat, t: nat)
    requires h > 0
    ensures ((lo + h * hi) * (h * t)) % (h * h) == h * ((lo * t) % h)
  {
    var low, m := lo * t, h * h;
    var x, q, r := (lo + h * hi) * (h * t), low / h + hi * t, h * (low % h);
    FarWhole(lo, hi, h, t, low);
    FarQuotient(low, h);
    DivModUnique(x, m, q, r);
  }

  lemma BackFarWhole(lo: nat, hi: nat, h: nat, t: nat, d: nat, q: nat, r: nat)
    requires hi == q * t + r && d == h * t
    ensures lo + h * hi == q * d + (lo + h * r)
  {
    Distribute(q * t, r, h);
    MulCommutes(h, q * t);
    MulAssoc(q, t, h);
    MulCommutes(t, h);
  }

  lemma BackFarRest(lo: nat, r: nat, h: nat, t: nat)
    requires r < t && lo < h
    ensures lo + h * r < h * t
  {
    MulBelow(r, t, h);
    MulCommutes(r, h);
    MulCommutes(t, h);
  }

  lemma ShiftBackFar(v: nat, lo: nat, hi: nat, h: nat, t: nat, d: nat)
    requires v == lo + h * hi && lo < h && t > 0 && d == h * t && d > 0
    ensures v / d == hi / t
  {
    DivMod(hi, t);
    var q, r := hi / t, hi % t;
    BackFarWhole(lo, hi, h, t, d, q, r);
    BackFarRest(lo, r, h, t);
    DivModUnique(v, d, q, lo + h * r);
  }

  lemma ShiftOut(v: nat, s: nat, n: nat)
    requires s >= n
    ensures (v * Pow2(s)) % Pow2(n) == 0
  {
    Pow2Add(s - n, n);
    MulAssoc(v, Pow2(s - n), Pow2(n));
    MultipleMod(v * Pow2(s - n), Pow2(n));
  }

  lemma {:induction false} ShlIs(a: Big, s: nat, k: nat)
    requires Level(a, k)
    ensures Val(Shl(a, s, k), k) == (Val(a, k) * Pow2(s)) % Base(k)
    decreases k, 0
  {
    BaseIs(k);
    if k > 0 {
      if s >= Bits(k) {
        ZeroIs(k);
        ShiftOut(Val(a, k), s, Bits(k));
      } else if s >= Bits(k - 1) {
        ShlFar(a, s, k);
      } else if s > 0 {
        ShlNear(a, s, k);
      } else {
        ValBelow(a, k);
        DivModUnique(Val(a, k), Base(k), 0, Val(a, k));
      }
    }
  }

  lemma {:induction false} ShlFar(a: Big, s: nat, k: nat)
    requires k > 0 && Level(a, k) && Bits(k - 1) <= s < Bits(k)
    ensures Val(Shl(a, s, k), k) == (Val(a, k) * Pow2(s)) % Base(k)
    decreases k - 1, 1
  {
    BaseIs(k - 1);
    var t := s - Bits(k - 1);
    ZeroIs(k - 1);
    ValPair(a, k);
    ValPair(Shl(a, s, k), k);
    BaseSquare(k);
    ShlIs(a.low, t, k - 1);
    Pow2Add(Bits(k - 1), t);
    ShiftFar(Val(a.low, k - 1), Val(a.high, k - 1), Base(k - 1), Pow2(t));
  }

  lemma ShlHalves(lo: nat, hi: nat, p: nat, q: nat, h: nat)
    requires p > 0 && q > 0 && h == p * q && lo < h && hi < h
    ensures ((hi * p) % h) % p == 0 && lo / q < p
    ensures (lo * p) % h + h * ((hi * p) % h + lo / q) == ((lo + h * hi) * p) % (h * h)
  {
    ShiftLow(lo, p, q, h);
    ShiftLow(hi, p, q, h);
    MultipleMod(hi % q, p);
    ShiftLeftHalves(lo, hi, p, q, h);
  }

  lemma {:induction false} ShlNear(a: Big, s: nat, k: nat)
    requires k > 0 && Level(a, k) && 0 < s < Bits(k - 1)
    ensures Val(Shl(a, s, k), k) == (Val(a, k) * Pow2(s)) % Base(k)
    decreases k - 1, 2
  {
    BaseIs(k - 1);
    var h := Bits(k - 1);
    ValBelow(a.low, k - 1);
    ValBelow(a.high, k - 1);
    Pow2Add(s, h - s);
    ShlIs(a.low, s, k - 1);
    ShlNearHigh(a.low, a.high, s, k - 1);
    ValPair(a, k);
    ValPair(Shl(a, s, k), k);
    BaseSquare(k);
    ShlHalves(Val(a.low, k - 1), Val(a.high, k - 1), Pow2(s), Pow2(h - s), Base(k - 1));
  }

  lemma {:induction false} ShlNearHigh(low: Big, high: Big, s: nat, k: nat)
    requires Level(low, k) && Level(high, k) && 0 < s < Bits(k)
    ensures Val(Or(Shl(high, s, k), Shr(low, Bits(k) - s, k), k), k)
      == (Val(high, k) * Pow2(s)) % Base(k) + Val(low, k) / Pow2(Bits(k) - s)
    decreases k, 1
  {
    BaseIs(k);
    var t := Bits(k) - s;
    var higher, overflow := Shl(high, s, k), Shr(low, t, k);
    ShlIs(high, s, k);
    ShrIs(low, t, k);
    assert Val(higher, k) % Pow2(s) == 0 && Val(overflow, k) < Pow2(s) by {
      ValBelow(low, k);
      ValBelow(high, k);
      Pow2Add(s, t);
      ShlHalves(Val(low, k), Val(high, k), Pow2(s), Pow2(t), Base(k));
    }
    OrIs(higher, overflow, s, k);
  }

  lemma {:induction false} ShrIs(a: Big, s: nat, k: nat)
    requires Level(a, k)
    ensures Val(Shr(a, s, k), k) == Val(a, k) / Pow2(s)
    decreases k, 0
  {
    BaseIs(k);
    if k > 0 {
      if s >= Bits(k) {
        ValBelow(a, k);
        ZeroIs(k);
        Pow2Monotone(Bits(k), s);
        DivModUnique(Val(a, k), Pow2(s), 0, Val(a, k));
      } else if s >= Bits(k - 1) {
        ShrFar(a, s, k);
      } else if s > 0 {
        ShrNear(a, s, k);
      }
    }
  }

  lemma LowOnly(x: Big, k: nat)
    requires k > 0 && Level(x, k - 1)
    ensures Level(Pair(x, Zero(k - 1)), k) && Val(Pair(x, Zero(k - 1)), k) == Val(x, k - 1)
  {
    ZeroIs(k - 1);
  }

  /** The number shifted back by half the width or more is the high half shifted by the rest. */
  lemma ShrFarValue(a: Big, t: nat, k: nat)
    requires k > 0 && Level(a, k)
    ensures Val(a, k) / Pow2(Bits(k - 1) + t) == Val(a.high, k - 1) / Pow2(t)
  {
    BaseIs(k - 1);
    ValBelow(a.low, k - 1);
    ValPair(a, k);
    Pow2Add(Bits(k - 1), t);
    ShiftBackFar(Val(a, k), Val(a.low, k - 1), Val(a.high, k - 1), Base(k - 1), Pow2(t), Pow2(Bits(k - 1) + t));
  }

  lemma {:induction false} ShrFar(a: Big, s: nat, k: nat)
    requires k > 0 && Level(a, k) && Bits(k - 1) <= s < Bits(k)
    ensures Val(Shr(a, s, k), k) == Val(a, k) / Pow2(s)
    decreases k - 1, 1
  {
    var t := s - Bits(k - 1);
    assert Shr(a, s, k) == Pair(Shr(a.high, t, k - 1), Zero(k - 1));
    LowOnly(Shr(a.high, t, k - 1), k);
    ShrIs(a.high, t, k - 1);
    ShrFarValue(a, t, k);
  }

  lemma ShrHalves(lo: nat, hi: nat, p: nat, q: nat, h: nat)
    requires p > 0 && q > 0 && h == p * q && lo < h && hi < h
    ensures lo / p < q && ((hi * q) % h) % q == 0
    ensures lo / p + (hi * q) % h + h * (hi / p) == (lo + h * hi) / p
  {
    ShiftRightCarry(lo, hi, p, q, h);
    MultipleMod(hi % p, q);
    ShiftRightHalves(lo, hi, p, q, h);
  }

  lemma {:induction false} ShrNear(a: Big, s: nat, k: nat)
    requires k > 0 && Level(a, k) && 0 < s < Bits(k - 1)
    ensures Val(Shr(a, s, k), k) == Val(a, k) / Pow2(s)
    decreases k - 1, 2
  {
    BaseIs(k - 1);
    var h := Bits(k - 1);
    ValBelow(a.low, k - 1);
    ValBelow(a.high, k - 1);
    Pow2Add(s, h - s);
    ShrIs(a.high, s, k - 1);
    ShrNearLow(a.low, a.high, s, k - 1);
    ValPair(a, k);
    ValPair(Shr(a, s, k), k);
    ShrHalves(Val(a.low, k - 1), Val(a.high, k - 1), Pow2(s), Pow2(h - s), Base(k - 1));
  }

  lemma {:induction false} ShrNearLow(low: Big, high: Big, s: nat, k: nat)
    requires Level(low, k) && Level(high, k) && 0 < s < Bits(k)
    ensures Val(Or(Shr(low, s, k), Shl(high, Bits(k) - s, k), k), k)
      == Val(low, k) / Pow2(s) + (Val(high, k) * Pow2(Bits(k) - s)) % Base(k)
    decreases k, 1
  {
    BaseIs(k);
    var t := Bits(k) - s;
    var lower, underflow := Shr(low, s, k), Shl(high, t, k);
    ShrIs(low, s, k);
    ShlIs(high, t, k);
    assert Val(lower, k) < Pow2(t) && Val(underflow, k) % Pow2(t) == 0 by {
      ValBelow(low, k);
      ValBelow(high, k);
      Pow2Add(s, t);
      ShrHalves(Val(low, k), Val(high, k), Pow2(s), Pow2(t), Base(k));
    }
    OrCommutes(lower, underflow, k);
    OrIs(underflow, lower, t, k);
  }
}
