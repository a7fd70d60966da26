/** Saturating time arithmetic (base/Time.h, base/Time.cpp), measured in nanoseconds that have no bounds. */
module Times {
  import opened Limits

  const BILLION: int := 1_000_000_000
  const MILLION: int := 1_000_000

  datatype Time = Time(seconds: int, nanoseconds: int)

  predicate IsI64(n: int) {
    I64_MIN <= n <= I64_MAX
  }

  predicate Valid(t: Time) {
    IsI64(t.seconds) && 0 <= t.nanoseconds < BILLION
  }

  const MIN := Time(I64_MIN, 0)
  const MAX := Time(I64_MAX, 999_999_999)

  /** The time as a number of nanoseconds. */
  function Nanos(t: Time): int {
    t.seconds * BILLION + t.nanoseconds
  }

  /** The nearest number of nanoseconds that a time can hold. */
  function Clamp(n: int): int {
    if n < Nanos(MIN) then Nanos(MIN) else if n > Nanos(MAX) then Nanos(MAX) else n
  }

  function Saturate(n: int): int {
    if n < I64_MIN then I64_MIN else if n > I64_MAX then I64_MAX else n
  }

  // ---------------------------------------------------------------- division as the language does it

  /** Division that cuts toward zero, and its remainder. */
  function Cut(n: int, d: int): int
    requires d > 0
  {
    if n >= 0 then n / d else -(-n / d)
  }

  function CutRest(n: int, d: int): int
    requires d > 0
  {
    n - d * Cut(n, d)
  }

  /** Division that goes away from zero. */
  function Away(n: int, d: int): int
    requires d > 0
  {
    if n >= 0 then (n + d - 1) / d else -((-n + d - 1) / d)
  }

  /** sane_mod: the quotient, and the remainder that is never negative. */
  function SaneMod(n: int, d: int): (r: (int, int))
    requires 2 <= d <= BILLION
    ensures n == r.0 * d + r.1 && 0 <= r.1 < d
  {
    var q, rest := Cut(n, d), CutRest(n, d);
    if rest < 0 then (q - 1, rest + d) else (q, rest)
  }

  // ---------------------------------------------------------------- addition and subtraction

  /** operator+ */
  function Plus(a: Time, b: Time): Time
    requires Valid(a) && Valid(b)
  {
    var nsecs := a.nanoseconds + b.nanoseconds;
    if nsecs >= BILLION then
      if a.seconds != I64_MAX then AddSeconds(a.seconds + 1, b.seconds, nsecs - BILLION)
      else if b.seconds != I64_MAX then AddSeconds(a.seconds, b.seconds + 1, nsecs - BILLION)
      else MAX
    else AddSeconds(a.seconds, b.seconds, nsecs)
  }

  function AddSeconds(s: int, other: int, nsecs: int): Time {
    if !IsI64(s + other) then (if other > 0 then MAX else MIN) else Time(s + other, nsecs)
  }

  /** operator- */
  function Minus(a: Time, b: Time): Time
    requires Valid(a) && Valid(b)
  {
    if b.nanoseconds != 0 then Plus(a, Time(-b.seconds - 1, BILLION - b.nanoseconds))
    else if b.seconds != I64_MIN then Plus(a, Time(-b.seconds, 0))
    else if a.seconds >= 0 then MAX
    else Time((a.seconds + 0x4000_0000_0000_0000) + 0x4000_0000_0000_0000, a.nanoseconds)
  }

  /** The sum is exact, or the bound it has passed. */
  lemma PlusIs(a: Time, b: Time)
    requires Valid(a) && Valid(b)
    ensures Valid(Plus(a, b)) && Nanos(Plus(a, b)) == Clamp(Nanos(a) + Nanos(b))
  {
  }

  lemma MinusIs(a: Time, b: Time)
    requires Valid(a) && Valid(b)
    ensures Valid(Minus(a, b)) && Nanos(Minus(a, b)) == Clamp(Nanos(a) - Nanos(b))
  {
    if b.nanoseconds != 0 {
      PlusIs(a, Time(-b.seconds - 1, BILLION - b.nanoseconds));
    } else if b.seconds != I64_MIN {
      PlusIs(a, Time(-b.seconds, 0));
    }
  }

  /** A time is determined by its nanoseconds, and compares as they do. */
  lemma LessIs(a: Time, b: Time)
    requires Valid(a) && Valid(b)
    ensures (a.seconds < b.seconds || (a.seconds == b.seconds && a.nanoseconds < b.nanoseconds))
      <==> Nanos(a) < Nanos(b)
    ensures a == b <==> Nanos(a) == Nanos(b)
  {
  }

  /** from_half_sanitized */
  function FromHalfSanitized(seconds: int, extra: int, nanoseconds: int): Time
    requires IsI64(seconds) && 0 <= nanoseconds < BILLION
  {
    var opposite := (seconds <= 0 && extra > 0) || (seconds >= 0 && extra < 0);
    var s, e := if opposite then seconds + extra else seconds, if opposite then 0 else extra;
    if !IsI64(s + e) then (if s < 0 then MIN else MAX) else Time(s + e, nanoseconds)
  }

  lemma FromHalfSanitizedIs(seconds: int, extra: int, nanoseconds: int)
    requires IsI64(seconds) && I32_MIN <= extra <= I32_MAX && 0 <= nanoseconds < BILLION
    ensures var t := FromHalfSanitized(seconds, extra, nanoseconds);
      Valid(t) && Nanos(t) == Clamp((seconds + extra) * BILLION + nanoseconds)
  {
  }

  function FromNanoseconds(n: int): Time {
    var r := SaneMod(n, BILLION);
    Time(r.0, r.1)
  }

  function FromMicroseconds(n: int): Time {
    var r := SaneMod(n, MILLION);
    Time(r.0, r.1 * 1000)
  }

  function FromMilliseconds(n: int): Time {
    var r := SaneMod(n, 1000);
    Time(r.0, r.1 * MILLION)
  }

  lemma FromIs(n: int)
    requires IsI64(n)
    ensures Valid(FromNanoseconds(n)) && Nanos(FromNanoseconds(n)) == n
    ensures Valid(FromMicroseconds(n)) && Nanos(FromMicroseconds(n)) == n * 1000
    ensures Valid(FromMilliseconds(n)) && Nanos(FromMilliseconds(n)) == n * MILLION
  {
  }

  // ---------------------------------------------------------------- conversions

  /** Checked<i64>: a value that wraps, and whether it ever did. */
  datatype Checked = Checked(value: int, overflow: bool) {
    function Plus(n: int): Checked {
      Checked(Wrapped(value + n), overflow || !IsI64(value + n))
    }

    function Times(n: int): Checked {
      Checked(Wrapped(value * n), overflow || !IsI64(value * n))
    }
  }

  function Wrapped(n: int): int {
    (n - I64_MIN) % 0x1_0000_0000_0000_0000 + I64_MIN
  }

  lemma WrappedIs(n: int)
    requires IsI64(n)
    ensures Wrapped(n) == n
  {
  }

  /** The five conversions to milli-, micro- and nanoseconds: `perSecond` units a second of `unit` nanoseconds each, cut
      toward zero or going away from it. */
  function ToUnits(t: Time, perSecond: int, unit: int, away: bool): int
    requires unit > 0
  {
    var c0 := Checked(if t.seconds < 0 then t.seconds + 1
      else t.seconds, false).Times(perSecond).Plus(t.nanoseconds / unit);
    var rest := t.nanoseconds % unit != 0;
    var c1 := if rest && away == (t.seconds >= 0) then c0.Plus(1) else c0;
    var c2 := if t.seconds < 0 then c1.Plus(-perSecond) else c1;
    if !c2.overflow then c2.value else if t.seconds < 0 then I64_MIN else I64_MAX
  }

  /** What the steps of a conversion come to when nothing is lost on the way. */
  function Units(t: Time, perSecond: int, unit: int, away: bool): int
    requires unit > 0
  {
    t.seconds * perSecond + t.nanoseconds / unit + if t.nanoseconds % unit != 0 && away == (t.seconds >= 0) then 1
      else 0
  }

  /** A checked sum of numbers of one sign: an intermediate overflow happens only when the end is out of bounds. */
  lemma UpwardSteps(n: int, a: int, b: int)
    requires 0 <= n && 0 <= a && 0 <= b
    ensures var c := Checked(Wrapped(n), !IsI64(n)).Plus(a).Plus(b);
      (c.overflow <==> n + a + b > I64_MAX) && (!c.overflow ==> c.value == n + a + b)
  {
    if IsI64(n) { WrappedIs(n); }
    if IsI64(n + a) { WrappedIs(n + a); }
    if IsI64(n + a + b) { WrappedIs(n + a + b); }
  }

  /** The dropped second is put back at the end, after what was added to the rest. */
  lemma DownwardSteps(n: int, a: int, b: int, back: int)
    requires n <= 0 && 0 <= a && 0 <= b <= 1 && a + b <= back <= BILLION
    ensures var c := Checked(Wrapped(n), !IsI64(n)).Plus(a).Plus(b).Plus(-back);
      (c.overflow <==> n + a + b - back < I64_MIN) && (!c.overflow ==> c.value == n + a + b - back)
  {
    if IsI64(n) { WrappedIs(n); }
    if IsI64(n + a) { WrappedIs(n + a); }
    if IsI64(n + a + b) { WrappedIs(n + a + b); }
    if IsI64(n + a + b - back) { WrappedIs(n + a + b - back); }
  }

  lemma PlusNothing(c: Checked)
    requires IsI64(c.value)
    ensures c.Plus(0) == c
  {
    WrappedIs(c.value);
  }

  lemma ToUnitsIs(t: Time, perSecond: int, unit: int, away: bool)
    requires Valid(t) && Scale(perSecond, unit)
    ensures ToUnits(t, perSecond, unit, away) == Saturate(Units(t, perSecond, unit, away))
  {
    if t.seconds >= 0 { UpwardUnits(t, perSecond, unit, away); } else { DownwardUnits(t, perSecond, unit, away); }
  }

  lemma PartsOfSecond(nanoseconds: int, perSecond: int, unit: int)
    requires 0 <= nanoseconds < BILLION && Scale(perSecond, unit)
    ensures 0 <= nanoseconds / unit < perSecond <= BILLION
  {
  }

  lemma UpwardUnits(t: Time, perSecond: int, unit: int, away: bool)
    requires Valid(t) && Scale(perSecond, unit) && t.seconds >= 0
    ensures ToUnits(t, perSecond, unit, away) == Saturate(Units(t, perSecond, unit, away))
  {
    var parts := t.nanoseconds / unit;
    var one := if t.nanoseconds % unit != 0 && away then 1 else 0;
    PartsOfSecond(t.nanoseconds, perSecond, unit);
    PlusNothing(Checked(t.seconds, false).Times(perSecond).Plus(parts));
    UpwardSteps(t.seconds * perSecond, parts, one);
  }

  lemma DownwardUnits(t: Time, perSecond: int, unit: int, away: bool)
    requires Valid(t) && Scale(perSecond, unit) && t.seconds < 0
    ensures ToUnits(t, perSecond, unit, away) == Saturate(Units(t, perSecond, unit, away))
  {
    var s, parts := t.seconds + 1, t.nanoseconds / unit;
    var one := if t.nanoseconds % unit != 0 && !away then 1 else 0;
    PartsOfSecond(t.nanoseconds, perSecond, unit);
    PlusNothing(Checked(s, false).Times(perSecond).Plus(parts));
    DownwardSteps(s * perSecond, parts, one, perSecond);
    UnitsSum(t.seconds, s, perSecond, parts, one);
  }

  lemma UnitsSum(seconds: int, s: int, perSecond: int, parts: int, one: int)
    requires s == if seconds < 0 then seconds + 1 else seconds
    ensures seconds < 0 ==> s * perSecond + parts + one - perSecond == seconds * perSecond + parts + one
  {
    if seconds < 0 { assert (seconds + 1) * perSecond == seconds * perSecond + perSecond; }
  }

  predicate Scale(perSecond: int, unit: int) {
    (perSecond == 1000 && unit == MILLION) || (perSecond == MILLION && unit == 1000)
      || (perSecond == BILLION && unit == 1)
  }

  lemma UnitsAre(t: Time, perSecond: int, unit: int)
    requires Valid(t) && Scale(perSecond, unit)
    ensures Units(t, perSecond, unit, false) == Cut(Nanos(t), unit)
    ensures Units(t, perSecond, unit, true) == Away(Nanos(t), unit)
  {
    var n := Nanos(t);
    var q, rest := t.seconds * perSecond + t.nanoseconds / unit, t.nanoseconds % unit;
    assert n == q * unit + rest;
    if unit == 1 {
    } else if unit == 1000 {
      assert n / 1000 == q;
    } else {
      assert n / MILLION == q;
    }
  }

  /** The conversions are the exact quotients, saturated. */
  lemma ConversionsAre(t: Time, perSecond: int, unit: int)
    requires Valid(t) && Scale(perSecond, unit)
    ensures ToUnits(t, perSecond, unit, false) == Saturate(Cut(Nanos(t), unit))
    ensures ToUnits(t, perSecond, unit, true) == Saturate(Away(Nanos(t), unit))
  {
    ToUnitsIs(t, perSecond, unit, false);
    ToUnitsIs(t, perSecond, unit, true);
    UnitsAre(t, perSecond, unit);
  }

  /** to_nanoseconds inverts from_nanoseconds. */
  lemma NanosecondsRoundTrip(n: int)
    requires IsI64(n)
    ensures ToUnits(FromNanoseconds(n), BILLION, 1, false) == n
  {
    FromIs(n);
    ConversionsAre(FromNanoseconds(n), BILLION, 1);
  }

  function ToTruncatedSeconds(t: Time): int {
    if t.seconds < 0 && t.nanoseconds != 0 then t.seconds + 1 else t.seconds
  }

  function ToSeconds(t: Time): int {
    if t.seconds >= 0 && t.nanoseconds != 0 then
      var c := Checked(t.seconds, false).Plus(1);
      if c.overflow then I64_MAX else c.value
    else t.seconds
  }

  lemma SecondsAre(t: Time)
    requires Valid(t)
    ensures ToTruncatedSeconds(t) == Saturate(Cut(Nanos(t), BILLION))
    ensures ToSeconds(t) == Saturate(Away(Nanos(t), BILLION))
  {
    if IsI64(t.seconds + 1) { WrappedIs(t.seconds + 1); }
  }
}

/** Days of the Gregorian calendar (base/Time.h, base/Time.cpp). */
module Calendar {
  predicate IsLeapYear(year: int) {
    year % 4 == 0 && (year % 100 != 0 || year % 400 == 0)
  }

  function DaysInYear(year: int): int {
    365 + if IsLeapYear(year) then 1 else 0
  }

  const DAYS_BEFORE: seq<int> := [0, 31, 59, 90, 120, 151, 181, 212, 243, 273, 304, 334]
  const WEEKDAY_SHIFT: seq<int> := [0, 3, 2, 5, 0, 3, 5, 1, 4, 6, 2, 4]

  function DayOfYear(year: int, month: int, day: int): int
    requires 1 <= month <= 12
  {
    DAYS_BEFORE[month - 1] + day - 1 + if IsLeapYear(year) && month >= 3 then 1 else 0
  }

  /** Days from the year 1 on, where the divisions and the remainder are of numbers that are not negative. */
  function DayOfWeek(year: int, month: int, day: int): int
    requires year >= 1 && 1 <= month <= 12 && day >= 1
  {
    var y := if month < 3 then year - 1 else year;
    (y + y / 4 - y / 100 + y / 400 + WEEKDAY_SHIFT[month - 1] + day) % 7
  }

  /** The days from the start of 1970 to the start of a year, before or after. */
  function DaysSinceEpoch(year: int): int
    decreases if year < 1970 then 1970 - year else year - 1970
  {
    if year == 1970 then 0
    else if year > 1970 then DaysSinceEpoch(year - 1) + DaysInYear(year - 1)
    else DaysSinceEpoch(year + 1) - DaysInYear(year)
  }

  /** Leap years before a year. */
  function LeapYears(year: int): int {
    (year - 1) / 4 - (year - 1) / 100 + (year - 1) / 400
  }

  lemma LeapYearCounts(year: int)
    ensures LeapYears(year + 1) == LeapYears(year) + if IsLeapYear(year) then 1 else 0
  {
    NextMultiple(year, 4);
    NextMultiple(year, 100);
    NextMultiple(year, 400);
  }

  lemma NextMultiple(year: int, n: int)
    requires n == 4 || n == 100 || n == 400
    ensures year / n == (year - 1) / n + if year % n == 0 then 1 else 0
  {
  }

  lemma {:induction false} DaysSinceEpochIs(year: int)
    ensures DaysSinceEpoch(year) == 365 * (year - 1970) + LeapYears(year) - LeapYears(1970)
    decreases if year < 1970 then 1970 - year else year - 1970
  {
    if year > 1970 {
      DaysSinceEpochIs(year - 1);
      LeapYearCounts(year - 1);
    } else if year < 1970 {
      DaysSinceEpochIs(year + 1);
      LeapYearCounts(year);
    }
  }

  /** years_to_days_since_epoch: a loop up from 1970, or from the year up to 1970. */
  method YearsToDaysSinceEpoch(year: int) returns (days: int)
    ensures days == DaysSinceEpoch(year)
  {
    days := 0;
    var current := 1970;
    while current < year
      invariant 1970 <= current && (year >= 1970 ==> current <= year) && days == DaysSinceEpoch(current)
      invariant year < 1970 ==> current == 1970
    {
      days := days + DaysInYear(current);
      current := current + 1;
    }
    current := year;
    while current < 1970
      invariant year <= current && (year < 1970 ==> current <= 1970)
      invariant days == DaysSinceEpoch(year) - DaysSinceEpoch(if year < 1970 then current else year)
        + if year < 1970 then 0 else DaysSinceEpoch(year)
    {
      days := days - DaysInYear(current);
      current := current + 1;
    }
  }

  lemma MonthShift(month: int)
    requires 1 <= month <= 12
    ensures (DAYS_BEFORE[month - 1] - WEEKDAY_SHIFT[month - 1] - if month >= 3 then 1 else 0) % 7 == 0
  {
  }

  /** The formula for the day of the week counts days: 1970 began on day 4. */
  lemma DayOfWeekCounts(year: int, month: int, day: int)
    requires year >= 1 && 1 <= month <= 12 && day >= 1
    ensures DayOfWeek(year, month, day) == (4 + DaysSinceEpoch(year) + DayOfYear(year, month, day)) % 7
  {
    var shift := DAYS_BEFORE[month - 1] - WEEKDAY_SHIFT[month - 1] - if month >= 3 then 1 else 0;
    var y := if month < 3 then year - 1 else year;
    var left := y + y / 4 - y / 100 + y / 400 + WEEKDAY_SHIFT[month - 1] + day;
    var right := 4 + DaysSinceEpoch(year) + DayOfYear(year, month, day);
    assert right - left == 364 * year + shift - 719523 by {
      DaysSinceEpochIs(year);
      LeapYearCounts(year);
      assert LeapYears(1970) == 477;
    }
    MonthShift(month);
    SameWeekday(left, right, 52 * year + shift / 7 - 102789);
  }

  lemma SameWeekday(a: int, b: int, weeks: int)
    requires b - a == 7 * weeks
    ensures a % 7 == b % 7
  {
  }
}
