/** Decimal and hexadecimal numerals: base/Format.cpp writes them, base/StringUtils.cpp reads them. */
module Numerals {
  import opened Optional

  predicate IsDigit(c: char) {
    '0' <= c <= '9'
  }

  function DigitOf(c: char): nat
    requires IsDigit(c)
  {
    c as int - '0' as int
  }

  predicate AllDigits(s: string) {
    forall i :: 0 <= i < |s| ==> IsDigit(s[i])
  }

  // ---------------------------------------------------------------- in any base

  function HexDigit(c: char): Option<nat> {
    if '0' <= c <= '9' then Some(c as int - '0' as int)
    else if 'a' <= c <= 'f' then Some(10 + (c as int - 'a' as int))
    else if 'A' <= c <= 'F' then Some(10 + (c as int - 'A' as int))
    else None
  }

  predicate IsNumeral(s: string, base: nat) {
    forall i :: 0 <= i < |s| ==> HexDigit(s[i]).Some? && HexDigit(s[i]).value < base
  }

  /** The number that digits of a base stand for. */
  function NumeralValue(s: string, base: nat): nat
    requires IsNumeral(s, base)
  {
    if s == [] then 0 else NumeralValue(s[..|s| - 1], base) * base + HexDigit(s[|s| - 1]).value
  }

  function LookUp(d: nat, upperCase: bool): (c: char)
    requires d < 16
    ensures HexDigit(c) == Some(d)
  {
    if d < 10 then (d + '0' as int) as char else (d - 10 + (if upperCase then 'A' else 'a') as int) as char
  }

  lemma DivShrinks(n: nat, base: nat)
    requires n >= base >= 2
    ensures 0 < n / base < n && n == n / base * base + n % base
  {
    assert n == n / base * base + n % base;
  }

  lemma DivSmall(n: nat, base: nat)
    requires n < base
    ensures n / base == 0 && n % base == n
  {
  }

  lemma AppendDigit(head: string, base: nat, c: char, q: nat, n: nat)
    requires IsNumeral(head, base) && HexDigit(c).Some? && HexDigit(c).value < base
    requires NumeralValue(head, base) == q && n == q * base + HexDigit(c).value
    ensures IsNumeral(head + [c], base) && NumeralValue(head + [c], base) == n
  {
    assert (head + [c])[..|head|] == head;
  }

  /** The shortest row of digits for n. */
  function Numeral(n: nat, base: nat, upperCase: bool): string
    requires 2 <= base <= 16
  {
    if n < base then [LookUp(n, upperCase)]
    else
      DivShrinks(n, base);
      Numeral(n / base, base, upperCase) + [LookUp(n % base, upperCase)]
  }

  lemma {:induction false} NumeralIs(n: nat, base: nat, upperCase: bool)
    requires 2 <= base <= 16
    ensures var s := Numeral(n, base, upperCase);
      && |s| > 0 && IsNumeral(s, base) && NumeralValue(s, base) == n
      && (n > 0 ==> s[0] != '0') && (n == 0 ==> s == "0")
  {
    if n >= base {
      DivShrinks(n, base);
      NumeralIs(n / base, base, upperCase);
      AppendDigit(Numeral(n / base, base, upperCase), base, LookUp(n % base, upperCase), n / base, n);
    } else {
      AppendDigit([], base, LookUp(n, upperCase), 0, n);
    }
  }

  // ---------------------------------------------------------------- in base ten

  function Decimal(n: nat): string {
    Numeral(n, 10, false)
  }

  function Signed(n: int): string {
    if n < 0 then "-" + Decimal(-n) else Decimal(n)
  }

  lemma DigitIs(c: char)
    ensures IsDigit(c) <==> HexDigit(c).Some? && HexDigit(c).value < 10
    ensures IsDigit(c) ==> HexDigit(c).value == DigitOf(c)
  {
  }

  lemma DecimalIs(n: nat)
    ensures |Decimal(n)| > 0 && AllDigits(Decimal(n)) && IsNumeral(Decimal(n), 10) && NumeralValue(Decimal(n), 10) == n
    ensures n > 0 ==> Decimal(n)[0] != '0'
    ensures n == 0 ==> Decimal(n) == "0"
  {
    NumeralIs(n, 10, false);
    forall i | 0 <= i < |Decimal(n)| ensures IsDigit(Decimal(n)[i]) { DigitIs(Decimal(n)[i]); }
  }

  // ---------------------------------------------------------------- writing

  function Reversed(s: string): string {
    seq(|s|, i requires 0 <= i < |s| => s[|s| - 1 - i])
  }

  /** convert_unsigned_to_string: least digit first, then turned around in the buffer. */
  method ConvertUnsignedToString(n: nat, base: nat, upperCase: bool) returns (text: string)
    requires 2 <= base <= 16
    ensures text == Numeral(n, base, upperCase)
  {
    if n == 0 {
      NumeralIs(0, base, upperCase);
      return "0";
    }
    var buffer: string := [];
    var value: nat := n;
    assert Numeral(n, base, upperCase) + Reversed([]) == Numeral(n, base, upperCase);
    while value > 0
      invariant value > 0 ==> Numeral(value, base, upperCase) + Reversed(buffer) == Numeral(n, base, upperCase)
      invariant value == 0 ==> Reversed(buffer) == Numeral(n, base, upperCase)
    {
      var digit := LookUp(value % base, upperCase);
      LastDigit(value, base, upperCase, buffer);
      buffer := buffer + [digit];
      value := value / base;
    }
    text := TurnAround(buffer);
  }

  lemma LastDigit(value: nat, base: nat, upperCase: bool, buffer: string)
    requires 2 <= base <= 16 && value > 0
    ensures value / base < value
    ensures var next := Reversed(buffer + [LookUp(value % base, upperCase)]);
      Numeral(value, base, upperCase) + Reversed(buffer) ==
        if value / base == 0 then next else Numeral(value / base, base, upperCase) + next
  {
    var digit := LookUp(value % base, upperCase);
    assert Reversed(buffer + [digit]) == [digit] + Reversed(buffer);
    if value >= base {
      DivShrinks(value, base);
      var head := Numeral(value / base, base, upperCase);
      assert head + [digit] + Reversed(buffer) == head + ([digit] + Reversed(buffer));
    } else {
      DivSmall(value, base);
    }
  }

  method TurnAround(buffer: string) returns (text: string)
    ensures text == Reversed(buffer)
  {
    text := buffer;
    var used := |buffer|;
    for i := 0 to used / 2
      invariant |text| == used
      invariant forall k :: 0 <= k < i ==> text[k] == buffer[used - 1 - k] && text[used - 1 - k] == buffer[k]
      invariant forall k :: i <= k < used - i ==> text[k] == buffer[k]
    {
      text := text[i := text[used - i - 1]][used - i - 1 := text[i]];
    }
  }

  // ---------------------------------------------------------------- reading

  predicate IsTrimmed(c: char) {
    c == ' ' || 9 <= c as int <= 13
  }

  /** Without white space on either side. */
  function Trim(s: string): (t: string)
    ensures |t| <= |s|
  {
    if s != [] && IsTrimmed(s[0]) then Trim(s[1..])
    else if s != [] && IsTrimmed(s[|s| - 1]) then Trim(s[..|s| - 1])
    else s
  }

  function TrimIf(s: string, trim: bool): string {
    if trim then Trim(s) else s
  }

  /** An unsigned numeral of at most `max`. */
  function ToUint(s: string, max: nat): Option<nat> {
    if s != [] && IsNumeral(s, 10) && NumeralValue(s, 10) <= max then Some(NumeralValue(s, 10)) else None
  }

  /** A numeral with an optional sign, in the range of the type. */
  function ToInt(s: string, min: int, max: int): Option<int> {
    if s == [] then None
    else
      var signed := s[0] == '-' || s[0] == '+';
      var digits := if signed then s[1..] else s;
      if digits == [] || !IsNumeral(digits, 10) then None
      else
        var value: int := if s[0] == '-' then -(NumeralValue(digits, 10) as int) else NumeralValue(digits, 10);
        if min <= value <= max then Some(value) else None
  }

  lemma MulGrows(v: nat, base: nat)
    requires base >= 1
    ensures v * base >= v
  {
  }

  lemma {:induction false} NumeralMonotone(s: string, base: nat, n: nat)
    requires IsNumeral(s, base) && n <= |s| && base >= 1
    ensures IsNumeral(s[..n], base) && NumeralValue(s[..n], base) <= NumeralValue(s, base)
  {
    if n < |s| {
      var t := s[..|s| - 1];
      NumeralMonotone(t, base, n);
      MulGrows(NumeralValue(t, base), base);
      assert t[..n] == s[..n];
    } else {
      assert s[..n] == s;
    }
  }

  lemma NumeralStep(s: string, base: nat, i: nat)
    requires i < |s| && IsNumeral(s[..i], base) && HexDigit(s[i]).Some? && HexDigit(s[i]).value < base
    ensures IsNumeral(s[..i + 1], base)
    ensures NumeralValue(s[..i + 1], base) == NumeralValue(s[..i], base) * base + HexDigit(s[i]).value
  {
    assert s[..i + 1][..i] == s[..i];
  }

  /** convert_to_uint: stops at the first overflow of the multiplication or of the addition. */
  method ConvertToUint(str: string, trim: bool, max: nat) returns (r: Option<nat>)
    ensures r == ToUint(TrimIf(str, trim), max)
  {
    var s := TrimIf(str, trim);
    if s == [] {
      return None;
    }
    var value := 0;
    for i := 0 to |s|
      invariant IsNumeral(s[..i], 10) && value == NumeralValue(s[..i], 10) <= max
    {
      DigitIs(s[i]);
      if !IsDigit(s[i]) {
        return None;
      }
      NumeralStep(s, 10, i);
      if IsNumeral(s, 10) { NumeralMonotone(s, 10, i + 1); }
      if value * 10 > max {
        return None;
      }
      if value * 10 + DigitOf(s[i]) > max {
        return None;
      }
      value := value * 10 + DigitOf(s[i]);
    }
    assert s[..|s|] == s;
    r := Some(value);
  }

  /** convert_to_int: the sign goes into every digit, so that the least value can be reached. */
  method ConvertToInt(str: string, trim: bool, min: int, max: int) returns (r: Option<int>)
    requires min <= 0 <= max
    ensures r == ToInt(TrimIf(str, trim), min, max)
  {
    var s := TrimIf(str, trim);
    if s == [] {
      return None;
    }
    var sign := 1;
    var start := 0;
    if s[0] == '-' || s[0] == '+' {
      if |s| == 1 {
        return None;
      }
      start := 1;
      if s[0] == '-' {
        sign := -1;
      }
    }
    ghost var digits := s[start..];
    var value := 0;
    for i := start to |s|
      invariant IsNumeral(digits[..i - start], 10) && value == sign * NumeralValue(digits[..i - start], 10)
      invariant min <= value <= max
    {
      DigitIs(s[i]);
      if !IsDigit(s[i]) {
        assert digits[i - start] == s[i];
        return None;
      }
      assert digits[i - start] == s[i];
      NumeralStep(digits, 10, i - start);
      if IsNumeral(digits, 10) { NumeralMonotone(digits, 10, i - start + 1); }
      if !(min <= value * 10 <= max) {
        return None;
      }
      if !(min <= value * 10 + sign * DigitOf(s[i]) <= max) {
        return None;
      }
      value := value * 10 + sign * DigitOf(s[i]);
    }
    assert digits[..|digits|] == digits;
    assert start == 0 ==> digits == s;
    r := Some(value);
  }

  // ---------------------------------------------------------------- reading hexadecimal

  /** A hexadecimal numeral of at most `max`. */
  function ToUintFromHex(s: string, max: nat): Option<nat> {
    if s != [] && IsNumeral(s, 16) && NumeralValue(s, 16) <= max then Some(NumeralValue(s, 16)) else None
  }

  /** convert_to_uint_from_hex, for an unsigned type with this maximum: before each digit it looks if there is room for
      one more. */
  method ConvertToUintFromHex(str: string, trim: bool, max: nat) returns (r: Option<nat>)
    requires max % 16 == 15
    ensures r == ToUintFromHex(TrimIf(str, trim), max)
  {
    var s := TrimIf(str, trim);
    if s == [] {
      return None;
    }
    var value := 0;
    for i := 0 to |s|
      invariant IsNumeral(s[..i], 16) && value == NumeralValue(s[..i], 16) <= max
    {
      if IsNumeral(s, 16) {
        NumeralStep(s, 16, i);
        NumeralMonotone(s, 16, i + 1);
      }
      if value > max / 16 {
        return None;
      }
      var digit := HexDigit(s[i]);
      if digit.None? {
        return None;
      }
      NumeralStep(s, 16, i);
      value := value * 16 + digit.value;
    }
    assert s[..|s|] == s;
    r := Some(value);
  }
}
