/** What the parser (base/JsonParser.cpp) makes of a text, as functions from what is left of the text to what is left
    after. Every text is covered: a failure anywhere is a failure of the whole. */
module JsonGrammar {
  import opened Limits
  import opened Optional
  import opened Numerals
  import opened JsonText

  datatype Parsed<T> = Failed | Got(value: T, rest: string)

  predicate IsSpace(c: char) {
    c == '\t' || c == '\n' || c == '\r' || c == ' '
  }

  function SkipSpaces(s: string): (r: string)
    ensures |r| <= |s|
  {
    if s != [] && IsSpace(s[0]) then SkipSpaces(s[1..]) else s
  }

  /** The next character, or the null character at the end. */
  function Peek(s: string): char {
    if s == [] then 0 as char else s[0]
  }

  // ---------------------------------------------------------------- strings

  /** append_code_point: UTF-8. */
  function Utf8(codePoint: nat): string {
    if codePoint <= 0x7f then [codePoint as char]
    else if codePoint <= 0x7ff then [(0xc0 + codePoint / 0x40 % 0x20) as char, (0x80 + codePoint % 0x40) as char]
    else if codePoint <= 0xffff then
      [(0xe0 + codePoint / 0x1000 % 0x10) as char, (0x80 + codePoint / 0x40 % 0x40) as char,
        (0x80 + codePoint % 0x40) as char]
    else if codePoint <= 0x10ffff then
      [(0xf0 + codePoint / 0x40000 % 0x08) as char, (0x80 + codePoint / 0x1000 % 0x40) as char,
       (0x80 + codePoint / 0x40 % 0x40) as char, (0x80 + codePoint % 0x40) as char]
    else [0xef as char, 0xbf as char, 0xbd as char]
  }

  /** What follows a backslash. */
  function Escaped(s: string): (r: Parsed<string>)
    ensures r.Got? ==> |r.rest| < |s|
  {
    var c := Peek(s);
    if c == '\"' || c == '\\' || c == '/' then Got([c], s[1..])
    else if c == 'n' then Got("\n", s[1..])
    else if c == 'r' then Got("\r", s[1..])
    else if c == 't' then Got("\t", s[1..])
    else if c == 'b' then Got([8 as char], s[1..])
    else if c == 'f' then Got([12 as char], s[1..])
    else if c == 'u' then
      if |s| < 5 then Failed
      else
        var codePoint := ToUintFromHex(Trim(s[1..5]), U32_MAX);
        if codePoint.None? then Failed else Got(Utf8(codePoint.value), s[5..])
    else Failed
  }

  function Before(prefix: string, r: Parsed<string>): Parsed<string> {
    if r.Failed? then Failed else Got(prefix + r.value, r.rest)
  }

  predicate IsControl(c: char) {
    c as int < 0x20
  }

  /** A string from behind its opening quote. */
  function Unescape(s: string): (r: Parsed<string>)
    ensures r.Got? ==> |r.rest| < |s|
    decreases |s|
  {
    if s == [] then Failed
    else if s[0] == '\"' then Got([], s[1..])
    else if s[0] == '\\' then
      var e := Escaped(s[1..]);
      if e.Failed? then Failed else Before(e.value, Unescape(e.rest))
    else if IsControl(s[0]) then Failed
    else Before([s[0]], Unescape(s[1..]))
  }

  function ReadString(s: string): (r: Parsed<string>)
    ensures r.Got? ==> |r.rest| < |s|
  {
    if Peek(s) == '\"' then Unescape(s[1..]) else Failed
  }

  // ---------------------------------------------------------------- numbers

  datatype Digits = Digits(number: string, fraction: string, isDouble: bool)

  predicate InNumber(c: char) {
    c == '-' || IsDigit(c) || c == '.'
  }

  /** The loop of parse_number; a digit after a leading zero is refused. */
  function ScanNumber(s: string, d: Digits): (r: Parsed<Digits>)
    ensures r.Got? ==> |r.rest| <= |s|
    ensures r.Got? && InNumber(Peek(s)) ==> |r.rest| < |s|
    decreases |s|
  {
    var c := Peek(s);
    if !InNumber(c) then Got(d, s)
    else if c == '.' then
      if d.isDouble then Failed else ScanNumber(s[1..], d.(isDouble := true))
    else if d.isDouble then
      if c == '-' then Failed else ScanNumber(s[1..], d.(fraction := d.fraction + [c]))
    else if LeadingZero(d.number) then Failed
    else ScanNumber(s[1..], d.(number := d.number + [c]))
  }

  predicate LeadingZero(number: string) {
    (|number| > 0 && number[0] == '0') || (|number| > 1 && number[0] == '-' && number[1] == '0')
  }

  /** The cast of a 64-bit integer to 32 bits. */
  function Wrap32(n: int): int {
    (n - I32_MIN) % 0x1_0000_0000 + I32_MIN
  }

  function NumberOf(d: Digits): Option<Json> {
    if d.isDouble then
      var unsigned := ToUint(Trim(d.number), U32_MAX);
      var signed := ToInt(Trim(d.number), I32_MIN, I32_MAX);
      if unsigned.None? && signed.None? then None
      else if ToUint(Trim(d.fraction), U32_MAX).None? then None
      else Some(Double(if unsigned.Some? then Wrap32(unsigned.value) else signed.value, d.fraction))
    else
      var unsigned := ToUint(Trim(d.number), U64_MAX);
      if unsigned.Some? then
        Some(if unsigned.value <= U32_MAX then UnsignedInt32(unsigned.value) else UnsignedInt64(unsigned.value))
      else
        var signed := ToInt(Trim(d.number), I64_MIN, I64_MAX);
        if signed.None? then None
        else Some(if signed.value <= I32_MAX then Int32(Wrap32(signed.value)) else Int64(signed.value))
  }

  function ReadNumber(s: string): (r: Parsed<Json>)
    requires InNumber(Peek(s))
    ensures r.Got? ==> |r.rest| < |s|
  {
    var d := ScanNumber(s, Digits([], [], false));
    if d.Failed? then Failed
    else
      var v := NumberOf(d.value);
      if v.None? then Failed else Got(v.value, d.rest)
  }

  // ---------------------------------------------------------------- values

  function ReadWord(s: string, word: string, v: Json): (r: Parsed<Json>)
    requires |word| > 0
    ensures r.Got? ==> |r.rest| < |s|
  {
    if word <= s then Got(v, s[|word|..]) else Failed
  }

  /** parse_helper */
  function ReadValue(s: string): (r: Parsed<Json>)
    ensures r.Got? ==> |r.rest| < |s|
    decreases |s|, 0
  {
    var t := SkipSpaces(s);
    var c := Peek(t);
    if c == '{' then
      var m := ReadMembers(t[1..], []);
      if m.Failed? then Failed else Got(Object(m.value), m.rest)
    else if c == '[' then
      var e := ReadElements(t[1..]);
      if e.Failed? then Failed else Got(Array(e.value), e.rest)
    else if c == '\"' then
      var text := ReadString(t);
      if text.Failed? then Failed else Got(String(text.value), text.rest)
    else if c == '-' || IsDigit(c) then ReadNumber(t)
    else if c == 'f' then ReadWord(t, "false", Bool(false))
    else if c == 't' then ReadWord(t, "true", Bool(true))
    else if c == 'n' then ReadWord(t, "null", Null)
    else Failed
  }

  /** An array from behind its opening bracket, or from behind a comma in it. */
  function ReadElements(s: string): (r: Parsed<seq<Json>>)
    ensures r.Got? ==> |r.rest| < |s|
    decreases |s|, 1
  {
    var t := SkipSpaces(s);
    if Peek(t) == ']' then Got([], t[1..])
    else
      var v := ReadValue(t);
      if v.Failed? then Failed
      else
        var u := SkipSpaces(v.rest);
        if Peek(u) == ']' then Got([v.value], u[1..])
        else if Peek(u) != ',' then Failed
        else
          var w := SkipSpaces(u[1..]);
          if Peek(w) == ']' then Failed
          else
            var more := ReadElements(w);
            if more.Failed? then Failed else Got([v.value] + more.value, more.rest)
  }

  /** JsonObject::set: a new key goes behind the others, an old one keeps its place. */
  function SetMember(members: seq<Member>, key: string, value: Json): seq<Member> {
    if members == [] then [Member(key, value)]
    else if members[0].key == key then [Member(key, value)] + members[1..]
    else [members[0]] + SetMember(members[1..], key, value)
  }

  /** An object from behind its opening brace, or from behind a comma in it, with the members read so far. */
  function ReadMembers(s: string, members: seq<Member>): (r: Parsed<seq<Member>>)
    ensures r.Got? ==> |r.rest| < |s|
    decreases |s|, 1
  {
    var t := SkipSpaces(s);
    if Peek(t) == '}' then Got(members, t[1..])
    else
      var key := ReadString(t);
      if key.Failed? then Failed
      else
        var t1 := SkipSpaces(key.rest);
        if Peek(t1) != ':' then Failed
        else
          var v := ReadValue(SkipSpaces(t1[1..]));
          if v.Failed? then Failed
          else
            AfterMember(v.rest, SetMember(members, key.value, v.value))
  }

  function AfterMember(s: string, members: seq<Member>): (r: Parsed<seq<Member>>)
    ensures r.Got? ==> |r.rest| < |s|
    decreases |s|, 1
  {
    var t := SkipSpaces(s);
    if Peek(t) == '}' then Got(members, t[1..])
    else if Peek(t) != ',' then Failed
    else
      var u := SkipSpaces(t[1..]);
      if Peek(u) == '}' then Failed else ReadMembers(u, members)
  }

  /** The whole text. */
  function ParseText(s: string): Option<Json> {
    var v := ReadValue(s);
    if v.Failed? || SkipSpaces(v.rest) != [] then None else Some(v.value)
  }
}
