/** Writing a value and parsing the text gives the value back, and exactly when. */
module JsonRoundTrip {
  import opened Limits
  import opened Optional
  import opened Numerals
  import opened JsonText
  import opened JsonGrammar

  // ---------------------------------------------------------------- what comes back

  /** The writer escapes these control characters; the parser refuses any other. */
  predicate CleanText(text: string) {
    forall i :: 0 <= i < |text| ==> CleanChar(text[i])
  }

  predicate CleanChar(c: char) {
    IsControl(c) ==> c == BACKSPACE || c == '\t' || c == '\n' || c == ESCAPE
  }

  predicate Clean(v: Json) {
    match v
    case String(text) => CleanText(text)
    case Array(items) => AllClean(items)
    case Object(members) => AllMembersClean(members)
    case _ => true
  }

  predicate AllClean(items: seq<Json>) {
    forall i :: 0 <= i < |items| ==> Clean(items[i])
  }

  predicate AllMembersClean(members: seq<Member>) {
    forall i :: 0 <= i < |members| ==> CleanText(members[i].key) && Clean(members[i].value)
  }

  /** The type the parser gives to an integer; a negative one is cut to 32 bits. */
  function ReadInt(n: int): Json {
    if n < 0 then Int32(Wrap32(n)) else if n <= U32_MAX then UnsignedInt32(n) else UnsignedInt64(n)
  }

  function Reread(v: Json): Json {
    match v
    case Int32(n) => ReadInt(n)
    case UnsignedInt32(n) => ReadInt(n)
    case Int64(n) => ReadInt(n)
    case UnsignedInt64(n) => ReadInt(n)
    case Array(items) => Array(seq(|items|, i requires 0 <= i < |items| => Reread(items[i])))
    case Object(members) =>
      Object(seq(|members|, i requires 0 <= i < |members| => Member(members[i].key, Reread(members[i].value))))
    case _ => v
  }

  // ---------------------------------------------------------------- strings

  lemma HexOfEscape(rest: string)
    ensures Escaped("u001B" + rest) == Got([ESCAPE], rest)
  {
    var s := "u001B" + rest;
    assert s[1..5] == "001B";
    assert s[5..] == rest;
    assert Trim("001B") == "001B";
    assert "001B"[..3] == "001" && "001"[..2] == "00" && "00"[..1] == "0" && "0"[..0] == "";
    assert NumeralValue("0", 16) == 0;
    assert NumeralValue("00", 16) == 0;
    assert NumeralValue("001", 16) == 1;
    assert NumeralValue("001B", 16) == 27;
  }

  lemma EscapeBack(c: char, rest: string)
    ensures CleanChar(c) ==> Unescape(Escape(c) + rest) == Before([c], Unescape(rest))
    ensures !CleanChar(c) ==> Unescape(Escape(c) + rest) == Failed
  {
    var s := Escape(c) + rest;
    if c == ESCAPE {
      HexOfEscape(rest);
      assert s[1..] == "u001B" + rest;
    } else if |Escape(c)| == 2 {
      assert s[1..] == [Escape(c)[1]] + rest;
      assert s[1..][1..] == rest;
    } else {
      assert s[1..] == rest;
    }
  }

  lemma {:induction false} TextBack(text: string, rest: string)
    ensures Unescape(EscapeTo(text, "\"" + rest)) == if CleanText(text) then Got(text, rest) else Failed
  {
    if text == [] {
      assert ("\"" + rest)[1..] == rest;
    } else {
      TextBack(text[1..], rest);
      EscapeBack(text[0], EscapeTo(text[1..], "\"" + rest));
      assert text == [text[0]] + text[1..];
      assert CleanText(text) <==> CleanChar(text[0]) && CleanText(text[1..]);
    }
  }

  // ---------------------------------------------------------------- numbers

  /** Digits up to something that is not part of a number are read to the end. */
  lemma {:induction false} ScanDigits(done: string, digits: string, rest: string)
    requires AllDigits(digits) && !InNumber(Peek(rest))
    requires digits != [] ==> !LeadingZero(done)
    requires |digits| > 1 ==> !LeadingZero(done + digits[..1])
    ensures ScanNumber(digits + rest, Digits(done, [], false)) == Got(Digits(done + digits, [], false), rest)
    decreases |digits|
  {
    if digits == [] {
      assert digits + rest == rest && done + digits == done;
    } else {
      assert (digits + rest)[1..] == digits[1..] + rest;
      assert done + [digits[0]] == done + digits[..1];
      assert done + digits[..1] + digits[1..] == done + digits;
      ScanDigits(done + [digits[0]], digits[1..], rest);
    }
  }

  lemma DigitsOf(digits: string, n: nat)
    requires n <= U64_MAX && digits != [] && AllDigits(digits) && IsNumeral(digits, 10) && NumeralValue(digits, 10) == n
    ensures NumberOf(Digits(digits, [], false)) == Some(ReadInt(n))
  {
    assert Trim(digits) == digits;
  }

  lemma NaturalOf(n: nat)
    requires n <= U64_MAX
    ensures NumberOf(Digits(Decimal(n), [], false)) == Some(ReadInt(n))
  {
    DecimalIs(n);
    DigitsOf(Decimal(n), n);
  }

  lemma NegativeOf(n: int)
    requires I64_MIN <= n < 0
    ensures NumberOf(Digits("-" + Decimal(-n), [], false)) == Some(ReadInt(n))
  {
    DecimalIs(-n);
    var number := "-" + Decimal(-n);
    assert !IsDigit(number[0]) && IsDigit(number[|number| - 1]);
    assert number[1..] == Decimal(-n);
    assert Trim(number) == number;
  }

  lemma NaturalScan(n: nat, rest: string)
    requires !InNumber(Peek(rest))
    ensures IsDigit(Peek(Decimal(n) + rest))
    ensures ScanNumber(Decimal(n) + rest, Digits([], [], false)) == Got(Digits(Decimal(n), [], false), rest)
  {
    DecimalIs(n);
    var digits := Decimal(n);
    assert IsDigit(digits[0]);
    ScanDigits([], digits, rest);
    assert [] + digits == digits;
  }

  lemma NaturalBack(n: nat, rest: string)
    requires n <= U64_MAX && !InNumber(Peek(rest))
    ensures IsDigit(Peek(Decimal(n) + rest)) && ReadNumber(Decimal(n) + rest) == Got(ReadInt(n), rest)
  {
    NaturalOf(n);
    NaturalScan(n, rest);
  }

  lemma NegativeScan(digits: string, rest: string)
    requires AllDigits(digits) && digits != [] && digits[0] != '0' && !InNumber(Peek(rest))
    ensures ScanNumber("-" + digits + rest, Digits([], [], false)) == Got(Digits("-" + digits, [], false), rest)
  {
    var s := "-" + digits + rest;
    assert s[1..] == digits + rest;
    assert [] + [s[0]] == "-";
    ScanDigits("-", digits, rest);
  }

  lemma NegativeBack(n: int, rest: string)
    requires I64_MIN <= n < 0 && !InNumber(Peek(rest))
    ensures ReadNumber("-" + Decimal(-n) + rest) == Got(ReadInt(n), rest)
  {
    NegativeOf(n);
    DecimalIs(-n);
    NegativeScan(Decimal(-n), rest);
  }

  lemma NumberBack(n: int, rest: string)
    requires I64_MIN <= n <= U64_MAX && !InNumber(Peek(rest))
    ensures ReadValue(Signed(n) + rest) == Got(ReadInt(n), rest)
    ensures InNumber(Peek(Signed(n) + rest))
  {
    if n < 0 { NegativeBack(n, rest); } else { NaturalBack(n, rest); }
  }

  // ---------------------------------------------------------------- values

  lemma WordBack(word: string, v: Json, rest: string)
    requires (word == "null" && v == Null) || (word == "true" && v == Bool(true))
      || (word == "false" && v == Bool(false))
    ensures ReadValue(word + rest) == Got(v, rest)
  {
    var s := word + rest;
    assert s[..|word|] == word && s[|word|..] == rest;
  }

  function RereadAll(items: seq<Json>): seq<Json> {
    seq(|items|, i requires 0 <= i < |items| => Reread(items[i]))
  }

  function RereadMembers(members: seq<Member>): seq<Member> {
    seq(|members|, i requires 0 <= i < |members| => Member(members[i].key, Reread(members[i].value)))
  }

  predicate CleanMember(m: Member) {
    CleanText(m.key) && Clean(m.value)
  }

  lemma AllCleanCons(items: seq<Json>)
    requires items != []
    ensures AllClean(items) <==> Clean(items[0]) && AllClean(items[1..])
    ensures RereadAll(items) == [Reread(items[0])] + RereadAll(items[1..])
  {
    assert items == [items[0]] + items[1..];
  }

  lemma AllMembersCons(members: seq<Member>, done: seq<Member>)
    requires members != []
    ensures AllMembersClean(members) <==> CleanMember(members[0]) && AllMembersClean(members[1..])
    ensures var done' := done + [Member(members[0].key, Reread(members[0].value))];
      done + RereadMembers(members) == done' + RereadMembers(members[1..])
  {
    assert members == [members[0]] + members[1..];
  }

  /** A written value starts with none of the characters that end a list or separate its items, nor with a space. */
  lemma StartsValue(v: Json, rest: string)
    requires Plain(v)
    ensures var s := WriteTo(v, rest); s != [] && !IsSpace(s[0]) && s[0] != ']' && s[0] != '}'
  {
    match v
    case Int32(n) => DecimalIs(if n < 0 then -n else n);
    case UnsignedInt32(n) => DecimalIs(n);
    case Int64(n) => DecimalIs(if n < 0 then -n else n);
    case UnsignedInt64(n) => DecimalIs(n);
    case _ =>
  }

  lemma {:induction false} ValueBack(v: Json, rest: string)
    requires Plain(v) && !InNumber(Peek(rest))
    ensures ReadValue(WriteTo(v, rest)) == if Clean(v) then Got(Reread(v), rest) else Failed
    decreases v
  {
    var s := WriteTo(v, rest);
    match v
    case Null => WordBack("null", v, rest);
    case Bool(flag) => WordBack(if flag then "true" else "false", v, rest);
    case Int32(n) => NumberBack(n, rest);
    case UnsignedInt32(n) => NumberBack(n, rest);
    case Int64(n) => NumberBack(n, rest);
    case UnsignedInt64(n) => NumberBack(n, rest);
    case String(text) =>
      assert s[1..] == EscapeTo(text, "\"" + rest);
      TextBack(text, rest);
    case Array(items) =>
      assert s[1..] == ItemsTo(items, "]" + rest);
      ItemsBack(items, rest);
    case Object(members) =>
      assert s[1..] == MembersTo(members, "}" + rest);
      MembersBack(members, [], rest);
      assert [] + RereadMembers(members) == RereadMembers(members);
  }

  function Then(item: Json, more: Parsed<seq<Json>>): Parsed<seq<Json>> {
    if more.Failed? then Failed else Got([item] + more.value, more.rest)
  }

  /** How an item and what follows it are read. */
  lemma ElementsStep(s: string, after: string, v: Parsed<Json>)
    requires ReadValue(s) == v && (v.Got? ==> v.rest == after)
    requires s != [] && !IsSpace(s[0]) && s[0] != ']'
    requires after != [] && (after[0] == ',' ==> |after| > 1 && !IsSpace(after[1]) && after[1] != ']')
    ensures v.Failed? ==> ReadElements(s) == Failed
    ensures v.Got? && after[0] == ']' ==> ReadElements(s) == Got([v.value], after[1..])
    ensures v.Got? && after[0] == ',' ==> ReadElements(s) == Then(v.value, ReadElements(after[1..]))
  {
    assert SkipSpaces(s) == s;
    if after[0] == ',' { assert after[1..][0] == after[1]; }
  }

  lemma {:induction false} ItemsBack(items: seq<Json>, rest: string)
    requires forall i :: 0 <= i < |items| ==> Plain(items[i])
    ensures ReadElements(ItemsTo(items, "]" + rest)) ==
      if AllClean(items) then Got(RereadAll(items), rest) else Failed
    decreases items
  {
    var s := ItemsTo(items, "]" + rest);
    if items == [] {
      assert s[1..] == rest && RereadAll(items) == [];
    } else {
      var more := items[1..];
      var after := if |items| == 1 then "]" + rest else "," + ItemsTo(more, "]" + rest);
      ValueBack(items[0], after);
      StartsValue(items[0], after);
      AllCleanCons(items);
      if |items| == 1 {
        assert after[1..] == rest && RereadAll(items) == [Reread(items[0])];
        ElementsStep(s, after, ReadValue(s));
      } else {
        assert after[1..] == ItemsTo(more, "]" + rest);
        StartsValue(more[0], if |more| == 1 then "]" + rest else "," + ItemsTo(more[1..], "]" + rest));
        ElementsStep(s, after, ReadValue(s));
        ItemsBack(more, rest);
      }
    }
  }

  lemma {:induction false} SetNew(members: seq<Member>, key: string, value: Json)
    requires forall i :: 0 <= i < |members| ==> members[i].key != key
    ensures SetMember(members, key, value) == members + [Member(key, value)]
  {
    if members != [] { SetNew(members[1..], key, value); }
  }

  lemma KeyBack(m: Member, after: string)
    requires Plain(m.value)
    ensures var text := MemberTo(m, after);
      && text != [] && text[0] == '\"'
      && ReadString(text) == if CleanText(m.key) then Got(m.key, ":" + WriteTo(m.value, after)) else Failed
  {
    var text := MemberTo(m, after);
    var s := WriteTo(m.value, after);
    assert "\":" + s == "\"" + (":" + s);
    assert text[1..] == EscapeTo(m.key, "\"" + (":" + s));
    TextBack(m.key, ":" + s);
  }

  lemma AfterMemberIs(after: string, members: seq<Member>)
    requires after != [] && (after[0] == ',' ==> |after| > 1 && after[1] == '\"')
    ensures after[0] == '}' ==> AfterMember(after, members) == Got(members, after[1..])
    ensures after[0] == ',' ==> AfterMember(after, members) == ReadMembers(after[1..], members)
  {
    if after[0] == ',' { assert after[1..][0] == after[1]; }
  }

  /** How a member and what follows it are read. */
  lemma MembersStep(text: string, key: string, s: string, members: seq<Member>)
    requires text != [] && text[0] == '\"' && ReadString(text) == Got(key, ":" + s)
    requires s != [] && !IsSpace(s[0])
    ensures ReadMembers(text, members) == FromValue(ReadValue(s), key, members)
  {
    assert SkipSpaces(text) == text;
    assert (":" + s)[1..] == s && SkipSpaces(s) == s;
  }

  /** How a member is read, up to what follows it. */
  lemma MemberRead(m: Member, after: string, done: seq<Member>)
    requires Plain(m.value)
    ensures ReadMembers(MemberTo(m, after), done) ==
      if !CleanText(m.key) then Failed else FromValue(ReadValue(WriteTo(m.value, after)), m.key, done)
  {
    var text := MemberTo(m, after);
    KeyBack(m, after);
    assert SkipSpaces(text) == text;
    if CleanText(m.key) {
      StartsValue(m.value, after);
      MembersStep(text, m.key, WriteTo(m.value, after), done);
    }
  }

  function FromValue(v: Parsed<Json>, key: string, done: seq<Member>): Parsed<seq<Member>> {
    if v.Failed? then Failed else AfterMember(v.rest, SetMember(done, key, v.value))
  }

  /** A member that is read back, or refused, whatever follows it. */
  lemma MemberHead(m: Member, after: string, done: seq<Member>)
    requires Plain(m.value)
    requires ReadValue(WriteTo(m.value, after)) == if Clean(m.value) then Got(Reread(m.value), after) else Failed
    requires after != [] && (after[0] == ',' ==> |after| > 1 && after[1] == '\"')
    requires forall i :: 0 <= i < |done| ==> done[i].key != m.key
    ensures var text := MemberTo(m, after);
      var done' := done + [Member(m.key, Reread(m.value))];
      && (!CleanMember(m) ==> ReadMembers(text, done) == Failed)
      && (CleanMember(m) && after[0] == '}' ==> ReadMembers(text, done) == Got(done', after[1..]))
      && (CleanMember(m) && after[0] == ',' ==> ReadMembers(text, done) == ReadMembers(after[1..], done'))
  {
    MemberRead(m, after, done);
    SetNew(done, m.key, Reread(m.value));
    AfterMemberIs(after, SetMember(done, m.key, Reread(m.value)));
  }

  lemma StartsMembers(members: seq<Member>, rest: string)
    requires members != [] && forall i :: 0 <= i < |members| ==> Plain(members[i].value)
    ensures MembersTo(members, rest) != [] && MembersTo(members, rest)[0] == '\"'
  {
  }

  lemma {:induction false} MembersBack(members: seq<Member>, done: seq<Member>, rest: string)
    requires forall i :: 0 <= i < |members| ==> Plain(members[i].value)
    requires DistinctKeys(members)
    requires forall i, j :: 0 <= i < |done| && 0 <= j < |members| ==> done[i].key != members[j].key
    ensures ReadMembers(MembersTo(members, "}" + rest), done) ==
      if AllMembersClean(members) then Got(done + RereadMembers(members), rest) else Failed
    decreases members
  {
    var text := MembersTo(members, "}" + rest);
    if members == [] {
      assert text[1..] == rest && done + RereadMembers(members) == done;
    } else {
      var more, m := members[1..], members[0];
      var after := if |members| == 1 then "}" + rest else "," + MembersTo(more, "}" + rest);
      ValueBack(m.value, after);
      if |members| > 1 { StartsMembers(more, "}" + rest); }
      MemberHead(m, after, done);
      AllMembersCons(members, done);
      var done' := done + [Member(m.key, Reread(m.value))];
      if |members| == 1 {
        assert after[1..] == rest && done' + RereadMembers(more) == done';
      } else {
        assert after[1..] == MembersTo(more, "}" + rest);
        MembersBack(more, done', rest);
      }
    }
  }

  // ---------------------------------------------------------------- the round trip

  /** Parsing what was written: every clean value comes back as Reread says, any other text is refused. */
  lemma WriteThenParse(v: Json)
    requires Plain(v)
    ensures ParseText(Write(v)) == if Clean(v) then Some(Reread(v)) else None
  {
    ValueBack(v, "");
  }

  predicate IsInteger(v: Json) {
    v.Int32? || v.UnsignedInt32? || v.Int64? || v.UnsignedInt64?
  }

  /** Equal but for the type that holds an integer. */
  predicate SameValue(v: Json, w: Json) {
    match v
    case Array(items) =>
      w.Array? && |items| == |w.items| && forall i :: 0 <= i < |items| ==> SameValue(items[i], w.items[i])
    case Object(members) =>
      w.Object? && |members| == |w.members| &&
      forall i :: 0 <= i < |members| ==>
        members[i].key == w.members[i].key && SameValue(members[i].value, w.members[i].value)
    case _ => if IsInteger(v) then IsInteger(w) && v.n == w.n else v == w
  }

  /** No integer below the least 32-bit one. */
  predicate Fits(v: Json) {
    match v
    case Int64(n) => n >= I32_MIN
    case Array(items) => forall i :: 0 <= i < |items| ==> Fits(items[i])
    case Object(members) => forall i :: 0 <= i < |members| ==> Fits(members[i].value)
    case _ => true
  }

  lemma {:induction false} RereadSame(v: Json)
    requires Plain(v)
    ensures SameValue(v, Reread(v)) <==> Fits(v)
  {
    match v
    case Array(items) =>
      forall i | 0 <= i < |items|
        ensures SameValue(items[i], Reread(items[i])) <==> Fits(items[i]) { RereadSame(items[i]); }
    case Object(members) =>
      forall i | 0 <= i < |members|
        ensures SameValue(members[i].value, Reread(members[i].value)) <==> Fits(members[i].value) {
        RereadSame(members[i].value);
      }
    case _ =>
  }

  /** The round trip gives the value back exactly when no string or key holds a control character the writer leaves as
      it is and no integer is below the least 32-bit one. */
  lemma RoundTrip(v: Json)
    requires Plain(v)
    ensures (ParseText(Write(v)).Some? && SameValue(v, ParseText(Write(v)).value)) <==> Clean(v) && Fits(v)
  {
    WriteThenParse(v);
    RereadSame(v);
  }

  /** A carriage return, which the writer does not escape, and the integer just below the least 32-bit one. */
  lemma LostValues()
    ensures ParseText(Write(String("\r"))) == None
    ensures ParseText(Write(Int64(I32_MIN - 1))) == Some(Int32(I32_MAX))
  {
    assert ParseText(Write(String("\r"))) == None by {
      assert !CleanChar("\r"[0]);
      WriteThenParse(String("\r"));
    }
    WriteThenParse(Int64(I32_MIN - 1));
  }
}
