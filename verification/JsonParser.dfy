/** The parser as the source runs it (base/JsonParser.cpp on the cursor of base/GenericLexer.h): a position that moves
    over the input, with loops that fill buffers. Each method reads what the grammar says. */
module JsonParsing {
  import opened Limits
  import opened Optional
  import opened Numerals
  import opened JsonText
  import opened JsonGrammar

  /** A method's result and the text it leaves, against what the grammar reads. */
  ghost predicate Agrees<T>(r: Option<T>, rest: string, parsed: Parsed<T>) {
    match parsed
    case Failed => r.None?
    case Got(value, left) => r == Some(value) && rest == left
  }

  /** Plain characters in front of a string are read as they are. */
  lemma {:induction false} PlainRun(s: string, n: nat)
    requires n <= |s| && forall i :: 0 <= i < n ==> s[i] != '\"' && s[i] != '\\' && !IsControl(s[i])
    ensures Unescape(s) == Before(s[..n], Unescape(s[n..]))
    decreases n
  {
    if n == 0 {
      assert s[0..] == s;
      assert Unescape(s).Got? ==> [] + Unescape(s).value == Unescape(s).value;
    } else {
      PlainRun(s[1..], n - 1);
      assert s[1..][n - 1..] == s[n..];
      assert s[..n] == [s[0]] + s[1..][..n - 1];
      BeforeTwice([s[0]], s[1..][..n - 1], Unescape(s[n..]));
    }
  }

  lemma BeforeTwice(a: string, b: string, r: Parsed<string>)
    ensures Before(a, Before(b, r)) == Before(a + b, r)
  {
    if r.Got? { assert a + (b + r.value) == a + b + r.value; }
  }

  lemma BeforeNothing(r: Parsed<string>)
    ensures Before([], r) == r
  {
    if r.Got? { assert [] + r.value == r.value; }
  }

  datatype Round = Stop | More | Bad

  ghost function Joined(prefix: seq<Json>, r: Parsed<seq<Json>>): Parsed<seq<Json>> {
    if r.Failed? then Failed else Got(prefix + r.value, r.rest)
  }

  lemma JoinedTwice(a: seq<Json>, b: seq<Json>, r: Parsed<seq<Json>>)
    ensures Joined(a, Joined(b, r)) == Joined(a + b, r)
  {
    if r.Got? { assert a + (b + r.value) == a + b + r.value; }
  }

  lemma JoinedNothing(r: Parsed<seq<Json>>)
    ensures Joined([], r) == r
  {
    if r.Got? { assert [] + r.value == r.value; }
  }

  lemma {:induction false} SkipTwice(s: string)
    ensures SkipSpaces(SkipSpaces(s)) == SkipSpaces(s)
    decreases |s|
  {
    if s != [] && IsSpace(s[0]) { SkipTwice(s[1..]); }
  }

  lemma {:induction false} PlainThenControl(s: string, n: nat)
    requires n < |s| && IsControl(s[n])
    requires forall i :: 0 <= i < n ==> s[i] != '\"' && s[i] != '\\' && !IsControl(s[i])
    ensures Unescape(s) == Failed
  {
    PlainRun(s, n);
    assert s[n..][0] == s[n];
  }

  class JsonParser {
    const input: string
    var index: nat

    constructor (text: string)
      ensures input == text && index == 0
    {
      input := text;
      index := 0;
    }

    ghost predicate Valid()
      reads this
    {
      index <= |input|
    }

    /** What is left to read. */
    function Rest(): string
      requires Valid()
      reads this
    {
      input[index..]
    }

    function Next(): char
      requires Valid()
      reads this
      ensures Next() == Peek(Rest())
    {
      if index < |input| then input[index] else 0 as char
    }

    method IgnoreSpaces()
      requires Valid()
      modifies this
      ensures Valid() && Rest() == SkipSpaces(old(Rest())) && index >= old(index)
    {
      while index < |input| && IsSpace(input[index])
        invariant Valid() && index >= old(index) && SkipSpaces(Rest()) == SkipSpaces(old(Rest()))
        decreases |input| - index
      {
        assert input[index..][1..] == input[index + 1..];
        index := index + 1;
      }
    }

    method ConsumeSpecific(c: char) returns (ok: bool)
      requires Valid() && c != 0 as char
      modifies this
      ensures Valid() && ok == (Peek(old(Rest())) == c)
      ensures if ok then index == old(index) + 1 && Rest() == old(Rest())[1..] else index == old(index)
    {
      ok := Next() == c;
      if ok {
        assert input[index..][1..] == input[index + 1..];
        index := index + 1;
      }
    }

    method ConsumeWord(word: string) returns (ok: bool)
      requires Valid()
      modifies this
      ensures Valid() && ok == (word <= old(Rest()))
      ensures if ok then index == old(index) + |word| && Rest() == old(Rest())[|word|..] else index == old(index)
    {
      for i := 0 to |word|
        invariant index == old(index) && index + i <= |input| && word[..i] == Rest()[..i]
      {
        if index + i >= |input| || input[index + i] != word[i] {
          if index + i < |input| { assert Rest()[i] != word[i]; }
          return false;
        }
      }
      assert word <= Rest();
      assert input[index..][|word|..] == input[index + |word|..];
      index := index + |word|;
      ok := true;
    }

    /** The escape behind a backslash. */
    method ConsumeEscape() returns (r: Option<string>)
      requires Valid()
      modifies this
      ensures Valid() && index >= old(index) && Agrees(r, Rest(), Escaped(old(Rest())))
    {
      var c := Next();
      if index < |input| { assert input[index..][1..] == input[index + 1..]; }
      if c == '\"' || c == '\\' || c == '/' {
        index := index + 1;
        r := Some([c]);
      } else if c == 'n' {
        index := index + 1;
        r := Some("\n");
      } else if c == 'r' {
        index := index + 1;
        r := Some("\r");
      } else if c == 't' {
        index := index + 1;
        r := Some("\t");
      } else if c == 'b' {
        index := index + 1;
        r := Some([8 as char]);
      } else if c == 'f' {
        index := index + 1;
        r := Some([12 as char]);
      } else if c == 'u' {
        if |input| - index - 1 < 4 {
          return None;
        }
        assert input[index..][1..5] == input[index + 1..index + 5] && input[index..][5..] == input[index + 5..];
        var codePoint := ConvertToUintFromHex(input[index + 1..index + 5], true, U32_MAX);
        if codePoint.None? {
          return None;
        }
        index := index + 5;
        r := Some(Utf8(codePoint.value));
      } else {
        r := None;
      }
    }

    /** The next position that holds a quote or a backslash, or the end; nothing if a control character comes first. */
    method PeekString() returns (r: Option<nat>)
      requires Valid()
      ensures r.None? ==> Unescape(Rest()) == Failed
      ensures r.Some? ==>
        index <= r.value <= |input| && Unescape(Rest()) == Before(input[index..r.value], Unescape(input[r.value..]))
      ensures r.Some? && r.value < |input| ==> input[r.value] == '\"' || input[r.value] == '\\'
    {
      var peek := index;
      while peek < |input| && input[peek] != '\"' && input[peek] != '\\'
        invariant index <= peek <= |input|
        invariant forall i :: 0 <= i < peek - index ==> Rest()[i] != '\"' && Rest()[i] != '\\' && !IsControl(Rest()[i])
      {
        if IsControl(input[peek]) {
          PlainThenControl(Rest(), peek - index);
          return None;
        }
        peek := peek + 1;
      }
      PlainRun(Rest(), peek - index);
      assert Rest()[..peek - index] == input[index..peek] && Rest()[peek - index..] == input[peek..];
      r := Some(peek);
    }

    /** Copies the plain characters up to there. */
    method ConsumeRun() returns (r: Option<string>)
      requires Valid()
      modifies this
      ensures Valid() && index >= old(index)
      ensures r.None? ==> Unescape(old(Rest())) == Failed
      ensures r.Some? ==> Unescape(old(Rest())) == Before(r.value, Unescape(Rest()))
      ensures r.Some? && index < |input| ==> input[index] == '\"' || input[index] == '\\'
    {
      var peek := PeekString();
      if peek.None? {
        return None;
      }
      var run: string := [];
      while index != peek.value
        invariant old(index) <= index <= peek.value && run == input[old(index)..index]
        decreases peek.value - index
      {
        run := run + [input[index]];
        index := index + 1;
      }
      r := Some(run);
    }

    /** The closing quote, or an escape. */
    method ConsumeStop() returns (piece: Option<string>, closed: bool)
      requires Valid() && index < |input| && (input[index] == '\"' || input[index] == '\\')
      modifies this
      ensures Valid() && index > old(index)
      ensures piece.None? ==> Unescape(old(Rest())) == Failed
      ensures piece.Some? && closed ==> piece.value == [] && Unescape(old(Rest())) == Got([], Rest())
      ensures piece.Some? && !closed ==> Unescape(old(Rest())) == Before(piece.value, Unescape(Rest()))
    {
      assert Rest()[0] == input[index] && Rest()[1..] == input[index + 1..];
      closed := input[index] == '\"';
      index := index + 1;
      if closed {
        return Some([]), true;
      }
      piece := ConsumeEscape();
    }

    /** A run of plain characters and then the closing quote or an escape. */
    method ConsumePiece() returns (piece: Option<string>, closed: bool)
      requires Valid()
      modifies this
      ensures Valid() && index >= old(index)
      ensures piece.None? ==> Unescape(old(Rest())) == Failed
      ensures piece.Some? && closed ==> Unescape(old(Rest())) == Got(piece.value, Rest())
      ensures piece.Some? && !closed ==>
        Unescape(old(Rest())) == Before(piece.value, Unescape(Rest())) && index > old(index)
    {
      var run := ConsumeRun();
      if run.None? || index == |input| {
        return None, false;
      }
      piece, closed := ConsumeStop();
      if piece.Some? {
        if !closed { BeforeTwice(run.value, piece.value, Unescape(Rest())); }
        piece := Some(run.value + piece.value);
      }
    }

    method ConsumeAndUnescapeString() returns (r: Option<string>)
      requires Valid()
      modifies this
      ensures Valid() && index >= old(index) && Agrees(r, Rest(), ReadString(old(Rest())))
      ensures r.Some? ==> index > old(index)
    {
      var quoted := ConsumeSpecific('\"');
      if !quoted {
        return None;
      }
      ghost var whole := Unescape(Rest());
      var text: string := [];
      BeforeNothing(whole);
      while true
        invariant Valid() && index > old(index)
        invariant whole == Before(text, Unescape(Rest()))
        decreases |input| - index
      {
        var piece, closed := ConsumePiece();
        if piece.None? {
          return None;
        }
        if !closed { BeforeTwice(text, piece.value, Unescape(Rest())); }
        text := text + piece.value;
        if closed {
          return Some(text);
        }
      }
    }

    method ParseNumber() returns (r: Option<Json>)
      requires Valid() && InNumber(Peek(Rest()))
      modifies this
      ensures Valid() && index >= old(index) && Agrees(r, Rest(), ReadNumber(old(Rest())))
    {
      var digits := ScanDigits();
      if digits.None? {
        return None;
      }
      var d := digits.value;
      if d.isDouble {
        var unsigned := ConvertToUint(d.number, true, U32_MAX);
        var signed := ConvertToInt(d.number, true, I32_MIN, I32_MAX);
        if unsigned.None? && signed.None? {
          return None;
        }
        var fraction := ConvertToUint(d.fraction, true, U32_MAX);
        if fraction.None? {
          return None;
        }
        r := Some(Double(if unsigned.Some? then Wrap32(unsigned.value) else signed.value, d.fraction));
      } else {
        var unsigned := ConvertToUint(d.number, true, U64_MAX);
        if unsigned.Some? {
          r := Some(if unsigned.value <= U32_MAX then UnsignedInt32(unsigned.value) else UnsignedInt64(unsigned.value));
        } else {
          var signed := ConvertToInt(d.number, true, I64_MIN, I64_MAX);
          if signed.None? {
            return None;
          }
          r := Some(if signed.value <= I32_MAX then Int32(Wrap32(signed.value)) else Int64(signed.value));
        }
      }
    }

    /** The loop of parse_number. */
    method ScanDigits() returns (r: Option<Digits>)
      requires Valid()
      modifies this
      ensures Valid() && index >= old(index) && Agrees(r, Rest(), ScanNumber(old(Rest()), Digits([], [], false)))
    {
      var d := Digits([], [], false);
      ghost var whole := ScanNumber(Rest(), d);
      while true
        invariant Valid() && index >= old(index) && ScanNumber(Rest(), d) == whole
        decreases |input| - index
      {
        var c := Next();
        if !InNumber(c) {
          return Some(d);
        }
        assert Rest()[1..] == input[index + 1..];
        if c == '.' {
          if d.isDouble {
            return None;
          }
          d := d.(isDouble := true);
        } else if d.isDouble {
          if c == '-' {
            return None;
          }
          d := d.(fraction := d.fraction + [c]);
        } else {
          if LeadingZero(d.number) {
            return None;
          }
          d := d.(number := d.number + [c]);
        }
        index := index + 1;
      }
    }

    /** parse_helper */
    method ParseHelper() returns (r: Option<Json>)
      requires Valid()
      modifies this
      ensures Valid() && index >= old(index) && Agrees(r, Rest(), ReadValue(old(Rest())))
      ensures r.Some? ==> index > old(index)
      decreases |input| - index, 1
    {
      IgnoreSpaces();
      var c := Next();
      if c == '{' {
        r := ParseObject();
      } else if c == '[' {
        r := ParseArray();
      } else if c == '\"' {
        var text := ConsumeAndUnescapeString();
        r := if text.None? then None else Some(String(text.value));
      } else if c == '-' || IsDigit(c) {
        r := ParseNumber();
      } else if c == 'f' {
        var ok := ConsumeWord("false");
        r := if ok then Some(Bool(false)) else None;
      } else if c == 't' {
        var ok := ConsumeWord("true");
        r := if ok then Some(Bool(true)) else None;
      } else if c == 'n' {
        var ok := ConsumeWord("null");
        r := if ok then Some(Null) else None;
      } else {
        r := None;
      }
    }

    /** One round of the loop of parse_array. */
    method ArrayRound() returns (item: Option<Json>, round: Round)
      requires Valid()
      modifies this
      ensures Valid() && index >= old(index)
      ensures round.Bad? ==> ReadElements(old(Rest())) == Failed
      ensures round.Stop? ==>
        Peek(Rest()) == ']' && ReadElements(old(Rest())) == Got(if item.Some? then [item.value] else [], Rest()[1..])
      ensures round.More? ==>
        item.Some? && index > old(index) && ReadElements(old(Rest())) == Joined([item.value], ReadElements(Rest()))
      decreases |input| - index, 2
    {
      IgnoreSpaces();
      if Next() == ']' {
        return None, Stop;
      }
      SkipTwice(old(Rest()));
      item := ParseHelper();
      if item.None? {
        return None, Bad;
      }
      IgnoreSpaces();
      if Next() == ']' {
        return item, Stop;
      }
      var comma := ConsumeSpecific(',');
      if !comma {
        return item, Bad;
      }
      IgnoreSpaces();
      round := if Next() == ']' then Bad else More;
    }

    method ParseArray() returns (r: Option<Json>)
      requires Valid() && Peek(Rest()) == '['
      modifies this
      ensures Valid() && index >= old(index)
      ensures var e := ReadElements(old(Rest())[1..]);
        Agrees(r, Rest(), if e.Failed? then Failed else Got(Array(e.value), e.rest))
      ensures r.Some? ==> index > old(index)
      decreases |input| - index, 0
    {
      var bracket := ConsumeSpecific('[');
      ghost var whole := ReadElements(Rest());
      var list: seq<Json> := [];
      JoinedNothing(whole);
      while true
        invariant Valid() && index > old(index) && whole == Joined(list, ReadElements(Rest()))
        decreases |input| - index
      {
        var item, round := ArrayRound();
        if round.Bad? {
          return None;
        }
        if round.Stop? {
          list := list + if item.Some? then [item.value] else [];
          break;
        }
        JoinedTwice(list, [item.value], ReadElements(Rest()));
        list := list + [item.value];
      }
      IgnoreSpaces();
      var closed := ConsumeSpecific(']');
      r := Some(Array(list));
    }

    /** One round of the loop of parse_object. */
    method ObjectRound(members: seq<Member>) returns (members': seq<Member>, round: Round)
      requires Valid()
      modifies this
      ensures Valid() && index >= old(index)
      ensures round.Bad? ==> ReadMembers(old(Rest()), members) == Failed
      ensures round.Stop? ==> Peek(Rest()) == '}' && ReadMembers(old(Rest()), members) == Got(members', Rest()[1..])
      ensures round.More? ==> index > old(index) && ReadMembers(old(Rest()), members) == ReadMembers(Rest(), members')
      decreases |input| - index, 2
    {
      members' := members;
      round := Bad;
      IgnoreSpaces();
      if Next() == '}' {
        return members, Stop;
      }
      IgnoreSpaces();
      SkipTwice(old(Rest()));
      var key := ConsumeAndUnescapeString();
      if key.None? {
        return;
      }
      IgnoreSpaces();
      var colon := ConsumeSpecific(':');
      if !colon {
        return;
      }
      IgnoreSpaces();
      var value := ParseHelper();
      if value.None? {
        return;
      }
      members' := SetMember(members, key.value, value.value);
      round := AfterMemberRound(members');
    }

    method AfterMemberRound(ghost members: seq<Member>) returns (round: Round)
      requires Valid()
      modifies this
      ensures Valid() && index >= old(index)
      ensures round.Bad? ==> AfterMember(old(Rest()), members) == Failed
      ensures round.Stop? ==> Peek(Rest()) == '}' && AfterMember(old(Rest()), members) == Got(members, Rest()[1..])
      ensures round.More? ==> AfterMember(old(Rest()), members) == ReadMembers(Rest(), members)
    {
      IgnoreSpaces();
      if Next() == '}' {
        return Stop;
      }
      var comma := ConsumeSpecific(',');
      if !comma {
        return Bad;
      }
      IgnoreSpaces();
      round := if Next() == '}' then Bad else More;
    }

    method ParseObject() returns (r: Option<Json>)
      requires Valid() && Peek(Rest()) == '{'
      modifies this
      ensures Valid() && index >= old(index)
      ensures var m := ReadMembers(old(Rest())[1..], []);
        Agrees(r, Rest(), if m.Failed? then Failed else Got(Object(m.value), m.rest))
      ensures r.Some? ==> index > old(index)
      decreases |input| - index, 0
    {
      var brace := ConsumeSpecific('{');
      ghost var whole := ReadMembers(Rest(), []);
      var members: seq<Member> := [];
      while true
        invariant Valid() && index > old(index) && whole == ReadMembers(Rest(), members)
        decreases |input| - index
      {
        var round;
        members, round := ObjectRound(members);
        if round.Bad? {
          return None;
        }
        if round.Stop? {
          break;
        }
      }
      var closed := ConsumeSpecific('}');
      r := Some(Object(members));
    }
  }

  /** JsonParser(text).parse(): the whole text is one value. */
  method Parse(text: string) returns (r: Option<Json>)
    ensures r == ParseText(text)
  {
    var parser := new JsonParser(text);
    assert parser.Rest() == text;
    r := parser.ParseHelper();
    if r.Some? {
      parser.IgnoreSpaces();
      if parser.index < |text| {
        r := None;
      }
    }
  }
}
