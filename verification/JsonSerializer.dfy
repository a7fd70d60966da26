/** The writer as the source runs it: a builder that grows, and a serializer object for each array and object. */
module JsonSerializing {
  import opened Numerals
  import opened JsonText

  lemma {:induction false} EscapeToAppend(text: string, rest: string)
    ensures EscapeTo(text, rest) == EscapeTo(text, "") + rest
  {
    if text != [] {
      EscapeToAppend(text[1..], rest);
      assert Escape(text[0]) + (EscapeTo(text[1..], "") + rest) == Escape(text[0]) + EscapeTo(text[1..], "") + rest;
    }
  }

  lemma {:induction false} EscapeToSnoc(text: string, c: char)
    ensures EscapeTo(text + [c], "") == EscapeTo(text, "") + Escape(c)
  {
    if text == [] {
      assert ([c])[1..] == [];
      assert Escape(c) + "" == Escape(c);
    } else {
      assert (text + [c])[1..] == text[1..] + [c];
      EscapeToSnoc(text[1..], c);
    }
  }

  lemma {:induction false} WriteToAppend(v: Json, rest: string)
    requires Plain(v)
    ensures WriteTo(v, rest) == Write(v) + rest
    decreases v
  {
    match v
    case String(text) =>
      EscapeToAppend(text, "\"" + rest);
      EscapeToAppend(text, "\"" + "");
    case Array(items) =>
      ItemsToAppend(items, "]" + rest);
      ItemsToAppend(items, "]" + "");
    case Object(members) =>
      MembersToAppend(members, "}" + rest);
      MembersToAppend(members, "}" + "");
    case _ =>
  }

  /** Regrouping of concatenations. */
  lemma Regroup(a: string, b: string, c: string, d: string)
    ensures a + (b + (c + d)) == a + (b + c) + d
  {
  }

  lemma RegroupMember(a: string, b: string, c: string, d: string, e: string)
    ensures a + (b + (c + (d + e))) == a + (b + (c + d)) + e
  {
  }

  lemma RegroupOpen(before: string, bracket: string, list: string, sep: string, last: string)
    ensures before + (bracket + (list + (sep + last))) == before + (bracket + list) + sep + last
  {
  }

  lemma {:induction false} ItemsToAppend(items: seq<Json>, rest: string)
    requires forall i :: 0 <= i < |items| ==> Plain(items[i])
    ensures ItemsTo(items, rest) == ItemsTo(items, "") + rest
    decreases items
  {
    if |items| == 1 {
      WriteToAppend(items[0], rest);
    } else if |items| > 1 {
      var more := ItemsTo(items[1..], "");
      ItemsToAppend(items[1..], rest);
      WriteToAppend(items[0], "," + (more + rest));
      WriteToAppend(items[0], "," + more);
      Regroup(Write(items[0]), ",", more, rest);
    }
  }

  lemma {:induction false} MemberToAppend(m: Member, rest: string)
    requires Plain(m.value)
    ensures MemberTo(m, rest) == MemberTo(m, "") + rest
    decreases m
  {
    var w := Write(m.value);
    WriteToAppend(m.value, rest);
    EscapeToAppend(m.key, "\":" + (w + rest));
    EscapeToAppend(m.key, "\":" + w);
    RegroupMember("\"", EscapeTo(m.key, ""), "\":", w, rest);
  }

  lemma {:induction false} MembersToAppend(members: seq<Member>, rest: string)
    requires forall i :: 0 <= i < |members| ==> Plain(members[i].value)
    ensures MembersTo(members, rest) == MembersTo(members, "") + rest
    decreases members
  {
    if |members| == 1 {
      MemberToAppend(members[0], rest);
    } else if |members| > 1 {
      var more := MembersTo(members[1..], "");
      MembersToAppend(members[1..], rest);
      MemberToAppend(members[0], "," + (more + rest));
      MemberToAppend(members[0], "," + more);
      Regroup(MemberTo(members[0], ""), ",", more, rest);
    }
  }

  /** What comes in front of an item: a comma, but not in front of the first. */
  function Separator(empty: bool): string {
    if empty then "" else ","
  }

  lemma {:induction false} ItemsSnoc(items: seq<Json>, v: Json)
    requires (forall i :: 0 <= i < |items| ==> Plain(items[i])) && Plain(v)
    ensures ItemsTo(items + [v], "") == ItemsTo(items, "") + (Separator(items == []) + Write(v))
  {
    var all, last := items + [v], Separator(false) + Write(v);
    if items == [] {
      assert all == [v];
    } else {
      assert all[1..] == items[1..] + [v];
      ItemsSnoc(items[1..], v);
      if |items| == 1 {
        assert all[1..] == [v];
        WriteToAppend(items[0], last);
      } else {
        var more := ItemsTo(items[1..], "");
        WriteToAppend(items[0], "," + (more + last));
        WriteToAppend(items[0], "," + more);
        Regroup(Write(items[0]), ",", more, last);
      }
    }
  }

  lemma {:induction false} MembersSnoc(members: seq<Member>, m: Member)
    requires (forall i :: 0 <= i < |members| ==> Plain(members[i].value)) && Plain(m.value)
    ensures MembersTo(members + [m], "") == MembersTo(members, "") + (Separator(members == []) + MemberTo(m, ""))
  {
    var all, last := members + [m], Separator(false) + MemberTo(m, "");
    if members == [] {
      assert all == [m];
    } else {
      assert all[1..] == members[1..] + [m];
      MembersSnoc(members[1..], m);
      if |members| == 1 {
        assert all[1..] == [m];
        MemberToAppend(members[0], last);
      } else {
        var more := MembersTo(members[1..], "");
        MemberToAppend(members[0], "," + (more + last));
        MemberToAppend(members[0], "," + more);
        Regroup(MemberTo(members[0], ""), ",", more, last);
      }
    }
  }

  /** An array or object that is not closed yet. */
  function OpenArray(items: seq<Json>): string
    requires forall i :: 0 <= i < |items| ==> Plain(items[i])
  {
    "[" + ItemsTo(items, "")
  }

  function OpenObject(members: seq<Member>): string
    requires forall i :: 0 <= i < |members| ==> Plain(members[i].value)
  {
    "{" + MembersTo(members, "")
  }

  lemma OpenArraySnoc(before: string, items: seq<Json>, v: Json)
    requires (forall i :: 0 <= i < |items| ==> Plain(items[i])) && Plain(v)
    ensures before + OpenArray(items + [v]) == before + OpenArray(items) + Separator(items == []) + Write(v)
  {
    ItemsSnoc(items, v);
    RegroupOpen(before, "[", ItemsTo(items, ""), Separator(items == []), Write(v));
  }

  lemma OpenObjectSnoc(before: string, members: seq<Member>, m: Member)
    requires (forall i :: 0 <= i < |members| ==> Plain(members[i].value)) && Plain(m.value)
    ensures before + OpenObject(members + [m])
      == before + OpenObject(members) + Separator(members == []) + MemberTo(m, "")
  {
    MembersSnoc(members, m);
    RegroupOpen(before, "{", MembersTo(members, ""), Separator(members == []), MemberTo(m, ""));
  }

  class StringBuilder {
    var buffer: string

    constructor ()
      ensures buffer == ""
    {
      buffer := "";
    }

    method Append(text: string)
      modifies this
      ensures buffer == old(buffer) + text
    {
      buffer := buffer + text;
    }

    method AppendEscapedForJson(text: string)
      modifies this
      ensures buffer == old(buffer) + EscapeTo(text, "")
    {
      for i := 0 to |text|
        invariant buffer == old(buffer) + EscapeTo(text[..i], "")
      {
        assert text[..i + 1] == text[..i] + [text[i]];
        EscapeToSnoc(text[..i], text[i]);
        Append(Escape(text[i]));
      }
      assert text[..|text|] == text;
    }
  }

  /** JsonArraySerializer: `items` is what has been added. */
  class JsonArraySerializer {
    const builder: StringBuilder
    var empty: bool
    var finished: bool
    ghost var items: seq<Json>
    ghost var before: string

    ghost predicate Valid()
      reads this, builder
    {
      && (forall i :: 0 <= i < |items| ==> Plain(items[i]))
      && empty == (items == [])
      && builder.buffer == if finished then before + OpenArray(items) + "]" else before + OpenArray(items)
    }

    constructor (b: StringBuilder)
      modifies b
      ensures builder == b && items == [] && !finished && before == old(b.buffer) && Valid()
    {
      builder := b;
      empty := true;
      finished := false;
      items := [];
      before := b.buffer;
      new;
      b.Append("[");
    }

    method BeginItem()
      modifies this`empty, builder
      ensures !empty && builder.buffer == old(builder.buffer + Separator(empty))
    {
      if !empty {
        builder.Append(",");
      }
      empty := false;
    }

    method Add(value: Json)
      requires Valid() && !finished && Plain(value)
      modifies this, builder
      ensures Valid() && !finished && items == old(items) + [value] && before == old(before)
      decreases value, 1
    {
      OpenArraySnoc(before, items, value);
      BeginItem();
      items := items + [value];
      Serialize(builder, value);
    }

    method Finish()
      requires Valid() && !finished
      modifies this, builder
      ensures Valid() && finished && items == old(items) && before == old(before)
    {
      finished := true;
      builder.Append("]");
    }
  }

  /** JsonObjectSerializer: `members` is what has been added. */
  class JsonObjectSerializer {
    const builder: StringBuilder
    var empty: bool
    var finished: bool
    ghost var members: seq<Member>
    ghost var before: string

    ghost predicate Valid()
      reads this, builder
    {
      && (forall i :: 0 <= i < |members| ==> Plain(members[i].value))
      && empty == (members == [])
      && builder.buffer == if finished then before + OpenObject(members) + "}" else before + OpenObject(members)
    }

    constructor (b: StringBuilder)
      modifies b
      ensures builder == b && members == [] && !finished && before == old(b.buffer) && Valid()
    {
      builder := b;
      empty := true;
      finished := false;
      members := [];
      before := b.buffer;
      new;
      b.Append("{");
    }

    method BeginItem(key: string)
      modifies this`empty, builder
      ensures !empty && builder.buffer == old(builder.buffer + Separator(empty)) + "\"" + EscapeTo(key, "") + "\":"
    {
      if !empty {
        builder.Append(",");
      }
      empty := false;
      builder.Append("\"");
      builder.AppendEscapedForJson(key);
      builder.Append("\":");
    }

    method Add(member: Member)
      requires Valid() && !finished && Plain(member.value)
      modifies this, builder
      ensures Valid() && !finished && members == old(members) + [member] && before == old(before)
      decreases member, 1
    {
      OpenObjectSnoc(before, members, member);
      MemberText(builder.buffer + Separator(empty), member);
      BeginItem(member.key);
      members := members + [member];
      Serialize(builder, member.value);
    }

    method Finish()
      requires Valid() && !finished
      modifies this, builder
      ensures Valid() && finished && members == old(members) && before == old(before)
    {
      finished := true;
      builder.Append("}");
    }
  }

  lemma MemberText(before: string, m: Member)
    requires Plain(m.value)
    ensures before + MemberTo(m, "") == before + "\"" + EscapeTo(m.key, "") + "\":" + Write(m.value)
  {
    EscapeToAppend(m.key, "\":" + Write(m.value));
  }

  lemma StringText(before: string, text: string)
    ensures before + Write(String(text)) == before + "\"" + EscapeTo(text, "") + "\""
  {
    EscapeToAppend(text, "\"" + "");
    assert "\"" + "" == "\"";
  }

  lemma ArrayText(before: string, items: seq<Json>)
    requires Plain(Array(items))
    ensures before + Write(Array(items)) == before + OpenArray(items) + "]"
  {
    ItemsToAppend(items, "]" + "");
    assert "]" + "" == "]";
  }

  lemma ObjectText(before: string, members: seq<Member>)
    requires Plain(Object(members))
    ensures before + Write(Object(members)) == before + OpenObject(members) + "}"
  {
    MembersToAppend(members, "}" + "");
    assert "}" + "" == "}";
  }

  /** JsonValue::serialize */
  method Serialize(builder: StringBuilder, v: Json)
    requires Plain(v)
    modifies builder
    ensures builder.buffer == old(builder.buffer) + Write(v)
    decreases v, 0
  {
    match v
    case Null => builder.Append("null");
    case Bool(flag) => builder.Append(if flag then "true" else "false");
    case Int32(n) => AppendInteger(builder, n);
    case UnsignedInt32(n) => AppendInteger(builder, n);
    case Int64(n) => AppendInteger(builder, n);
    case UnsignedInt64(n) => AppendInteger(builder, n);
    case String(text) =>
      StringText(builder.buffer, text);
      builder.Append("\"");
      builder.AppendEscapedForJson(text);
      builder.Append("\"");
    case Array(items) => SerializeArray(builder, items);
    case Object(members) => SerializeObject(builder, members);
  }

  /** JsonArray::serialize */
  method SerializeArray(builder: StringBuilder, items: seq<Json>)
    requires Plain(Array(items))
    modifies builder
    ensures builder.buffer == old(builder.buffer) + Write(Array(items))
    decreases items, 2
  {
    var serializer := new JsonArraySerializer(builder);
    for i := 0 to |items|
      invariant serializer.Valid() && !serializer.finished && serializer.builder == builder
      invariant serializer.items == items[..i] && serializer.before == old(builder.buffer)
    {
      serializer.Add(items[i]);
    }
    assert serializer.items == items;
    serializer.Finish();
    ArrayText(old(builder.buffer), items);
  }

  /** JsonObject::serialize */
  method SerializeObject(builder: StringBuilder, members: seq<Member>)
    requires Plain(Object(members))
    modifies builder
    ensures builder.buffer == old(builder.buffer) + Write(Object(members))
    decreases members, 2
  {
    var serializer := new JsonObjectSerializer(builder);
    for i := 0 to |members|
      invariant serializer.Valid() && !serializer.finished && serializer.builder == builder
      invariant serializer.members == members[..i] && serializer.before == old(builder.buffer)
    {
      serializer.Add(members[i]);
    }
    assert serializer.members == members;
    serializer.Finish();
    ObjectText(old(builder.buffer), members);
  }

  /** put_i64 and put_u64 without padding or prefix. */
  method AppendInteger(builder: StringBuilder, n: int)
    modifies builder
    ensures builder.buffer == old(builder.buffer) + Signed(n)
  {
    var digits := ConvertUnsignedToString(if n < 0 then -n else n, 10, false);
    if n < 0 {
      builder.Append("-");
    }
    builder.Append(digits);
  }
}
