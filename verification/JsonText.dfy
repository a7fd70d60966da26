/** JSON values and the text they are written as (base/JsonObject.h, base/StringBuilder.cpp, base/JsonArraySerializer.h,
    base/JsonObjectSerializer.h; sections 4 to 7 of RFC 8259). */
module JsonText {
  import opened Limits
  import opened Numerals

  /** The types of a JsonValue. An object is its members in the order they were first set. A Double is only what the
      parser read for it. */
  datatype Json =
    | Null
    | Bool(flag: bool)
    | Int32(n: int)
    | UnsignedInt32(n: int)
    | Int64(n: int)
    | UnsignedInt64(n: int)
    | Double(whole: int, fraction: string)
    | String(text: string)
    | Array(items: seq<Json>)
    | Object(members: seq<Member>)

  datatype Member = Member(key: string, value: Json)

  predicate DistinctKeys(members: seq<Member>) {
    forall i, j :: 0 <= i < j < |members| ==> members[i].key != members[j].key
  }

  /** A value without doubles, with integers in the range of their type and objects that have each key once. */
  predicate Plain(v: Json) {
    match v
    case Int32(n) => I32_MIN <= n <= I32_MAX
    case UnsignedInt32(n) => 0 <= n <= U32_MAX
    case Int64(n) => I64_MIN <= n <= I64_MAX
    case UnsignedInt64(n) => 0 <= n <= U64_MAX
    case Double(_, _) => false
    case Array(items) => forall i :: 0 <= i < |items| ==> Plain(items[i])
    case Object(members) => DistinctKeys(members) && forall i :: 0 <= i < |members| ==> Plain(members[i].value)
    case _ => true
  }

  // ---------------------------------------------------------------- writing

  const ESCAPE: char := 27 as char
  const BACKSPACE: char := 8 as char

  function Escape(c: char): string {
    if c == ESCAPE then "\\u001B"
    else if c == BACKSPACE then "\\b"
    else if c == '\n' then "\\n"
    else if c == '\t' then "\\t"
    else if c == '\"' then "\\\""
    else if c == '\\' then "\\\\"
    else [c]
  }

  // Each writer takes the text that follows, so that reading back needs no regrouping.

  function EscapeTo(text: string, rest: string): string {
    if text == [] then rest else Escape(text[0]) + EscapeTo(text[1..], rest)
  }

  function WriteTo(v: Json, rest: string): string
    requires Plain(v)
    decreases v
  {
    match v
    case Null => "null" + rest
    case Bool(flag) => (if flag then "true" else "false") + rest
    case Int32(n) => Signed(n) + rest
    case UnsignedInt32(n) => Signed(n) + rest
    case Int64(n) => Signed(n) + rest
    case UnsignedInt64(n) => Signed(n) + rest
    case String(text) => "\"" + EscapeTo(text, "\"" + rest)
    case Array(items) => "[" + ItemsTo(items, "]" + rest)
    case Object(members) => "{" + MembersTo(members, "}" + rest)
  }

  function ItemsTo(items: seq<Json>, rest: string): string
    requires forall i :: 0 <= i < |items| ==> Plain(items[i])
    decreases items
  {
    if items == [] then rest
    else WriteTo(items[0], if |items| == 1 then rest else "," + ItemsTo(items[1..], rest))
  }

  function MemberTo(m: Member, rest: string): string
    requires Plain(m.value)
    decreases m
  {
    "\"" + EscapeTo(m.key, "\":" + WriteTo(m.value, rest))
  }

  function MembersTo(members: seq<Member>, rest: string): string
    requires forall i :: 0 <= i < |members| ==> Plain(members[i].value)
    decreases members
  {
    if members == [] then rest
    else MemberTo(members[0], if |members| == 1 then rest else "," + MembersTo(members[1..], rest))
  }

  function Write(v: Json): string
    requires Plain(v)
  {
    WriteTo(v, "")
  }
}
