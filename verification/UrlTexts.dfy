/** Stretches of the URL parser's loop run to their end: queries, fragments, paths of URLs that cannot be a base, and
    authorities. */
module UrlTexts {
  import opened Optional
  import opened UrlStates
  import opened UrlLoop

  predicate IsMark(c: char) {
    c == '?' || c == '#'
  }

  predicate IsHash(c: char) {
    c == '#'
  }

  // ---------------------------------------------------------------- behind a ? or #

  /** From the fragment state on, all that is left is fragment. */
  lemma {:induction false} FragmentRuns(rules: Rules, base: Option<Url>, input: string, m: Machine)
    requires Inv(base, input, m) && m.state.Fragment?
    ensures Run(rules, base, input, m) ==
      Gives(m.url.(fragment := Some(rules.decode(m.buffer + input[m.pos..]))), Fragment)
    decreases |input| - m.pos
  {
    if m.pos < |input| {
      RunOn(rules, base, input, m);
      assert m.buffer + input[m.pos..] == m.buffer + [input[m.pos]] + input[m.pos + 1..];
      FragmentRuns(rules, base, input, Moved(m.(buffer := m.buffer + [input[m.pos]])));
    } else {
      assert m.buffer + input[m.pos..] == m.buffer;
    }
  }

  /** The URL with a query that began with `buffer` and goes on at `pos`, and the fragment behind it. */
  ghost function WithQuery(rules: Rules, url: Url, buffer: string, input: string, pos: nat): Url
    requires pos <= |input|
  {
    var end := First(input, pos, IsHash);
    var text := rules.encodeQuery(buffer + input[pos..end], rules.isSpecial(url.scheme));
    url.(query := Some(rules.decode(text)),
         fragment := if end == |input| then url.fragment else Some(rules.decode(input[end + 1..])))
  }

  lemma WithQueryOn(rules: Rules, url: Url, buffer: string, input: string, pos: nat)
    requires pos < |input| && input[pos] != '#'
    ensures WithQuery(rules, url, buffer, input, pos) == WithQuery(rules, url, buffer + [input[pos]], input, pos + 1)
  {
    var end := First(input, pos, IsHash);
    assert buffer + input[pos..end] == buffer + [input[pos]] + input[pos + 1..end];
  }

  lemma QueryEnds(rules: Rules, base: Option<Url>, input: string, m: Machine)
    requires Inv(base, input, m) && m.state.Query? && m.pos == |input|
    ensures var r := Run(rules, base, input, m);
      r.Gives? && r.url == WithQuery(rules, m.url, m.buffer, input, m.pos)
  {
    assert m.buffer + input[m.pos..m.pos] == m.buffer;
  }

  /** The machine behind the # of a query. */
  ghost function BehindQuery(rules: Rules, m: Machine): Machine {
    var query := rules.decode(rules.encodeQuery(m.buffer, rules.isSpecial(m.url.scheme)));
    Machine(Fragment, m.pos + 1, "", m.atSignSeen, m.insideBrackets,
            m.url.(query := Some(query), fragment := Some("")))
  }

  lemma QueryStep(rules: Rules, base: Option<Url>, input: string, m: Machine)
    requires Inv(base, input, m) && m.state.Query? && m.pos < |input|
    ensures Step(rules, base, input, m) == Onward(
      if input[m.pos] == '#' then BehindQuery(rules, m).(pos := m.pos) else m.(buffer := m.buffer + [input[m.pos]]))
  {
  }

  lemma HashUrl(rules: Rules, m: Machine, input: string)
    requires 0 <= m.pos < |input| && input[m.pos] == '#'
    ensures var next := BehindQuery(rules, m);
      WithQuery(rules, m.url, m.buffer, input, m.pos)
        == next.url.(fragment := Some(rules.decode(next.buffer + input[next.pos..])))
  {
    assert m.buffer + input[m.pos..m.pos] == m.buffer;
    assert "" + input[m.pos + 1..] == input[m.pos + 1..];
  }

  lemma QueryHash(rules: Rules, base: Option<Url>, input: string, m: Machine)
    requires Inv(base, input, m) && m.state.Query? && m.pos < |input| && input[m.pos] == '#'
    ensures var r := Run(rules, base, input, m);
      r.Gives? && r.url == WithQuery(rules, m.url, m.buffer, input, m.pos)
  {
    QueryStep(rules, base, input, m);
    RunTo(rules, base, input, m, BehindQuery(rules, m));
    FragmentRuns(rules, base, input, BehindQuery(rules, m));
    HashUrl(rules, m, input);
  }

  lemma QueryOn(rules: Rules, base: Option<Url>, input: string, m: Machine)
    requires Inv(base, input, m) && m.state.Query? && m.pos < |input| && input[m.pos] != '#'
    ensures var next := Moved(m.(buffer := m.buffer + [input[m.pos]]));
      Inv(base, input, next) && Run(rules, base, input, m) == Run(rules, base, input, next)
  {
    QueryStep(rules, base, input, m);
    RunTo(rules, base, input, m, Moved(m.(buffer := m.buffer + [input[m.pos]])));
  }

  /** From the query state on, the query goes up to a # and the rest is fragment. */
  lemma {:induction false} QueryRuns(rules: Rules, base: Option<Url>, input: string, m: Machine)
    requires Inv(base, input, m) && m.state.Query?
    ensures var r := Run(rules, base, input, m);
      r.Gives? && r.url == WithQuery(rules, m.url, m.buffer, input, m.pos)
    decreases |input| - m.pos
  {
    if m.pos == |input| {
      QueryEnds(rules, base, input, m);
    } else if input[m.pos] == '#' {
      QueryHash(rules, base, input, m);
    } else {
      QueryOn(rules, base, input, m);
      WithQueryOn(rules, m.url, m.buffer, input, m.pos);
      QueryRuns(rules, base, input, Moved(m.(buffer := m.buffer + [input[m.pos]])));
    }
  }

  // ---------------------------------------------------------------- URLs that cannot be a base

  ghost function EncodeAll(rules: Rules, text: string): string {
    if text == "" then "" else EncodeAll(rules, text[..|text| - 1]) + rules.encodeControl(text[|text| - 1])
  }

  /** The input begins with a scheme. */
  predicate HasScheme(input: string) {
    0 < SchemeEnd(input) < |input| && input[SchemeEnd(input)] == ':'
  }

  /** The input has a scheme that is neither special nor file, and no slash behind it. */
  predicate Opaque(rules: Rules, input: string) {
    && HasScheme(input)
    && var e := SchemeEnd(input);
    && var scheme := Lowered(input[..e]);
    && scheme != "file" && !rules.isSpecial(scheme) && !NextIs(input, e, '/')
  }

  /** Where its path ends. */
  function PathEnd(input: string): nat
    requires HasScheme(input)
  {
    First(input, SchemeEnd(input) + 1, IsMark)
  }

  ghost function OpaquePath(rules: Rules, input: string): string
    requires HasScheme(input)
  {
    EncodeAll(rules, input[SchemeEnd(input) + 1..PathEnd(input)])
  }

  ghost function OpaqueStart(input: string): Url
    requires HasScheme(input)
  {
    NO_URL.(scheme := Lowered(input[..SchemeEnd(input)]), cannotBeABase := true, paths := [""])
  }

  /** What the parser makes of such an input: its query, or its fragment if there is no query, begins with the path. */
  ghost function OpaqueUrl(rules: Rules, input: string): Url
    requires HasScheme(input)
  {
    var path, p := OpaquePath(rules, input), PathEnd(input);
    var url := OpaqueStart(input).(paths := [rules.decode(path)]);
    if p == |input| then url
    else if input[p] == '#' then url.(fragment := Some(rules.decode(path + input[p + 1..])))
    else WithQuery(rules, url.(query := Some("")), path, input, p + 1)
  }

  /** The machine on its way through the path. */
  ghost function InOpaquePath(rules: Rules, input: string, n: nat): Machine
    requires HasScheme(input) && SchemeEnd(input) < n <= |input|
  {
    Machine(CannotBeABaseUrlPath, n, EncodeAll(rules, input[SchemeEnd(input) + 1..n]), false, false, OpaqueStart(input))
  }

  lemma OpaqueBegins(rules: Rules, base: Option<Url>, input: string)
    requires Opaque(rules, input)
    ensures var m := InOpaquePath(rules, input, SchemeEnd(input) + 1);
      Inv(base, input, m) && Run(rules, base, input, m) == Run(rules, base, input, START)
  {
    var e := SchemeEnd(input);
    SchemeOn(rules, base, input, e);
    assert [] + [""] == [""];
    RunOn(rules, base, input, BehindScheme(input, e));
    assert input[e + 1..e + 1] == "";
  }

  /** The machine behind the path. */
  ghost function BehindPath(rules: Rules, input: string): Machine
    requires HasScheme(input) && PathEnd(input) < |input|
  {
    var path, p := OpaquePath(rules, input), PathEnd(input);
    var url := OpaqueStart(input).(paths := [rules.decode(path)]);
    if input[p] == '#' then Machine(Fragment, p + 1, path, false, false, url.(fragment := Some("")))
    else Machine(Query, p + 1, path, false, false, url.(query := Some("")))
  }

  lemma PathStep(rules: Rules, base: Option<Url>, input: string, n: nat)
    requires HasScheme(input) && SchemeEnd(input) < n <= PathEnd(input) && n < |input|
    ensures Step(rules, base, input, InOpaquePath(rules, input, n)) == Onward(
      if n == PathEnd(input) then BehindPath(rules, input).(pos := n)
      else InOpaquePath(rules, input, n + 1).(pos := n))
  {
    var text := input[SchemeEnd(input) + 1..n + 1];
    assert text[..|text| - 1] == input[SchemeEnd(input) + 1..n];
  }

  lemma OpaqueEnds(rules: Rules, base: Option<Url>, input: string)
    requires HasScheme(input) && PathEnd(input) == |input| && Inv(base, input, InOpaquePath(rules, input, |input|))
    ensures var r := Run(rules, base, input, InOpaquePath(rules, input, |input|));
      r.Gives? && r.url == OpaqueUrl(rules, input)
  {
  }

  lemma BehindPathUrl(rules: Rules, input: string)
    requires HasScheme(input) && PathEnd(input) < |input|
    ensures var next := BehindPath(rules, input);
      OpaqueUrl(rules, input) ==
        if next.state.Query? then WithQuery(rules, next.url, next.buffer, input, next.pos)
        else next.url.(fragment := Some(rules.decode(next.buffer + input[next.pos..])))
  {
  }

  lemma BehindPathRuns(rules: Rules, base: Option<Url>, input: string)
    requires HasScheme(input) && PathEnd(input) < |input| && Inv(base, input, BehindPath(rules, input))
    ensures var r := Run(rules, base, input, BehindPath(rules, input)); r.Gives? && r.url == OpaqueUrl(rules, input)
  {
    BehindPathUrl(rules, input);
    var next := BehindPath(rules, input);
    if next.state.Fragment? { FragmentRuns(rules, base, input, next); } else { QueryRuns(rules, base, input, next); }
  }

  lemma OpaqueMark(rules: Rules, base: Option<Url>, input: string)
    requires HasScheme(input) && PathEnd(input) < |input|
    requires Inv(base, input, InOpaquePath(rules, input, PathEnd(input)))
    ensures var r := Run(rules, base, input, InOpaquePath(rules, input, PathEnd(input)));
      r.Gives? && r.url == OpaqueUrl(rules, input)
  {
    PathStep(rules, base, input, PathEnd(input));
    RunTo(rules, base, input, InOpaquePath(rules, input, PathEnd(input)), BehindPath(rules, input));
    BehindPathRuns(rules, base, input);
  }

  lemma OpaqueOn(rules: Rules, base: Option<Url>, input: string)
    requires HasScheme(input) && Inv(base, input, InOpaquePath(rules, input, SchemeEnd(input) + 1))
    ensures var a, b := InOpaquePath(rules, input, SchemeEnd(input) + 1), InOpaquePath(rules, input, PathEnd(input));
      Inv(base, input, b) && Run(rules, base, input, a) == Run(rules, base, input, b)
  {
    var first, last := SchemeEnd(input) + 1, PathEnd(input);
    var way: nat -> Machine := n => if first <= n <= last then InOpaquePath(rules, input, n) else START;
    forall n: nat | first <= n < last ensures StepsOn(rules, base, input, way, n) { PathStep(rules, base, input, n); }
    RunAlong(rules, base, input, way, first, last);
  }

  /** Of every such input. */
  lemma OpaqueIs(rules: Rules, base: Option<Url>, input: string)
    requires Opaque(rules, input)
    ensures var r := Run(rules, base, input, START); r.Gives? && r.url == OpaqueUrl(rules, input)
  {
    OpaqueBegins(rules, base, input);
    OpaqueOn(rules, base, input);
    if PathEnd(input) == |input| { OpaqueEnds(rules, base, input); } else { OpaqueMark(rules, base, input); }
  }

  /** The query of "a:b?c" is not c. */
  lemma PathInQuery(rules: Rules)
    requires !rules.isSpecial("a")
    ensures var r := Run(rules, None, "a:b?c", START);
      r.Gives? && r.url.query == Some(rules.decode(rules.encodeQuery(rules.encodeControl('b') + "c", false)))
  {
    ReadsShortPath(rules);
    OpaqueIs(rules, None, "a:b?c");
  }

  lemma ReadsShortPath(rules: Rules)
    requires !rules.isSpecial("a")
    ensures Opaque(rules, "a:b?c")
    ensures OpaqueUrl(rules, "a:b?c").query ==
      Some(rules.decode(rules.encodeQuery(rules.encodeControl('b') + "c", false)))
  {
    ShortPath();
    var input := "a:b?c";
    assert input[4..5] == "c" && input[2..3] == "b";
    assert EncodeAll(rules, "b") == rules.encodeControl('b') by { assert "b"[..0] == ""; }
  }

  lemma ShortPath()
    ensures var input := "a:b?c";
      HasScheme(input) && SchemeEnd(input) == 1 && Lowered(input[..1]) == "a" && PathEnd(input) == 3
    ensures First("a:b?c", 4, IsHash) == 5
  {
    var input := "a:b?c";
    FirstIs(input, 1, NotInScheme, 1);
    assert input[..1] == "a";
    LoweredSmall("a");
    FirstIs(input, 2, IsMark, 3);
    FirstIs(input, 4, IsHash, 5);
  }

  // ---------------------------------------------------------------- where a host begins

  /** Behind the last @ between the two positions, or the first of them if there is none. */
  ghost function BehindAt(input: string, start: nat, end: nat): (k: nat)
    requires start <= end <= |input|
    ensures start <= k <= end && '@' !in input[k..end] && (k > start ==> input[k - 1] == '@')
  {
    if end == start then start
    else if input[end - 1] == '@' then end
    else
      var k := BehindAt(input, start, end - 1);
      assert input[k..end] == input[k..end - 1] + [input[end - 1]];
      k
  }

  ghost predicate NoEnd(input: string, start: nat, end: nat, special: bool)
    requires start <= end <= |input|
  {
    forall i :: start <= i < end ==> !EndsAuthority(Some(input[i]), special)
  }

  /** The machine that has read an authority from `start` on up to n. */
  ghost function InAuthority(input: string, start: nat, n: nat, m: Machine): Machine
    requires start <= n <= |input|
  {
    m.(pos := n, buffer := input[BehindAt(input, start, n)..n], atSignSeen := '@' in input[start..n])
  }

  lemma AuthorityStep(rules: Rules, base: Option<Url>, input: string, start: nat, n: nat, m: Machine)
    requires start <= n < |input| && m.state.Authority?
    requires !EndsAuthority(Some(input[n]), rules.isSpecial(m.url.scheme))
    ensures Step(rules, base, input, InAuthority(input, start, n, m))
      == Onward(InAuthority(input, start, n + 1, m).(pos := n))
  {
    assert input[start..n + 1] == input[start..n] + [input[n]];
    var k := BehindAt(input, start, n);
    assert input[k..n + 1] == input[k..n] + [input[n]];
  }

  lemma AuthorityOn(rules: Rules, base: Option<Url>, input: string, start: nat, end: nat, m: Machine)
    requires Inv(base, input, m) && m.state.Authority? && m.buffer == "" && !m.atSignSeen
    requires m.pos == start <= end <= |input|
    requires NoEnd(input, start, end, rules.isSpecial(m.url.scheme))
    ensures var on := InAuthority(input, start, end, m);
      Inv(base, input, on) && Run(rules, base, input, on) == Run(rules, base, input, m)
  {
    assert InAuthority(input, start, start, m) == m;
    var way: nat -> Machine := n => if start <= n <= end then InAuthority(input, start, n, m) else START;
    forall n: nat | start <= n < end ensures StepsOn(rules, base, input, way, n) {
      AuthorityStep(rules, base, input, start, n, m);
    }
    RunAlong(rules, base, input, way, start, end);
  }

  /** The machine at the host, back behind the last @ or at the start of the authority. */
  ghost function AtHost(input: string, start: nat, end: nat, m: Machine): Machine
    requires start <= end <= |input|
  {
    m.(state := Host, pos := BehindAt(input, start, end), buffer := "", atSignSeen := '@' in input[start..end])
  }

  lemma AuthorityEndStep(rules: Rules, base: Option<Url>, input: string, start: nat, end: nat, m: Machine)
    requires 0 < start <= end <= |input| && m.state.Authority?
    requires EndsAuthority(Code(input, end), rules.isSpecial(m.url.scheme))
    ensures var round := Step(rules, base, input, InAuthority(input, start, end, m));
      if '@' in input[start..end] && BehindAt(input, start, end) == end then round == Failed
      else round == Onward(AtHost(input, start, end, m).(pos := BehindAt(input, start, end) - 1))
  {
  }

  /** An authority is read up to its end, and then the host in it from behind its last @ on, or from its start if there
      is none; nothing behind an @ is a failure. */
  lemma AuthorityRuns(rules: Rules, base: Option<Url>, input: string, end: nat, m: Machine)
    requires Inv(base, input, m) && m.state.Authority? && m.buffer == "" && !m.atSignSeen && m.pos <= end <= |input|
    requires NoEnd(input, m.pos, end, rules.isSpecial(m.url.scheme))
    requires EndsAuthority(Code(input, end), rules.isSpecial(m.url.scheme))
    ensures var host := AtHost(input, m.pos, end, m);
      if '@' in input[m.pos..end] && host.pos == end then Run(rules, base, input, m) == Fails
      else Inv(base, input, host) && Run(rules, base, input, m) == Run(rules, base, input, host)
  {
    AuthorityOn(rules, base, input, m.pos, end, m);
    AuthorityEndStep(rules, base, input, m.pos, end, m);
    var on := InAuthority(input, m.pos, end, m);
    if Step(rules, base, input, on) != Failed { RunTo(rules, base, input, on, AtHost(input, m.pos, end, m)); }
  }
}
