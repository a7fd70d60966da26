/** The state loop of the URL parser (base/URLParser.cpp; the basic URL parser of the WHATWG URL Standard), on code
    points. What single components mean is left to the functions in `Rules`. */
module UrlStates {
  import opened Numerals
  import opened Optional

  datatype State =
    | SchemeStart | Scheme | NoScheme | SpecialRelativeOrAuthority | PathOrAuthority | Relative | RelativeSlash
    | SpecialAuthoritySlashes | SpecialAuthorityIgnoreSlashes | Authority | Host | Port | File | FileSlash | FileHost
    | PathStart | Path | CannotBeABaseUrlPath | Query | Fragment

  datatype Url = Url(scheme: string, host: string, port: nat, paths: seq<string>, query: Option<string>,
                     fragment: Option<string>, cannotBeABase: bool)

  const NO_URL := Url("", "", 0, [], None, None, false)

  datatype Rules = Rules(
    isSpecial: string -> bool,
    defaultPort: string -> nat,
    parseHost: (string, bool) -> Option<string>,
    parsePort: string -> Option<nat>,
    decode: string -> string,
    encodePath: char -> string,
    encodeControl: char -> string,
    encodeQuery: (string, bool) -> string,
    isSingleDot: string -> bool,
    isDoubleDot: string -> bool,
    isDriveLetter: string -> bool,
    isNormalizedDriveLetter: string -> bool,
    startsWithDriveLetter: string -> bool)

  /** The variables of the loop. */
  datatype Machine = Machine(state: State, pos: int, buffer: string, atSignSeen: bool, insideBrackets: bool, url: Url)

  /** How a round ends: with a result of failure, with the cursor where it is, or with the cursor moving on. Stopped is
      a VERIFY that does not hold. */
  datatype Round = Failed | Stopped | Again(m: Machine) | Onward(m: Machine)

  /** How the loop ends: with failure, with a VERIFY that does not hold, or with a URL in its last state. */
  datatype Outcome = Fails | Stops | Gives(url: Url, last: State)

  predicate IsAlpha(c: char) {
    'a' <= c <= 'z' || 'A' <= c <= 'Z'
  }

  function Lower(c: char): char {
    if 'A' <= c <= 'Z' then (c as int + 32) as char else c
  }

  function Lowered(text: string): (r: string)
    ensures |r| == |text|
  {
    if text == "" then "" else Lowered(text[..|text| - 1]) + [Lower(text[|text| - 1])]
  }

  lemma {:induction false} LoweredSmall(text: string)
    requires forall i :: 0 <= i < |text| ==> 'a' <= text[i] <= 'z'
    ensures Lowered(text) == text
  {
    if text != "" { LoweredSmall(text[..|text| - 1]); }
  }

  predicate IsSchemeChar(c: char) {
    IsAlpha(c) || IsDigit(c) || c == '+' || c == '-' || c == '.'
  }

  /** The first position from `pos` on with such a code point, or the end. */
  function First(input: string, pos: nat, stop: char -> bool): (r: nat)
    requires pos <= |input|
    ensures pos <= r <= |input| && (r < |input| ==> stop(input[r]))
    ensures forall i :: pos <= i < r ==> !stop(input[i])
    decreases |input| - pos
  {
    if pos == |input| || stop(input[pos]) then pos else First(input, pos + 1, stop)
  }

  lemma {:induction false} FirstIs(input: string, pos: nat, stop: char -> bool, r: nat)
    requires pos <= r <= |input| && (r < |input| ==> stop(input[r]))
    requires forall i :: pos <= i < r ==> !stop(input[i])
    ensures First(input, pos, stop) == r
    decreases |input| - pos
  {
    if pos < r { FirstIs(input, pos + 1, stop, r); }
  }

  predicate NotInScheme(c: char) {
    !IsSchemeChar(c)
  }

  /** Where the scheme that the input may begin with ends. */
  function SchemeEnd(input: string): (e: nat)
    ensures e <= |input|
  {
    if input != "" && IsAlpha(input[0]) then First(input, 1, NotInScheme) else 0
  }

  /** The code point under the cursor; nothing at the end. */
  function Code(input: string, pos: int): Option<char>
    requires 0 <= pos <= |input|
  {
    if pos < |input| then Some(input[pos]) else None
  }

  predicate NextIs(input: string, pos: int, c: char)
    requires 0 <= pos <= |input|
  {
    pos + 1 < |input| && input[pos + 1] == c
  }

  // ---------------------------------------------------------------- one round, state by state

  function SchemeRound(rules: Rules, base: Option<Url>, input: string, m: Machine): Round
    requires 0 <= m.pos <= |input|
  {
    var c := Code(input, m.pos);
    match m.state
    case SchemeStart =>
      if c.Some? && IsAlpha(c.value) then Onward(m.(buffer := m.buffer + [Lower(c.value)], state := Scheme))
      else Again(m.(state := NoScheme))
    case Scheme =>
      if c.Some? && IsSchemeChar(c.value) then
        Onward(m.(buffer := m.buffer + [Lower(c.value)]))
      else if c == Some(':') then
        var url := m.url.(scheme := m.buffer);
        var m1 := m.(buffer := "", url := url);
        if url.scheme == "file" then Onward(m1.(state := File))
        else if rules.isSpecial(url.scheme) then
          Onward(m1.(state := if base.Some?
            && base.value.scheme == url.scheme then SpecialRelativeOrAuthority else SpecialAuthoritySlashes))
        else if NextIs(input, m.pos, '/') then Onward(m1.(state := PathOrAuthority, pos := m.pos + 1))
        else Onward(m1.(state := CannotBeABaseUrlPath, url := url.(cannotBeABase := true, paths := url.paths + [""])))
      else Again(m.(buffer := "", state := NoScheme, pos := 0))
    case _ =>
      if base.None? || (base.value.cannotBeABase && c != Some('#')) then Failed
      else if base.value.cannotBeABase then
        Onward(m.(state := Fragment,
          url := m.url.(scheme := base.value.scheme, paths := base.value.paths, query := base.value.query,
                                                   fragment := Some(""), cannotBeABase := true)))
      else Again(m.(state := if base.value.scheme != "file" then Relative else File))
  }

  function FromBase(url: Url, base: Url): Url {
    url.(host := base.host, port := base.port, paths := base.paths, query := base.query)
  }

  function WithoutLast(paths: seq<string>): seq<string> {
    if paths == [] then [] else paths[..|paths| - 1]
  }

  function RelativeRound(rules: Rules, base: Url, input: string, m: Machine): Round
    requires 0 <= m.pos <= |input|
  {
    var c := Code(input, m.pos);
    var special := rules.isSpecial(base.scheme);
    match m.state
    case Relative =>
      var url := m.url.(scheme := base.scheme);
      if c == Some('/') || (special && c == Some('\\')) then Onward(m.(url := url, state := RelativeSlash))
      else
        var whole := FromBase(url, base);
        if c == Some('?') then Onward(m.(url := whole.(query := Some("")), state := Query))
        else if c == Some('#') then Onward(m.(url := whole.(fragment := Some("")), state := Fragment))
        else if c.Some? then Again(m.(url := whole.(query := None, paths := WithoutLast(whole.paths)), state := Path))
        else Onward(m.(url := whole))
    case _ =>
      if rules.isSpecial(m.url.scheme)
        && (c == Some('/') || c == Some('\\')) then Onward(m.(state := SpecialAuthorityIgnoreSlashes))
      else if c == Some('/') then Onward(m.(state := Authority))
      else Again(m.(url := m.url.(host := base.host, port := base.port), state := Path))
  }

  function SlashesRound(input: string, m: Machine): Round
    requires 0 <= m.pos <= |input|
  {
    var c := Code(input, m.pos);
    match m.state
    case SpecialRelativeOrAuthority =>
      if c == Some('/')
        && NextIs(input, m.pos, '/') then Onward(m.(state := SpecialAuthorityIgnoreSlashes, pos := m.pos + 1))
      else Again(m.(state := Relative))
    case PathOrAuthority =>
      if c == Some('/') then Onward(m.(state := Authority)) else Again(m.(state := Path))
    case SpecialAuthoritySlashes =>
      if c == Some('/')
        && NextIs(input, m.pos, '/') then Onward(m.(state := SpecialAuthorityIgnoreSlashes, pos := m.pos + 1))
      else Again(m.(state := SpecialAuthorityIgnoreSlashes))
    case _ =>
      if c != Some('/') && c != Some('\\') then Again(m.(state := Authority)) else Onward(m)
  }

  predicate EndsAuthority(c: Option<char>, special: bool) {
    c.None? || c.value == '/' || c.value == '?' || c.value == '#' || (special && c.value == '\\')
  }

  function AuthorityRound(rules: Rules, input: string, m: Machine): Round
    requires 0 <= m.pos <= |input|
  {
    var c := Code(input, m.pos);
    var special := rules.isSpecial(m.url.scheme);
    match m.state
    case Authority =>
      if c == Some('@') then Onward(m.(atSignSeen := true, buffer := ""))
      else if EndsAuthority(c, special) then
        if m.atSignSeen && m.buffer == "" then Failed
        else Onward(m.(pos := m.pos - |m.buffer| - 1, buffer := "", state := Host))
      else if c.None? then Onward(m)
      else Onward(m.(buffer := m.buffer + [c.value]))
    case Host =>
      if c == Some(':') && !m.insideBrackets then
        if m.buffer == "" then Failed
        else
          var host := rules.parseHost(m.buffer, !special);
          if host.None? then Failed else Onward(m.(url := m.url.(host := host.value), buffer := "", state := Port))
      else if EndsAuthority(c, special) then
        if special && m.buffer == "" then Failed
        else
          var host := rules.parseHost(m.buffer, !special);
          if host.None? then Failed else Again(m.(url := m.url.(host := host.value), buffer := "", state := Port))
      else if c == Some('[') then Onward(m.(insideBrackets := true))
      else if c == Some(']') then Onward(m.(insideBrackets := false))
      else if c.None? then Onward(m)
      else Onward(m.(buffer := m.buffer + [c.value]))
    case _ =>
      if c.Some? && IsDigit(c.value) then Onward(m.(buffer := m.buffer + [c.value]))
      else if EndsAuthority(c, special) then
        if m.buffer == "" then Again(m.(state := PathStart))
        else
          var port := rules.parsePort(m.buffer);
          if port.None? || port.value > 65535 then Failed
          else
            var p := if port.value == rules.defaultPort(m.url.scheme) then 0 else port.value;
            Again(m.(url := m.url.(port := p), buffer := "", state := PathStart))
      else Failed
  }

  /** A file URL without a slash, relative to a base that is a file URL. */
  function FileFromBase(rules: Rules, base: Url, input: string, m: Machine): Round
    requires 0 <= m.pos <= |input|
  {
    var c := Code(input, m.pos);
    var url := m.url.(scheme := "file", host := base.host, paths := base.paths, query := base.query);
    if c == Some('?') then Onward(m.(url := url.(query := Some("")), state := Query))
    else if c == Some('#') then Onward(m.(url := url.(fragment := Some("")), state := Fragment))
    else if c.Some? then
      var paths :=
        if rules.startsWithDriveLetter(input[m.pos..]) then []
        else if |url.paths| == 1 && rules.isNormalizedDriveLetter(url.paths[0]) then url.paths
        else WithoutLast(url.paths);
      Again(m.(url := url.(query := None, paths := paths), state := Path))
    else Onward(m.(url := url))
  }

  function FileRound(rules: Rules, base: Option<Url>, input: string, m: Machine): Round
    requires 0 <= m.pos <= |input|
  {
    var c := Code(input, m.pos);
    var fromFile := base.Some? && base.value.scheme == "file";
    match m.state
    case File =>
      var url := m.url.(scheme := "file", host := "");
      if c == Some('/') || c == Some('\\') then Onward(m.(url := url, state := FileSlash))
      else if fromFile then FileFromBase(rules, base.value, input, m)
      else Onward(m.(url := url))
    case FileSlash =>
      if c == Some('/') || c == Some('\\') then Onward(m.(state := FileHost))
      else if fromFile then
        var url := m.url.(host := base.value.host);
        if rules.startsWithDriveLetter(input[m.pos..]) then Again(m.(url := url, state := Path))
        else if base.value.paths == [] then Stopped
        else if rules.isNormalizedDriveLetter(base.value.paths[0]) then
          Again(m.(url := url.(paths := url.paths + [base.value.paths[0]]), state := Path))
        else Again(m.(url := url, state := Path))
      else Onward(m)
    case _ =>
      if c.None? || c.value == '/' || c.value == '\\' || c.value == '?' || c.value == '#' then
        if rules.isDriveLetter(m.buffer) then Again(m.(state := Path))
        else if m.buffer == "" then Again(m.(url := m.url.(host := ""), state := PathStart))
        else
          var host := rules.parseHost(m.buffer, true);
          if host.None? then Failed
          else
            var name := if host.value == "localhost" then "" else host.value;
            Again(m.(url := m.url.(host := name), buffer := "", state := PathStart))
      else Onward(m.(buffer := m.buffer + [c.value]))
  }

  /** The paths after a segment has ended with code point `c`. */
  function EndSegment(rules: Rules, url: Url, segment: string, c: Option<char>): seq<string> {
    var slash := c == Some('/') || (rules.isSpecial(url.scheme) && c == Some('\\'));
    if rules.isDoubleDot(segment) then
      var shorter :=
        if url.scheme == "file" && |url.paths| == 1
          && rules.isNormalizedDriveLetter(url.paths[0]) then url.paths else WithoutLast(url.paths);
      if slash then shorter else shorter + [""]
    else if rules.isSingleDot(segment) then
      if slash then url.paths else url.paths + [""]
    else
      var text := if url.scheme == "file" && url.paths == [] && rules.isDriveLetter(segment)
        && segment != "" then [segment[0], ':'] else segment;
      url.paths + [rules.decode(text)]
  }

  function PathRound(rules: Rules, input: string, m: Machine): Round
    requires 0 <= m.pos <= |input|
  {
    var c := Code(input, m.pos);
    var special := rules.isSpecial(m.url.scheme);
    match m.state
    case PathStart =>
      if special then
        if c == Some('/') || c == Some('\\') then Onward(m.(state := Path)) else Again(m.(state := Path))
      else if c == Some('?') then Onward(m.(url := m.url.(query := Some("")), state := Query))
      else if c == Some('#') then Onward(m.(url := m.url.(fragment := Some("")), state := Fragment))
      else if c == Some('/') then Onward(m.(state := Path))
      else if c.Some? then Again(m.(state := Path))
      else Onward(m)
    case _ =>
      if c.None? || c.value == '/' || (special && c.value == '\\') || c.value == '?' || c.value == '#' then
        var url := m.url.(paths := EndSegment(rules, m.url, m.buffer, c));
        if c == Some('?') then Onward(m.(url := url.(query := Some("")), buffer := "", state := Query))
        else if c == Some('#') then Onward(m.(url := url.(fragment := Some("")), buffer := "", state := Fragment))
        else Onward(m.(url := url, buffer := ""))
      else Onward(m.(buffer := m.buffer + rules.encodePath(c.value)))
  }

  function EndRound(rules: Rules, input: string, m: Machine): Round
    requires 0 <= m.pos <= |input|
  {
    var c := Code(input, m.pos);
    match m.state
    case CannotBeABaseUrlPath =>
      var url := m.url.(paths := [rules.decode(m.buffer)]);
      if m.url.paths != [""] then Stopped
      else if c == Some('?') then Onward(m.(url := url.(query := Some("")), state := Query))
      else if c == Some('#') then Onward(m.(url := url.(fragment := Some("")), state := Fragment))
      else if c.Some? then Onward(m.(buffer := m.buffer + rules.encodeControl(c.value)))
      else Onward(m.(url := url))
    case Query =>
      if c.None? || c.value == '#' then
        if m.url.query != Some("") then Stopped
        else
          var query := rules.decode(rules.encodeQuery(m.buffer, rules.isSpecial(m.url.scheme)));
          var m1 := m.(url := m.url.(query := Some(query)), buffer := "");
          if c.Some? then Onward(m1.(url := m1.url.(fragment := Some("")), state := Fragment)) else Onward(m1)
      else Onward(m.(buffer := m.buffer + [c.value]))
    case _ =>
      if c.Some? then Onward(m.(buffer := m.buffer + [c.value]))
      else Onward(m.(url := m.url.(fragment := Some(rules.decode(m.buffer))), buffer := ""))
  }

  /** The switch of the loop. */
  function Step(rules: Rules, base: Option<Url>, input: string, m: Machine): Round
    requires 0 <= m.pos <= |input|
  {
    match m.state
    case SchemeStart => SchemeRound(rules, base, input, m)
    case Scheme => SchemeRound(rules, base, input, m)
    case NoScheme => SchemeRound(rules, base, input, m)
    case Relative => if base.None? then Stopped else RelativeRound(rules, base.value, input, m)
    case RelativeSlash => if base.None? then Stopped else RelativeRound(rules, base.value, input, m)
    case SpecialRelativeOrAuthority => SlashesRound(input, m)
    case PathOrAuthority => SlashesRound(input, m)
    case SpecialAuthoritySlashes => SlashesRound(input, m)
    case SpecialAuthorityIgnoreSlashes => SlashesRound(input, m)
    case Authority => AuthorityRound(rules, input, m)
    case Host => AuthorityRound(rules, input, m)
    case Port => AuthorityRound(rules, input, m)
    case File => FileRound(rules, base, input, m)
    case FileSlash => FileRound(rules, base, input, m)
    case FileHost => FileRound(rules, base, input, m)
    case PathStart => PathRound(rules, input, m)
    case Path => PathRound(rules, input, m)
    case CannotBeABaseUrlPath => EndRound(rules, input, m)
    case Query => EndRound(rules, input, m)
    case Fragment => EndRound(rules, input, m)
  }
}
