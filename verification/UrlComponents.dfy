/** What the URL parser makes of its input: which text is the query and which the fragment, for every input and base,
    and exactly when that is what the input says. */
module UrlComponents {
  import opened Optional
  import opened UrlStates
  import opened UrlLoop
  import opened UrlTexts

  /** Where the reference begins: behind the scheme if there is one. */
  function Ref(input: string): (p: nat)
    ensures p <= |input|
  {
    if HasScheme(input) then SchemeEnd(input) + 1 else 0
  }

  function SchemeOf(base: Option<Url>, input: string): string {
    if HasScheme(input) then Lowered(input[..SchemeEnd(input)]) else if base.Some? then base.value.scheme else ""
  }

  predicate IsFile(base: Option<Url>) {
    base.Some? && base.value.scheme == "file"
  }

  /** The reference is relative to the base: it has no scheme, or that of a base that is special or a file URL. */
  predicate Relates(rules: Rules, base: Option<Url>, input: string) {
    && base.Some?
    && (HasScheme(input) ==>
      && SchemeOf(base, input) == base.value.scheme
      && (base.value.scheme == "file" || rules.isSpecial(base.value.scheme)))
  }

  /** Nothing stands before the mark of a fragment or the end, so that the query is that of the base. */
  predicate Inherits(rules: Rules, base: Option<Url>, input: string, p: nat)
    requires p <= |input|
  {
    Relates(rules, base, input) && p == Ref(input) && (p < |input| ==> input[p] == '#')
  }

  /** The query, if the first mark that counts is at `p` and `kept` comes in front of the text behind it. */
  ghost function QueryFrom(rules: Rules, base: Option<Url>, input: string, kept: string, p: nat): Option<string>
    requires p <= |input|
  {
    if p < |input| && input[p] == '?' then
      var text := kept + input[p + 1..First(input, p + 1, IsHash)];
      Some(rules.decode(rules.encodeQuery(text, rules.isSpecial(SchemeOf(base, input)))))
    else if Inherits(rules, base, input, p) then base.value.query
    else None
  }

  ghost function FragmentFrom(rules: Rules, input: string, kept: string, p: nat): Option<string>
    requires p <= |input|
  {
    if p == |input| then None
    else if input[p] == '#' then Some(rules.decode(kept + input[p + 1..]))
    else
      var end := First(input, p + 1, IsHash);
      if end == |input| then None else Some(rules.decode(input[end + 1..]))
  }

  ghost predicate HasParts(rules: Rules, base: Option<Url>, input: string, kept: string, p: nat, url: Url)
    requires p <= |input|
  {
    && url.scheme == SchemeOf(base, input)
    && url.query == QueryFrom(rules, base, input, kept, p)
    && url.fragment == FragmentFrom(rules, input, kept, p)
  }

  ghost predicate Parts(rules: Rules, base: Option<Url>, input: string, kept: string, p: nat, r: Outcome)
    requires p <= |input|
  {
    r.Gives? ==> HasParts(rules, base, input, kept, p, r.url)
  }

  // ---------------------------------------------------------------- at the mark

  lemma QueryParts(rules: Rules, base: Option<Url>, input: string, p: nat, m: Machine)
    requires Inv(base, input, m) && m.state.Query? && p < |input| && input[p] == '?' && m.pos == p + 1
    requires m.buffer == "" && m.url.fragment == None && m.url.scheme == SchemeOf(base, input)
    ensures Parts(rules, base, input, "", p, Run(rules, base, input, m))
  {
    QueryRuns(rules, base, input, m);
  }

  lemma FragmentParts(rules: Rules, base: Option<Url>, input: string, p: nat, m: Machine)
    requires Inv(base, input, m) && m.state.Fragment? && p < |input| && input[p] == '#' && m.pos == p + 1
    requires m.buffer == "" && m.url.scheme == SchemeOf(base, input)
    requires m.url.query == if Inherits(rules, base, input, p) then base.value.query else None
    ensures Parts(rules, base, input, "", p, Run(rules, base, input, m))
  {
    FragmentRuns(rules, base, input, m);
  }

  // ---------------------------------------------------------------- behind the start of the reference

  ghost predicate NoMarks(input: string, a: nat, b: nat)
    requires b <= |input|
  {
    forall i :: a <= i < b ==> !IsMark(input[i])
  }

  lemma FirstFrom(input: string, a: nat, b: nat)
    requires a <= b <= |input| && NoMarks(input, a, b)
    ensures First(input, a, IsMark) == First(input, b, IsMark)
  {
    FirstIs(input, a, IsMark, First(input, b, IsMark));
  }

  /** The states in which every mark counts and the reference has begun. */
  predicate Later(base: Option<Url>, state: State) {
    || state.RelativeSlash? || state.PathOrAuthority? || state.SpecialAuthoritySlashes?
    || state.SpecialAuthorityIgnoreSlashes? || state.Authority? || state.Host? || state.Port?
    || (state.FileSlash? && IsFile(base)) || FileTail(state)
  }

  predicate FileTail(state: State) {
    state.FileHost? || state.PathStart? || state.Path?
  }

  ghost predicate Bare(url: Url, scheme: string) {
    url.query == None && url.fragment == None && url.scheme == scheme
  }

  /** A query or fragment begins at the mark under the cursor. */
  ghost predicate Enters(input: string, m: Machine, m': Machine) {
    && 0 <= m.pos == m'.pos < |input| && m'.buffer == "" && m'.url.scheme == m.url.scheme
    && match m'.state
       case Query => input[m.pos] == '?' && m'.url.fragment == None
       case Fragment => input[m.pos] == '#' && m'.url.query == None
       case _ => false
  }

  /** The cursor passes over no mark. */
  ghost predicate Passes(input: string, m: Machine, m': Machine) {
    && 0 <= m.pos <= |input| && 0 <= m'.pos <= |input|
    && if m'.pos == |input| then m.pos == |input|
       else
         && m'.pos <= m.pos + 1
         && (m.pos <= m'.pos ==> !IsMark(input[m.pos]))
         && (m'.pos == m.pos + 1 ==> !IsMark(input[m'.pos]))
  }

  /** From such a state a round goes on to another, keeping the URL as bare as it is, or enters a query or fragment. */
  ghost predicate Goes(base: Option<Url>, input: string, m: Machine, r: Round) {
    match r
    case Again(m') =>
      && m'.pos == m.pos && Later(base, m'.state) && Bare(m'.url, m.url.scheme)
      && (FileTail(m.state) ==> FileTail(m'.state))
    case Onward(m') =>
      || Enters(input, m, m')
      || (&& Passes(input, m, m') && Later(base, m'.state) && Bare(m'.url, m.url.scheme)
          && (FileTail(m.state) ==> FileTail(m'.state) && m'.pos >= m.pos))
    case _ => true
  }

  lemma RelativeSlashGoes(rules: Rules, base: Url, input: string, m: Machine)
    requires Inv(Some(base), input, m) && m.state.RelativeSlash? && Bare(m.url, m.url.scheme)
    ensures Goes(Some(base), input, m, RelativeRound(rules, base, input, m))
  {
  }

  lemma SlashesGo(base: Option<Url>, input: string, m: Machine)
    requires Inv(base, input, m) && Bare(m.url, m.url.scheme)
    requires m.state.PathOrAuthority? || m.state.SpecialAuthoritySlashes? || m.state.SpecialAuthorityIgnoreSlashes?
    ensures Goes(base, input, m, SlashesRound(input, m))
  {
  }

  lemma AuthorityGoes(rules: Rules, base: Option<Url>, input: string, m: Machine)
    requires Inv(base, input, m) && (m.state.Authority? || m.state.Host? || m.state.Port?)
    requires Bare(m.url, m.url.scheme)
    ensures Goes(base, input, m, AuthorityRound(rules, input, m))
  {
  }

  lemma FileSlashGoes(rules: Rules, base: Option<Url>, input: string, m: Machine)
    requires Inv(base, input, m) && m.state.FileSlash? && IsFile(base) && Bare(m.url, m.url.scheme)
    ensures Goes(base, input, m, FileRound(rules, base, input, m))
  {
  }

  lemma FileHostGoes(rules: Rules, base: Option<Url>, input: string, m: Machine)
    requires Inv(base, input, m) && m.state.FileHost? && Bare(m.url, m.url.scheme)
    ensures Goes(base, input, m, FileRound(rules, base, input, m))
  {
  }

  lemma PathStartGoes(rules: Rules, base: Option<Url>, input: string, m: Machine)
    requires Inv(base, input, m) && m.state.PathStart? && Bare(m.url, m.url.scheme)
    ensures Goes(base, input, m, PathRound(rules, input, m))
  {
  }

  lemma PathGoes(rules: Rules, base: Option<Url>, input: string, m: Machine)
    requires Inv(base, input, m) && m.state.Path? && Bare(m.url, m.url.scheme)
    ensures Goes(base, input, m, PathRound(rules, input, m))
  {
  }

  lemma StepGoes(rules: Rules, base: Option<Url>, input: string, m: Machine)
    requires Inv(base, input, m) && Later(base, m.state) && Bare(m.url, m.url.scheme)
    ensures Goes(base, input, m, Step(rules, base, input, m))
  {
    match m.state
    case RelativeSlash => RelativeSlashGoes(rules, base.value, input, m);
    case PathOrAuthority => SlashesGo(base, input, m);
    case SpecialAuthoritySlashes => SlashesGo(base, input, m);
    case SpecialAuthorityIgnoreSlashes => SlashesGo(base, input, m);
    case Authority => AuthorityGoes(rules, base, input, m);
    case Host => AuthorityGoes(rules, base, input, m);
    case Port => AuthorityGoes(rules, base, input, m);
    case FileSlash => FileSlashGoes(rules, base, input, m);
    case FileHost => FileHostGoes(rules, base, input, m);
    case PathStart => PathStartGoes(rules, base, input, m);
    case Path => PathGoes(rules, base, input, m);
  }

  /** No mark from `from` on has been passed; only the end of a file URL has passed marks before that. */
  ghost predicate Unmarked(base: Option<Url>, input: string, from: nat, m: Machine) {
    && Later(base, m.state) && Bare(m.url, SchemeOf(base, input))
    && from <= m.pos <= |input| && NoMarks(input, from, m.pos) && (from > 0 ==> FileTail(m.state))
  }

  lemma StaysUnmarked(base: Option<Url>, input: string, from: nat, m: Machine, r: Round)
    requires Unmarked(base, input, from, m) && Goes(base, input, m, r)
    ensures r.Again? ==> Unmarked(base, input, from, r.m)
    ensures r.Onward? && !Enters(input, m, r.m) ==>
      && Bare(r.m.url, SchemeOf(base, input))
      && if r.m.pos == |input| then m.pos == |input| else Unmarked(base, input, from, Moved(r.m))
  {
  }

  lemma EnteredParts(rules: Rules, base: Option<Url>, input: string, from: nat, m: Machine, m': Machine)
    requires Unmarked(base, input, from, m) && Enters(input, m, m') && Inv(base, input, Moved(m'))
    requires !Inherits(rules, base, input, First(input, from, IsMark))
    ensures Parts(rules, base, input, "", First(input, from, IsMark), Run(rules, base, input, Moved(m')))
  {
    FirstIs(input, from, IsMark, m.pos);
    if m'.state.Query? {
      QueryParts(rules, base, input, m.pos, Moved(m'));
    } else {
      FragmentParts(rules, base, input, m.pos, Moved(m'));
    }
  }

  lemma EndedParts(rules: Rules, base: Option<Url>, input: string, from: nat, m: Machine, url: Url)
    requires Unmarked(base, input, from, m) && m.pos == |input| && Bare(url, SchemeOf(base, input))
    requires !Inherits(rules, base, input, First(input, from, IsMark))
    ensures HasParts(rules, base, input, "", First(input, from, IsMark), url)
  {
    FirstIs(input, from, IsMark, |input|);
  }

  lemma {:induction false} LaterParts(rules: Rules, base: Option<Url>, input: string, from: nat, m: Machine)
    requires Inv(base, input, m) && Unmarked(base, input, from, m)
    requires !Inherits(rules, base, input, First(input, from, IsMark))
    ensures Parts(rules, base, input, "", First(input, from, IsMark), Run(rules, base, input, m))
    decreases 13 - Rank(m.state), |input| - m.pos
  {
    StepAdvances(rules, base, input, m);
    StepGoes(rules, base, input, m);
    var round := Step(rules, base, input, m);
    StaysUnmarked(base, input, from, m, round);
    if round.Again? {
      LaterParts(rules, base, input, from, round.m);
    } else if round.Onward? && Enters(input, m, round.m) {
      EnteredParts(rules, base, input, from, m, round.m);
    } else if round.Onward? && round.m.pos == |input| {
      EndedParts(rules, base, input, from, m, round.m.url);
    } else if round.Onward? {
      LaterParts(rules, base, input, from, Moved(round.m));
    }
  }

  // ---------------------------------------------------------------- at the start of the reference

  /** The machine at the start of a reference that is relative to the base. */
  ghost predicate AtRef(rules: Rules, base: Option<Url>, input: string, m: Machine) {
    && Relates(rules, base, input) && m.pos == Ref(input) && m.buffer == ""
    && m.url.query == None && m.url.fragment == None && NoMarks(input, 0, Ref(input))
  }

  /** Something stands there that is not a mark. */
  lemma NotInherited(rules: Rules, base: Option<Url>, input: string)
    requires Ref(input) < |input| && !IsMark(input[Ref(input)])
    ensures !Inherits(rules, base, input, First(input, 0, IsMark))
  {
  }

  lemma RefIsMark(rules: Rules, base: Option<Url>, input: string)
    requires NoMarks(input, 0, Ref(input)) && Relates(rules, base, input)
    requires Ref(input) < |input| ==> IsMark(input[Ref(input)])
    ensures First(input, 0, IsMark) == Ref(input)
    ensures Inherits(rules, base, input, Ref(input)) <==> Ref(input) < |input| ==> input[Ref(input)] == '#'
  {
    FirstIs(input, 0, IsMark, Ref(input));
  }

  lemma LaterFromRef(rules: Rules, base: Option<Url>, input: string, m: Machine)
    requires Inv(base, input, m) && Later(base, m.state) && Bare(m.url, SchemeOf(base, input))
    requires Ref(input) < |input| && !IsMark(input[Ref(input)]) && NoMarks(input, 0, Ref(input))
    requires m.pos <= |input| && NoMarks(input, Ref(input), m.pos)
    ensures Parts(rules, base, input, "", First(input, 0, IsMark), Run(rules, base, input, m))
  {
    NotInherited(rules, base, input);
    LaterParts(rules, base, input, 0, m);
  }

  lemma RelativeParts(rules: Rules, base: Url, input: string, m: Machine)
    requires Inv(Some(base), input, m) && m.state.Relative? && AtRef(rules, Some(base), input, m)
    ensures Parts(rules, Some(base), input, "", First(input, 0, IsMark), Run(rules, Some(base), input, m))
  {
    StepAdvances(rules, Some(base), input, m);
    var round := Step(rules, Some(base), input, m);
    if m.pos == |input| || IsMark(input[m.pos]) {
      RefIsMark(rules, Some(base), input);
      if m.pos < |input| && input[m.pos] == '?' {
        QueryParts(rules, Some(base), input, m.pos, Moved(round.m));
      } else if m.pos < |input| {
        FragmentParts(rules, Some(base), input, m.pos, Moved(round.m));
      }
    } else if round.Again? {
      LaterFromRef(rules, Some(base), input, round.m);
    } else if m.pos + 1 <= |input| {
      LaterFromRef(rules, Some(base), input, Moved(round.m));
    }
  }

  lemma FileParts(rules: Rules, base: Url, input: string, m: Machine)
    requires Inv(Some(base), input, m) && m.state.File? && base.scheme == "file" && AtRef(rules, Some(base), input, m)
    ensures Parts(rules, Some(base), input, "", First(input, 0, IsMark), Run(rules, Some(base), input, m))
  {
    StepAdvances(rules, Some(base), input, m);
    var round := Step(rules, Some(base), input, m);
    if m.pos == |input| || IsMark(input[m.pos]) {
      RefIsMark(rules, Some(base), input);
      if m.pos < |input| && input[m.pos] == '?' {
        QueryParts(rules, Some(base), input, m.pos, Moved(round.m));
      } else if m.pos < |input| {
        FragmentParts(rules, Some(base), input, m.pos, Moved(round.m));
      }
    } else if round.Again? {
      LaterFromRef(rules, Some(base), input, round.m);
    } else if m.pos + 1 <= |input| {
      LaterFromRef(rules, Some(base), input, Moved(round.m));
    }
  }

  lemma SpecialParts(rules: Rules, base: Url, input: string, m: Machine)
    requires Inv(Some(base), input, m) && m.state.SpecialRelativeOrAuthority? && AtRef(rules, Some(base), input, m)
    requires m.url.scheme == SchemeOf(Some(base), input)
    ensures Parts(rules, Some(base), input, "", First(input, 0, IsMark), Run(rules, Some(base), input, m))
  {
    StepAdvances(rules, Some(base), input, m);
    var round := Step(rules, Some(base), input, m);
    if round.Again? {
      RelativeParts(rules, base, input, round.m);
    } else {
      LaterFromRef(rules, Some(base), input, Moved(round.m));
    }
  }

  // ---------------------------------------------------------------- from the start

  /** The machine that looks at the input again without a scheme. */
  const NO_SCHEME := START.(state := NoScheme)

  lemma NoSchemeBegins(rules: Rules, base: Option<Url>, input: string)
    requires !HasScheme(input)
    ensures Run(rules, base, input, START) == Run(rules, base, input, NO_SCHEME)
  {
    var e := SchemeEnd(input);
    SchemeOn(rules, base, input, e);
    assert Step(rules, base, input, BehindScheme(input, e)) == Again(NO_SCHEME);
  }

  /** The machine behind a scheme that is special or file or has a slash behind it. */
  ghost function BehindColon(rules: Rules, base: Option<Url>, input: string): Machine
    requires HasScheme(input)
  {
    var e := SchemeEnd(input);
    var scheme := Lowered(input[..e]);
    var m := START.(pos := e + 1, url := NO_URL.(scheme := scheme));
    if scheme == "file" then m.(state := File)
    else if !rules.isSpecial(scheme) then m.(state := PathOrAuthority, pos := e + 2)
    else if base.Some? && base.value.scheme == scheme then m.(state := SpecialRelativeOrAuthority)
    else m.(state := SpecialAuthoritySlashes)
  }

  lemma ColonStep(rules: Rules, base: Option<Url>, input: string)
    requires HasScheme(input) && !Opaque(rules, input)
    ensures var next := BehindColon(rules, base, input);
      && 0 < next.pos <= |input|
      && Step(rules, base, input, BehindScheme(input, SchemeEnd(input))) == Onward(next.(pos := next.pos - 1))
  {
  }

  lemma SchemeBegins(rules: Rules, base: Option<Url>, input: string)
    requires HasScheme(input) && !Opaque(rules, input)
    ensures var next := BehindColon(rules, base, input);
      Inv(base, input, next) && Run(rules, base, input, START) == Run(rules, base, input, next)
  {
    SchemeOn(rules, base, input, SchemeEnd(input));
    ColonStep(rules, base, input);
    RunTo(rules, base, input, BehindScheme(input, SchemeEnd(input)), BehindColon(rules, base, input));
  }

  lemma NoSchemeParts(rules: Rules, base: Option<Url>, input: string)
    requires !HasScheme(input)
    ensures Parts(rules, base, input, "", First(input, 0, IsMark), Run(rules, base, input, NO_SCHEME))
  {
    StepAdvances(rules, base, input, NO_SCHEME);
    var round := Step(rules, base, input, NO_SCHEME);
    if round.Again? {
      if base.value.scheme == "file" {
        FileParts(rules, base.value, input, round.m);
      } else {
        RelativeParts(rules, base.value, input, round.m);
      }
    } else if round.Onward? {
      RefIsMark(rules, base, input);
      FragmentParts(rules, base, input, 0, Moved(round.m));
    }
  }

  // ---------------------------------------------------------------- file URLs without a file base

  predicate IsSlash(c: char) {
    c == '/' || c == '\\'
  }

  /** Text up to the second slash is skipped. */
  predicate Skips(base: Option<Url>, input: string) {
    HasScheme(input) && SchemeOf(base, input) == "file" && !IsFile(base)
  }

  /** From where on marks count: behind the second slash if text is skipped, and nowhere if there is none. */
  function MarksFrom(base: Option<Url>, input: string): (p: nat)
    ensures p <= |input|
  {
    if !Skips(base, input) then 0
    else
      var a := First(input, Ref(input), IsSlash);
      if a == |input| then a
      else
        var b := First(input, a + 1, IsSlash);
        if b == |input| then b else b + 1
  }

  /** The first mark that counts. */
  function MarkAt(base: Option<Url>, input: string): (p: nat)
    ensures p <= |input|
  {
    First(input, MarksFrom(base, input), IsMark)
  }

  ghost function Skipping(state: State, n: nat): Machine {
    Machine(state, n, "", false, false, NO_URL.(scheme := "file"))
  }

  function BehindSlash(state: State): State {
    if state.File? then FileSlash else FileHost
  }

  lemma SkipStep(rules: Rules, base: Option<Url>, input: string, state: State, n: nat)
    requires !IsFile(base) && (state.File? || state.FileSlash?) && n <= |input|
    ensures Step(rules, base, input, Skipping(state, n)) == Onward(
      Skipping(if n < |input| && IsSlash(input[n]) then BehindSlash(state) else state, n))
  {
  }

  lemma SkipAlong(rules: Rules, base: Option<Url>, input: string, state: State, n: nat)
    requires !IsFile(base) && (state.File? || state.FileSlash?) && n <= |input|
    ensures var a := First(input, n, IsSlash);
      && Inv(base, input, Skipping(state, n)) && Inv(base, input, Skipping(state, a))
      && Run(rules, base, input, Skipping(state, n)) == Run(rules, base, input, Skipping(state, a))
  {
    var a := First(input, n, IsSlash);
    var way: nat -> Machine := (k: nat) => Skipping(state, k);
    forall k: nat | n <= k < a ensures StepsOn(rules, base, input, way, k) { SkipStep(rules, base, input, state, k); }
    RunAlong(rules, base, input, way, n, a);
  }

  /** Without a slash all is skipped. */
  lemma SkipEnds(rules: Rules, base: Option<Url>, input: string, state: State, n: nat)
    requires !IsFile(base) && (state.File? || state.FileSlash?) && n <= |input| && First(input, n, IsSlash) == |input|
    ensures Inv(base, input, Skipping(state, n))
    ensures Run(rules, base, input, Skipping(state, n)) == Gives(NO_URL.(scheme := "file"), state)
  {
    SkipAlong(rules, base, input, state, n);
    SkipStep(rules, base, input, state, |input|);
  }

  lemma SkipOn(rules: Rules, base: Option<Url>, input: string, state: State, n: nat, a: nat)
    requires !IsFile(base) && (state.File? || state.FileSlash?) && n <= |input|
    requires a == First(input, n, IsSlash) < |input|
    ensures var next := Skipping(BehindSlash(state), a + 1);
      && Inv(base, input, Skipping(state, n)) && Inv(base, input, next)
      && Run(rules, base, input, Skipping(state, n)) == Run(rules, base, input, next)
  {
    SkipAlong(rules, base, input, state, n);
    SkipStep(rules, base, input, state, a);
    RunTo(rules, base, input, Skipping(state, a), Skipping(BehindSlash(state), a + 1));
  }

  lemma NeverRelates(rules: Rules, base: Option<Url>, input: string)
    requires Skips(base, input)
    ensures !Relates(rules, base, input)
  {
  }

  lemma BareParts(rules: Rules, base: Option<Url>, input: string)
    requires Skips(base, input)
    ensures HasParts(rules, base, input, "", |input|, NO_URL.(scheme := "file"))
  {
    NeverRelates(rules, base, input);
  }

  /** Behind the second slash. */
  lemma TailParts(rules: Rules, base: Option<Url>, input: string, b: nat)
    requires Skips(base, input) && b < |input| && MarksFrom(base, input) == b + 1
    requires Inv(base, input, Skipping(FileHost, b + 1))
    ensures Parts(rules, base, input, "", MarkAt(base, input), Run(rules, base, input, Skipping(FileHost, b + 1)))
  {
    NeverRelates(rules, base, input);
    LaterParts(rules, base, input, b + 1, Skipping(FileHost, b + 1));
  }

  /** Behind the first slash. */
  lemma SlashParts(rules: Rules, base: Option<Url>, input: string, a: nat)
    requires Skips(base, input) && a == First(input, Ref(input), IsSlash) < |input|
    requires Inv(base, input, Skipping(FileSlash, a + 1))
    ensures Parts(rules, base, input, "", MarkAt(base, input), Run(rules, base, input, Skipping(FileSlash, a + 1)))
  {
    var b := First(input, a + 1, IsSlash);
    if b < |input| {
      SkipOn(rules, base, input, FileSlash, a + 1, b);
      TailParts(rules, base, input, b);
    } else {
      SkipEnds(rules, base, input, FileSlash, a + 1);
      BareParts(rules, base, input);
    }
  }

  lemma SkipParts(rules: Rules, base: Option<Url>, input: string)
    requires Skips(base, input)
    ensures Inv(base, input, Skipping(File, Ref(input)))
    ensures Parts(rules, base, input, "", MarkAt(base, input), Run(rules, base, input, Skipping(File, Ref(input))))
  {
    var a := First(input, Ref(input), IsSlash);
    if a < |input| {
      SkipOn(rules, base, input, File, Ref(input), a);
      SlashParts(rules, base, input, a);
    } else {
      SkipEnds(rules, base, input, File, Ref(input));
      BareParts(rules, base, input);
    }
  }

  // ---------------------------------------------------------------- of every input

  lemma SchemeUnmarked(input: string)
    requires HasScheme(input)
    ensures NoMarks(input, 0, Ref(input))
  {
  }

  lemma SchemeParts(rules: Rules, base: Option<Url>, input: string)
    requires HasScheme(input) && !Opaque(rules, input) && !Skips(base, input)
    requires Inv(base, input, BehindColon(rules, base, input))
    ensures var m := BehindColon(rules, base, input);
      Parts(rules, base, input, "", First(input, 0, IsMark), Run(rules, base, input, m))
  {
    SchemeUnmarked(input);
    var m := BehindColon(rules, base, input);
    if m.state.File? {
      FileParts(rules, base.value, input, m);
    } else if m.state.SpecialRelativeOrAuthority? {
      SpecialParts(rules, base.value, input, m);
    } else {
      LaterParts(rules, base, input, 0, m);
    }
  }

  /** What is left in the buffer in front of a query or fragment. */
  ghost function KeptPath(rules: Rules, input: string): string {
    if Opaque(rules, input) then OpaquePath(rules, input) else ""
  }

  lemma OpaqueParts(rules: Rules, base: Option<Url>, input: string)
    requires Opaque(rules, input)
    ensures MarkAt(base, input) == PathEnd(input)
    ensures HasParts(rules, base, input, OpaquePath(rules, input), PathEnd(input), OpaqueUrl(rules, input))
  {
    SchemeUnmarked(input);
    FirstFrom(input, 0, Ref(input));
  }

  /** Scheme, query and fragment of every URL that the parser gives, for every input and base. */
  lemma ComponentsAre(rules: Rules, base: Option<Url>, input: string)
    ensures Parts(rules, base, input, KeptPath(rules, input), MarkAt(base, input), Run(rules, base, input, START))
  {
    if Opaque(rules, input) {
      OpaqueIs(rules, base, input);
      OpaqueParts(rules, base, input);
    } else if !HasScheme(input) {
      NoSchemeBegins(rules, base, input);
      NoSchemeParts(rules, base, input);
    } else {
      SchemeBegins(rules, base, input);
      if Skips(base, input) { SkipParts(rules, base, input); } else { SchemeParts(rules, base, input); }
    }
  }

  // ---------------------------------------------------------------- exactly when they are what the input says

  /** Query and fragment begin at the first mark of the input, with nothing in front of their texts. */
  ghost predicate Right(rules: Rules, base: Option<Url>, input: string, r: Outcome) {
    Parts(rules, base, input, "", First(input, 0, IsMark), r)
  }

  /** A path that is not empty stands before the query or fragment of a URL that cannot be a base. */
  ghost predicate PathKept(rules: Rules, input: string) {
    Opaque(rules, input) && PathEnd(input) < |input| && OpaquePath(rules, input) != ""
  }

  /** A mark stands in the text that is skipped. */
  predicate MarkSkipped(base: Option<Url>, input: string) {
    First(input, 0, IsMark) < MarksFrom(base, input)
  }

  lemma AllRight(rules: Rules, base: Option<Url>, input: string)
    requires !PathKept(rules, input) && !MarkSkipped(base, input)
    ensures Right(rules, base, input, Run(rules, base, input, START))
  {
    ComponentsAre(rules, base, input);
    FirstFrom(input, 0, MarksFrom(base, input));
    if Opaque(rules, input) { OpaqueParts(rules, base, input); }
  }

  /** Texts are taken as they are, and every host is one. */
  ghost predicate Literal(rules: Rules) {
    && (forall t :: rules.decode(t) == t)
    && (forall t, b :: rules.encodeQuery(t, b) == t)
    && (forall t, b :: rules.parseHost(t, b).Some?)
  }

  lemma LiteralText(rules: Rules, t: string, special: bool)
    requires Literal(rules)
    ensures rules.decode(rules.encodeQuery(t, special)) == t
  {
  }

  lemma LiteralQuery(rules: Rules, base: Option<Url>, input: string, kept: string, p: nat)
    requires Literal(rules) && p < |input| && input[p] == '?'
    ensures QueryFrom(rules, base, input, kept, p) == Some(kept + input[p + 1..First(input, p + 1, IsHash)])
  {
    var text := kept + input[p + 1..First(input, p + 1, IsHash)];
    LiteralText(rules, text, rules.isSpecial(SchemeOf(base, input)));
  }

  /** With a path in front the texts are longer. */
  lemma KeptDiffers(rules: Rules, base: Option<Url>, input: string, kept: string, p: nat, url: Url)
    requires Literal(rules) && kept != "" && p < |input| && HasParts(rules, base, input, kept, p, url)
    requires IsMark(input[p])
    ensures !HasParts(rules, base, input, "", p, url)
  {
    if input[p] == '?' {
      LiteralQuery(rules, base, input, kept, p);
      LiteralQuery(rules, base, input, "", p);
    } else {
      assert |kept + input[p + 1..]| > |"" + input[p + 1..]|;
    }
  }

  /** From a later mark on they are shorter. */
  lemma LaterDiffers(rules: Rules, base: Option<Url>, input: string, q: nat, p: nat, url: Url)
    requires Literal(rules) && q < p <= |input| && IsMark(input[q]) && (p < |input| ==> IsMark(input[p]))
    requires !Relates(rules, base, input) && HasParts(rules, base, input, "", p, url)
    ensures !HasParts(rules, base, input, "", q, url)
  {
    if p < |input| && input[p] == '?' { LiteralQuery(rules, base, input, "", p); }
    if input[q] == '?' {
      LiteralQuery(rules, base, input, "", q);
      if HasParts(rules, base, input, "", q, url) { SameFragment(rules, input, q, p); }
    } else {
      if p < |input| { FragmentLength(rules, input, p); }
      FragmentLength(rules, input, q);
    }
  }

  lemma FragmentLength(rules: Rules, input: string, p: nat)
    requires Literal(rules) && p < |input| && IsMark(input[p])
    ensures var f := FragmentFrom(rules, input, "", p);
      && (f.Some? ==> |f.value| < |input| - p)
      && (input[p] == '#' ==> f.Some? && |f.value| == |input| - p - 1)
  {
  }

  /** Behind two queries the same fragment begins at the same place. */
  lemma SameFragment(rules: Rules, input: string, q: nat, p: nat)
    requires Literal(rules) && q < p <= |input| && input[q] == '?' && (p < |input| ==> IsMark(input[p]))
    requires FragmentFrom(rules, input, "", q) == FragmentFrom(rules, input, "", p)
    ensures p < |input| && input[p] == '?' ==> First(input, q + 1, IsHash) == First(input, p + 1, IsHash)
  {
  }

  // ---------------------------------------------------------------- skipped marks are lost

  lemma {:induction false} TailGives(rules: Rules, base: Option<Url>, input: string, m: Machine)
    requires Literal(rules) && Inv(base, input, m) && FileTail(m.state) && Bare(m.url, m.url.scheme)
    ensures Run(rules, base, input, m).Gives?
    decreases 13 - Rank(m.state), |input| - m.pos
  {
    StepAdvances(rules, base, input, m);
    StepGoes(rules, base, input, m);
    var round := Step(rules, base, input, m);
    if round.Again? {
      TailGives(rules, base, input, round.m);
    } else if round.Onward? && round.m.state.Query? {
      QueryRuns(rules, base, input, Moved(round.m));
    } else if round.Onward? && round.m.state.Fragment? {
      FragmentRuns(rules, base, input, Moved(round.m));
    } else if round.Onward? && round.m.pos < |input| {
      TailGives(rules, base, input, Moved(round.m));
    }
  }

  lemma SlashGives(rules: Rules, base: Option<Url>, input: string, n: nat)
    requires Literal(rules) && !IsFile(base) && n <= |input| && Inv(base, input, Skipping(FileSlash, n))
    ensures Run(rules, base, input, Skipping(FileSlash, n)).Gives?
  {
    var b := First(input, n, IsSlash);
    if b < |input| {
      SkipOn(rules, base, input, FileSlash, n, b);
      TailGives(rules, base, input, Skipping(FileHost, b + 1));
    } else {
      SkipEnds(rules, base, input, FileSlash, n);
    }
  }

  lemma SkipGives(rules: Rules, base: Option<Url>, input: string)
    requires Literal(rules) && Skips(base, input)
    ensures Run(rules, base, input, START).Gives?
  {
    SchemeBegins(rules, base, input);
    var a := First(input, Ref(input), IsSlash);
    if a < |input| {
      SkipOn(rules, base, input, File, Ref(input), a);
      SlashGives(rules, base, input, a + 1);
    } else {
      SkipEnds(rules, base, input, File, Ref(input));
    }
  }

  lemma SkippedWrong(rules: Rules, base: Option<Url>, input: string)
    requires Literal(rules) && MarkSkipped(base, input)
    ensures !Right(rules, base, input, Run(rules, base, input, START))
  {
    ComponentsAre(rules, base, input);
    SkipGives(rules, base, input);
    NeverRelates(rules, base, input);
    var r := Run(rules, base, input, START);
    LaterDiffers(rules, base, input, First(input, 0, IsMark), MarkAt(base, input), r.url);
  }

  lemma KeptWrong(rules: Rules, base: Option<Url>, input: string)
    requires Literal(rules) && PathKept(rules, input)
    ensures !Right(rules, base, input, Run(rules, base, input, START))
  {
    OpaqueIs(rules, base, input);
    OpaqueParts(rules, base, input);
    KeptDiffers(rules, base, input, OpaquePath(rules, input), PathEnd(input), OpaqueUrl(rules, input));
  }

  ghost function Changed(rules: Rules, decode: string -> string, encodeQuery: (string, bool) -> string,
      parseHost: (string, bool) -> Option<string>): Rules
  {
    rules.(decode := decode, encodeQuery := encodeQuery, parseHost := parseHost)
  }

  ghost predicate RightFor(rules: Rules, base: Option<Url>, input: string, decode: string -> string,
      encodeQuery: (string, bool) -> string, parseHost: (string, bool) -> Option<string>)
  {
    var changed := Changed(rules, decode, encodeQuery, parseHost);
    Right(changed, base, input, Run(changed, base, input, START))
  }

  lemma {:induction false} SameEncoding(rules: Rules, changed: Rules, text: string)
    requires changed.encodeControl == rules.encodeControl
    ensures EncodeAll(changed, text) == EncodeAll(rules, text)
  {
    if text != "" { SameEncoding(rules, changed, text[..|text| - 1]); }
  }

  lemma ChangedPath(rules: Rules, changed: Rules, input: string)
    requires changed.encodeControl == rules.encodeControl && changed.isSpecial == rules.isSpecial
    ensures PathKept(changed, input) <==> PathKept(rules, input)
  {
    if HasScheme(input) { SameEncoding(rules, changed, input[SchemeEnd(input) + 1..PathEnd(input)]); }
  }

  /** However texts are encoded and decoded and hosts read, scheme, query and fragment are what the input says, exactly
      when no path of a URL that cannot be a base is in front of them and no mark is skipped. */
  lemma ComponentsExactly(rules: Rules, base: Option<Url>, input: string)
    ensures (forall decode, encodeQuery, parseHost :: RightFor(rules, base, input, decode, encodeQuery, parseHost))
      <==> !PathKept(rules, input) && !MarkSkipped(base, input)
  {
    if PathKept(rules, input) || MarkSkipped(base, input) {
      var decode, encodeQuery := (t: string) => t, (t: string, b: bool) => t;
      var parseHost := (t: string, b: bool) => Some(t);
      var changed := Changed(rules, decode, encodeQuery, parseHost);
      ChangedPath(rules, changed, input);
      if PathKept(rules, input) { KeptWrong(changed, base, input); } else { SkippedWrong(changed, base, input); }
      assert !RightFor(rules, base, input, decode, encodeQuery, parseHost);
    } else {
      forall decode, encodeQuery, parseHost ensures RightFor(rules, base, input, decode, encodeQuery, parseHost) {
        var changed := Changed(rules, decode, encodeQuery, parseHost);
        ChangedPath(rules, changed, input);
        AllRight(changed, base, input);
      }
    }
  }

  /** The URL of "file:?q#f" has neither query nor fragment. */
  lemma LostMarks(rules: Rules)
    ensures var r := Run(rules, None, "file:?q#f", START); r.Gives? && r.url.query == None && r.url.fragment == None
  {
    var input := "file:?q#f";
    FileScheme(input);
    ReadsFileScheme(rules, None, input);
    FirstIs(input, 5, IsSlash, 9);
    SkipEnds(rules, None, input, File, 5);
  }
}
