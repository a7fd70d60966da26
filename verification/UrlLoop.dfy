/** Why the state loop of the URL parser ends and its assertions hold. */
module UrlLoop {
  import opened Optional
  import opened UrlStates

  /** The states in an order that every change of state follows. */
  function Rank(s: State): (r: nat)
    ensures r <= 13
  {
    match s
    case SchemeStart => 0
    case Scheme => 1
    case NoScheme => 2
    case SpecialRelativeOrAuthority => 3
    case PathOrAuthority => 3
    case CannotBeABaseUrlPath => 3
    case SpecialAuthoritySlashes => 3
    case Relative => 4
    case File => 4
    case RelativeSlash => 5
    case FileSlash => 5
    case SpecialAuthorityIgnoreSlashes => 6
    case FileHost => 6
    case Authority => 7
    case Host => 8
    case Port => 9
    case PathStart => 10
    case Path => 11
    case Query => 12
    case Fragment => 13
  }

  /** What each state may rely on. */
  ghost predicate Inv(base: Option<Url>, input: string, m: Machine) {
    && 0 <= m.pos <= |input|
    && match m.state
       case SchemeStart => m.url.paths == [] && m.buffer == ""
       case Scheme => m.url.paths == [] && m.pos >= 1
       case NoScheme => m.buffer == ""
       case SpecialRelativeOrAuthority => base.Some? && m.pos >= 1 && m.buffer == ""
       case PathOrAuthority => m.pos >= 1 && m.buffer == ""
       case SpecialAuthoritySlashes => m.pos >= 1 && m.buffer == ""
       case SpecialAuthorityIgnoreSlashes => m.pos >= 1 && m.buffer == ""
       case Relative => base.Some? && m.buffer == ""
       case RelativeSlash => base.Some? && m.pos >= 1 && m.buffer == ""
       case Authority => m.pos >= |m.buffer| + 1
       case File => m.buffer == ""
       case FileSlash => m.buffer == ""
       case PathStart => m.buffer == ""
       case CannotBeABaseUrlPath => m.url.paths == [""]
       case Query => m.url.query == Some("")
       case _ => true
  }

  /** A base that is a file URL has a path. */
  predicate UsableBase(base: Option<Url>) {
    base.Some? && base.value.scheme == "file" ==> base.value.paths != []
  }

  function Moved(m: Machine): Machine {
    m.(pos := m.pos + 1)
  }

  /** What every round does: it keeps the invariant, and it either goes on to a later state or stays and moves on. */
  ghost predicate Advances(base: Option<Url>, input: string, m: Machine, r: Round) {
    match r
    case Failed => true
    case Stopped => m.state.FileSlash? && !UsableBase(base)
    case Again(m') => Rank(m'.state) > Rank(m.state) && Inv(base, input, m')
    case Onward(m') =>
      && 0 <= m'.pos <= |input|
      && (m'.state == m.state ==> m'.pos == m.pos)
      && (m'.state != m.state ==> Rank(m'.state) > Rank(m.state))
      && (m'.pos < |input| ==> Inv(base, input, Moved(m')))
  }

  lemma SchemeAdvances(rules: Rules, base: Option<Url>, input: string, m: Machine)
    requires Inv(base, input, m) && (m.state.SchemeStart? || m.state.Scheme? || m.state.NoScheme?)
    ensures Advances(base, input, m, SchemeRound(rules, base, input, m))
  {
    assert [] + [""] == [""];
  }

  lemma RelativeAdvances(rules: Rules, base: Url, input: string, m: Machine)
    requires Inv(Some(base), input, m) && m.state.Relative?
    ensures Advances(Some(base), input, m, RelativeRound(rules, base, input, m))
  {
  }

  lemma RelativeSlashAdvances(rules: Rules, base: Url, input: string, m: Machine)
    requires Inv(Some(base), input, m) && m.state.RelativeSlash?
    ensures Advances(Some(base), input, m, RelativeRound(rules, base, input, m))
  {
  }

  lemma SlashesAdvance(base: Option<Url>, input: string, m: Machine)
    requires Inv(base, input, m)
    requires m.state.SpecialRelativeOrAuthority? || m.state.PathOrAuthority? || m.state.SpecialAuthoritySlashes?
      || m.state.SpecialAuthorityIgnoreSlashes?
    ensures Advances(base, input, m, SlashesRound(input, m))
  {
  }

  lemma AuthorityAdvances(rules: Rules, base: Option<Url>, input: string, m: Machine)
    requires Inv(base, input, m) && m.state.Authority?
    ensures Advances(base, input, m, AuthorityRound(rules, input, m))
  {
  }

  lemma HostAdvances(rules: Rules, base: Option<Url>, input: string, m: Machine)
    requires Inv(base, input, m) && (m.state.Host? || m.state.Port?)
    ensures Advances(base, input, m, AuthorityRound(rules, input, m))
  {
  }

  lemma FileFromBaseAdvances(rules: Rules, base: Option<Url>, input: string, m: Machine)
    requires Inv(base, input, m) && m.state.File? && base.Some?
    requires m.pos < |input| ==> input[m.pos] != '/' && input[m.pos] != '\\'
    ensures Advances(base, input, m, FileFromBase(rules, base.value, input, m))
  {
  }

  lemma FileAdvances(rules: Rules, base: Option<Url>, input: string, m: Machine)
    requires Inv(base, input, m) && m.state.File?
    ensures Advances(base, input, m, FileRound(rules, base, input, m))
  {
    var c := Code(input, m.pos);
    if base.Some? && base.value.scheme == "file" && c != Some('/') && c != Some('\\') {
      FileFromBaseAdvances(rules, base, input, m);
    }
  }

  lemma FileSlashAdvances(rules: Rules, base: Option<Url>, input: string, m: Machine)
    requires Inv(base, input, m) && m.state.FileSlash?
    ensures Advances(base, input, m, FileRound(rules, base, input, m))
  {
  }

  lemma FileHostAdvances(rules: Rules, base: Option<Url>, input: string, m: Machine)
    requires Inv(base, input, m) && m.state.FileHost?
    ensures Advances(base, input, m, FileRound(rules, base, input, m))
  {
  }

  lemma PathStartAdvances(rules: Rules, base: Option<Url>, input: string, m: Machine)
    requires Inv(base, input, m) && m.state.PathStart?
    ensures Advances(base, input, m, PathRound(rules, input, m))
  {
  }

  lemma PathAdvances(rules: Rules, base: Option<Url>, input: string, m: Machine)
    requires Inv(base, input, m) && m.state.Path?
    ensures Advances(base, input, m, PathRound(rules, input, m))
  {
  }

  lemma OpaquePathAdvances(rules: Rules, base: Option<Url>, input: string, m: Machine)
    requires Inv(base, input, m) && m.state.CannotBeABaseUrlPath?
    ensures Advances(base, input, m, EndRound(rules, input, m))
  {
  }

  lemma EndAdvances(rules: Rules, base: Option<Url>, input: string, m: Machine)
    requires Inv(base, input, m) && (m.state.Query? || m.state.Fragment?)
    ensures Advances(base, input, m, EndRound(rules, input, m))
  {
  }

  lemma StepAdvances(rules: Rules, base: Option<Url>, input: string, m: Machine)
    requires Inv(base, input, m)
    ensures Advances(base, input, m, Step(rules, base, input, m))
  {
    match m.state
    case SchemeStart => SchemeAdvances(rules, base, input, m);
    case Scheme => SchemeAdvances(rules, base, input, m);
    case NoScheme => SchemeAdvances(rules, base, input, m);
    case Relative => RelativeAdvances(rules, base.value, input, m);
    case RelativeSlash => RelativeSlashAdvances(rules, base.value, input, m);
    case SpecialRelativeOrAuthority => SlashesAdvance(base, input, m);
    case PathOrAuthority => SlashesAdvance(base, input, m);
    case SpecialAuthoritySlashes => SlashesAdvance(base, input, m);
    case SpecialAuthorityIgnoreSlashes => SlashesAdvance(base, input, m);
    case Authority => AuthorityAdvances(rules, base, input, m);
    case Host => HostAdvances(rules, base, input, m);
    case Port => HostAdvances(rules, base, input, m);
    case File => FileAdvances(rules, base, input, m);
    case FileSlash => FileSlashAdvances(rules, base, input, m);
    case FileHost => FileHostAdvances(rules, base, input, m);
    case PathStart => PathStartAdvances(rules, base, input, m);
    case Path => PathAdvances(rules, base, input, m);
    case CannotBeABaseUrlPath => OpaquePathAdvances(rules, base, input, m);
    case Query => EndAdvances(rules, base, input, m);
    case Fragment => EndAdvances(rules, base, input, m);
  }

  /** The states in the order they were entered: each is later than the one before, so none is entered twice. */
  ghost predicate Climbs(visited: seq<State>) {
    && visited != [] && visited[0] == SchemeStart
    && forall i, j :: 0 <= i < j < |visited| ==> Rank(visited[i]) < Rank(visited[j])
  }

  lemma ClimbOn(visited: seq<State>, state: State)
    requires Climbs(visited) && Rank(visited[|visited| - 1]) < Rank(state)
    ensures Climbs(visited + [state])
  {
  }

  /** So many rounds are possible up to a position in a state. */
  ghost function Budget(rank: nat, pos: nat, n: nat): nat {
    if rank == 0 then pos else Budget(rank - 1, n, n) + 1 + pos
  }

  lemma {:induction false} BudgetGrows(rank: nat, rank': nat, pos: nat, pos': nat, n: nat)
    requires pos <= n && rank < rank'
    ensures Budget(rank, pos, n) + 1 <= Budget(rank', pos', n)
  {
    if rank < rank' - 1 { BudgetGrows(rank, rank' - 1, pos, n, n); } else { BudgetMoves(rank, pos, n, n); }
  }

  lemma BudgetMoves(rank: nat, pos: nat, pos': nat, n: nat)
    requires pos <= pos'
    ensures Budget(rank, pos', n) == Budget(rank, pos, n) + (pos' - pos)
  {
  }

  lemma {:induction false} BudgetIs(rank: nat, n: nat)
    ensures Budget(rank, n, n) + 1 == (rank + 1) * (n + 1)
  {
    if rank > 0 {
      BudgetIs(rank - 1, n);
      assert (rank + 1) * (n + 1) == rank * (n + 1) + (n + 1);
    }
  }

  /** Wherever the loop ends, it has made at most that many rounds. */
  lemma BudgetAll(rank: nat, pos: nat, n: nat)
    requires rank <= 13 && pos <= n
    ensures Budget(rank, pos, n) + 1 <= 14 * (n + 1)
  {
    BudgetMoves(rank, pos, n, n);
    BudgetIs(13, n);
    if rank < 13 { BudgetGrows(rank, 13, n, n, n); }
  }

  // ---------------------------------------------------------------- the run

  const START := Machine(SchemeStart, 0, "", false, false, NO_URL)

  /** The rounds from a machine on. */
  ghost function Run(rules: Rules, base: Option<Url>, input: string, m: Machine): Outcome
    requires Inv(base, input, m)
    decreases 13 - Rank(m.state), |input| - m.pos
  {
    StepAdvances(rules, base, input, m);
    match Step(rules, base, input, m)
    case Failed => Fails
    case Stopped => Stops
    case Again(m') => Run(rules, base, input, m')
    case Onward(m') => if m'.pos == |input| then Gives(m'.url, m'.state) else Run(rules, base, input, Moved(m'))
  }

  /** The loop. No state is entered twice, and the number of rounds is linear in the input. */
  method Parse(rules: Rules, base: Option<Url>, input: string)
    returns (r: Outcome, ghost visited: seq<State>, ghost rounds: nat)
    ensures r == Run(rules, base, input, START)
    ensures Climbs(visited) && rounds <= 14 * (|input| + 1)
  {
    var m := START;
    visited, rounds := [SchemeStart], 0;
    while true
      invariant Inv(base, input, m) && Climbs(visited) && visited[|visited| - 1] == m.state
      invariant rounds <= Budget(Rank(m.state), m.pos, |input|)
      invariant Run(rules, base, input, m) == Run(rules, base, input, START)
      decreases 13 - Rank(m.state), |input| - m.pos
    {
      StepAdvances(rules, base, input, m);
      BudgetAll(Rank(m.state), m.pos, |input|);
      var round := Step(rules, base, input, m);
      rounds := rounds + 1;
      if round.Failed? {
        return Fails, visited, rounds;
      }
      if round.Stopped? {
        return Stops, visited, rounds;
      }
      if round.m.state != m.state {
        ClimbOn(visited, round.m.state);
        visited := visited + [round.m.state];
        BudgetGrows(Rank(m.state), Rank(round.m.state), m.pos, round.m.pos, |input|);
      }
      if round.Onward? && round.m.pos == |input| {
        return Gives(round.m.url, round.m.state), visited, rounds;
      }
      if round.Onward? {
        BudgetMoves(Rank(round.m.state), round.m.pos, round.m.pos + 1, |input|);
        m := Moved(round.m);
      } else {
        m := round.m;
      }
    }
  }

  // ---------------------------------------------------------------- when an assertion fails

  lemma {:induction false} UsableNeverStops(rules: Rules, base: Option<Url>, input: string, m: Machine)
    requires Inv(base, input, m) && UsableBase(base)
    ensures Run(rules, base, input, m) != Stops
    decreases 13 - Rank(m.state), |input| - m.pos
  {
    StepAdvances(rules, base, input, m);
    var round := Step(rules, base, input, m);
    if round.Again? {
      UsableNeverStops(rules, base, input, round.m);
    } else if round.Onward? && round.m.pos < |input| {
      UsableNeverStops(rules, base, input, Moved(round.m));
    }
  }

  /** One round, for a run that is followed by hand. */
  lemma RunOn(rules: Rules, base: Option<Url>, input: string, m: Machine)
    requires Inv(base, input, m) && m.pos < |input| && Step(rules, base, input, m).Onward?
    ensures var m' := Step(rules, base, input, m).m;
      m'.pos < |input| ==>
        Inv(base, input, Moved(m')) && Run(rules, base, input, m) == Run(rules, base, input, Moved(m'))
  {
    StepAdvances(rules, base, input, m);
  }

  lemma RunTo(rules: Rules, base: Option<Url>, input: string, m: Machine, next: Machine)
    requires Inv(base, input, m) && next.pos > 0 && next.pos <= |input|
    requires Step(rules, base, input, m) == Onward(next.(pos := next.pos - 1))
    ensures Inv(base, input, next) && Run(rules, base, input, m) == Run(rules, base, input, next)
  {
    StepAdvances(rules, base, input, m);
    assert Moved(next.(pos := next.pos - 1)) == next;
  }

  ghost predicate StepsOn(rules: Rules, base: Option<Url>, input: string, way: nat -> Machine, n: nat) {
    && 0 <= way(n).pos <= |input| && 0 < way(n + 1).pos <= |input|
    && Step(rules, base, input, way(n)) == Onward(way(n + 1).(pos := way(n + 1).pos - 1))
  }

  /** Rounds that go on one after the other. */
  lemma {:induction false} RunAlong(rules: Rules, base: Option<Url>, input: string, way: nat -> Machine, a: nat, b: nat)
    requires a <= b && Inv(base, input, way(a))
    requires forall n: nat :: a <= n < b ==> StepsOn(rules, base, input, way, n)
    ensures Inv(base, input, way(b)) && Run(rules, base, input, way(a)) == Run(rules, base, input, way(b))
  {
    if a < b {
      RunAlong(rules, base, input, way, a, b - 1);
      assert StepsOn(rules, base, input, way, b - 1);
      RunTo(rules, base, input, way(b - 1), way(b));
    }
  }

  /** The machine behind the first n code points of a scheme. */
  ghost function BehindScheme(input: string, n: nat): Machine
    requires n <= |input|
  {
    if n == 0 then START else START.(state := Scheme, pos := n, buffer := Lowered(input[..n]))
  }

  lemma {:induction false} SchemeOn(rules: Rules, base: Option<Url>, input: string, n: nat)
    requires n <= SchemeEnd(input)
    ensures var m := BehindScheme(input, n);
      Inv(base, input, m) && Run(rules, base, input, m) == Run(rules, base, input, START)
  {
    if n > 0 {
      SchemeOn(rules, base, input, n - 1);
      assert input[..n] == input[..n - 1] + [input[n - 1]];
      RunOn(rules, base, input, BehindScheme(input, n - 1));
    }
  }

  /** The machine behind "file:". */
  const FILE := Machine(File, 5, "", false, false, NO_URL.(scheme := "file"))

  lemma ReadsFileScheme(rules: Rules, base: Option<Url>, input: string)
    requires "file:" <= input
    ensures Inv(base, input, FILE) && Run(rules, base, input, START) == Run(rules, base, input, FILE)
  {
    FileScheme(input);
    SchemeOn(rules, base, input, 4);
    RunOn(rules, base, input, BehindScheme(input, 4));
  }

  lemma FileScheme(input: string)
    requires "file:" <= input
    ensures SchemeEnd(input) == 4 && Lowered(input[..4]) == "file"
  {
    FirstIs(input, 1, NotInScheme, 4);
    assert input[..4] == "file";
    LoweredSmall("file");
  }

  /** With a file URL without a path as the base, the seventh round on "file:/x" asks for its first path. */
  lemma PathlessBaseStops(rules: Rules, base: Option<Url>)
    requires !UsableBase(base) && !rules.startsWithDriveLetter("x")
    ensures Run(rules, base, "file:/x", START) == Stops
  {
    var input := "file:/x";
    ReadsFileScheme(rules, base, input);
    RunOn(rules, base, input, FILE);
    assert input[6..] == "x";
    assert Step(rules, base, input, FILE.(state := FileSlash, pos := 6)) == Stopped;
  }

  /** The parser makes such a base itself. */
  lemma PathlessBaseMade(rules: Rules)
    ensures var r := Run(rules, None, "file:", START); r.Gives? && !UsableBase(Some(r.url))
  {
    ReadsFileScheme(rules, None, "file:");
  }

  /** The assertions hold for every input exactly with a base that is usable. */
  lemma AssertionsHold(rules: Rules, base: Option<Url>)
    requires !rules.startsWithDriveLetter("x")
    ensures (forall input: string :: Run(rules, base, input, START) != Stops) <==> UsableBase(base)
  {
    if UsableBase(base) {
      forall input: string
        ensures Run(rules, base, input, START) != Stops { UsableNeverStops(rules, base, input, START); }
    } else {
      PathlessBaseStops(rules, base);
    }
  }
}
