/** Strong references made from weak ones (base/Weakable.h, base/WeakPtr.h, base/RefCounted.h): one weakable object, its
    link, and any number of threads that take one atomic step at a time. A thread stands for one reference at a time;
    the link itself is kept alive by the weak pointers, as RefPtrProtocol shows. */
module WeakLinkProtocol {
  import opened Tallies

  type Thread = nat

  datatype Place =
    | Idle
    | Owner
    // Weakable::make_weak_ptr, called by an owner: try_ref, install the link, unref
    | WeakLoad
    | WeakSwap(expected: nat)
    | WeakInstall
    | WeakDrop
    // WeakLink::strong_ref: enter, read the pointer, try_ref, leave
    | Enter
    | ReadPtr
    | TryLoad
    | TrySwap(expected: nat)
    | Leave(got: bool)
    // RefCounted::unref; the last owner destroys
    | Dropping
    | Dying
    | Revoke
    | Waiting(current: nat)
    | Free

  /** `consumers` and `revoked` are the two parts of m_consumers, `cleared` says that m_ptr is null, `link` that m_link
      has been installed. `gone` is set when the destructor has done with the link; `frees` counts deletes. */
  datatype State = State(
    count: nat,
    link: bool,
    consumers: nat,
    revoked: bool,
    cleared: bool,
    gone: bool,
    frees: nat,
    threads: map<Thread, Place>,
    fault: bool)

  datatype Step = Share(with: Thread) | StartWeak | StartStrong | StartDrop | AskWeak | Go

  function MoveTo(s: State, t: Thread, p: Place): State {
    s.(threads := s.threads[t := p])
  }

  /** Reading or writing the count when the destructor has been through is a fault. */
  function Touch(s: State, s': State): State {
    if s.gone || s.frees > 0 then s.(fault := true) else s'
  }

  /** The loop of try_ref with `expected` freshly read. */
  function TryRef(expected: nat): Place {
    if expected == 0 then Leave(false) else TrySwap(expected)
  }

  /** strong_ref, one atomic operation at a time. */
  function GoOnStrong(s: State, t: Thread): State
    requires t in s.threads
  {
    match s.threads[t]
    case Enter => MoveTo(s, t, if s.revoked then Leave(false) else ReadPtr).(consumers := s.consumers + 1)
    case ReadPtr => MoveTo(s, t, if s.cleared then Leave(false) else TryLoad)
    case TryLoad => Touch(s, MoveTo(s, t, TryRef(s.count)))
    case TrySwap(expected) =>
      Touch(s, if s.count == expected then MoveTo(s, t, Leave(true)).(count := s.count + 1)
               else MoveTo(s, t, TryRef(s.count)))
    case Leave(got) =>
      if s.consumers == 0 then s.(fault := true)
      else MoveTo(s, t, if got then Owner else Idle).(consumers := s.consumers - 1)
    case _ => s
  }

  /** make_weak_ptr; its own unref must not be the last one. */
  function GoOnWeak(s: State, t: Thread): State
    requires t in s.threads
  {
    match s.threads[t]
    case WeakLoad => Touch(s, MoveTo(s, t, if s.count == 0 then Owner else WeakSwap(s.count)))
    case WeakSwap(expected) =>
      Touch(s, if s.count == expected then MoveTo(s, t, WeakInstall).(count := s.count + 1)
               else MoveTo(s, t, if s.count == 0 then Owner else WeakSwap(s.count)))
    case WeakInstall => Touch(s, MoveTo(s, t, WeakDrop).(link := true))
    case WeakDrop => Touch(s, if s.count <= 1 then s.(fault := true) else MoveTo(s, t, Owner).(count := s.count - 1))
    case _ => s
  }

  /** unref, and the destructor when the count reached zero. */
  function GoOnDrop(s: State, t: Thread): State
    requires t in s.threads
  {
    match s.threads[t]
    case Dropping =>
      Touch(s, if s.count == 0 then s.(fault := true)
               else MoveTo(s, t, if s.count == 1 then Dying else Idle).(count := s.count - 1))
    case Dying => if s.link then MoveTo(s, t, Revoke) else MoveTo(s, t, Free).(gone := true)
    case Revoke => if s.revoked then s.(fault := true) else MoveTo(s, t, Waiting(s.consumers)).(revoked := true)
    case Waiting(current) =>
      if current > 0 then MoveTo(s, t, Waiting(s.consumers))
      else MoveTo(s, t, Free).(cleared := true, gone := true)
    case Free => if s.count != 0 || s.frees > 0 then s.(fault := true) else MoveTo(s, t, Idle).(frees := s.frees + 1)
    case _ => s
  }

  function GoOn(s: State, t: Thread): State
    requires t in s.threads
  {
    var p := s.threads[t];
    if Inside(p) || p.Enter? then GoOnStrong(s, t)
    else if p.WeakLoad? || p.WeakSwap? || p.WeakInstall? || p.WeakDrop? then GoOnWeak(s, t)
    else GoOnDrop(s, t)
  }

  /** AskWeak is make_weak_ptr called while the object is being destroyed: its try_ref must fail. */
  function Take(s: State, t: Thread, step: Step): State {
    if t !in s.threads then s else
    match (s.threads[t], step)
    case (_, Go) => GoOn(s, t)
    case (Owner, Share(u)) =>
      if u !in s.threads || !s.threads[u].Idle? then s
      else Touch(s, if s.count == 0 then s.(fault := true) else MoveTo(s, u, Owner).(count := s.count + 1))
    case (Owner, StartWeak) => MoveTo(s, t, WeakLoad)
    case (Owner, StartDrop) => MoveTo(s, t, Dropping)
    case (Idle, StartStrong) => if s.link then MoveTo(s, t, Enter) else s
    case (Dying, AskWeak) => if s.count != 0 then s.(fault := true) else s
    case _ => s
  }

  // ---------------------------------------------------------------- the invariant

  predicate Owns(p: Place) {
    p.Owner? || p.WeakLoad? || p.WeakSwap? || p.WeakInstall? || p.WeakDrop? || p == Leave(true) || p.Dropping?
  }

  predicate OwnsTwo(p: Place) {
    p.WeakInstall? || p.WeakDrop?
  }

  /** Between the fetch_add and the fetch_sub of strong_ref. */
  predicate Inside(p: Place) {
    Risky(p) || p.Leave?
  }

  /** Inside, and let in before the link was revoked. */
  predicate Risky(p: Place) {
    p.ReadPtr? || p.TryLoad? || p.TrySwap?
  }

  predicate Destroys(p: Place) {
    p.Dying? || p.Revoke? || p.Waiting? || p.Free?
  }

  ghost predicate CountOk(s: State) {
    s.count == Tally(s.threads, Owns) + Tally(s.threads, OwnsTwo)
  }

  ghost predicate ConsumersOk(s: State) {
    s.consumers == Tally(s.threads, Inside)
  }

  ghost predicate DestroyedOnce(s: State) {
    Tally(s.threads, Destroys) + s.frees == One(s.count == 0)
  }

  ghost predicate Orderly(s: State) {
    && (s.revoked || s.gone || s.frees > 0 ==> s.count == 0)
    && (s.gone ==> Tally(s.threads, Risky) == 0)
    && (s.gone && s.link ==> s.revoked)
    && (s.frees > 0 || s.cleared ==> s.gone)
    && (!s.link ==> s.consumers == 0)
  }

  ghost predicate PlaceOk(s: State, p: Place) {
    match p
    case WeakSwap(expected) => expected > 0
    case TrySwap(expected) => expected > 0
    case Enter => s.link
    case Dying => !s.revoked && !s.gone
    case Revoke => s.link && !s.revoked && !s.gone
    case Waiting(current) => s.revoked && !s.gone && (current == 0 ==> Tally(s.threads, Risky) == 0)
    case Free => s.gone
    case _ => true
  }

  ghost predicate Inv(s: State) {
    && !s.fault
    && CountOk(s) && ConsumersOk(s) && DestroyedOnce(s) && Orderly(s)
    && (forall t {:trigger s.threads[t]} :: t in s.threads ==> PlaceOk(s, s.threads[t]))
  }

  // ---------------------------------------------------------------- every step keeps it

  ghost function Owned(p: Place): nat {
    One(Owns(p)) + One(OwnsTwo(p))
  }

  lemma MoveTallies(m: map<Thread, Place>, w: Thread, p: Place)
    requires w in m
    ensures var m' := m[w := p];
      && Tally(m', Owns) + Tally(m', OwnsTwo) == Tally(m, Owns) + Tally(m, OwnsTwo) - Owned(m[w]) + Owned(p)
      && Tally(m', Inside) == Tally(m, Inside) - One(Inside(m[w])) + One(Inside(p))
      && Tally(m', Destroys) == Tally(m, Destroys) - One(Destroys(m[w])) + One(Destroys(p))
      && Tally(m', Risky) == Tally(m, Risky) - One(Risky(m[w])) + One(Risky(p))
  {
    TallyUpdate(m, w, p, Owns);
    TallyUpdate(m, w, p, OwnsTwo);
    TallyUpdate(m, w, p, Inside);
    TallyUpdate(m, w, p, Destroys);
    TallyUpdate(m, w, p, Risky);
  }

  lemma RiskyInside(m: map<Thread, Place>)
    ensures Tally(m, Risky) <= Tally(m, Inside)
  {
    SubsetSize(Where(m, Risky), Where(m, Inside));
  }

  lemma OneDestroyer(s: State, t: Thread, u: Thread)
    requires DestroyedOnce(s) && t in s.threads && u in s.threads
    requires Destroys(s.threads[t]) && Destroys(s.threads[u])
    ensures t == u
  {
    var destroyers := Where(s.threads, Destroys);
    RemoveOne(destroyers, t);
    RemoveOne(destroyers - {t}, u);
  }

  /** The change of one thread's place goes with the change of the shared words. */
  ghost predicate Accounted(s: State, s': State, q: Place, p: Place) {
    && s'.count + Owned(q) == s.count + Owned(p)
    && s'.consumers + One(Inside(q)) == s.consumers + One(Inside(p))
    && One(Destroys(p)) + s'.frees + One(s.count == 0) == One(Destroys(q)) + s.frees + One(s'.count == 0)
    && (Risky(p) && !Risky(q) ==> !s.revoked && !s.gone)
    && (s.link ==> s'.link)
    && (s'.revoked != s.revoked || s'.gone != s.gone ==> Destroys(q))
  }

  lemma OthersOk(s: State, s': State, w: Thread, u: Thread)
    requires Inv(s) && w in s.threads && w in s'.threads && s'.threads == s.threads[w := s'.threads[w]]
    requires Accounted(s, s', s.threads[w], s'.threads[w])
    requires u in s.threads && u != w
    ensures PlaceOk(s', s.threads[u])
  {
    MoveTallies(s.threads, w, s'.threads[w]);
    assert PlaceOk(s, s.threads[u]);
    if Destroys(s.threads[u]) && Destroys(s.threads[w]) { OneDestroyer(s, u, w); }
  }

  lemma InvFrom(s: State, s': State, w: Thread)
    requires Inv(s) && w in s.threads && w in s'.threads && s'.threads == s.threads[w := s'.threads[w]]
    requires !s'.fault && Accounted(s, s', s.threads[w], s'.threads[w])
    requires Orderly(s') && PlaceOk(s', s'.threads[w])
    ensures Inv(s')
  {
    MoveTallies(s.threads, w, s'.threads[w]);
    forall u | u in s'.threads ensures PlaceOk(s', s'.threads[u]) {
      if u != w { OthersOk(s, s', w, u); }
    }
  }

  /** Whoever holds a reference, whoever was let in and whoever destroys: what their place says about the state. */
  lemma PlaceFacts(s: State, t: Thread)
    requires Inv(s) && t in s.threads
    ensures PlaceOk(s, s.threads[t])
    ensures s.count >= Owned(s.threads[t]) && s.consumers >= One(Inside(s.threads[t]))
    ensures Destroys(s.threads[t]) ==> s.count == 0 && s.frees == 0
    ensures Risky(s.threads[t]) ==> !s.gone
    ensures Tally(s.threads, Risky) <= s.consumers
  {
    var p := s.threads[t];
    RiskyInside(s.threads);
    if Owns(p) { TallyPositive(s.threads, t, Owns); }
    if OwnsTwo(p) { TallyPositive(s.threads, t, OwnsTwo); }
    if Inside(p) { TallyPositive(s.threads, t, Inside); }
    if Risky(p) { TallyPositive(s.threads, t, Risky); }
    if Destroys(p) { TallyPositive(s.threads, t, Destroys); }
  }

  lemma EnterKeepsInv(s: State, t: Thread)
    requires Inv(s) && t in s.threads && (s.threads[t].Enter? || s.threads[t].ReadPtr?)
    ensures Inv(GoOnStrong(s, t))
  {
    PlaceFacts(s, t);
    var s' := GoOnStrong(s, t);
    MoveTallies(s.threads, t, s'.threads[t]);
    InvFrom(s, s', t);
  }

  lemma TryRefKeepsInv(s: State, t: Thread)
    requires Inv(s) && t in s.threads && (s.threads[t].TryLoad? || s.threads[t].TrySwap?)
    ensures Inv(GoOnStrong(s, t))
  {
    PlaceFacts(s, t);
    var s' := GoOnStrong(s, t);
    MoveTallies(s.threads, t, s'.threads[t]);
    InvFrom(s, s', t);
  }

  lemma LeaveKeepsInv(s: State, t: Thread)
    requires Inv(s) && t in s.threads && s.threads[t].Leave?
    ensures Inv(GoOnStrong(s, t))
  {
    PlaceFacts(s, t);
    var s' := GoOnStrong(s, t);
    MoveTallies(s.threads, t, s'.threads[t]);
    InvFrom(s, s', t);
  }

  lemma WeakKeepsInv(s: State, t: Thread)
    requires Inv(s) && t in s.threads && Owns(s.threads[t])
    ensures Inv(GoOnWeak(s, t))
  {
    PlaceFacts(s, t);
    var s' := GoOnWeak(s, t);
    assert s.threads == s.threads[t := s.threads[t]];
    MoveTallies(s.threads, t, s'.threads[t]);
    InvFrom(s, s', t);
  }

  lemma DropKeepsInv(s: State, t: Thread)
    requires Inv(s) && t in s.threads && (s.threads[t].Dropping? || s.threads[t].Dying?)
    ensures Inv(GoOnDrop(s, t))
  {
    PlaceFacts(s, t);
    var s' := GoOnDrop(s, t);
    MoveTallies(s.threads, t, s'.threads[t]);
    InvFrom(s, s', t);
  }

  lemma RevokeKeepsInv(s: State, t: Thread)
    requires Inv(s) && t in s.threads && (s.threads[t].Revoke? || s.threads[t].Waiting? || s.threads[t].Free?)
    ensures Inv(GoOnDrop(s, t))
  {
    PlaceFacts(s, t);
    var s' := GoOnDrop(s, t);
    MoveTallies(s.threads, t, s'.threads[t]);
    InvFrom(s, s', t);
  }

  lemma GoOnKeepsInv(s: State, t: Thread)
    requires Inv(s) && t in s.threads
    ensures Inv(GoOn(s, t))
  {
    match s.threads[t]
    case Enter => EnterKeepsInv(s, t);
    case ReadPtr => EnterKeepsInv(s, t);
    case TryLoad => TryRefKeepsInv(s, t);
    case TrySwap(_) => TryRefKeepsInv(s, t);
    case Leave(_) => LeaveKeepsInv(s, t);
    case WeakLoad => WeakKeepsInv(s, t);
    case WeakSwap(_) => WeakKeepsInv(s, t);
    case WeakInstall => WeakKeepsInv(s, t);
    case WeakDrop => WeakKeepsInv(s, t);
    case Dropping => DropKeepsInv(s, t);
    case Dying => DropKeepsInv(s, t);
    case Revoke => RevokeKeepsInv(s, t);
    case Waiting(_) => RevokeKeepsInv(s, t);
    case Free => RevokeKeepsInv(s, t);
    case _ =>
  }

  lemma ShareKeepsInv(s: State, t: Thread, u: Thread)
    requires Inv(s) && t in s.threads && u in s.threads && s.threads[t].Owner? && s.threads[u].Idle?
    ensures Inv(Take(s, t, Share(u)))
  {
    PlaceFacts(s, t);
    var s' := Take(s, t, Share(u));
    MoveTallies(s.threads, u, Owner);
    InvFrom(s, s', u);
  }

  lemma BeginKeepsInv(s: State, t: Thread, p: Place)
    requires Inv(s) && t in s.threads
    requires (s.threads[t].Owner? && (p.WeakLoad? || p.Dropping?)) || (s.threads[t].Idle? && p.Enter? && s.link)
    ensures Inv(MoveTo(s, t, p))
  {
    MoveTallies(s.threads, t, p);
    InvFrom(s, MoveTo(s, t, p), t);
  }

  lemma StepKeepsInv(s: State, t: Thread, step: Step)
    requires Inv(s)
    ensures Inv(Take(s, t, step))
  {
    if t in s.threads {
      PlaceFacts(s, t);
      match (s.threads[t], step)
      case (_, Go) => GoOnKeepsInv(s, t);
      case (Owner, Share(u)) => if u in s.threads && s.threads[u].Idle? { ShareKeepsInv(s, t, u); }
      case (Owner, StartWeak) => BeginKeepsInv(s, t, WeakLoad);
      case (Owner, StartDrop) => BeginKeepsInv(s, t, Dropping);
      case (Idle, StartStrong) => if s.link { BeginKeepsInv(s, t, Enter); }
      case _ =>
    }
  }

  // ---------------------------------------------------------------- whole runs

  /** A new object: its creator has the one reference; nobody else knows it and there is no link. */
  ghost predicate Start(s: State, creator: Thread) {
    && s.count == 1 && !s.link && s.consumers == 0 && !s.revoked && !s.cleared && !s.gone && s.frees == 0 && !s.fault
    && creator in s.threads && s.threads[creator] == Owner
    && forall t :: t in s.threads && t != creator ==> s.threads[t] == Idle
  }

  lemma StartInv(s: State, creator: Thread)
    requires Start(s, creator)
    ensures Inv(s)
  {
    var idle := s.threads[creator := Idle];
    assert s.threads == idle[creator := Owner];
    TallyNone(idle, Owns);
    TallyNone(idle, OwnsTwo);
    TallyNone(idle, Inside);
    TallyNone(idle, Destroys);
    TallyNone(idle, Risky);
    MoveTallies(idle, creator, Owner);
  }

  function Run(s: State, steps: seq<(Thread, Step)>): State
    decreases |steps|
  {
    if steps == [] then s else Run(Take(s, steps[0].0, steps[0].1), steps[1..])
  }

  lemma {:induction false} RunKeepsInv(s: State, steps: seq<(Thread, Step)>)
    requires Inv(s)
    ensures Inv(Run(s, steps))
    decreases |steps|
  {
    if steps != [] {
      StepKeepsInv(s, steps[0].0, steps[0].1);
      RunKeepsInv(Take(s, steps[0].0, steps[0].1), steps[1..]);
    }
  }

  /** Places whose next step reads or writes the object's count. */
  predicate Touches(p: Place) {
    (Owns(p) && p != Leave(true)) || p.TryLoad? || p.TrySwap?
  }

  /** In every interleaving: no VERIFY fails, nobody touches the count once the destructor's revoke has returned, the
      count is the references held, and the object is deleted exactly once after the count reached zero. */
  lemma EveryInterleaving(s: State, creator: Thread, steps: seq<(Thread, Step)>)
    requires Start(s, creator)
    ensures var e := Run(s, steps);
      && !e.fault
      && e.count == Tally(e.threads, Owns) + Tally(e.threads, OwnsTwo)
      && (forall t :: e.gone && t in e.threads ==> !Touches(e.threads[t]))
      && e.frees <= 1
      && (e.count > 0 ==> e.frees == 0)
      && (e.count == 0 && (forall t :: t in e.threads ==> !Destroys(e.threads[t])) ==> e.frees == 1)
  {
    StartInv(s, creator);
    RunKeepsInv(s, steps);
    var e := Run(s, steps);
    forall t | e.gone && t in e.threads ensures !Touches(e.threads[t]) { PlaceFacts(e, t); }
    if forall t :: t in e.threads ==> !Destroys(e.threads[t]) { TallyNone(e.threads, Destroys); }
  }

  /** A count that reached zero never rises: no weak pointer brings the object back, so every strong_ref that has not
      got its reference by then returns null. */
  lemma {:induction false} NoResurrection(s: State, steps: seq<(Thread, Step)>)
    requires Inv(s) && s.count == 0
    ensures var e := Run(s, steps); e.count == 0 && forall t :: t in e.threads ==> !Owns(e.threads[t])
    decreases |steps|
  {
    if steps == [] {
      forall t | t in s.threads ensures !Owns(s.threads[t]) { PlaceFacts(s, t); }
    } else {
      var (t, step) := steps[0];
      StepKeepsInv(s, t, step);
      ZeroStays(s, t, step);
      NoResurrection(Take(s, t, step), steps[1..]);
    }
  }

  lemma ZeroStays(s: State, t: Thread, step: Step)
    requires Inv(s) && s.count == 0
    ensures Take(s, t, step).count == 0
  {
    if t in s.threads { PlaceFacts(s, t); }
  }

  /** The wait loop of revoke ends as soon as nobody is inside strong_ref. */
  lemma RevokeReturns(s: State, t: Thread)
    requires Inv(s) && t in s.threads && s.threads[t].Waiting?
    requires forall u :: u in s.threads ==> !Inside(s.threads[u])
    ensures var e := Take(Take(s, t, Go), t, Go); e.gone && e.cleared
  {
    TallyNone(s.threads, Inside);
    PlaceFacts(s, t);
  }

  // ---------------------------------------------------------------- why the wait ends

  /** The steps that a thread inside strong_ref needs at most to leave, while the count is zero. */
  function StepsLeft(p: Place): nat {
    match p
    case ReadPtr => 3
    case TryLoad => 2
    case TrySwap(_) => 2
    case Leave(_) => 1
    case _ => 0
  }

  /** Thread `t` makes no step, and no thread enters strong_ref. */
  ghost predicate NobodyEnters(s: State, t: Thread, steps: seq<(Thread, Step)>)
    decreases |steps|
  {
    steps == [] ||
    var (u, step) := steps[0];
    u != t && !(u in s.threads && s.threads[u].Enter? && step == Go) && NobodyEnters(Take(s, u, step), t, steps[1..])
  }

  function StepsOf(steps: seq<(Thread, Step)>, u: Thread): nat {
    if steps == [] then 0 else (if steps[0] == (u, Go) then 1 else 0) + StepsOf(steps[1..], u)
  }

  lemma OneStepLess(s: State, t: Thread, u: Thread, step: Step, w: Thread)
    requires Inv(s) && t in s.threads && s.threads[t].Waiting? && u != t
    requires !(u in s.threads && s.threads[u].Enter? && step == Go)
    requires w in s.threads
    ensures var s' := Take(s, u, step);
      && t in s'.threads && s'.threads[t] == s.threads[t] && w in s'.threads
      && (Inside(s'.threads[w]) ==>
        StepsLeft(s'.threads[w]) + (if (u, step) == (w, Go) then 1 else 0) <= StepsLeft(s.threads[w]))
  {
    PlaceFacts(s, t);
    PlaceFacts(s, w);
    if u in s.threads { PlaceFacts(s, u); }
  }

  /** Whoever is inside gets nearer to leaving with each step. */
  lemma {:induction false} StepsCount(s: State, t: Thread, steps: seq<(Thread, Step)>, w: Thread)
    requires Inv(s) && t in s.threads && s.threads[t].Waiting? && NobodyEnters(s, t, steps) && w in s.threads
    ensures var e := Run(s, steps);
      && t in e.threads && e.threads[t] == s.threads[t] && w in e.threads
      && (Inside(e.threads[w]) ==> StepsLeft(e.threads[w]) + StepsOf(steps, w) <= StepsLeft(s.threads[w]))
    decreases |steps|
  {
    if steps != [] {
      var (u, step) := steps[0];
      StepKeepsInv(s, u, step);
      OneStepLess(s, t, u, step, w);
      StepsCount(Take(s, u, step), t, steps[1..], w);
    }
  }

  lemma StrongSameThreads(s: State, t: Thread)
    requires t in s.threads
    ensures GoOnStrong(s, t).threads.Keys == s.threads.Keys
  {
    assert forall p :: MoveTo(s, t, p).threads.Keys == s.threads.Keys;
  }

  lemma WeakSameThreads(s: State, t: Thread)
    requires t in s.threads
    ensures GoOnWeak(s, t).threads.Keys == s.threads.Keys
  {
    assert forall p :: MoveTo(s, t, p).threads.Keys == s.threads.Keys;
  }

  lemma DropSameThreads(s: State, t: Thread)
    requires t in s.threads
    ensures GoOnDrop(s, t).threads.Keys == s.threads.Keys
  {
    assert forall p :: MoveTo(s, t, p).threads.Keys == s.threads.Keys;
  }

  lemma GoSameThreads(s: State, t: Thread)
    requires t in s.threads
    ensures GoOn(s, t).threads.Keys == s.threads.Keys
  {
    StrongSameThreads(s, t);
    WeakSameThreads(s, t);
    DropSameThreads(s, t);
  }

  lemma StepSameThreads(s: State, t: Thread, step: Step)
    ensures Take(s, t, step).threads.Keys == s.threads.Keys
  {
    if t in s.threads {
      if step == Go {
        GoSameThreads(s, t);
      } else {
        var u := if step.Share? then step.with else t;
        if u in s.threads { assert forall p :: MoveTo(s, u, p).threads.Keys == s.threads.Keys; }
      }
    }
  }

  lemma {:induction false} SameThreads(s: State, steps: seq<(Thread, Step)>)
    ensures Run(s, steps).threads.Keys == s.threads.Keys
    decreases |steps|
  {
    if steps != [] {
      StepSameThreads(s, steps[0].0, steps[0].1);
      SameThreads(Take(s, steps[0].0, steps[0].1), steps[1..]);
    }
  }

  lemma {:induction false} RunOn(s: State, steps: seq<(Thread, Step)>, more: seq<(Thread, Step)>)
    ensures Run(s, steps + more) == Run(Run(s, steps), more)
    decreases |steps|
  {
    if steps == [] {
      assert steps + more == more;
    } else {
      assert (steps + more)[1..] == steps[1..] + more;
      RunOn(Take(s, steps[0].0, steps[0].1), steps[1..], more);
    }
  }

  lemma EverybodyLeaves(s: State, t: Thread, steps: seq<(Thread, Step)>)
    requires Inv(s) && t in s.threads && s.threads[t].Waiting? && NobodyEnters(s, t, steps)
    requires forall w :: w in s.threads && Inside(s.threads[w]) ==> StepsOf(steps, w) >= 3
    ensures var e := Run(s, steps);
      && Inv(e) && t in e.threads && e.threads[t].Waiting?
      && forall w :: w in e.threads ==> !Inside(e.threads[w])
  {
    RunKeepsInv(s, steps);
    StepsCount(s, t, steps, t);
    SameThreads(s, steps);
    forall w | w in s.threads ensures !Inside(Run(s, steps).threads[w]) { StepsCount(s, t, steps, w); }
  }

  lemma TwoSteps(s: State, t: Thread)
    ensures Run(s, [(t, Go), (t, Go)]) == Take(Take(s, t, Go), t, Go)
  {
    var one: seq<(Thread, Step)> := [(t, Go)];
    var two: seq<(Thread, Step)> := [(t, Go), (t, Go)];
    assert two[1..] == one && one[1..] == [];
    assert Run(Take(s, t, Go), one) == Run(Take(Take(s, t, Go), t, Go), []);
  }

  /** From any state in which the destructor waits: once nobody enters any more and everybody inside has made three
      steps, in any order and with any other steps between them, two of the destructor's own steps end the wait. */
  lemma WaitEnds(s: State, t: Thread, steps: seq<(Thread, Step)>)
    requires Inv(s) && t in s.threads && s.threads[t].Waiting? && NobodyEnters(s, t, steps)
    requires forall w :: w in s.threads && Inside(s.threads[w]) ==> StepsOf(steps, w) >= 3
    ensures var e := Run(s, steps + [(t, Go), (t, Go)]); e.gone && e.cleared
  {
    EverybodyLeaves(s, t, steps);
    RevokeReturns(Run(s, steps), t);
    RunOn(s, steps, [(t, Go), (t, Go)]);
    TwoSteps(Run(s, steps), t);
  }
}
