/** RefPtr, NonnullRefPtr and RefCounted (base/RefPtr.h, base/NonnullRefPtr.h, base/RefCounted.h) as threads that
    take one atomic step at a time on shared slots. A slot is the m_bits of one pointer: an address and a lock bit. */
module RefPtrProtocol {
  import opened Tallies

  type Slot = nat
  type Object = nat
  type Thread = nat

  /** An address, or null. The lock bit is kept apart, in `State.locked`. */
  datatype Bits = Null | At(target: Object)

  /** What a thread does once it has the lock of a slot. */
  datatype Purpose = AddRef | Visit

  /** Where a thread stands. `carry` is a reference it owns that is in no slot. */
  datatype Place =
    | Idle
    | Carrying(carry: Bits)
    // RefPtrTraits::lock: fetch_or until the old value had no lock bit
    | Locking(slot: Slot, purpose: Purpose)
    // NonnullRefPtr::add_ref: load, then compare and swap the lock bit in
    | LockLoad(slot: Slot)
    | LockSwap(slot: Slot, expected: Bits)
    // the lock is held and `bits` was read with it
    | Locked(slot: Slot, bits: Bits, purpose: Purpose)
    | Unlocking(slot: Slot, bits: Bits, carry: Bits)
    // exchange: load, then compare and swap the new address in; `keep` tells leak_ref_raw from assign_raw
    | ExchangeLoad(slot: Slot, carry: Bits, keep: bool)
    | ExchangeSwap(slot: Slot, carry: Bits, keep: bool, expected: Bits)
    // exchange_if_null
    | FillIfNull(slot: Slot, carry: Bits)
    // unref: deref_base, and delete if that was the last reference
    | Dropping(carry: Bits)
    | Deleting(target: Object)

  /** `leaked` holds the references assign_if_null loses; `fault` is set by a failed VERIFY, a use of a deleted
      object or a second delete. */
  datatype State = State(
    ptr: map<Slot, Bits>,
    locked: set<Slot>,
    count: map<Object, nat>,
    deleted: set<Object>,
    leaked: map<nat, Bits>,
    threads: map<Thread, Place>,
    fault: bool)

  function Carry(p: Place): Bits {
    match p
    case Carrying(c) => c
    case Unlocking(_, _, c) => c
    case ExchangeLoad(_, c, _) => c
    case ExchangeSwap(_, c, _, _) => c
    case FillIfNull(_, c) => c
    case Dropping(c) => c
    case _ => Null
  }

  predicate HoldsLock(p: Place, s: Slot) {
    (p.Locked? || p.Unlocking?) && p.slot == s
  }

  // ---------------------------------------------------------------- the steps

  datatype Step =
    | Create(target: Object)
    | NewSlot(slot: Slot)
    | StartCopy(slot: Slot, nonnull: bool)
    | StartVisit(slot: Slot)
    | StartMove(slot: Slot)
    | StartAssign(slot: Slot)
    | StartClear(slot: Slot)
    | StartFill(slot: Slot)
    | StartDrop
    | Go(leakName: nat)

  /** The object is there and its count is not zero: what ref() and deref_base() verify. */
  predicate Usable(s: State, o: Object) {
    o in s.count && s.count[o] > 0 && o !in s.deleted
  }

  function MoveTo(s: State, t: Thread, p: Place): State {
    s.(threads := s.threads[t := p])
  }

  /** add_ref_raw, add_ref and do_while_locked: lock, use the object, unlock. */
  function GoOnLocked(s: State, t: Thread): State
    requires t in s.threads
  {
    match s.threads[t]
    case Locking(slot, purpose) =>
      if slot !in s.ptr || slot in s.locked then s
      else MoveTo(s, t, Locked(slot, s.ptr[slot], purpose)).(locked := s.locked + {slot})
    case LockLoad(slot) =>
      if slot !in s.ptr then s else MoveTo(s, t, LockSwap(slot, s.ptr[slot]))
    case LockSwap(slot, expected) =>
      if slot !in s.ptr then s
      else if slot !in s.locked && s.ptr[slot] == expected then
        MoveTo(s, t, Locked(slot, expected, AddRef)).(locked := s.locked + {slot})
      else MoveTo(s, t, LockSwap(slot, s.ptr[slot]))
    case Locked(slot, bits, purpose) =>
      if bits == Null then MoveTo(s, t, Unlocking(slot, bits, Null))
      else if !Usable(s, bits.target) then s.(fault := true)
      else if purpose == Visit then MoveTo(s, t, Unlocking(slot, bits, Null))
      else MoveTo(s, t, Unlocking(slot, bits, bits)).(count := s.count[bits.target := s.count[bits.target] + 1])
    case Unlocking(slot, bits, carry) =>
      MoveTo(s, t, Carrying(carry)).(ptr := s.ptr[slot := bits], locked := s.locked - {slot})
    case _ => s
  }

  /** exchange and exchange_if_null: change the address while the lock bit is not set. */
  function GoOnExchange(s: State, t: Thread, leakName: nat): State
    requires t in s.threads
  {
    match s.threads[t]
    case ExchangeLoad(slot, carry, keep) =>
      if slot !in s.ptr then s else MoveTo(s, t, ExchangeSwap(slot, carry, keep, s.ptr[slot]))
    case ExchangeSwap(slot, carry, keep, expected) =>
      if slot !in s.ptr then s
      else if slot !in s.locked && s.ptr[slot] == expected then
        MoveTo(s, t, if keep then Carrying(expected) else Dropping(expected)).(ptr := s.ptr[slot := carry])
      else MoveTo(s, t, ExchangeSwap(slot, carry, keep, s.ptr[slot]))
    case FillIfNull(slot, carry) =>
      if slot !in s.ptr then s
      else if s.ptr[slot] == Null then
        (if slot in s.locked then s else MoveTo(s, t, Idle).(ptr := s.ptr[slot := carry]))
      else if leakName in s.leaked then s
      else MoveTo(s, t, Idle).(leaked := s.leaked[leakName := carry])
    case _ => s
  }

  /** unref: one reference less, and delete when it was the last. */
  function GoOnDrop(s: State, t: Thread): State
    requires t in s.threads
  {
    match s.threads[t]
    case Dropping(carry) =>
      if carry == Null then MoveTo(s, t, Idle)
      else if !Usable(s, carry.target) then s.(fault := true)
      else if s.count[carry.target] == 1 then MoveTo(s, t, Deleting(carry.target)).(count := s.count[carry.target := 0])
      else MoveTo(s, t, Idle).(count := s.count[carry.target := s.count[carry.target] - 1])
    case Deleting(target) =>
      if target in s.deleted || target !in s.count || s.count[target] != 0 then s.(fault := true)
      else MoveTo(s, t, Idle).(deleted := s.deleted + {target})
    case _ => s
  }

  /** One atomic step of the operation a thread is in. */
  function GoOn(s: State, t: Thread, leakName: nat): State
    requires t in s.threads
  {
    var p := s.threads[t];
    if p.ExchangeLoad? || p.ExchangeSwap? || p.FillIfNull? then GoOnExchange(s, t, leakName)
    else if p.Dropping? || p.Deleting? then GoOnDrop(s, t)
    else GoOnLocked(s, t)
  }

  /** Where a thread goes when it calls one of the operations. */
  function Begin(p: Place, step: Step): Place {
    match (p, step)
    case (Idle, StartCopy(slot, nonnull)) => if nonnull then LockLoad(slot) else Locking(slot, AddRef)
    case (Idle, StartVisit(slot)) => Locking(slot, Visit)
    case (Idle, StartMove(slot)) => ExchangeLoad(slot, Null, true)
    case (Idle, StartClear(slot)) => ExchangeLoad(slot, Null, false)
    case (Carrying(c), StartAssign(slot)) => ExchangeLoad(slot, c, false)
    case (Carrying(c), StartFill(slot)) => FillIfNull(slot, c)
    case (Carrying(c), StartDrop) => Dropping(c)
    case _ => p
  }

  /** Whatever thread `t` may do next; a step that is not possible leaves the state as it is. The address of a deleted
      object may be given to a new one. */
  function Take(s: State, t: Thread, step: Step): State {
    if t !in s.threads then s else
    match step
    case Go(leakName) => GoOn(s, t, leakName)
    case Create(o) =>
      if !s.threads[t].Idle? || (o in s.count && o !in s.deleted) then s
      else MoveTo(s, t, Carrying(At(o))).(count := s.count[o := 1], deleted := s.deleted - {o})
    case NewSlot(slot) =>
      if !s.threads[t].Carrying? || slot in s.ptr then s
      else MoveTo(s, t, Idle).(ptr := s.ptr[slot := s.threads[t].carry])
    case _ => MoveTo(s, t, Begin(s.threads[t], step))
  }

  // ---------------------------------------------------------------- the invariant

  ghost function PointsAt(o: Object): Bits -> bool {
    (b: Bits) => b == At(o)
  }

  ghost function Carries(o: Object): Place -> bool {
    (p: Place) => Carry(p) == At(o)
  }

  ghost function WillDelete(o: Object): Place -> bool {
    (p: Place) => p == Deleting(o)
  }

  ghost function Holds(slot: Slot): Place -> bool {
    (p: Place) => HoldsLock(p, slot)
  }

  ghost function SlotRefs(s: State, o: Object): nat {
    Tally(s.ptr, PointsAt(o))
  }

  ghost function CarriedRefs(s: State, o: Object): nat {
    Tally(s.threads, Carries(o))
  }

  ghost function LeakedRefs(s: State, o: Object): nat {
    Tally(s.leaked, PointsAt(o))
  }

  ghost function Deleters(s: State, o: Object): nat {
    Tally(s.threads, WillDelete(o))
  }

  ghost function LockHolders(s: State, slot: Slot): nat {
    Tally(s.threads, Holds(slot))
  }

  ghost function CountOf(s: State, o: Object): nat {
    if o in s.count then s.count[o] else 0
  }

  /** The count of an object is the number of slots that point at it plus the references in flight or lost. */
  ghost predicate Counted(s: State, o: Object) {
    CountOf(s, o) == SlotRefs(s, o) + CarriedRefs(s, o) + LeakedRefs(s, o)
  }

  /** Once the count is zero there is one thread about to delete the object, or it has been deleted. */
  ghost predicate DeletedOnce(s: State, o: Object) {
    Deleters(s, o) + (if o in s.deleted then 1 else 0) == (if o in s.count && s.count[o] == 0 then 1 else 0)
  }

  /** A locked slot has one thread in its locked section, an unlocked one none. */
  ghost predicate LockedOnce(s: State, slot: Slot) {
    LockHolders(s, slot) == if slot in s.locked then 1 else 0
  }

  /** A thread that has locked a slot still sees there what it read. */
  ghost predicate LockKeeps(s: State, t: Thread)
    requires t in s.threads
  {
    var p := s.threads[t];
    p.Locked? || p.Unlocking? ==> p.slot in s.ptr && s.ptr[p.slot] == p.bits
  }

  ghost predicate Inv(s: State) {
    && !s.fault
    && (forall o {:trigger Counted(s, o)} :: Counted(s, o))
    && (forall o {:trigger DeletedOnce(s, o)} :: DeletedOnce(s, o))
    && (forall slot {:trigger LockedOnce(s, slot)} :: LockedOnce(s, slot))
    && (forall t {:trigger LockKeeps(s, t)} :: t in s.threads ==> LockKeeps(s, t))
  }

  // ---------------------------------------------------------------- every step keeps it

  /** What a thread's move does to the tallies over all threads. */
  lemma MoveTallies(s: State, t: Thread, p: Place, o: Object, slot: Slot)
    requires t in s.threads
    ensures var m := s.threads[t := p];
      && Tally(m, Carries(o)) == CarriedRefs(s, o) - One(Carry(s.threads[t]) == At(o)) + One(Carry(p) == At(o))
      && Tally(m, WillDelete(o)) == Deleters(s, o) - One(s.threads[t] == Deleting(o)) + One(p == Deleting(o))
      && Tally(m, Holds(slot)) == LockHolders(s, slot) - One(HoldsLock(s.threads[t], slot)) + One(HoldsLock(p, slot))
  {
    TallyUpdate(s.threads, t, p, Carries(o));
    TallyUpdate(s.threads, t, p, WillDelete(o));
    TallyUpdate(s.threads, t, p, Holds(slot));
  }

  lemma WriteTallies(s: State, slot: Slot, b: Bits, o: Object)
    ensures Tally(s.ptr[slot := b], PointsAt(o))
      == SlotRefs(s, o) - One(slot in s.ptr && s.ptr[slot] == At(o)) + One(b == At(o))
  {
    TallyUpdate(s.ptr, slot, b, PointsAt(o));
  }

  /** What a step does to the lock bit of a slot and to the address under it. */
  ghost predicate LockStep(s: State, s': State, t: Thread, slot: Slot)
    requires t in s.threads && t in s'.threads
  {
    && One(slot in s'.locked) + One(HoldsLock(s.threads[t], slot))
      == One(slot in s.locked) + One(HoldsLock(s'.threads[t], slot))
    && (slot in s.locked && slot in s.ptr ==> slot in s'.ptr && s'.ptr[slot] == s.ptr[slot])
  }

  lemma LockOnceKept(s: State, s': State, t: Thread, slot: Slot)
    requires t in s.threads && t in s'.threads && s'.threads == s.threads[t := s'.threads[t]]
    requires LockedOnce(s, slot) && LockStep(s, s', t, slot)
    ensures LockedOnce(s', slot)
  {
    MoveTallies(s, t, s'.threads[t], 0, slot);
  }

  /** A thread in its locked section does not see other threads' steps. */
  lemma OthersLockKept(s: State, s': State, t: Thread, u: Thread)
    requires t in s.threads && t in s'.threads && s'.threads == s.threads[t := s'.threads[t]]
    requires u in s.threads && u != t && LockKeeps(s, u)
    requires var q := s.threads[u]; q.Locked? || q.Unlocking? ==> LockedOnce(s, q.slot) && LockStep(s, s', t, q.slot)
    ensures LockKeeps(s', u)
  {
    var q := s.threads[u];
    if q.Locked? || q.Unlocking? { TallyPositive(s.threads, u, Holds(q.slot)); }
  }

  /** What a step adds to and takes from the references an object has. */
  ghost predicate Balanced(s: State, s': State, t: Thread, o: Object)
    requires t in s.threads && t in s'.threads
  {
    && Tally(s'.ptr, PointsAt(o)) + Tally(s'.leaked, PointsAt(o)) + One(Carry(s'.threads[t]) == At(o)) + CountOf(s, o)
       == SlotRefs(s, o) + LeakedRefs(s, o) + One(Carry(s.threads[t]) == At(o)) + CountOf(s', o)
    && One(s'.threads[t] == Deleting(o)) + One(o in s'.deleted) + One(o in s.count && s.count[o] == 0)
       == One(s.threads[t] == Deleting(o)) + One(o in s.deleted) + One(o in s'.count && s'.count[o] == 0)
  }

  lemma RefsKept(s: State, s': State, t: Thread, o: Object)
    requires t in s.threads && t in s'.threads && s'.threads == s.threads[t := s'.threads[t]]
    requires Counted(s, o) && DeletedOnce(s, o)
    requires Balanced(s, s', t, o)
    ensures Counted(s', o) && DeletedOnce(s', o)
  {
    MoveTallies(s, t, s'.threads[t], o, 0);
  }

  /** A pointer in a slot, in a thread's hands or leaked is to an object that is there. */
  lemma SlotIsLive(s: State, slot: Slot, o: Object)
    requires Inv(s) && slot in s.ptr && s.ptr[slot] == At(o)
    ensures Usable(s, o)
  {
    TallyPositive(s.ptr, slot, PointsAt(o));
    assert Counted(s, o) && DeletedOnce(s, o);
  }

  lemma CarriedIsLive(s: State, t: Thread, o: Object)
    requires Inv(s) && t in s.threads && Carry(s.threads[t]) == At(o)
    ensures Usable(s, o)
  {
    TallyPositive(s.threads, t, Carries(o));
    assert Counted(s, o) && DeletedOnce(s, o);
  }

  lemma DeletingIsFirst(s: State, t: Thread, o: Object)
    requires Inv(s) && t in s.threads && s.threads[t] == Deleting(o)
    ensures o in s.count && s.count[o] == 0 && o !in s.deleted
  {
    TallyPositive(s.threads, t, WillDelete(o));
    assert DeletedOnce(s, o);
  }

  // The references stay counted, operation by operation.

  lemma CreateBalances(s: State, t: Thread, target: Object, o: Object)
    requires Inv(s) && t in s.threads && s.threads[t].Idle?
    ensures t in Take(s, t, Create(target)).threads && Balanced(s, Take(s, t, Create(target)), t, o)
  {
    assert Counted(s, target) && DeletedOnce(s, target);
  }

  lemma LockedBalances(s: State, t: Thread, o: Object)
    requires Inv(s) && t in s.threads
    ensures var s' := GoOnLocked(s, t); t in s'.threads && Balanced(s, s', t, o)
  {
    var p := s.threads[t];
    assert LockKeeps(s, t);
    if p.Locked? && p.bits != Null { SlotIsLive(s, p.slot, p.bits.target); }
    if p.Unlocking? { assert s.ptr[p.slot := p.bits] == s.ptr; }
  }

  lemma ExchangeBalances(s: State, t: Thread, leakName: nat, o: Object)
    requires Inv(s) && t in s.threads && !s.threads[t].FillIfNull?
    ensures var s' := GoOnExchange(s, t, leakName); t in s'.threads && Balanced(s, s', t, o)
  {
    var p := s.threads[t];
    if p.ExchangeSwap? { WriteTallies(s, p.slot, p.carry, o); }
  }

  lemma FillBalances(s: State, t: Thread, leakName: nat, o: Object)
    requires Inv(s) && t in s.threads && s.threads[t].FillIfNull?
    ensures var s' := GoOnExchange(s, t, leakName); t in s'.threads && Balanced(s, s', t, o)
  {
    var p := s.threads[t];
    WriteTallies(s, p.slot, p.carry, o);
    TallyUpdate(s.leaked, leakName, p.carry, PointsAt(o));
  }

  lemma DropBalances(s: State, t: Thread, o: Object)
    requires Inv(s) && t in s.threads && s.threads[t].Dropping?
    ensures var s' := GoOnDrop(s, t); t in s'.threads && Balanced(s, s', t, o)
  {
    var c := s.threads[t].carry;
    if c != Null { CarriedIsLive(s, t, c.target); }
  }

  lemma DeleteBalances(s: State, t: Thread, o: Object)
    requires Inv(s) && t in s.threads && s.threads[t].Deleting?
    ensures var s' := GoOnDrop(s, t); t in s'.threads && Balanced(s, s', t, o)
  {
    DeletingIsFirst(s, t, s.threads[t].target);
  }

  lemma GoOnBalances(s: State, t: Thread, leakName: nat, o: Object)
    requires Inv(s) && t in s.threads
    ensures var s' := GoOn(s, t, leakName); t in s'.threads && Balanced(s, s', t, o)
  {
    var p := s.threads[t];
    if p.FillIfNull? {
      FillBalances(s, t, leakName, o);
    } else if p.ExchangeLoad? || p.ExchangeSwap? {
      ExchangeBalances(s, t, leakName, o);
    } else if p.Dropping? {
      DropBalances(s, t, o);
    } else if p.Deleting? {
      DeleteBalances(s, t, o);
    } else {
      LockedBalances(s, t, o);
    }
  }

  lemma NewSlotBalances(s: State, t: Thread, slot: Slot, o: Object)
    requires t in s.threads && s.threads[t].Carrying?
    ensures var s' := Take(s, t, NewSlot(slot)); t in s'.threads && Balanced(s, s', t, o)
  {
    WriteTallies(s, slot, s.threads[t].carry, o);
  }

  lemma BeginBalances(s: State, t: Thread, step: Step, o: Object)
    requires t in s.threads
    ensures var s' := MoveTo(s, t, Begin(s.threads[t], step)); t in s'.threads && Balanced(s, s', t, o)
  {
  }

  lemma StepBalances(s: State, t: Thread, step: Step, o: Object)
    requires Inv(s) && t in s.threads
    ensures t in Take(s, t, step).threads && Balanced(s, Take(s, t, step), t, o)
  {
    match step
    case Go(leakName) => GoOnBalances(s, t, leakName, o);
    case Create(target) => if s.threads[t].Idle? { CreateBalances(s, t, target, o); }
    case NewSlot(slot) => if s.threads[t].Carrying? { NewSlotBalances(s, t, slot, o); }
    case _ => BeginBalances(s, t, step, o);
  }

  // The lock bits, likewise.

  lemma LockedLocks(s: State, t: Thread, slot: Slot)
    requires Inv(s) && t in s.threads
    ensures var s' := GoOnLocked(s, t); t in s'.threads && LockStep(s, s', t, slot) && LockKeeps(s', t)
  {
    var p := s.threads[t];
    assert LockKeeps(s, t);
    if p.Locked? || p.Unlocking? {
      assert LockedOnce(s, p.slot);
      TallyPositive(s.threads, t, Holds(p.slot));
    }
  }

  lemma ExchangeLocks(s: State, t: Thread, leakName: nat, slot: Slot)
    requires Inv(s) && t in s.threads && !s.threads[t].Locked? && !s.threads[t].Unlocking?
    ensures var s' := GoOnExchange(s, t, leakName); t in s'.threads && LockStep(s, s', t, slot) && LockKeeps(s', t)
  {
  }

  lemma DropLocks(s: State, t: Thread, slot: Slot)
    requires Inv(s) && t in s.threads && !s.threads[t].Locked? && !s.threads[t].Unlocking?
    ensures var s' := GoOnDrop(s, t); t in s'.threads && LockStep(s, s', t, slot) && LockKeeps(s', t)
  {
  }

  lemma BeginLocks(s: State, t: Thread, step: Step, slot: Slot)
    requires t in s.threads && LockKeeps(s, t)
    ensures var s' := MoveTo(s, t, Begin(s.threads[t], step));
      t in s'.threads && LockStep(s, s', t, slot) && LockKeeps(s', t)
  {
  }

  lemma StepLocks(s: State, t: Thread, step: Step, slot: Slot)
    requires Inv(s) && t in s.threads
    ensures var s' := Take(s, t, step); t in s'.threads && LockStep(s, s', t, slot) && LockKeeps(s', t)
  {
    assert LockKeeps(s, t);
    var p := s.threads[t];
    if !step.Go? {
      BeginLocks(s, t, step, slot);
    } else if p.ExchangeLoad? || p.ExchangeSwap? || p.FillIfNull? {
      ExchangeLocks(s, t, step.leakName, slot);
    } else if p.Dropping? || p.Deleting? {
      DropLocks(s, t, slot);
    } else {
      LockedLocks(s, t, slot);
    }
  }

  lemma LockedMovesOne(s: State, t: Thread)
    requires t in s.threads
    ensures var s' := GoOnLocked(s, t); t in s'.threads && s'.threads == s.threads[t := s'.threads[t]]
  {
    assert s.threads == s.threads[t := s.threads[t]];
  }

  lemma ExchangeMovesOne(s: State, t: Thread, leakName: nat)
    requires t in s.threads
    ensures var s' := GoOnExchange(s, t, leakName); t in s'.threads && s'.threads == s.threads[t := s'.threads[t]]
  {
    assert s.threads == s.threads[t := s.threads[t]];
  }

  lemma DropMovesOne(s: State, t: Thread)
    requires t in s.threads
    ensures var s' := GoOnDrop(s, t); t in s'.threads && s'.threads == s.threads[t := s'.threads[t]]
  {
    assert s.threads == s.threads[t := s.threads[t]];
  }

  lemma StepMovesOne(s: State, t: Thread, step: Step)
    requires t in s.threads
    ensures var s' := Take(s, t, step); t in s'.threads && s'.threads == s.threads[t := s'.threads[t]]
  {
    assert s.threads == s.threads[t := s.threads[t]];
    if step.Go? {
      LockedMovesOne(s, t);
      ExchangeMovesOne(s, t, step.leakName);
      DropMovesOne(s, t);
    }
  }

  /** No VERIFY fails, nothing deleted is used and nothing is deleted twice. */
  lemma StepFaultless(s: State, t: Thread, step: Step)
    requires Inv(s)
    ensures !Take(s, t, step).fault
  {
    if t in s.threads {
      var p := s.threads[t];
      match p
      case Locked(slot, bits, _) =>
        assert LockKeeps(s, t);
        if bits != Null { SlotIsLive(s, slot, bits.target); }
      case Dropping(carry) => if carry != Null { CarriedIsLive(s, t, carry.target); }
      case Deleting(target) => DeletingIsFirst(s, t, target);
      case _ =>
    }
  }

  lemma InvFrom(s: State, s': State, t: Thread)
    requires Inv(s) && t in s.threads && t in s'.threads && s'.threads == s.threads[t := s'.threads[t]]
    requires !s'.fault && LockKeeps(s', t)
    requires forall o {:trigger Balanced(s, s', t, o)} :: Balanced(s, s', t, o)
    requires forall slot {:trigger LockStep(s, s', t, slot)} :: LockStep(s, s', t, slot)
    ensures Inv(s')
  {
    forall o ensures Counted(s', o) && DeletedOnce(s', o) {
      assert Counted(s, o) && DeletedOnce(s, o) && Balanced(s, s', t, o);
      RefsKept(s, s', t, o);
    }
    forall slot ensures LockedOnce(s', slot) {
      assert LockedOnce(s, slot) && LockStep(s, s', t, slot);
      LockOnceKept(s, s', t, slot);
    }
    forall u | u in s'.threads && u != t ensures LockKeeps(s', u) {
      var q := s.threads[u];
      assert LockKeeps(s, u);
      if q.Locked? || q.Unlocking? { assert LockedOnce(s, q.slot) && LockStep(s, s', t, q.slot); }
      OthersLockKept(s, s', t, u);
    }
  }

  lemma StepKeepsInv(s: State, t: Thread, step: Step)
    requires Inv(s)
    ensures Inv(Take(s, t, step))
  {
    if t in s.threads {
      StepMovesOne(s, t, step);
      StepFaultless(s, t, step);
      StepLocks(s, t, step, 0);
      var s' := Take(s, t, step);
      forall o ensures Balanced(s, s', t, o) { StepBalances(s, t, step, o); }
      forall slot ensures LockStep(s, s', t, slot) { StepLocks(s, t, step, slot); }
      InvFrom(s, s', t);
    }
  }

  // ---------------------------------------------------------------- whole runs

  /** Nothing exists yet; any finite set of threads may run. */
  ghost predicate Start(s: State) {
    && s.ptr == map[] && s.locked == {} && s.count == map[] && s.deleted == {} && s.leaked == map[] && !s.fault
    && forall t :: t in s.threads ==> s.threads[t] == Idle
  }

  function Run(s: State, steps: seq<(Thread, Step)>): State
    decreases |steps|
  {
    if steps == [] then s else Run(Take(s, steps[0].0, steps[0].1), steps[1..])
  }

  lemma StartInv(s: State)
    requires Start(s)
    ensures Inv(s)
  {
    forall o ensures Counted(s, o) && DeletedOnce(s, o) {
      TallyNone(s.ptr, PointsAt(o));
      TallyNone(s.leaked, PointsAt(o));
      TallyNone(s.threads, Carries(o));
      TallyNone(s.threads, WillDelete(o));
    }
    forall slot ensures LockedOnce(s, slot) { TallyNone(s.threads, Holds(slot)); }
  }

  lemma {:induction false} RunKeepsInv(s: State, steps: seq<(Thread, Step)>)
    requires Inv(s)
    ensures Inv(Run(s, steps))
    decreases |steps|
  {
    if steps != [] {
      StepKeepsInv(s, steps[0].0, steps[0].1);
      RunKeepsInv(Take(s, steps[0].0, steps[0].1), steps[1..]);
    }
  }

  /** In every interleaving: no ref() or deref at zero, no use after delete, no second delete, and every object's count
      is the slots that point at it plus the references in flight and those assign_if_null lost. */
  lemma EveryInterleaving(s: State, steps: seq<(Thread, Step)>, o: Object)
    requires Start(s)
    ensures var e := Run(s, steps);
      && !e.fault
      && CountOf(e, o) == SlotRefs(e, o) + CarriedRefs(e, o) + LeakedRefs(e, o)
      && (o in e.deleted ==> SlotRefs(e, o) == 0 && CarriedRefs(e, o) == 0 && Deleters(e, o) == 0)
  {
    StartInv(s);
    RunKeepsInv(s, steps);
    var e := Run(s, steps);
    assert Counted(e, o) && DeletedOnce(e, o);
  }

  /** The race of a copy with a clear: once a copying thread has read an address under the lock bit, the object keeps a
      positive count until that thread has added its own reference, whatever the others do meanwhile. */
  lemma {:induction false} CopyBeatsClear(s: State, t: Thread, others: seq<(Thread, Step)>)
    requires Inv(s) && t in s.threads && s.threads[t].Locked? && s.threads[t].bits.At?
    requires forall i :: 0 <= i < |others| ==> others[i].0 != t
    ensures var e := Run(s, others);
      t in e.threads && e.threads[t] == s.threads[t] && Usable(e, s.threads[t].bits.target)
    decreases |others|
  {
    if others == [] {
      assert LockKeeps(s, t);
      SlotIsLive(s, s.threads[t].slot, s.threads[t].bits.target);
    } else {
      var (u, step) := others[0];
      StepKeepsInv(s, u, step);
      if u in s.threads { StepMovesOne(s, u, step); }
      CopyBeatsClear(Take(s, u, step), t, others[1..]);
    }
  }

  /** A count that reached zero stays there until the address is handed out again. */
  lemma ZeroStays(s: State, t: Thread, step: Step, o: Object)
    requires Inv(s) && o in s.count && s.count[o] == 0 && step != Create(o)
    ensures var s' := Take(s, t, step); o in s'.count && s'.count[o] == 0
  {
    if t in s.threads {
      var p := s.threads[t];
      match p
      case Locked(slot, bits, _) =>
        assert LockKeeps(s, t);
        if bits == At(o) { SlotIsLive(s, slot, o); }
      case Dropping(carry) => if carry == At(o) { CarriedIsLive(s, t, o); }
      case _ =>
    }
  }

  /** The thread that took the count to zero is the only one that will delete. */
  lemma OneDeleter(s: State, t: Thread, u: Thread, o: Object)
    requires Inv(s) && t in s.threads && u in s.threads
    requires s.threads[t] == Deleting(o) && s.threads[u] == Deleting(o)
    ensures t == u
  {
    assert DeletedOnce(s, o);
    var deleters := Where(s.threads, WillDelete(o));
    RemoveOne(deleters, t);
    RemoveOne(deleters - {t}, u);
  }

  /** A lock bit never gets stuck: whoever holds it is two steps of its own away from giving it back. */
  lemma LockIsReleased(s: State, t: Thread, slot: Slot, leakName: nat)
    requires Inv(s) && t in s.threads && HoldsLock(s.threads[t], slot)
    ensures slot !in Take(Take(s, t, Go(leakName)), t, Go(leakName)).locked
  {
    StepFaultless(s, t, Go(leakName));
  }
}
