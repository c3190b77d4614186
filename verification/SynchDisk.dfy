/** The synchronous disk of filesys/synchdisk.cc: callers share one device that
    takes one request at a time and answers with an interrupt.  A step is one
    statement of a caller, or the disk's interrupt.  Requests are numbered in the
    order in which the device accepts them. */
module SynchDisk {
  import opened Collections
  import opened Semaphores

  datatype Pc =
    | Idle
    | AtLock | LockQueued | LockWoken   // Acquire, see Semaphores.Phase
    | Got                  // P on the lock has returned, lockHolder is not set
    | Holding              // about to send the request to the device
    | AtDone(r: nat)       // request r is sent, about to test the semaphore
    | DoneQueued(r: nat)   // asleep on the semaphore
    | DoneWoken(r: nat)    // taken off its queue by V, has not re-tested
    | Releasing(r: nat)    // about to clear lockHolder
    | Unlocking(r: nat)    // about to V the lock

  datatype State = State(
    lock: Sem, holder: Option<Tid>, done: Sem,
    active: bool, issued: nat, completed: nat,
    pcs: map<Tid, Pc>)

  datatype Action = Caller(t: Tid) | Interrupt

  datatype Outcome = Next(state: State) | Blocked | Fault

  ghost predicate Init(s: State) {
    && s.lock == Sem(1, []) && s.holder == None && s.done == Sem(0, [])
    && !s.active && s.issued == s.completed == 0
    && forall t | t in s.pcs :: s.pcs[t] == Idle
  }

  // ---------------------------------------------------------------- steps

  function Goto(s: State, t: Tid, pc: Pc): State {
    s.(pcs := s.pcs[t := pc])
  }

  function Do(s: State, a: Action): Outcome {
    match a
    case Interrupt => if s.active then CallBack(s) else Blocked
    case Caller(t) =>
      if t !in s.pcs then Blocked
      else match s.pcs[t]
        case Idle => Next(Goto(s, t, AtLock))
        case AtLock => TryLock(s, t)
        case LockWoken => TryLock(s, t)
        case LockQueued => Blocked
        case Got => Next(Goto(s, t, Holding).(holder := Some(t)))
        case Holding =>
          if s.active then Fault     // ASSERT(!active) in ReadRequest and WriteRequest
          else Next(Goto(s, t, AtDone(s.issued + 1)).(active := true, issued := s.issued + 1))
        case AtDone(r) => TryDone(s, t, r)
        case DoneWoken(r) => TryDone(s, t, r)
        case DoneQueued(_) => Blocked
        case Releasing(r) =>
          if s.holder != Some(t) then Fault
          else Next(Goto(s, t, Unlocking(r)).(holder := None))
        case Unlocking(_) => Unlock(s, t)
  }

  function TryLock(s: State, t: Tid): Outcome {
    if s.lock.value == 0 && t in s.lock.queue then Fault
    else Next(Goto(s, t, if s.lock.value == 0 then LockQueued else Got).(lock := TryP(s.lock, t)))
  }

  function Unlock(s: State, t: Tid): Outcome {
    var s1 := Goto(s, t, Idle).(lock := V(s.lock));
    if s.lock.queue == [] then Next(s1)
    else if s.lock.queue[0] in s1.pcs && s1.pcs[s.lock.queue[0]] == LockQueued
    then Next(Goto(s1, s.lock.queue[0], LockWoken))
    else Fault
  }

  function TryDone(s: State, t: Tid, r: nat): Outcome {
    if s.done.value == 0 && t in s.done.queue then Fault
    else Next(Goto(s, t, if s.done.value == 0 then DoneQueued(r) else Releasing(r))
              .(done := TryP(s.done, t)))
  }

  /** The disk's interrupt: Disk::CallBack, then SynchDisk::CallBack. */
  function CallBack(s: State): Outcome {
    var s1 := s.(active := false, completed := s.completed + 1, done := V(s.done));
    if s.done.queue == [] then Next(s1)
    else
      var u := s.done.queue[0];
      if u in s1.pcs && s1.pcs[u].DoneQueued? then Next(Goto(s1, u, DoneWoken(s1.pcs[u].r)))
      else Fault
  }

  // ------------------------------------------------------------ invariant

  function PhaseOf(pc: Pc): Phase {
    match pc
    case Idle => Outside
    case AtLock => Outside
    case LockQueued => Queued
    case LockWoken => Woken
    case _ => Inside
  }

  function PhasesOf(s: State): Phases {
    map t | t in s.pcs :: PhaseOf(s.pcs[t])
  }

  predicate IsHolder(pc: Pc) {
    pc.Holding? || pc.AtDone? || pc.DoneQueued? || pc.DoneWoken? || pc.Releasing?
  }

  predicate Waits(pc: Pc) { pc.AtDone? || pc.DoneQueued? || pc.DoneWoken? }

  ghost predicate HolderInv(s: State) {
    && (s.holder.Some? ==> s.holder.value in s.pcs)
    && forall t | t in s.pcs :: IsHolder(s.pcs[t]) <==> s.holder == Some(t)
  }

  /** The device and the semaphore, as seen by a caller at pc. */
  predicate DeviceAt(s: State, t: Tid, pc: Pc) {
    match pc
    case AtDone(r) => r == s.issued && s.done == Sem(if s.active then 0 else 1, [])
    case DoneQueued(r) => r == s.issued && s.active && s.done == Sem(0, [t])
    case DoneWoken(r) => r == s.issued && !s.active && s.done == Sem(1, [])
    case Releasing(r) => r == s.issued
    case Unlocking(r) => r == s.issued
    case _ => true
  }

  ghost predicate DeviceInv(s: State) {
    && s.issued == s.completed + (if s.active then 1 else 0)
    && (forall t | t in s.pcs :: DeviceAt(s, t, s.pcs[t]))
    && ((forall t | t in s.pcs :: !Waits(s.pcs[t])) ==> !s.active && s.done == Sem(0, []))
  }

  ghost predicate Inv(s: State) {
    LockInv(s.lock, PhasesOf(s)) && HolderInv(s) && DeviceInv(s)
  }

  ghost predicate Keeps(o: Outcome) {
    !o.Fault? && (o.Next? ==> Inv(o.state))
  }

  // ------------------------------------------------- one lemma per step kind

  lemma PhasesGoto(s: State, s': State, t: Tid, pc: Pc)
    requires t in s.pcs && s'.pcs == s.pcs[t := pc]
    ensures PhasesOf(s') == PhasesOf(s)[t := PhaseOf(pc)]
  {}

  lemma OnlyInsider(s: State, t: Tid)
    requires LockInv(s.lock, PhasesOf(s)) && t in s.pcs && PhaseOf(s.pcs[t]) == Inside
    ensures forall u | u in s.pcs && u != t :: PhaseOf(s.pcs[u]) != Inside
  {
    forall u | u in s.pcs && u != t ensures PhaseOf(s.pcs[u]) != Inside {
      if PhaseOf(s.pcs[u]) == Inside { InsiderUnique(s.lock, PhasesOf(s), t, u); }
    }
  }

  /** A step of the thread inside the lock, which stays inside. */
  lemma InsideKeeps(s: State, t: Tid)
    requires Inv(s) && t in s.pcs && PhaseOf(s.pcs[t]) == Inside && !s.pcs[t].Unlocking?
    ensures Keeps(Do(s, Caller(t)))
  {
    hide DeviceInv, HolderInv, Do, LockInv, PhasesOf;
    OnlyInsider(s, t);
    InsideDevice(s, t);
    if Do(s, Caller(t)).Next? { InsidePhases(s, t); }
  }

  lemma InsidePhases(s: State, t: Tid)
    requires t in s.pcs && PhaseOf(s.pcs[t]) == Inside && !s.pcs[t].Unlocking? && Do(s, Caller(t)).Next?
    ensures var s' := Do(s, Caller(t)).state; PhasesOf(s') == PhasesOf(s) && s'.lock == s.lock
  {
    var s' := Do(s, Caller(t)).state;
    PhasesGoto(s, s', t, s'.pcs[t]);
  }

  lemma InsideDevice(s: State, t: Tid)
    requires HolderInv(s) && DeviceInv(s) && t in s.pcs && PhaseOf(s.pcs[t]) == Inside && !s.pcs[t].Unlocking?
    requires forall u | u in s.pcs && u != t :: PhaseOf(s.pcs[u]) != Inside
    ensures !Do(s, Caller(t)).Fault?
    ensures Do(s, Caller(t)).Next? ==> HolderInv(Do(s, Caller(t)).state) && DeviceInv(Do(s, Caller(t)).state)
  {
    assert [] + [t] == [t];
    assert DeviceAt(s, t, s.pcs[t]);
    if Do(s, Caller(t)).Next? {
      var s' := Do(s, Caller(t)).state;
      assert Waits(s'.pcs[t]) || s.pcs[t].Got? || s'.done == Sem(0, []);
    }
  }

  lemma TryLockKeeps(s: State, t: Tid)
    requires Inv(s) && t in s.pcs && (s.pcs[t] == AtLock || s.pcs[t] == LockWoken)
    ensures Keeps(Do(s, Caller(t)))
  {
    hide LockInv, PhasesOf, HolderInv, DeviceInv, TryP;
    TryLockLock(s, t);
    TryLockOthers(s, TryLock(s, t).state, t);
  }

  lemma TryLockLock(s: State, t: Tid)
    requires LockInv(s.lock, PhasesOf(s)) && t in s.pcs && (s.pcs[t] == AtLock || s.pcs[t] == LockWoken)
    ensures TryLock(s, t).Next?
    ensures var s' := TryLock(s, t).state; LockInv(s'.lock, PhasesOf(s'))
  {
    TryKeepsLock(s.lock, PhasesOf(s), t);
    var s' := TryLock(s, t).state;
    PhasesGoto(s, s', t, s'.pcs[t]);
  }

  lemma TryLockOthers(s: State, s': State, t: Tid)
    requires HolderInv(s) && DeviceInv(s) && t in s.pcs && (s.pcs[t] == AtLock || s.pcs[t] == LockWoken)
    requires s'.pcs == s.pcs[t := LockQueued] || s'.pcs == s.pcs[t := Got]
    requires s' == s.(lock := s'.lock, pcs := s'.pcs)
    ensures HolderInv(s') && DeviceInv(s')
  {
    if forall u | u in s'.pcs :: !Waits(s'.pcs[u]) {
      assert forall u | u in s.pcs :: u == t || s.pcs[u] == s'.pcs[u];
    }
  }

  lemma IdleKeeps(s: State, t: Tid)
    requires Inv(s) && t in s.pcs && s.pcs[t] == Idle
    ensures Keeps(Do(s, Caller(t)))
  {
    var s' := Goto(s, t, AtLock);
    PhasesGoto(s, s', t, AtLock);
    assert PhasesOf(s') == PhasesOf(s);
  }

  lemma UnlockKeeps(s: State, t: Tid)
    requires Inv(s) && t in s.pcs && s.pcs[t].Unlocking?
    ensures Keeps(Do(s, Caller(t)))
  {
    hide LockInv, HolderInv, DeviceInv;
    OnlyInsider(s, t);
    VKeepsLock(s.lock, PhasesOf(s), t);
    UnlockPhases(s, t);
    UnlockDevice(s, t);
  }

  lemma UnlockDevice(s: State, t: Tid)
    requires HolderInv(s) && DeviceInv(s) && t in s.pcs && s.pcs[t].Unlocking? && Unlock(s, t).Next?
    requires forall u | u in s.pcs && u != t :: PhaseOf(s.pcs[u]) != Inside
    ensures HolderInv(Unlock(s, t).state) && DeviceInv(Unlock(s, t).state)
  {
    assert forall u | u in s.pcs :: !Waits(s.pcs[u]);
  }

  lemma UnlockPhases(s: State, t: Tid)
    requires t in s.pcs && s.pcs[t].Unlocking?
    requires s.lock.queue != [] ==> s.lock.queue[0] in s.pcs && PhaseOf(s.pcs[s.lock.queue[0]]) == Queued
    ensures Unlock(s, t).Next?
    ensures PhasesOf(Unlock(s, t).state) == AfterV(s.lock, PhasesOf(s), t)
  {}

  lemma InterruptKeeps(s: State)
    requires Inv(s)
    ensures Keeps(Do(s, Interrupt))
  {
    hide LockInv, PhasesOf, HolderInv, DeviceInv, CallBack;
    if s.active {
      var t := SomeoneWaits(s);
      OnlyInsider(s, t);
      CallBackShape(s, t);
      CallBackDevice(s, CallBack(s).state, t);
      CallBackPhases(s, CallBack(s).state, t);
    }
  }

  lemma SomeoneWaits(s: State) returns (t: Tid)
    requires DeviceInv(s) && s.active
    ensures t in s.pcs && Waits(s.pcs[t]) && DeviceAt(s, t, s.pcs[t])
  {
    t :| t in s.pcs && Waits(s.pcs[t]);
  }

  /** The state after the interrupt, with t waiting for it. */
  ghost predicate CalledBack(s: State, s': State, t: Tid)
    requires t in s.pcs
  {
    && s' == s.(active := false, completed := s.completed + 1, done := Sem(1, []), pcs := s'.pcs)
    && s'.pcs == s.pcs[t := if s.pcs[t].DoneQueued? then DoneWoken(s.pcs[t].r) else s.pcs[t]]
  }

  lemma CallBackShape(s: State, t: Tid)
    requires s.active && t in s.pcs && Waits(s.pcs[t]) && DeviceAt(s, t, s.pcs[t])
    ensures CallBack(s).Next? && CalledBack(s, CallBack(s).state, t)
  {
    if s.pcs[t].AtDone? { assert s.pcs == s.pcs[t := s.pcs[t]]; }
  }

  lemma CallBackDevice(s: State, s': State, t: Tid)
    requires HolderInv(s) && DeviceInv(s) && s.active && t in s.pcs && Waits(s.pcs[t]) && CalledBack(s, s', t)
    requires forall u | u in s.pcs && u != t :: PhaseOf(s.pcs[u]) != Inside
    ensures HolderInv(s') && DeviceInv(s')
  {
    assert DeviceAt(s, t, s.pcs[t]);
    assert t in s'.pcs && Waits(s'.pcs[t]);
    forall u | u in s'.pcs ensures DeviceAt(s', u, s'.pcs[u]) {
      if u != t { assert s'.pcs[u] == s.pcs[u] && PhaseOf(s.pcs[u]) != Inside; }
    }
  }

  lemma CallBackPhases(s: State, s': State, t: Tid)
    requires t in s.pcs && Waits(s.pcs[t]) && CalledBack(s, s', t)
    ensures PhasesOf(s') == PhasesOf(s) && s'.lock == s.lock
  {
    hide DeviceAt;
  }

  // ------------------------------------------------------------- every run

  /** Every step of every caller and every interrupt keeps the invariant, and no
      ASSERT fails; in particular no request reaches a busy device. */
  lemma StepKeeps(s: State, a: Action)
    requires Inv(s)
    ensures !Do(s, a).Fault?
    ensures Do(s, a).Next? ==> Inv(Do(s, a).state)
  {
    match a
    case Interrupt => InterruptKeeps(s);
    case Caller(t) =>
      if t in s.pcs {
        match s.pcs[t]
        case Idle => IdleKeeps(s, t);
        case AtLock => TryLockKeeps(s, t);
        case LockWoken => TryLockKeeps(s, t);
        case LockQueued =>
        case Unlocking(_) => UnlockKeeps(s, t);
        case _ => InsideKeeps(s, t);
      }
  }

  ghost predicate Step(s: State, s': State) {
    exists a :: Do(s, a) == Next(s')
  }

  ghost predicate StepAt(run: seq<State>, i: nat)
    requires i + 1 < |run|
  {
    Step(run[i], run[i + 1])
  }

  ghost predicate IsRun(run: seq<State>) {
    && run != [] && Init(run[0])
    && forall i | 0 <= i < |run| - 1 :: StepAt(run, i)
  }

  lemma {:induction false} RunInv(run: seq<State>, i: nat)
    requires IsRun(run) && i < |run|
    ensures Inv(run[i])
  {
    if i == 0 {
      assert Insiders(PhasesOf(run[0])) == {};
    } else {
      hide Do, Inv;
      RunInv(run, i - 1);
      assert StepAt(run, i - 1);
      var a :| Do(run[i - 1], a) == Next(run[i]);
      StepKeeps(run[i - 1], a);
    }
  }

  /** The device never has a request outstanding while a completion is still
      uncollected, and completions arrive one per request, in order. */
  lemma Serialised(run: seq<State>, i: nat)
    requires IsRun(run) && i < |run|
    ensures (if run[i].active then 1 else 0) + run[i].done.value <= 1
    ensures run[i].issued == run[i].completed + (if run[i].active then 1 else 0)
  {
    RunInv(run, i);
    var s := run[i];
    if t :| t in s.pcs && Waits(s.pcs[t]) {
      assert DeviceAt(s, t, s.pcs[t]);
    }
  }

  /** A caller whose call is about to return has seen the interrupt of its own
      request, and nobody else has used the device since. */
  lemma ReturnsAfterOwnInterrupt(run: seq<State>, i: nat, t: Tid)
    requires IsRun(run) && i < |run| && t in run[i].pcs
    requires run[i].pcs[t].Releasing? || run[i].pcs[t].Unlocking?
    ensures run[i].pcs[t].r == run[i].completed == run[i].issued && !run[i].active
  {
    RunInv(run, i);
    OnlyInsider(run[i], t);
    assert DeviceAt(run[i], t, run[i].pcs[t]);
    assert forall u | u in run[i].pcs :: !Waits(run[i].pcs[u]);
  }

  ghost predicate CanMove(s: State, a: Action) {
    Do(s, a).Next? && (a.Caller? ==> s.pcs[a.t] != Idle)
  }

  /** No caller is stranded: while some caller sleeps, the device will interrupt
      or another caller can run. */
  lemma SleepersGetHelp(run: seq<State>, i: nat, t: Tid)
    requires IsRun(run) && i < |run| && t in run[i].pcs
    requires run[i].pcs[t].LockQueued? || run[i].pcs[t].DoneQueued?
    ensures exists a :: CanMove(run[i], a)
  {
    RunInv(run, i);
    var s := run[i];
    if s.active {
      InterruptKeeps(s);
      assert CanMove(s, Interrupt);
    } else if s.lock.value == 0 {
      var u :| u in Insiders(PhasesOf(s));
      assert DeviceAt(s, u, s.pcs[u]);
      StepKeeps(s, Caller(u));
      assert CanMove(s, Caller(u));
    } else {
      assert DeviceAt(s, t, s.pcs[t]);
      assert PhasesOf(s)[t] == Queued && t in s.lock.queue;
      var u :| u in PhasesOf(s) && PhasesOf(s)[u] == Woken;
      StepKeeps(s, Caller(u));
      assert CanMove(s, Caller(u));
    }
  }
}
