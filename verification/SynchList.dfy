/** The synchronized list of threads/synchlist.cc, down to the semaphores that
    its lock and its condition variable are made of (threads/synch.cc).

    A state gives every thread a program counter.  One step is one statement of
    one thread, so a thread may be preempted between any two statements; P and V
    are single steps because they run with interrupts off.  A failed ASSERT and
    the use of a deleted waiter semaphore are the outcome Fault. */
module SynchList {
  import opened Collections
  import opened Semaphores

  type Item(==, !new)

  /** The address of a waiter semaphore allocated by Condition::Wait. */
  type Wid = nat

  /** What a thread does once it has the lock. */
  datatype Op =
    | Append(item: Item)
    | RemoveFront
    | Broadcast
    | Rewait(w: Wid)       // return from Wait: delete the waiter, test the list again

  /** What a thread does after it has released the lock. */
  datatype After = Finish | Return(item: Item) | Sleep(w: Wid)

  datatype Pc =
    | Idle
    | AtLock(op: Op)       // about to test the lock's semaphore in P
    | LockQueued(op: Op)   // asleep on the lock's semaphore
    | LockWoken(op: Op)    // taken off its queue by V, has not re-tested
    | Got(op: Op)          // P has returned, lockHolder is not set yet
    | Holding(op: Op)      // Acquire has returned
    | Signalling           // the item is in the list, Signal comes next
    | Broadcasting(start: seq<Wid>)  // draining; start is waitQueue at the call
    | Releasing(after: After)        // about to clear lockHolder
    | Unlocking(after: After)        // about to V the lock's semaphore
    | AtWaiter(w: Wid)     // about to test its own waiter semaphore in P
    | WaiterQueued(w: Wid)
    | WaiterWoken(w: Wid)

  /** A waiter semaphore with the number of V operations it has received. */
  datatype Waiter = Waiter(sem: Sem, signals: nat)

  datatype State = State(
    lock: Sem, holder: Option<Tid>,
    waitQueue: seq<Wid>, waiters: map<Wid, Waiter>,
    list: seq<Item>, appended: seq<Item>, removed: seq<Item>,
    pcs: map<Tid, Pc>)

  /** The nondeterminism of a step: the call an idle thread makes, or the
      address that a new semaphore gets. */
  datatype Choice = Call(op: Op) | Fresh(w: Wid)

  datatype Outcome = Next(state: State) | Blocked | Fault

  ghost predicate Init(s: State) {
    && s.lock == Sem(1, []) && s.holder == None
    && s.waitQueue == [] && s.waiters == map[]
    && s.list == s.appended == s.removed == []
    && forall t | t in s.pcs :: s.pcs[t] == Idle
  }

  // ---------------------------------------------------------------- steps

  function Goto(s: State, t: Tid, pc: Pc): State {
    s.(pcs := s.pcs[t := pc])
  }

  /** One step of thread t. */
  function Do(s: State, t: Tid, c: Choice): Outcome
    requires t in s.pcs
  {
    match s.pcs[t]
    case Idle =>
      if c.Call? && !c.op.Rewait? then Next(Goto(s, t, AtLock(c.op))) else Blocked
    case AtLock(op) => TryLock(s, t, op)
    case LockWoken(op) => TryLock(s, t, op)
    case LockQueued(_) => Blocked
    case Got(op) => Next(Goto(s, t, Holding(op)).(holder := Some(t)))
    case Holding(op) => DoOp(s, t, op, c)
    case Signalling => Signal(s, t, Releasing(Finish))
    case Broadcasting(start) =>
      Signal(s, t, if s.waitQueue == [] then Releasing(Finish) else Broadcasting(start))
    case Releasing(after) =>
      if s.holder != Some(t) then Fault
      else Next(Goto(s, t, Unlocking(after)).(holder := None))
    case Unlocking(after) => Unlock(s, t, after)
    case AtWaiter(w) => TryWaiter(s, t, w)
    case WaiterWoken(w) => TryWaiter(s, t, w)
    case WaiterQueued(_) => Blocked
  }

  /** One pass of the loop of P on the lock's semaphore. */
  function TryLock(s: State, t: Tid, op: Op): Outcome {
    if s.lock.value == 0 && t in s.lock.queue then Fault
    else Next(Goto(s, t, if s.lock.value == 0 then LockQueued(op) else Got(op))
              .(lock := TryP(s.lock, t)))
  }

  /** V on the lock's semaphore. */
  function Unlock(s: State, t: Tid, after: After): Outcome {
    var s1 := Goto(s, t, if after.Sleep? then AtWaiter(after.w) else Idle).(lock := V(s.lock));
    if s.lock.queue == [] then Next(s1)
    else
      var u := s.lock.queue[0];
      if u in s1.pcs && s1.pcs[u].LockQueued?
      then Next(Goto(s1, u, LockWoken(s1.pcs[u].op)))
      else Fault
  }

  /** The statement that follows Acquire. */
  function DoOp(s: State, t: Tid, op: Op, c: Choice): Outcome {
    match op
    case Append(item) =>
      if item in s.list then Fault
      else Next(Goto(s, t, Signalling).(list := s.list + [item], appended := s.appended + [item]))
    case RemoveFront => TestList(s, t, c)
    case Broadcast => Next(Goto(s, t, Broadcasting(s.waitQueue)))
    case Rewait(w) =>
      if w in s.waiters && w !in s.waitQueue && s.waiters[w].sem.queue == []
      then TestList(s.(waiters := s.waiters - {w}), t, c)
      else Fault
  }

  /** The loop test of RemoveFront: take the first item, or enter Wait. */
  function TestList(s: State, t: Tid, c: Choice): Outcome {
    if s.list != [] then
      Next(Goto(s, t, Releasing(Return(s.list[0]))).(list := s.list[1..], removed := s.removed + [s.list[0]]))
    else if s.holder != Some(t) then Fault
    else if c.Fresh? && c.w !in s.waiters then
      if c.w in s.waitQueue then Fault
      else Next(Goto(s, t, Releasing(Sleep(c.w)))
                .(waitQueue := s.waitQueue + [c.w],
                  waiters := s.waiters[c.w := Waiter(Sem(0, []), 0)]))
    else Blocked
  }

  /** Condition::Signal, then on to pc. */
  function Signal(s: State, t: Tid, pc: Pc): Outcome {
    if s.holder != Some(t) then Fault
    else if s.waitQueue == [] then Next(Goto(s, t, pc))
    else
      var w := s.waitQueue[0];
      if w !in s.waiters then Fault
      else
        var x := s.waiters[w];
        var s1 := Goto(s, t, pc).(waitQueue := s.waitQueue[1..],
                                  waiters := s.waiters[w := Waiter(V(x.sem), x.signals + 1)]);
        if x.sem.queue == [] then Next(s1)
        else
          var u := x.sem.queue[0];
          if u in s1.pcs && s1.pcs[u] == WaiterQueued(w) then Next(Goto(s1, u, WaiterWoken(w)))
          else Fault
  }

  /** One pass of the loop of P on the thread's own waiter semaphore. */
  function TryWaiter(s: State, t: Tid, w: Wid): Outcome {
    if w !in s.waiters then Fault
    else
      var x := s.waiters[w];
      if x.sem.value == 0 && t in x.sem.queue then Fault
      else Next(Goto(s, t, if x.sem.value == 0 then WaiterQueued(w) else AtLock(Rewait(w)))
                .(waiters := s.waiters[w := x.(sem := TryP(x.sem, t))]))
  }

  // ------------------------------------------------------------ invariant

  function PhaseOf(pc: Pc): Phase {
    match pc
    case LockQueued(_) => Queued
    case LockWoken(_) => Woken
    case Got(_) => Inside
    case Holding(_) => Inside
    case Signalling => Inside
    case Broadcasting(_) => Inside
    case Releasing(_) => Inside
    case Unlocking(_) => Inside
    case _ => Outside
  }

  function PhasesOf(s: State): Phases {
    map t | t in s.pcs :: PhaseOf(s.pcs[t])
  }

  /** The statements at which lockHolder names the thread. */
  predicate IsHolder(pc: Pc) {
    pc.Holding? || pc.Signalling? || pc.Broadcasting? || pc.Releasing?
  }

  function OfOp(op: Op): Option<Wid> {
    if op.Rewait? then Some(op.w) else None
  }

  function OfAfter(after: After): Option<Wid> {
    if after.Sleep? then Some(after.w) else None
  }

  /** The waiter semaphore that a thread at pc has allocated and not deleted. */
  function WaiterOf(pc: Pc): Option<Wid> {
    match pc
    case AtLock(op) => OfOp(op)
    case LockQueued(op) => OfOp(op)
    case LockWoken(op) => OfOp(op)
    case Got(op) => OfOp(op)
    case Holding(op) => OfOp(op)
    case Releasing(after) => OfAfter(after)
    case Unlocking(after) => OfAfter(after)
    case AtWaiter(w) => Some(w)
    case WaiterQueued(w) => Some(w)
    case WaiterWoken(w) => Some(w)
    case _ => None
  }

  /** The state of the waiter semaphore of a thread at pc, when the semaphore
      is in the condition's queue and when it is not. */
  function Expected(t: Tid, pc: Pc, queued: bool): Option<Waiter> {
    var signals := if queued then 0 else 1;
    match pc
    case Releasing(_) => if queued then Some(Waiter(Sem(0, []), 0)) else None
    case Unlocking(_) => if queued then Some(Waiter(Sem(0, []), 0)) else None
    case AtWaiter(_) => Some(Waiter(Sem(signals, []), signals))
    case WaiterQueued(_) => if queued then Some(Waiter(Sem(0, [t]), 0)) else None
    case WaiterWoken(_) => if queued then None else Some(Waiter(Sem(1, []), 1))
    case _ => if queued then None else Some(Waiter(Sem(0, []), 1))
  }

  ghost predicate Owns(s: State, t: Tid, w: Wid) {
    t in s.pcs && WaiterOf(s.pcs[t]) == Some(w)
  }

  ghost predicate OwnWaiter(s: State, t: Tid, w: Wid)
    requires t in s.pcs
  {
    w in s.waiters && Expected(t, s.pcs[t], w in s.waitQueue) == Some(s.waiters[w])
  }

  ghost predicate WaitersInv(s: State) {
    && NoDup(s.waitQueue)
    && (forall w | w in s.waitQueue :: w in s.waiters)
    && (forall w | w in s.waiters :: exists t :: Owns(s, t, w))
    && (forall t, w | Owns(s, t, w) :: OwnWaiter(s, t, w))
    && (forall t, u, w | Owns(s, t, w) && Owns(s, u, w) :: t == u)
  }

  ghost predicate HolderInv(s: State) {
    && (s.holder.Some? ==> s.holder.value in s.pcs)
    && forall t | t in s.pcs :: IsHolder(s.pcs[t]) <==> s.holder == Some(t)
  }

  /** A thread that still has to look at the list on somebody's behalf: an
      appender before its Signal, or a signalled consumer before its re-test. */
  predicate Owes(pc: Pc, waitQueue: seq<Wid>) {
    pc.Signalling? || (WaiterOf(pc).Some? && WaiterOf(pc).value !in waitQueue)
  }

  ghost function Owing(s: State): set<Tid> {
    set t | t in s.pcs && Owes(s.pcs[t], s.waitQueue)
  }

  ghost predicate Suffix<T(!new)>(q: seq<T>, start: seq<T>) {
    |q| <= |start| && start[|start| - |q|..] == q
  }

  /** A broadcaster has signalled a prefix of the waiters it found, and none of
      those it found has been deleted. */
  ghost predicate BroadcastInv(s: State) {
    forall t | t in s.pcs && s.pcs[t].Broadcasting? ::
      Suffix(s.waitQueue, s.pcs[t].start) && forall w | w in s.pcs[t].start :: w in s.waiters
  }

  ghost predicate Inv(s: State) {
    && LockInv(s.lock, PhasesOf(s))
    && HolderInv(s)
    && WaitersInv(s)
    && BroadcastInv(s)
    && s.appended == s.removed + s.list
    && (s.waitQueue != [] ==> |s.list| <= |Owing(s)|)
  }

  lemma InitHolds(s: State)
    requires Init(s)
    ensures Inv(s)
  {
    assert Insiders(PhasesOf(s)) == {};
  }

  /** The one ASSERT a client can make fail: List::Append refuses an item that
      is already in the list. */
  predicate AppendsDuplicate(s: State, t: Tid)
    requires t in s.pcs
  {
    s.pcs[t].Holding? && s.pcs[t].op.Append? && s.pcs[t].op.item in s.list
  }

  ghost predicate Keeps(s: State, t: Tid, c: Choice)
    requires t in s.pcs
  {
    && (Do(s, t, c).Fault? <==> AppendsDuplicate(s, t))
    && (Do(s, t, c).Next? ==> Inv(Do(s, t, c).state))
  }

  // ------------------------------------------------- one lemma per step kind

  lemma PhasesGoto(s: State, s': State, t: Tid, pc: Pc)
    requires t in s.pcs && s'.pcs == s.pcs[t := pc]
    ensures PhasesOf(s') == PhasesOf(s)[t := PhaseOf(pc)]
  {}

  /** Moving t on changes nothing about waiters when t keeps its waiter and the
      semaphore is in the state expected at the new statement. */
  lemma MoveWaiters(s: State, s': State, t: Tid, pc: Pc)
    requires WaitersInv(s) && t in s.pcs
    requires s'.pcs == s.pcs[t := pc] && s'.waiters == s.waiters && s'.waitQueue == s.waitQueue
    requires WaiterOf(pc) == WaiterOf(s.pcs[t])
    requires WaiterOf(pc).Some? ==> forall q: bool | Expected(t, s.pcs[t], q).Some? ::
      Expected(t, pc, q) == Expected(t, s.pcs[t], q)
    ensures WaitersInv(s')
    ensures pc.Signalling? == s.pcs[t].Signalling? ==> Owing(s') == Owing(s)
  {
    assert forall u, w :: Owns(s', u, w) <==> Owns(s, u, w);
    assert forall u, w | Owns(s, u, w) :: OwnWaiter(s, u, w);
  }

  /** A step that moves t within the same phase, with the same waiter. */
  lemma MoveKeeps(s: State, s': State, t: Tid, pc: Pc)
    requires Inv(s) && t in s.pcs
    requires s' == Goto(s, t, pc).(holder := s'.holder)
    requires PhaseOf(pc) == PhaseOf(s.pcs[t]) && WaiterOf(pc) == WaiterOf(s.pcs[t])
    requires WaiterOf(pc).Some? ==> forall q: bool | Expected(t, s.pcs[t], q).Some? ::
      Expected(t, pc, q) == Expected(t, s.pcs[t], q)
    requires !pc.Signalling? && !s.pcs[t].Signalling?
    requires pc.Broadcasting? ==> pc.start == s.waitQueue
    requires HolderInv(s')
    ensures Inv(s')
  {
    hide LockInv, WaitersInv, HolderInv, PhasesOf, Owing;
    SamePhases(s, s', t, pc);
    MoveWaiters(s, s', t, pc);
    MovedBroadcast(s, s', t, pc);
  }

  lemma MovedBroadcast(s: State, s': State, t: Tid, pc: Pc)
    requires BroadcastInv(s) && t in s.pcs && s'.pcs == s.pcs[t := pc]
    requires s'.waitQueue == s.waitQueue && s'.waiters == s.waiters
    requires pc.Broadcasting? ==> pc.start == s.waitQueue && forall w | w in s.waitQueue :: w in s.waiters
    ensures BroadcastInv(s')
  {}

  lemma TryLockKeeps(s: State, t: Tid, op: Op, c: Choice)
    requires Inv(s) && t in s.pcs && (s.pcs[t] == AtLock(op) || s.pcs[t] == LockWoken(op))
    ensures Keeps(s, t, c)
  {
    hide Do, AppendsDuplicate, LockInv, WaitersInv, HolderInv, BroadcastInv, TryP, PhasesOf, Owing;
    TryLockIs(s, t, op, c);
    TryLockLock(s, t, op);
    var s' := TryLock(s, t, op).state;
    MoveWaiters(s, s', t, s'.pcs[t]);
    MoveOthers(s, s', t, s'.pcs[t]);
  }

  lemma TryLockIs(s: State, t: Tid, op: Op, c: Choice)
    requires t in s.pcs && (s.pcs[t] == AtLock(op) || s.pcs[t] == LockWoken(op))
    ensures Do(s, t, c) == TryLock(s, t, op) && !AppendsDuplicate(s, t)
  {
    hide TryLock;
  }

  lemma TryLockLock(s: State, t: Tid, op: Op)
    requires LockInv(s.lock, PhasesOf(s)) && t in s.pcs && (s.pcs[t] == AtLock(op) || s.pcs[t] == LockWoken(op))
    ensures TryLock(s, t, op).Next?
    ensures var s' := TryLock(s, t, op).state; LockInv(s'.lock, PhasesOf(s'))
  {
    TryKeepsLock(s.lock, PhasesOf(s), t);
    var s' := TryLock(s, t, op).state;
    PhasesGoto(s, s', t, s'.pcs[t]);
  }

  lemma MoveOthers(s: State, s': State, t: Tid, pc: Pc)
    requires HolderInv(s) && BroadcastInv(s) && t in s.pcs
    requires s'.pcs == s.pcs[t := pc] && s'.holder == s.holder
    requires s'.waitQueue == s.waitQueue && s'.waiters == s.waiters
    requires IsHolder(pc) == IsHolder(s.pcs[t]) && !pc.Broadcasting?
    ensures HolderInv(s') && BroadcastInv(s')
  {}

  /** The same for a step that only deletes or only adds waiters while nobody
      broadcasts. */
  lemma NoBroadcastOthers(s: State, s': State, t: Tid, pc: Pc)
    requires HolderInv(s) && t in s.pcs && forall u | u in s.pcs :: !s.pcs[u].Broadcasting?
    requires s'.pcs == s.pcs[t := pc] && s'.holder == s.holder
    requires IsHolder(pc) == IsHolder(s.pcs[t]) && !pc.Broadcasting?
    ensures HolderInv(s') && BroadcastInv(s')
  {}

  lemma UnlockKeeps(s: State, t: Tid, after: After, c: Choice)
    requires Inv(s) && t in s.pcs && s.pcs[t] == Unlocking(after)
    ensures Keeps(s, t, c)
  {
    hide Do, AppendsDuplicate, LockInv, PhasesOf, WaitersInv, HolderInv, BroadcastInv, Owing, V;
    UnlockIs(s, t, after, c);
    UnlockLock(s, t, after);
    UnlockMoves(s, t, after);
  }

  lemma UnlockIs(s: State, t: Tid, after: After, c: Choice)
    requires t in s.pcs && s.pcs[t] == Unlocking(after)
    ensures Do(s, t, c) == Unlock(s, t, after) && !AppendsDuplicate(s, t)
  {
    hide Unlock;
  }

  lemma UnlockMoves(s: State, t: Tid, after: After)
    requires WaitersInv(s) && HolderInv(s) && BroadcastInv(s) && t in s.pcs && s.pcs[t] == Unlocking(after)
    requires Unlock(s, t, after).Next?
    ensures var s' := Unlock(s, t, after).state;
      WaitersInv(s') && HolderInv(s') && BroadcastInv(s') && Owing(s') == Owing(s)
  {
    hide WaitersInv, HolderInv, BroadcastInv, Owing, V;
    var pc := if after.Sleep? then AtWaiter(after.w) else Idle;
    var s1, s' := Goto(s, t, pc), Unlock(s, t, after).state;
    MoveWaiters(s, s1, t, pc);
    MoveOthers(s, s1, t, pc);
    if s.lock.queue == [] {
      var s2 := s1.(lock := s'.lock);
      assert s' == s2;
      SameView(s1, s2);
    } else {
      var u := s.lock.queue[0];
      MoveWaiters(s1, s', u, LockWoken(s1.pcs[u].op));
      MoveOthers(s1, s', u, LockWoken(s1.pcs[u].op));
    }
  }

  lemma SameView(s: State, s': State)
    requires WaitersInv(s) && HolderInv(s) && BroadcastInv(s)
    requires s' == s.(lock := s'.lock)
    ensures WaitersInv(s') && HolderInv(s') && BroadcastInv(s') && Owing(s') == Owing(s)
  {
    assert forall u, w :: Owns(s', u, w) <==> Owns(s, u, w);
    assert forall u, w | Owns(s, u, w) :: OwnWaiter(s, u, w);
  }

  lemma UnlockLock(s: State, t: Tid, after: After)
    requires LockInv(s.lock, PhasesOf(s)) && t in s.pcs && s.pcs[t] == Unlocking(after)
    ensures Unlock(s, t, after).Next?
    ensures var s' := Unlock(s, t, after).state; LockInv(s'.lock, PhasesOf(s'))
  {
    VKeepsLock(s.lock, PhasesOf(s), t);
    UnlockPhases(s, t, after);
  }

  lemma UnlockPhases(s: State, t: Tid, after: After)
    requires t in s.pcs && s.pcs[t] == Unlocking(after)
    requires s.lock.queue != [] ==> s.lock.queue[0] in s.pcs && PhaseOf(s.pcs[s.lock.queue[0]]) == Queued
    ensures Unlock(s, t, after).Next?
    ensures PhasesOf(Unlock(s, t, after).state) == AfterV(s.lock, PhasesOf(s), t)
  {}

  lemma AppendKeeps(s: State, t: Tid, item: Item, c: Choice, s': State)
    requires Inv(s) && t in s.pcs && s.pcs[t] == Holding(Append(item))
    requires DoOp(s, t, Append(item), c) == Next(s')
    ensures Inv(s')
  {
    hide LockInv, WaitersInv, HolderInv, BroadcastInv, PhasesOf, Owing;
    SamePhases(s, s', t, Signalling);
    MoveWaiters(s, s', t, Signalling);
    MoveOthers(s, s', t, Signalling);
    AppenderOwes(s, s', t);
  }

  lemma SamePhases(s: State, s': State, t: Tid, pc: Pc)
    requires t in s.pcs && s'.pcs == s.pcs[t := pc] && PhaseOf(pc) == PhaseOf(s.pcs[t])
    ensures PhasesOf(s') == PhasesOf(s)
  {}

  lemma AppenderOwes(s: State, s': State, t: Tid)
    requires t in s.pcs && s.pcs[t].Holding? && s.pcs[t].op.Append?
    requires s'.pcs == s.pcs[t := Signalling] && s'.waitQueue == s.waitQueue
    ensures Owing(s') == Owing(s) + {t} && t !in Owing(s)
  {}

  /** The holder of the lock is not overtaken by a broadcaster. */
  lemma NoBroadcaster(s: State, t: Tid)
    requires Inv(s) && t in s.pcs && s.pcs[t].Holding?
    ensures forall u | u in s.pcs :: !s.pcs[u].Broadcasting?
  {
    forall u | u in s.pcs ensures !s.pcs[u].Broadcasting? {
      if s.pcs[u].Broadcasting? {
        InsiderUnique(s.lock, PhasesOf(s), t, u);
      }
    }
  }

  predicate TestsList(pc: Pc) {
    pc.Holding? && (pc.op.RemoveFront? || pc.op.Rewait?)
  }

  /** The waiters when t, about to test the list, has deleted its own. */
  function Dropped(s: State, t: Tid): map<Wid, Waiter>
    requires t in s.pcs && TestsList(s.pcs[t])
  {
    if s.pcs[t].op.Rewait? then s.waiters - {s.pcs[t].op.w} else s.waiters
  }

  /** t deletes its waiter, if it has one. */
  lemma DropWaiter(s: State, s': State, t: Tid, pc: Pc)
    requires WaitersInv(s) && t in s.pcs && TestsList(s.pcs[t])
    requires s'.pcs == s.pcs[t := pc] && WaiterOf(pc) == None && !pc.Signalling?
    requires s'.waitQueue == s.waitQueue
    requires s'.waiters == Dropped(s, t)
    ensures WaitersInv(s') && Owing(s') == Owing(s) - {t}
  {
    if s.pcs[t].op.Rewait? {
      assert Owns(s, t, s.pcs[t].op.w) && OwnWaiter(s, t, s.pcs[t].op.w);
    }
    assert forall u, w :: Owns(s', u, w) <==> Owns(s, u, w) && u != t;
    assert forall u, w | Owns(s', u, w) :: OwnWaiter(s, u, w);
  }

  function Taken(s: State, t: Tid): State
    requires t in s.pcs && TestsList(s.pcs[t]) && s.list != []
  {
    s.(pcs := s.pcs[t := Releasing(Return(s.list[0]))], list := s.list[1..], removed := s.removed + [s.list[0]],
       waiters := Dropped(s, t))
  }

  function Entered(s: State, t: Tid, w: Wid): State
    requires t in s.pcs && TestsList(s.pcs[t])
  {
    s.(pcs := s.pcs[t := Releasing(Sleep(w))], waitQueue := s.waitQueue + [w],
       waiters := Dropped(s, t)[w := Waiter(Sem(0, []), 0)])
  }

  lemma TestShape(s: State, t: Tid, c: Choice)
    requires t in s.pcs && TestsList(s.pcs[t]) && Do(s, t, c).Next?
    ensures s.list != [] ==> Do(s, t, c).state == Taken(s, t)
    ensures s.list == [] ==> c.Fresh? && c.w !in Dropped(s, t) && Do(s, t, c).state == Entered(s, t, c.w)
  {}

  /** The list test takes the first item. */
  lemma TakeKeeps(s: State, t: Tid)
    requires Inv(s) && t in s.pcs && TestsList(s.pcs[t]) && s.list != []
    ensures Inv(Taken(s, t))
  {
    var s' := Taken(s, t);
    TestFrame(s, s', t, Releasing(Return(s.list[0])));
    DropWaiter(s, s', t, Releasing(Return(s.list[0])));
    hide LockInv, HolderInv, BroadcastInv, WaitersInv;
    assert s'.removed + s'.list == s.removed + s.list;
  }

  /** The list test finds nothing and enters Wait. */
  lemma WaitKeeps(s: State, t: Tid, w: Wid)
    requires Inv(s) && t in s.pcs && TestsList(s.pcs[t]) && s.list == [] && w !in Dropped(s, t)
    ensures Inv(Entered(s, t, w))
  {
    var s' := Entered(s, t, w);
    TestFrame(s, s', t, Releasing(Sleep(w)));
    var s1 := s.(pcs := s.pcs[t := Releasing(Finish)], waiters := Dropped(s, t));
    DropWaiter(s, s1, t, Releasing(Finish));
    hide LockInv, HolderInv, BroadcastInv, WaitersInv;
    NewWaiter(s1, s', t, w);
  }

  lemma TestFrame(s: State, s': State, t: Tid, pc: Pc)
    requires Inv(s) && t in s.pcs && TestsList(s.pcs[t]) && pc.Releasing?
    requires s'.pcs == s.pcs[t := pc] && s'.holder == s.holder && s'.lock == s.lock
    ensures LockInv(s'.lock, PhasesOf(s')) && HolderInv(s') && BroadcastInv(s')
  {
    NoBroadcaster(s, t);
    NoBroadcastOthers(s, s', t, pc);
    hide HolderInv, BroadcastInv, WaitersInv;
    PhasesGoto(s, s', t, pc);
    assert PhasesOf(s') == PhasesOf(s);
  }

  lemma NewWaiter(s: State, s': State, t: Tid, w: Wid)
    requires WaitersInv(s) && t in s.pcs && s.pcs[t] == Releasing(Finish) && w !in s.waiters
    requires s'.pcs == s.pcs[t := Releasing(Sleep(w))]
    requires s'.waitQueue == s.waitQueue + [w] && s'.waiters == s.waiters[w := Waiter(Sem(0, []), 0)]
    ensures WaitersInv(s')
  {
    assert forall u, v :: Owns(s', u, v) <==> if u == t then v == w else Owns(s, u, v);
    assert Owns(s', t, w) && OwnWaiter(s', t, w);
    assert forall u, v | Owns(s, u, v) :: OwnWaiter(s, u, v);
  }

  lemma SignalKeeps(s: State, t: Tid, pc: Pc, c: Choice)
    requires Inv(s) && t in s.pcs
    requires s.pcs[t] == Signalling || s.pcs[t].Broadcasting?
    requires pc == if s.pcs[t].Signalling? || s.waitQueue == [] then Releasing(Finish) else s.pcs[t]
    ensures Keeps(s, t, c)
  {
    if s.waitQueue == [] {
      SignalNobody(s, t, pc);
    } else {
      var o := SleepingOwner(s, t);
      SignalOneKeeps(s, t, pc, o);
    }
  }

  lemma SignalNobody(s: State, t: Tid, pc: Pc)
    requires Inv(s) && t in s.pcs && s.waitQueue == [] && pc == Releasing(Finish)
    requires s.pcs[t] == Signalling || s.pcs[t].Broadcasting?
    ensures Inv(Goto(s, t, pc))
  {
    hide LockInv, WaitersInv, HolderInv, BroadcastInv, PhasesOf, Owing;
    var s' := Goto(s, t, pc);
    SamePhases(s, s', t, pc);
    MoveWaiters(s, s', t, pc);
    MoveOthers(s, s', t, pc);
  }

  /** While t has the lock, the owner of the first waiter in the queue is in or
      before the P on it. */
  lemma SleepingOwner(s: State, t: Tid) returns (o: Tid)
    requires Inv(s) && t in s.pcs && PhaseOf(s.pcs[t]) == Inside && s.waitQueue != []
    requires WaiterOf(s.pcs[t]) == None
    ensures Owns(s, o, s.waitQueue[0]) && OwnWaiter(s, o, s.waitQueue[0])
    ensures s.pcs[o].AtWaiter? || s.pcs[o].WaiterQueued?
  {
    var w := s.waitQueue[0];
    assert w in s.waitQueue;
    o :| Owns(s, o, w);
    assert OwnWaiter(s, o, w);
    if PhaseOf(s.pcs[o]) == Inside {
      InsiderUnique(s.lock, PhasesOf(s), t, o);
    }
  }

  /** What Signal does when the queue is not empty: o owns its first waiter. */
  ghost predicate Signalled(s: State, s': State, t: Tid, pc: Pc, o: Tid)
    requires t in s.pcs && o in s.pcs && s.waitQueue != []
  {
    var w := s.waitQueue[0];
    && s' == s.(pcs := s'.pcs, waitQueue := s.waitQueue[1..],
                waiters := s.waiters[w := Waiter(Sem(1, []), 1)])
    && s'.pcs == s.pcs[t := pc][o := if s.pcs[o].WaiterQueued? then WaiterWoken(w) else AtWaiter(w)]
  }

  lemma SignalOneKeeps(s: State, t: Tid, pc: Pc, o: Tid)
    requires Inv(s) && t in s.pcs && s.waitQueue != []
    requires s.pcs[t] == Signalling || s.pcs[t].Broadcasting?
    requires pc == if s.pcs[t].Signalling? then Releasing(Finish) else s.pcs[t]
    requires Owns(s, o, s.waitQueue[0]) && OwnWaiter(s, o, s.waitQueue[0])
    requires s.pcs[o].AtWaiter? || s.pcs[o].WaiterQueued?
    ensures Signal(s, t, pc).Next? && Inv(Signal(s, t, pc).state)
  {
    hide Signal, LockInv, WaitersInv, BroadcastInv, PhasesOf, Owing;
    assert o != t;
    SignalShape(s, t, pc, o);
    var s' := Signal(s, t, pc).state;
    SignalledWaiters(s, s', t, pc, o);
    SignalledOwing(s, s', t, pc, o);
    SignalledOthers(s, s', t, pc, o);
  }

  lemma SignalShape(s: State, t: Tid, pc: Pc, o: Tid)
    requires t in s.pcs && s.waitQueue != [] && s.holder == Some(t) && o != t
    requires Owns(s, o, s.waitQueue[0]) && OwnWaiter(s, o, s.waitQueue[0])
    requires s.pcs[o].AtWaiter? || s.pcs[o].WaiterQueued?
    ensures Signal(s, t, pc).Next? && Signalled(s, Signal(s, t, pc).state, t, pc, o)
  {}

  lemma SignalledOthers(s: State, s': State, t: Tid, pc: Pc, o: Tid)
    requires HolderInv(s) && BroadcastInv(s) && t in s.pcs && o in s.pcs && s.waitQueue != []
    requires pc == s.pcs[t] || (pc == Releasing(Finish) && s.pcs[t] == Signalling)
    requires s.pcs[o].AtWaiter? || s.pcs[o].WaiterQueued?
    requires o != t && s.holder == Some(t) && Signalled(s, s', t, pc, o) && s.waitQueue[0] in s.waiters
    ensures HolderInv(s') && BroadcastInv(s') && PhasesOf(s') == PhasesOf(s)
  {
    hide BroadcastInv, PhasesOf;
    SignalledBroadcast(s, s', t, pc, o);
    SignalledPhases(s, s', t, pc, o);
  }

  lemma SignalledBroadcast(s: State, s': State, t: Tid, pc: Pc, o: Tid)
    requires BroadcastInv(s) && t in s.pcs && o in s.pcs && s.waitQueue != [] && s.waitQueue[0] in s.waiters
    requires pc == s.pcs[t] || pc == Releasing(Finish)
    requires o != t && Signalled(s, s', t, pc, o)
    ensures BroadcastInv(s')
  {
    forall u | u in s'.pcs && s'.pcs[u].Broadcasting?
      ensures Suffix(s'.waitQueue, s'.pcs[u].start) && forall w | w in s'.pcs[u].start :: w in s'.waiters
    {
      assert s'.pcs[u] == s.pcs[u] && Suffix(s.waitQueue, s.pcs[u].start);
      SuffixTail(s.waitQueue, s.pcs[u].start);
    }
  }

  lemma SuffixTail<T(!new)>(q: seq<T>, start: seq<T>)
    requires Suffix(q, start) && q != []
    ensures Suffix(q[1..], start)
  {
    var i := |start| - |q|;
    assert start[i + 1..] == start[i..][1..];
  }

  lemma SignalledPhases(s: State, s': State, t: Tid, pc: Pc, o: Tid)
    requires t in s.pcs && o in s.pcs && s.waitQueue != [] && o != t && Signalled(s, s', t, pc, o)
    requires PhaseOf(pc) == PhaseOf(s.pcs[t]) && (s.pcs[o].AtWaiter? || s.pcs[o].WaiterQueued?)
    ensures PhasesOf(s') == PhasesOf(s)
  {}

  lemma SignalledWaiters(s: State, s': State, t: Tid, pc: Pc, o: Tid)
    requires WaitersInv(s) && t in s.pcs && s.waitQueue != []
    requires WaiterOf(s.pcs[t]) == None && WaiterOf(pc) == None
    requires Owns(s, o, s.waitQueue[0]) && (s.pcs[o].AtWaiter? || s.pcs[o].WaiterQueued?)
    requires Signalled(s, s', t, pc, o)
    ensures WaitersInv(s')
  {
    hide NoDup;
    var w := s.waitQueue[0];
    QueueTail(s.waitQueue);
    assert forall u, v :: Owns(s', u, v) <==> Owns(s, u, v);
    assert OwnWaiter(s', o, w);
    assert forall u, v | Owns(s, u, v) :: OwnWaiter(s, u, v);
  }

  lemma QueueTail(q: seq<Wid>)
    requires NoDup(q) && q != []
    ensures NoDup(q[1..]) && forall v :: v in q[1..] <==> v in q && v != q[0]
  {
    forall v | v in q && v != q[0] ensures v in q[1..] {
      var i :| 0 <= i < |q| && q[i] == v;
      assert q[1..][i - 1] == v;
    }
  }

  /** The signalled consumer takes over from the thread that signalled it. */
  lemma SignalledOwing(s: State, s': State, t: Tid, pc: Pc, o: Tid)
    requires WaitersInv(s) && t in s.pcs && s.waitQueue != []
    requires WaiterOf(s.pcs[t]) == None && WaiterOf(pc) == None && !pc.Signalling?
    requires Owns(s, o, s.waitQueue[0]) && (s.pcs[o].AtWaiter? || s.pcs[o].WaiterQueued?)
    requires Signalled(s, s', t, pc, o)
    ensures Owing(s') == Owing(s) - {t} + {o} && o !in Owing(s)
  {
    var w := s.waitQueue[0];
    assert forall v :: v in s'.waitQueue <==> v in s.waitQueue && v != w;
    forall u | u in s.pcs && u != t && u != o
      ensures Owes(s'.pcs[u], s'.waitQueue) == Owes(s.pcs[u], s.waitQueue)
    {
      assert !Owns(s, u, w);
    }
  }

  lemma TryWaiterKeeps(s: State, t: Tid, w: Wid, c: Choice)
    requires Inv(s) && t in s.pcs && (s.pcs[t] == AtWaiter(w) || s.pcs[t] == WaiterWoken(w))
    ensures Keeps(s, t, c)
  {
    hide Do, AppendsDuplicate, WaitersInv, LockInv, PhasesOf, HolderInv, BroadcastInv, Owing, TryP;
    TryWaiterIs(s, t, w, c);
    TryWaiterWaiters(s, t, w);
    var s' := TryWaiter(s, t, w).state;
    SamePhases(s, s', t, s'.pcs[t]);
    TryWaiterOthers(s, s', t, s'.pcs[t]);
  }

  lemma TryWaiterIs(s: State, t: Tid, w: Wid, c: Choice)
    requires t in s.pcs && (s.pcs[t] == AtWaiter(w) || s.pcs[t] == WaiterWoken(w))
    ensures Do(s, t, c) == TryWaiter(s, t, w) && !AppendsDuplicate(s, t)
  {
    hide TryWaiter;
  }

  lemma TryWaiterOthers(s: State, s': State, t: Tid, pc: Pc)
    requires HolderInv(s) && BroadcastInv(s) && t in s.pcs
    requires s'.pcs == s.pcs[t := pc] && s'.holder == s.holder
    requires s'.waitQueue == s.waitQueue && s'.waiters.Keys == s.waiters.Keys
    requires IsHolder(pc) == IsHolder(s.pcs[t]) && !pc.Broadcasting?
    ensures HolderInv(s') && BroadcastInv(s')
  {}

  lemma TryWaiterWaiters(s: State, t: Tid, w: Wid)
    requires WaitersInv(s) && t in s.pcs && (s.pcs[t] == AtWaiter(w) || s.pcs[t] == WaiterWoken(w))
    ensures TryWaiter(s, t, w).Next?
    ensures var s' := TryWaiter(s, t, w).state; WaitersInv(s') && Owing(s') == Owing(s)
  {
    hide NoDup;
    OwnTry(s, t, w);
    var s' := TryWaiter(s, t, w).state;
    assert forall u, v :: Owns(s', u, v) <==> Owns(s, u, v);
    assert Owns(s, t, w);
    forall u, v | Owns(s', u, v) ensures OwnWaiter(s', u, v) {
      assert Owns(s, u, v) && OwnWaiter(s, u, v);
      if u != t { assert v != w; }
    }
    assert Owing(s') == Owing(s);
  }

  lemma OwnTry(s: State, t: Tid, w: Wid)
    requires WaitersInv(s) && t in s.pcs && (s.pcs[t] == AtWaiter(w) || s.pcs[t] == WaiterWoken(w))
    ensures TryWaiter(s, t, w).Next? && OwnWaiter(TryWaiter(s, t, w).state, t, w)
    ensures w in s.waiters
  {
    assert Owns(s, t, w) && OwnWaiter(s, t, w);
    assert [] + [t] == [t];
  }

  // ------------------------------------------------------------- every run

  /** Every step of every thread keeps the invariant, and faults exactly when
      the client appends an item that is in the list already. */
  lemma StepKeeps(s: State, t: Tid, c: Choice)
    requires Inv(s) && t in s.pcs
    ensures Do(s, t, c).Fault? <==> AppendsDuplicate(s, t)
    ensures Do(s, t, c).Next? ==> Inv(Do(s, t, c).state)
  {
    assert Keeps(s, t, c) by { AnyStepKeeps(s, t, c); }
  }

  lemma AnyStepKeeps(s: State, t: Tid, c: Choice)
    requires Inv(s) && t in s.pcs
    ensures Keeps(s, t, c)
  {
    match s.pcs[t]
    case Idle => IdleKeeps(s, t, c);
    case AtLock(op) => TryLockKeeps(s, t, op, c);
    case LockWoken(op) => TryLockKeeps(s, t, op, c);
    case Got(op) => GotKeeps(s, t, c);
    case Holding(op) => HoldingKeeps(s, t, c);
    case Signalling => SignalKeeps(s, t, Releasing(Finish), c);
    case Broadcasting(start) =>
      SignalKeeps(s, t, if s.waitQueue == [] then Releasing(Finish) else Broadcasting(start), c);
    case Releasing(after) => ReleaseKeeps(s, t, c);
    case Unlocking(after) => UnlockKeeps(s, t, after, c);
    case AtWaiter(w) => TryWaiterKeeps(s, t, w, c);
    case WaiterWoken(w) => TryWaiterKeeps(s, t, w, c);
    case _ =>
  }

  lemma IdleKeeps(s: State, t: Tid, c: Choice)
    requires Inv(s) && t in s.pcs && s.pcs[t] == Idle
    ensures Keeps(s, t, c)
  {
    if Do(s, t, c).Next? { MoveKeeps(s, Do(s, t, c).state, t, AtLock(c.op)); }
  }

  lemma ReleaseKeeps(s: State, t: Tid, c: Choice)
    requires Inv(s) && t in s.pcs && s.pcs[t].Releasing?
    ensures Keeps(s, t, c)
  {
    MoveKeeps(s, Do(s, t, c).state, t, Unlocking(s.pcs[t].after));
  }

  lemma GotKeeps(s: State, t: Tid, c: Choice)
    requires Inv(s) && t in s.pcs && s.pcs[t].Got?
    ensures Keeps(s, t, c)
  {
    forall u | u in s.pcs && u != t ensures !IsHolder(s.pcs[u]) {
      if IsHolder(s.pcs[u]) { InsiderUnique(s.lock, PhasesOf(s), t, u); }
    }
    MoveKeeps(s, Do(s, t, c).state, t, Holding(s.pcs[t].op));
  }

  lemma HoldingKeeps(s: State, t: Tid, c: Choice)
    requires Inv(s) && t in s.pcs && s.pcs[t].Holding?
    ensures Keeps(s, t, c)
  {
    var op := s.pcs[t].op;
    if op.Rewait? {
      assert Owns(s, t, op.w) && OwnWaiter(s, t, op.w);
    }
    if Do(s, t, c).Next? {
      var s' := Do(s, t, c).state;
      match op {
        case Append(item) => AppendKeeps(s, t, item, c, s');
        case Broadcast => MoveKeeps(s, s', t, Broadcasting(s.waitQueue));
        case _ =>
          TestShape(s, t, c);
          if s.list == [] { WaitKeeps(s, t, c.w); } else { TakeKeeps(s, t); }
      }
    }
  }

  ghost predicate Step(s: State, s': State) {
    exists t, c :: t in s.pcs && Do(s, t, c) == Next(s')
  }

  ghost predicate StepAt(run: seq<State>, i: nat)
    requires i + 1 < |run|
  {
    Step(run[i], run[i + 1])
  }

  ghost predicate IsRun(run: seq<State>) {
    && run != [] && Init(run[0])
    && forall i | 0 <= i < |run| - 1 :: StepAt(run, i)
  }

  lemma {:induction false} RunInv(run: seq<State>, i: nat)
    requires IsRun(run) && i < |run|
    ensures Inv(run[i])
  {
    if i == 0 {
      InitHolds(run[0]);
    } else {
      hide Do, Inv;
      RunInv(run, i - 1);
      assert StepAt(run, i - 1);
      var t, c :| t in run[i - 1].pcs && Do(run[i - 1], t, c) == Next(run[i]);
      StepKeeps(run[i - 1], t, c);
    }
  }

  // ------------------------------------------------- what the invariant gives

  /** Linearizability: the items appended so far are the items removed so far,
      in order, followed by the list; and in a run both logs only grow. */
  lemma Fifo(run: seq<State>, i: nat, j: nat)
    requires IsRun(run) && i <= j < |run|
    ensures run[i].appended == run[i].removed + run[i].list
    ensures run[i].appended <= run[j].appended && run[i].removed <= run[j].removed
  {
    RunInv(run, i);
    LogsGrow(run, i, j);
  }

  lemma {:induction false} LogsGrow(run: seq<State>, i: nat, j: nat)
    requires IsRun(run) && i <= j < |run|
    ensures run[i].appended <= run[j].appended && run[i].removed <= run[j].removed
    decreases j
  {
    if i < j {
      LogsGrow(run, i, j - 1);
      assert StepAt(run, j - 1);
      StepGrows(run[j - 1], run[j]);
      PrefixTrans(run[i].appended, run[j - 1].appended, run[j].appended);
      PrefixTrans(run[i].removed, run[j - 1].removed, run[j].removed);
    }
  }

  lemma StepGrows(s: State, s': State)
    requires Step(s, s')
    ensures s.appended <= s'.appended && s.removed <= s'.removed
  {
    hide TryP, V;
  }

  /** Mutual exclusion: the lock's value plus the threads between P and V is one. */
  lemma MutualExclusion(run: seq<State>, i: nat)
    requires IsRun(run) && i < |run|
    ensures run[i].lock.value + |Insiders(PhasesOf(run[i]))| == 1
  {
    RunInv(run, i);
  }

  ghost predicate Consumer(s: State, t: Tid) {
    t in s.pcs && WaiterOf(s.pcs[t]).Some? && WaiterOf(s.pcs[t]).value !in s.waitQueue
  }

  /** No lost wakeup: while the lock is free and a consumer is still in the
      condition's queue, the list is no longer than the number of consumers that
      have been signalled and have not tested the list again. */
  lemma NoLostWakeup(run: seq<State>, i: nat)
    requires IsRun(run) && i < |run|
    requires run[i].lock.value == 1 && run[i].waitQueue != []
    ensures |run[i].list| <= |set t | t in run[i].pcs && Consumer(run[i], t)|
  {
    RunInv(run, i);
    var s := run[i];
    NobodyInside(s);
    assert Owing(s) == set t | t in s.pcs && Consumer(s, t);
  }

  lemma NobodyInside(s: State)
    requires LockInv(s.lock, PhasesOf(s)) && s.lock.value == 1
    ensures forall t | t in s.pcs :: PhaseOf(s.pcs[t]) != Inside
  {
    var inside := Insiders(PhasesOf(s));
    assert inside == {};
    assert forall t | t in s.pcs && PhaseOf(s.pcs[t]) == Inside :: t in inside;
  }

  /** A thread inside an operation that is not asleep. */
  ghost predicate Runnable(s: State, t: Tid) {
    t in s.pcs && s.pcs[t] != Idle && exists c :: !Do(s, t, c).Blocked?
  }

  /** No reachable state strands a sleeper: if some thread sleeps on the lock, or
      sleeps in Wait while the list has an item, another thread can run. */
  lemma SleepersGetHelp(run: seq<State>, i: nat, t: Tid)
    requires IsRun(run) && i < |run| && t in run[i].pcs
    requires run[i].pcs[t].LockQueued? || (run[i].pcs[t].WaiterQueued? && run[i].list != [])
    ensures exists u :: Runnable(run[i], u)
  {
    RunInv(run, i);
    var s := run[i];
    if s.lock.value == 0 {
      var u :| u in Insiders(PhasesOf(s));
      InsiderRuns(s, u);
    } else if s.pcs[t].LockQueued? {
      assert PhasesOf(s)[t] == Queued;
      WokenRuns(s);
    } else {
      NobodyInside(s);
      assert Owns(s, t, s.pcs[t].w) && OwnWaiter(s, t, s.pcs[t].w);
      assert Owing(s) != {};
      var u :| u in Owing(s);
      var w := WaiterOf(s.pcs[u]).value;
      assert Owns(s, u, w) && OwnWaiter(s, u, w);
      if s.pcs[u].LockQueued? {
        assert PhasesOf(s)[u] == Queued;
        WokenRuns(s);
      } else {
        StepKeeps(s, u, Fresh(0));
        assert !Do(s, u, Fresh(0)).Blocked?;
        assert Runnable(s, u);
      }
    }
  }

  lemma WokenRuns(s: State)
    requires LockInv(s.lock, PhasesOf(s)) && s.lock.value == 1
    requires exists t :: t in PhasesOf(s) && PhasesOf(s)[t] == Queued
    ensures exists u :: Runnable(s, u)
  {
    var t :| t in PhasesOf(s) && PhasesOf(s)[t] == Queued;
    assert t in s.lock.queue;
    var u :| u in PhasesOf(s) && PhasesOf(s)[u] == Woken;
    assert !Do(s, u, Fresh(0)).Blocked?;
    assert Runnable(s, u);
  }

  lemma InsiderRuns(s: State, u: Tid)
    requires u in s.pcs && PhaseOf(s.pcs[u]) == Inside
    ensures Runnable(s, u)
  {
    var w := Unused(s.waiters.Keys);
    assert !Do(s, u, Fresh(w)).Blocked?;
  }

  /** There is always an address for a new semaphore. */
  lemma {:induction false} Unused(used: set<Wid>) returns (w: Wid)
    ensures w !in used && forall v | v in used :: v < w
  {
    if used == {} {
      w := 0;
    } else {
      var v :| v in used;
      var w1 := Unused(used - {v});
      w := if v < w1 then w1 else v + 1;
      assert forall u | u in used :: u == v || u in used - {v};
    }
  }

  /** The condition's queue and the list are touched only by the lock's holder. */
  lemma OnlyTheHolder(s: State, t: Tid, c: Choice)
    requires Inv(s) && t in s.pcs && Do(s, t, c).Next?
    ensures var s' := Do(s, t, c).state;
      s'.waitQueue != s.waitQueue || s'.list != s.list ==> s.holder == Some(t)
  {}

  /** A waiter semaphore is deleted after exactly one V, by its own thread, when
      it is in no queue and no thread is in its queue. */
  lemma WaiterLifetime(s: State, t: Tid, c: Choice, w: Wid)
    requires Inv(s) && t in s.pcs && Do(s, t, c).Next?
    requires w in s.waiters && w !in Do(s, t, c).state.waiters
    ensures s.waiters[w] == Waiter(Sem(0, []), 1) && w !in s.waitQueue
    ensures Owns(s, t, w) && s.holder == Some(t)
  {
    DeletesOwn(s, t, c, w);
    hide Do;
    assert Owns(s, t, w) && OwnWaiter(s, t, w);
  }

  lemma DeletesOwn(s: State, t: Tid, c: Choice, w: Wid)
    requires t in s.pcs && Do(s, t, c).Next?
    requires w in s.waiters && w !in Do(s, t, c).state.waiters
    ensures s.pcs[t] == Holding(Rewait(w))
  {}

  /** When Broadcast stops, the queue is empty and each waiter that it found has
      received exactly one V. */
  lemma BroadcastSignalsAll(s: State, t: Tid)
    requires Inv(s) && t in s.pcs && s.pcs[t].Broadcasting? && s.waitQueue == []
    ensures forall w | w in s.pcs[t].start :: w in s.waiters && s.waiters[w].signals == 1
  {
    forall w | w in s.pcs[t].start ensures w in s.waiters && s.waiters[w].signals == 1 {
      var o :| Owns(s, o, w);
      assert OwnWaiter(s, o, w);
    }
  }

  /** A step of t moves another thread only to wake it. */
  lemma OthersStay(s: State, t: Tid, c: Choice, u: Tid)
    requires t in s.pcs && u in s.pcs && u != t && !s.pcs[u].LockQueued? && !s.pcs[u].WaiterQueued?
    requires Do(s, t, c).Next?
    ensures var s' := Do(s, t, c).state; u in s'.pcs && s'.pcs[u] == s.pcs[u]
  {
    hide TryP, V, Signal, Unlock, TryLock, TryWaiter, DoOp;
    match s.pcs[t]
    case Unlocking(after) => UnlockStays(s, t, after, u);
    case Signalling => SignalStays(s, t, Releasing(Finish), u);
    case Broadcasting(start) =>
      SignalStays(s, t, if s.waitQueue == [] then Releasing(Finish) else Broadcasting(start), u);
    case Holding(op) => DoOpStays(s, t, op, c, u);
    case AtLock(op) => TryLockStays(s, t, op, u);
    case LockWoken(op) => TryLockStays(s, t, op, u);
    case AtWaiter(w) => TryWaiterStays(s, t, w, u);
    case WaiterWoken(w) => TryWaiterStays(s, t, w, u);
    case _ =>
  }

  lemma UnlockStays(s: State, t: Tid, after: After, u: Tid)
    requires u in s.pcs && u != t && !s.pcs[u].LockQueued? && Unlock(s, t, after).Next?
    ensures var s' := Unlock(s, t, after).state; u in s'.pcs && s'.pcs[u] == s.pcs[u]
  {
    hide V;
  }

  lemma SignalStays(s: State, t: Tid, pc: Pc, u: Tid)
    requires u in s.pcs && u != t && !s.pcs[u].WaiterQueued? && Signal(s, t, pc).Next?
    ensures var s' := Signal(s, t, pc).state; u in s'.pcs && s'.pcs[u] == s.pcs[u]
  {
    hide V;
  }

  lemma DoOpStays(s: State, t: Tid, op: Op, c: Choice, u: Tid)
    requires u in s.pcs && u != t && DoOp(s, t, op, c).Next?
    ensures var s' := DoOp(s, t, op, c).state; u in s'.pcs && s'.pcs[u] == s.pcs[u]
  {}

  lemma TryLockStays(s: State, t: Tid, op: Op, u: Tid)
    requires u in s.pcs && u != t && TryLock(s, t, op).Next?
    ensures var s' := TryLock(s, t, op).state; u in s'.pcs && s'.pcs[u] == s.pcs[u]
  {
    hide TryP;
  }

  lemma TryWaiterStays(s: State, t: Tid, w: Wid, u: Tid)
    requires u in s.pcs && u != t && TryWaiter(s, t, w).Next?
    ensures var s' := TryWaiter(s, t, w).state; u in s'.pcs && s'.pcs[u] == s.pcs[u]
  {
    hide TryP;
  }

  /** A thread outside the lock gives no V to a waiter, and makes and deletes none. */
  lemma OutsiderSignals(s: State, t: Tid, c: Choice)
    requires t in s.pcs && PhaseOf(s.pcs[t]) != Inside && Do(s, t, c).Next?
    ensures var s' := Do(s, t, c).state;
      s'.waiters.Keys == s.waiters.Keys && forall w | w in s.waiters :: s'.waiters[w].signals == s.waiters[w].signals
  {
    hide TryP;
  }

  /** The broadcaster's own step gives one V, to the first waiter in the queue. */
  lemma BroadcasterSignals(s: State, b: Tid, c: Choice)
    requires b in s.pcs && s.pcs[b].Broadcasting? && Do(s, b, c).Next?
    ensures var s' := Do(s, b, c).state;
      && s'.waiters.Keys == s.waiters.Keys
      && forall w | w in s.waiters ::
           s'.waiters[w].signals == s.waiters[w].signals + if s.waitQueue != [] && w == s.waitQueue[0] then 1 else 0
  {
    hide V;
  }

  /** While b broadcasts, a V reaches only a waiter that b found, and only from b. */
  lemma DuringBroadcast(s: State, b: Tid, t: Tid, c: Choice)
    requires Inv(s) && b in s.pcs && s.pcs[b].Broadcasting? && t in s.pcs && Do(s, t, c).Next?
    ensures var s' := Do(s, t, c).state;
      && s'.waiters.Keys == s.waiters.Keys
      && forall w | w in s.waiters && s'.waiters[w].signals != s.waiters[w].signals :: t == b && w in s.pcs[b].start
  {
    hide Do, LockInv, WaitersInv, HolderInv;
    if t == b {
      BroadcasterSignals(s, b, c);
      if s.waitQueue != [] { SuffixFirst(s.waitQueue, s.pcs[b].start); }
    } else {
      OutsideBroadcast(s, b, t);
      OutsiderSignals(s, t, c);
    }
  }

  lemma SuffixFirst<T(!new)>(q: seq<T>, start: seq<T>)
    requires Suffix(q, start) && q != []
    ensures q[0] in start
  {
    assert q[0] == start[|start| - |q|];
  }

  lemma OutsideBroadcast(s: State, b: Tid, t: Tid)
    requires LockInv(s.lock, PhasesOf(s)) && b in s.pcs && s.pcs[b].Broadcasting? && t in s.pcs && t != b
    ensures PhaseOf(s.pcs[t]) != Inside
  {
    if PhaseOf(s.pcs[t]) == Inside { InsiderUnique(s.lock, PhasesOf(s), t, b); }
  }

  /** In the run, b has the lock for a Broadcast in state i, and from there to state
      k it drains the queue. */
  ghost predicate Draining(run: seq<State>, b: Tid, i: nat, k: nat) {
    && IsRun(run) && i < k < |run| && b in run[i].pcs && run[i].pcs[b] == Holding(Broadcast)
    && forall m | i < m <= k :: b in run[m].pcs && run[m].pcs[b].Broadcasting?
  }

  /** As long as the drain lasts, no waiter comes or goes, and a waiter that was not
      in the queue at the call gets no V from anybody. */
  lemma {:induction false} NobodyElse(run: seq<State>, b: Tid, i: nat, k: nat)
    requires Draining(run, b, i, k)
    ensures run[k].pcs[b].start == run[i].waitQueue && run[k].waiters.Keys == run[i].waiters.Keys
    ensures forall w | w in run[i].waiters && w !in run[i].waitQueue ::
      run[k].waiters[w].signals == run[i].waiters[w].signals
  {
    hide Do, Inv, IsRun;
    var t, c := StepOf(run, k - 1);
    if k == i + 1 {
      CallStep(run[i], b, t, c);
    } else {
      assert run[k - 1].pcs[b].Broadcasting?;
      NobodyElse(run, b, i, k - 1);
      RunInv(run, k - 1);
      DuringBroadcast(run[k - 1], b, t, c);
      DrainStep(run[k - 1], b, t, c);
    }
  }

  lemma StepOf(run: seq<State>, i: nat) returns (t: Tid, c: Choice)
    requires IsRun(run) && i + 1 < |run|
    ensures t in run[i].pcs && Do(run[i], t, c) == Next(run[i + 1])
  {
    hide Do;
    assert StepAt(run, i);
    t, c :| t in run[i].pcs && Do(run[i], t, c) == Next(run[i + 1]);
  }

  lemma CallStep(s: State, b: Tid, t: Tid, c: Choice)
    requires b in s.pcs && s.pcs[b] == Holding(Broadcast) && t in s.pcs && Do(s, t, c).Next?
    requires var s' := Do(s, t, c).state; b in s'.pcs && s'.pcs[b].Broadcasting?
    ensures Do(s, t, c).state == Goto(s, b, Broadcasting(s.waitQueue))
  {
    if t != b {
      OthersStay(s, t, c, b);
    }
  }

  lemma DrainStep(s: State, b: Tid, t: Tid, c: Choice)
    requires b in s.pcs && s.pcs[b].Broadcasting? && t in s.pcs && Do(s, t, c).Next?
    requires var s' := Do(s, t, c).state; b in s'.pcs && s'.pcs[b].Broadcasting?
    ensures Do(s, t, c).state.pcs[b].start == s.pcs[b].start
  {
    if t != b {
      hide Do;
      OthersStay(s, t, c, b);
    }
  }

  /** Broadcast signals exactly the waiters present: from the call to the end of the
      drain, whatever the other threads do, each waiter that was in the queue gets
      one V and every other waiter none. */
  lemma BroadcastExact(run: seq<State>, b: Tid, i: nat, j: nat)
    requires Draining(run, b, i, j) && run[j].waitQueue == []
    ensures run[j].waiters.Keys == run[i].waiters.Keys
    ensures forall w | w in run[i].waiters ::
      run[j].waiters[w].signals == run[i].waiters[w].signals + if w in run[i].waitQueue then 1 else 0
  {
    hide Do, Inv, IsRun;
    NobodyElse(run, b, i, j);
    RunInv(run, i);
    RunInv(run, j);
    BroadcastSignalsAll(run[j], b);
    Unsignalled(run[i]);
  }

  lemma Unsignalled(s: State)
    requires Inv(s)
    ensures forall w | w in s.waitQueue :: w in s.waiters && s.waiters[w].signals == 0
  {
    forall w | w in s.waitQueue ensures w in s.waiters && s.waiters[w].signals == 0 {
      var o :| Owns(s, o, w);
      assert OwnWaiter(s, o, w);
    }
  }
}
