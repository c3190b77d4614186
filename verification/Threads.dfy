/** Threads, the FIFO scheduler and all semaphores of the kernel together
    (threads/thread.cc, threads/scheduler.cc, threads/synch.cc).

    A step is a stretch of code that runs with interrupts off.  The running
    thread may call any operation at any time, and an interrupt handler may V any
    semaphore whenever simulated time advances: while a thread runs, and while
    the processor idles in Sleep.  A failed ASSERT is the outcome Fault.  A second
    Fork of a thread fails the ready list's ASSERT if the thread is there; otherwise
    it replaces the stack of a thread that is using it, which has its own outcome. */
module Threads {
  import opened Collections
  import opened Semaphores

  type Sid = nat

  datatype Pc =
    | Created          // allocated, not forked
    | Starting         // forked, has not run yet
    | Running
    | Yielding         // gave up the processor in Yield
    | Waiting(x: Sid)  // in the queue of semaphore x
    | Retrying(x: Sid) // taken off that queue by V, has not re-tested the value
    | Finished

  /** What the processor is doing: running current; inside Sleep's loop on
      current's stack, looking for a thread; or back from SWITCH, in the rest of
      Scheduler::Run or in Thread::Begin. */
  datatype Mode = User | Idling(finishing: bool) | Resuming

  /** A semaphore with its history: completed P and V operations. */
  datatype KSem = KSem(sem: Sem, initial: nat, ps: nat, vs: nat)

  datatype State = State(
    current: Tid, mode: Mode, ready: seq<Tid>, doomed: Option<Tid>,
    sems: map<Sid, KSem>, pcs: map<Tid, Pc>,
    // the interrupt level, and the level that each suspended thread will restore
    enabled: bool, levels: map<Tid, bool>,
    // history: ReadyToRun calls, FindNextToRun results, deleted threads
    enqueued: seq<Tid>, dispatched: seq<Tid>, deleted: seq<Tid>)

  datatype Action =
    | New(t: Tid) | NewSem(x: Sid, value: nat) | SetLevel(on: bool)
    | Fork(t: Tid) | P(x: Sid) | SemV(x: Sid) | Yield | Finish
    | Dispatch         // FindNextToRun succeeds in Sleep's loop
    | Resume           // the code after SWITCH

  datatype Outcome = Next(state: State) | Disabled | Fault | StackReplaced

  ghost predicate Init(s: State) {
    && s.mode == User && s.doomed == None && s.sems == map[]
    && s.pcs == map[s.current := Running]
    && s.ready == s.enqueued == s.dispatched == s.deleted == []
  }

  // ---------------------------------------------------------------- steps

  function Do(s: State, a: Action): Outcome {
    match a
    case New(t) =>
      if s.mode == User && t !in s.pcs && t !in s.deleted
      then Next(s.(pcs := s.pcs[t := Created])) else Disabled
    case NewSem(x, value) =>
      if s.mode == User && x !in s.sems
      then Next(s.(sems := s.sems[x := KSem(Sem(value, []), value, 0, 0)])) else Disabled
    case SetLevel(on) => if s.mode == User then Next(s.(enabled := on)) else Disabled
    case Fork(t) => if s.mode == User && t in s.pcs then DoFork(s, t) else Disabled
    case P(x) => if s.mode == User && x in s.sems then TryOnce(Off(s), x, s.enabled) else Disabled
    case SemV(x) => if s.mode != Resuming && x in s.sems then DoV(s, x) else Disabled
    case Yield => if s.mode == User then DoYield(s) else Disabled
    case Finish => if s.mode == User then Sleep(Off(s), Finished, true) else Disabled
    case Dispatch => if s.mode.Idling? then FromSleep(s) else Disabled
    case Resume => if s.mode == Resuming then DoResume(s) else Disabled
  }

  function Off(s: State): State { s.(enabled := false) }

  /** What a routine that turned interrupts off does last. */
  function Restore(o: Outcome, on: bool): Outcome {
    if o.Next? then Next(o.state.(enabled := on)) else o
  }

  /** Scheduler::ReadyToRun, for a thread that will continue at pc. */
  function ReadyToRun(s: State, t: Tid, pc: Pc): Outcome {
    if s.enabled || t in s.ready then Fault
    else Next(s.(ready := s.ready + [t], enqueued := s.enqueued + [t], pcs := s.pcs[t := pc]))
  }

  /** Scheduler::FindNextToRun on a nonempty list: the thread is s.ready[0]. */
  function PopReady(s: State): State
    requires s.ready != []
  {
    s.(ready := s.ready[1..], dispatched := s.dispatched + [s.ready[0]])
  }

  /** Scheduler::Run up to SWITCH. */
  function Run(s: State, next: Tid, finishing: bool): Outcome {
    if s.enabled || (finishing && s.doomed.Some?) then Fault
    else Next(s.(doomed := if finishing then Some(s.current) else s.doomed,
                 current := next, mode := Resuming))
  }

  function DoFork(s: State, t: Tid): Outcome
    requires t in s.pcs
  {
    if s.pcs[t] != Created && t !in s.ready then StackReplaced
    else Restore(ReadyToRun(Off(s), t, Starting), s.enabled)
  }

  function DoYield(s: State): Outcome {
    if s.ready == [] then Next(s)
    else match ReadyToRun(PopReady(Off(s)), s.current, Yielding)
      case Next(s1) => Run(s1.(levels := s1.levels[s.current := s.enabled]), s.ready[0], false)
      case other => other
  }

  /** Thread::Sleep up to its loop. */
  function Sleep(s: State, pc: Pc, finishing: bool): Outcome {
    if s.enabled then Fault else Next(s.(mode := Idling(finishing), pcs := s.pcs[s.current := pc]))
  }

  /** The loop of Sleep: it ends when FindNextToRun finds a thread. */
  function FromSleep(s: State): Outcome
    requires s.mode.Idling?
  {
    if s.enabled then Fault
    else if s.ready == [] then Disabled
    else Run(PopReady(s), s.ready[0], s.mode.finishing)
  }

  /** One pass of the loop in Semaphore::P by the current thread, with interrupts
      off; level is what it restores in the end. */
  function TryOnce(s: State, x: Sid, level: bool): Outcome
    requires x in s.sems
  {
    var k, t := s.sems[x], s.current;
    var k' := k.(sem := TryP(k.sem, t));
    if k.sem.value > 0 then
      Next(s.(mode := User, enabled := level, sems := s.sems[x := k'.(ps := k.ps + 1)], pcs := s.pcs[t := Running]))
    else if t in k.sem.queue then Fault
    else Sleep(s.(sems := s.sems[x := k'], levels := s.levels[t := level]), Waiting(x), false)
  }

  /** Semaphore::V, by the running thread or by an interrupt handler. */
  function DoV(s: State, x: Sid): Outcome
    requires x in s.sems
  {
    var k := s.sems[x];
    var s1 := Off(s).(sems := s.sems[x := k.(sem := V(k.sem), vs := k.vs + 1)]);
    Restore(if k.sem.queue == [] then Next(s1) else ReadyToRun(s1, k.sem.queue[0], Retrying(x)), s.enabled)
  }

  /** Scheduler::CheckToBeDestroyed. */
  function Bury(s: State): State {
    if s.doomed == None then s
    else s.(pcs := s.pcs - {s.doomed.value}, deleted := s.deleted + [s.doomed.value], doomed := None)
  }

  /** The level a thread restores when it runs again; Begin enables interrupts. */
  predicate LevelOf(s: State, t: Tid) {
    t !in s.pcs || s.pcs[t].Starting? || t !in s.levels || s.levels[t]
  }

  /** The thread that was switched to goes on. */
  function Started(s: State): State {
    s.(mode := User, enabled := LevelOf(s, s.current), pcs := s.pcs[s.current := Running])
  }

  /** CheckToBeDestroyed, then on with the thread that was switched to. */
  function DoResume(s: State): Outcome {
    if s.enabled || s.doomed == Some(s.current) then Fault
    else
      var s1 := Bury(s);
      if s1.current !in s1.pcs then Fault
      else
        var pc := s1.pcs[s1.current];
        if pc.Retrying? then
          if pc.x in s1.sems then TryOnce(s1, pc.x, LevelOf(s1, s1.current)) else Fault
        else Next(Started(s1))
  }

  // ------------------------------------------------------------ invariant

  predicate IsReady(pc: Pc) { pc.Starting? || pc.Yielding? || pc.Retrying? }

  ghost function RetryingOn(s: State, x: Sid): set<Tid> {
    set t | t in s.pcs && s.pcs[t] == Retrying(x)
  }

  ghost predicate SemInv(s: State, x: Sid)
    requires x in s.sems
  {
    var k := s.sems[x];
    && NoDup(k.sem.queue)
    && (forall t :: t in k.sem.queue <==> t in s.pcs && s.pcs[t] == Waiting(x))
    && k.sem.value == k.initial + k.vs - k.ps
    && (k.sem.queue != [] ==> k.sem.value <= |RetryingOn(s, x)|)
  }

  /** t is in the loop of some P. */
  ghost predicate Blocks(s: State, t: Tid) {
    t in s.pcs && (s.pcs[t].Waiting? || s.pcs[t].Retrying?)
  }

  ghost predicate SemsInv(s: State) {
    && (forall x | x in s.sems :: SemInv(s, x))
    && (forall t | Blocks(s, t) :: s.pcs[t].x in s.sems)
  }

  ghost predicate ReadyInv(s: State) {
    && NoDup(s.ready)
    && (forall t :: t in s.ready <==>
        t in s.pcs && IsReady(s.pcs[t]) && !(s.mode == Resuming && t == s.current))
    && s.enqueued == s.dispatched + s.ready
  }

  ghost predicate CurrentInv(s: State) {
    && s.current in s.pcs
    && (forall t | t in s.pcs && s.pcs[t] == Running :: t == s.current && s.mode == User)
    && var pc := s.pcs[s.current];
       match s.mode
       case User => pc == Running
       case Idling(true) => pc == Finished
       case Idling(false) => pc.Waiting? || pc.Retrying?
       case Resuming => IsReady(pc)
  }

  ghost predicate DoomedInv(s: State) {
    && (forall t | t in s.pcs && s.pcs[t] == Finished ::
          (t == s.current && s.mode == Idling(true)) || s.doomed == Some(t))
    && (s.doomed.Some? ==>
          s.mode == Resuming && s.doomed.value in s.pcs && s.pcs[s.doomed.value] == Finished)
    && NoDup(s.deleted)
    && (forall t | t in s.deleted :: t !in s.pcs)
  }

  /** Interrupts are off except while a thread runs. */
  predicate LevelInv(s: State) { s.mode != User ==> !s.enabled }

  /** All of the invariant that does not concern semaphores. */
  ghost predicate CoreInv(s: State) {
    CurrentInv(s) && ReadyInv(s) && DoomedInv(s) && LevelInv(s)
  }

  ghost predicate Inv(s: State) { CoreInv(s) && SemsInv(s) }

  ghost predicate Keeps(o: Outcome) {
    !o.Fault? && !o.StackReplaced? && (o.Next? ==> Inv(o.state))
  }

  // ------------------------------------------------- one lemma per step kind

  /** The semaphore loop t is in, unless it is the loop of semaphore e. */
  ghost function LoopOf(s: State, t: Tid, e: Option<Sid>): Option<Pc> {
    if Blocks(s, t) && Some(s.pcs[t].x) != e then Some(s.pcs[t]) else None
  }

  /** A step that concerns at most semaphore e. */
  lemma OtherSems(s: State, s': State, e: Option<Sid>)
    requires SemsInv(s)
    requires forall t :: LoopOf(s', t, e) == LoopOf(s, t, e)
    requires forall y | Some(y) != e :: y in s'.sems <==> y in s.sems
    requires forall y | Some(y) != e && y in s.sems :: s'.sems[y] == s.sems[y]
    requires e.Some? ==> e.value in s'.sems && SemInv(s', e.value)
    ensures SemsInv(s')
  {
    forall y | y in s'.sems && Some(y) != e ensures SemInv(s', y) {
      assert SemInv(s, y);
      OneSem(s, s', e, y);
    }
    forall t | Blocks(s', t) ensures s'.pcs[t].x in s'.sems {
      assert LoopOf(s', t, e) == LoopOf(s, t, e);
    }
  }

  lemma OneSem(s: State, s': State, e: Option<Sid>, y: Sid)
    requires y in s.sems && y in s'.sems && Some(y) != e && SemInv(s, y) && s'.sems[y] == s.sems[y]
    requires forall t :: LoopOf(s', t, e) == LoopOf(s, t, e)
    ensures SemInv(s', y)
  {
    forall t
      ensures t in s'.pcs && s'.pcs[t] == Waiting(y) <==> t in s.pcs && s.pcs[t] == Waiting(y)
      ensures t in s'.pcs && s'.pcs[t] == Retrying(y) <==> t in s.pcs && s.pcs[t] == Retrying(y)
    {
      assert LoopOf(s', t, e) == LoopOf(s, t, e);
    }
    assert RetryingOn(s', y) == RetryingOn(s, y);
  }

  /** No thread enters or leaves a semaphore loop, and no semaphore changes. */
  ghost predicate SameLoops(s: State, s': State) {
    s'.sems == s.sems && forall t :: LoopOf(s', t, None) == LoopOf(s, t, None)
  }

  lemma CoreSuffices(s: State, s': State)
    requires SemsInv(s) && CoreInv(s') && SameLoops(s, s')
    ensures Inv(s')
  {
    hide CoreInv, SemsInv, LoopOf;
    OtherSems(s, s', None);
  }

  /** Only semaphore x, and threads in its loop, change. */
  ghost predicate SameButSem(s: State, s': State, x: Sid) {
    && x in s'.sems && s'.sems == s.sems[x := s'.sems[x]]
    && forall t :: LoopOf(s', t, Some(x)) == LoopOf(s, t, Some(x))
  }

  lemma CoreAndSem(s: State, s': State, x: Sid)
    requires SemsInv(s) && CoreInv(s') && SameButSem(s, s', x) && SemInv(s', x)
    ensures Inv(s')
  {
    hide CoreInv, SemsInv, LoopOf, SemInv;
    OtherSems(s, s', Some(x));
  }

  lemma NewKeeps(s: State, t: Tid)
    requires Inv(s) && s.mode == User && t !in s.pcs && t !in s.deleted
    ensures Inv(s.(pcs := s.pcs[t := Created]))
  {
    hide SemsInv;
    CoreSuffices(s, s.(pcs := s.pcs[t := Created]));
  }

  lemma NewSemKeeps(s: State, x: Sid, value: nat)
    requires Inv(s) && x !in s.sems
    ensures Inv(s.(sems := s.sems[x := KSem(Sem(value, []), value, 0, 0)]))
  {
    var s' := s.(sems := s.sems[x := KSem(Sem(value, []), value, 0, 0)]);
    NobodyThere(s, x);
    NewSem(s, s', x);
    CoreAndSem(s, s', x);
  }

  lemma NobodyThere(s: State, x: Sid)
    requires SemsInv(s) && x !in s.sems
    ensures forall t | t in s.pcs :: s.pcs[t] != Waiting(x) && s.pcs[t] != Retrying(x)
  {
    hide SemInv;
    forall t | t in s.pcs ensures s.pcs[t] != Waiting(x) && s.pcs[t] != Retrying(x) {
      assert Blocks(s, t) ==> s.pcs[t].x in s.sems;
    }
  }

  lemma NewSem(s: State, s': State, x: Sid)
    requires x in s'.sems && s'.sems[x].sem == Sem(s'.sems[x].initial, []) && s'.sems[x].ps == s'.sems[x].vs
    requires s'.pcs == s.pcs && forall t | t in s.pcs :: s.pcs[t] != Waiting(x) && s.pcs[t] != Retrying(x)
    ensures SemInv(s', x)
  {}

  lemma SetLevelKeeps(s: State, on: bool)
    requires Inv(s) && s.mode == User
    ensures Inv(s.(enabled := on))
  {
    hide SemsInv;
    CoreSuffices(s, s.(enabled := on));
  }

  // A thread that is not on the ready list goes to its end.

  lemma Joins(s: State, s': State, t: Tid)
    requires ReadyInv(s) && t in s.pcs && t in s'.pcs && t !in s.ready && IsReady(s'.pcs[t])
    requires s'.pcs == s.pcs[t := s'.pcs[t]] && s'.ready == s.ready + [t]
    requires s'.enqueued == s.enqueued + [t] && s'.dispatched == s.dispatched
    requires s'.mode == s.mode != Resuming && s'.current == s.current
    ensures ReadyInv(s')
  {}

  lemma ForkKeeps(s: State, t: Tid)
    requires Inv(s) && s.mode == User && t in s.pcs && s.pcs[t] == Created
    ensures Keeps(DoFork(s, t))
  {
    ForkCore(s, t);
    hide CoreInv, SemsInv, DoFork;
    CoreSuffices(s, DoFork(s, t).state);
  }

  lemma ForkCore(s: State, t: Tid)
    requires CoreInv(s) && s.mode == User && t in s.pcs && s.pcs[t] == Created
    ensures DoFork(s, t).Next? && CoreInv(DoFork(s, t).state) && SameLoops(s, DoFork(s, t).state)
  {
    var s' := DoFork(s, t).state;
    hide ReadyInv;
    NotReady(s, t);
    Joins(s, s', t);
  }

  lemma NotReady(s: State, t: Tid)
    requires ReadyInv(s) && t in s.pcs && !IsReady(s.pcs[t])
    ensures t !in s.ready
  {}

  lemma FinishKeeps(s: State)
    requires Inv(s) && s.mode == User
    ensures Keeps(Sleep(Off(s), Finished, true))
  {
    FinishCore(s);
    hide CoreInv, SemsInv;
    CoreSuffices(s, Sleep(Off(s), Finished, true).state);
  }

  lemma FinishCore(s: State)
    requires CoreInv(s) && s.mode == User
    ensures var s' := Sleep(Off(s), Finished, true).state; CoreInv(s') && SameLoops(s, s')
  {}

  lemma DispatchKeeps(s: State)
    requires Inv(s) && s.mode.Idling?
    ensures Keeps(FromSleep(s))
  {
    if s.ready != [] { SwitchCore(s); }
    hide CoreInv, SemsInv, FromSleep;
    if FromSleep(s).Next? { CoreSuffices(s, FromSleep(s).state); }
    assert !FromSleep(s).Fault? by { FromSleepRuns(s); }
  }

  lemma FromSleepRuns(s: State)
    requires CoreInv(s) && s.mode.Idling?
    ensures !FromSleep(s).Fault? && (FromSleep(s).Next? <==> s.ready != [])
  {
    hide ReadyInv, CurrentInv;
  }

  lemma SwitchCore(s: State)
    requires CoreInv(s) && s.mode.Idling? && s.ready != []
    ensures FromSleep(s).Next? && CoreInv(FromSleep(s).state) && SameLoops(s, FromSleep(s).state)
  {
    var s' := FromSleep(s).state;
    hide ReadyInv;
    FirstIsReady(s);
    Leaves(s, s');
  }

  lemma FirstIsReady(s: State)
    requires ReadyInv(s) && s.ready != []
    ensures s.ready[0] in s.pcs && IsReady(s.pcs[s.ready[0]])
  {
    assert s.ready[0] in s.ready;
  }

  /** The first ready thread becomes current. */
  lemma Leaves(s: State, s': State)
    requires ReadyInv(s) && s.ready != [] && s.mode != Resuming
    requires s'.pcs == s.pcs && s'.mode == Resuming && s'.current == s.ready[0]
    requires s'.ready == s.ready[1..] && s'.dispatched == s.dispatched + [s.ready[0]] && s'.enqueued == s.enqueued
    ensures ReadyInv(s')
  {
    PopReadyMembers(s);
  }

  lemma PopReadyMembers(s: State)
    requires NoDup(s.ready) && s.ready != []
    ensures NoDup(s.ready[1..])
    ensures forall t :: t in s.ready[1..] <==> t in s.ready && t != s.ready[0]
  {
    forall t | t in s.ready && t != s.ready[0] ensures t in s.ready[1..] {
      var i :| 0 <= i < |s.ready| && s.ready[i] == t;
      assert s.ready[1..][i - 1] == t;
    }
  }

  lemma YieldKeeps(s: State)
    requires Inv(s) && s.mode == User
    ensures Keeps(DoYield(s))
  {
    if s.ready != [] {
      YieldCore(s);
      hide CoreInv, SemsInv, DoYield;
      CoreSuffices(s, DoYield(s).state);
    }
  }

  lemma YieldCore(s: State)
    requires CoreInv(s) && s.mode == User && s.ready != []
    ensures DoYield(s).Next? && CoreInv(DoYield(s).state) && SameLoops(s, DoYield(s).state)
  {
    hide ReadyInv;
    FirstIsReady(s);
    NotReady(s, s.current);
    YieldReady(s);
  }

  lemma YieldReady(s: State)
    requires ReadyInv(s) && s.mode == User && s.ready != [] && s.current in s.pcs && s.pcs[s.current] == Running
    ensures DoYield(s).Next? && ReadyInv(DoYield(s).state)
  {
    PopReadyMembers(s);
    NotReady(s, s.current);
    FirstIsReady(s);
  }

  /** The current thread tests semaphore x, on its first pass or on a retry. */
  lemma TryOnceKeeps(s: State, x: Sid, level: bool)
    requires Inv(s) && x in s.sems && s.doomed == None && !s.enabled
    requires s.mode == User || (s.mode == Resuming && s.pcs[s.current] == Retrying(x))
    ensures Keeps(TryOnce(s, x, level))
  {
    assert SemInv(s, x) && s.current in s.pcs && (s.mode == User ==> s.pcs[s.current] == Running);
    TrySem(s, x, level);
    TryCore(s, x, level);
    hide TryOnce, CoreInv, SemInv, SemsInv;
    CoreAndSem(s, TryOnce(s, x, level).state, x);
  }

  lemma TryCore(s: State, x: Sid, level: bool)
    requires CoreInv(s) && s.doomed == None && x in s.sems && TryOnce(s, x, level).Next?
    requires s.mode == User || (s.mode == Resuming && s.pcs[s.current] == Retrying(x))
    ensures var s' := TryOnce(s, x, level).state; CoreInv(s') && SameButSem(s, s', x)
  {
    hide ReadyInv, DoomedInv;
    TryReady(s, x, level);
    TryDoomed(s, x, level);
  }

  lemma TryReady(s: State, x: Sid, level: bool)
    requires ReadyInv(s) && s.current in s.pcs && x in s.sems && TryOnce(s, x, level).Next?
    requires (s.mode == User && s.pcs[s.current] == Running) || (s.mode == Resuming && s.pcs[s.current] == Retrying(x))
    ensures ReadyInv(TryOnce(s, x, level).state)
  {
    hide TryP;
    if s.mode == User { NotReady(s, s.current); }
  }

  lemma TryDoomed(s: State, x: Sid, level: bool)
    requires DoomedInv(s) && s.doomed == None && s.current in s.pcs && x in s.sems && TryOnce(s, x, level).Next?
    requires s.mode == User || s.mode == Resuming
    ensures DoomedInv(TryOnce(s, x, level).state)
  {
    hide TryP;
  }

  lemma TrySem(s: State, x: Sid, level: bool)
    requires x in s.sems && SemInv(s, x) && s.current in s.pcs && !s.enabled
    requires s.pcs[s.current] == Running || s.pcs[s.current] == Retrying(x)
    ensures TryOnce(s, x, level).Next? && SemInv(TryOnce(s, x, level).state, x)
  {
    if s.sems[x].sem.value > 0 { PassSem(s, x, level); } else { BlockSem(s, x, level); }
  }

  lemma PassSem(s: State, x: Sid, level: bool)
    requires x in s.sems && SemInv(s, x) && s.current in s.pcs && s.sems[x].sem.value > 0
    requires s.pcs[s.current] == Running || s.pcs[s.current] == Retrying(x)
    ensures TryOnce(s, x, level).Next? && SemInv(TryOnce(s, x, level).state, x)
  {
    var s' := TryOnce(s, x, level).state;
    assert RetryingOn(s', x) == RetryingOn(s, x) - {s.current};
  }

  lemma BlockSem(s: State, x: Sid, level: bool)
    requires x in s.sems && SemInv(s, x) && s.current in s.pcs && s.sems[x].sem.value == 0 && !s.enabled
    requires s.pcs[s.current] == Running || s.pcs[s.current] == Retrying(x)
    ensures TryOnce(s, x, level).Next? && SemInv(TryOnce(s, x, level).state, x)
  {}

  lemma VKeeps(s: State, x: Sid)
    requires Inv(s) && s.mode != Resuming && x in s.sems
    ensures Keeps(DoV(s, x))
  {
    assert SemInv(s, x);
    VCore(s, x);
    VSem(s, x);
    hide DoV, CoreInv, SemInv, SemsInv;
    CoreAndSem(s, DoV(s, x).state, x);
  }

  lemma VCore(s: State, x: Sid)
    requires CoreInv(s) && s.mode != Resuming && x in s.sems && SemInv(s, x)
    ensures DoV(s, x).Next?
    ensures var s' := DoV(s, x).state; CoreInv(s') && SameButSem(s, s', x)
  {
    hide ReadyInv, DoomedInv, V;
    VReady(s, x);
    VDoomed(s, x);
  }

  lemma VReady(s: State, x: Sid)
    requires ReadyInv(s) && s.mode != Resuming && x in s.sems && SemInv(s, x)
    ensures DoV(s, x).Next? && ReadyInv(DoV(s, x).state)
    ensures var q := s.sems[x].sem.queue; q != [] ==> q[0] in s.pcs && s.pcs[q[0]] == Waiting(x)
  {
    hide ReadyInv, V;
    var q := s.sems[x].sem.queue;
    if q != [] {
      assert q[0] in q;
      NotReady(s, q[0]);
      Joins(s, DoV(s, x).state, q[0]);
    } else {
      SameReady(s, DoV(s, x).state);
    }
  }

  lemma VDoomed(s: State, x: Sid)
    requires DoomedInv(s) && x in s.sems && DoV(s, x).Next?
    requires var q := s.sems[x].sem.queue; q != [] ==> q[0] in s.pcs && s.pcs[q[0]] == Waiting(x)
    ensures DoomedInv(DoV(s, x).state)
  {
    hide V;
  }

  lemma SameReady(s: State, s': State)
    requires ReadyInv(s) && s'.ready == s.ready && s'.pcs == s.pcs && s'.mode == s.mode && s'.current == s.current
    requires s'.enqueued == s.enqueued && s'.dispatched == s.dispatched
    ensures ReadyInv(s')
  {}

  lemma VSem(s: State, x: Sid)
    requires x in s.sems && SemInv(s, x) && DoV(s, x).Next?
    ensures SemInv(DoV(s, x).state, x)
  {
    var k, s' := s.sems[x], DoV(s, x).state;
    var q, q' := k.sem.queue, s'.sems[x].sem.queue;
    if q == [] {
      assert RetryingOn(s', x) == RetryingOn(s, x);
    } else {
      assert q[0] in q;
      assert RetryingOn(s', x) == RetryingOn(s, x) + {q[0]};
      forall t | t in q && t != q[0] ensures t in q' {
        var i :| 0 <= i < |q| && q[i] == t;
        assert q'[i - 1] == t;
      }
    }
  }

  lemma ResumeKeeps(s: State)
    requires Inv(s) && s.mode == Resuming
    ensures Keeps(DoResume(s))
  {
    hide TryOnce, Started, Bury, SemsInv, ReadyInv, DoomedInv;
    BuryKeeps(s);
    var s1 := Bury(s);
    if s1.pcs[s1.current].Retrying? {
      LoopKnown(s1, s1.current);
      TryOnceKeeps(s1, s1.pcs[s1.current].x, LevelOf(s1, s1.current));
    } else {
      StartKeeps(s1);
    }
  }

  lemma LoopKnown(s: State, t: Tid)
    requires SemsInv(s) && Blocks(s, t)
    ensures s.pcs[t].x in s.sems
  {}

  lemma BuryKeeps(s: State)
    requires Inv(s) && s.mode == Resuming
    ensures s.doomed != Some(s.current) && Inv(Bury(s))
    ensures Bury(s).doomed == None && Bury(s).mode == Resuming && Bury(s).current == s.current
  {
    BuryCore(s);
    hide CoreInv, SemsInv, Bury;
    CoreSuffices(s, Bury(s));
  }

  lemma BuryCore(s: State)
    requires CoreInv(s) && s.mode == Resuming
    ensures var s' := Bury(s);
      && s.doomed != Some(s.current) && s'.doomed == None && s'.mode == Resuming && s'.current == s.current
      && CoreInv(s') && SameLoops(s, s')
  {}

  lemma StartKeeps(s: State)
    requires Inv(s) && s.mode == Resuming && !s.pcs[s.current].Retrying? && s.doomed == None
    ensures Inv(Started(s))
  {
    StartCore(s);
    hide CoreInv, SemsInv, Started;
    CoreSuffices(s, Started(s));
  }

  lemma StartCore(s: State)
    requires CoreInv(s) && s.mode == Resuming && !s.pcs[s.current].Retrying? && s.doomed == None
    ensures CoreInv(Started(s)) && SameLoops(s, Started(s))
  {}

  // ------------------------------------------------------------- every run

  /** A Fork of a thread that has been forked before. */
  predicate ForksAgain(s: State, a: Action) {
    a.Fork? && s.mode == User && a.t in s.pcs && s.pcs[a.t] != Created
  }

  /** Every step keeps the invariant, and an ASSERT fails only for a Fork of a thread
      on the ready list: otherwise no thread is put twice on a list, interrupts are
      off wherever the scheduler wants them off, toBeDestroyed is NULL when a thread
      finishes, and no thread deletes itself.  A second Fork of any other thread
      replaces its stack, and nothing else does. */
  lemma StepKeeps(s: State, a: Action)
    requires Inv(s)
    ensures Do(s, a).Fault? <==> a.Fork? && s.mode == User && a.t in s.ready
    ensures Do(s, a).StackReplaced? <==> ForksAgain(s, a) && a.t !in s.ready
    ensures Do(s, a).Next? ==> Inv(Do(s, a).state)
  {
    hide CoreInv, SemsInv, TryOnce, DoV, DoYield, Sleep, FromSleep, DoResume, LevelInv;
    match a
    case New(t) => if Do(s, a).Next? { NewKeeps(s, t); }
    case NewSem(x, value) => if Do(s, a).Next? { NewSemKeeps(s, x, value); }
    case SetLevel(on) => if s.mode == User { SetLevelKeeps(s, on); }
    case Fork(t) =>
      ReadyForked(s, t);
      if Do(s, a) != Disabled && !ForksAgain(s, a) { ForkKeeps(s, t); }
    case P(x) =>
      if s.mode == User && x in s.sems {
        SetLevelKeeps(s, false);
        NoDoom(s);
        TryOnceKeeps(Off(s), x, s.enabled);
      }
    case SemV(x) => if s.mode != Resuming && x in s.sems { VKeeps(s, x); }
    case Yield => if s.mode == User { YieldKeeps(s); }
    case Finish => if s.mode == User { FinishKeeps(s); }
    case Dispatch => if s.mode.Idling? { DispatchKeeps(s); }
    case Resume => if s.mode == Resuming { ResumeKeeps(s); }
  }

  lemma ReadyForked(s: State, t: Tid)
    requires CoreInv(s)
    ensures t in s.ready ==> t in s.pcs && s.pcs[t] != Created
  {}

  lemma NoDoom(s: State)
    requires CoreInv(s) && s.mode != Resuming
    ensures s.doomed == None
  {}

  ghost predicate Step(s: State, s': State) {
    exists a :: Do(s, a) == Next(s')
  }

  ghost predicate StepAt(run: seq<State>, i: nat)
    requires i + 1 < |run|
  {
    Step(run[i], run[i + 1])
  }

  ghost predicate IsRun(run: seq<State>) {
    && run != [] && Init(run[0])
    && forall i | 0 <= i < |run| - 1 :: StepAt(run, i)
  }

  lemma InitHolds(s: State)
    requires Init(s)
    ensures Inv(s)
  {}

  lemma {:induction false} RunInv(run: seq<State>, i: nat)
    requires IsRun(run) && i < |run|
    ensures Inv(run[i])
  {
    hide Do, Inv, Init;
    if i == 0 {
      InitHolds(run[0]);
    } else {
      RunInv(run, i - 1);
      assert StepAt(run, i - 1);
      var a :| Do(run[i - 1], a) == Next(run[i]);
      StepKeeps(run[i - 1], a);
    }
  }

  /** The places a live thread can be, told from the kernel's own fields. */
  datatype Place = OnProcessor | OnReadyList | OnSemaphore(x: Sid) | NotForked | ToBeDestroyed

  ghost predicate IsAt(s: State, t: Tid, p: Place) {
    match p
    case OnProcessor => t == s.current && !s.mode.Idling?
    case OnReadyList => t in s.ready
    case OnSemaphore(x) => x in s.sems && t in s.sems[x].sem.queue
    case NotForked => t in s.pcs && s.pcs[t] == Created
    case ToBeDestroyed => s.doomed == Some(t) || (t == s.current && s.mode == Idling(true))
  }

  function PlaceOf(s: State, t: Tid): Place
    requires t in s.pcs
  {
    match s.pcs[t]
    case Created => NotForked
    case Running => OnProcessor
    case Waiting(x) => OnSemaphore(x)
    case Finished => ToBeDestroyed
    case _ => if s.mode == Resuming && t == s.current then OnProcessor else OnReadyList
  }

  /** At every point of every run a live thread is in exactly one place. */
  lemma Partition(run: seq<State>, i: nat, t: Tid)
    requires IsRun(run) && i < |run| && t in run[i].pcs
    ensures exists p :: IsAt(run[i], t, p) && forall q | IsAt(run[i], t, q) :: q == p
  {
    RunInv(run, i);
    forall q ensures IsAt(run[i], t, q) <==> q == PlaceOf(run[i], t) {
      OnePlace(run[i], t, q);
    }
    assert IsAt(run[i], t, PlaceOf(run[i], t));
  }

  lemma OnePlace(s: State, t: Tid, q: Place)
    requires Inv(s) && t in s.pcs
    ensures IsAt(s, t, q) <==> q == PlaceOf(s, t)
  {
    match q
    case OnSemaphore(x) => if x in s.sems { assert SemInv(s, x); }
    case _ =>
  }

  /** A thread is deleted at most once, and never while it is alive or current. */
  lemma DeletedOnce(run: seq<State>, i: nat)
    requires IsRun(run) && i < |run|
    ensures NoDup(run[i].deleted) && forall t | t in run[i].deleted :: t !in run[i].pcs && t != run[i].current
  {
    RunInv(run, i);
  }

  /** Wherever Scheduler::Run can be entered, nothing is waiting to be destroyed. */
  lemma NothingDoomed(run: seq<State>, i: nat)
    requires IsRun(run) && i < |run| && run[i].mode != Resuming
    ensures run[i].doomed == None
  {
    RunInv(run, i);
  }

  /** A finished thread is handed over for deletion at the next switch and is
      gone one step later, before any other code can run. */
  lemma FinishedGoes(s: State, a: Action, b: Action)
    requires Inv(s) && s.mode == Idling(true)
    requires a == Dispatch && Do(s, a).Next? && Do(Do(s, a).state, b).Next?
    ensures b == Resume && s.current !in Do(Do(s, a).state, b).state.pcs
    ensures Do(Do(s, a).state, b).state.deleted == s.deleted + [s.current]
  {
    hide Inv, DoResume, TryOnce;
    var s1 := Do(s, a).state;
    assert s1.doomed == Some(s.current) && s1.mode == Resuming;
    DispatchKeeps(s);
    Buries(s1);
  }

  lemma Buries(s: State)
    requires Inv(s) && s.mode == Resuming && s.doomed.Some? && DoResume(s).Next?
    ensures var s' := DoResume(s).state; s.doomed.value !in s'.pcs && s'.deleted == s.deleted + [s.doomed.value]
  {
    hide Inv, TryOnce;
    var s1 := Bury(s);
    if s1.pcs[s1.current].Retrying? {
      TryFrame(s1, s1.pcs[s1.current].x, LevelOf(s1, s1.current));
    }
  }

  /** A pass of P concerns no other thread and no history. */
  lemma TryFrame(s: State, x: Sid, level: bool)
    requires x in s.sems && TryOnce(s, x, level).Next?
    ensures var s' := TryOnce(s, x, level).state;
      && s'.pcs.Keys == s.pcs.Keys + {s.current} && s'.deleted == s.deleted
      && s'.enqueued == s.enqueued && s'.dispatched == s.dispatched
  {
    hide TryP;
  }

  /** A semaphore's value counts V operations against P operations, and a
      positive value with sleepers in the queue is matched by woken threads that
      have yet to re-test it. */
  lemma NoLostWakeup(run: seq<State>, i: nat, x: Sid)
    requires IsRun(run) && i < |run| && x in run[i].sems
    ensures var k := run[i].sems[x];
      && k.sem.value == k.initial + k.vs - k.ps
      && (k.sem.queue != [] ==> k.sem.value <= |RetryingOn(run[i], x)|)
      && forall t | t in RetryingOn(run[i], x) ::
           t in run[i].ready || (t == run[i].current && run[i].mode == Resuming)
  {
    RunInv(run, i);
    assert SemInv(run[i], x);
  }

  lemma {:induction false} LogsGrow(run: seq<State>, i: nat, j: nat)
    requires IsRun(run) && i <= j < |run|
    ensures run[i].enqueued <= run[j].enqueued && run[i].dispatched <= run[j].dispatched
    decreases j
  {
    if i < j {
      LogsGrow(run, i, j - 1);
      assert StepAt(run, j - 1);
      StepGrows(run[j - 1], run[j]);
      PrefixTrans(run[i].enqueued, run[j - 1].enqueued, run[j].enqueued);
      PrefixTrans(run[i].dispatched, run[j - 1].dispatched, run[j].dispatched);
    }
  }

  ghost predicate Grows(s: State, s': State) {
    s.enqueued <= s'.enqueued && s.dispatched <= s'.dispatched
  }

  lemma StepGrows(s: State, s': State)
    requires Step(s, s')
    ensures s.enqueued <= s'.enqueued && s.dispatched <= s'.dispatched
  {
    hide TryOnce, DoV, DoYield, DoFork, DoResume, FromSleep;
    var a :| Do(s, a) == Next(s');
    match a
    case P(x) => TryFrame(Off(s), x, s.enabled);
    case SemV(x) => VGrows(s, x);
    case Fork(t) => ForkGrows(s, t);
    case Yield => YieldGrows(s);
    case Resume => ResumeGrows(s);
    case Dispatch => DispatchGrows(s);
    case _ =>
  }

  lemma DispatchGrows(s: State)
    requires s.mode.Idling? && FromSleep(s).Next?
    ensures Grows(s, FromSleep(s).state)
  {}

  lemma VGrows(s: State, x: Sid)
    requires x in s.sems && DoV(s, x).Next?
    ensures Grows(s, DoV(s, x).state)
  {
    hide V;
  }

  lemma ForkGrows(s: State, t: Tid)
    requires t in s.pcs && DoFork(s, t).Next?
    ensures Grows(s, DoFork(s, t).state)
  {}

  lemma YieldGrows(s: State)
    requires DoYield(s).Next?
    ensures Grows(s, DoYield(s).state)
  {}

  lemma ResumeGrows(s: State)
    requires DoResume(s).Next?
    ensures Grows(s, DoResume(s).state)
  {
    hide TryOnce;
    var s1 := Bury(s);
    if s1.pcs[s1.current].Retrying? {
      TryFrame(s1, s1.pcs[s1.current].x, LevelOf(s1, s1.current));
    }
  }

  /** First come, first served: the thread at position k of the ready list is the
      result of the (k+1)-th FindNextToRun from now on. */
  lemma ReadyOrder(run: seq<State>, i: nat, j: nat, k: nat)
    requires IsRun(run) && i <= j < |run| && k < |run[i].ready|
    requires |run[i].dispatched| + k < |run[j].dispatched|
    ensures run[j].dispatched[|run[i].dispatched| + k] == run[i].ready[k]
  {
    RunInv(run, i);
    RunInv(run, j);
    LogsGrow(run, i, j);
    var n := |run[i].dispatched| + k;
    assert run[i].enqueued[n] == run[i].ready[k];
    assert run[j].enqueued[n] == run[j].dispatched[n];
  }
}
