/** What each operation on threads and semaphores does, and what whole histories of
    them come to (threads/thread.cc, threads/scheduler.cc, threads/synch.cc). */
module ThreadsHistory {
  import opened Collections
  import opened Semaphores
  import opened Threads

  // ---------------------------------------------------------- one operation

  /** Whether an operation can happen, apart from Forks that must not. */
  predicate Possible(s: State, a: Action) {
    match a
    case New(t) => s.mode == User && t !in s.pcs && t !in s.deleted
    case NewSem(x, _) => s.mode == User && x !in s.sems
    case Fork(t) => s.mode == User && t in s.pcs && s.pcs[t] == Created
    case P(x) => s.mode == User && x in s.sems
    case SemV(x) => s.mode != Resuming && x in s.sems
    case Dispatch => s.mode.Idling? && s.ready != []
    case Resume => s.mode == Resuming
    case _ => s.mode == User
  }

  lemma PossibleExact(s: State, a: Action)
    requires Inv(s)
    ensures Do(s, a).Next? <==> Possible(s, a)
  {
    hide CoreInv, SemsInv;
    StepKeeps(s, a);
    ReadyForked(s, if a.Fork? then a.t else s.current);
  }

  /** The processor goes to the first thread of the ready list. */
  predicate Takes(s: State, a: Action) {
    s.ready != [] && (a.Yield? || a.Dispatch?)
  }

  /** The thread that the operation puts at the end of the ready list, if any. */
  function MadeReady(s: State, a: Action): seq<Tid> {
    match a
    case Fork(t) => [t]
    case Yield => if s.ready != [] then [s.current] else []
    case SemV(x) => if x in s.sems && s.sems[x].sem.queue != [] then [s.sems[x].sem.queue[0]] else []
    case _ => []
  }

  /** The semaphore that the running thread tests in P: at the call, and again when it
      runs after it was woken. */
  function Tests(s: State, a: Action): Option<Sid> {
    match a
    case P(x) => Some(x)
    case Resume => if s.current in s.pcs && s.pcs[s.current].Retrying? then Some(s.pcs[s.current].x) else None
    case _ => None
  }

  predicate Passes(s: State, a: Action, x: Sid) { Tests(s, a) == Some(x) && x in s.sems && s.sems[x].sem.value > 0 }

  predicate FallsAsleep(s: State, a: Action, x: Sid) {
    Tests(s, a) == Some(x) && x in s.sems && s.sems[x].sem.value == 0
  }

  /** The interrupt level that the current thread goes back to when it runs again. */
  predicate ResumesOn(s: State) {
    s.current !in s.pcs || s.doomed == Some(s.current) || s.pcs[s.current].Starting?
    || s.current !in s.levels || s.levels[s.current]
  }

  /** A pass of the loop of P, at the call or later. */
  lemma TestIs(s: State, a: Action)
    requires Do(s, a).Next? && Tests(s, a).Some?
    ensures Tests(s, a).value in s.sems
    ensures var s', x := Do(s, a).state, Tests(s, a).value;
      var on := if a.P? then s.enabled else ResumesOn(s);
      var alive := if a.Resume? && s.doomed.Some? then s.pcs - {s.doomed.value} else s.pcs;
      && s'.ready == s.ready && s'.current == s.current
      && s'.enqueued == s.enqueued && s'.dispatched == s.dispatched
      && s'.doomed == (if a.Resume? then None else s.doomed)
      && s'.deleted == s.deleted + (if a.Resume? && s.doomed.Some? then [s.doomed.value] else [])
      && (s.sems[x].sem.value > 0 ==>
            s'.mode == User && s'.enabled == on && s'.levels == s.levels && s'.pcs == alive[s.current := Running])
      && (s.sems[x].sem.value == 0 ==>
            && s'.mode == Idling(false) && !s'.enabled && s'.levels == s.levels[s.current := on]
            && s'.pcs == alive[s.current := Waiting(x)])
  {
    hide TryP;
  }

  /** The ready list is a queue: Fork, Yield and V add at the end, and a switch takes
      from the front and makes that thread current. */
  lemma ReadyEffect(s: State, a: Action)
    requires Do(s, a).Next?
    ensures var s' := Do(s, a).state;
      && s'.ready == (if Takes(s, a) then s.ready[1..] else s.ready) + MadeReady(s, a)
      && s'.current == (if Takes(s, a) then s.ready[0] else s.current)
      && s'.enqueued == s.enqueued + MadeReady(s, a)
      && s'.dispatched == s.dispatched + if Takes(s, a) then [s.ready[0]] else []
  {
    hide TryP, V, TryOnce;
    if Tests(s, a).Some? { TestIs(s, a); }
  }

  /** The processor runs on, looks for another thread, or switches to it. */
  lemma ModeEffect(s: State, a: Action)
    requires Do(s, a).Next?
    ensures Do(s, a).state.mode ==
      if a.Finish? then Idling(true)
      else if Takes(s, a) then Resuming
      else if a.P? || a.Resume? then
        if Tests(s, a).Some? && FallsAsleep(s, a, Tests(s, a).value) then Idling(false) else User
      else s.mode
  {
    hide TryP, V, TryOnce;
    if Tests(s, a).Some? { TestIs(s, a); }
  }

  /** A pass of P takes one from the value or puts the thread at the end of the queue; V
      adds one and takes the first thread off the queue; nothing else touches a
      semaphore. */
  lemma SemEffect(s: State, a: Action, x: Sid)
    requires Do(s, a).Next? && x in s.sems
    ensures x in Do(s, a).state.sems
    ensures var k, k' := s.sems[x], Do(s, a).state.sems[x];
      && k'.initial == k.initial
      && if Passes(s, a, x) then
           k'.sem.value == k.sem.value - 1 && k'.sem.queue == k.sem.queue && k'.ps == k.ps + 1 && k'.vs == k.vs
         else if FallsAsleep(s, a, x) then
           k'.sem.value == 0 && k'.sem.queue == k.sem.queue + [s.current] && k'.ps == k.ps && k'.vs == k.vs
         else if a == SemV(x) then
           && k'.sem.value == k.sem.value + 1 && k'.vs == k.vs + 1 && k'.ps == k.ps
           && (if k.sem.queue == [] then k'.sem.queue == [] else k.sem.queue == [k.sem.queue[0]] + k'.sem.queue)
         else k' == k
  {
    hide Do, Tests;
    SemsAre(s, a);
  }

  function Tested(s: State, x: Sid): KSem
    requires x in s.sems
  {
    var k := s.sems[x];
    k.(sem := TryP(k.sem, s.current), ps := if k.sem.value > 0 then k.ps + 1 else k.ps)
  }

  /** All semaphores after an operation. */
  lemma SemsAre(s: State, a: Action)
    requires Do(s, a).Next?
    ensures Tests(s, a).Some? ==> Tests(s, a).value in s.sems && !a.SemV? && !a.NewSem?
    ensures a.SemV? ==> a.x in s.sems
    ensures a.NewSem? ==> a.x !in s.sems
    ensures Do(s, a).state.sems ==
      if Tests(s, a).Some? then s.sems[Tests(s, a).value := Tested(s, Tests(s, a).value)]
      else if a.SemV? then
        var k := s.sems[a.x];
        s.sems[a.x := k.(sem := V(k.sem), vs := k.vs + 1)]
      else if a.NewSem? then s.sems[a.x := KSem(Sem(a.value, []), a.value, 0, 0)]
      else s.sems
  {
    hide TryP, V, TryOnce;
    if a.P? && a.x in s.sems { TrySems(Off(s), a.x, s.enabled); }
    if a.Resume? && s.mode == Resuming && !s.enabled && s.doomed != Some(s.current) {
      var s1 := Bury(s);
      if s1.current in s1.pcs && s1.pcs[s1.current].Retrying? && s1.pcs[s1.current].x in s1.sems {
        TrySems(s1, s1.pcs[s1.current].x, LevelOf(s1, s1.current));
      }
    }
  }

  lemma TrySems(s: State, x: Sid, level: bool)
    requires x in s.sems
    ensures TryOnce(s, x, level).Next? ==> TryOnce(s, x, level).state.sems == s.sems[x := Tested(s, x)]
  {
    hide TryP;
  }

  lemma SemsEffect(s: State, a: Action)
    requires Do(s, a).Next?
    ensures Do(s, a).state.sems.Keys == s.sems.Keys + if a.NewSem? then {a.x} else {}
    ensures a.NewSem? ==> Do(s, a).state.sems[a.x] == KSem(Sem(a.value, []), a.value, 0, 0)
  {
    hide Do, TryP, V, Tests;
    SemsAre(s, a);
  }

  /** What the thread that an operation concerns does next. */
  function NowAt(s: State, a: Action): Option<(Tid, Pc)> {
    match a
    case New(t) => Some((t, Created))
    case Fork(t) => Some((t, Starting))
    case P(x) => if FallsAsleep(s, a, x) then Some((s.current, Waiting(x))) else Some((s.current, Running))
    case SemV(x) =>
      if x in s.sems && s.sems[x].sem.queue != [] then Some((s.sems[x].sem.queue[0], Retrying(x))) else None
    case Yield => if s.ready != [] then Some((s.current, Yielding)) else None
    case Finish => Some((s.current, Finished))
    case Resume =>
      if Tests(s, a).Some? && FallsAsleep(s, a, Tests(s, a).value)
      then Some((s.current, Waiting(Tests(s, a).value))) else Some((s.current, Running))
    case _ => None
  }

  /** Threads come to be by New, and go when they are deleted; otherwise only the one
      thread changes what it is doing. */
  lemma ThreadEffect(s: State, a: Action)
    requires Do(s, a).Next?
    ensures var s', now := Do(s, a).state, NowAt(s, a);
      var alive := if a.Resume? && s.doomed.Some? then s.pcs - {s.doomed.value} else s.pcs;
      s'.pcs == if now.Some? then alive[now.value.0 := now.value.1] else alive
  {
    hide TryP, V, TryOnce;
    if Tests(s, a).Some? { TestIs(s, a); }
  }

  /** A finished thread is marked when the processor leaves it, and the next thread
      deletes it. */
  lemma DeathEffect(s: State, a: Action)
    requires Do(s, a).Next?
    ensures var s' := Do(s, a).state;
      && s'.doomed == (if a.Resume? then None else if a.Dispatch? && s.mode == Idling(true) then Some(s.current)
                       else s.doomed)
      && s'.deleted == s.deleted + if a.Resume? && s.doomed.Some? then [s.doomed.value] else []
  {
    hide TryP, V, TryOnce;
    if Tests(s, a).Some? { TestIs(s, a); }
  }

  /** Interrupts are off from when a thread gives up the processor until the next one
      goes on; a thread that goes on has the level back that it had. */
  lemma LevelEffect(s: State, a: Action)
    requires Do(s, a).Next?
    ensures var s' := Do(s, a).state;
      s'.enabled ==
        if a.SetLevel? then a.on
        else if s'.mode != User && (a.P? || a.Resume? || a.Yield? || a.Finish?) then false
        else if a.Resume? then ResumesOn(s)
        else s.enabled
  {
    hide TryP, V, TryOnce;
    if Tests(s, a).Some? { TestIs(s, a); }
  }

  /** It is remembered when the thread gives up the processor. */
  lemma LevelSaved(s: State, a: Action)
    requires Do(s, a).Next?
    ensures var s' := Do(s, a).state;
      s'.levels ==
        if a.Yield? && s.ready != [] then s.levels[s.current := s.enabled]
        else if a.P? && s'.mode != User then s.levels[s.current := s.enabled]
        else if a.Resume? && s'.mode != User then s.levels[s.current := ResumesOn(s)]
        else s.levels
  {
    hide TryP, V, TryOnce;
    if Tests(s, a).Some? { TestIs(s, a); }
  }

  // ------------------------------------------------------------- whole histories

  ghost predicate ActAt(run: seq<State>, acts: seq<Action>, i: nat)
    requires i < |acts| && |run| == |acts| + 1
  {
    Do(run[i], acts[i]) == Next(run[i + 1])
  }

  /** A run with the operations that make it. */
  ghost predicate IsTrace(run: seq<State>, acts: seq<Action>) {
    && |run| == |acts| + 1 && Init(run[0])
    && forall i | 0 <= i < |acts| :: ActAt(run, acts, i)
  }

  lemma TraceInv(run: seq<State>, acts: seq<Action>, n: nat)
    requires IsTrace(run, acts) && n < |run|
    ensures Inv(run[n])
  {
    hide Do, Init, Inv;
    forall i | 0 <= i < |run| - 1 ensures StepAt(run, i) {
      assert ActAt(run, acts, i);
    }
    RunInv(run, n);
  }

  /** The threads made ready so far, and those that have had the processor since. */
  ghost function Readied(run: seq<State>, acts: seq<Action>, n: nat): seq<Tid>
    requires |run| == |acts| + 1 && n <= |acts|
  {
    if n == 0 then [] else Readied(run, acts, n - 1) + MadeReady(run[n - 1], acts[n - 1])
  }

  ghost function Switched(run: seq<State>, acts: seq<Action>, n: nat): seq<Tid>
    requires |run| == |acts| + 1 && n <= |acts|
  {
    if n == 0 then []
    else Switched(run, acts, n - 1) + if Takes(run[n - 1], acts[n - 1]) then [run[n].current] else []
  }

  /** Threads get the processor in the order in which Fork, Yield and V make them
      ready. */
  lemma {:induction false} ReadyFifo(run: seq<State>, acts: seq<Action>, n: nat)
    requires IsTrace(run, acts) && n <= |acts|
    ensures Readied(run, acts, n) == Switched(run, acts, n) + run[n].ready
  {
    hide Do, MadeReady;
    if n > 0 {
      ReadyFifo(run, acts, n - 1);
      assert ActAt(run, acts, n - 1);
      var s, s', a := run[n - 1], run[n], acts[n - 1];
      ReadyEffect(s, a);
      var took := if Takes(s, a) then [s'.current] else [];
      assert took + s'.ready == s.ready + MadeReady(s, a);
      QueueMoves(Switched(run, acts, n - 1), s.ready, MadeReady(s, a), took, s'.ready);
    }
  }

  /** Who falls asleep on semaphore x, and who is woken from it. */
  function Slept(s: State, a: Action, x: Sid): seq<Tid> { if FallsAsleep(s, a, x) then [s.current] else [] }

  function Woke(s: State, a: Action, x: Sid): seq<Tid> { if a == SemV(x) then MadeReady(s, a) else [] }

  ghost function Sleeps(run: seq<State>, acts: seq<Action>, n: nat, x: Sid): seq<Tid>
    requires |run| == |acts| + 1 && n <= |acts|
  {
    if n == 0 then []
    else Sleeps(run, acts, n - 1, x) + Slept(run[n - 1], acts[n - 1], x)
  }

  ghost function Wakes(run: seq<State>, acts: seq<Action>, n: nat, x: Sid): seq<Tid>
    requires |run| == |acts| + 1 && n <= |acts|
  {
    if n == 0 then []
    else Wakes(run, acts, n - 1, x) + Woke(run[n - 1], acts[n - 1], x)
  }

  function QueueOf(s: State, x: Sid): seq<Tid> { if x in s.sems then s.sems[x].sem.queue else [] }

  /** Each semaphore wakes its sleepers in the order in which they fell asleep. */
  lemma {:induction false} SleepOrder(run: seq<State>, acts: seq<Action>, n: nat, x: Sid)
    requires IsTrace(run, acts) && n <= |acts|
    ensures Sleeps(run, acts, n, x) == Wakes(run, acts, n, x) + QueueOf(run[n], x)
  {
    hide Do, Slept, Woke;
    if n > 0 {
      SleepOrder(run, acts, n - 1, x);
      assert ActAt(run, acts, n - 1);
      var s, s', a := run[n - 1], run[n], acts[n - 1];
      QueueStep(s, a, x);
      QueueMoves(Wakes(run, acts, n - 1, x), QueueOf(s, x), Slept(s, a, x), Woke(s, a, x), QueueOf(s', x));
    }
  }

  lemma QueueStep(s: State, a: Action, x: Sid)
    requires Do(s, a).Next?
    ensures Woke(s, a, x) + QueueOf(Do(s, a).state, x) == QueueOf(s, x) + Slept(s, a, x)
  {
    hide Do, Tests;
    SemsEffect(s, a);
    TestsKnown(s, a);
    if x in s.sems { SemEffect(s, a, x); }
  }

  lemma TestsKnown(s: State, a: Action)
    requires Do(s, a).Next?
    ensures a.SemV? ==> a.x in s.sems && Tests(s, a) == None
    ensures Tests(s, a).Some? ==> Tests(s, a).value in s.sems && !a.NewSem?
  {
    hide Do, Tests;
    SemsAre(s, a);
  }

  /** The value that semaphore x was made with, the Vs on it and the Ps that have got
      past it. */
  function MadeWith(acts: seq<Action>, n: nat, x: Sid): nat
    requires n <= |acts|
  {
    if n == 0 then 0
    else if acts[n - 1].NewSem? && acts[n - 1].x == x then acts[n - 1].value else MadeWith(acts, n - 1, x)
  }

  function VCount(acts: seq<Action>, n: nat, x: Sid): nat
    requires n <= |acts|
  {
    if n == 0 then 0 else VCount(acts, n - 1, x) + if acts[n - 1] == SemV(x) then 1 else 0
  }

  ghost function PassCount(run: seq<State>, acts: seq<Action>, n: nat, x: Sid): nat
    requires |run| == |acts| + 1 && n <= |acts|
  {
    if n == 0 then 0 else PassCount(run, acts, n - 1, x) + if Passes(run[n - 1], acts[n - 1], x) then 1 else 0
  }

  /** The value is the initial one, plus the Vs, minus the Ps that got past; that is
      also what the state's own counts say. */
  lemma {:induction false} SemaphoreLaw(run: seq<State>, acts: seq<Action>, n: nat, x: Sid)
    requires IsTrace(run, acts) && n <= |acts|
    ensures x !in run[n].sems ==> MadeWith(acts, n, x) == VCount(acts, n, x) == PassCount(run, acts, n, x) == 0
    ensures x in run[n].sems ==>
      var k := run[n].sems[x];
      && k.initial == MadeWith(acts, n, x) && k.vs == VCount(acts, n, x) && k.ps == PassCount(run, acts, n, x)
      && k.sem.value == MadeWith(acts, n, x) + VCount(acts, n, x) - PassCount(run, acts, n, x)
  {
    hide Do, Tests;
    if n > 0 {
      SemaphoreLaw(run, acts, n - 1, x);
      assert ActAt(run, acts, n - 1);
      var s, a := run[n - 1], acts[n - 1];
      SemsEffect(s, a);
      if x in s.sems { SemEffect(s, a, x); }
      TestsKnown(s, a);
      NewSemKnown(s, a);
    }
  }

  lemma NewSemKnown(s: State, a: Action)
    requires Do(s, a).Next?
    ensures a.NewSem? ==> a.x !in s.sems
  {
    hide Do, Tests;
    SemsAre(s, a);
  }

  /** The calls of P on x by t, and those of them that have returned. */
  ghost function PCalls(run: seq<State>, acts: seq<Action>, n: nat, t: Tid, x: Sid): nat
    requires |run| == |acts| + 1 && n <= |acts|
  {
    if n == 0 then 0
    else PCalls(run, acts, n - 1, t, x) + if acts[n - 1] == P(x) && run[n - 1].current == t then 1 else 0
  }

  ghost function PReturns(run: seq<State>, acts: seq<Action>, n: nat, t: Tid, x: Sid): nat
    requires |run| == |acts| + 1 && n <= |acts|
  {
    var last := if n > 0 && Passes(run[n - 1], acts[n - 1], x) && run[n - 1].current == t then 1 else 0;
    if n == 0 then 0 else PReturns(run, acts, n - 1, t, x) + last
  }

  predicate InP(s: State, t: Tid, x: Sid) { t in s.pcs && (s.pcs[t] == Waiting(x) || s.pcs[t] == Retrying(x)) }

  /** Every call of P takes one from the value, once, and while it has not the thread is
      asleep or on its way to test again. */
  lemma {:induction false} CallsReturn(run: seq<State>, acts: seq<Action>, n: nat, t: Tid, x: Sid)
    requires IsTrace(run, acts) && n <= |acts|
    ensures PCalls(run, acts, n, t, x) == PReturns(run, acts, n, t, x) + if InP(run[n], t, x) then 1 else 0
  {
    hide Do, Inv, InP, Passes;
    if n > 0 {
      CallsReturn(run, acts, n - 1, t, x);
      assert ActAt(run, acts, n - 1);
      TraceInv(run, acts, n - 1);
      InPStep(run[n - 1], acts[n - 1], t, x);
    } else {
      NobodyInP(run[0], t, x);
    }
  }

  lemma NobodyInP(s: State, t: Tid, x: Sid)
    requires Init(s)
    ensures !InP(s, t, x)
  {}

  lemma InPStep(s: State, a: Action, t: Tid, x: Sid)
    requires Inv(s) && Do(s, a).Next?
    ensures var called := a == P(x) && s.current == t;
      var passed := Passes(s, a, x) && s.current == t;
      (if InP(s, t, x) then 1 else 0) + (if called then 1 else 0) ==
        (if InP(Do(s, a).state, t, x) then 1 else 0) + if passed then 1 else 0
  {
    hide Do, Inv;
    ThreadEffect(s, a);
    TestsKnown(s, a);
    StepPcs(s, a);
  }

  /** What the invariant says of the threads that operations concern. */
  lemma StepPcs(s: State, a: Action)
    requires Inv(s) && Do(s, a).Next?
    ensures s.current in s.pcs && (s.mode == User ==> s.pcs[s.current] == Running)
    ensures a.New? ==> a.t !in s.pcs
    ensures a.Fork? ==> a.t in s.pcs && s.pcs[a.t] == Created
    ensures a.SemV? && a.x in s.sems && s.sems[a.x].sem.queue != [] ==>
      var u := s.sems[a.x].sem.queue[0]; u in s.pcs && s.pcs[u] == Waiting(a.x)
    ensures (a.P? || a.Yield? || a.Finish?) ==> s.mode == User
    ensures a.Resume? ==> s.mode == Resuming && IsReady(s.pcs[s.current])
    ensures s.doomed.Some? ==> s.doomed.value in s.pcs && s.pcs[s.doomed.value] == Finished
  {
    PossibleExact(s, a);
    hide Do;
    if a.SemV? && a.x in s.sems {
      assert SemInv(s, a.x);
    }
  }

  // ------------------------------------------------------------ interrupt levels

  /** t has given up the processor at the given level and has not gone on yet. */
  ghost predicate Suspended(s: State, t: Tid, level: bool) {
    && t in s.pcs && (s.pcs[t].Yielding? || s.pcs[t].Waiting? || s.pcs[t].Retrying?)
    && t in s.levels && s.levels[t] == level
  }

  /** A thread that yields or falls asleep remembers its level. */
  lemma Suspends(s: State, a: Action)
    requires Inv(s) && Do(s, a).Next? && (a.Yield? || a.P?) && Do(s, a).state.mode != User
    ensures Suspended(Do(s, a).state, s.current, s.enabled)
  {
    hide Do, Inv;
    StepPcs(s, a);
    ModeEffect(s, a);
    ThreadEffect(s, a);
    LevelSaved(s, a);
  }

  /** Nothing changes that until it goes on, and then it has that level. */
  lemma StaysSuspended(s: State, a: Action, t: Tid, level: bool)
    requires Inv(s) && Do(s, a).Next? && Suspended(s, t, level)
    ensures var s' := Do(s, a).state;
      if s'.mode == User && s'.current == t then s'.enabled == level else Suspended(s', t, level)
  {
    hide Do, Inv;
    StepPcs(s, a);
    ReadyEffect(s, a);
    ModeEffect(s, a);
    ThreadEffect(s, a);
    LevelEffect(s, a);
    LevelSaved(s, a);
  }

  /** When a thread that called P or Yield goes on, interrupts are on exactly if they
      were on at the call, whatever happened in between. */
  lemma {:induction false} LevelRestored(run: seq<State>, acts: seq<Action>, i: nat, j: nat)
    requires IsTrace(run, acts) && i < j <= |acts| && (acts[i].Yield? || acts[i].P?)
    requires forall k | i < k < j :: run[k].mode != User || run[k].current != run[i].current
    ensures if run[j].mode == User && run[j].current == run[i].current then run[j].enabled == run[i].enabled
      else Suspended(run[j], run[i].current, run[i].enabled)
  {
    hide Do, Inv, Suspended;
    assert ActAt(run, acts, j - 1);
    TraceInv(run, acts, j - 1);
    if j == i + 1 {
      CallLevel(run[i], acts[i]);
    } else {
      LevelRestored(run, acts, i, j - 1);
      StaysSuspended(run[j - 1], acts[j - 1], run[i].current, run[i].enabled);
    }
  }

  lemma CallLevel(s: State, a: Action)
    requires Inv(s) && Do(s, a).Next? && (a.Yield? || a.P?)
    ensures var s' := Do(s, a).state;
      if s'.mode == User then s'.current == s.current && s'.enabled == s.enabled
      else Suspended(s', s.current, s.enabled)
  {
    hide Do, Inv, Suspended;
    StepPcs(s, a);
    LevelEffect(s, a);
    ModeEffect(s, a);
    ReadyEffect(s, a);
    if Do(s, a).state.mode != User { Suspends(s, a); }
  }
}
