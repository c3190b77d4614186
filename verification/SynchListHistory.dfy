/** The synchronized list as its callers see it (threads/synchlist.cc): a history of
    calls by many threads against a plain queue on which each call is one event. */
module SynchListHistory {
  import opened Collections
  import opened Semaphores
  import opened SynchList

  // -------------------------------------------------------------------- events

  datatype What = Enqueue(item: Item) | Dequeue(item: Item) | Wake
  datatype Event = Event(t: Tid, what: What)

  /** What a step of t does to the list: list->Append, list->RemoveFront with the item
      that t is going to return, or the start of a Broadcast. */
  function Happens(s: State, t: Tid, s': State): seq<Event>
    requires t in s.pcs && t in s'.pcs
  {
    match s.pcs[t]
    case Holding(op) => (
      match op
      case Append(item) => [Event(t, Enqueue(item))]
      case Broadcast => [Event(t, Wake)]
      case _ =>
        match s'.pcs[t]
        case Releasing(after) => if after.Return? then [Event(t, Dequeue(after.item))] else []
        case _ => [])
    case _ => []
  }

  /** The call that a thread is in the middle of, if it has not had its event yet. */
  function Owed(pc: Pc): Option<Op> {
    match pc
    case AtLock(op) => Some(Called(op))
    case LockQueued(op) => Some(Called(op))
    case LockWoken(op) => Some(Called(op))
    case Got(op) => Some(Called(op))
    case Holding(op) => Some(Called(op))
    case Releasing(after) => if after.Sleep? then Some(RemoveFront) else None
    case Unlocking(after) => if after.Sleep? then Some(RemoveFront) else None
    case AtWaiter(_) => Some(RemoveFront)
    case WaiterQueued(_) => Some(RemoveFront)
    case WaiterWoken(_) => Some(RemoveFront)
    case _ => None
  }

  /** Testing the list again is part of the same call. */
  function Called(op: Op): Op { if op.Rewait? then RemoveFront else op }

  /** The item that a thread on its way out is going to return. */
  function Returning(pc: Pc): Option<Item> {
    match pc
    case Releasing(after) => if after.Return? then Some(after.item) else None
    case Unlocking(after) => if after.Return? then Some(after.item) else None
    case _ => None
  }

  predicate Answers(what: What, op: Op) {
    match what
    case Enqueue(item) => op == Append(item)
    case Dequeue(_) => op == RemoveFront
    case Wake => op == Broadcast
  }

  // --------------------------------------------------------------------- steps

  /** Whether a thread can go on: it can unless it sleeps; an idle one must make a call,
      one that starts to wait needs a new semaphore, and an item that is in the list
      must not be appended again. */
  predicate CanStep(s: State, t: Tid, c: Choice)
    requires t in s.pcs
  {
    match s.pcs[t]
    case Idle => c.Call? && !c.op.Rewait?
    case LockQueued(_) => false
    case WaiterQueued(_) => false
    case Holding(op) => (
      match op
      case Append(item) => item !in s.list
      case Broadcast => true
      case RemoveFront => s.list != [] || (c.Fresh? && c.w !in s.waiters)
      case Rewait(w) => s.list != [] || (c.Fresh? && (c.w == w || c.w !in s.waiters)))
    case _ => true
  }

  lemma CanStepExact(s: State, t: Tid, c: Choice)
    requires Inv(s) && t in s.pcs
    ensures Do(s, t, c).Next? <==> CanStep(s, t, c)
  {
    hide Inv, TryP, V;
    StepKeeps(s, t, c);
  }

  predicate WakesUp(pc: Pc, pc': Pc) {
    (pc.LockQueued? && pc' == LockWoken(pc.op)) || (pc.WaiterQueued? && pc' == WaiterWoken(pc.w))
  }

  /** t goes to pc, and others stay where they are or are woken. */
  ghost predicate Moved(s: State, s': State, t: Tid, pc: Pc) {
    && t in s'.pcs && s'.pcs[t] == pc
    && forall u | u in s.pcs && u != t :: u in s'.pcs && (s'.pcs[u] == s.pcs[u] || WakesUp(s.pcs[u], s'.pcs[u]))
  }

  /** The list loses its first item, or gains one at the end, or is left alone, and the
      logs say so. */
  predicate ListAfter(s: State, s': State, e: seq<Event>) {
    if e == [] || e[0].what == Wake then SameList(s, s')
    else if e[0].what.Enqueue? then
      var item := e[0].what.item;
      s'.list == s.list + [item] && s'.appended == s.appended + [item] && s'.removed == s.removed
    else
      var item := e[0].what.item;
      s.list == [item] + s'.list && s'.appended == s.appended && s'.removed == s.removed + [item]
  }

  predicate SameList(s: State, s': State) {
    s'.list == s.list && s'.appended == s.appended && s'.removed == s.removed
  }

  lemma TryLockMoves(s: State, t: Tid, op: Op)
    requires t in s.pcs && TryLock(s, t, op).Next?
    ensures var s' := TryLock(s, t, op).state;
      SameList(s, s') && Moved(s, s', t, if s.lock.value == 0 then LockQueued(op) else Got(op))
  {
    hide TryP;
  }

  lemma UnlockMoves(s: State, t: Tid, after: After)
    requires t in s.pcs && Unlock(s, t, after).Next?
    ensures var s' := Unlock(s, t, after).state;
      SameList(s, s') && Moved(s, s', t, if after.Sleep? then AtWaiter(after.w) else Idle)
  {
    hide V;
  }

  lemma SignalMoves(s: State, t: Tid, pc: Pc)
    requires t in s.pcs && Signal(s, t, pc).Next? && (pc.Releasing? || pc.Broadcasting?)
    ensures SameList(s, Signal(s, t, pc).state) && Moved(s, Signal(s, t, pc).state, t, pc)
  {
    hide V;
  }

  lemma TryWaiterMoves(s: State, t: Tid, w: Wid)
    requires t in s.pcs && TryWaiter(s, t, w).Next?
    ensures var s' := TryWaiter(s, t, w).state;
      && SameList(s, s') && w in s.waiters
      && Moved(s, s', t, if s.waiters[w].sem.value == 0 then WaiterQueued(w) else AtLock(Rewait(w)))
  {
    hide TryP;
  }

  lemma DoOpMoves(s: State, t: Tid, op: Op, c: Choice)
    requires t in s.pcs && s.pcs[t] == Holding(op) && DoOp(s, t, op, c).Next?
    ensures var s' := DoOp(s, t, op, c).state;
      && t in s'.pcs && ListAfter(s, s', Happens(s, t, s'))
      && Moved(s, s', t,
           match op
           case Append(_) => Signalling
           case Broadcast => Broadcasting(s.waitQueue)
           case _ => if s.list != [] then Releasing(Return(s.list[0])) else s'.pcs[t])
      && ((op.RemoveFront? || op.Rewait?) && s.list == [] ==> s'.pcs[t].Releasing? && s'.pcs[t].after.Sleep?)
  {}

  /** A call is owed its event from when it is made, gets the event that answers it,
      and returns after that. */
  predicate Proceeds(t: Tid, c: Choice, e: seq<Event>, pc: Pc, pc': Pc) {
    && |e| <= 1
    && (pc == Idle ==> e == [] && c.Call? && Owed(pc') == Some(c.op))
    && (e != [] ==> e[0].t == t && Owed(pc).Some? && Answers(e[0].what, Owed(pc).value) && Owed(pc') == None)
    && (pc != Idle && e == [] ==> Owed(pc') == Owed(pc))
    && (pc' == Idle ==> Owed(pc) == None)
    && Returning(pc') ==
       if e != [] then (if e[0].what.Dequeue? then Some(e[0].what.item) else None)
       else if pc'.Unlocking? then Returning(pc) else None
  }

  /** A step changes the list by its event only, as a queue is changed. */
  lemma StepOwn(s: State, t: Tid, c: Choice)
    requires t in s.pcs && Do(s, t, c).Next?
    ensures t in Do(s, t, c).state.pcs
    ensures var s' := Do(s, t, c).state;
      var e, pc, pc' := Happens(s, t, s'), s.pcs[t], s'.pcs[t];
      ListAfter(s, s', e) && Proceeds(t, c, e, pc, pc')
  {
    hide TryLock, Unlock, Signal, TryWaiter, DoOp;
    StepMoves(s, t, c);
  }

  /** It takes no part in the calls of others, but that it may wake them. */
  lemma StepOthers(s: State, t: Tid, c: Choice, u: Tid)
    requires t in s.pcs && Do(s, t, c).Next? && u in s.pcs && u != t
    ensures var s' := Do(s, t, c).state;
      && u in s'.pcs && Owed(s'.pcs[u]) == Owed(s.pcs[u]) && Returning(s'.pcs[u]) == Returning(s.pcs[u])
      && (s'.pcs[u] == Idle <==> s.pcs[u] == Idle)
  {
    hide Do;
    StepMoves(s, t, c);
  }

  /** Where a step takes its thread. */
  lemma StepMoves(s: State, t: Tid, c: Choice)
    requires t in s.pcs && Do(s, t, c).Next?
    ensures var s' := Do(s, t, c).state;
      && t in s'.pcs && Moved(s, s', t, s'.pcs[t]) && ListAfter(s, s', Happens(s, t, s'))
      && var pc' := s'.pcs[t];
        match s.pcs[t]
        case Idle => c.Call? && !c.op.Rewait? && pc' == AtLock(c.op)
        case AtLock(op) => pc' == LockQueued(op) || pc' == Got(op)
        case LockWoken(op) => pc' == LockQueued(op) || pc' == Got(op)
        case LockQueued(_) => false
        case Got(op) => pc' == Holding(op)
        case Holding(op) => (
          match op
          case Append(_) => pc' == Signalling
          case Broadcast => pc' == Broadcasting(s.waitQueue)
          case _ =>
            if s.list != [] then pc' == Releasing(Return(s.list[0])) else pc'.Releasing? && pc'.after.Sleep?)
        case Signalling => pc' == Releasing(Finish)
        case Broadcasting(start) => pc' == if s.waitQueue == [] then Releasing(Finish) else s.pcs[t]
        case Releasing(after) => pc' == Unlocking(after)
        case Unlocking(after) => pc' == if after.Sleep? then AtWaiter(after.w) else Idle
        case AtWaiter(w) => pc' == WaiterQueued(w) || pc' == AtLock(Rewait(w))
        case WaiterWoken(w) => pc' == WaiterQueued(w) || pc' == AtLock(Rewait(w))
        case WaiterQueued(_) => false
  {
    hide TryLock, Unlock, Signal, TryWaiter, DoOp;
    match s.pcs[t]
    case AtLock(op) => TryLockMoves(s, t, op);
    case LockWoken(op) => TryLockMoves(s, t, op);
    case Holding(op) => DoOpMoves(s, t, op, c);
    case Signalling => SignalMoves(s, t, Releasing(Finish));
    case Broadcasting(start) =>
      SignalMoves(s, t, if s.waitQueue == [] then Releasing(Finish) else Broadcasting(start));
    case Unlocking(after) => UnlockMoves(s, t, after);
    case AtWaiter(w) => TryWaiterMoves(s, t, w);
    case WaiterWoken(w) => TryWaiterMoves(s, t, w);
    case _ =>
  }

  // -------------------------------------------------------------------- traces

  /** Who takes a step, and with what choice. */
  datatype Move = Move(t: Tid, c: Choice)

  ghost predicate MoveAt(run: seq<State>, moves: seq<Move>, i: nat)
    requires i < |moves| && |run| == |moves| + 1
  {
    moves[i].t in run[i].pcs && Do(run[i], moves[i].t, moves[i].c) == Next(run[i + 1])
  }

  ghost predicate IsTrace(run: seq<State>, moves: seq<Move>) {
    && |run| == |moves| + 1 && Init(run[0])
    && forall i | 0 <= i < |moves| :: MoveAt(run, moves, i)
  }

  lemma TraceIsRun(run: seq<State>, moves: seq<Move>)
    requires IsTrace(run, moves)
    ensures IsRun(run)
  {
    hide Do, Init;
    forall i | 0 <= i < |run| - 1 ensures StepAt(run, i) {
      assert MoveAt(run, moves, i);
    }
  }

  /** The event of step i, if any. */
  ghost function EventAt(run: seq<State>, moves: seq<Move>, i: nat): seq<Event>
    requires IsTrace(run, moves) && i < |moves|
  {
    assert MoveAt(run, moves, i);
    StepOwn(run[i], moves[i].t, moves[i].c);
    Happens(run[i], moves[i].t, run[i + 1])
  }

  ghost function Events(run: seq<State>, moves: seq<Move>, n: nat): seq<Event>
    requires IsTrace(run, moves) && n <= |moves|
  {
    if n == 0 then [] else Events(run, moves, n - 1) + EventAt(run, moves, n - 1)
  }

  ghost function EventsOf(run: seq<State>, moves: seq<Move>, n: nat, t: Tid): seq<Event>
    requires IsTrace(run, moves) && n <= |moves|
  {
    if n == 0 then []
    else EventsOf(run, moves, n - 1, t) + if moves[n - 1].t == t then EventAt(run, moves, n - 1) else []
  }

  ghost function CallAt(run: seq<State>, moves: seq<Move>, i: nat, t: Tid): seq<Op>
    requires IsTrace(run, moves) && i < |moves|
  {
    if moves[i].t == t && moves[i].c.Call? && t in run[i].pcs && run[i].pcs[t] == Idle
    then [moves[i].c.op] else []
  }

  /** The calls that t has made. */
  ghost function CallsOf(run: seq<State>, moves: seq<Move>, n: nat, t: Tid): seq<Op>
    requires IsTrace(run, moves) && n <= |moves|
  {
    if n == 0 then []
    else CallsOf(run, moves, n - 1, t) + CallAt(run, moves, n - 1, t)
  }

  // ------------------------------------------------------------- linearizability

  /** A queue on which the events happen one by one; None if they cannot. */
  function Replay(events: seq<Event>): Option<seq<Item>> {
    if events == [] then Some([])
    else match Replay(events[..|events| - 1])
      case None => None
      case Some(q) =>
        match events[|events| - 1].what
        case Enqueue(item) => Some(q + [item])
        case Dequeue(item) => if q != [] && q[0] == item then Some(q[1..]) else None
        case Wake => Some(q)
  }

  lemma ReplayNext(events: seq<Event>, e: Event)
    requires Replay(events).Some?
    ensures var q := Replay(events).value;
      Replay(events + [e]) ==
        match e.what
        case Enqueue(item) => Some(q + [item])
        case Dequeue(item) => if q != [] && q[0] == item then Some(q[1..]) else None
        case Wake => Some(q)
  {
    assert (events + [e])[..|events|] == events;
  }

  /** In every interleaving, a plain queue that sees the events in the order in which
      they happen has at any time the contents of the list, and gives each RemoveFront
      the item that it returns. */
  lemma {:induction false} Linearizable(run: seq<State>, moves: seq<Move>, n: nat)
    requires IsTrace(run, moves) && n <= |moves|
    ensures Replay(Events(run, moves, n)) == Some(run[n].list)
  {
    hide Do, Happens, Init, Replay, Proceeds, ListAfter;
    if n > 0 {
      Linearizable(run, moves, n - 1);
      assert MoveAt(run, moves, n - 1);
      var s, t, c := run[n - 1], moves[n - 1].t, moves[n - 1].c;
      StepOwn(s, t, c);
      AtMostOne(t, c, EventAt(run, moves, n - 1), s.pcs[t], run[n].pcs[t]);
      ReplayStep(Events(run, moves, n - 1), EventAt(run, moves, n - 1), s, run[n]);
    } else {
      NothingYet(run[0]);
    }
  }

  lemma NothingYet(s: State)
    requires Init(s)
    ensures Replay([]) == Some(s.list)
  {}

  lemma AtMostOne(t: Tid, c: Choice, e: seq<Event>, pc: Pc, pc': Pc)
    requires Proceeds(t, c, e, pc, pc')
    ensures |e| <= 1
  {}

  lemma ReplayStep(events: seq<Event>, e: seq<Event>, s: State, s': State)
    requires Replay(events) == Some(s.list) && ListAfter(s, s', e) && |e| <= 1
    ensures Replay(events + e) == Some(s'.list)
  {
    hide Replay;
    if e == [] {
      assert events + e == events;
    } else {
      assert e == [e[0]];
      ReplayNext(events, e[0]);
    }
  }

  /** The events answer the calls in order; the last call is owed its event exactly
      while it is under way; and a RemoveFront returns the item of its event. */
  predicate Served(calls: seq<Op>, events: seq<Event>, pc: Pc, t: Tid) {
    && |calls| == |events| + (if Owed(pc).Some? then 1 else 0)
    && (forall k | 0 <= k < |events| :: events[k].t == t && Answers(events[k].what, calls[k]))
    && (Owed(pc).Some? ==> calls[|events|] == Owed(pc).value)
    && (Returning(pc).Some? ==> events != [] && events[|events| - 1].what == Dequeue(Returning(pc).value))
  }

  /** Each thread's calls get their events in program order, one each, the last one
      being owed its event exactly while it is under way; and a RemoveFront returns
      the item of its event. */
  lemma {:induction false} ProgramOrder(run: seq<State>, moves: seq<Move>, n: nat, t: Tid)
    requires IsTrace(run, moves) && n <= |moves| && t in run[0].pcs
    ensures t in run[n].pcs
    ensures Served(CallsOf(run, moves, n, t), EventsOf(run, moves, n, t), run[n].pcs[t], t)
  {
    hide Do, Happens, Owed, Returning, Init, Served, Proceeds;
    if n == 0 {
      NobodyServed(run[0], t);
    } else {
      ProgramOrder(run, moves, n - 1, t);
      assert MoveAt(run, moves, n - 1);
      var s, u, c := run[n - 1], moves[n - 1].t, moves[n - 1].c;
      if u == t {
        StepOwn(s, t, c);
        var calls, events := CallsOf(run, moves, n - 1, t), EventsOf(run, moves, n - 1, t);
        ServedNext(calls, events, s.pcs[t], t, c, EventAt(run, moves, n - 1), run[n].pcs[t]);
      } else {
        StepOthers(s, u, c, t);
        SameServed(CallsOf(run, moves, n - 1, t), EventsOf(run, moves, n - 1, t), s.pcs[t], run[n].pcs[t], t);
      }
    }
  }

  lemma NobodyServed(s: State, t: Tid)
    requires Init(s) && t in s.pcs
    ensures Served([], [], s.pcs[t], t)
  {}

  lemma ServedNext(calls: seq<Op>, events: seq<Event>, pc: Pc, t: Tid, c: Choice, e: seq<Event>, pc': Pc)
    requires Served(calls, events, pc, t) && Proceeds(t, c, e, pc, pc')
    ensures Served(calls + if pc == Idle && c.Call? then [c.op] else [], events + e, pc', t)
  {
    hide Answers, Returning;
    IdleOwes(pc);
  }

  lemma IdleOwes(pc: Pc)
    ensures pc == Idle ==> Owed(pc) == None
  {}

  lemma SameServed(calls: seq<Op>, events: seq<Event>, pc: Pc, pc': Pc, t: Tid)
    requires Served(calls, events, pc, t) && Owed(pc') == Owed(pc) && Returning(pc') == Returning(pc)
    ensures Served(calls + [], events + [], pc', t)
  {
    assert calls + [] == calls && events + [] == events;
  }

  function Enqueued(events: seq<Event>): seq<Item> {
    if events == [] then []
    else
      var e := events[|events| - 1].what;
      Enqueued(events[..|events| - 1]) + if e.Enqueue? then [e.item] else []
  }

  function Dequeued(events: seq<Event>): seq<Item> {
    if events == [] then []
    else
      var e := events[|events| - 1].what;
      Dequeued(events[..|events| - 1]) + if e.Dequeue? then [e.item] else []
  }

  /** First in, first out: what the Appends have put in is what the RemoveFronts have
      got out, in the same order, and then the list. */
  lemma {:induction false} ReplayFifo(events: seq<Event>)
    requires Replay(events).Some?
    ensures Enqueued(events) == Dequeued(events) + Replay(events).value
  {
    if events != [] { ReplayFifo(events[..|events| - 1]); }
  }

  lemma FifoOfEvents(run: seq<State>, moves: seq<Move>, n: nat)
    requires IsTrace(run, moves) && n <= |moves|
    ensures Enqueued(Events(run, moves, n)) == Dequeued(Events(run, moves, n)) + run[n].list
  {
    Linearizable(run, moves, n);
    ReplayFifo(Events(run, moves, n));
  }

  /** The logs that the states carry are these. */
  lemma {:induction false} LogsAreEvents(run: seq<State>, moves: seq<Move>, n: nat)
    requires IsTrace(run, moves) && n <= |moves|
    ensures run[n].appended == Enqueued(Events(run, moves, n)) && run[n].removed == Dequeued(Events(run, moves, n))
  {
    hide Do, Happens, Init, Proceeds, ListAfter;
    if n > 0 {
      LogsAreEvents(run, moves, n - 1);
      assert MoveAt(run, moves, n - 1);
      var s, t, c := run[n - 1], moves[n - 1].t, moves[n - 1].c;
      StepOwn(s, t, c);
      AtMostOne(t, c, EventAt(run, moves, n - 1), s.pcs[t], run[n].pcs[t]);
      LogStep(Events(run, moves, n - 1), EventAt(run, moves, n - 1), s, run[n]);
    } else {
      NoLogs(run[0]);
    }
  }

  lemma NoLogs(s: State)
    requires Init(s)
    ensures s.appended == s.removed == []
  {}

  lemma LogStep(events: seq<Event>, e: seq<Event>, s: State, s': State)
    requires s.appended == Enqueued(events) && s.removed == Dequeued(events) && ListAfter(s, s', e) && |e| <= 1
    ensures s'.appended == Enqueued(events + e) && s'.removed == Dequeued(events + e)
  {
    if e == [] {
      assert events + e == events;
    } else {
      assert (events + e)[..|events|] == events;
    }
  }

  // ------------------------------------------------------------ order of waiting

  ghost predicate WokenAtLock(s: State, s': State, u: Tid) {
    u in s.pcs && u in s'.pcs && s.pcs[u].LockQueued? && s'.pcs[u].LockWoken?
  }

  /** The thread that a step wakes at the lock, and the one that it puts to sleep. */
  ghost function LockWake(s: State, s': State): seq<Tid> {
    if u :| WokenAtLock(s, s', u) then [u] else []
  }

  function LockSleep(s': State, t: Tid): seq<Tid> {
    if t in s'.pcs && s'.pcs[t].LockQueued? then [t] else []
  }

  ghost predicate GetsSignal(s: State, s': State, w: Wid) {
    w in s.waiters && w in s'.waiters && s'.waiters[w].signals > s.waiters[w].signals
  }

  /** The waiter that a step signals, and the one that it adds. */
  ghost function CondSignal(s: State, s': State): seq<Wid> {
    if w :| GetsSignal(s, s', w) then [w] else []
  }

  function CondWait(s: State, s': State, t: Tid): seq<Wid>
    requires t in s.pcs && t in s'.pcs
  {
    if s.pcs[t].Holding? && s'.pcs[t].Releasing? && s'.pcs[t].after.Sleep? then [s'.pcs[t].after.w] else []
  }

  lemma TryLockQueue(s: State, t: Tid, op: Op)
    requires t in s.pcs && !s.pcs[t].LockQueued? && TryLock(s, t, op).Next?
    ensures var s' := TryLock(s, t, op).state;
      && s'.lock.queue == s.lock.queue + LockSleep(s', t) && LockWake(s, s') == []
      && s'.waitQueue == s.waitQueue && s'.waiters == s.waiters
  {}

  lemma UnlockQueue(s: State, t: Tid, after: After)
    requires t in s.pcs && !s.pcs[t].LockQueued? && Unlock(s, t, after).Next?
    ensures var s' := Unlock(s, t, after).state;
      && LockSleep(s', t) == [] && LockWake(s, s') + s'.lock.queue == s.lock.queue
      && s'.waitQueue == s.waitQueue && s'.waiters == s.waiters
  {
    var s' := Unlock(s, t, after).state;
    if s.lock.queue != [] {
      var u := s.lock.queue[0];
      assert WokenAtLock(s, s', u);
      assert forall v | WokenAtLock(s, s', v) :: v == u;
    }
  }

  /** Only the lock's own steps wake at the lock or send to sleep there. */
  lemma NoLockChange(s: State, s': State, t: Tid)
    requires t in s'.pcs && s'.lock == s.lock && !s'.pcs[t].LockQueued?
    requires forall u | u in s.pcs && u in s'.pcs && s.pcs[u].LockQueued? :: s'.pcs[u] == s.pcs[u]
    ensures LockWake(s, s') + s'.lock.queue == s.lock.queue + LockSleep(s', t)
  {}

  lemma SignalQueue(s: State, t: Tid, pc: Pc)
    requires t in s.pcs && !s.pcs[t].LockQueued? && (pc.Releasing? || pc.Broadcasting?) && Signal(s, t, pc).Next?
    ensures var s' := Signal(s, t, pc).state;
      && CondSignal(s, s') + s'.waitQueue == s.waitQueue && s'.lock == s.lock
      && t in s'.pcs && s'.pcs[t] == pc
      && forall u | u in s.pcs && u in s'.pcs && s.pcs[u].LockQueued? :: s'.pcs[u] == s.pcs[u]
  {
    hide V;
    var s' := Signal(s, t, pc).state;
    if s.waitQueue != [] {
      var w := s.waitQueue[0];
      assert GetsSignal(s, s', w);
      assert forall v | GetsSignal(s, s', v) :: v == w;
    }
  }

  lemma TryWaiterQueue(s: State, t: Tid, w: Wid)
    requires t in s.pcs && !s.pcs[t].LockQueued? && TryWaiter(s, t, w).Next?
    ensures var s' := TryWaiter(s, t, w).state;
      && CondSignal(s, s') == [] && s'.waitQueue == s.waitQueue && s'.lock == s.lock
      && t in s'.pcs && !s'.pcs[t].LockQueued?
      && forall u | u in s.pcs && u in s'.pcs && s.pcs[u].LockQueued? :: s'.pcs[u] == s.pcs[u]
  {
    hide TryP;
  }

  lemma DoOpQueue(s: State, t: Tid, op: Op, c: Choice)
    requires t in s.pcs && s.pcs[t] == Holding(op) && DoOp(s, t, op, c).Next?
    ensures var s' := DoOp(s, t, op, c).state;
      && t in s'.pcs && CondSignal(s, s') == [] && s'.waitQueue == s.waitQueue + CondWait(s, s', t) && s'.lock == s.lock
      && !s'.pcs[t].LockQueued?
      && forall u | u in s.pcs && u in s'.pcs && s.pcs[u].LockQueued? :: s'.pcs[u] == s.pcs[u]
  {}

  lemma StepQueues(s: State, t: Tid, c: Choice)
    requires t in s.pcs && Do(s, t, c).Next?
    ensures t in Do(s, t, c).state.pcs
    ensures var s' := Do(s, t, c).state;
      && LockWake(s, s') + s'.lock.queue == s.lock.queue + LockSleep(s', t)
      && CondSignal(s, s') + s'.waitQueue == s.waitQueue + CondWait(s, s', t)
  {
    hide TryLock, Unlock, Signal, TryWaiter, DoOp, LockWake, CondSignal;
    var s' := Do(s, t, c).state;
    match s.pcs[t]
    case AtLock(op) => TryLockQueue(s, t, op); NoSignal(s, s'); TryLockMoves(s, t, op);
    case LockWoken(op) => TryLockQueue(s, t, op); NoSignal(s, s'); TryLockMoves(s, t, op);
    case Holding(op) => DoOpQueue(s, t, op, c); NoLockChange(s, s', t);
    case Signalling => SignalQueue(s, t, Releasing(Finish)); NoLockChange(s, s', t);
    case Broadcasting(start) =>
      SignalQueue(s, t, if s.waitQueue == [] then Releasing(Finish) else Broadcasting(start));
      NoLockChange(s, s', t);
    case Unlocking(after) => UnlockQueue(s, t, after); NoSignal(s, s'); UnlockMoves(s, t, after);
    case AtWaiter(w) => TryWaiterQueue(s, t, w); NoLockChange(s, s', t);
    case WaiterWoken(w) => TryWaiterQueue(s, t, w); NoLockChange(s, s', t);
    case _ => NoSignal(s, s'); NoLockChange(s, s', t);
  }

  lemma NoSignal(s: State, s': State)
    requires s'.waiters == s.waiters
    ensures CondSignal(s, s') == []
  {}

  /** Who has gone to sleep at the lock, and who was woken there, in order. */
  ghost function LockSleeps(run: seq<State>, moves: seq<Move>, n: nat): seq<Tid>
    requires |run| == |moves| + 1 && n <= |moves|
  {
    if n == 0 then [] else LockSleeps(run, moves, n - 1) + LockSleep(run[n], moves[n - 1].t)
  }

  ghost function LockWakes(run: seq<State>, n: nat): seq<Tid>
    requires n < |run|
  {
    if n == 0 then [] else LockWakes(run, n - 1) + LockWake(run[n - 1], run[n])
  }

  /** Threads are woken at the lock in the order in which they went to sleep there. */
  lemma {:induction false} LockOrder(run: seq<State>, moves: seq<Move>, n: nat)
    requires IsTrace(run, moves) && n <= |moves|
    ensures LockSleeps(run, moves, n) == LockWakes(run, n) + run[n].lock.queue
  {
    hide Do, LockWake, LockSleep;
    if n > 0 {
      LockOrder(run, moves, n - 1);
      assert MoveAt(run, moves, n - 1);
      var s, s', t := run[n - 1], run[n], moves[n - 1].t;
      StepQueues(s, t, moves[n - 1].c);
      QueueMoves(LockWakes(run, n - 1), s.lock.queue, LockSleep(s', t), LockWake(s, s'), s'.lock.queue);
    }
  }

  ghost function CondWaits(run: seq<State>, moves: seq<Move>, n: nat): seq<Wid>
    requires IsTrace(run, moves) && n <= |moves|
  {
    if n == 0 then []
    else
      assert MoveAt(run, moves, n - 1);
      StepOwn(run[n - 1], moves[n - 1].t, moves[n - 1].c);
      CondWaits(run, moves, n - 1) + CondWait(run[n - 1], run[n], moves[n - 1].t)
  }

  ghost function CondSignals(run: seq<State>, n: nat): seq<Wid>
    requires n < |run|
  {
    if n == 0 then [] else CondSignals(run, n - 1) + CondSignal(run[n - 1], run[n])
  }

  /** Waiters are signalled in the order in which they called Wait. */
  lemma {:induction false} SignalOrder(run: seq<State>, moves: seq<Move>, n: nat)
    requires IsTrace(run, moves) && n <= |moves|
    ensures CondWaits(run, moves, n) == CondSignals(run, n) + run[n].waitQueue
  {
    hide Do, CondSignal, CondWait;
    if n > 0 {
      SignalOrder(run, moves, n - 1);
      assert MoveAt(run, moves, n - 1);
      var s, s', t := run[n - 1], run[n], moves[n - 1].t;
      StepQueues(s, t, moves[n - 1].c);
      QueueMoves(CondSignals(run, n - 1), s.waitQueue, CondWait(s, s', t), CondSignal(s, s'), s'.waitQueue);
    }
  }
}
