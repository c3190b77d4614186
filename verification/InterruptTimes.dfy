/** What was asked of the interrupt simulation against what it does
    (machine/interrupt.cc): every request, by a device or by a handler, the ticks of
    the clock, and the context switches that handlers want. */
module InterruptTimes {
  import opened LinkedList
  import opened Interrupts

  // ------------------------------------------------------------------ requests

  /** A request and the time at which it was made. */
  datatype Ask = Ask(time: nat, r: Request)

  /** The pending interrupts that requests stand for, numbered from id. */
  function Entries(asks: seq<Ask>, id: nat): (q: seq<Pending>)
    ensures |q| == |asks|
  {
    seq(|asks|, i requires 0 <= i < |asks| => Pending(asks[i].time + asks[i].r.fromNow, id + i, asks[i].r.device))
  }

  function AsksAt(time: nat, rs: seq<Request>): (asks: seq<Ask>)
    ensures |asks| == |rs|
  {
    seq(|rs|, i requires 0 <= i < |rs| => Ask(time, rs[i]))
  }

  /** The requests made by the handlers of firings i and on. */
  function HandlerAsks(h: Handlers, fired: seq<Pending>, at: seq<nat>, i: nat): seq<Ask>
    requires i <= |fired| == |at|
    decreases |fired| - i
  {
    if i == |fired| then []
    else AsksAt(at[i], h(fired[..i + 1]).requests) + HandlerAsks(h, fired, at, i + 1)
  }

  /** Between s and s' interrupts fired at the present time, and their handlers did
      what handlers do. */
  ghost predicate Fires(h: Handlers, s: State, s': State) {
    && s.fired <= s'.fired && s.at <= s'.at && |s.at| == |s.fired| && |s'.at| == |s'.fired|
    && (forall k | |s.at| <= k < |s'.at| :: s'.at[k] == s.total)
    && s'.scheduled == s.scheduled + Entries(HandlerAsks(h, s'.fired, s'.at, |s.fired|), |s.scheduled|)
    && s'.total == s.total && s'.idle == s.idle && s'.system == s.system && s'.user == s.user
    && (s'.yieldOnReturn <==> s.yieldOnReturn || SomeWants(h, s'.fired, |s.fired|))
  }

  /** The handler of firing k wants a context switch. */
  predicate Wants(h: Handlers, fired: seq<Pending>, k: nat)
    requires k < |fired|
  {
    h(fired[..k + 1]).wantsYield
  }

  ghost predicate SomeWants(h: Handlers, fired: seq<Pending>, i: nat) {
    exists k | i <= k < |fired| :: Wants(h, fired, k)
  }

  /** A request made now is due fromNow ticks later, and it joins what is pending. */
  lemma ScheduleExact(s: State, r: Request)
    ensures var p := Pending(s.total + r.fromNow, |s.scheduled|, r.device);
      && Schedule(s, r).scheduled == s.scheduled + [p]
      && multiset(Schedule(s, r).pending) == multiset(s.pending) + multiset{p}
  {
    InsertionAddsOne(PendingCompare, s.pending, Pending(s.total + r.fromNow, |s.scheduled|, r.device));
  }

  lemma {:induction false} ScheduleAllExact(s: State, rs: seq<Request>)
    ensures var s' := ScheduleAll(s, rs);
      && s'.scheduled == s.scheduled + Entries(AsksAt(s.total, rs), |s.scheduled|)
      && s' == s.(pending := s'.pending, scheduled := s'.scheduled)
    decreases |rs|
  {
    hide Entries, AsksAt, Inserted;
    EntriesLength([], |s.scheduled|);
    AsksNone(s.total);
    if rs != [] {
      ScheduleAllExact(Schedule(s, rs[0]), rs[1..]);
      FirstEntry(s.total, rs, |s.scheduled|);
    }
  }

  lemma AsksNone(time: nat)
    ensures AsksAt(time, []) == []
  {}

  lemma FirstEntry(time: nat, rs: seq<Request>, id: nat)
    requires rs != []
    ensures Entries(AsksAt(time, rs), id) ==
      [Pending(time + rs[0].fromNow, id, rs[0].device)] + Entries(AsksAt(time, rs[1..]), id + 1)
  {}

  lemma FireOneExact(h: Handlers, s: State)
    requires s.pending != [] && |s.at| == |s.fired|
    ensures Fires(h, s, FireOne(h, s)) && FireOne(h, s).fired == s.fired + [s.pending[0]]
  {
    var fired := s.fired + [s.pending[0]];
    var e := h(fired);
    var s1 := s.(pending := s.pending[1..], fired := fired, at := s.at + [s.total],
                 yieldOnReturn := s.yieldOnReturn || e.wantsYield);
    ScheduleAllExact(s1, e.requests);
    assert fired[..|s.fired| + 1] == fired;
    assert Wants(h, fired, |s.fired|) == e.wantsYield;
    LastAsks(h, fired, s1.at);
  }

  lemma LastAsks(h: Handlers, fired: seq<Pending>, at: seq<nat>)
    requires 0 < |fired| == |at|
    ensures HandlerAsks(h, fired, at, |fired| - 1) == AsksAt(at[|at| - 1], h(fired).requests)
  {
    assert fired[..|fired|] == fired;
    assert HandlerAsks(h, fired, at, |fired|) == [];
  }

  /** The requests of firings i to |a| - 1, and then those of the later ones. */
  lemma {:induction false} AsksSplit(h: Handlers, a: seq<Pending>, t: seq<nat>, b: seq<Pending>, u: seq<nat>, i: nat)
    requires i <= |a| == |t| && |b| == |u| && a <= b && t <= u
    ensures HandlerAsks(h, b, u, i) == HandlerAsks(h, a, t, i) + HandlerAsks(h, b, u, |a|)
    decreases |a| - i
  {
    if i < |a| {
      assert b[..i + 1] == a[..i + 1];
      AsksSplit(h, a, t, b, u, i + 1);
    }
  }

  lemma FiresTrans(h: Handlers, s: State, s1: State, s2: State)
    requires Fires(h, s, s1) && Fires(h, s1, s2)
    ensures Fires(h, s, s2)
  {
    hide HandlerAsks;
    AsksSplit(h, s1.fired, s1.at, s2.fired, s2.at, |s.fired|);
    var a, b := HandlerAsks(h, s1.fired, s1.at, |s.fired|), HandlerAsks(h, s2.fired, s2.at, |s1.fired|);
    assert Entries(a + b, |s.scheduled|) == Entries(a, |s.scheduled|) + Entries(b, |s1.scheduled|);
    WantsSplit(h, s1.fired, s2.fired, |s.fired|);
  }

  lemma WantsSplit(h: Handlers, a: seq<Pending>, b: seq<Pending>, i: nat)
    requires i <= |a| && a <= b
    ensures SomeWants(h, b, i) <==> SomeWants(h, a, i) || SomeWants(h, b, |a|)
  {
    forall k | 0 <= k < |a| ensures Wants(h, b, k) == Wants(h, a, k) { assert b[..k + 1] == a[..k + 1]; }
  }

  lemma {:induction false} FireDueExact(h: Handlers, s: State)
    requires Proper(h) && Sorted(PendingCompare, s.pending) && Due(s) && |s.at| == |s.fired|
    ensures Fires(h, s, FireDue(h, s)) && |FireDue(h, s).fired| > |s.fired|
    decreases DueCount(s.pending, s.total)
  {
    hide Fires, FireOne, Sorted, Proper, DueCount;
    FireOneFacts(h, s);
    FireOneExact(h, s);
    var s1 := FireOne(h, s);
    if Due(s1) {
      assert |s1.at| == |s1.fired| by { FiresLengths(h, s, s1); }
      FireDueExact(h, s1);
      FiresTrans(h, s, s1, FireDue(h, s1));
    }
  }

  lemma FiresLengths(h: Handlers, s: State, s': State)
    requires Fires(h, s, s')
    ensures |s'.at| == |s'.fired|
  {}

  lemma FiresNothing(h: Handlers, s: State)
    requires |s.at| == |s.fired|
    ensures Fires(h, s, s)
  {
    assert HandlerAsks(h, s.fired, s.at, |s.fired|) == [];
  }

  // ----------------------------------------------------------------- operations

  /** The clock after the time of an operation has passed, and before anything fires. */
  function Advanced(s: State, op: Op): State {
    match op
    case Sched(_) => s
    case Tick(userMode) =>
      if userMode then s.(total := s.total + 1, user := s.user + 1)
      else s.(total := s.total + 10, system := s.system + 10)
    case Idle =>
      if s.pending != [] && s.pending[0].when > s.total
      then s.(idle := s.idle + (s.pending[0].when - s.total), total := s.pending[0].when) else s
  }

  /** A tick is one unit of user time or ten of system time, idling goes to the first
      pending interrupt, and then whatever is due fires, at that time. */
  lemma StepExact(h: Handlers, s: State, op: Op)
    requires Proper(h) && Inv(s) && !op.Sched?
    ensures Sorted(PendingCompare, s.pending)
    ensures var s' := Do(h, s, op);
      if op.Tick? then !s'.yieldOnReturn && exists flag :: Fires(h, Advanced(s, op), s'.(yieldOnReturn := flag))
      else Fires(h, Advanced(s, op), s')
  {
    hide Fires, FireDue, Sorted, InOrder, Before;
    InOrderSorted(s.pending);
    var s1 := Advanced(s, op);
    FiresNothing(h, s1);
    if Due(s1) { FireDueExact(h, s1); }
    if op.Tick? {
      var s2 := OneTick(h, s, op.userMode);
      assert s2 == if Due(s1) then FireDue(h, s1) else s1;
      assert Do(h, s, op).(yieldOnReturn := s2.yieldOnReturn) == s2;
      assert Fires(h, s1, Do(h, s, op).(yieldOnReturn := s2.yieldOnReturn));
    }
  }

  /** The tick makes a context switch exactly if a handler wanted one, now or while the
      machine was idle. */
  lemma TickYields(h: Handlers, s: State, userMode: bool)
    requires Proper(h) && Inv(s)
    ensures Sorted(PendingCompare, s.pending)
    ensures var s' := OneTick(h, s, userMode);
      s'.yieldOnReturn <==> s.yieldOnReturn || SomeWants(h, s'.fired, |s.fired|)
  {
    hide FireDue, Sorted, InOrder, Before;
    InOrderSorted(s.pending);
    var s1 := Advanced(s, Tick(userMode));
    if Due(s1) { FireDueExact(h, s1); }
    assert OneTick(h, s, userMode) == if Due(s1) then FireDue(h, s1) else s1;
  }

  // ----------------------------------------------------------------------- runs

  function Front(ops: seq<Op>): seq<Op>
    requires ops != []
  {
    ops[..|ops| - 1]
  }

  function Last(ops: seq<Op>): Op
    requires ops != []
  {
    ops[|ops| - 1]
  }

  /** Every request made in a run, by operations and by handlers, in order. */
  ghost function Asked(h: Handlers, ops: seq<Op>): seq<Ask>
    requires Proper(h)
    decreases |ops|
  {
    if ops == [] then []
    else Asked(h, Front(ops)) + match Last(ops)
      case Sched(r) => if r.fromNow > 0 then [Ask(Run(h, Front(ops)).total, r)] else []
      case _ =>
        var s, s' := Run(h, Front(ops)), Run(h, ops);
        if |s.fired| <= |s'.fired| == |s'.at| then HandlerAsks(h, s'.fired, s'.at, |s.fired|) else []
  }

  /** What is scheduled in a run is exactly what was asked for, each request due its
      number of ticks after it was made. */
  lemma {:induction false} AskedIsScheduled(h: Handlers, ops: seq<Op>)
    requires Proper(h)
    ensures Run(h, ops).scheduled == Entries(Asked(h, ops), 0)
    decreases |ops|
  {
    hide Entries, Schedule, OneTick, CheckIfDue, HandlerAsks, Firing, Proper;
    if ops == [] {
      assert Entries([], 0) == [];
    } else {
      AskedIsScheduled(h, Front(ops));
      var s, s', asked := Run(h, Front(ops)), Run(h, ops), Asked(h, Front(ops));
      StepKeeps(h, s, Last(ops));
      assert s' == Do(h, s, Last(ops));
      EntriesLength(asked, 0);
      match Last(ops)
      case Sched(r) =>
        ScheduleExact(s, r);
        EntriesConcat(asked, if r.fromNow > 0 then [Ask(s.total, r)] else [], 0);
        OneEntry(Ask(s.total, r), |asked|);
      case _ =>
        StepExact(h, s, Last(ops));
        EntriesConcat(asked, HandlerAsks(h, s'.fired, s'.at, |s.fired|), 0);
    }
  }

  lemma EntriesLength(asks: seq<Ask>, id: nat)
    ensures |Entries(asks, id)| == |asks| && Entries([], id) == []
  {}

  lemma OneEntry(a: Ask, id: nat)
    ensures Entries([a], id) == [Pending(a.time + a.r.fromNow, id, a.r.device)]
  {}

  lemma EntriesConcat(a: seq<Ask>, b: seq<Ask>, id: nat)
    ensures Entries(a + b, id) == Entries(a, id) + Entries(b, id + |a|) && a + [] == a
  {}

  /** An interrupt asked for at time T, n ticks ahead, fires exactly once, not before
      T + n and at most 9 ticks after that; until T + n it has not fired. */
  lemma OnTime(h: Handlers, ops: seq<Op>, i: nat)
    requires Proper(h) && i < |Asked(h, ops)|
    ensures var s, ask := Run(h, ops), Asked(h, ops)[i];
      var due := ask.time + ask.r.fromNow;
      var p := Pending(due, i, ask.r.device);
      && |s.at| == |s.fired|
      && multiset(s.fired)[p] == (if due <= s.total then 1 else 0)
      && forall k | 0 <= k < |s.fired| && s.fired[k] == p :: due <= s.at[k] <= due + 9
  {
    hide Run, Asked, Inv;
    AskedIsScheduled(h, ops);
    assert Run(h, ops).scheduled[i] == Entries(Asked(h, ops), 0)[i];
    FiresOnceWhenDue(h, ops, i);
    Timely(h, ops);
  }

  function Ticks(ops: seq<Op>, userMode: bool): nat {
    if ops == [] then 0 else Ticks(Front(ops), userMode) + if Last(ops) == Tick(userMode) then 1 else 0
  }

  /** User time is one unit for each user tick and system time ten for each other. */
  lemma {:induction false} ClockExact(h: Handlers, ops: seq<Op>)
    requires Proper(h)
    ensures Run(h, ops).user == Ticks(ops, true) && Run(h, ops).system == 10 * Ticks(ops, false)
    decreases |ops|
  {
    hide OneTick, CheckIfDue, Firing, Proper;
    if ops != [] {
      ClockExact(h, Front(ops));
      var s := Run(h, Front(ops));
      StepKeeps(h, s, Last(ops));
      assert Run(h, ops) == Do(h, s, Last(ops));
      if !Last(ops).Sched? { StepExact(h, s, Last(ops)); }
    }
  }
}
