/** Simulated time and the queue of pending interrupts (machine/interrupt.cc).

    A device handler is a parameter: whatever it does to the kernel, all that the
    interrupt simulation sees is which interrupts it schedules and whether it
    asks for a context switch.  It may depend on everything that has fired. */
module Interrupts {
  import opened LinkedList

  const SystemTick := 10
  const UserTick := 1

  type Device = nat

  /** id numbers the calls of Schedule. */
  datatype Pending = Pending(when: nat, id: nat, device: Device)

  datatype Request = Request(fromNow: nat, device: Device)

  datatype Effect = Effect(requests: seq<Request>, wantsYield: bool)

  /** The effect of the handler of the last interrupt in a history of firings. */
  type Handlers = seq<Pending> -> Effect

  /** The clock, the pending list and two histories: every interrupt scheduled,
      and every interrupt fired with the time at which it fired. */
  datatype State = State(
    total: nat, idle: nat, system: nat, user: nat,
    pending: seq<Pending>, yieldOnReturn: bool,
    scheduled: seq<Pending>, fired: seq<Pending>, at: seq<nat>)

  const Boot: State := State(0, 0, 0, 0, [], false, [], [], [])

  function PendingCompare(x: Pending, y: Pending): int {
    if x.when < y.when then -1 else if x.when > y.when then 1 else 0
  }

  // ------------------------------------------------------------- operations

  function Schedule(s: State, r: Request): State {
    var p := Pending(s.total + r.fromNow, |s.scheduled|, r.device);
    s.(pending := Inserted(PendingCompare, s.pending, p), scheduled := s.scheduled + [p])
  }

  function ScheduleAll(s: State, rs: seq<Request>): State
    decreases |rs|
  {
    if rs == [] then s else ScheduleAll(Schedule(s, rs[0]), rs[1..])
  }

  /** Take the first pending interrupt off the list and call its handler. */
  function FireOne(h: Handlers, s: State): State
    requires s.pending != []
  {
    var fired := s.fired + [s.pending[0]];
    var e := h(fired);
    ScheduleAll(s.(pending := s.pending[1..], fired := fired, at := s.at + [s.total],
                   yieldOnReturn := s.yieldOnReturn || e.wantsYield), e.requests)
  }

  predicate Due(s: State) {
    s.pending != [] && s.pending[0].when <= s.total
  }

  /** The do-while loop of CheckIfDue. */
  function FireDue(h: Handlers, s: State): State
    requires Proper(h) && Sorted(PendingCompare, s.pending) && Due(s)
    decreases DueCount(s.pending, s.total)
  {
    FireOneFacts(h, s);
    var s1 := FireOne(h, s);
    if Due(s1) then FireDue(h, s1) else s1
  }

  function CheckIfDue(h: Handlers, s: State, advanceClock: bool): (State, bool)
    requires Proper(h) && Sorted(PendingCompare, s.pending)
  {
    if s.pending == [] then (s, false)
    else if s.pending[0].when > s.total then
      if !advanceClock then (s, false)
      else (FireDue(h, s.(idle := s.idle + (s.pending[0].when - s.total), total := s.pending[0].when)), true)
    else (FireDue(h, s), true)
  }

  /** OneTick up to the Yield that it may make; yieldOnReturn says whether. */
  function OneTick(h: Handlers, s: State, userMode: bool): State
    requires Proper(h) && Sorted(PendingCompare, s.pending)
  {
    var s1 := if userMode then s.(total := s.total + UserTick, user := s.user + UserTick)
              else s.(total := s.total + SystemTick, system := s.system + SystemTick);
    CheckIfDue(h, s1, false).0
  }

  // ------------------------------------------------------- the firing loop ends

  /** ASSERT(fromNow > 0) in Schedule. */
  ghost predicate Proper(h: Handlers) {
    forall f, i | 0 <= i < |h(f).requests| :: h(f).requests[i].fromNow > 0
  }

  ghost function DueCount(q: seq<Pending>, total: nat): nat {
    if q == [] then 0 else (if q[0].when <= total then 1 else 0) + DueCount(q[1..], total)
  }

  lemma {:induction false} DueCountConcat(a: seq<Pending>, b: seq<Pending>, total: nat)
    ensures DueCount(a + b, total) == DueCount(a, total) + DueCount(b, total)
  {
    if a == [] {
      assert a + b == b;
    } else {
      assert (a + b)[1..] == a[1..] + b;
      DueCountConcat(a[1..], b, total);
    }
  }

  lemma CompareIsPreorder()
    ensures TotalPreorder(PendingCompare)
  {}

  lemma ScheduleFacts(s: State, r: Request)
    requires Sorted(PendingCompare, s.pending) && r.fromNow > 0
    ensures Sorted(PendingCompare, Schedule(s, r).pending)
    ensures DueCount(Schedule(s, r).pending, s.total) == DueCount(s.pending, s.total)
  {
    hide TotalPreorder, Sorted, DueCount, Inserted;
    CompareIsPreorder();
    var p := Pending(s.total + r.fromNow, |s.scheduled|, r.device);
    InsertionIsStable(PendingCompare, s.pending, p);
    NotDueYet(s.pending, p, s.total);
  }

  lemma NotDueYet(q: seq<Pending>, p: Pending, total: nat)
    requires p.when > total
    ensures DueCount(Inserted(PendingCompare, q, p), total) == DueCount(q, total)
  {
    var k := Position(PendingCompare, q, p);
    var a, b := q[..k], q[k..];
    assert DueCount([p], total) == 0;
    assert q == a + b;
    hide DueCount, Position;
    DueCountConcat(a + [p], b, total);
    DueCountConcat(a, [p], total);
    DueCountConcat(a, b, total);
  }

  lemma {:induction false} ScheduleAllFacts(s: State, rs: seq<Request>)
    requires Sorted(PendingCompare, s.pending) && forall i | 0 <= i < |rs| :: rs[i].fromNow > 0
    ensures var s' := ScheduleAll(s, rs);
      && Sorted(PendingCompare, s'.pending)
      && DueCount(s'.pending, s.total) == DueCount(s.pending, s.total)
      && s'.total == s.total
    decreases |rs|
  {
    if rs != [] {
      ScheduleFacts(s, rs[0]);
      ScheduleAllFacts(Schedule(s, rs[0]), rs[1..]);
    }
  }

  /** Each turn of the loop leaves one due interrupt less. */
  lemma FireOneFacts(h: Handlers, s: State)
    requires Proper(h) && Sorted(PendingCompare, s.pending) && Due(s)
    ensures var s' := FireOne(h, s);
      && Sorted(PendingCompare, s'.pending)
      && DueCount(s'.pending, s'.total) == DueCount(s.pending, s.total) - 1
      && s'.total == s.total
  {
    var fired := s.fired + [s.pending[0]];
    var e := h(fired);
    var s1 := s.(pending := s.pending[1..], fired := fired, at := s.at + [s.total],
                 yieldOnReturn := s.yieldOnReturn || e.wantsYield);
    ScheduleAllFacts(s1, e.requests);
  }

  // --------------------------------------------------------------- invariant

  /** The order in which interrupts must fire: by due time, ties by Schedule. */
  predicate Before(x: Pending, y: Pending) {
    x.when < y.when || (x.when == y.when && x.id < y.id)
  }

  ghost predicate InOrder(q: seq<Pending>) {
    forall i, j | 0 <= i < j < |q| :: Before(q[i], q[j])
  }

  /** What fired and what is pending is in order, throughout and across. */
  ghost predicate OrderInv(s: State) {
    InOrder(s.fired) && InOrder(s.pending)
    && forall i, j | 0 <= i < |s.fired| && 0 <= j < |s.pending| :: Before(s.fired[i], s.pending[j])
  }

  /** Interrupts fire when due, never early and at most 9 ticks late. */
  ghost predicate TimesInv(s: State) {
    && |s.at| == |s.fired|
    && forall i | 0 <= i < |s.fired| :: s.fired[i].when <= s.at[i] <= s.fired[i].when + 9 && s.at[i] <= s.total
  }

  /** Every interrupt that was scheduled is pending or has fired, exactly once. */
  ghost predicate OnceInv(s: State) {
    && (forall i | 0 <= i < |s.scheduled| :: s.scheduled[i].id == i)
    && multiset(s.scheduled) == multiset(s.pending) + multiset(s.fired)
  }

  ghost predicate Above(q: seq<Pending>, floor: int) {
    forall i | 0 <= i < |q| :: q[i].when > floor
  }

  /** The invariant while due interrupts are being fired: nothing pending was due
      by time floor, at most 10 ticks ago. */
  ghost predicate Firing(s: State, floor: int) {
    && OrderInv(s) && TimesInv(s) && OnceInv(s)
    && Above(s.pending, floor) && floor <= s.total <= floor + 10
    && s.total == s.idle + s.system + s.user
  }

  /** Outside CheckIfDue everything pending lies strictly in the future. */
  ghost predicate Inv(s: State) {
    Firing(s, s.total)
  }

  lemma InOrderSorted(q: seq<Pending>)
    requires InOrder(q)
    ensures Sorted(PendingCompare, q)
  {
    forall i, j | 0 <= i < j < |q| ensures PendingCompare(q[i], q[j]) <= 0 {
      assert Before(q[i], q[j]);
    }
  }

  lemma OldIds(s: State)
    requires OnceInv(s)
    ensures forall i | 0 <= i < |s.pending| :: s.pending[i].id < |s.scheduled|
  {
    forall i | 0 <= i < |s.pending| ensures s.pending[i].id < |s.scheduled| {
      assert s.pending[i] in multiset(s.pending);
      assert s.pending[i] in multiset(s.scheduled);
      assert s.pending[i] in s.scheduled;
    }
  }

  /** Sorted insertion puts a newer interrupt where the firing order wants it. */
  lemma InsertInOrder(q: seq<Pending>, p: Pending)
    requires InOrder(q) && forall i | 0 <= i < |q| :: q[i].id < p.id
    ensures InOrder(Inserted(PendingCompare, q, p))
    ensures forall x :: x in Inserted(PendingCompare, q, p) <==> x in q || x == p
  {
    var k := Position(PendingCompare, q, p);
    var r := Inserted(PendingCompare, q, p);
    assert forall i | 0 <= i < k :: Before(q[i], p);
    forall i | k <= i < |q| ensures Before(p, q[i]) {
      if k < i { assert Before(q[k], q[i]); }
    }
    hide Position;
    forall i, j | 0 <= i < j < |r| ensures Before(r[i], r[j]) {
      assert i != k ==> r[i] == q[if i < k then i else i - 1];
      assert j != k ==> r[j] == q[if j < k then j else j - 1];
    }
    assert q == q[..k] + q[k..];
  }

  lemma ScheduleKeeps(s: State, r: Request, floor: int)
    requires Firing(s, floor) && r.fromNow > 0
    ensures Firing(Schedule(s, r), floor)
  {
    hide InOrder, Inserted, Before, Above;
    var p := Pending(s.total + r.fromNow, |s.scheduled|, r.device);
    var s' := Schedule(s, r);
    OldIds(s);
    InsertInOrder(s.pending, p);
    InsertionAddsOne(PendingCompare, s.pending, p);
    MembersAbove(s, s', p, floor);
    MembersAfter(s, s', p);
  }

  lemma MembersAfter(s: State, s': State, p: Pending)
    requires OrderInv(s) && TimesInv(s) && p.when > s.total && s'.fired == s.fired && InOrder(s'.pending)
    requires forall x :: x in s'.pending <==> x in s.pending || x == p
    ensures OrderInv(s')
  {
    hide InOrder;
    forall i, j | 0 <= i < |s.fired| && 0 <= j < |s'.pending| ensures Before(s.fired[i], s'.pending[j]) {
      assert s'.pending[j] in s'.pending;
    }
  }

  lemma MembersAbove(s: State, s': State, p: Pending, floor: int)
    requires Above(s.pending, floor) && p.when > floor
    requires forall x :: x in s'.pending <==> x in s.pending || x == p
    ensures Above(s'.pending, floor)
  {
    forall j | 0 <= j < |s'.pending| ensures s'.pending[j].when > floor {
      assert s'.pending[j] in s'.pending;
    }
  }

  lemma {:induction false} ScheduleAllKeeps(s: State, rs: seq<Request>, floor: int)
    requires Firing(s, floor) && forall i | 0 <= i < |rs| :: rs[i].fromNow > 0
    ensures Firing(ScheduleAll(s, rs), floor)
    decreases |rs|
  {
    hide Firing;
    if rs != [] {
      ScheduleKeeps(s, rs[0], floor);
      ScheduleAllKeeps(Schedule(s, rs[0]), rs[1..], floor);
    }
  }

  lemma FireOneKeeps(h: Handlers, s: State, floor: int)
    requires Proper(h) && Firing(s, floor) && Due(s)
    ensures Firing(FireOne(h, s), floor)
  {
    var fired := s.fired + [s.pending[0]];
    var e := h(fired);
    var s1 := s.(pending := s.pending[1..], fired := fired, at := s.at + [s.total],
                 yieldOnReturn := s.yieldOnReturn || e.wantsYield);
    assert Firing(s1, floor) by {
      hide FireOne, Proper;
      assert s.pending == [s.pending[0]] + s.pending[1..];
    }
    hide Firing;
    ScheduleAllKeeps(s1, e.requests, floor);
  }

  lemma {:induction false} FireDueKeeps(h: Handlers, s: State, floor: int)
    requires Proper(h) && Firing(s, floor) && Due(s)
    ensures Sorted(PendingCompare, s.pending) && Inv(FireDue(h, s))
    decreases DueCount(s.pending, s.total)
  {
    InOrderSorted(s.pending);
    FireOneFacts(h, s);
    FireOneKeeps(h, s, floor);
    var s1 := FireOne(h, s);
    hide FireOne, Sorted;
    if Due(s1) {
      FireDueKeeps(h, s1, floor);
    } else {
      AllLater(s1, floor);
    }
  }

  lemma AllLater(s: State, floor: int)
    requires Firing(s, floor) && !Due(s)
    ensures Inv(s)
  {
    forall i | 0 < i < |s.pending| ensures s.pending[i].when > s.total {
      assert Before(s.pending[0], s.pending[i]);
    }
  }

  // ------------------------------------------------------------------ every run

  datatype Op = Sched(r: Request) | Tick(userMode: bool) | Idle

  /** One operation: a device schedules an interrupt, time advances because a
      user instruction ran or interrupts were re-enabled, or the machine idles.
      A tick ends with the Yield that was asked for, if any. */
  function Do(h: Handlers, s: State, op: Op): State
    requires Proper(h) && Sorted(PendingCompare, s.pending)
  {
    match op
    case Sched(r) => if r.fromNow > 0 then Schedule(s, r) else s
    case Tick(userMode) => OneTick(h, s, userMode).(yieldOnReturn := false)
    case Idle => CheckIfDue(h, s, true).0
  }

  lemma StepKeeps(h: Handlers, s: State, op: Op)
    requires Proper(h) && Inv(s)
    ensures Sorted(PendingCompare, s.pending) && Inv(Do(h, s, op))
  {
    InOrderSorted(s.pending);
    match op
    case Sched(r) => if r.fromNow > 0 { ScheduleKeeps(s, r, s.total); }
    case Tick(userMode) => TickKeeps(h, s, userMode);
    case Idle => IdleKeeps(h, s);
  }

  lemma TickKeeps(h: Handlers, s: State, userMode: bool)
    requires Proper(h) && Inv(s) && Sorted(PendingCompare, s.pending)
    ensures Inv(OneTick(h, s, userMode))
  {
    hide FireDue, Sorted;
    var s1 := if userMode then s.(total := s.total + UserTick, user := s.user + UserTick)
              else s.(total := s.total + SystemTick, system := s.system + SystemTick);
    assert Firing(s1, s.total);
    hide OrderInv, TimesInv, OnceInv;
    if Due(s1) {
      FireDueKeeps(h, s1, s.total);
    } else {
      AllLater(s1, s.total);
    }
  }

  lemma IdleKeeps(h: Handlers, s: State)
    requires Proper(h) && Inv(s) && Sorted(PendingCompare, s.pending)
    ensures Inv(CheckIfDue(h, s, true).0)
  {
    hide FireDue, Sorted;
    if s.pending != [] {
      var s1 := s.(idle := s.idle + (s.pending[0].when - s.total), total := s.pending[0].when);
      forall i | 0 < i < |s.pending| ensures s.pending[i].when >= s1.total {
        assert Before(s.pending[0], s.pending[i]);
      }
      assert Firing(s1, s1.total - 1);
      FireDueKeeps(h, s1, s1.total - 1);
    }
  }

  /** The state after any list of operations from power-up: interrupts have
      fired in order and on time, and what is pending is in the future. */
  function Run(h: Handlers, ops: seq<Op>): (s: State)
    requires Proper(h)
    ensures Inv(s)
    decreases |ops|
  {
    if ops == [] then Boot
    else
      var s0, op := Run(h, ops[..|ops| - 1]), ops[|ops| - 1];
      StepKeeps(h, s0, op);
      Do(h, s0, op)
  }

  /** An interrupt has fired, exactly once, if and only if its time has come. */
  lemma FiresOnceWhenDue(h: Handlers, ops: seq<Op>, i: nat)
    requires Proper(h) && i < |Run(h, ops).scheduled|
    ensures var s := Run(h, ops); var p := s.scheduled[i];
      multiset(s.fired)[p] == (if p.when <= s.total then 1 else 0)
  {
    var s := Run(h, ops);
    hide Run;
    var p := s.scheduled[i];
    OccursOnce(s.scheduled, i);
    assert multiset(s.pending)[p] + multiset(s.fired)[p] == 1;
    if p in multiset(s.pending) {
      assert p in s.pending;
    } else {
      assert p in s.fired;
    }
  }

  /** Over any run: interrupts fire in order of their times, those for the same time
      in the order they were scheduled; none fires early or more than 9 ticks late;
      what is pending lies in the future; and every tick is accounted for. */
  lemma Timely(h: Handlers, ops: seq<Op>)
    requires Proper(h)
    ensures var s := Run(h, ops);
      && |s.at| == |s.fired| && s.total == s.idle + s.system + s.user
      && (forall i | 0 <= i < |s.fired| :: s.fired[i].when <= s.at[i] <= s.fired[i].when + 9)
      && (forall i, j | 0 <= i < j < |s.fired| :: Before(s.fired[i], s.fired[j]))
      && (forall i | 0 <= i < |s.pending| :: s.pending[i].when > s.total)
  {
    var s := Run(h, ops);
    assert Firing(s, s.total);
    hide Run;
  }

  lemma OccursOnce(q: seq<Pending>, i: nat)
    requires i < |q| && forall j | 0 <= j < |q| :: q[j].id == j
    ensures multiset(q)[q[i]] == 1
  {
    assert q == q[..i] + [q[i]] + q[i + 1..];
    assert q[i] !in q[..i] && q[i] !in q[i + 1..];
  }

  // ------------------------------------------------------ the simulation itself

  datatype IntStatus = IntOff | IntOn
  datatype MachineStatus = IdleMode | SystemMode | UserMode

  class Interrupt {
    const handlers: Handlers
    var level: IntStatus
    var inHandler: bool
    var status: MachineStatus
    var yieldOnReturn: bool
    var pending: seq<Pending>
    var totalTicks: nat
    var idleTicks: nat
    var systemTicks: nat
    var userTicks: nat
    var scheduled: seq<Pending>
    var fired: seq<Pending>
    var at: seq<nat>

    constructor (h: Handlers)
      ensures handlers == h && level == IntOff && !inHandler && status == SystemMode && St() == Boot
    {
      handlers, level, inHandler, status, yieldOnReturn := h, IntOff, false, SystemMode, false;
      totalTicks, idleTicks, systemTicks, userTicks := 0, 0, 0, 0;
      pending, scheduled, fired, at := [], [], [], [];
    }

    function St(): State
      reads this
    {
      State(totalTicks, idleTicks, systemTicks, userTicks, pending, yieldOnReturn, scheduled, fired, at)
    }

    /** The fields that no operation below changes, or that it restores. */
    twostate predicate SameMode()
      reads this
    {
      level == old(level) && inHandler == old(inHandler) && status == old(status)
    }

    method Enter(r: Request)
      requires r.fromNow > 0
      modifies this
      ensures St() == Schedule(old(St()), r) && SameMode()
    {
      var p := Pending(totalTicks + r.fromNow, |scheduled|, r.device);
      pending := Inserted(PendingCompare, pending, p);
      scheduled := scheduled + [p];
    }

    method Fire()
      requires pending != [] && Proper(handlers)
      modifies this
      ensures St() == FireOne(handlers, old(St())) && SameMode()
    {
      fired, at := fired + [pending[0]], at + [totalTicks];
      pending := pending[1..];
      var e := handlers(fired);
      yieldOnReturn := yieldOnReturn || e.wantsYield;
      ghost var target := ScheduleAll(St(), e.requests);
      for i := 0 to |e.requests|
        invariant ScheduleAll(St(), e.requests[i..]) == target && SameMode()
      {
        Enter(e.requests[i]);
        assert e.requests[i..][1..] == e.requests[i + 1..];
      }
    }

    method CheckDue(advanceClock: bool) returns (any: bool)
      requires level == IntOff && Proper(handlers) && Sorted(PendingCompare, pending)
      modifies this
      ensures (St(), any) == CheckIfDue(handlers, old(St()), advanceClock)
      ensures level == old(level) && status == old(status) && (any ==> !inHandler)
      ensures !any ==> inHandler == old(inHandler)
    {
      hide Proper, Sorted, FireOne;
      if pending == [] {
        return false;
      }
      if pending[0].when > totalTicks {
        if !advanceClock {
          return false;
        }
        idleTicks := idleTicks + (pending[0].when - totalTicks);
        totalTicks := pending[0].when;
      }
      inHandler := true;
      ghost var target := FireDue(handlers, St());
      FireOneFacts(handlers, St());
      Fire();
      while pending != [] && pending[0].when <= totalTicks
        invariant Sorted(PendingCompare, pending)
        invariant (if Due(St()) then FireDue(handlers, St()) else St()) == target
        invariant level == old(level) && status == old(status)
        decreases DueCount(pending, totalTicks)
      {
        FireOneFacts(handlers, St());
        Fire();
      }
      inHandler := false;
      any := true;
    }

    /** OneTick; the caller yields if the result says so. */
    method Tick() returns (yieldNow: bool)
      requires Proper(handlers) && Sorted(PendingCompare, pending)
      modifies this
      ensures level == IntOn && status == old(status)
      ensures St() == OneTick(handlers, old(St()), old(status) != SystemMode).(yieldOnReturn := false)
      ensures yieldNow == OneTick(handlers, old(St()), old(status) != SystemMode).yieldOnReturn
    {
      hide CheckIfDue, Proper, Sorted;
      if status == SystemMode {
        totalTicks := totalTicks + SystemTick;
        systemTicks := systemTicks + SystemTick;
      } else {
        totalTicks := totalTicks + UserTick;
        userTicks := userTicks + UserTick;
      }
      level := IntOff;
      var any := CheckDue(false);
      level := IntOn;
      yieldNow := yieldOnReturn;
      yieldOnReturn := false;
    }

    /** Idle; true means that nothing is pending and the machine halts. */
    method Wait() returns (halt: bool)
      requires level == IntOff && Proper(handlers) && Sorted(PendingCompare, pending)
      modifies this
      ensures level == IntOff && (halt <==> old(pending) == [])
      ensures St() == CheckIfDue(handlers, old(St()), true).0
      ensures status == if halt then IdleMode else SystemMode
    {
      hide Proper, Sorted, FireDue;
      status := IdleMode;
      var any := CheckDue(true);
      if any {
        status := SystemMode;
      }
      halt := !any;
    }

    /** SetLevel; re-enabling interrupts is what makes simulated time pass. */
    method SetLevel(now: IntStatus) returns (before: IntStatus, yieldNow: bool)
      requires now == IntOff || !inHandler
      requires Proper(handlers) && Sorted(PendingCompare, pending)
      modifies this
      ensures before == old(level) && level == now && status == old(status)
      ensures if now == IntOn && before == IntOff
        then
          var after := OneTick(handlers, old(St()), old(status) != SystemMode);
          St() == after.(yieldOnReturn := false) && yieldNow == after.yieldOnReturn
        else St() == old(St()) && !yieldNow
    {
      hide OneTick, Proper, Sorted;
      before := level;
      level := now;
      yieldNow := false;
      if now == IntOn && before == IntOff {
        yieldNow := Tick();
      }
    }
  }
}
