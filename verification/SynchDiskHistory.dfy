/** The synchronous disk as its callers see it (filesys/synchdisk.cc): calls, requests
    to the device, interrupts and returns, counted over whole histories. */
module SynchDiskHistory {
  import opened Collections
  import opened Semaphores
  import opened SynchDisk

  // ------------------------------------------------------------------ one step

  /** A call starts; it sends its request; it returns. */
  predicate CallsAt(s: State, a: Action, t: Tid) { a == Caller(t) && t in s.pcs && s.pcs[t] == Idle }

  predicate SendsAt(s: State, a: Action, t: Tid) { a == Caller(t) && t in s.pcs && s.pcs[t] == Holding }

  predicate ReturnsAt(s: State, a: Action, t: Tid) { a == Caller(t) && t in s.pcs && s.pcs[t].Unlocking? }

  predicate BeforeRequest(s: State, t: Tid) {
    t in s.pcs && (s.pcs[t] == AtLock || s.pcs[t] == LockQueued || s.pcs[t] == LockWoken || s.pcs[t] == Got
                   || s.pcs[t] == Holding)
  }

  predicate AfterRequest(s: State, t: Tid) {
    t in s.pcs && (s.pcs[t].AtDone? || s.pcs[t].DoneQueued? || s.pcs[t].DoneWoken? || s.pcs[t].Releasing?
                   || s.pcs[t].Unlocking?)
  }

  /** A caller can go on unless it sleeps, and the device interrupts when it is active. */
  lemma CanStepExact(s: State, a: Action)
    requires Inv(s)
    ensures Do(s, a).Next? <==>
      if a == Interrupt then s.active else a.t in s.pcs && s.pcs[a.t] != LockQueued && !s.pcs[a.t].DoneQueued?
  {
    hide Inv, TryP, V;
    StepKeeps(s, a);
  }

  function One(b: bool): nat { if b then 1 else 0 }

  /** A caller goes from its call to its request to its return; others do not move it
      along. */
  lemma StepPhases(s: State, a: Action, t: Tid)
    requires Do(s, a).Next?
    ensures var s' := Do(s, a).state;
      && One(BeforeRequest(s', t)) + One(SendsAt(s, a, t)) == One(BeforeRequest(s, t)) + One(CallsAt(s, a, t))
      && One(AfterRequest(s', t)) + One(ReturnsAt(s, a, t)) == One(AfterRequest(s, t)) + One(SendsAt(s, a, t))
  {
    hide TryP, V;
  }

  /** The device gets a request from each caller that sends one, and completes one at
      each interrupt. */
  lemma StepDevice(s: State, a: Action)
    requires Do(s, a).Next?
    ensures var s' := Do(s, a).state;
      var sends := a.Caller? && SendsAt(s, a, a.t);
      && s'.issued == s.issued + One(sends) && s'.completed == s.completed + One(a == Interrupt)
      && s'.active == (if sends then true else if a == Interrupt then false else s.active)
      && (sends ==> a.t in s'.pcs && s'.pcs[a.t] == AtDone(s'.issued))
  {
    hide TryP, V;
  }

  // ------------------------------------------------------------- whole histories

  ghost predicate ActAt(run: seq<State>, acts: seq<Action>, i: nat)
    requires i < |acts| && |run| == |acts| + 1
  {
    Do(run[i], acts[i]) == Next(run[i + 1])
  }

  ghost predicate IsTrace(run: seq<State>, acts: seq<Action>) {
    && |run| == |acts| + 1 && Init(run[0])
    && forall i | 0 <= i < |acts| :: ActAt(run, acts, i)
  }

  ghost function Calls(run: seq<State>, acts: seq<Action>, n: nat, t: Tid): nat
    requires |run| == |acts| + 1 && n <= |acts|
  {
    if n == 0 then 0 else Calls(run, acts, n - 1, t) + One(CallsAt(run[n - 1], acts[n - 1], t))
  }

  ghost function Requests(run: seq<State>, acts: seq<Action>, n: nat, t: Tid): nat
    requires |run| == |acts| + 1 && n <= |acts|
  {
    if n == 0 then 0 else Requests(run, acts, n - 1, t) + One(SendsAt(run[n - 1], acts[n - 1], t))
  }

  ghost function Returns(run: seq<State>, acts: seq<Action>, n: nat, t: Tid): nat
    requires |run| == |acts| + 1 && n <= |acts|
  {
    if n == 0 then 0 else Returns(run, acts, n - 1, t) + One(ReturnsAt(run[n - 1], acts[n - 1], t))
  }

  /** Every call sends exactly one request, and returns after that. */
  lemma {:induction false} OneRequestPerCall(run: seq<State>, acts: seq<Action>, n: nat, t: Tid)
    requires IsTrace(run, acts) && n <= |acts|
    ensures Calls(run, acts, n, t) == Requests(run, acts, n, t) + One(BeforeRequest(run[n], t))
    ensures Requests(run, acts, n, t) == Returns(run, acts, n, t) + One(AfterRequest(run[n], t))
  {
    hide Do, BeforeRequest, AfterRequest, SendsAt, CallsAt, ReturnsAt;
    if n > 0 {
      OneRequestPerCall(run, acts, n - 1, t);
      assert ActAt(run, acts, n - 1);
      StepPhases(run[n - 1], acts[n - 1], t);
    } else {
      NobodyCalls(run[0], t);
    }
  }

  lemma NobodyCalls(s: State, t: Tid)
    requires Init(s)
    ensures !BeforeRequest(s, t) && !AfterRequest(s, t)
  {}

  ghost function AllRequests(run: seq<State>, acts: seq<Action>, n: nat): nat
    requires |run| == |acts| + 1 && n <= |acts|
  {
    if n == 0 then 0
    else
      var a := acts[n - 1];
      AllRequests(run, acts, n - 1) + One(a.Caller? && SendsAt(run[n - 1], a, a.t))
  }

  function Interrupts(acts: seq<Action>, n: nat): nat
    requires n <= |acts|
  {
    if n == 0 then 0 else Interrupts(acts, n - 1) + One(acts[n - 1] == Interrupt)
  }

  /** The device's counts are those of the requests and of the interrupts. */
  lemma {:induction false} DeviceCounts(run: seq<State>, acts: seq<Action>, n: nat)
    requires IsTrace(run, acts) && n <= |acts|
    ensures run[n].issued == AllRequests(run, acts, n) && run[n].completed == Interrupts(acts, n)
  {
    hide Do, SendsAt;
    if n > 0 {
      DeviceCounts(run, acts, n - 1);
      assert ActAt(run, acts, n - 1);
      StepDevice(run[n - 1], acts[n - 1]);
    }
  }
}
