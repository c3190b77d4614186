/** The kernel's synchronization objects as they are mutated (threads/synch.cc,
    threads/scheduler.cc).  Each method is a stretch of code that runs without a
    context switch; the state machines in SynchList, SynchDisk and Threads are
    built from the same functions TryP and V that specify them here. */
module SynchObjects {
  import opened Collections
  import opened Semaphores

  class Scheduler {
    var readyList: seq<Tid>

    /** No thread is ready twice. */
    ghost predicate Valid()
      reads this
    {
      NoDup(readyList)
    }

    constructor ()
      ensures Valid() && readyList == []
    {
      readyList := [];
    }

    method ReadyToRun(t: Tid)
      requires Valid() && t !in readyList
      modifies this
      ensures Valid() && readyList == old(readyList) + [t]
    {
      readyList := readyList + [t];
    }

    method FindNextToRun() returns (next: Option<Tid>)
      requires Valid()
      modifies this
      ensures Valid()
      ensures old(readyList) == [] ==> next == None && readyList == []
      ensures old(readyList) != [] ==>
        next.Some? && [next.value] + readyList == old(readyList) && next.value !in readyList
    {
      if readyList == [] {
        next := None;
      } else {
        next := Some(readyList[0]);
        readyList := readyList[1..];
      }
    }
  }

  class Semaphore {
    var value: nat
    var queue: seq<Tid>

    constructor (initialValue: nat)
      ensures Sem() == Semaphores.Sem.Sem(initialValue, [])
    {
      value, queue := initialValue, [];
    }

    function Sem(): Sem
      reads this
    {
      Semaphores.Sem.Sem(value, queue)
    }

    /** One pass of the loop in P by thread t; false means that t is now asleep
        in the queue and makes another pass when it runs again. */
    method TestP(t: Tid) returns (acquired: bool)
      requires t !in queue
      modifies this
      ensures Sem() == TryP(old(Sem()), t)
      ensures acquired <==> old(value) > 0
    {
      if value == 0 {
        queue := queue + [t];
        acquired := false;
      } else {
        value := value - 1;
        acquired := true;
      }
    }

    method Up(scheduler: Scheduler)
      requires scheduler.Valid() && (queue != [] ==> queue[0] !in scheduler.readyList)
      modifies this, scheduler
      ensures scheduler.Valid() && Sem() == V(old(Sem()))
      ensures scheduler.readyList == old(scheduler.readyList) + Front(old(queue))
    {
      if queue != [] {
        scheduler.ReadyToRun(queue[0]);
        queue := queue[1..];
      }
      value := value + 1;
    }
  }

  function Front<T>(s: seq<T>): seq<T> {
    if s == [] then [] else [s[0]]
  }

  class Lock {
    const semaphore: Semaphore
    var lockHolder: Option<Tid>

    constructor ()
      ensures lockHolder == None && fresh(semaphore) && semaphore.Sem() == Sem.Sem(1, [])
    {
      semaphore := new Semaphore(1);
      lockHolder := None;
    }

    /** Acquire up to the point where t owns the lock or sleeps. */
    method TestAcquire(t: Tid) returns (acquired: bool)
      requires t !in semaphore.queue
      modifies this, semaphore
      ensures semaphore.Sem() == TryP(old(semaphore.Sem()), t)
      ensures acquired <==> old(semaphore.value) > 0
      ensures lockHolder == if acquired then Some(t) else old(lockHolder)
    {
      acquired := semaphore.TestP(t);
      if acquired {
        lockHolder := Some(t);
      }
    }

    method Release(t: Tid, scheduler: Scheduler)
      requires lockHolder == Some(t) && scheduler.Valid()
      requires semaphore.queue != [] ==> semaphore.queue[0] !in scheduler.readyList
      modifies this, semaphore, scheduler
      ensures lockHolder == None && semaphore.Sem() == V(old(semaphore.Sem()))
      ensures scheduler.Valid() && scheduler.readyList == old(scheduler.readyList) + Front(old(semaphore.queue))
    {
      lockHolder := None;
      semaphore.Up(scheduler);
    }
  }

  /** The values of a list of semaphores. */
  ghost function Values(ws: seq<Semaphore>): seq<Sem>
    reads ws
  {
    seq(|ws|, i requires 0 <= i < |ws| reads ws => ws[i].Sem())
  }

  /** The threads that one V on each semaphore makes ready, in order. */
  ghost function Fronts(values: seq<Sem>): seq<Tid> {
    if values == [] then [] else Front(values[0].queue) + Fronts(values[1..])
  }

  class Condition {
    var waitQueue: seq<Semaphore>

    constructor ()
      ensures waitQueue == []
    {
      waitQueue := [];
    }

    /** Wait up to the point where the caller has released the lock: the new
        semaphore is last in the queue and nobody is in its own queue. */
    method Enter(t: Tid, lock: Lock, scheduler: Scheduler) returns (waiter: Semaphore)
      requires lock.lockHolder == Some(t) && scheduler.Valid()
      requires lock.semaphore.queue != [] ==> lock.semaphore.queue[0] !in scheduler.readyList
      modifies this, lock, lock.semaphore, scheduler
      ensures fresh(waiter) && waiter.Sem() == Sem.Sem(0, [])
      ensures waitQueue == old(waitQueue) + [waiter]
      ensures lock.lockHolder == None && lock.semaphore.Sem() == V(old(lock.semaphore.Sem()))
      ensures scheduler.Valid() && scheduler.readyList == old(scheduler.readyList) + Front(old(lock.semaphore.queue))
    {
      waiter := new Semaphore(0);
      waitQueue := waitQueue + [waiter];
      lock.Release(t, scheduler);
    }

    /** Signal, by thread t, which the source asserts to hold the lock. */
    method Signal(t: Tid, lock: Lock, scheduler: Scheduler)
      requires lock.lockHolder == Some(t) && scheduler.Valid()
      requires waitQueue != [] && waitQueue[0].queue != [] ==> waitQueue[0].queue[0] !in scheduler.readyList
      modifies this, scheduler, Front(waitQueue)
      ensures scheduler.Valid()
      ensures old(waitQueue) == [] ==> waitQueue == [] && scheduler.readyList == old(scheduler.readyList)
      ensures old(waitQueue) != [] ==>
        && waitQueue == old(waitQueue)[1..]
        && old(waitQueue)[0].Sem() == V(old(waitQueue[0].Sem()))
        && scheduler.readyList == old(scheduler.readyList) + Front(old(waitQueue[0].queue))
    {
      if waitQueue != [] {
        var waiter := waitQueue[0];
        waitQueue := waitQueue[1..];
        waiter.Up(scheduler);
      }
    }

    /** Broadcast: one V on every semaphore in the queue, in order, and on no
        other; the sleepers become ready in the order in which they waited.  Only
        the calls of Signal assert that the lock is held. */
    method Broadcast(t: Tid, lock: Lock, scheduler: Scheduler)
      requires NoDup(waitQueue) && (waitQueue != [] ==> lock.lockHolder == Some(t))
      requires NoDup(scheduler.readyList + Fronts(Values(waitQueue)))
      modifies this, scheduler, waitQueue
      ensures waitQueue == [] && scheduler.Valid()
      ensures forall i | 0 <= i < |old(waitQueue)| :: old(waitQueue)[i].Sem() == V(old(waitQueue[i].Sem()))
      ensures scheduler.readyList == old(scheduler.readyList + Fronts(Values(waitQueue)))
    {
      hide Fronts, V;
      ghost var all, vals, k := waitQueue, Values(waitQueue), 0;
      ghost var target := scheduler.readyList + Fronts(vals);
      assert vals[0..] == vals;
      PrefixNoDup(scheduler.readyList, Fronts(vals));
      while waitQueue != []
        invariant k + |waitQueue| == |all| && waitQueue == all[k..]
        invariant forall i | 0 <= i < k :: all[i].Sem() == V(vals[i])
        invariant forall i | k <= i < |all| :: all[i].Sem() == vals[i]
        invariant scheduler.Valid() && scheduler.readyList + Fronts(vals[k..]) == target
        decreases |waitQueue|
      {
        FrontIsNew(scheduler.readyList, vals, k);
        Signal(t, lock, scheduler);
        k := k + 1;
      }
      assert vals[k..] == [];
      NoFronts();
    }
  }

  lemma PrefixNoDup<T>(s: seq<T>, t: seq<T>)
    requires NoDup(s + t)
    ensures NoDup(s)
  {
    assert forall i | 0 <= i < |s| :: (s + t)[i] == s[i];
  }

  lemma NoFronts()
    ensures Fronts([]) == []
  {}

  lemma FrontIsNew(ready: seq<Tid>, values: seq<Sem>, k: nat)
    requires k < |values| && NoDup(ready + Fronts(values[k..]))
    ensures values[k].queue != [] ==> values[k].queue[0] !in ready
    ensures ready + Fronts(values[k..]) == ready + Front(values[k].queue) + Fronts(values[k + 1..])
  {
    assert values[k..][1..] == values[k + 1..];
    var front, rest := Front(values[k].queue), Fronts(values[k + 1..]);
    var all := ready + front + rest;
    assert ready + (front + rest) == all;
    assert forall i | 0 <= i < |ready| :: all[i] == ready[i];
    assert front != [] ==> all[|ready|] == front[0];
  }
}
