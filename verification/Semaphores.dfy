/** Counting semaphores as the kernel implements them (threads/synch.cc), and
    what a semaphore of initial value 1 guarantees when it is used as a lock.

    A semaphore is a value and a FIFO queue of blocked threads.  P re-tests its
    loop condition each time the thread runs again, so a thread taken off the
    queue by V may still lose the value to a thread that calls P in between. */
module Semaphores {
  import opened Collections

  type Tid = nat

  datatype Sem = Sem(value: nat, queue: seq<Tid>)

  /** One pass of the loop in P: consume the value, or join the queue. */
  function TryP(m: Sem, t: Tid): Sem {
    if m.value == 0 then m.(queue := m.queue + [t]) else m.(value := m.value - 1)
  }

  /** V: take the first waiter off the queue, if any, and increment the value. */
  function V(m: Sem): Sem {
    Sem(m.value + 1, if m.queue == [] then [] else m.queue[1..])
  }

  /** Where a thread stands with respect to one lock. */
  datatype Phase = Outside | Queued | Woken | Inside

  type Phases = map<Tid, Phase>

  ghost predicate SomeWoken(ph: Phases) {
    exists t :: t in ph && ph[t] == Woken
  }

  ghost function Insiders(ph: Phases): set<Tid> {
    set t | t in ph && ph[t] == Inside
  }

  /** The lock invariant: the value counts the free slots, the queue holds
      exactly the blocked threads, and a free lock with blocked threads has a
      woken thread on its way to re-test it. */
  ghost predicate LockInv(m: Sem, ph: Phases) {
    && NoDup(m.queue)
    && (forall t :: t in m.queue <==> t in ph && ph[t] == Queued)
    && m.value + |Insiders(ph)| == 1
    && (m.queue != [] && m.value == 1 ==> SomeWoken(ph))
  }

  lemma InsiderUnique(m: Sem, ph: Phases, t: Tid, u: Tid)
    requires LockInv(m, ph)
    requires t in ph && u in ph && ph[t] == Inside && ph[u] == Inside
    ensures t == u
  {
    assert t in Insiders(ph) && u in Insiders(ph);
    if t != u {
      assert {t, u} <= Insiders(ph);
      SubsetSize({t, u}, Insiders(ph));
    }
  }

  lemma SubsetSize<T>(a: set<T>, b: set<T>)
    requires a <= b
    ensures |a| <= |b|
  {
    assert b == a + (b - a);
  }

  /** The phases after one pass of P by t. */
  function AfterTry(m: Sem, ph: Phases, t: Tid): Phases {
    ph[t := if m.value == 0 then Queued else Inside]
  }

  /** The phases after V by t. */
  function AfterV(m: Sem, ph: Phases, t: Tid): Phases {
    var left := ph[t := Outside];
    if m.queue == [] then left else left[m.queue[0] := Woken]
  }

  lemma TryKeepsLock(m: Sem, ph: Phases, t: Tid)
    requires LockInv(m, ph)
    requires t in ph && ph[t] in {Outside, Woken}
    ensures LockInv(TryP(m, t), AfterTry(m, ph, t))
    ensures m.value == 0 ==> t !in m.queue
  {
    var m', ph' := TryP(m, t), AfterTry(m, ph, t);
    if m.value == 0 {
      assert Insiders(ph') == Insiders(ph);
    } else {
      assert Insiders(ph') == Insiders(ph) + {t};
    }
  }

  lemma VKeepsLock(m: Sem, ph: Phases, t: Tid)
    requires LockInv(m, ph)
    requires t in ph && ph[t] == Inside
    ensures m.value == 0
    ensures m.queue != [] ==> m.queue[0] in ph && ph[m.queue[0]] == Queued
    ensures LockInv(V(m), AfterV(m, ph, t))
  {
    var m', ph' := V(m), AfterV(m, ph, t);
    assert t in Insiders(ph);
    if m.queue == [] {
      assert Insiders(ph') == Insiders(ph) - {t};
    } else {
      assert m.queue[0] in m.queue;
      assert Insiders(ph') == Insiders(ph) - {t};
      assert ph'[m.queue[0]] == Woken;
      forall u ensures u in m'.queue <==> u in ph' && ph'[u] == Queued {
        if u in m.queue && u != m.queue[0] {
          var i :| 0 <= i < |m.queue| && m.queue[i] == u;
          assert m'.queue[i - 1] == u;
        }
      }
    }
  }

  lemma PrefixTrans<T>(a: seq<T>, b: seq<T>, c: seq<T>)
    requires a <= b <= c
    ensures a <= c
  {
    assert c[..|a|] == b[..|a|];
  }
}
