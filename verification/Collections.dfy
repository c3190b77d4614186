/** Small things that the other modules share. */
module Collections {
  datatype Option<+T> = None | Some(value: T)

  ghost predicate NoDup<T>(s: seq<T>) {
    forall i, j | 0 <= i < j < |s| :: s[i] != s[j]
  }

  /** A queue q, from which those in left have gone, gets more at its end and loses
      some at its front. */
  lemma QueueMoves<T>(left: seq<T>, q: seq<T>, more: seq<T>, some: seq<T>, q': seq<T>)
    requires some + q' == q + more
    ensures (left + q) + more == (left + some) + q'
  {
    assert (left + q) + more == left + (q + more);
  }
}
