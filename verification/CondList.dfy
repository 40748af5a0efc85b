/** The list of all condition variables: joined at the tail by pthread_cond_init, left from anywhere by
    pthread_cond_destroy, both under one lock. */
module CondList {
  import opened LinkedList

  class CondVars<T> {
    var head: Node?<T>
    var tail: Node?<T>
    ghost var all: seq<Node<T>>

    ghost predicate Valid()
      reads this, all
    {
      Linked(all) && head == First(all) && tail == Last(all)
    }

    constructor ()
      ensures Valid() && all == []
    {
      head, tail, all := null, null, [];
    }

    method Join(cv: Node<T>)
      requires Valid() && cv !in all
      modifies this, cv`prev, cv`next, all`next
      ensures Valid() && all == old(all) + [cv]
    {
      cv.next := null;
      cv.prev := tail;
      if tail != null { tail.next := cv; }
      tail := cv;
      if head == null { head := cv; }
      assert forall n <- all :: n != cv;
      Extended(all, cv);
      all := all + [cv];
    }

    method Leave(cv: Node<T>, ghost i: nat)
      requires Valid() && i < |all| && all[i] == cv
      modifies this, all`prev, all`next
      ensures Valid() && all == Without(old(all), i)
    {
      hide Without;
      hide Linked;
      Unfold(all);
      ghost var was := all;
      all := Without(was, i);
      if head == cv { head := cv.next; } else { cv.prev.next := cv.next; }
      if tail == cv { tail := cv.prev; } else { cv.next.prev := cv.prev; }
      WithoutEnds(was, i);
      Bridged(was, i);
    }
  }
}
