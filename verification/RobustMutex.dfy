/** Robust mutexes: each thread's list of the ones it holds, and what becomes of them when a thread ends
    without unlocking. Each method is one call, or the part of a blocking call between two waits. */
module RobustMutex {
  import opened LinkedList

  datatype Kind = Normal | Recursive | ErrorCheck

  /** stateInconsistent; `Abandoned` is the -1 that an ending thread leaves. */
  datatype State = Consistent | Inconsistent | NotRecoverable | Abandoned

  datatype Code = Success | OwnerDead | Unrecoverable | Deadlock | Busy | NotPermitted | Invalid | MustWait

  class Thread {
    var robustMxList: Node?<Mutex>
    /** The nodes on the list. */
    ghost var held: seq<Node<Mutex>>

    constructor ()
      ensures robustMxList == null && held == []
    {
      robustMxList, held := null, [];
    }
  }

  class Mutex {
    var lockIdx: int
    var recursiveCount: int
    const kind: Kind
    var ownerThread: Thread?
    var state: State
    var event: bool
    var robustNode: Node?<Mutex>
    /** The threads that wait for the mutex: their last answer was MustWait. */
    ghost var waiters: set<Thread>

    /** pthread_mutex_init, for a robust mutex. */
    constructor (kind: Kind)
      ensures this.kind == kind && lockIdx == 0 && recursiveCount == 0 && ownerThread == null && state == Consistent
      ensures !event && waiters == {} && fresh(robustNode) && robustNode != null && robustNode.item == this
    {
      this.kind, waiters := kind, {};
      lockIdx, recursiveCount, ownerThread, state, event, robustNode := 0, 0, null, Consistent, false, null;
      new;
      robustNode := new Node(this);
    }

    /** A thread that waits is not forgotten: the mutex is marked, so that its release sets the event, or
        the event is set. */
    ghost predicate NoneForgotten()
      reads this
    {
      waiters != {} ==> lockIdx == -1 || event
    }
  }

  /** All threads, those of them that have not ended, the mutexes and their list nodes. */
  class Process {
    ghost var threads: set<Thread>
    ghost var live: set<Thread>
    ghost var mutexes: set<Mutex>
    ghost var nodes: set<Node<Mutex>>

    /** A thread's list: well linked, of mutexes that the thread holds. */
    ghost predicate ListOf(t: Thread)
      reads this, t, mutexes, nodes
    {
      && (forall n <- t.held :: n in nodes)
      && Linked(t.held) && t.robustMxList == First(t.held)
      && forall n <- t.held :: n.item in mutexes && n.item.robustNode == n && n.item.ownerThread == t
    }

    /** A mutex: who holds it, whether its state fits, and that it is on its holder's list. */
    ghost predicate Sound(m: Mutex)
      reads this, m, nodes, threads
    {
      && m.robustNode != null && m.robustNode in nodes && m.robustNode.item == m
      && (m.lockIdx == 0 <==> m.ownerThread == null)
      && (m.ownerThread != null ==>
            m.ownerThread in threads && (m.state == Abandoned <==> m.robustNode !in m.ownerThread.held))
      && (m.state == Abandoned ==> m.ownerThread != null && m.ownerThread !in live && m.event)
      && (m.state == NotRecoverable ==> m.ownerThread == null || m.kind == Recursive)
      && (m.state == Inconsistent ==> m.ownerThread != null)
      && (m.kind == Recursive && m.ownerThread != null ==> m.recursiveCount > 0)
    }

    ghost predicate Coherent()
      reads this, threads, mutexes, nodes
    {
      live <= threads && (forall m <- mutexes :: Sound(m)) && (forall t <- threads :: ListOf(t))
    }

    /** ... and a thread that has ended has given up its list. */
    ghost predicate Valid()
      reads this, threads, mutexes, nodes
    {
      Coherent() && forall t <- threads :: t !in live ==> t.held == []
    }

    /** What a call of one thread on one mutex leaves alone. */
    twostate predicate TouchesOnly(m: Mutex, self: Thread)
      requires m.robustNode != null
      reads this, threads, mutexes, nodes, m
    {
      && threads == old(threads) && live == old(live) && mutexes == old(mutexes) && nodes == old(nodes)
      && unchanged(m`robustNode)
      && (forall k <- mutexes :: k != m ==> unchanged(k))
      && (forall u <- threads :: u != self ==> unchanged(u))
      && (forall n <- nodes :: n !in old(self.held) && n != m.robustNode ==> unchanged(n))
    }

    /** A call of one thread on one mutex keeps everything coherent that it leaves both coherent itself. */
    twostate lemma StillCoherent(call: (Mutex, Thread))
      requires var (m, self) := call;
        && old(Coherent()) && m in mutexes && self in threads && m.robustNode != null
        && TouchesOnly(m, self) && Sound(m) && ListOf(self)
        && (forall n <- old(self.held) :: n != m.robustNode ==> n in self.held)
        && (forall n <- self.held :: n != m.robustNode ==> n in old(self.held))
        && (old(m.robustNode !in self.held) ==> old(m.ownerThread == null || m.robustNode !in m.ownerThread.held))
      ensures Coherent()
    {
      hide Linked;
      var (m, self) := call;
      forall k <- mutexes ensures Sound(k) {
        assert old(Sound(k) && Sound(m));
        if k != m { assert k.robustNode != m.robustNode; }
      }
      forall u <- threads | u != self ensures ListOf(u) {
        assert old(ListOf(u) && ListOf(self) && Sound(m));
        assert unchanged(u);
        forall n <- u.held
          ensures unchanged(n) && n.item.ownerThread == u && n.item.robustNode == n && n.item in mutexes
        {
          assert old(n in nodes && n.item in mutexes && n.item.robustNode == n && n.item.ownerThread == u);
          assert old(n !in self.held);
          assert n.item != m;
        }
        StaysLinked(u.held);
      }
    }

    /** A thread's list is exactly the mutexes it owns, and lists of different threads share nothing. */
    lemma HeldIsOwned(t: Thread, m: Mutex)
      requires Valid() && t in live && m in mutexes
      ensures m.robustNode in t.held <==> m.ownerThread == t
      ensures forall u <- threads :: u != t ==> (forall n <- t.held :: n !in u.held)
    {
      assert Sound(m) && ListOf(t);
      forall u <- threads | u != t ensures forall n <- t.held :: n !in u.held { assert ListOf(u); }
    }

    // ---- Starting -----------------------------------------------------------

    constructor ()
      ensures Valid() && threads == live == {} && mutexes == {}
    {
      threads, live, mutexes, nodes := {}, {}, {}, {};
    }

    method NewThread() returns (t: Thread)
      requires Valid()
      modifies this
      ensures Valid() && fresh(t) && live == old(live) + {t} && mutexes == old(mutexes) && t.held == []
    {
      hide Linked;
      t := new Thread();
      threads, live := threads + {t}, live + {t};
      forall m <- mutexes ensures Sound(m) { assert old(Sound(m)); }
      forall u <- threads | u != t ensures ListOf(u) { ListStays(u); }
      EmptyIsLinked<Mutex>();
      assert ListOf(t);
    }

    method NewMutex(kind: Kind) returns (m: Mutex)
      requires Valid()
      modifies this
      ensures Valid() && fresh(m) && mutexes == old(mutexes) + {m} && threads == old(threads) && live == old(live)
      ensures m.kind == kind && m.ownerThread == null && m.state == Consistent
      ensures m.lockIdx == 0 && !m.event && m.waiters == {} && m.NoneForgotten()
    {
      hide Linked;
      m := new Mutex(kind);
      mutexes, nodes := mutexes + {m}, nodes + {m.robustNode};
      forall k <- mutexes | k != m ensures Sound(k) { assert old(Sound(k)); }
      forall u <- threads ensures ListOf(u) {
        assert old(ListOf(u));
        StaysLinked(u.held);
      }
    }

    // ---- The list -----------------------------------------------------------

    /** ptw32_robust_mutex_add */
    method Add(m: Mutex, self: Thread)
      requires m in mutexes && ListOf(self) && m.robustNode != null && m.robustNode in nodes && m.robustNode.item == m
      requires m.robustNode !in self.held
      modifies m`ownerThread, self, m.robustNode, self.held
      ensures m.ownerThread == self && self.held == [m.robustNode] + old(self.held) && ListOf(self)
    {
      hide Linked;
      m.ownerThread := self;
      self.robustMxList := PushFront(self.robustMxList, m.robustNode, self.held);
      self.held := [m.robustNode] + self.held;
    }

    /** ptw32_robust_mutex_remove: off the owner's list, to another owner or none. */
    method Remove(m: Mutex, owner: Thread, otp: Thread?, ghost i: nat)
      requires m in mutexes && ListOf(owner) && m.ownerThread == owner
      requires i < |owner.held| && owner.held[i] == m.robustNode
      modifies m`ownerThread, owner, owner.held
      ensures m.ownerThread == otp && owner.held == Without(old(owner.held), i)
      ensures m.robustNode !in owner.held && ListOf(owner)
    {
      hide Linked;
      OtherNodes(owner.held, i);
      m.ownerThread := otp;
      owner.robustMxList := LinkedList.Remove(owner.robustMxList, m.robustNode, owner.held, i);
      owner.held := Without(owner.held, i);
    }
  
    /** The mutex goes to a thread: free, or abandoned and taken over. */
    method Take(m: Mutex, self: Thread, lockIdx: int, count: int)
      requires Valid() && m in mutexes && self in live && lockIdx != 0
      requires m.state == Abandoned || (m.ownerThread == null && m.state != NotRecoverable)
      requires m.kind == Recursive ==> count > 0
      modifies m`lockIdx, m`recursiveCount, m`ownerThread, m`state, self, m.robustNode, self.held
      ensures Valid() && m.ownerThread == self && self.held == [m.robustNode] + old(self.held)
      ensures m.lockIdx == lockIdx && m.recursiveCount == count
      ensures m.state == if old(m.state) == Abandoned then Inconsistent else old(m.state)
    {
      hide Linked;
      assert Sound(m) && ListOf(self);
      m.lockIdx := lockIdx;
      m.recursiveCount := count;
      m.state := if m.state == Abandoned then Inconsistent else m.state;
      ListStays(self);
      Add(m, self);
      StillCoherent((m, self));
    }

    twostate lemma ListStays(t: Thread)
      requires old(ListOf(t)) && unchanged(t) && mutexes == old(mutexes) && nodes == old(nodes)
      requires (forall n <- nodes :: unchanged(n)) &&
        (forall k <- mutexes :: unchanged(k`robustNode) && unchanged(k`ownerThread))
      ensures ListOf(t)
    {
      StaysLinked(t.held);
    }

    /** Changing a mutex's own fields leaves all lists as they were. */
    twostate lemma ListsStay()
      requires old(Valid()) && unchanged(this) && (forall t <- threads :: unchanged(t)) &&
        (forall n <- nodes :: unchanged(n))
      requires forall k <- mutexes :: unchanged(k`robustNode) && unchanged(k`ownerThread) && Sound(k)
      ensures Valid()
    {
      forall t <- threads ensures ListOf(t) {
        assert old(ListOf(t));
        ListStays(t);
      }
    }

    /** A lock word that stays nonzero, a count that goes up, a state that changes under its holder. */
    method Set(m: Mutex, lockIdx: int, count: int, state: State)
      requires Valid() && m in mutexes && m.lockIdx != 0 && lockIdx != 0 && (m.kind == Recursive ==> count > 0)
      requires state == m.state || (state == Consistent && m.state == Inconsistent)
        || (state == NotRecoverable && m.state == Inconsistent && m.kind == Recursive)
      modifies m`lockIdx, m`recursiveCount, m`state
      ensures Valid() && m.lockIdx == lockIdx && m.recursiveCount == count && m.state == state
    {
      assert Sound(m);
      m.lockIdx, m.recursiveCount, m.state := lockIdx, count, state;
      forall k <- mutexes ensures Sound(k) { assert old(Sound(k)); }
      ListsStay();
    }

    // ---- Calls --------------------------------------------------------------

    /** pthread_mutex_trylock */
    method TryLock(m: Mutex, self: Thread) returns (code: Code)
      requires Valid() && m in mutexes && self in live
      modifies m`lockIdx, m`recursiveCount, m`ownerThread, m`state, self, m.robustNode, self.held
      ensures Valid()
      ensures code == match old(m.state)
        case NotRecoverable => Unrecoverable
        case Abandoned => OwnerDead
        case _ => if old(m.ownerThread == null || (m.kind == Recursive && m.ownerThread == self)) then Success else Busy
      ensures code == OwnerDead || (code == Success && old(m.ownerThread) == null) ==>
        && m.ownerThread == self && self.held == [m.robustNode] + old(self.held)
        && m.recursiveCount == if code == Success && m.kind == Normal then old(m.recursiveCount) else 1
      ensures m.state == if code == OwnerDead then Inconsistent else old(m.state)
      ensures code == Success && old(m.ownerThread) == self ==>
        unchanged(self) && m.ownerThread == self && m.recursiveCount == old(m.recursiveCount) + 1
      ensures code == Busy || code == Unrecoverable ==> unchanged(m) && unchanged(self)
      ensures m.lockIdx == if code == Success && old(m.ownerThread) == null then 1 else old(m.lockIdx)
      ensures old(m.NoneForgotten()) ==> m.NoneForgotten()
    {
      hide ListOf;
      assert Sound(m);
      if m.state == NotRecoverable { return Unrecoverable; }
      if m.lockIdx == 0 {
        Take(m, self, 1, if m.kind != Normal then 1 else m.recursiveCount);
        code := Success;
      } else if m.kind == Recursive && m.ownerThread == self {
        Set(m, m.lockIdx, m.recursiveCount + 1, m.state);
        code := Success;
      } else if m.state == Abandoned {
        Take(m, self, m.lockIdx, 1);
        code := OwnerDead;
      } else {
        code := Busy;
      }
    }

    /** pthread_mutex_lock up to its first wait. */
    method Lock(m: Mutex, self: Thread) returns (code: Code)
      requires Valid() && m in mutexes && self in live
      modifies m`lockIdx, m`recursiveCount, m`ownerThread, m`state, m`waiters, self, m.robustNode, self.held
      ensures Valid()
      ensures code == match old(m.state)
        case NotRecoverable => Unrecoverable
        case _ =>
          if old(m.ownerThread) == null then Success
          else if m.kind == Recursive && old(m.ownerThread) == self then Success
          else if m.kind == ErrorCheck && old(m.ownerThread) == self then Deadlock
          else if old(m.state) == Abandoned then OwnerDead
          else MustWait
      ensures code == OwnerDead || (code == Success && old(m.ownerThread) == null) ==>
        && m.ownerThread == self && self.held == [m.robustNode] + old(self.held)
        && m.recursiveCount == if m.kind == Normal then old(m.recursiveCount) else 1
      ensures m.state == if code == OwnerDead then Inconsistent else old(m.state)
      ensures code == Success && old(m.ownerThread) == self ==>
        unchanged(self) && m.ownerThread == self && m.recursiveCount == old(m.recursiveCount) + 1
      ensures code == Deadlock || code == Unrecoverable ==> unchanged(m) && unchanged(self)
      ensures code == MustWait ==> m.ownerThread == old(m.ownerThread) && unchanged(self)
      ensures m.lockIdx ==
        if code == MustWait then -1
        else if code == Success && old(m.ownerThread) == null then 1
        else if code == OwnerDead && m.kind == Normal then 1
        else old(m.lockIdx)
      ensures m.waiters == old(m.waiters) + if code == MustWait then {self} else {}
      ensures old(m.NoneForgotten()) ==> m.NoneForgotten()
    {
      hide ListOf;
      assert Sound(m);
      if m.state == NotRecoverable { return Unrecoverable; }
      if m.lockIdx == 0 {
        Take(m, self, 1, if m.kind != Normal then 1 else m.recursiveCount);
        return Success;
      }
      if m.kind == Normal {
        Set(m, 1, m.recursiveCount, m.state);
      } else if m.ownerThread == self {
        if m.kind == Recursive {
          Set(m, m.lockIdx, m.recursiveCount + 1, m.state);
          return Success;
        }
        return Deadlock;
      }
      code := Contend(m, self);
      if code == MustWait { NoteWaiters(m, m.waiters + {self}); }
    }

    /** One turn of the waiting loop: take over the mutex, or find it free, or mark it as waited for. */
    method Contend(m: Mutex, self: Thread) returns (code: Code)
      requires Valid() && m in mutexes && self in live
      modifies m`lockIdx, m`recursiveCount, m`ownerThread, m`state, self, m.robustNode, self.held
      ensures Valid()
      ensures code == match old(m.state)
        case NotRecoverable => Unrecoverable
        case Abandoned => OwnerDead
        case _ => if old(m.ownerThread) == null then Success else MustWait
      ensures code == OwnerDead || code == Success ==>
        && m.ownerThread == self && self.held == [m.robustNode] + old(self.held)
        && m.recursiveCount == if m.kind == Normal then old(m.recursiveCount) else 1
      ensures m.state == if code == OwnerDead then Inconsistent else old(m.state)
      ensures code == MustWait ==>
        m.ownerThread == old(m.ownerThread) && m.recursiveCount == old(m.recursiveCount) && unchanged(self)
      ensures code == Unrecoverable ==> unchanged(m) && unchanged(self)
      ensures m.lockIdx == if code == Success || code == MustWait then -1 else old(m.lockIdx)
    {
      hide ListOf;
      assert Sound(m);
      var count := if m.kind == Normal then m.recursiveCount else 1;
      if m.state == Abandoned {
        Take(m, self, m.lockIdx, count);
        code := OwnerDead;
      } else if m.state == NotRecoverable {
        code := Unrecoverable;
      } else if m.lockIdx == 0 {
        Take(m, self, -1, count);
        code := Success;
      } else {
        Set(m, -1, m.recursiveCount, m.state);
        code := MustWait;
      }
    }

    /** After a wait, which takes the event: another turn, unless the mutex has become unrecoverable; then
        the next waiting thread is woken in its turn. Nobody else that waits is forgotten, but by a thread
        that takes over an abandoned mutex which does not bear the mark. */
    method Woken(m: Mutex, self: Thread) returns (code: Code)
      requires Valid() && m in mutexes && self in live && m.event && self in m.waiters
      modifies m`lockIdx, m`recursiveCount, m`ownerThread, m`state, m`event, m`waiters, self, m.robustNode, self.held
      ensures Valid()
      ensures code == match old(m.state)
        case NotRecoverable => Unrecoverable
        case Abandoned => OwnerDead
        case _ => if old(m.ownerThread) == null then Success else MustWait
      ensures m.event == (code == Unrecoverable)
      ensures code == OwnerDead || code == Success ==>
        && m.ownerThread == self && self.held == [m.robustNode] + old(self.held)
        && m.recursiveCount == if m.kind == Normal then old(m.recursiveCount) else 1
      ensures m.state == if code == OwnerDead then Inconsistent else old(m.state)
      ensures code == MustWait || code == Unrecoverable ==>
        m.ownerThread == old(m.ownerThread) && m.recursiveCount == old(m.recursiveCount) && unchanged(self)
      ensures m.lockIdx == if code == Success || code == MustWait then -1 else old(m.lockIdx)
      ensures m.waiters == if code == MustWait then old(m.waiters) else old(m.waiters) - {self}
      ensures m.NoneForgotten() <==>
        !old(m.state == Abandoned && m.lockIdx != -1 && exists other <- m.waiters :: other != self)
    {
      hide ListOf;
      if m.state == NotRecoverable {  // the event is taken and set again
        NoteWaiters(m, m.waiters - {self});
        return Unrecoverable;
      }
      code := Contend(m, self);
      TakeEvent(m);  // in the wait, before this turn; no turn looks at it
      if code != MustWait { NoteWaiters(m, m.waiters - {self}); }
      if code == OwnerDead { OthersWait(old(m.waiters), self); }
    }

    static lemma OthersWait(waiters: set<Thread>, self: Thread)
      ensures waiters - {self} != {} <==> exists other <- waiters :: other != self
    {
      if waiters - {self} != {} {
        var other :| other in waiters - {self};
      }
      forall other <- waiters | other != self ensures other in waiters - {self} {}
    }

    method TakeEvent(m: Mutex)
      requires Valid() && m in mutexes && m.state != Abandoned
      modifies m`event
      ensures Valid() && !m.event
    {
      m.event := false;
      forall k <- mutexes ensures Sound(k) { assert old(Sound(k)); }
      ListsStay();
    }

    ghost method NoteWaiters(m: Mutex, waiters: set<Thread>)
      requires Valid() && m in mutexes
      modifies m`waiters
      ensures Valid() && m.waiters == waiters
    {
      m.waiters := waiters;
      forall k <- mutexes ensures Sound(k) { assert old(Sound(k)); }
      ListsStay();
    }

    /** pthread_mutex_unlock */
    method Unlock(m: Mutex, self: Thread) returns (code: Code)
      requires Valid() && m in mutexes && self in live
      modifies m`lockIdx, m`recursiveCount, m`ownerThread, m`state, m`event, self, self.held
      ensures Valid()
      ensures code == if old(m.ownerThread) == self then Success else NotPermitted
      ensures code == NotPermitted ==> unchanged(m) && unchanged(self)
      ensures code == Success ==> m.state == if old(m.state) == Inconsistent then NotRecoverable else old(m.state)
      ensures code == Success && (m.kind != Recursive || old(m.recursiveCount) == 1) ==>
        && m.ownerThread == null && m.robustNode !in self.held
        && m.recursiveCount == (if m.kind == Recursive then 0 else old(m.recursiveCount))
        && IsWithout(self.held, old(self.held), m.robustNode)
      ensures code == Success && m.kind == Recursive && old(m.recursiveCount) != 1 ==>
        m.ownerThread == self && unchanged(self) && m.recursiveCount == old(m.recursiveCount) - 1 &&
          m.event == old(m.event)
      ensures code == Success && (m.kind != Recursive || old(m.recursiveCount) == 1) ==>
        m.lockIdx == 0 && m.event == (old(m.event) || old(m.lockIdx) < 0)
      ensures code == Success && m.kind == Recursive && old(m.recursiveCount) != 1 ==> m.lockIdx == old(m.lockIdx)
      ensures old(m.NoneForgotten()) ==> m.NoneForgotten()
    {
      hide ListOf;
      assert Sound(m);
      if m.ownerThread != self { return NotPermitted; }
      code := Success;
      var state := if m.state == Inconsistent then NotRecoverable else m.state;
      if m.kind == Recursive && m.recursiveCount != 1 {
        Set(m, m.lockIdx, m.recursiveCount - 1, state);
      } else {
        Release(m, self, if m.kind == Recursive then m.recursiveCount - 1 else m.recursiveCount, state);
      }
    }

    method Release(m: Mutex, self: Thread, count: int, state: State)
      requires Valid() && m in mutexes && self in live && m.ownerThread == self
      requires state == if m.state == Inconsistent then NotRecoverable else m.state
      modifies m`lockIdx, m`recursiveCount, m`ownerThread, m`state, m`event, self, self.held
      ensures Valid() && m.ownerThread == null && m.lockIdx == 0 && m.recursiveCount == count && m.state == state
      ensures m.event == (old(m.event) || old(m.lockIdx) < 0)
      ensures m.robustNode !in self.held
      ensures IsWithout(self.held, old(self.held), m.robustNode)
    {
      hide Linked;
      hide ListOf;
      hide Without;
      assert Sound(m) && ListOf(self);
      ghost var i: nat :| i < |self.held| && self.held[i] == m.robustNode;
      LinkedHeld(self);
      OtherNodes(self.held, i);
      Remove(m, self, null, i);
      label Off:
      if m.lockIdx < 0 { m.event := true; }
      m.lockIdx, m.recursiveCount, m.state := 0, count, state;
      ListStays@Off(self);
      StillCoherent((m, self));
    }

    /** pthread_mutex_consistent */
    method MakeConsistent(m: Mutex) returns (code: Code)
      requires Valid() && m in mutexes
      modifies m`lockIdx, m`recursiveCount, m`state
      ensures Valid() && code == if old(m.state) == Inconsistent then Success else Invalid
      ensures m.state == if old(m.state) == Inconsistent then Consistent else old(m.state)
      ensures m.lockIdx == old(m.lockIdx) && m.recursiveCount == old(m.recursiveCount)
      ensures old(m.NoneForgotten()) ==> m.NoneForgotten()
    {
      assert Sound(m);
      if m.state != Inconsistent { return Invalid; }
      Set(m, m.lockIdx, m.recursiveCount, Consistent);
      code := Success;
    }

    /** The first mutex of an ending thread's list is taken off it and abandoned. */
    method AbandonFirst(self: Thread)
      requires Coherent() && self in threads && self !in live && self.held != []
      modifies self, self.held, self.held[0].item`ownerThread, self.held[0].item`state, self.held[0].item`event
      ensures Coherent() && self.held == old(self.held)[1..]
      ensures var m := old(self.held[0].item); m.ownerThread == self && m.state == Abandoned && m.event
    {
      hide Linked;
      assert ListOf(self);
      var m := self.robustMxList.item;
      assert Sound(m);
      OtherNodes(self.held, 0);
      Remove(m, self, self, 0);
      m.state := Abandoned;
      m.event := true;
      StillCoherent((m, self));
    }

    /** pthread_win32_thread_detach_np: the thread ends, and every mutex it still holds is left for the
        next to take over. */
    method Detach(self: Thread)
      requires Valid() && self in live
      modifies this`live, self, self.held, set n <- self.held :: n.item
      ensures Valid() && live == old(live) - {self} && self.held == []
      ensures forall m <- mutexes :: if old(m.ownerThread) == self
        then
          && m.state == Abandoned && m.ownerThread == self && m.event && m.NoneForgotten()
          && unchanged(m`robustNode, m`lockIdx, m`recursiveCount, m`waiters)
        else unchanged(m)
    {
      hide Linked;
      live := live - {self};
      forall m <- mutexes ensures Sound(m) { assert old(Sound(m)); }
      forall t <- threads ensures ListOf(t) { ListStays(t); }
      assert ListOf(self);
      ghost var k := 0;
      while self.robustMxList != null
        invariant Coherent() && live == old(live) - {self}
        invariant 0 <= k <= |old(self.held)| && self.held == old(self.held)[k..]
        invariant forall m <- mutexes ::
          if old(m.ownerThread) == self
          then
            && m.ownerThread == self && (m.state == Abandoned ==> m.event)
            && unchanged(m`robustNode, m`lockIdx, m`recursiveCount, m`waiters)
          else unchanged(m)
        decreases |self.held|
      {
        assert ListOf(self);
        AbandonFirst(self);
        k := k + 1;
      }
      assert ListOf(self);
      forall m <- mutexes | m.ownerThread == self ensures m.state == Abandoned { assert Sound(m); }
    }

    /** The thread that takes the mutex of an ended owner is told so. */
    method TakeOver(m: Mutex, first: Thread, second: Thread) returns (told: Code)
      requires Valid() && m in mutexes && first in live && second in live && first != second && m.ownerThread == first
      modifies this`live, first, first.held, set n <- first.held :: n.item
      modifies m, second, second.held
      ensures Valid() && mutexes == old(mutexes) && live == old(live) - {first}
      ensures told == OwnerDead && m.ownerThread == second && m.state == Inconsistent
      ensures m.kind == Recursive ==> m.recursiveCount == 1
    {
      hide *;
      HeldIsOwned(first, m);
      OwnNode(m);
      Detach(first);
      told := TryLock(m, second);
    }

    /** ... and may repair it: repaired and unlocked as often as locked, it works as before; unlocked
        without repair, it is refused to everyone. */
    method AfterTakingOver(m: Mutex, self: Thread, next: Thread, repair: bool) returns (after: Code)
      requires Valid() && m in mutexes && self in live && next in live && m.ownerThread == self &&
        m.state == Inconsistent
      modifies m, m.robustNode, self, self.held, next, next.held
      ensures Valid() && after == if repair then Success else Unrecoverable
      ensures repair ==> m.ownerThread == next && m.state == Consistent
      ensures !repair ==> m.ownerThread == null && m.state == NotRecoverable
    {
      hide Valid;
      if repair { var done := MakeConsistent(m); }
      GiveUp(m, self);
      after := TryLock(m, next);
    }

    /** Unlocks as often as it takes. */
    method GiveUp(m: Mutex, self: Thread)
      requires Valid() && m in mutexes && self in live && m.ownerThread == self
      modifies m`lockIdx, m`recursiveCount, m`ownerThread, m`state, m`event, self, self.held
      ensures Valid() && m.ownerThread == null
      ensures m.state == if old(m.state) == Inconsistent then NotRecoverable else old(m.state)
      ensures forall k :: 0 <= k < |self.held| ==> self.held[k] in old(self.held)
      decreases m.recursiveCount
    {
      hide Valid;
      if m.kind == Recursive { CountIsPositive(m); }
      var unlocked := Unlock(m, self);
      assert forall k :: 0 <= k < |self.held| ==> self.held[k] in old(self.held);
      if m.ownerThread == self { GiveUp(m, self); }
    }

    lemma CountIsPositive(m: Mutex)
      requires Valid() && m in mutexes && m.kind == Recursive && m.ownerThread != null
      ensures m.recursiveCount > 0
    {
      assert Sound(m);
    }

    /** Being unrecoverable is not for ever: a recursive mutex, taken over, locked again and unlocked
        once, is refused to everyone though still held; when its holder ends, it is taken over again. */
    method UnrecoverableForgotten(m: Mutex, self: Thread, next: Thread) returns (refused: Code, told: Code)
      requires Valid() && m in mutexes && self in live && next in live && self != next && m.ownerThread == self
      requires m.state == Inconsistent && m.kind == Recursive && m.recursiveCount > 1
      modifies this`live, self, self.held, set n <- self.held :: n.item
      modifies m, m.robustNode, next, next.held
      ensures Valid() && refused == Unrecoverable && told == OwnerDead && m.ownerThread == next
    {
      hide *;
      var unlocked := Unlock(m, self);
      assert m.ownerThread == self && m.state == NotRecoverable;
      refused := TryLock(m, next);
      told := TakeOver(m, self, next);
    }

    /** One thread takes a free mutex and two come to wait for it. */
    method TwoWait(m: Mutex, holder: Thread, waiter: Thread, other: Thread)
      requires Valid() && m in mutexes && {holder, waiter, other} <= live && holder != waiter && holder != other
      requires m.kind == Normal && m.ownerThread == null && m.state == Consistent && m.waiters == {}
      modifies m, m.robustNode, holder, holder.held, waiter, waiter.held, other, other.held
      ensures Valid() && m.ownerThread == holder && m.state == Consistent && m.waiters == {waiter, other}
      ensures m.lockIdx == -1 && holder.held == [m.robustNode] + old(holder.held)
      ensures unchanged(waiter) && unchanged(other) && unchanged(m`robustNode)
    {
      hide *;
      var code := Lock(m, holder);
      code := Lock(m, waiter);
      code := Lock(m, other);
    }

    /** The holder unlocks, and before a waiter has its turn another thread gets in and ends. */
    method ThirdEnds(m: Mutex, holder: Thread, third: Thread)
      requires Valid() && m in mutexes && {holder, third} <= live && holder != third && m.ownerThread == holder
      requires m.kind == Normal && m.state == Consistent && m.lockIdx == -1 && third.held == []
      modifies this`live, m, m.robustNode, holder, holder.held, third
      ensures Valid() && m.state == Abandoned && m.lockIdx == 1 && m.event && m.waiters == old(m.waiters)
      ensures live == old(live) - {third} && unchanged(m`robustNode)
    {
      hide *;
      OwnNode(m);
      var code := Unlock(m, holder);
      OwnNode(m);
      code := Lock(m, third);
      assert third.held == [m.robustNode];
      Detach(third);
    }

    /** So a waiting thread can be forgotten: the first of two that wait takes over the mutex, which the
        ended thread had locked anew and so without the mark, and repairs and unlocks it without setting
        the event; the second waits on for a mutex that is free. */
    method LeftWaiting(m: Mutex, holder: Thread, third: Thread, waiter: Thread, other: Thread) returns (told: Code)
      requires Valid() && m in mutexes && {holder, third, waiter, other} <= live
      requires holder != third && holder != waiter && holder != other
      requires third != waiter && third != other && waiter != other
      requires m.kind == Normal && m.ownerThread == null && m.state == Consistent && m.waiters == {}
      requires third.held == waiter.held == []
      modifies this`live, m, m.robustNode, holder, holder.held, third, waiter, other, other.held
      ensures Valid() && told == OwnerDead
      ensures m.ownerThread == null && m.lockIdx == 0 && m.state == Consistent && m.waiters == {other} && !m.event
    {
      hide *;
      OwnNode(m);
      TwoWait(m, holder, waiter, other);
      OwnNode(m);
      ThirdEnds(m, holder, third);
      OwnNode(m);
      told := Woken(m, waiter);
      var repaired := MakeConsistent(m);
      var unlocked := Unlock(m, waiter);
    }

    lemma LinkedHeld(t: Thread)
      requires ListOf(t)
      ensures Linked(t.held) && t.robustMxList == First(t.held)
    {
    }

    lemma OwnNode(m: Mutex)
      requires Valid() && m in mutexes
      ensures m.robustNode != null && m.robustNode.item == m
    {
      assert Sound(m);
    }
  }
}
