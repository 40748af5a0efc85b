/** The cyclic barrier of pthreads-win32, as a step relation over any number of threads. The lock that
    guards arrivals is held by a thread, or, from the last arrival to the last departure, by the
    barrier's own proxy node. `round`, `arrived`, `crossed` and `log` record history; no step reads them. */
module Barrier {
  import opened Common
  import opened Counting

  datatype Pc =
    | Idle | WantLock
    | ArriveLoad | ArriveStore(read: int)   // --nCurrentBarrierHeight, under the lock
    | Transfer | PostAll                    // last in: hand the lock to the proxy, release the others
    | Release | SemWait                     // not last in: release the lock, wait
    | Cross                                 // interlocked increment of nCurrentBarrierHeight
    | LastOut                               // last out: release the proxy's lock

  datatype Lock = Free | HeldBy(t: nat) | Proxy

  datatype Event =
    | Arrived(t: nat, round: nat)
    | Crossed(t: nat, round: nat, serial: bool)

  datatype State = State(
    n: nat,             // nInitialBarrierHeight
    height: int,        // nCurrentBarrierHeight
    sem: nat,           // semBarrierBreeched
    lock: Lock,
    pcs: seq<Pc>,
    round: nat, arrived: nat, crossed: nat, log: seq<Event>)
  {
    function At(t: nat, pc: Pc): State
      requires t < |pcs|
    {
      this.(pcs := pcs[t := pc])
    }
  }

  datatype Action = Enter | Go

  function Next(s: State, t: nat, a: Action): Option<State>
    requires t < |s.pcs|
  {
    match a
    case Enter => if s.pcs[t].Idle? then Some(s.At(t, WantLock)) else None
    case Go => Step(s, t)
  }

  function Step(s: State, t: nat): Option<State>
    requires t < |s.pcs|
  {
    match s.pcs[t]
    case Idle => None
    case WantLock => if s.lock.Free? then Some(s.At(t, ArriveLoad).(lock := HeldBy(t))) else None
    case ArriveLoad => Some(s.At(t, ArriveStore(s.height)))
    case ArriveStore(read) =>
      Some(s.At(t, if read - 1 == 0 then Transfer else Release)
           .(height := read - 1, arrived := s.arrived + 1, log := s.log + [Arrived(t, s.round)]))
    case Transfer => Some(s.At(t, PostAll).(lock := Proxy))
    case PostAll => Some(s.At(t, Cross).(sem := s.sem + (if s.n > 1 then s.n - 1 else 0)))
    case Release => Some(s.At(t, SemWait).(lock := Free))
    case SemWait => if s.sem == 0 then None else Some(s.At(t, Cross).(sem := s.sem - 1))
    case Cross =>
      var last := s.height + 1 == s.n;
      Some(s.At(t, if last then LastOut else Idle)
           .(height := s.height + 1, crossed := s.crossed + 1, log := s.log + [Crossed(t, s.round, last)]))
    case LastOut => Some(s.At(t, Idle).(lock := Free, round := s.round + 1, arrived := 0, crossed := 0))
  }

  ghost predicate Init(s: State)
  {
    s.n > 0 && s.height == s.n && s.sem == 0 && s.lock == Free && s.log == [] &&
    s.round == s.arrived == s.crossed == 0 && forall t :: 0 <= t < |s.pcs| ==> s.pcs[t].Idle?
  }

  ghost predicate Moves(s: State, s': State)
  {
    exists t: nat, a :: t < |s.pcs| && Next(s, t, a) == Some(s')
  }

  ghost predicate Run(run: seq<State>)
  {
    forall i :: 0 <= i < |run| - 1 ==> Moves(run[i], run[i + 1])
  }

  // ---- The phases of a round ----------------------------------------------

  function Waiting(pc: Pc): nat { if pc.Release? || pc.SemWait? then 1 else 0 }

  function Transferring(pc: Pc): nat { if pc.Transfer? then 1 else 0 }

  function Posting(pc: Pc): nat { if pc.PostAll? then 1 else 0 }

  function Crossing(pc: Pc): nat { if pc.Cross? then 1 else 0 }

  function Leaving(pc: Pc): nat { if pc.LastOut? then 1 else 0 }

  /** Counted in, and not yet counted out. */
  function Inside(pc: Pc): nat { Waiting(pc) + Transferring(pc) + Posting(pc) + Crossing(pc) }

  predicate HoldsLock(pc: Pc) { pc.ArriveLoad? || pc.ArriveStore? || pc.Transfer? || pc.Release? }

  ghost predicate LockAgrees(s: State)
  {
    && (s.lock.HeldBy? ==> s.lock.t < |s.pcs|)
    && (forall t :: 0 <= t < |s.pcs| ==> (HoldsLock(s.pcs[t]) <==> s.lock == HeldBy(t)))
    && (forall t :: 0 <= t < |s.pcs| && s.pcs[t].ArriveStore? ==> s.pcs[t].read == s.height)
    && (forall t :: 0 <= t < |s.pcs| && (s.pcs[t].ArriveLoad? || s.pcs[t].ArriveStore?) ==> s.arrived < s.n)
  }

  /** Threads gather: the height counts the missing ones, nobody crosses, the semaphore is 0. */
  ghost predicate Gathering(s: State)
  {
    && s.height == s.n - s.arrived && s.crossed == 0 && s.sem == 0
    && Sum(s.pcs, Posting) == 0 && Sum(s.pcs, Crossing) == 0 && Sum(s.pcs, Leaving) == 0
    && Sum(s.pcs, Transferring) == (if s.arrived == s.n then 1 else 0)
    && Sum(s.pcs, Waiting) == s.arrived - Sum(s.pcs, Transferring)
  }

  /** Threads leave: the height counts those that have, and each waiting thread has its post. */
  ghost predicate Dispersing(s: State)
  {
    && s.arrived == s.n && s.height == s.crossed && Sum(s.pcs, Transferring) == 0
    && Sum(s.pcs, Posting) <= 1
    && Sum(s.pcs, Waiting) == s.sem + (if Sum(s.pcs, Posting) == 1 then s.n - 1 else 0)
    && Sum(s.pcs, Waiting) + Sum(s.pcs, Posting) + Sum(s.pcs, Crossing) + s.crossed == s.n
    && Sum(s.pcs, Leaving) == (if s.crossed == s.n then 1 else 0)
  }

  ghost predicate Phase(s: State)
  {
    s.arrived <= s.n && if s.lock.Proxy? then Dispersing(s) else Gathering(s)
  }

  // ---- History ------------------------------------------------------------

  ghost function Arrivals(log: seq<Event>, k: nat): nat
  {
    if log == [] then 0
    else Arrivals(log[..|log| - 1], k) + (var e := log[|log| - 1]; if e.Arrived? && e.round == k then 1 else 0)
  }

  ghost function Crossings(log: seq<Event>, k: nat): nat
  {
    if log == [] then 0
    else Crossings(log[..|log| - 1], k) + (var e := log[|log| - 1]; if e.Crossed? && e.round == k then 1 else 0)
  }

  ghost function Serials(log: seq<Event>, k: nat): nat
  {
    if log == [] then 0
    else
      var e := log[|log| - 1];
      Serials(log[..|log| - 1], k) + if e.Crossed? && e.round == k && e.serial then 1 else 0
  }

  /** The threads that have arrived in a round. */
  ghost function ArrivedIn(log: seq<Event>, k: nat): set<nat>
  {
    if log == [] then {}
    else ArrivedIn(log[..|log| - 1], k) + (var e := log[|log| - 1]; if e.Arrived? && e.round == k then {e.t} else {})
  }

  /** The threads that have crossed in a round. */
  ghost function CrossedIn(log: seq<Event>, k: nat): set<nat>
  {
    if log == [] then {}
    else CrossedIn(log[..|log| - 1], k) + (var e := log[|log| - 1]; if e.Crossed? && e.round == k then {e.t} else {})
  }

  /** The barrier's promise about one event of a history: a thread crosses in a round only after all n
      have arrived in it, itself among them, and once; it arrives in a round only after n have crossed
      in the one before, and once. */
  ghost predicate InOrderAt(log: seq<Event>, n: nat, i: nat)
    requires i < |log|
  {
    match log[i]
    case Crossed(t, k, _) => Arrivals(log[..i], k) == n && t in ArrivedIn(log[..i], k) && t !in CrossedIn(log[..i], k)
    case Arrived(t, k) => (k > 0 ==> Crossings(log[..i], k - 1) == n) && t !in ArrivedIn(log[..i], k)
  }

  ghost predicate InOrder(log: seq<Event>, n: nat)
  {
    forall i :: 0 <= i < |log| ==> InOrderAt(log, n, i)
  }

  /** The history's counts, round by round: all n in the past, the counters now, nothing yet to come. */
  ghost predicate TalliedAt(s: State, k: nat)
  {
    && Arrivals(s.log, k) == (if k < s.round then s.n else if k == s.round then s.arrived else 0)
    && Crossings(s.log, k) == (if k < s.round then s.n else if k == s.round then s.crossed else 0)
    && Serials(s.log, k) == (if k < s.round || (k == s.round && s.crossed == s.n) then 1 else 0)
  }

  ghost predicate Tallied(s: State)
  {
    forall k: nat :: TalliedAt(s, k)
  }

  /** The threads inside are those that have arrived in the current round and not yet crossed. */
  ghost predicate InsideAgrees(s: State)
  {
    forall t: nat :: t < |s.pcs| ==>
      (Inside(s.pcs[t]) == 1 <==> t in ArrivedIn(s.log, s.round) && t !in CrossedIn(s.log, s.round))
  }

  ghost predicate Inv(s: State)
  {
    s.n > 0 && LockAgrees(s) && Phase(s) && InOrder(s.log, s.n) && Tallied(s) && InsideAgrees(s)
  }

  lemma InitHasInv(s: State)
    requires Init(s)
    ensures Inv(s)
  {
    SumZero(s.pcs, Waiting);
    SumZero(s.pcs, Transferring);
    SumZero(s.pcs, Posting);
    SumZero(s.pcs, Crossing);
    SumZero(s.pcs, Leaving);
  }

  lemma OthersStay(s: State, t: nat, a: Action, s': State)
    requires t < |s.pcs| && Next(s, t, a) == Some(s')
    ensures |s'.pcs| == |s.pcs| && s'.n == s.n && s'.pcs == s.pcs[t := s'.pcs[t]]
  {
  }

  lemma SumsMove(s: State, t: nat, pc: Pc)
    requires t < |s.pcs|
    ensures Sum(s.pcs[t := pc], Waiting) == Sum(s.pcs, Waiting) - Waiting(s.pcs[t]) + Waiting(pc)
    ensures Sum(s.pcs[t := pc], Transferring) == Sum(s.pcs, Transferring) - Transferring(s.pcs[t]) + Transferring(pc)
    ensures Sum(s.pcs[t := pc], Posting) == Sum(s.pcs, Posting) - Posting(s.pcs[t]) + Posting(pc)
    ensures Sum(s.pcs[t := pc], Crossing) == Sum(s.pcs, Crossing) - Crossing(s.pcs[t]) + Crossing(pc)
    ensures Sum(s.pcs[t := pc], Leaving) == Sum(s.pcs, Leaving) - Leaving(s.pcs[t]) + Leaving(pc)
    ensures Waiting(s.pcs[t]) <= Sum(s.pcs, Waiting) && Transferring(s.pcs[t]) <= Sum(s.pcs, Transferring)
    ensures Posting(s.pcs[t]) <= Sum(s.pcs, Posting) && Crossing(s.pcs[t]) <= Sum(s.pcs, Crossing)
    ensures Leaving(s.pcs[t]) <= Sum(s.pcs, Leaving)
  {
    SumUpdate(s.pcs, t, pc, Waiting);
    SumUpdate(s.pcs, t, pc, Transferring);
    SumUpdate(s.pcs, t, pc, Posting);
    SumUpdate(s.pcs, t, pc, Crossing);
    SumUpdate(s.pcs, t, pc, Leaving);
    SumIncludes(s.pcs, t, Waiting);
    SumIncludes(s.pcs, t, Transferring);
    SumIncludes(s.pcs, t, Posting);
    SumIncludes(s.pcs, t, Crossing);
    SumIncludes(s.pcs, t, Leaving);
  }

  /** Gathering and dispersing alternate: the steps of a thread that holds the lock, or wants it. */
  lemma GatherStep(s: State, t: nat, a: Action, s': State)
    requires Inv(s) && t < |s.pcs| && Next(s, t, a) == Some(s')
    requires s.pcs[t].Idle? || s.pcs[t].WantLock? || HoldsLock(s.pcs[t])
    ensures Phase(s')
  {
    hide InOrder;
    hide Tallied;
    hide InsideAgrees;
    OthersStay(s, t, a, s');
    SumsMove(s, t, s'.pcs[t]);
    assert HoldsLock(s.pcs[t]) <==> s.lock == HeldBy(t);
  }

  lemma DisperseStep(s: State, t: nat, a: Action, s': State)
    requires Inv(s) && t < |s.pcs| && Next(s, t, a) == Some(s')
    requires s.pcs[t].SemWait? || s.pcs[t].PostAll? || s.pcs[t].Cross? || s.pcs[t].LastOut?
    ensures Phase(s')
  {
    hide InOrder;
    hide Tallied;
    hide InsideAgrees;
    OthersStay(s, t, a, s');
    SumsMove(s, t, s'.pcs[t]);
  }

  /** Whoever finds the lock free finds room in the round. */
  lemma FreeLockHasRoom(s: State)
    requires LockAgrees(s) && Phase(s) && s.lock.Free?
    ensures s.arrived < s.n
  {
    if Sum(s.pcs, Transferring) > 0 {
      var w := SumWitness(s.pcs, Transferring);
    }
  }

  lemma StepKeepsLock(s: State, t: nat, a: Action, s': State)
    requires Inv(s) && t < |s.pcs| && Next(s, t, a) == Some(s')
    ensures LockAgrees(s')
  {
    hide InOrder;
    hide Tallied;
    hide InsideAgrees;
    OthersStay(s, t, a, s');
    SumsMove(s, t, s.pcs[t]);
    assert HoldsLock(s.pcs[t]) <==> s.lock == HeldBy(t);
    if s.lock.Free? { FreeLockHasRoom(s); }
    forall u | 0 <= u < |s.pcs|
      ensures HoldsLock(s'.pcs[u]) <==> s'.lock == HeldBy(u)
      ensures s'.pcs[u].ArriveStore? ==> s'.pcs[u].read == s'.height
      ensures s'.pcs[u].ArriveLoad? || s'.pcs[u].ArriveStore? ==> s'.arrived < s'.n
    {
      assert HoldsLock(s.pcs[u]) <==> s.lock == HeldBy(u);
    }
  }

  lemma StepKeepsTally(s: State, t: nat, a: Action, s': State)
    requires Inv(s) && t < |s.pcs| && Next(s, t, a) == Some(s')
    ensures Tallied(s')
  {
    SumsMove(s, t, s.pcs[t]);
    assert HoldsLock(s.pcs[t]) <==> s.lock == HeldBy(t);
    forall k: nat ensures TalliedAt(s', k) {
      assert TalliedAt(s, k);
      if s'.log != s.log { assert s'.log[..|s'.log| - 1] == s.log; }
    }
  }

  /** A history stays in order when an event is added whose own turn has come. */
  lemma AppendInOrder(log: seq<Event>, n: nat, e: Event)
    requires InOrder(log, n) && InOrderAt(log + [e], n, |log|)
    ensures InOrder(log + [e], n)
  {
    var log' := log + [e];
    forall i | 0 <= i < |log'| ensures InOrderAt(log', n, i) {
      if i < |log| {
        assert InOrderAt(log, n, i);
        assert log'[..i] == log[..i];
      }
    }
  }

  lemma {:induction false} NoneYet(log: seq<Event>, k: nat)
    ensures Arrivals(log, k) == 0 ==> ArrivedIn(log, k) == {}
    ensures Crossings(log, k) == 0 ==> CrossedIn(log, k) == {}
  {
    if log != [] { NoneYet(log[..|log| - 1], k); }
  }

  lemma StepKeepsOrder(s: State, t: nat, a: Action, s': State)
    requires Inv(s) && t < |s.pcs| && Next(s, t, a) == Some(s')
    ensures InOrder(s'.log, s'.n)
  {
    SumsMove(s, t, s.pcs[t]);
    assert HoldsLock(s.pcs[t]) <==> s.lock == HeldBy(t);
    assert TalliedAt(s, s.round) && (s.round > 0 ==> TalliedAt(s, s.round - 1));
    NoneYet(s.log, s.round);
    if s'.log != s.log {
      var e := s'.log[|s.log|];
      assert s'.log == s.log + [e] && s'.log[..|s.log|] == s.log;
      AppendInOrder(s.log, s.n, e);
    }
  }

  /** Nobody is inside any more when the last thread leaves. */
  lemma LeavingLast(s: State, t: nat, u: nat)
    requires Inv(s) && t < |s.pcs| && s.pcs[t].LastOut? && u < |s.pcs|
    ensures Inside(s.pcs[u]) == 0
  {
    SumsMove(s, t, s.pcs[t]);
    SumsMove(s, u, s.pcs[u]);
  }

  /** What a step does to the log and to the mover's place. */
  lemma StepLogs(s: State, t: nat, a: Action, s': State)
    requires t < |s.pcs| && Next(s, t, a) == Some(s') && !s.pcs[t].LastOut?
    ensures s'.round == s.round && t < |s'.pcs|
    ensures s.pcs[t].ArriveStore? ==> s'.log == s.log + [Arrived(t, s.round)] && Inside(s'.pcs[t]) == 1
    ensures s.pcs[t].Cross? ==>
      exists last :: s'.log == s.log + [Crossed(t, s.round, last)] && Inside(s.pcs[t]) == 1 && Inside(s'.pcs[t]) == 0
    ensures !s.pcs[t].ArriveStore? && !s.pcs[t].Cross? ==> s'.log == s.log && Inside(s'.pcs[t]) == Inside(s.pcs[t])
  {
  }

  /** An event adds its thread to those that have arrived, or crossed, in its round. */
  lemma EventAdds(log: seq<Event>, e: Event)
    ensures ArrivedIn(log + [e], e.round) == ArrivedIn(log, e.round) + if e.Arrived? then {e.t} else {}
    ensures CrossedIn(log + [e], e.round) == CrossedIn(log, e.round) + if e.Crossed? then {e.t} else {}
  {
    assert (log + [e])[..|log|] == log;
  }

  lemma NobodyCrossedYet(s: State, t: nat)
    requires Inv(s) && t < |s.pcs| && s.pcs[t].ArriveStore?
    ensures CrossedIn(s.log, s.round) == {}
  {
    assert HoldsLock(s.pcs[t]) <==> s.lock == HeldBy(t);
    assert TalliedAt(s, s.round);
    NoneYet(s.log, s.round);
  }

  lemma StepKeepsInside(s: State, t: nat, a: Action, s': State)
    requires Inv(s) && t < |s.pcs| && Next(s, t, a) == Some(s')
    ensures InsideAgrees(s')
  {
    hide *;
    OthersStay(s, t, a, s');
    if s.pcs[t].LastOut? {
      LastOutLogs(s, t, a, s');
      EmptyRound(s, t, s');
    } else {
      StepLogs(s, t, a, s');
      OneStepInside(s, t, s');
    }
  }

  lemma LastOutLogs(s: State, t: nat, a: Action, s': State)
    requires t < |s.pcs| && Next(s, t, a) == Some(s') && s.pcs[t].LastOut?
    ensures s'.round == s.round + 1 && s'.log == s.log && t < |s'.pcs| && s'.pcs[t].Idle?
  {
  }

  lemma EmptyRound(s: State, t: nat, s': State)
    requires Inv(s) && t < |s.pcs| == |s'.pcs| && s.pcs[t].LastOut? && s'.pcs == s.pcs[t := s'.pcs[t]] &&
      s'.pcs[t].Idle?
    requires s'.round == s.round + 1 && s'.log == s.log
    ensures InsideAgrees(s')
  {
    assert TalliedAt(s, s.round + 1);
    NoneYet(s.log, s.round + 1);
    forall u: nat | u < |s.pcs| ensures Inside(s'.pcs[u]) == 0 { LeavingLast(s, t, u); }
  }

  lemma OneStepInside(s: State, t: nat, s': State)
    requires Inv(s) && t < |s.pcs| == |s'.pcs| && s'.pcs == s.pcs[t := s'.pcs[t]] && s'.round == s.round
    requires s.pcs[t].ArriveStore? ==> s'.log == s.log + [Arrived(t, s.round)] && Inside(s'.pcs[t]) == 1
    requires s.pcs[t].Cross? ==>
      exists last :: s'.log == s.log + [Crossed(t, s.round, last)] && Inside(s.pcs[t]) == 1 && Inside(s'.pcs[t]) == 0
    requires !s.pcs[t].ArriveStore? && !s.pcs[t].Cross? ==> s'.log == s.log && Inside(s'.pcs[t]) == Inside(s.pcs[t])
    ensures InsideAgrees(s')
  {
    assert InsideAgrees(s);
    if s.pcs[t].ArriveStore? {
      NobodyCrossedYet(s, t);
      EventAdds(s.log, Arrived(t, s.round));
    } else if s.pcs[t].Cross? {
      var last :| s'.log == s.log + [Crossed(t, s.round, last)];
      EventAdds(s.log, Crossed(t, s.round, last));
    }
    hide Inv;
    hide ArrivedIn;
    hide CrossedIn;
    hide Inside;
    forall u: nat | u < |s'.pcs|
      ensures Inside(s'.pcs[u]) == 1 <==> u in ArrivedIn(s'.log, s'.round) && u !in CrossedIn(s'.log, s'.round)
    {
      assert Inside(s.pcs[u]) == 1 <==> u in ArrivedIn(s.log, s.round) && u !in CrossedIn(s.log, s.round);
    }
  }

  lemma StepKeepsInv(s: State, t: nat, a: Action, s': State)
    requires Inv(s) && t < |s.pcs| && Next(s, t, a) == Some(s')
    ensures Inv(s') && s'.n == s.n
  {
    OthersStay(s, t, a, s');
    if s.pcs[t].SemWait? || s.pcs[t].PostAll? || s.pcs[t].Cross? || s.pcs[t].LastOut? {
      DisperseStep(s, t, a, s');
    } else {
      GatherStep(s, t, a, s');
    }
    StepKeepsLock(s, t, a, s');
    StepKeepsTally(s, t, a, s');
    StepKeepsOrder(s, t, a, s');
    StepKeepsInside(s, t, a, s');
  }

  /** Barrier safety: in every run, with any number of threads and any number of rounds, the history is
      in order, every finished round has n arrivals, n crossings and one serial thread, and the
      semaphore is 0 whenever threads gather. */
  lemma {:induction false} RunsKeepInv(run: seq<State>)
    requires run != [] && Init(run[0]) && Run(run)
    ensures forall i :: 0 <= i < |run| ==> Inv(run[i]) && run[i].n == run[0].n
  {
    InitHasInv(run[0]);
    for i := 1 to |run|
      invariant forall j :: 0 <= j < i ==> Inv(run[j]) && run[j].n == run[0].n
    {
      assert Moves(run[i - 1], run[i - 1 + 1]);
      var t: nat, a :| t < |run[i - 1].pcs| && Next(run[i - 1], t, a) == Some(run[i]);
      StepKeepsInv(run[i - 1], t, a, run[i]);
    }
  }

  // ---- Who crosses ----------------------------------------------------------

  /** Each event counts one thread, and only threads that have arrived cross. */
  lemma {:induction false} EachOnce(log: seq<Event>, n: nat, k: nat)
    requires InOrder(log, n)
    ensures |ArrivedIn(log, k)| == Arrivals(log, k) && |CrossedIn(log, k)| == Crossings(log, k)
    ensures CrossedIn(log, k) <= ArrivedIn(log, k)
  {
    if log != [] {
      var i := |log| - 1;
      assert InOrderAt(log, n, i);
      PrefixInOrder(log, n, i);
      EachOnce(log[..i], n, k);
    }
  }

  lemma {:induction false} CountsGrow(log: seq<Event>, i: nat, k: nat)
    requires i <= |log|
    ensures ArrivedIn(log[..i], k) <= ArrivedIn(log, k) && Arrivals(log[..i], k) <= Arrivals(log, k)
    decreases |log|
  {
    if i < |log| {
      CountsGrow(log[..|log| - 1], i, k);
      assert log[..|log| - 1][..i] == log[..i];
    } else {
      assert log[..i] == log;
    }
  }

  lemma SubsetIsAll(a: set<nat>, b: set<nat>)
    requires a <= b && |a| >= |b|
    ensures a == b
  {
    if a != b {
      var x :| x in b && x !in a;
      assert |b - {x}| == |b| - 1 && a <= b - {x};
      SmallerSet(a, b - {x});
    }
  }

  lemma {:induction false} SmallerSet(a: set<nat>, b: set<nat>)
    requires a <= b
    ensures |a| <= |b|
  {
    if a != {} {
      var x :| x in a;
      SmallerSet(a - {x}, b - {x});
    }
  }

  /** In a finished round exactly n threads arrived, and exactly those crossed, each once, one of them
      as the serial thread. */
  lemma FinishedRound(s: State, k: nat)
    requires Inv(s) && k < s.round
    ensures CrossedIn(s.log, k) == ArrivedIn(s.log, k) && |CrossedIn(s.log, k)| == s.n
    ensures Arrivals(s.log, k) == Crossings(s.log, k) == s.n && Serials(s.log, k) == 1
  {
    assert TalliedAt(s, k);
    EachOnce(s.log, s.n, k);
    SubsetIsAll(CrossedIn(s.log, k), ArrivedIn(s.log, k));
  }

  /** Before anyone arrives in a round, every thread that ever arrives in the one before has crossed it. */
  lemma AllCrossBeforeNext(s: State, i: nat)
    requires Inv(s) && i < |s.log| && s.log[i].Arrived? && s.log[i].round > 0
    ensures CrossedIn(s.log[..i], s.log[i].round - 1) == ArrivedIn(s.log, s.log[i].round - 1)
  {
    hide Arrivals;
    hide Crossings;
    hide Serials;
    hide ArrivedIn;
    hide CrossedIn;
    var k := s.log[i].round - 1;
    assert InOrderAt(s.log, s.n, i) && TalliedAt(s, k);
    hide *;
    PrefixInOrder(s.log, s.n, i);
    EachOnce(s.log[..i], s.n, k);
    EachOnce(s.log, s.n, k);
    CountsGrow(s.log, i, k);
    SubsetIsAll(CrossedIn(s.log[..i], k), ArrivedIn(s.log, k));
  }

  lemma PrefixInOrder(log: seq<Event>, n: nat, i: nat)
    requires InOrder(log, n) && i <= |log|
    ensures InOrder(log[..i], n)
  {
    forall j | 0 <= j < i ensures InOrderAt(log[..i], n, j) {
      assert InOrderAt(log, n, j);
      assert log[..i][..j] == log[..j];
    }
  }

  // ---- One call --------------------------------------------------------------

  /** The events of one thread. */
  ghost function Own(log: seq<Event>, t: nat): seq<Event>
  {
    if log == [] then []
    else Own(log[..|log| - 1], t) + if log[|log| - 1].t == t then [log[|log| - 1]] else []
  }

  lemma OwnAdds(log: seq<Event>, e: Event, t: nat)
    ensures Own(log + [e], t) == Own(log, t) + if e.t == t then [e] else []
  {
    assert (log + [e])[..|log|] == log;
  }

  /** A step logs nothing of any other thread, and of its own only an arrival or a crossing. */
  lemma StepOwns(s: State, t: nat, a: Action, s': State, u: nat)
    requires t < |s.pcs| && Next(s, t, a) == Some(s')
    ensures u != t ==> Own(s'.log, u) == Own(s.log, u)
    ensures u == t && s.pcs[t].ArriveStore? ==> Own(s'.log, t) == Own(s.log, t) + [Arrived(t, s.round)]
    ensures u == t && s.pcs[t].Cross? ==>
      Own(s'.log, t) == Own(s.log, t) + [Crossed(t, s.round, true)] ||
      Own(s'.log, t) == Own(s.log, t) + [Crossed(t, s.round, false)]
    ensures u == t && !s.pcs[t].ArriveStore? && !s.pcs[t].Cross? ==> Own(s'.log, t) == Own(s.log, t)
  {
    if s'.log != s.log {
      var e := s'.log[|s.log|];
      assert s'.log == s.log + [e] && e.t == t;
      OwnAdds(s.log, e, u);
    }
  }

  /** Where a thread stands in a call that found its events to be `before`. */
  ghost predicate CalledSince(s: State, t: nat, before: seq<Event>)
    requires t < |s.pcs|
  {
    var pc, own := s.pcs[t], Own(s.log, t);
    if pc.WantLock? || pc.ArriveLoad? || pc.ArriveStore? then own == before
    else if Inside(pc) == 1 then own == before + [Arrived(t, s.round)]
    else Passed(s, t, before)
  }

  /** The thread has arrived in a round and crossed it, the n-th to arrive being in. */
  ghost predicate Passed(s: State, t: nat, before: seq<Event>)
  {
    exists k, serial :: Own(s.log, t) == before + [Arrived(t, k), Crossed(t, k, serial)] && Arrivals(s.log, k) == s.n
  }

  lemma PassedStays(s: State, u: nat, a: Action, s': State, t: nat, before: seq<Event>)
    requires Inv(s) && u < |s.pcs| && Next(s, u, a) == Some(s')
    requires Passed(s, t, before) && Own(s'.log, t) == Own(s.log, t)
    ensures Passed(s', t, before)
  {
    hide Next;
    var k, serial :| Own(s.log, t) == before + [Arrived(t, k), Crossed(t, k, serial)] && Arrivals(s.log, k) == s.n;
    StepKeepsInv(s, u, a, s');
    assert TalliedAt(s', k);
    LogGrows(s, u, a, s');
    CountsGrow(s'.log, |s.log|, k);
  }

  lemma LogGrows(s: State, t: nat, a: Action, s': State)
    requires t < |s.pcs| && Next(s, t, a) == Some(s')
    ensures |s.log| <= |s'.log| && s'.log[..|s.log|] == s.log
  {
  }

  /** The one that crosses has arrived in the round, as have all n. */
  lemma CrossingPasses(s: State, t: nat, a: Action, s': State, before: seq<Event>)
    requires Inv(s) && t < |s.pcs| && Next(s, t, a) == Some(s') && s.pcs[t].Cross? && CalledSince(s, t, before)
    ensures Passed(s', t, before)
  {
    SumsMove(s, t, s.pcs[t]);
    assert s.arrived == s.n;
    StepKeepsTally(s, t, a, s');
    assert TalliedAt(s', s.round);
    StepOwns(s, t, a, s', t);
    hide Next;
    hide Own;
    var e :| Own(s'.log, t) == Own(s.log, t) + [Crossed(t, s.round, e)];
    assert Own(s'.log, t) == before + [Arrived(t, s.round), Crossed(t, s.round, e)];
    assert s'.n == s.n by { StepKeepsInv(s, t, a, s'); }
  }

  lemma CallStep(s: State, u: nat, a: Action, s': State, t: nat, before: seq<Event>)
    requires Inv(s) && u < |s.pcs| && Next(s, u, a) == Some(s')
    requires t < |s.pcs| && !s.pcs[t].Idle? && CalledSince(s, t, before)
    ensures t < |s'.pcs| && CalledSince(s', t, before)
  {
    hide Inv;
    hide Own;
    hide Passed;
    OthersStay(s, u, a, s');
    StepOwns(s, u, a, s', t);
    if u == t && s.pcs[t].Cross? {
      CrossingPasses(s, t, a, s', before);
    } else if s.pcs[t].LastOut? {
      PassedStays(s, u, a, s', t, before);
    } else if u != t && s.pcs[u].LastOut? {
      LeavingLast(s, u, t);
    }
  }

  /** A call of one thread, from the step that begins it to the step that ends it. */
  ghost predicate Call(run: seq<State>, t: nat)
  {
    && |run| > 1 && Run(run) && t < |run[0].pcs| && Next(run[0], t, Enter) == Some(run[1])
    && (forall i :: 0 < i < |run| ==> t < |run[i].pcs| && (run[i].pcs[t].Idle? <==> i == |run| - 1))
  }

  /** No call returns from a round before all n have arrived in it: whatever the other threads do
      meanwhile, in a call its thread arrives in one round and crosses that round, once each, and at its
      return n have arrived in it. */
  lemma {:induction false} CallPassesOneRound(run: seq<State>, t: nat)
    requires Call(run, t) && Inv(run[0])
    ensures Passed(run[|run| - 1], t, Own(run[0].log, t))
  {
    hide Inv;
    hide Next;
    hide Own;
    hide Passed;
    var before := Own(run[0].log, t);
    CallBegins(run[0], t, run[1]);
    for i := 1 to |run| - 1
      invariant Inv(run[i]) && CalledSince(run[i], t, before)
    {
      assert Moves(run[i], run[i + 1]);
      var u: nat, a :| u < |run[i].pcs| && Next(run[i], u, a) == Some(run[i + 1]);
      CallStep(run[i], u, a, run[i + 1], t, before);
      StepKeepsInv(run[i], u, a, run[i + 1]);
    }
  }

  lemma CallBegins(s: State, t: nat, s': State)
    requires Inv(s) && t < |s.pcs| && Next(s, t, Enter) == Some(s')
    ensures Inv(s') && t < |s'.pcs| && CalledSince(s', t, Own(s.log, t)) && !s'.pcs[t].Idle?
  {
    StepKeepsInv(s, t, Enter, s');
    StepOwns(s, t, Enter, s', t);
  }

  ghost predicate Stuck(s: State)
  {
    forall t: nat :: t < |s.pcs| ==> Next(s, t, Go) == None
  }

  lemma HolderMoves(s: State)
    requires LockAgrees(s) && s.lock.HeldBy?
    ensures Next(s, s.lock.t, Go).Some?
  {
    assert HoldsLock(s.pcs[s.lock.t]);
  }

  /** The proxy holds the lock only while some thread of the round can move. */
  lemma DispersingMoves(s: State) returns (t: nat)
    requires Inv(s) && s.lock.Proxy?
    ensures t < |s.pcs| && Next(s, t, Go).Some?
  {
    if Sum(s.pcs, Leaving) > 0 { t := SumWitness(s.pcs, Leaving); }
    else if Sum(s.pcs, Posting) > 0 { t := SumWitness(s.pcs, Posting); }
    else if Sum(s.pcs, Crossing) > 0 { t := SumWitness(s.pcs, Crossing); }
    else {
      t := SumWitness(s.pcs, Waiting);
    }
  }

  /** Nobody is left behind: when no thread inside can move, the round is short of arrivals, and every
      thread is either outside or among the ones that have arrived and wait. */
  lemma StuckMeansShort(s: State)
    requires Inv(s) && Stuck(s)
    ensures s.arrived < s.n && s.sem == 0 && s.lock == Free
    ensures forall t :: 0 <= t < |s.pcs| ==> s.pcs[t].Idle? || s.pcs[t].SemWait?
  {
    if s.lock.HeldBy? { HolderMoves(s); }
    if s.lock.Proxy? { var t := DispersingMoves(s); }
    FreeLockHasRoom(s);
    forall t | 0 <= t < |s.pcs| ensures s.pcs[t].Idle? || s.pcs[t].SemWait? {
      assert Next(s, t, Go) == None;
      assert HoldsLock(s.pcs[t]) <==> s.lock == HeldBy(t);
      SumsMove(s, t, s.pcs[t]);
    }
  }

  /** An upper bound on the steps left in the call a thread is in. */
  function Left(pc: Pc): nat
  {
    match pc
    case Idle => 0 case WantLock => 8 case ArriveLoad => 7 case ArriveStore(_) => 6
    case Transfer => 5 case PostAll => 4 case Release => 5 case SemWait => 4
    case Cross => 3 case LastOut => 1
  }

  lemma StepUsesWork(s: State, t: nat)
    requires t < |s.pcs| && Step(s, t).Some?
    ensures Sum(Step(s, t).value.pcs, Left) < Sum(s.pcs, Left)
  {
    var s' := Step(s, t).value;
    OthersStay(s, t, Go, s');
    SumUpdate(s.pcs, t, s'.pcs[t], Left);
  }

  ghost predicate Proceeds(s: State, s': State)
  {
    exists t: nat :: t < |s.pcs| && Step(s, t) == Some(s')
  }

  /** With no new calls, a run is no longer than 8 steps a thread; and where it can go no further, only
      threads of a round that is short of arrivals are still in a call. */
  lemma {:induction false} CallsRunOut(run: seq<State>)
    requires run != [] && Inv(run[0]) && forall i :: 0 <= i < |run| - 1 ==> Proceeds(run[i], run[i + 1])
    ensures |run| - 1 <= Sum(run[0].pcs, Left) <= 8 * |run[0].pcs|
    ensures var last := run[|run| - 1];
      Inv(last) && (Stuck(last) ==> last.arrived < last.n && Sum(last.pcs, Waiting) == last.arrived)
  {
    SumBound(run[0].pcs, Left, 8);
    for i := 1 to |run|
      invariant i - 1 + Sum(run[i - 1].pcs, Left) <= Sum(run[0].pcs, Left) && Inv(run[i - 1])
    {
      assert Proceeds(run[i - 1], run[i - 1 + 1]);
      var t: nat :| t < |run[i - 1].pcs| && Step(run[i - 1], t) == Some(run[i]);
      StepUsesWork(run[i - 1], t);
      StepKeepsInv(run[i - 1], t, Go, run[i]);
    }
    if Stuck(run[|run| - 1]) { StuckMeansShort(run[|run| - 1]); }
  }
}
