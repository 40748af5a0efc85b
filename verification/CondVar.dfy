/** The condition variable protocol of pthreads-win32 ("algorithm 9"), as a step relation over any
    number of threads. A thread is an index into `pcs`; one step is one action on the shared
    condition variable: a semaphore or mutex operation, one read or write of a counter that other
    threads may touch, or the body of a section that the unblock mutex protects. */
module CondVar {
  import opened Common
  import opened Counting

  const INT_MAX := 0x7fff_ffff
  const ADJUST_AT := INT_MAX / 2

  datatype Pc =
    | Idle
    // waiter: take the gate, count itself in (read, then write), give the gate back, wait in the queue
    | WaitGate | EnterLoad | EnterStore(read: int) | EnterPost | Queued
    // waiter's cleanup; `token` says whether it took a unit of the queue semaphore or gave up
    | CleanLock(token: bool) | CleanIn(token: bool)
    | AdjustGate | AdjustSub | AdjustPost | AdjustZero
    | CleanUnlock(left: int) | OpenGate
    // signal and broadcast
    | SigLock(all: bool) | SigTest(all: bool) | SigGate(all: bool) | SigClose(all: bool)
    | SigUnlock(issue: nat) | SigPost(issue: nat)
    // destroy
    | DestGate | DestTry | DestCheck

  datatype State = State(
    blocked: int,       // nWaitersBlocked
    gone: int,          // nWaitersGone
    toUnblock: int,     // nWaitersToUnblock
    gate: nat,          // semBlockLock
    queue: nat,         // semBlockQueue
    mtx: Option<nat>,   // mtxUnblockLock: its holder
    alive: bool,        // not destroyed yet
    pcs: seq<Pc>)
  {
    function At(t: nat, pc: Pc): State
      requires t < |pcs|
    {
      this.(pcs := pcs[t := pc])
    }
  }

  /** What a thread may do: begin a call, take the next step of the call it is in, or give up a
      wait that can time out or be cancelled. */
  datatype Action = Wait | Signal(all: bool) | Destroy | Go | GiveUp

  /** The state after thread `t` does `a`, or None when it cannot do it now. */
  function Next(s: State, t: nat, a: Action): Option<State>
    requires t < |s.pcs|
  {
    if !s.alive then None else
    match a
    case Wait => if s.pcs[t].Idle? then Some(s.At(t, WaitGate)) else None
    case Signal(all) => if s.pcs[t].Idle? then Some(s.At(t, SigLock(all))) else None
    case Destroy => if s.pcs[t].Idle? then Some(s.At(t, DestGate)) else None
    case GiveUp =>
      if s.pcs[t].WaitGate? then Some(s.At(t, Idle))
      else if s.pcs[t].Queued? then Some(s.At(t, CleanLock(false)))
      else None
    case Go => Step(s, t)
  }

  function Step(s: State, t: nat): Option<State>
    requires t < |s.pcs|
  {
    match s.pcs[t]
    case Idle => None
    case WaitGate => if s.gate == 0 then None else Some(s.At(t, EnterLoad).(gate := s.gate - 1))
    case EnterLoad => Some(s.At(t, EnterStore(s.blocked)))
    case EnterStore(read) => Some(s.At(t, EnterPost).(blocked := read + 1))
    case EnterPost => Some(s.At(t, Queued).(gate := s.gate + 1))
    case Queued => if s.queue == 0 then None else Some(s.At(t, CleanLock(true)).(queue := s.queue - 1))
    case CleanLock(token) => if s.mtx.Some? then None else Some(s.At(t, CleanIn(token)).(mtx := Some(t)))
    case CleanIn(_) =>
      if s.toUnblock != 0 then Some(s.At(t, CleanUnlock(s.toUnblock)).(toUnblock := s.toUnblock - 1))
      else if s.gone + 1 == ADJUST_AT then Some(s.At(t, AdjustGate).(gone := s.gone + 1))
      else Some(s.At(t, CleanUnlock(0)).(gone := s.gone + 1))
    case AdjustGate => if s.gate == 0 then None else Some(s.At(t, AdjustSub).(gate := s.gate - 1))
    case AdjustSub => Some(s.At(t, AdjustPost).(blocked := s.blocked - s.gone))
    case AdjustPost => Some(s.At(t, AdjustZero).(gate := s.gate + 1))
    case AdjustZero => Some(s.At(t, CleanUnlock(0)).(gone := 0))
    case CleanUnlock(left) => Some(s.At(t, if left == 1 then OpenGate else Idle).(mtx := None))
    case OpenGate => Some(s.At(t, Idle).(gate := s.gate + 1))
    case SigLock(all) => if s.mtx.Some? then None else Some(s.At(t, SigTest(all)).(mtx := Some(t)))
    case SigTest(all) =>
      if s.toUnblock != 0 then
        if s.blocked == 0 then Some(s.At(t, SigUnlock(0)))
        else if all then Some(Decide(s, t, s.toUnblock + s.blocked, 0, s.blocked))
        else Some(Decide(s, t, s.toUnblock + 1, s.blocked - 1, 1))
      else if s.blocked > s.gone then Some(s.At(t, SigGate(all)))
      else Some(s.At(t, SigUnlock(0)))
    case SigGate(all) => if s.gate == 0 then None else Some(s.At(t, SigClose(all)).(gate := s.gate - 1))
    case SigClose(all) =>
      var waiting := s.blocked - s.gone;
      var s' := s.(gone := 0);
      if all then Some(Decide(s', t, waiting, 0, waiting)) else Some(Decide(s', t, 1, waiting - 1, 1))
    case SigUnlock(n) => Some(s.At(t, if n == 0 then Idle else SigPost(n)).(mtx := None))
    case SigPost(n) => Some(s.At(t, Idle).(queue := s.queue + n))
    case DestGate => if s.gate == 0 then None else Some(s.At(t, DestTry).(gate := s.gate - 1))
    case DestTry =>
      if s.mtx.Some? then Some(s.At(t, Idle).(gate := s.gate + 1))
      else Some(s.At(t, DestCheck).(mtx := Some(t)))
    case DestCheck =>
      if s.blocked > s.gone then Some(s.At(t, Idle).(gate := s.gate + 1, mtx := None))
      else Some(s.At(t, Idle).(mtx := None, alive := false))
  }

  /** The counters after a signaller has chosen how many waiters to release. */
  function Decide(s: State, t: nat, toUnblock: int, blocked: int, issue: int): State
    requires t < |s.pcs|
  {
    s.At(t, SigUnlock(if issue < 0 then 0 else issue)).(toUnblock := toUnblock, blocked := blocked)
  }

  ghost predicate Init(s: State)
  {
    s.blocked == s.gone == s.toUnblock == 0 && s.gate == 1 && s.queue == 0 && s.mtx == None && s.alive &&
    forall t :: 0 <= t < |s.pcs| ==> s.pcs[t].Idle?
  }

  /** A run: states in order, each one step of some thread after the one before. */
  ghost predicate Run(run: seq<State>)
  {
    forall i :: 0 <= i < |run| - 1 ==> Moves(run[i], run[i + 1])
  }

  ghost predicate Moves(s: State, s': State)
  {
    exists t: nat, a :: t < |s.pcs| && Next(s, t, a) == Some(s')
  }

  // ---- Where the threads stand --------------------------------------------

  /** 1 for a thread that counts as a waiter: counted in, not yet counted out. */
  function Registered(pc: Pc): nat
  {
    match pc case EnterPost => 1 case Queued => 1 case CleanLock(_) => 1 case CleanIn(_) => 1 case _ => 0
  }

  /** 1 for a thread that itself holds the one unit of the gate. */
  function OwnsGate(pc: Pc): nat
  {
    match pc
    case EnterLoad => 1 case EnterStore(_) => 1 case EnterPost => 1
    case AdjustSub => 1 case AdjustPost => 1
    case CleanUnlock(left) => if left == 1 then 1 else 0
    case OpenGate => 1 case SigClose(_) => 1 case DestTry => 1 case DestCheck => 1
    case _ => 0
  }

  predicate HoldsMtx(pc: Pc)
  {
    pc.CleanIn? || pc.AdjustGate? || pc.AdjustSub? || pc.AdjustPost? || pc.AdjustZero? || pc.CleanUnlock? ||
    pc.SigTest? || pc.SigGate? || pc.SigClose? || pc.SigUnlock? || pc.DestCheck?
  }

  /** Units of the queue semaphore that a thread has in hand: decided but not posted, or taken and
      not yet accounted for. */
  function InHand(pc: Pc): nat
  {
    match pc
    case SigUnlock(n) => n case SigPost(n) => n
    case CleanLock(token) => if token then 1 else 0
    case CleanIn(token) => if token then 1 else 0
    case _ => 0
  }

  /** The part of `gone` already taken off `blocked` by an adjustment in progress. */
  function Adjusted(pc: Pc): nat
  {
    if pc.AdjustPost? || pc.AdjustZero? then ADJUST_AT else 0
  }

  ghost function Waiters(s: State): nat { Sum(s.pcs, Registered) }

  /** What the mutex holder or gate owner knows about the counters at its point of the code. */
  predicate LocalInv(s: State, pc: Pc)
  {
    match pc
    case EnterStore(read) => read == s.blocked
    case AdjustGate => s.toUnblock == 0 && s.gone == ADJUST_AT
    case AdjustSub => s.toUnblock == 0 && s.gone == ADJUST_AT
    case AdjustPost => s.toUnblock == 0 && s.gone == ADJUST_AT
    case AdjustZero => s.toUnblock == 0 && s.gone == ADJUST_AT
    case SigGate(_) => s.toUnblock == 0 && s.blocked > s.gone
    case SigClose(_) => s.toUnblock == 0 && s.blocked > s.gone
    case _ => true
  }

  predicate Adjusting(pc: Pc) { pc.AdjustGate? || pc.AdjustSub? || pc.AdjustPost? || pc.AdjustZero? }

  /** Waiter conservation: the threads counted in and not yet out, against the three counters. */
  ghost predicate Conserved(s: State)
  {
    && 0 <= s.blocked && 0 <= s.gone <= ADJUST_AT && 0 <= s.toUnblock
    && (s.toUnblock > 0 ==> s.gone == 0)
    && Waiters(s) == s.blocked + s.toUnblock - s.gone + Sum(s.pcs, Adjusted)
  }

  /** The one unit of the gate is free, or a thread's own, or stands for the wake-ups still owed. */
  ghost predicate OneGate(s: State)
  {
    s.alive ==> s.gate + (if s.toUnblock > 0 then 1 else 0) + Sum(s.pcs, OwnsGate) == 1
  }

  /** Every wake-up still owed has a unit of the queue semaphore available or on its way. */
  ghost predicate Covered(s: State)
  {
    s.toUnblock <= s.queue + Sum(s.pcs, InHand)
  }

  /** The holder of the unblock mutex is the thread whose program counter says so. */
  ghost predicate MtxAgrees(s: State)
  {
    && (s.mtx.Some? ==> s.mtx.value < |s.pcs|)
    && (forall t :: 0 <= t < |s.pcs| ==> (HoldsMtx(s.pcs[t]) <==> s.mtx == Some(t)))
  }

  ghost predicate AllLocal(s: State)
  {
    forall t :: 0 <= t < |s.pcs| ==> LocalInv(s, s.pcs[t])
  }

  /** `gone` stands at its limit only while some thread is adjusting it. */
  ghost predicate LimitNoted(s: State)
  {
    s.gone == ADJUST_AT ==> exists t :: 0 <= t < |s.pcs| && Adjusting(s.pcs[t])
  }

  ghost predicate Inv(s: State)
  {
    Conserved(s) && OneGate(s) && Covered(s) && MtxAgrees(s) && AllLocal(s) && LimitNoted(s)
  }

  lemma InitHasInv(s: State)
    requires Init(s)
    ensures Inv(s)
  {
    SumZero(s.pcs, Registered);
    SumZero(s.pcs, OwnsGate);
    SumZero(s.pcs, InHand);
    SumZero(s.pcs, Adjusted);
  }

  /** What replacing one thread's program counter does to the four sums. */
  lemma SumsMove(pcs: seq<Pc>, t: nat, pc: Pc)
    requires t < |pcs|
    ensures Sum(pcs[t := pc], Registered) == Sum(pcs, Registered) - Registered(pcs[t]) + Registered(pc)
    ensures Sum(pcs[t := pc], OwnsGate) == Sum(pcs, OwnsGate) - OwnsGate(pcs[t]) + OwnsGate(pc)
    ensures Sum(pcs[t := pc], InHand) == Sum(pcs, InHand) - InHand(pcs[t]) + InHand(pc)
    ensures Sum(pcs[t := pc], Adjusted) == Sum(pcs, Adjusted) - Adjusted(pcs[t]) + Adjusted(pc)
  {
    SumUpdate(pcs, t, pc, Registered);
    SumUpdate(pcs, t, pc, OwnsGate);
    SumUpdate(pcs, t, pc, InHand);
    SumUpdate(pcs, t, pc, Adjusted);
  }

  /** At most one thread owns the gate, and nobody does while waiters are owed a wake-up. */
  lemma OneGateOwner(s: State, t: nat, u: nat)
    requires Inv(s) && s.alive && t < |s.pcs| && u < |s.pcs| && OwnsGate(s.pcs[t]) == 1
    ensures s.gate == 0 && s.toUnblock == 0
    ensures u != t ==> OwnsGate(s.pcs[u]) == 0
  {
    SumIncludes(s.pcs, t, OwnsGate);
    if u < t { SumIncludesTwo(s.pcs, u, t, OwnsGate); }
    if t < u { SumIncludesTwo(s.pcs, t, u, OwnsGate); }
  }

  /** Only the holder of the mutex can be in the middle of an adjustment. */
  lemma OneAdjuster(s: State)
    requires Inv(s)
    requires forall t :: 0 <= t < |s.pcs| && s.mtx == Some(t) ==> Adjusted(s.pcs[t]) == 0
    ensures Sum(s.pcs, Adjusted) == 0
  {
    forall t | 0 <= t < |s.pcs| ensures Adjusted(s.pcs[t]) == 0 { assert HoldsMtx(s.pcs[t]) <==> s.mtx == Some(t); }
    SumZero(s.pcs, Adjusted);
  }

  datatype Role = Outside | Entering | Cleaning | Adjusts | Signalling | Closing | Destroying

  function RoleOf(pc: Pc): Role
  {
    match pc
    case Idle => Outside
    case WaitGate => Entering case EnterLoad => Entering case EnterStore(_) => Entering
    case EnterPost => Entering case Queued => Entering
    case CleanLock(_) => Cleaning case CleanIn(_) => Cleaning case CleanUnlock(_) => Cleaning case OpenGate => Cleaning
    case AdjustGate => Adjusts case AdjustSub => Adjusts case AdjustPost => Adjusts case AdjustZero => Adjusts
    case SigLock(_) => Signalling case SigTest(_) => Signalling
    case SigUnlock(_) => Signalling case SigPost(_) => Signalling
    case SigGate(_) => Closing case SigClose(_) => Closing
    case DestGate => Destroying case DestTry => Destroying case DestCheck => Destroying
  }

  predicate Waiterly(pc: Pc) { RoleOf(pc).Entering? || RoleOf(pc).Cleaning? || RoleOf(pc).Adjusts? }

  /** A step leaves what every other thread knows about the counters true. */
  lemma OthersKeepLocal(s: State, t: nat, a: Action, u: nat)
    requires Inv(s) && s.alive && t < |s.pcs| && u < |s.pcs| && u != t
    requires Next(s, t, a).Some?
    ensures LocalInv(Next(s, t, a).value, s.pcs[u])
  {
    assert HoldsMtx(s.pcs[u]) <==> s.mtx == Some(u);
    assert HoldsMtx(s.pcs[t]) <==> s.mtx == Some(t);
    assert LocalInv(s, s.pcs[u]) && LocalInv(s, s.pcs[t]);
    if OwnsGate(s.pcs[u]) == 1 { OneGateOwner(s, u, t); }
    if OwnsGate(s.pcs[t]) == 1 { OneGateOwner(s, t, u); }
  }

  lemma WaiterMovesItself(s: State, t: nat, a: Action)
    requires t < |s.pcs| && Next(s, t, a).Some? && Waiterly(s.pcs[t])
    ensures |Next(s, t, a).value.pcs| == |s.pcs| && Next(s, t, a).value.pcs == s.pcs[t := Next(s, t, a).value.pcs[t]]
  {
  }

  lemma SignallerMovesItself(s: State, t: nat, a: Action)
    requires t < |s.pcs| && Next(s, t, a).Some? && !Waiterly(s.pcs[t])
    ensures |Next(s, t, a).value.pcs| == |s.pcs| && Next(s, t, a).value.pcs == s.pcs[t := Next(s, t, a).value.pcs[t]]
  {
  }

  /** Only the mover's program counter changes. */
  lemma OthersStay(s: State, t: nat, a: Action)
    requires t < |s.pcs| && Next(s, t, a).Some?
    ensures |Next(s, t, a).value.pcs| == |s.pcs| && Next(s, t, a).value.pcs == s.pcs[t := Next(s, t, a).value.pcs[t]]
    ensures forall u :: 0 <= u < |s.pcs| && u != t ==> Next(s, t, a).value.pcs[u] == s.pcs[u]
  {
    hide *;
    if Waiterly(s.pcs[t]) { WaiterMovesItself(s, t, a); } else { SignallerMovesItself(s, t, a); }
  }

  /** What the mover does to the mutex: nothing, or it takes it free, or it gives it up. */
  ghost predicate MtxMoves(s: State, t: nat, s': State)
    requires t < |s.pcs| == |s'.pcs|
  {
    || (s'.mtx == s.mtx && (HoldsMtx(s'.pcs[t]) <==> HoldsMtx(s.pcs[t])))
    || (s.mtx == None && s'.mtx == Some(t) && HoldsMtx(s'.pcs[t]))
    || (s.mtx == Some(t) && s'.mtx == None && !HoldsMtx(s'.pcs[t]))
  }

  lemma WaiterMovesMtx(s: State, t: nat, a: Action, s': State)
    requires t < |s.pcs| == |s'.pcs| && Next(s, t, a) == Some(s') && Waiterly(s.pcs[t])
    requires HoldsMtx(s.pcs[t]) <==> s.mtx == Some(t)
    ensures MtxMoves(s, t, s')
  {
  }

  lemma SignallerMovesMtx(s: State, t: nat, a: Action, s': State)
    requires t < |s.pcs| == |s'.pcs| && Next(s, t, a) == Some(s') && !Waiterly(s.pcs[t])
    requires HoldsMtx(s.pcs[t]) <==> s.mtx == Some(t)
    ensures MtxMoves(s, t, s')
  {
  }

  lemma StepKeepsMtx(s: State, t: nat, a: Action)
    requires MtxAgrees(s) && t < |s.pcs| && Next(s, t, a).Some?
    ensures MtxAgrees(Next(s, t, a).value)
  {
    hide Next;
    hide HoldsMtx;
    hide Waiterly;
    var s' := Next(s, t, a).value;
    OthersStay(s, t, a);
    assert HoldsMtx(s.pcs[t]) <==> s.mtx == Some(t);
    if Waiterly(s.pcs[t]) { WaiterMovesMtx(s, t, a, s'); } else { SignallerMovesMtx(s, t, a, s'); }
    forall u | 0 <= u < |s'.pcs| ensures HoldsMtx(s'.pcs[u]) <==> s'.mtx == Some(u) {
      assert HoldsMtx(s.pcs[u]) <==> s.mtx == Some(u);
    }
  }

  /** A thread arrives at its next point of the code with what that point relies on. */
  lemma OwnLocal(s: State, t: nat, a: Action)
    requires t < |s.pcs| && LocalInv(s, s.pcs[t]) && Next(s, t, a).Some?
    ensures LocalInv(Next(s, t, a).value, Next(s, t, a).value.pcs[t])
  {
    hide *;
    if Waiterly(s.pcs[t]) { WaiterLocal(s, t, a); } else { SignallerLocal(s, t, a); }
    OthersStay(s, t, a);
  }

  lemma WaiterLocal(s: State, t: nat, a: Action)
    requires t < |s.pcs| && LocalInv(s, s.pcs[t]) && Next(s, t, a).Some? && Waiterly(s.pcs[t])
    ensures t < |Next(s, t, a).value.pcs| && LocalInv(Next(s, t, a).value, Next(s, t, a).value.pcs[t])
  {
  }

  lemma SignallerLocal(s: State, t: nat, a: Action)
    requires t < |s.pcs| && LocalInv(s, s.pcs[t]) && Next(s, t, a).Some? && !Waiterly(s.pcs[t])
    ensures t < |Next(s, t, a).value.pcs| && LocalInv(Next(s, t, a).value, Next(s, t, a).value.pcs[t])
  {
  }

  lemma StepKeepsLocal(s: State, t: nat, a: Action, s': State)
    requires Inv(s) && t < |s.pcs| && Next(s, t, a) == Some(s')
    ensures AllLocal(s')
  {
    OthersStay(s, t, a);
    forall u | 0 <= u < |s'.pcs| ensures LocalInv(s', s'.pcs[u]) {
      if u == t { OwnLocal(s, t, a); } else { OthersKeepLocal(s, t, a, u); }
    }
  }

  lemma StepKeepsLimit(s: State, t: nat, a: Action)
    requires Inv(s) && t < |s.pcs| && Next(s, t, a).Some?
    ensures LimitNoted(Next(s, t, a).value)
  {
    var s' := Next(s, t, a).value;
    if s'.gone == ADJUST_AT && !Adjusting(s'.pcs[t]) {
      var u :| 0 <= u < |s.pcs| && Adjusting(s.pcs[u]);
      assert HoldsMtx(s.pcs[u]) <==> s.mtx == Some(u);
      assert HoldsMtx(s.pcs[t]) <==> s.mtx == Some(t);
      assert s'.pcs[u] == s.pcs[u];
    }
  }

  /** What is known around a step of `t`: how the sums move, and what its program counter stands for. */
  lemma StepFacts(s: State, t: nat, a: Action)
    requires Inv(s) && t < |s.pcs| && Next(s, t, a).Some?
    ensures var pc' := Next(s, t, a).value.pcs[t];
      && Next(s, t, a).value.pcs == s.pcs[t := pc']
      && Waiters(Next(s, t, a).value) == Waiters(s) - Registered(s.pcs[t]) + Registered(pc')
      && Sum(Next(s, t, a).value.pcs, OwnsGate) == Sum(s.pcs, OwnsGate) - OwnsGate(s.pcs[t]) + OwnsGate(pc')
      && Sum(Next(s, t, a).value.pcs, InHand) == Sum(s.pcs, InHand) - InHand(s.pcs[t]) + InHand(pc')
      && Sum(Next(s, t, a).value.pcs, Adjusted) == Sum(s.pcs, Adjusted) - Adjusted(s.pcs[t]) + Adjusted(pc')
    ensures LocalInv(s, s.pcs[t]) && (HoldsMtx(s.pcs[t]) <==> s.mtx == Some(t))
    ensures OwnsGate(s.pcs[t]) == 1 ==> s.gate == 0 && s.toUnblock == 0
    ensures s.mtx == Some(t) && Adjusted(s.pcs[t]) == 0 ==> Sum(s.pcs, Adjusted) == 0
  {
    assert s.alive;
    hide Next;
    var s' := Next(s, t, a).value;
    OthersStay(s, t, a);
    SumsMove(s.pcs, t, s'.pcs[t]);
    assert HoldsMtx(s.pcs[t]) <==> s.mtx == Some(t);
    if OwnsGate(s.pcs[t]) == 1 { OneGateOwner(s, t, t); }
    if s.mtx == Some(t) && Adjusted(s.pcs[t]) == 0 { OneAdjuster(s); }
  }

  ghost predicate CountsAgree(s: State)
  {
    Conserved(s) && OneGate(s) && Covered(s)
  }

  /** Beginning a call counts nobody. */
  lemma OutsideStep(s: State, t: nat, a: Action)
    requires Inv(s) && t < |s.pcs| && Next(s, t, a).Some? && RoleOf(s.pcs[t]).Outside?
    ensures CountsAgree(Next(s, t, a).value)
  {
    StepFacts(s, t, a);
  }

  /** Counting a waiter in, under the gate. */
  lemma EnteringStep(s: State, t: nat, a: Action)
    requires Inv(s) && t < |s.pcs| && Next(s, t, a).Some? && RoleOf(s.pcs[t]).Entering?
    ensures CountsAgree(Next(s, t, a).value)
  {
    StepFacts(s, t, a);
  }

  /** Counting a waiter out, under the mutex; the last one owed takes over the gate. */
  lemma CleaningStep(s: State, t: nat, a: Action)
    requires Inv(s) && t < |s.pcs| && Next(s, t, a).Some? && RoleOf(s.pcs[t]).Cleaning?
    ensures CountsAgree(Next(s, t, a).value)
  {
    StepFacts(s, t, a);
  }

  /** Moving `gone` over to `blocked` when it gets large. */
  lemma AdjustingStep(s: State, t: nat, a: Action)
    requires Inv(s) && t < |s.pcs| && Next(s, t, a).Some? && RoleOf(s.pcs[t]).Adjusts?
    ensures CountsAgree(Next(s, t, a).value)
  {
    StepFacts(s, t, a);
  }

  /** Choosing how many more to release while wake-ups are already owed, or none. */
  lemma ChoosingStep(s: State, t: nat, a: Action)
    requires Inv(s) && t < |s.pcs| && Next(s, t, a).Some? && s.pcs[t].SigTest?
    ensures CountsAgree(Next(s, t, a).value)
  {
    StepFacts(s, t, a);
  }

  /** Taking and giving up the mutex, and posting. */
  lemma PostingStep(s: State, t: nat, a: Action)
    requires Inv(s) && t < |s.pcs| && Next(s, t, a).Some? &&
      (s.pcs[t].SigLock? || s.pcs[t].SigUnlock? || s.pcs[t].SigPost?)
    ensures CountsAgree(Next(s, t, a).value)
  {
    StepFacts(s, t, a);
  }

  /** Signalling while the gate is open or already closed. */
  lemma SignallingStep(s: State, t: nat, a: Action)
    requires Inv(s) && t < |s.pcs| && Next(s, t, a).Some? && RoleOf(s.pcs[t]).Signalling?
    ensures CountsAgree(Next(s, t, a).value)
  {
    assert s.pcs[t].SigTest? || s.pcs[t].SigLock? || s.pcs[t].SigUnlock? || s.pcs[t].SigPost?;
    hide *;
    if s.pcs[t].SigTest? { ChoosingStep(s, t, a); } else { PostingStep(s, t, a); }
  }

  /** Closing the gate for a new batch of wake-ups. */
  lemma ClosingStep(s: State, t: nat, a: Action)
    requires Inv(s) && t < |s.pcs| && Next(s, t, a).Some? && RoleOf(s.pcs[t]).Closing?
    ensures CountsAgree(Next(s, t, a).value)
  {
    StepFacts(s, t, a);
  }

  /** Destroying, or backing off. */
  lemma DestroyingStep(s: State, t: nat, a: Action)
    requires Inv(s) && t < |s.pcs| && Next(s, t, a).Some? && RoleOf(s.pcs[t]).Destroying?
    ensures CountsAgree(Next(s, t, a).value)
  {
    StepFacts(s, t, a);
  }

  lemma StepKeepsInv(s: State, t: nat, a: Action)
    requires Inv(s) && t < |s.pcs| && Next(s, t, a).Some?
    ensures Inv(Next(s, t, a).value)
  {
    StepKeepsMtx(s, t, a);
    StepKeepsLocal(s, t, a, Next(s, t, a).value);
    StepKeepsLimit(s, t, a);
    match RoleOf(s.pcs[t])
    case Outside => OutsideStep(s, t, a);
    case Entering => EnteringStep(s, t, a);
    case Cleaning => CleaningStep(s, t, a);
    case Adjusts => AdjustingStep(s, t, a);
    case Signalling => SignallingStep(s, t, a);
    case Closing => ClosingStep(s, t, a);
    case Destroying => DestroyingStep(s, t, a);
  }

  // ---- Every run ----------------------------------------------------------

  /** Safety: every state of every run from initialisation, with any number of threads, satisfies
      conservation, gate ownership, coverage of owed wake-ups and mutex agreement. */
  lemma {:induction false} RunsKeepInv(run: seq<State>)
    requires run != [] && Init(run[0]) && Run(run)
    ensures forall i :: 0 <= i < |run| ==> Inv(run[i]) && |run[i].pcs| == |run[0].pcs|
  {
    InitHasInv(run[0]);
    for i := 1 to |run|
      invariant forall j :: 0 <= j < i ==> Inv(run[j]) && |run[j].pcs| == |run[0].pcs|
    {
      assert Moves(run[i - 1], run[i - 1 + 1]);
      var t: nat, a :| t < |run[i - 1].pcs| && Next(run[i - 1], t, a) == Some(run[i]);
      StepKeepsInv(run[i - 1], t, a);
      OthersStay(run[i - 1], t, a);
    }
  }

  /** The gate's owner can always take its next step: it never waits for the mutex, nor for anything else. */
  lemma GateOwnerMoves(s: State, t: nat)
    requires s.alive && t < |s.pcs| && OwnsGate(s.pcs[t]) == 1
    ensures Next(s, t, Go).Some?
  {
  }

  /** A thread that waits for the gate with the mutex in hand waits for another thread, and that one can move. */
  lemma GateWaitIsShort(s: State, t: nat) returns (owner: nat)
    requires Inv(s) && s.alive && t < |s.pcs| && s.gate == 0
    requires s.pcs[t].SigGate? || s.pcs[t].AdjustGate?
    ensures owner < |s.pcs| && owner != t && OwnsGate(s.pcs[owner]) == 1 && Next(s, owner, Go).Some?
  {
    assert LocalInv(s, s.pcs[t]);
    owner := SumWitness(s.pcs, OwnsGate);
  }

  /** `nWaitersBlocked` is written only by the gate's owner, or, while wake-ups are owed and so the
      gate is nobody's, by the mutex holder; a waiter's unlocked read-then-write adds exactly one. */
  lemma BlockedHasOneWriter(s: State, t: nat, a: Action)
    requires Inv(s) && t < |s.pcs| && Next(s, t, a).Some? && Next(s, t, a).value.blocked != s.blocked
    ensures OwnsGate(s.pcs[t]) == 1 || (s.toUnblock > 0 && s.mtx == Some(t))
    ensures s.pcs[t].EnterStore? ==> Next(s, t, a).value.blocked == s.blocked + 1
  {
    assert LocalInv(s, s.pcs[t]);
    assert HoldsMtx(s.pcs[t]) <==> s.mtx == Some(t);
  }

  /** An owed wake-up is discharged, one at a time, exactly by a waiter that counts itself out. */
  lemma OwedDischargedByWaiter(s: State, t: nat, a: Action)
    requires Inv(s) && t < |s.pcs| && Next(s, t, a).Some? && Next(s, t, a).value.toUnblock < s.toUnblock
    ensures s.pcs[t].CleanIn? && Next(s, t, a).value.toUnblock == s.toUnblock - 1
    ensures Waiters(Next(s, t, a).value) == Waiters(s) - 1
  {
    StepFacts(s, t, a);
  }

  // ---- Progress -----------------------------------------------------------

  ghost predicate Stuck(s: State)
  {
    forall t: nat :: t < |s.pcs| ==> Next(s, t, Go) == None
  }

  lemma StuckFreesMutex(s: State)
    requires Inv(s) && s.alive && Stuck(s)
    ensures s.mtx == None
  {
    if s.mtx.Some? {
      var h := s.mtx.value;
      assert HoldsMtx(s.pcs[h]) && Next(s, h, Go) == None;
      var owner := GateWaitIsShort(s, h);
    }
  }

  lemma NobodyAdjusts(s: State)
    requires Inv(s) && (s.toUnblock > 0 || s.mtx == None)
    ensures Sum(s.pcs, Adjusted) == 0
  {
    forall t | 0 <= t < |s.pcs| ensures Adjusted(s.pcs[t]) == 0 {
      assert LocalInv(s, s.pcs[t]) && (HoldsMtx(s.pcs[t]) <==> s.mtx == Some(t));
    }
    SumZero(s.pcs, Adjusted);
  }

  /** With the mutex free, an owed wake-up has a thread that can bring it nearer: a signaller about
      to post, a waiter with a unit in hand, or a waiter with a unit to take. */
  lemma OwedMoves(s: State) returns (t: nat)
    requires Inv(s) && s.alive && s.mtx == None && s.toUnblock > 0
    ensures t < |s.pcs| && Next(s, t, Go).Some?
  {
    if Sum(s.pcs, InHand) > 0 {
      t := SumWitness(s.pcs, InHand);
    } else {
      NobodyAdjusts(s);
      t := SumWitness(s.pcs, Registered);
    }
    assert HoldsMtx(s.pcs[t]) <==> s.mtx == Some(t);
  }

  lemma StuckOpensGate(s: State)
    requires Inv(s) && s.alive && Stuck(s) && s.mtx == None
    ensures s.gate == 1 && s.toUnblock == 0
  {
    if Sum(s.pcs, OwnsGate) > 0 {
      var o := SumWitness(s.pcs, OwnsGate);
      GateOwnerMoves(s, o);
    }
    if s.toUnblock > 0 {
      var w := OwedMoves(s);
    }
  }

  /** No lost wake-up and no deadlock: when no thread can take another step of its own, every thread
      is outside or waiting in an empty queue, the gate and the mutex are free, and no wake-up that a
      signal promised is outstanding. */
  lemma StuckIsSettled(s: State)
    requires Inv(s) && s.alive && Stuck(s)
    ensures s.mtx == None && s.gate == 1 && s.toUnblock == 0
    ensures forall t :: 0 <= t < |s.pcs| ==> s.pcs[t].Idle? || (s.pcs[t].Queued? && s.queue == 0)
    ensures Waiters(s) == s.blocked - s.gone
  {
    StuckFreesMutex(s);
    StuckOpensGate(s);
    forall t | 0 <= t < |s.pcs| ensures s.pcs[t].Idle? || (s.pcs[t].Queued? && s.queue == 0) {
      assert Next(s, t, Go) == None;
      assert HoldsMtx(s.pcs[t]) <==> s.mtx == Some(t);
    }
    NobodyAdjusts(s);
  }

  /** While the gate is closed for owed wake-ups, some signaller or waiter can move. */
  lemma OwedMeansProgress(s: State)
    requires Inv(s) && s.alive && s.toUnblock > 0
    ensures exists t: nat :: t < |s.pcs| && Next(s, t, Go).Some? && !s.pcs[t].Idle?
  {
    if Stuck(s) { StuckIsSettled(s); }
    var t: nat :| t < |s.pcs| && Next(s, t, Go) != None;
    assert Next(s, t, Go).Some? && !s.pcs[t].Idle?;
  }

  /** An upper bound on the steps left in the call a thread is in. */
  function Left(pc: Pc): nat
  {
    match pc
    case Idle => 0
    case WaitGate => 13 case EnterLoad => 12 case EnterStore(_) => 11 case EnterPost => 10 case Queued => 9
    case CleanLock(_) => 8 case CleanIn(_) => 7
    case AdjustGate => 6 case AdjustSub => 5 case AdjustPost => 4 case AdjustZero => 3
    case CleanUnlock(_) => 2 case OpenGate => 1
    case SigLock(_) => 6 case SigTest(_) => 5 case SigGate(_) => 4 case SigClose(_) => 3
    case SigUnlock(_) => 2 case SigPost(_) => 1
    case DestGate => 3 case DestTry => 2 case DestCheck => 1
  }

  lemma WaiterLeftDrops(s: State, t: nat, a: Action, s': State)
    requires t < |s.pcs| && Next(s, t, a) == Some(s') && (a.Go? || a.GiveUp?)
    requires RoleOf(s.pcs[t]).Entering? || RoleOf(s.pcs[t]).Cleaning? || RoleOf(s.pcs[t]).Adjusts?
    ensures t < |s'.pcs| && Left(s'.pcs[t]) < Left(s.pcs[t])
  {
  }

  lemma SignallerLeftDrops(s: State, t: nat, a: Action, s': State)
    requires t < |s.pcs| && Next(s, t, a) == Some(s') && (a.Go? || a.GiveUp?)
    requires RoleOf(s.pcs[t]).Signalling? || RoleOf(s.pcs[t]).Closing? || RoleOf(s.pcs[t]).Destroying?
    ensures t < |s'.pcs| && Left(s'.pcs[t]) < Left(s.pcs[t])
  {
  }

  /** Every step inside a call uses up work, so calls in progress cannot go on for ever. */
  lemma StepUsesWork(s: State, t: nat, a: Action)
    requires t < |s.pcs| && Next(s, t, a).Some? && (a.Go? || a.GiveUp?)
    ensures Sum(Next(s, t, a).value.pcs, Left) < Sum(s.pcs, Left)
  {
    var s' := Next(s, t, a).value;
    if RoleOf(s.pcs[t]).Entering? || RoleOf(s.pcs[t]).Cleaning? || RoleOf(s.pcs[t]).Adjusts? {
      WaiterLeftDrops(s, t, a, s');
    } else {
      assert !s.pcs[t].Idle?;
      SignallerLeftDrops(s, t, a, s');
    }
    OthersStay(s, t, a);
    SumUpdate(s.pcs, t, s'.pcs[t], Left);
  }

  ghost predicate Proceeds(s: State, s': State)
  {
    exists t: nat, a :: t < |s.pcs| && (a == Go || a == GiveUp) && Next(s, t, a) == Some(s')
  }

  /** With no new calls, a run is no longer than 13 steps a thread; and when it can go no further, every
      promised wake-up has been delivered, unless the variable was destroyed on the way. */
  lemma {:induction false} CallsRunOut(run: seq<State>)
    requires run != [] && Inv(run[0]) && forall i :: 0 <= i < |run| - 1 ==> Proceeds(run[i], run[i + 1])
    ensures |run| - 1 <= Sum(run[0].pcs, Left) <= 13 * |run[0].pcs|
    ensures var last := run[|run| - 1];
      Inv(last) && (Stuck(last) && last.alive ==> last.mtx == None && last.gate == 1 && last.toUnblock == 0)
  {
    SumBound(run[0].pcs, Left, 13);
    for i := 1 to |run|
      invariant i - 1 + Sum(run[i - 1].pcs, Left) <= Sum(run[0].pcs, Left) && Inv(run[i - 1])
    {
      assert Proceeds(run[i - 1], run[i - 1 + 1]);
      var t: nat, a :| t < |run[i - 1].pcs| && (a == Go || a == GiveUp) && Next(run[i - 1], t, a) == Some(run[i]);
      StepUsesWork(run[i - 1], t, a);
      StepKeepsInv(run[i - 1], t, a);
    }
    if Stuck(run[|run| - 1]) && run[|run| - 1].alive { StuckIsSettled(run[|run| - 1]); }
  }

  // ---- What a signal and a broadcast promise -------------------------------

  /** The step at which a signal or broadcast makes its choice, no-ops included. */
  predicate Decides(s: State, t: nat, all: bool)
    requires t < |s.pcs|
  {
    s.alive && ((s.pcs[t] == SigTest(all) && (s.toUnblock != 0 || s.blocked <= s.gone)) || s.pcs[t] == SigClose(all))
  }

  /** A broadcast leaves every registered waiter owed a wake-up; a signal leaves one more owed, if
      there is one that is not. Both issue exactly as many units as they add. */
  lemma DecisionOwes(s: State, t: nat, all: bool)
    requires Inv(s) && t < |s.pcs| && Decides(s, t, all)
    ensures var s' := Step(s, t).value;
      && Step(s, t).Some? && Waiters(s') == Waiters(s)
      && s'.toUnblock == (if all then Waiters(s) else if s.toUnblock < Waiters(s) then s.toUnblock + 1 else s.toUnblock)
      && s'.pcs[t] == SigUnlock(s'.toUnblock - s.toUnblock)
      && (s'.toUnblock > 0 ==> s'.gone == 0 && s'.blocked == Waiters(s') - s'.toUnblock)
  {
    StepFacts(s, t, Go);
  }

  ghost function WaiterSet(s: State): set<nat>
  {
    set t: nat | t < |s.pcs| && Registered(s.pcs[t]) == 1
  }

  lemma NoWaiters(s: State)
    requires Waiters(s) == 0
    ensures WaiterSet(s) == {}
  {
    forall t: nat | t < |s.pcs| ensures Registered(s.pcs[t]) == 0 { SumIncludes(s.pcs, t, Registered); }
  }

  /** While any wake-up is owed, nobody new can register. */
  lemma ClosedGateAdmitsNobody(s: State, t: nat, a: Action)
    requires Inv(s) && t < |s.pcs| && Next(s, t, a).Some? && s.toUnblock > 0
    ensures WaiterSet(Next(s, t, a).value) <= WaiterSet(s)
  {
    OthersStay(s, t, a);
    if s.alive && OwnsGate(s.pcs[t]) == 1 { OneGateOwner(s, t, t); }
  }

  /** A broadcast reaches everyone: from its decision until the wake-ups it owes have drained, the
      waiters are only ones that were there, every one of them still owed; when they have drained,
      every one has gone. */
  lemma {:induction false} BroadcastDrains(run: seq<State>)
    requires run != [] && Run(run) && Inv(run[0])
    requires run[0].toUnblock == Waiters(run[0])
    requires forall i :: 0 <= i < |run| - 1 ==> run[i].toUnblock > 0
    ensures forall i :: 0 <= i < |run| ==> WaiterSet(run[i]) <= WaiterSet(run[0])
    ensures forall i :: 0 <= i < |run| ==> run[i].toUnblock == Waiters(run[i])
    ensures run[|run| - 1].toUnblock == 0 ==> WaiterSet(run[|run| - 1]) == {}
  {
    for i := 1 to |run|
      invariant Inv(run[i - 1])
      invariant forall j :: 0 <= j < i ==> WaiterSet(run[j]) <= WaiterSet(run[0]) && run[j].toUnblock == Waiters(run[j])
    {
      var s := run[i - 1];
      assert Moves(s, run[i - 1 + 1]);
      var t: nat, a :| t < |s.pcs| && Next(s, t, a) == Some(run[i]);
      StepKeepsInv(s, t, a);
      ClosedGateAdmitsNobody(s, t, a);
      OwedStaysEveryone(s, t, a);
    }
    var last := run[|run| - 1];
    if last.toUnblock == 0 { NoWaiters(last); }
  }

  lemma OwedStaysEveryone(s: State, t: nat, a: Action)
    requires Inv(s) && t < |s.pcs| && Next(s, t, a).Some? && 0 < s.toUnblock == Waiters(s)
    ensures Next(s, t, a).value.toUnblock == Waiters(Next(s, t, a).value)
  {
    StepFacts(s, t, a);
    NobodyAdjusts(s);
  }

  // ---- Destroy and machine integers ---------------------------------------

  /** A condition variable is freed only when no waiter is registered, no thread owes the gate a post
      and nobody else holds the mutex or the gate; a refused destroy gives the gate back and changes
      no counter. */
  lemma DestroyIsSafe(s: State, t: nat, a: Action)
    requires Inv(s) && t < |s.pcs| && Next(s, t, a).Some? && s.alive
    ensures !Next(s, t, a).value.alive ==>
      && s.pcs[t].DestCheck? && Waiters(s) == 0 && s.toUnblock == 0 && s.gate == 0
      && forall u :: 0 <= u < |s.pcs| && u != t ==>
        OwnsGate(s.pcs[u]) == 0 && !HoldsMtx(s.pcs[u]) && Registered(s.pcs[u]) == 0
    ensures
      (s.pcs[t].DestTry? || s.pcs[t].DestCheck?) && Next(s, t, a).value.alive && Next(s, t, a).value.pcs[t].Idle? ==>
      Next(s, t, a).value == s.At(t, Idle).(gate := 1, mtx := Next(s, t, a).value.mtx)
  {
    StepFacts(s, t, a);
    if !Next(s, t, a).value.alive {
      forall u | 0 <= u < |s.pcs| && u != t
        ensures OwnsGate(s.pcs[u]) == 0 && !HoldsMtx(s.pcs[u]) && Registered(s.pcs[u]) == 0
      {
        OneGateOwner(s, t, u);
        assert HoldsMtx(s.pcs[u]) <==> s.mtx == Some(u);
        SumIncludes(s.pcs, u, Registered);
      }
    }
  }

  /** Destroy is refused exactly when the mutex is held, or, the mutex being free, a waiter is registered:
      what it asks of the counters is whether anybody waits. */
  lemma RefusedIffInUse(s: State, t: nat)
    requires Inv(s) && s.alive && t < |s.pcs|
    ensures s.pcs[t].DestTry? ==> (Step(s, t).value.pcs[t].Idle? <==> s.mtx.Some?) && s.mtx != Some(t)
    ensures s.pcs[t].DestCheck? ==> (Step(s, t).value.alive <==> WaiterSet(s) != {}) && Step(s, t).value.pcs[t].Idle?
  {
    hide Waiters;
    assert HoldsMtx(s.pcs[t]) <==> s.mtx == Some(t);
    if s.pcs[t].DestCheck? {
      CheckAsks(s, t);
      WaitersAreMembers(s);
    }
  }

  lemma CheckAsks(s: State, t: nat)
    requires Inv(s) && s.alive && t < |s.pcs| && s.pcs[t].DestCheck?
    ensures s.blocked - s.gone == Waiters(s)
  {
    StepFacts(s, t, Go);
  }

  lemma WaitersAreMembers(s: State)
    ensures Waiters(s) > 0 <==> WaiterSet(s) != {}
  {
    if Waiters(s) > 0 {
      var w := SumWitness(s.pcs, Registered);
      assert w in WaiterSet(s);
    } else {
      NoWaiters(s);
    }
  }

  /** At the beginning of a call, before its first operation on the condition variable, or in none. */
  predicate AtDoor(pc: Pc) { pc.Idle? || pc.WaitGate? || pc.SigLock? || pc.DestGate? }

  /** When a condition variable is freed, no other thread is past the beginning of a call if and only
      if no signaller has left the mutex with its units still to post. */
  lemma FreedQuietly(s: State, t: nat, a: Action)
    requires Inv(s) && t < |s.pcs| && Next(s, t, a).Some? && s.alive && !Next(s, t, a).value.alive
    ensures (forall u :: 0 <= u < |s.pcs| && u != t ==> AtDoor(s.pcs[u])) <==>
      (forall u :: 0 <= u < |s.pcs| ==> !s.pcs[u].SigPost?)
  {
    DestroyIsSafe(s, t, a);
    forall u | 0 <= u < |s.pcs| && u != t ensures AtDoor(s.pcs[u]) <==> !s.pcs[u].SigPost? {
      assert OwnsGate(s.pcs[u]) == 0 && !HoldsMtx(s.pcs[u]) && Registered(s.pcs[u]) == 0;
    }
  }

  /** A run, one step further. */
  lemma Played(run: seq<State>, t: nat, a: Action) returns (longer: seq<State>)
    requires run != [] && Run(run) && t < |run[|run| - 1].pcs| && Next(run[|run| - 1], t, a).Some?
    ensures longer != [] && longer[0] == run[0] && Run(longer)
    ensures longer[|longer| - 1] == Next(run[|run| - 1], t, a).value
  {
    longer := run + [Next(run[|run| - 1], t, a).value];
    forall i | 0 <= i < |longer| - 1 ensures Moves(longer[i], longer[i + 1]) {
      if i < |run| - 1 { assert Moves(run[i], run[i + 1]); }
    }
  }

  lemma OneWaits() returns (run: seq<State>)
    ensures run != [] && Init(run[0]) && Run(run)
    ensures run[|run| - 1] == State(1, 0, 0, 1, 0, None, true, [Queued, Idle, Idle])
  {
    hide Run;
    run := [State(0, 0, 0, 1, 0, None, true, [Idle, Idle, Idle])];
    assert Run(run) by { NoMoves(run); }
    run := Played(run, 0, Wait);
    run := Played(run, 0, Go);
    run := Played(run, 0, Go);
    run := Played(run, 0, Go);
    run := Played(run, 0, Go);
  }

  lemma NoMoves(run: seq<State>)
    requires |run| == 1
    ensures Run(run)
  {
  }

  lemma OneSignals(before: seq<State>) returns (run: seq<State>)
    requires before != [] && Run(before)
    requires before[|before| - 1] == State(1, 0, 0, 1, 0, None, true, [Queued, Idle, Idle])
    ensures run != [] && run[0] == before[0] && Run(run)
    ensures run[|run| - 1] == State(0, 0, 1, 0, 0, None, true, [Queued, SigPost(1), Idle])
  {
    hide Run;
    run := Played(before, 1, Signal(false));
    run := Played(run, 1, Go);
    run := Played(run, 1, Go);
    run := Played(run, 1, Go);
    run := Played(run, 1, Go);
    run := Played(run, 1, Go);
  }

  lemma OneTimesOut(before: seq<State>) returns (run: seq<State>)
    requires before != [] && Run(before)
    requires before[|before| - 1] == State(0, 0, 1, 0, 0, None, true, [Queued, SigPost(1), Idle])
    ensures run != [] && run[0] == before[0] && Run(run)
    ensures run[|run| - 1] == State(0, 0, 0, 1, 0, None, true, [Idle, SigPost(1), Idle])
  {
    hide Run;
    run := Played(before, 0, GiveUp);
    run := Played(run, 0, Go);
    run := Played(run, 0, Go);
    run := Played(run, 0, Go);
    run := Played(run, 0, Go);
  }

  lemma OneDestroys(before: seq<State>) returns (run: seq<State>)
    requires before != [] && Run(before)
    requires before[|before| - 1] == State(0, 0, 0, 1, 0, None, true, [Idle, SigPost(1), Idle])
    ensures run != [] && run[0] == before[0] && Run(run)
    ensures !run[|run| - 1].alive && run[|run| - 1].pcs == [Idle, SigPost(1), Idle]
  {
    hide Run;
    run := Played(before, 2, Destroy);
    run := Played(run, 2, Go);
    run := Played(run, 2, Go);
    run := Played(run, 2, Go);
  }

  /** It does happen otherwise: a signal chooses a waiter that times out, counts itself out and opens
      the gate; the variable is destroyed; and only then would the signaller come to post. */
  lemma FreedBeforePost() returns (run: seq<State>, signaller: nat)
    ensures run != [] && Init(run[0]) && Run(run) && !run[|run| - 1].alive
    ensures signaller < |run[|run| - 1].pcs| && run[|run| - 1].pcs[signaller].SigPost?
  {
    hide *;
    run := OneWaits();
    run := OneSignals(run);
    run := OneTimesOut(run);
    run := OneDestroys(run);
    signaller := 1;
  }

  /** With no more threads than half the range, the counters stay inside the C `int` they are kept in. */
  lemma CountersFit(s: State)
    requires Inv(s) && |s.pcs| <= INT_MAX - ADJUST_AT
    ensures 0 <= s.blocked <= INT_MAX && 0 <= s.toUnblock <= INT_MAX && 0 <= s.gone <= INT_MAX
  {
    SumBound(s.pcs, Registered, 1);
  }
}
