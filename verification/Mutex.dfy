/** The non-robust mutex of pthreads-win32, as a step relation over any number of threads: a
    three-valued `lock_idx` moved by atomic exchange, and an auto-reset event that contenders wait on. */
module Mutex {
  import opened Common
  import opened Counting

  datatype Kind = Normal | Recursive | ErrorCheck

  datatype Ret = Ok | Deadlock | Busy | NotOwner | TimedOut

  datatype Pc =
    | Idle
    // lock and timedlock
    | LockXchg(timed: bool)    // about to exchange 1 (normal kind)
    | LockCas(timed: bool)     // about to compare-exchange 0 for 1 (other kinds)
    | LockOwner(timed: bool)   // about to compare the owner with itself
    | Contend(timed: bool)     // about to exchange -1
    | Blocked(timed: bool)     // waiting on the event
    | TakeCount | TakeOwner    // acquired; about to write the count, then the owner
    | Bump                     // owner; about to add one to the count
    // trylock
    | TryCas | TryOwner
    // unlock
    | FreeOwner | FreeCount | FreeClear | FreeXchg
    | FreeSignal               // released a mutex marked -1; about to set the event

  /** `depth` is how many times the thread holds the mutex; `ret` is what its last call returned. */
  datatype Thread = Thread(pc: Pc, depth: nat, ret: Ret)

  datatype State = State(kind: Kind, idx: int, event: bool, owner: Option<nat>, count: int, th: seq<Thread>)
  {
    function At(t: nat, pc: Pc): State
      requires t < |th|
    {
      this.(th := th[t := th[t].(pc := pc)])
    }

    /** The call ends with `r`, the thread holding the mutex `depth` times. */
    function Return(t: nat, depth: nat, r: Ret): State
      requires t < |th|
    {
      this.(th := th[t := Thread(Idle, depth, r)])
    }

    /** The exchange found the mutex free: the thread holds it, and goes on to note that where the kind asks. */
    function Acquire(t: nat): State
      requires t < |th|
    {
      if kind.Normal? then Return(t, 1, Ok) else this.(th := th[t := Thread(TakeCount, 1, th[t].ret)])
    }
  }

  datatype Action = Lock(timed: bool) | TryLock | Unlock | Go | TimeOut

  /** A normal mutex is unlocked only by its holder: the source leaves anything else to the caller. */
  function Next(s: State, t: nat, a: Action): Option<State>
    requires t < |s.th|
  {
    match a
    case Lock(timed) =>
      if !s.th[t].pc.Idle? then None
      else Some(s.At(t, if s.kind.Normal? then LockXchg(timed) else LockCas(timed)))
    case TryLock => if s.th[t].pc.Idle? then Some(s.At(t, TryCas)) else None
    case Unlock =>
      if !s.th[t].pc.Idle? then None
      else if !s.kind.Normal? then Some(s.At(t, FreeOwner))
      else if s.th[t].depth > 0 then Some(s.At(t, FreeXchg))
      else None
    case TimeOut => if s.th[t].pc == Blocked(true) then Some(s.Return(t, s.th[t].depth, TimedOut)) else None
    case Go => Step(s, t)
  }

  function Step(s: State, t: nat): Option<State>
    requires t < |s.th|
  {
    var depth := s.th[t].depth;
    match s.th[t].pc
    case Idle => None
    case LockXchg(timed) => Some(if s.idx == 0 then s.Acquire(t).(idx := 1) else s.At(t, Contend(timed)).(idx := 1))
    case LockCas(timed) => Some(if s.idx == 0 then s.Acquire(t).(idx := 1) else s.At(t, LockOwner(timed)))
    case LockOwner(timed) =>
      Some(if s.owner != Some(t) then s.At(t, Contend(timed))
           else if s.kind.Recursive? then s.At(t, Bump)
           else s.Return(t, depth, Deadlock))
    case Contend(timed) => Some(if s.idx == 0 then s.Acquire(t).(idx := -1) else s.At(t, Blocked(timed)).(idx := -1))
    case Blocked(timed) => if s.event then Some(s.At(t, Contend(timed)).(event := false)) else None
    case TakeCount => Some(s.At(t, TakeOwner).(count := 1))
    case TakeOwner => Some(s.Return(t, depth, Ok).(owner := Some(t)))
    case Bump => Some(s.Return(t, depth + 1, Ok).(count := s.count + 1))
    case TryCas => Some(if s.idx == 0 then s.Acquire(t).(idx := 1) else s.At(t, TryOwner))
    case TryOwner =>
      Some(if s.kind.Recursive? && s.owner == Some(t) then s.At(t, Bump) else s.Return(t, depth, Busy))
    case FreeOwner =>
      Some(if s.owner != Some(t) then s.Return(t, depth, NotOwner)
           else s.At(t, if s.kind.Recursive? then FreeCount else FreeClear))
    case FreeCount =>
      var s' := s.(count := s.count - 1);
      Some(if s'.count == 0 then s'.At(t, FreeClear) else s'.Return(t, if depth > 0 then depth - 1 else 0, Ok))
    case FreeClear => Some(s.At(t, FreeXchg).(owner := None))
    case FreeXchg =>
      Some(if s.idx < 0 then s.(idx := 0, th := s.th[t := Thread(FreeSignal, 0, s.th[t].ret)])
           else s.Return(t, 0, Ok).(idx := 0))
    case FreeSignal => Some(s.Return(t, depth, Ok).(event := true))
  }

  ghost predicate Init(s: State)
  {
    s.idx == 0 && !s.event && s.owner == None && s.count == 0 &&
    forall t :: 0 <= t < |s.th| ==> s.th[t].pc.Idle? && s.th[t].depth == 0
  }

  ghost predicate Moves(s: State, s': State)
  {
    exists t: nat, a :: t < |s.th| && Next(s, t, a) == Some(s')
  }

  ghost predicate Run(run: seq<State>)
  {
    forall i :: 0 <= i < |run| - 1 ==> Moves(run[i], run[i + 1])
  }

  // ---- Exclusion ----------------------------------------------------------

  function Holds(th: Thread): nat { if th.depth > 0 then 1 else 0 }

  /** `lock_idx` is 0 exactly when nobody holds the mutex, and otherwise exactly one thread does. */
  ghost predicate IndexTells(s: State)
  {
    -1 <= s.idx <= 1 && Sum(s.th, Holds) == (if s.idx == 0 then 0 else 1)
  }

  predicate NotesOwner(pc: Pc) { pc.TakeCount? || pc.TakeOwner? || pc.FreeXchg? }

  /** The owner field names the holder, but for the moments of taking and of giving up. */
  ghost predicate OwnerTells(s: State)
  {
    && (s.kind.Normal? ==> s.owner == None)
    && (!s.kind.Normal? ==> forall t :: 0 <= t < |s.th| ==>
          (s.owner == Some(t) <==> s.th[t].depth > 0 && !NotesOwner(s.th[t].pc)))
  }

  /** The count is the holder's depth, and each point of the code is reached with the right depth. */
  predicate LocalInv(s: State, th: Thread)
  {
    && (s.kind.Recursive? && th.depth > 0 && !th.pc.TakeCount? && !th.pc.FreeClear? && !th.pc.FreeXchg? ==>
          s.count == th.depth)
    && (!s.kind.Recursive? ==> th.depth <= 1)
    && match th.pc
       case LockXchg(_) => s.kind.Normal?
       case LockCas(_) => !s.kind.Normal?
       case LockOwner(_) => !s.kind.Normal?
       case Contend(_) => !s.kind.Normal? ==> th.depth == 0
       case Blocked(_) => !s.kind.Normal? ==> th.depth == 0
       case TakeCount => !s.kind.Normal? && th.depth == 1
       case TakeOwner => !s.kind.Normal? && th.depth == 1
       case Bump => s.kind.Recursive? && th.depth > 0
       case FreeOwner => !s.kind.Normal?
       case FreeCount => s.kind.Recursive? && th.depth > 0
       case FreeClear => !s.kind.Normal? && th.depth == 1
       case FreeXchg => th.depth == 1
       case FreeSignal => th.depth == 0
       case _ => true
  }

  ghost predicate AllLocal(s: State)
  {
    forall t :: 0 <= t < |s.th| ==> LocalInv(s, s.th[t])
  }

  /** A thread that waits on the event is not forgotten: the mutex is marked, or the event is set, or
      some thread is about to mark the mutex or to set the event. */
  ghost predicate NotStranded(s: State)
  {
    (exists t :: 0 <= t < |s.th| && s.th[t].pc.Blocked?) ==>
      s.idx == -1 || s.event || exists t :: 0 <= t < |s.th| && (s.th[t].pc.Contend? || s.th[t].pc.FreeSignal?)
  }

  ghost predicate Inv(s: State)
  {
    IndexTells(s) && OwnerTells(s) && AllLocal(s) && NotStranded(s)
  }

  lemma InitHasInv(s: State)
    requires Init(s)
    ensures Inv(s)
  {
    SumZero(s.th, Holds);
  }

  lemma MutualExclusion(s: State, t: nat, u: nat)
    requires IndexTells(s) && t < |s.th| && u < |s.th| && s.th[t].depth > 0 && s.th[u].depth > 0
    ensures t == u && s.idx != 0
  {
    SumIncludes(s.th, t, Holds);
    if t < u { SumIncludesTwo(s.th, t, u, Holds); }
    if u < t { SumIncludesTwo(s.th, u, t, Holds); }
  }

  lemma FreeMeansNobody(s: State, t: nat)
    requires IndexTells(s) && t < |s.th| && s.idx == 0
    ensures s.th[t].depth == 0
  {
    SumIncludes(s.th, t, Holds);
  }

  predicate Freeing(pc: Pc)
  {
    pc.FreeOwner? || pc.FreeCount? || pc.FreeClear? || pc.FreeXchg? || pc.FreeSignal? || pc.Idle?
  }

  lemma LockingMovesOne(s: State, t: nat, a: Action, s': State)
    requires t < |s.th| && Next(s, t, a) == Some(s') && !Freeing(s.th[t].pc)
    ensures |s'.th| == |s.th| && s'.kind == s.kind
    ensures forall u :: 0 <= u < |s.th| && u != t ==> s'.th[u] == s.th[u]
  {
  }

  lemma FreeingMovesOne(s: State, t: nat, a: Action, s': State)
    requires t < |s.th| && Next(s, t, a) == Some(s') && Freeing(s.th[t].pc)
    ensures |s'.th| == |s.th| && s'.kind == s.kind
    ensures forall u :: 0 <= u < |s.th| && u != t ==> s'.th[u] == s.th[u]
  {
  }

  lemma OthersStay(s: State, t: nat, a: Action, s': State)
    requires t < |s.th| && Next(s, t, a) == Some(s')
    ensures |s'.th| == |s.th| && s'.kind == s.kind
    ensures forall u :: 0 <= u < |s.th| && u != t ==> s'.th[u] == s.th[u]
  {
    if Freeing(s.th[t].pc) { FreeingMovesOne(s, t, a, s'); } else { LockingMovesOne(s, t, a, s'); }
  }

  lemma ThreadsUpdated(s: State, t: nat, a: Action, s': State)
    requires t < |s.th| && Next(s, t, a) == Some(s')
    ensures |s'.th| == |s.th| && s'.th == s.th[t := s'.th[t]] && s'.kind == s.kind
  {
    OthersStay(s, t, a, s');
  }

  lemma StepKeepsIndex(s: State, t: nat, a: Action, s': State)
    requires Inv(s) && t < |s.th| && Next(s, t, a) == Some(s')
    ensures IndexTells(s')
  {
    ThreadsUpdated(s, t, a, s');
    SumUpdate(s.th, t, s'.th[t], Holds);
    assert LocalInv(s, s.th[t]);
    if s.idx == 0 { FreeMeansNobody(s, t); }
    if s.th[t].depth > 0 { MutualExclusion(s, t, t); }
  }

  lemma StepKeepsOwner(s: State, t: nat, a: Action, s': State)
    requires Inv(s) && t < |s.th| && Next(s, t, a) == Some(s')
    ensures OwnerTells(s')
  {
    ThreadsUpdated(s, t, a, s');
    assert LocalInv(s, s.th[t]);
    if s.idx == 0 { FreeMeansNobody(s, t); }
    if !s.kind.Normal? {
      forall u | 0 <= u < |s.th|
        ensures s'.owner == Some(u) <==> s'.th[u].depth > 0 && !NotesOwner(s'.th[u].pc)
      {
        assert LocalInv(s, s.th[u]);
        assert s.owner == Some(u) <==> s.th[u].depth > 0 && !NotesOwner(s.th[u].pc);
        assert s.owner == Some(t) <==> s.th[t].depth > 0 && !NotesOwner(s.th[t].pc);
        if s.th[t].depth > 0 && s.th[u].depth > 0 { MutualExclusion(s, t, u); }
      }
    }
  }

  /** The count changes only under its holder. */
  lemma CountMoves(s: State, t: nat, a: Action, s': State)
    requires t < |s.th| && Next(s, t, a) == Some(s') && LocalInv(s, s.th[t])
    ensures s'.kind == s.kind && (s'.count != s.count ==> s.th[t].depth > 0)
  {
  }

  lemma OwnLocal(s: State, t: nat, a: Action, s': State)
    requires t < |s.th| == |s'.th| && Next(s, t, a) == Some(s') && LocalInv(s, s.th[t])
    requires s.idx == 0 ==> s.th[t].depth == 0
    requires !s.kind.Normal? ==> (s.owner == Some(t) <==> s.th[t].depth > 0 && !NotesOwner(s.th[t].pc))
    ensures LocalInv(s', s'.th[t])
  {
  }

  lemma StepKeepsLocal(s: State, t: nat, a: Action, s': State)
    requires Inv(s) && t < |s.th| && Next(s, t, a) == Some(s')
    ensures AllLocal(s')
  {
    hide Next;
    hide NotStranded;
    hide NotesOwner;
    OthersStay(s, t, a, s');
    assert LocalInv(s, s.th[t]);
    if s.idx == 0 { FreeMeansNobody(s, t); }
    assert !s.kind.Normal? ==> (s.owner == Some(t) <==> s.th[t].depth > 0 && !NotesOwner(s.th[t].pc));
    OwnLocal(s, t, a, s');
    CountMoves(s, t, a, s');
    forall u | 0 <= u < |s.th| ensures LocalInv(s', s'.th[u]) {
      assert LocalInv(s, s.th[u]);
      if s.th[t].depth > 0 && s.th[u].depth > 0 { MutualExclusion(s, t, u); }
    }
  }

  /** What a thread's own step does for the ones that wait: it never takes away the mark or the event
      without taking on, itself, to mark the mutex or to set the event. */
  lemma TakesOn(s: State, t: nat, a: Action, s': State)
    requires t < |s.th| && Next(s, t, a) == Some(s') && |s'.th| == |s.th|
    ensures s'.th[t].pc.Blocked? ==> s'.idx == -1
    ensures s.idx == -1 || s.event || s.th[t].pc.Contend? || s.th[t].pc.FreeSignal? ==>
      s'.idx == -1 || s'.event || s'.th[t].pc.Contend? || s'.th[t].pc.FreeSignal?
  {
  }

  lemma StepKeepsNotStranded(s: State, t: nat, a: Action, s': State)
    requires Inv(s) && t < |s.th| && Next(s, t, a) == Some(s')
    ensures NotStranded(s')
  {
    OthersStay(s, t, a, s');
    TakesOn(s, t, a, s');
    if u :| 0 <= u < |s'.th| && s'.th[u].pc.Blocked? && s'.idx != -1 {
      assert s.th[u].pc.Blocked?;
      if w :| 0 <= w < |s.th| && (s.th[w].pc.Contend? || s.th[w].pc.FreeSignal?) && w != t {
        assert s'.th[w] == s.th[w];
      }
    }
  }

  lemma StepKeepsInv(s: State, t: nat, a: Action, s': State)
    requires Inv(s) && t < |s.th| && Next(s, t, a) == Some(s')
    ensures Inv(s')
  {
    StepKeepsIndex(s, t, a, s');
    StepKeepsOwner(s, t, a, s');
    StepKeepsLocal(s, t, a, s');
    StepKeepsNotStranded(s, t, a, s');
  }

  // ---- Every run ----------------------------------------------------------

  /** Safety: over every run, with any number of threads and lock, timedlock, trylock and unlock mixed
      in any order, at most one thread holds the mutex, `lock_idx` tells whether one does, the owner
      field and the count tell which and how often, and no waiting thread is forgotten. */
  lemma {:induction false} RunsKeepInv(run: seq<State>)
    requires run != [] && Init(run[0]) && Run(run)
    ensures forall i :: 0 <= i < |run| ==> Inv(run[i])
  {
    InitHasInv(run[0]);
    for i := 1 to |run|
      invariant forall j :: 0 <= j < i ==> Inv(run[j])
    {
      assert Moves(run[i - 1], run[i - 1 + 1]);
      var t: nat, a :| t < |run[i - 1].th| && Next(run[i - 1], t, a) == Some(run[i]);
      StepKeepsInv(run[i - 1], t, a, run[i]);
    }
  }

  ghost predicate Stuck(s: State)
  {
    forall t: nat :: t < |s.th| ==> Next(s, t, Go) == None
  }

  /** No stranded waiter: when nobody can take a step of its own, every thread is outside or waiting on
      the event, and if one waits then some thread does hold the mutex. */
  lemma StuckMeansHeld(s: State)
    requires Inv(s) && Stuck(s)
    ensures forall t :: 0 <= t < |s.th| ==> s.th[t].pc.Idle? || (s.th[t].pc.Blocked? && !s.event)
    ensures (exists t :: 0 <= t < |s.th| && s.th[t].pc.Blocked?) ==>
      s.idx == -1 && exists h :: 0 <= h < |s.th| && s.th[h].depth > 0
  {
    forall t | 0 <= t < |s.th| ensures s.th[t].pc.Idle? || (s.th[t].pc.Blocked? && !s.event) {
      assert Next(s, t, Go) == None;
    }
    if s.idx == -1 {
      var h := SumWitness(s.th, Holds);
    }
  }

  /** When the mutex is free and somebody waits, somebody can move. */
  lemma FreeMutexWakesSomeone(s: State)
    requires Inv(s) && s.idx == 0 && exists t :: 0 <= t < |s.th| && s.th[t].pc.Blocked?
    ensures exists t: nat :: t < |s.th| && Next(s, t, Go).Some?
  {
    if Stuck(s) { StuckMeansHeld(s); }
  }

  // ---- Kinds --------------------------------------------------------------

  /** The answers are exact: a call is refused as a deadlock, or let in again, exactly when the caller
      holds the mutex already; an unlock is refused exactly when the caller does not hold it. */
  lemma OwnerChecksAreExact(s: State, t: nat)
    requires Inv(s) && t < |s.th|
    ensures s.th[t].pc.LockOwner? ==> var s' := Step(s, t).value;
      if s.th[t].depth == 0 then s'.th[t].pc.Contend?
      else if s.kind.Recursive? then s'.th[t].pc.Bump?
      else s'.th[t] == Thread(Idle, 1, Deadlock) && s' == s.(th := s'.th)
    ensures s.th[t].pc.TryOwner? ==> var s' := Step(s, t).value;
      if s.kind.Recursive? && s.th[t].depth > 0 then s'.th[t].pc.Bump?
      else s'.th[t] == Thread(Idle, s.th[t].depth, Busy) && s' == s.(th := s'.th)
    ensures s.th[t].pc.FreeOwner? ==> var s' := Step(s, t).value;
      if s.th[t].depth > 0 then s'.th[t].pc.FreeCount? || s'.th[t].pc.FreeClear?
      else s'.th[t] == Thread(Idle, 0, NotOwner) && s' == s.(th := s'.th)
  {
    assert LocalInv(s, s.th[t]);
    assert !s.kind.Normal? ==> (s.owner == Some(t) <==> s.th[t].depth > 0 && !NotesOwner(s.th[t].pc));
  }

  /** A recursive mutex is given up by the unlock that matches the first lock, and by no earlier one. */
  lemma LastUnlockReleases(s: State, t: nat)
    requires Inv(s) && t < |s.th| && s.th[t].pc.FreeCount?
    ensures var s' := Step(s, t).value;
      if s.th[t].depth == 1 then s'.th[t].pc.FreeClear?
      else s'.th[t] == Thread(Idle, s.th[t].depth - 1, Ok) && s'.idx == s.idx && s'.owner == Some(t)
  {
    assert LocalInv(s, s.th[t]);
    assert s.owner == Some(t) <==> s.th[t].depth > 0 && !NotesOwner(s.th[t].pc);
  }

  /** The step with which a call ends. */
  predicate Returns(s: State, t: nat, a: Action, s': State)
  {
    t < |s.th| == |s'.th| && Next(s, t, a) == Some(s') && s'.th[t].pc.Idle? && !s.th[t].pc.Idle?
  }

  /** The step with which a call is refused or times out leaves the caller's hold, the index, the owner
      and the event as they were. */
  lemma RefusalChangesNothing(s: State, t: nat, a: Action, s': State)
    requires Inv(s) && Returns(s, t, a, s') && s'.th[t].ret != Ok
    ensures s'.th[t].depth == s.th[t].depth && s'.idx == s.idx && s'.owner == s.owner && s'.event == s.event
  {
    match s.th[t].pc
    case LockOwner(_) =>
    case TryOwner =>
    case Blocked(_) =>
    case FreeOwner =>
    case _ => OthersReturnOk(s, t, a, s');
  }

  lemma OthersReturnOk(s: State, t: nat, a: Action, s': State)
    requires Returns(s, t, a, s')
    requires !s.th[t].pc.LockOwner? && !s.th[t].pc.TryOwner? && !s.th[t].pc.Blocked? && !s.th[t].pc.FreeOwner?
    ensures s'.th[t].ret == Ok
  {
  }

  /** Lock, timedlock and trylock return success only to a thread that then holds the mutex alone. */
  lemma SuccessMeansHeld(s: State, t: nat, a: Action, s': State)
    requires Inv(s) && Returns(s, t, a, s') && s'.th[t].ret == Ok && !Freeing(s.th[t].pc)
    ensures s'.th[t].depth > 0 && s'.idx != 0
    ensures forall u :: 0 <= u < |s'.th| && u != t ==> s'.th[u].depth == 0
  {
    StepKeepsIndex(s, t, a, s');
    assert LocalInv(s, s.th[t]);
    forall u | 0 <= u < |s'.th| && (s'.th[u].depth > 0 || u == t) ensures u == t && s'.idx != 0 {
      MutualExclusion(s', t, u);
    }
  }

  // ---- Refused calls --------------------------------------------------------

  /** Inside a call that has neither acquired nor given up anything yet. */
  predicate Undecided(pc: Pc)
  {
    pc.LockXchg? || pc.LockCas? || pc.LockOwner? || pc.Contend? || pc.Blocked? || pc.TryCas? || pc.TryOwner? ||
      pc.FreeOwner?
  }

  lemma UndecidedStep(s: State, t: nat, a: Action, s': State)
    requires t < |s.th| == |s'.th| && Next(s, t, a) == Some(s') && (Undecided(s.th[t].pc) || s.th[t].pc.Idle?)
    requires Undecided(s'.th[t].pc) || (s'.th[t].pc.Idle? && s'.th[t].ret != Ok)
    ensures s'.th[t].depth == s.th[t].depth && s'.owner == s.owner && (s.idx != 0 ==> s'.idx != 0)
  {
  }

  lemma DecidedStep(s: State, t: nat, a: Action, s': State)
    requires t < |s.th| == |s'.th| && Next(s, t, a) == Some(s') && !Undecided(s.th[t].pc) && !s.th[t].pc.Idle?
    ensures !Undecided(s'.th[t].pc) && (s'.th[t].pc.Idle? ==> s'.th[t].ret == Ok)
  {
  }

  /** From a call's beginning to its refusal, other threads moving in between. */
  ghost predicate RefusedCall(run: seq<State>, t: nat)
  {
    && |run| > 1 && Run(run) && (forall i :: 0 <= i < |run| ==> t < |run[i].th| == |run[0].th|)
    && (forall i :: 0 <= i < |run| ==> (run[i].th[t].pc.Idle? <==> i == 0 || i == |run| - 1))
    && run[|run| - 1].th[t].ret != Ok
  }

  lemma RefusedIsUndecided(run: seq<State>, t: nat)
    requires RefusedCall(run, t)
    ensures forall i :: 0 < i < |run| - 1 ==> Undecided(run[i].th[t].pc)
  {
    for i := |run| - 1 downto 1
      invariant forall j :: i <= j < |run| - 1 ==> Undecided(run[j].th[t].pc)
    {
      assert Moves(run[i], run[i + 1]);
      var u: nat, a :| u < |run[i].th| && Next(run[i], u, a) == Some(run[i + 1]);
      if u == t {
        if !Undecided(run[i].th[t].pc) { DecidedStep(run[i], t, a, run[i + 1]); }
      } else {
        OthersStay(run[i], u, a, run[i + 1]);
      }
    }
  }

  /** If `t` made this step: the owner stays, and a held mutex does not come to look free. */
  ghost predicate Harmless(s: State, t: nat, s': State)
  {
    t < |s.th| ==> forall a :: Next(s, t, a) == Some(s') ==> s'.owner == s.owner && (s.idx != 0 ==> s'.idx != 0)
  }

  lemma RefusedCallStep(run: seq<State>, t: nat, i: nat)
    requires RefusedCall(run, t) && i < |run| - 1
    ensures run[i + 1].th[t].depth == run[i].th[t].depth && Harmless(run[i], t, run[i + 1])
  {
    RefusedIsUndecided(run, t);
    var s, s' := run[i], run[i + 1];
    assert Undecided(s.th[t].pc) || s.th[t].pc.Idle?;
    assert Undecided(s'.th[t].pc) || (s'.th[t].pc.Idle? && s'.th[t].ret != Ok);
    assert Moves(s, s');
    hide *;
    OneStepHarmless(s, t, s');
  }

  lemma OneStepHarmless(s: State, t: nat, s': State)
    requires Moves(s, s') && t < |s.th| == |s'.th| && (Undecided(s.th[t].pc) || s.th[t].pc.Idle?)
    requires Undecided(s'.th[t].pc) || (s'.th[t].pc.Idle? && s'.th[t].ret != Ok)
    ensures s'.th[t].depth == s.th[t].depth && Harmless(s, t, s')
  {
    hide Step;
    hide Undecided;
    var u: nat, a :| u < |s.th| && Next(s, u, a) == Some(s');
    hide Next;
    if u == t { UndecidedStep(s, t, a, s'); } else { OthersStay(s, u, a, s'); }
    forall b | Next(s, t, b) == Some(s') ensures s'.owner == s.owner && (s.idx != 0 ==> s'.idx != 0) {
      UndecidedStep(s, t, b, s');
    }
  }

  /** A call that is refused or times out leaves, as a whole, the caller's hold as it was; none of its
      steps touches the owner, and none makes a held mutex look free. (It may mark it: 1 can become -1.) */
  lemma RefusedCallHoldsStill(run: seq<State>, t: nat)
    requires RefusedCall(run, t)
    ensures forall i :: 0 <= i < |run| ==> t < |run[i].th| && run[i].th[t].depth == run[0].th[t].depth
    ensures forall i, j :: 0 <= i && j == i + 1 && j < |run| ==> Harmless(run[i], t, run[j])
  {
    hide Harmless;
    for i := 0 to |run| - 1
      invariant forall j :: 0 <= j <= i ==> run[j].th[t].depth == run[0].th[t].depth
    {
      RefusedCallStep(run, t, i);
    }
    forall i, j | 0 <= i && j == i + 1 && j < |run| ensures Harmless(run[i], t, run[j]) { RefusedCallStep(run, t, i); }
  }
}
