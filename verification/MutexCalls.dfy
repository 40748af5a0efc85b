/** What the calls on a non-robust mutex promise, whatever `lock_idx`, the event and the owner field do: each
    call is answered at one of its own steps, by what is held at that moment. */
module MutexCalls {
  import opened Common
  import opened Counting
  import opened Mutex

  datatype Call = Locking(timed: bool) | Trying | Unlocking

  /** Where a thread stands, as its caller sees it: outside, with the answer to its last call; asking for
      one; or answered, the call not having returned yet. */
  datatype Place = Outside(ret: Ret) | Asked(call: Call) | Answered(ret: Ret)

  /** The answer to a call of a thread that holds the mutex `depth` times, and how often it then holds it;
      None when the caller has to wait. */
  function Verdict(kind: Kind, call: Call, free: bool, depth: nat): Option<(Ret, nat)>
  {
    match call
    case Locking(_) =>
      if free then Some((Ok, 1))
      else if depth == 0 || kind.Normal? then None
      else if kind.Recursive? then Some((Ok, depth + 1))
      else Some((Deadlock, depth))
    case Trying =>
      if free then Some((Ok, 1))
      else if kind.Recursive? && depth > 0 then Some((Ok, depth + 1))
      else Some((Busy, depth))
    case Unlocking => Some(if depth > 0 then (Ok, depth - 1) else (NotOwner, 0))
  }

  predicate Begins(a: Action) { a.Lock? || a.TryLock? || a.Unlock? }

  function CallOf(a: Action): Call
    requires Begins(a)
  {
    match a case Lock(timed) => Locking(timed) case TryLock => Trying case Unlock => Unlocking
  }

  // ---- The protocol, seen so ------------------------------------------------

  function PlaceOf(kind: Kind, th: Thread): Place
  {
    match th.pc
    case Idle => Outside(th.ret)
    case LockXchg(timed) => Asked(Locking(timed))
    case LockCas(timed) => Asked(Locking(timed))
    case LockOwner(timed) =>
      if th.depth == 0 then Asked(Locking(timed)) else Answered(if kind.Recursive? then Ok else Deadlock)
    case Contend(timed) => Asked(Locking(timed))
    case Blocked(timed) => Asked(Locking(timed))
    case TryCas => Asked(Trying)
    case TryOwner => Answered(if kind.Recursive? && th.depth > 0 then Ok else Busy)
    case FreeOwner => Asked(Unlocking)
    case FreeCount => Asked(Unlocking)
    case FreeClear => Asked(Unlocking)
    case FreeXchg => Asked(Unlocking)
    case _ => Answered(Ok)
  }

  /** How often the thread holds the mutex, once the answer it has been given takes effect. */
  function DepthOf(kind: Kind, th: Thread): nat
  {
    if th.pc.Bump? || (kind.Recursive? && th.depth > 0 && (th.pc.LockOwner? || th.pc.TryOwner?)) then th.depth + 1
    else th.depth
  }

  /** Nobody holds the mutex. */
  ghost predicate Nobody(s: State)
  {
    forall u :: 0 <= u < |s.th| ==> s.th[u].depth == 0
  }

  /** The steps of a call that look whether the mutex is to be had: the exchanges. */
  predicate Looks(pc: Pc) { pc.LockXchg? || pc.LockCas? || pc.Contend? || pc.TryCas? }

  /** The steps of an unlock that can answer it. */
  predicate Frees(pc: Pc) { pc.FreeOwner? || pc.FreeCount? || pc.FreeXchg? }

  /** A step as the callers see it. */
  ghost predicate StepMeans(s: State, t: nat, a: Action, s': State)
    requires t < |s.th| == |s'.th|
  {
    var pc := s.th[t].pc;
    var place, place' := PlaceOf(s.kind, s.th[t]), PlaceOf(s.kind, s'.th[t]);
    var depth, depth' := DepthOf(s.kind, s.th[t]), DepthOf(s.kind, s'.th[t]);
    match place
    case Outside(_) => Begins(a) && place' == Asked(CallOf(a)) && depth' == depth
    case Answered(ret) => (place' == place || place' == Outside(ret)) && depth' == depth
    case Asked(call) =>
      if a.TimeOut? then call == Locking(true) && place' == Outside(TimedOut) && depth' == depth
      else if Looks(pc) && Verdict(s.kind, call, Nobody(s), depth) == None then place' == place && depth' == depth
      else if Looks(pc) || (Frees(pc) && place' != place) then
        !place'.Asked? && Verdict(s.kind, call, Nobody(s), depth) == Some((place'.ret, depth'))
      else place' == place && depth' == depth
  }

  lemma NobodyMeansFree(s: State)
    requires IndexTells(s)
    ensures Nobody(s) <==> s.idx == 0
  {
    if s.idx == 0 {
      forall u | 0 <= u < |s.th| ensures s.th[u].depth == 0 { FreeMeansNobody(s, u); }
    } else {
      var h := SumWitness(s.th, Holds);
    }
  }

  lemma LockingMeans(s: State, t: nat, a: Action, s': State)
    requires Inv(s) && t < |s.th| == |s'.th| && Next(s, t, a) == Some(s') && !Freeing(s.th[t].pc)
    requires Nobody(s) <==> s.idx == 0
    ensures StepMeans(s, t, a, s')
  {
    hide Nobody;
    hide NotStranded;
    hide IndexTells;
    assert LocalInv(s, s.th[t]);
    if s.idx == 0 { FreeMeansNobody(s, t); }
    assert !s.kind.Normal? ==> (s.owner == Some(t) <==> s.th[t].depth > 0 && !NotesOwner(s.th[t].pc));
  }

  lemma FreeingMeans(s: State, t: nat, a: Action, s': State)
    requires Inv(s) && t < |s.th| == |s'.th| && Next(s, t, a) == Some(s') && Freeing(s.th[t].pc)
    ensures StepMeans(s, t, a, s')
  {
    hide Nobody;
    hide NotStranded;
    hide IndexTells;
    assert LocalInv(s, s.th[t]);
    assert !s.kind.Normal? ==> (s.owner == Some(t) <==> s.th[t].depth > 0 && !NotesOwner(s.th[t].pc));
  }

  /** Every step of the protocol is one that its caller may see: a lock or trylock that looks at a free
      mutex is given it, at once; trylock is refused exactly when somebody else holds it, or its own thread
      and it is not recursive; a lock waits, meets its own hold or goes in once more; only a timed wait times out. */
  lemma StepIsMeant(s: State, t: nat, a: Action, s': State)
    requires Inv(s) && t < |s.th| && Next(s, t, a) == Some(s')
    ensures |s'.th| == |s.th| && s'.kind == s.kind && StepMeans(s, t, a, s')
    ensures forall u :: 0 <= u < |s.th| && u != t ==> s'.th[u] == s.th[u]
  {
    OthersStay(s, t, a, s');
    NobodyMeansFree(s);
    if Freeing(s.th[t].pc) { FreeingMeans(s, t, a, s'); } else { LockingMeans(s, t, a, s'); }
  }

  // ---- Whole calls ----------------------------------------------------------

  datatype Move = Move(t: nat, a: Action)

  /** A run, with who did what at each step. */
  ghost predicate Follows(run: seq<State>, moves: seq<Move>)
  {
    |run| == |moves| + 1 &&
    forall i :: 0 <= i < |moves| ==>
      moves[i].t < |run[i].th| && Next(run[i], moves[i].t, moves[i].a) == Some(run[i + 1])
  }

  /** A whole call of one thread, other threads moving in between. */
  ghost predicate WholeCall(run: seq<State>, moves: seq<Move>, t: nat)
  {
    && Follows(run, moves) && moves != [] && moves[0].t == t && Begins(moves[0].a) && Inv(run[0])
    && (forall i :: 0 <= i < |run| ==> t < |run[i].th| && (run[i].th[t].pc.Idle? <==> i == 0 || i == |moves|))
  }

  /** The step at which a call gets its answer: the wait that is given up, or a look at the mutex, or the
      unlock's last word; `ret` and `depth'` are what the call returns and how often the caller then holds it. */
  ghost predicate AnsweredAt(s: State, m: Move, call: Call, depth: nat, ret: Ret, depth': nat)
    requires m.t < |s.th|
  {
    if m.a.TimeOut? then call == Locking(true) && s.th[m.t].pc.Blocked? && ret == TimedOut && depth' == depth
    else
      (Looks(s.th[m.t].pc) || Frees(s.th[m.t].pc)) && Verdict(s.kind, call, Nobody(s), depth) == Some((ret, depth'))
  }

  /** The call still waits for its answer, no look having found one. */
  ghost predicate StillAsking(run: seq<State>, moves: seq<Move>, t: nat, i: nat)
    requires WholeCall(run, moves, t) && 0 < i <= |moves|
  {
    var call, depth := CallOf(moves[0].a), run[0].th[t].depth;
    && PlaceOf(run[i].kind, run[i].th[t]) == Asked(call) && DepthOf(run[i].kind, run[i].th[t]) == depth
    && forall j :: 0 < j < i && moves[j].t == t && Looks(run[j].th[t].pc) ==>
      Verdict(run[j].kind, call, Nobody(run[j]), depth) == None
  }

  /** The call was answered at step `k`, and no look before had an answer. */
  ghost predicate WasAnswered(run: seq<State>, moves: seq<Move>, t: nat, k: nat, i: nat)
    requires WholeCall(run, moves, t) && 0 < k < i <= |moves|
  {
    var call, depth := CallOf(moves[0].a), run[0].th[t].depth;
    var place := PlaceOf(run[i].kind, run[i].th[t]);
    && moves[k].t == t && !place.Asked?
    && AnsweredAt(run[k], moves[k], call, depth, place.ret, DepthOf(run[i].kind, run[i].th[t]))
    && forall j :: 0 < j < k && moves[j].t == t && Looks(run[j].th[t].pc) ==>
      Verdict(run[j].kind, call, Nobody(run[j]), depth) == None
  }

  lemma AskingStep(run: seq<State>, moves: seq<Move>, t: nat, i: nat)
    requires WholeCall(run, moves, t) && 0 < i < |moves| && Inv(run[i]) && StillAsking(run, moves, t, i)
    ensures StillAsking(run, moves, t, i + 1) || WasAnswered(run, moves, t, i, i + 1)
  {
    hide Inv;
    hide Next;
    hide Nobody;
    hide PlaceOf;
    hide DepthOf;
    hide Verdict;
    StepIsMeant(run[i], moves[i].t, moves[i].a, run[i + 1]);
    if moves[i].t == t && moves[i].a.TimeOut? { OnlyWaitsTimeOut(run[i], t, run[i + 1]); }
  }

  lemma OnlyWaitsTimeOut(s: State, t: nat, s': State)
    requires t < |s.th| && Next(s, t, TimeOut) == Some(s')
    ensures s.th[t].pc.Blocked?
  {
  }

  lemma AnsweredStep(run: seq<State>, moves: seq<Move>, t: nat, k: nat, i: nat)
    requires WholeCall(run, moves, t) && 0 < k < i < |moves| && Inv(run[i]) && WasAnswered(run, moves, t, k, i)
    ensures WasAnswered(run, moves, t, k, i + 1)
  {
    hide Inv;
    hide Next;
    hide Nobody;
    hide Verdict;
    hide StepMeans;
    StepIsMeant(run[i], moves[i].t, moves[i].a, run[i + 1]);
    if moves[i].t == t { AnswerStays(run[i], t, moves[i].a, run[i + 1]); }
  }

  lemma AnswerStays(s: State, t: nat, a: Action, s': State)
    requires t < |s.th| == |s'.th| && StepMeans(s, t, a, s') && s'.kind == s.kind && !s.th[t].pc.Idle?
    requires !PlaceOf(s.kind, s.th[t]).Asked?
    ensures !PlaceOf(s'.kind, s'.th[t]).Asked? && PlaceOf(s'.kind, s'.th[t]).ret == PlaceOf(s.kind, s.th[t]).ret
    ensures DepthOf(s'.kind, s'.th[t]) == DepthOf(s.kind, s.th[t])
  {
  }

  lemma CallStarts(run: seq<State>, moves: seq<Move>, t: nat)
    requires WholeCall(run, moves, t)
    ensures Inv(run[1]) && StillAsking(run, moves, t, 1)
  {
    assert moves[0].t == t;
    StepIsMeant(run[0], t, moves[0].a, run[0 + 1]);
    StepKeepsInv(run[0], t, moves[0].a, run[1]);
  }

  /** Every call is answered once, at one of its own steps, as what is held at that very moment asks: a
      lock or trylock that looks at a free mutex returns success and holds it, and is not made to look
      again; a trylock returns Busy if and only if it looked while somebody held the mutex and it was not
      a recursive mutex of its own; TimedOut is returned only to a timed wait that gave up; and from the
      answer on to its return, nothing another thread does changes what the caller holds. */
  lemma {:induction false} CallIsAnswered(run: seq<State>, moves: seq<Move>, t: nat) returns (k: nat)
    requires WholeCall(run, moves, t)
    ensures 0 < k < |moves| && moves[k].t == t
    ensures var call, depth := CallOf(moves[0].a), run[0].th[t].depth;
      var end := run[|moves|].th[t];
      && AnsweredAt(run[k], moves[k], call, depth, end.ret, end.depth)
      && forall j :: 0 < j < k && moves[j].t == t && Looks(run[j].th[t].pc) ==>
        Verdict(run[j].kind, call, Nobody(run[j]), depth) == None
  {
    hide Inv;
    hide Next;
    hide Nobody;
    hide Verdict;
    hide StepMeans;
    CallStarts(run, moves, t);
    k := 0;
    for i := 1 to |moves|
      invariant Inv(run[i])
      invariant if k == 0 then StillAsking(run, moves, t, i) else 0 < k < i && WasAnswered(run, moves, t, k, i)
    {
      if k == 0 {
        AskingStep(run, moves, t, i);
        if !StillAsking(run, moves, t, i + 1) { k := i; }
      } else {
        AnsweredStep(run, moves, t, k, i);
      }
      StepKeepsInv(run[i], moves[i].t, moves[i].a, run[i + 1]);
    }
  }

  // ---- Calls end ------------------------------------------------------------

  /** The steps left in the call a thread is in, to its return or its next wait. */
  function Left(th: Thread): nat
  {
    match th.pc
    case Idle => 0
    case LockXchg(_) => 6 case LockCas(_) => 6 case LockOwner(_) => 5 case Contend(_) => 4 case Blocked(_) => 3
    case TakeCount => 2 case TakeOwner => 1 case Bump => 1
    case TryCas => 4 case TryOwner => 3
    case FreeOwner => 7 case FreeCount => 6 case FreeClear => 5 case FreeXchg => 4 case FreeSignal => 3
  }

  /** A set event can wake one waiting thread for another look. */
  ghost function Work(s: State): nat { Sum(s.th, Left) + if s.event then 2 else 0 }

  lemma OwnWork(s: State, t: nat, a: Action, s': State)
    requires t < |s.th| == |s'.th| && Next(s, t, a) == Some(s') && (a.Go? || a.TimeOut?)
    ensures Left(s'.th[t]) + (if s'.event then 2 else 0) < Left(s.th[t]) + (if s.event then 2 else 0)
  {
  }

  lemma StepUsesWork(s: State, t: nat, a: Action, s': State)
    requires t < |s.th| && Next(s, t, a) == Some(s') && (a.Go? || a.TimeOut?)
    ensures Work(s') < Work(s)
  {
    ThreadsUpdated(s, t, a, s');
    OwnWork(s, t, a, s');
    SumUpdate(s.th, t, s'.th[t], Left);
  }

  /** With no new calls, a run is no longer than 7 steps a thread and 2 more; and where it can go no
      further, every call has returned but those that wait for a mutex that somebody holds. */
  lemma {:induction false} CallsRunOut(run: seq<State>, moves: seq<Move>)
    requires Follows(run, moves) && Inv(run[0])
    requires forall i :: 0 <= i < |moves| ==> moves[i].a.Go? || moves[i].a.TimeOut?
    ensures |moves| <= Work(run[0]) <= 7 * |run[0].th| + 2
    ensures Inv(run[|moves|])
    ensures Stuck(run[|moves|]) && !(forall t :: 0 <= t < |run[|moves|].th| ==> run[|moves|].th[t].pc.Idle?) ==>
      !Nobody(run[|moves|])
  {
    hide Inv;
    hide Next;
    hide Stuck;
    SumBound(run[0].th, Left, 7);
    for i := 0 to |moves|
      invariant i + Work(run[i]) <= Work(run[0]) && Inv(run[i])
    {
      StepUsesWork(run[i], moves[i].t, moves[i].a, run[i + 1]);
      StepKeepsInv(run[i], moves[i].t, moves[i].a, run[i + 1]);
    }
    if Stuck(run[|moves|]) { StuckMeansHeld(run[|moves|]); }
  }

  /** A thread outside may make any call but one: a normal mutex is unlocked by its holder; and inside a
      call it can always go on, unless it waits for an event that is not set. */
  lemma OnlyWaitersWait(s: State, t: nat, a: Action)
    requires t < |s.th| && (if s.th[t].pc.Idle? then Begins(a) else a.Go?)
    ensures Next(s, t, a) == None <==>
      if a.Go? then s.th[t].pc.Blocked? && !s.event else a.Unlock? && s.kind.Normal? && s.th[t].depth == 0
  {
  }

  // ---- The fast path --------------------------------------------------------

  /** The mark comes from a thread that contends, and the event from a mark. */
  lemma MarksComeFromContention(s: State, t: nat, a: Action, s': State)
    requires t < |s.th| == |s'.th| && Next(s, t, a) == Some(s') && !s.th[t].pc.Contend?
    ensures s'.idx == -1 ==> s.idx == -1
    ensures s'.event ==> s.event || s.th[t].pc.FreeSignal?
    ensures s'.th[t].pc.FreeSignal? ==> s.idx < 0
  {
  }

  /** Without contention nobody is signalled: as long as every exchange finds the mutex free, or its own,
      the index is 0 or 1 and no unlock comes to set the event. */
  lemma {:induction false} FastPath(run: seq<State>, moves: seq<Move>)
    requires Follows(run, moves) && Init(run[0])
    requires forall i, t :: 0 <= i < |run| && 0 <= t < |run[i].th| ==> !run[i].th[t].pc.Contend?
    ensures forall i :: 0 <= i < |run| ==> 0 <= run[i].idx <= 1 && !run[i].event
    ensures forall i, t :: 0 <= i < |run| && 0 <= t < |run[i].th| ==>
      !run[i].th[t].pc.FreeSignal? && !run[i].th[t].pc.Blocked?
  {
    hide Next;
    hide AllLocal;
    hide OwnerTells;
    hide NotStranded;
    InitHasInv(run[0]);
    for i := 0 to |moves|
      invariant forall j :: 0 <= j <= i ==> Quiet(run[j])
      invariant Inv(run[i])
    {
      var m := moves[i];
      assert !run[i].th[m.t].pc.Contend?;
      OthersStay(run[i], m.t, m.a, run[i + 1]);
      MarksComeFromContention(run[i], m.t, m.a, run[i + 1]);
      if run[i + 1].th[m.t].pc.Blocked? { SleepsAfterContending(run[i], m.t, m.a, run[i + 1]); }
      StepKeepsInv(run[i], m.t, m.a, run[i + 1]);
    }
    assert Quiet(run[|moves|]);
  }

  ghost predicate Quiet(s: State)
  {
    0 <= s.idx <= 1 && !s.event && forall t :: 0 <= t < |s.th| ==> !s.th[t].pc.FreeSignal? && !s.th[t].pc.Blocked?
  }

  lemma SleepsAfterContending(s: State, t: nat, a: Action, s': State)
    requires t < |s.th| == |s'.th| && Next(s, t, a) == Some(s') && s'.th[t].pc.Blocked?
    ensures s.th[t].pc.Contend?
  {
  }

  /** One thread holds the mutex and another sleeps. */
  lemma OneSleeps() returns (run: seq<State>, moves: seq<Move>)
    ensures |run| == |moves| + 1 && Follows(run, moves) && Init(run[0])
    ensures run[|moves|] == State(Normal, -1, false, None, 0,
      [Thread(Idle, 1, Ok), Thread(Blocked(false), 0, Ok), Thread(Idle, 0, Ok)])
  {
    hide Follows;
    var out := Thread(Idle, 0, Ok);
    var s := State(Normal, 0, false, None, 0, [out, out, out]);
    run, moves := [s], [];
    assert Follows(run, moves) by { NoMoves(s); }
    run, moves := Longer(run, moves, 0, Lock(false));
    run, moves := Longer(run, moves, 0, Go);
    run, moves := Longer(run, moves, 1, Lock(false));
    run, moves := Longer(run, moves, 1, Go);
    run, moves := Longer(run, moves, 1, Go);
  }

  /** ... and with contention an unlock may leave the event alone although a thread sleeps: the exchange
      of one that comes to lock takes the mark away, and that one is to put it back. */
  lemma SleeperLeftToNext() returns (run: seq<State>, moves: seq<Move>)
    ensures Follows(run, moves) && Init(run[0])
    ensures run[|moves|] == State(Normal, 0, false, None, 0,
      [Thread(Idle, 0, Ok), Thread(Blocked(false), 0, Ok), Thread(Contend(false), 0, Ok)])
  {
    hide Follows;
    run, moves := OneSleeps();
    run, moves := Longer(run, moves, 2, Lock(false));
    run, moves := Longer(run, moves, 2, Go);
    run, moves := Longer(run, moves, 0, Unlock);
    run, moves := Longer(run, moves, 0, Go);
  }

  lemma NoMoves(s: State)
    ensures Follows([s], [])
  {
  }

  lemma Longer(run: seq<State>, moves: seq<Move>, t: nat, a: Action) returns (run': seq<State>, moves': seq<Move>)
    requires |run| == |moves| + 1 && Follows(run, moves) && t < |run[|moves|].th| && Next(run[|moves|], t, a).Some?
    ensures Follows(run', moves') && |run'| == |moves'| + 1 && run'[0] == run[0]
    ensures run'[|moves'|] == Next(run[|moves|], t, a).value
  {
    hide Next;
    run', moves' := run + [Next(run[|moves|], t, a).value], moves + [Move(t, a)];
  }
}
