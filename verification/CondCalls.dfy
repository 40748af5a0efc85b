/** What waits, signals and broadcasts promise, whatever the gate, the mutex and the two waiter counters do:
    threads that are waiters, a number of wake-ups owed to them, and units of the queue that wake them. */
module CondCalls {
  import opened Common
  import opened Counting
  import opened CondVar

  /** Where a thread stands, as far as others are concerned. */
  datatype Place =
    | Away
    | Coming                 // in a wait, not a waiter yet
    | Asleep                 // a waiter
    | Roused(woken: bool)    // still a waiter, by a unit or having given up
    | Leaving                // counted out
    | Asking(all: bool)      // in a signal or broadcast that has not chosen yet
    | Giving(units: nat)     // it has, and is to post that many units
    | Ending

  function PlaceOf(pc: Pc): Place
  {
    match pc
    case Idle => Away
    case WaitGate => Coming case EnterLoad => Coming case EnterStore(_) => Coming
    case EnterPost => Asleep case Queued => Asleep
    case CleanLock(token) => Roused(token) case CleanIn(token) => Roused(token)
    case SigLock(all) => Asking(all) case SigTest(all) => Asking(all)
    case SigGate(all) => Asking(all) case SigClose(all) => Asking(all)
    case SigUnlock(n) => Giving(n) case SigPost(n) => Giving(n)
    case DestGate => Ending case DestTry => Ending case DestCheck => Ending
    case _ => Leaving
  }

  function Begun(a: Action): Place
    requires a.Wait? || a.Signal? || a.Destroy?
  {
    match a case Wait => Coming case Signal(all) => Asking(all) case Destroy => Ending
  }

  /** How many wake-ups are owed after a signal or broadcast, of `owed` before and so many waiters. */
  function Owed(all: bool, owed: int, waiters: nat): int
  {
    if all then waiters else if owed < waiters then owed + 1 else owed
  }

  /** A step in these terms: a thread becomes a waiter only while nothing is owed; it is woken by one unit;
      one that leaves takes one owed wake-up with it; a signal owes one waiter more, a broadcast all, and
      posts exactly as many units as it adds. */
  ghost predicate StepMeans(s: State, t: nat, a: Action, s': State)
    requires t < |s.pcs| == |s'.pcs|
  {
    var place, place' := PlaceOf(s.pcs[t]), PlaceOf(s'.pcs[t]);
    var stays := place' == place && s'.toUnblock == s.toUnblock && s'.queue == s.queue;
    match place
    case Away =>
      (a.Wait? || a.Signal? || a.Destroy?) && place' == Begun(a) && s'.toUnblock == s.toUnblock && s'.queue == s.queue
    case Coming =>
      if a.GiveUp? then place' == Away && s'.toUnblock == s.toUnblock && s'.queue == s.queue
      else stays || (place' == Asleep && s.toUnblock == s'.toUnblock == 0 && s'.queue == s.queue)
    case Asleep =>
      if a.GiveUp? then place' == Roused(false) && s'.toUnblock == s.toUnblock && s'.queue == s.queue
      else stays || (place' == Roused(true) && s'.toUnblock == s.toUnblock && s'.queue == s.queue - 1)
    case Roused(_) =>
      stays ||
      (place' == Leaving && s'.toUnblock == (if s.toUnblock > 0 then s.toUnblock - 1 else 0) && s'.queue == s.queue)
    case Leaving => stays || (place' == Away && s'.toUnblock == s.toUnblock && s'.queue == s.queue)
    case Asking(all) =>
      stays ||
      (place' == Giving(Added(s, s')) && s'.toUnblock == Owed(all, s.toUnblock, Waiters(s)) && s'.queue == s.queue)
    case Giving(n) => stays || (place' == Away && s'.toUnblock == s.toUnblock && s'.queue == s.queue + n)
    case Ending => stays || (place' == Away && s'.toUnblock == s.toUnblock && s'.queue == s.queue)
  }

  /** The wake-ups a step adds to those owed. */
  function Added(s: State, s': State): nat { if s'.toUnblock < s.toUnblock then 0 else s'.toUnblock - s.toUnblock }

  lemma WaiterMeans(s: State, t: nat, a: Action, s': State)
    requires Inv(s) && t < |s.pcs| == |s'.pcs| && Next(s, t, a) == Some(s') && Waiterly(s.pcs[t])
    requires OwnsGate(s.pcs[t]) == 1 ==> s.toUnblock == 0
    ensures StepMeans(s, t, a, s')
  {
    hide Waiters;
    hide LimitNoted;
    hide AllLocal;
    hide MtxAgrees;
    hide OneGate;
    hide Covered;
  }

  /** The step at which a signal or broadcast makes its choice. */
  lemma ChoiceMeans(s: State, t: nat, all: bool, s': State)
    requires Inv(s) && t < |s.pcs| == |s'.pcs| && Decides(s, t, all) && Step(s, t) == Some(s')
    ensures StepMeans(s, t, Go, s')
  {
    hide Inv;
    hide Waiters;
    DecisionOwes(s, t, all);
    ChoosingPostsNothing(s, t, all);
    hide Step;
  }

  lemma ChoosingPostsNothing(s: State, t: nat, all: bool)
    requires t < |s.pcs| && Decides(s, t, all)
    ensures Step(s, t).Some? && Step(s, t).value.queue == s.queue && PlaceOf(s.pcs[t]) == Asking(all)
  {
  }

  lemma OtherSteps(s: State, t: nat, a: Action, s': State)
    requires t < |s.pcs| == |s'.pcs| && s.alive && Next(s, t, a) == Some(s') && !Waiterly(s.pcs[t])
    requires !Decides(s, t, true) && !Decides(s, t, false)
    ensures StepMeans(s, t, a, s')
  {
    hide Waiters;
  }

  /** Every step of the protocol is one of these. */
  lemma StepIsMeant(s: State, t: nat, a: Action, s': State)
    requires Inv(s) && t < |s.pcs| && Next(s, t, a) == Some(s')
    ensures |s'.pcs| == |s.pcs| && s'.pcs == s.pcs[t := s'.pcs[t]] && StepMeans(s, t, a, s')
  {
    hide Next;
    hide StepMeans;
    OthersStay(s, t, a);
    StepFacts(s, t, a);
    if Waiterly(s.pcs[t]) {
      WaiterMeans(s, t, a, s');
    } else if a.Go? && (Decides(s, t, true) || Decides(s, t, false)) {
      assert Next(s, t, Go) == Step(s, t) by { GoIsStep(s, t); }
      ChoiceMeans(s, t, Decides(s, t, true), s');
    } else {
      ChoosersOnlyGo(s, t, a);
      OtherSteps(s, t, a, s');
    }
  }

  lemma GoIsStep(s: State, t: nat)
    requires t < |s.pcs| && s.alive
    ensures Next(s, t, Go) == Step(s, t)
  {
  }

  lemma ChoosersOnlyGo(s: State, t: nat, a: Action)
    requires t < |s.pcs| && Next(s, t, a).Some?
    ensures s.alive && (!a.Go? ==> !Decides(s, t, true) && !Decides(s, t, false))
  {
  }

  // ---- Runs -----------------------------------------------------------------

  datatype Move = Move(t: nat, a: Action)

  /** A run, with who did what at each step. */
  ghost predicate Follows(run: seq<State>, moves: seq<Move>)
  {
    |run| == |moves| + 1 &&
    forall i :: 0 <= i < |moves| ==>
      moves[i].t < |run[i].pcs| && Next(run[i], moves[i].t, moves[i].a) == Some(run[i + 1])
  }

  /** Of the first `k` moves, those with which a sleeping waiter is woken by a unit. */
  ghost function Woken(run: seq<State>, moves: seq<Move>, k: nat): nat
    requires Follows(run, moves) && k <= |moves|
  {
    if k == 0 then 0 else Woken(run, moves, k - 1) + if Wakes(run[k - 1], moves[k - 1]) then 1 else 0
  }

  predicate Wakes(s: State, m: Move)
    requires m.t < |s.pcs|
  {
    s.pcs[m.t].Queued? && m.a.Go?
  }

  /** The wake-ups that the signals and broadcasts among the first `k` moves chose to add. */
  ghost function Chosen(run: seq<State>, moves: seq<Move>, k: nat): nat
    requires Follows(run, moves) && k <= |moves|
  {
    if k == 0 then 0 else Chosen(run, moves, k - 1) + ChosenBy(run[k - 1], moves[k - 1], run[k])
  }

  function ChosenBy(s: State, m: Move, s': State): nat
    requires m.t < |s.pcs|
  {
    if PlaceOf(s.pcs[m.t]).Asking? then Added(s, s') else 0
  }

  /** The calls of signal among the first `k` moves. */
  function Signals(moves: seq<Move>, k: nat): nat
    requires k <= |moves|
  {
    if k == 0 then 0 else Signals(moves, k - 1) + if moves[k - 1].a == Signal(false) then 1 else 0
  }

  function Undelivered(pc: Pc): nat { if PlaceOf(pc).Giving? then PlaceOf(pc).units else 0 }

  function Undecided(pc: Pc): nat { if PlaceOf(pc).Asking? then 1 else 0 }

  ghost predicate Balanced(run: seq<State>, moves: seq<Move>, k: nat)
    requires Follows(run, moves) && k <= |moves|
  {
    Woken(run, moves, k) + run[k].queue + Sum(run[k].pcs, Undelivered) == Chosen(run, moves, k)
  }

  lemma QueuedStep(s: State, t: nat, a: Action, s': State)
    requires t < |s.pcs| == |s'.pcs| && Next(s, t, a) == Some(s') && PlaceOf(s.pcs[t]).Asleep?
    ensures PlaceOf(s'.pcs[t]) == Roused(true) <==> s.pcs[t].Queued? && a.Go?
  {
  }

  lemma BalanceStep(run: seq<State>, moves: seq<Move>, k: nat)
    requires Follows(run, moves) && k < |moves| && Inv(run[k]) && Balanced(run, moves, k)
    ensures Balanced(run, moves, k + 1)
  {
    hide Inv;
    hide Next;
    hide Owed;
    hide Waiters;
    var s, m, s' := run[k], moves[k], run[k + 1];
    StepIsMeant(s, m.t, m.a, s');
    SumUpdate(s.pcs, m.t, s'.pcs[m.t], Undelivered);
    if PlaceOf(s.pcs[m.t]).Asleep? { QueuedStep(s, m.t, m.a, s'); }
    hide PlaceOf;
    assert PlaceOf(s.pcs[m.t]).Asking? || ChosenBy(s, m, s') == 0;
  }

  /** No wake-up from nowhere and none lost on the way: over every run, the waits that were woken, the
      units still in the queue and those still in the hands of signallers are together exactly the
      wake-ups that signals and broadcasts chose to add. */
  lemma {:induction false} WakesAreChosen(run: seq<State>, moves: seq<Move>)
    requires Follows(run, moves) && Init(run[0])
    ensures forall k :: 0 <= k <= |moves| ==> Inv(run[k]) && Balanced(run, moves, k)
  {
    hide Inv;
    hide Next;
    hide Balanced;
    InitHasInv(run[0]);
    EmptyBalance(run, moves);
    for i := 0 to |moves|
      invariant forall k :: 0 <= k <= i ==> Inv(run[k]) && Balanced(run, moves, k)
    {
      BalanceStep(run, moves, i);
      assert Next(run[i], moves[i].t, moves[i].a) == Some(run[i + 1]);
      StepKeepsInv(run[i], moves[i].t, moves[i].a);
    }
  }

  lemma EmptyBalance(run: seq<State>, moves: seq<Move>)
    requires Follows(run, moves) && Init(run[0])
    ensures Balanced(run, moves, 0)
  {
    SumZero(run[0].pcs, Undelivered);
  }

  lemma ChoiceStep(s: State, m: Move, s': State)
    requires Inv(s) && m.t < |s.pcs| && Next(s, m.t, m.a) == Some(s') && m.a != Signal(true)
    requires forall t :: 0 <= t < |s.pcs| ==> PlaceOf(s.pcs[t]) != Asking(true)
    ensures ChosenBy(s, m, s') + Sum(s'.pcs, Undecided) <= Sum(s.pcs, Undecided) + if m.a == Signal(false) then 1 else 0
    ensures forall t :: 0 <= t < |s'.pcs| ==> PlaceOf(s'.pcs[t]) != Asking(true)
  {
    hide Inv;
    hide Next;
    hide Waiters;
    StepIsMeant(s, m.t, m.a, s');
    SumUpdate(s.pcs, m.t, s'.pcs[m.t], Undecided);
    SumIncludes(s.pcs, m.t, Undecided);
    hide PlaceOf;
  }

  /** A signal wakes at most one: with no broadcast, no more waits are woken than signals were called. */
  lemma {:induction false} SignalWakesOne(run: seq<State>, moves: seq<Move>)
    requires Follows(run, moves) && Init(run[0]) && forall i :: 0 <= i < |moves| ==> moves[i].a != Signal(true)
    ensures forall k :: 0 <= k <= |moves| ==> Woken(run, moves, k) <= Signals(moves, k)
  {
    hide Inv;
    hide Next;
    hide PlaceOf;
    WakesAreChosen(run, moves);
    NobodyAsks(run[0]);
    for i := 0 to |moves|
      invariant forall t :: 0 <= t < |run[i].pcs| ==> PlaceOf(run[i].pcs[t]) != Asking(true)
      invariant Chosen(run, moves, i) + Sum(run[i].pcs, Undecided) <= Signals(moves, i)
      invariant forall k :: 0 <= k <= i ==> Woken(run, moves, k) <= Signals(moves, k)
    {
      ChoiceStep(run[i], moves[i], run[i + 1]);
      assert Balanced(run, moves, i + 1);
    }
  }

  lemma NobodyAsks(s: State)
    requires Init(s)
    ensures Sum(s.pcs, Undecided) == 0 && forall t :: 0 <= t < |s.pcs| ==> PlaceOf(s.pcs[t]) != Asking(true)
  {
    SumZero(s.pcs, Undecided);
  }

  /** A thread outside may make any call, and a wait for the gate or for a wake-up may be given up at any time. */
  lemma CallsMayBegin(s: State, t: nat, a: Action)
    requires t < |s.pcs| && s.alive && !a.Go?
    ensures Next(s, t, a).Some? <==> if a.GiveUp? then s.pcs[t].WaitGate? || s.pcs[t].Queued? else s.pcs[t].Idle?
  {
  }
}
