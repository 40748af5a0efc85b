# Verification of the record system's concurrency, text and loading core

A Dafny model of the parts of the record system whose correctness is hardest to see: the pthreads-win32
synchronisation protocols, the jsoncpp reader and writers, the client's text and binary codecs, and the
server's list of legacy commands. `dafny verify dfyconfig.toml` checks all of it.

## What is modelled

**Synchronisation.** `CondVar`, `Mutex` and `Barrier` are step relations over any number of threads, one step
being one interlocked operation, semaphore, event or mutex operation, one access to a counter that other
threads may touch, or the body of a section under the unblock mutex. An action is a call that begins, a step of
the call a thread is in, or a wait that gives up (a timeout; cancellation of a wait is treated as one).
Interlocked operations, semaphores, auto-reset events and the MCS lock are atomic and steps are sequentially
consistent. The invariants are properties of all runs; progress is stated as what a state in which nobody can
move must look like, with a bound on how many steps calls in progress can take. `Counting` has the sums over
threads. `CondCalls` and `MutexCalls` say what the calls promise, in terms of waiters and owed wake-ups, and of who
holds the mutex, and prove that the protocols refine that. `RobustMutex` is the heap: threads, mutexes and
intrusive lists, each method one call of `pthread_mutex_*` on a robust mutex (a blocking lock split at its waits),
and the ending of a thread. `CondList` is the global list of condition variables, `LinkedList` what all lists share.

**JSON.** `JsonScan` and `JsonParse` say what the reader makes of a document as functions of the text, and
`JsonReader` is the reader with its cursor, value stack and error list, proved to do just that. `JsonDoc` is an
independent account: documents of RFC 8259 as trees with their white space and escapes, how they are spelled and
what they mean; the reader is proved to read each as its meaning, and in `JsonAccepts` to accept nothing else, and
what it does with comments. The writers (`JsonText`, `JsonWriter`,
`JsonStyled`) are proved to append the spelling of a document that means the value, and `JsonRoundTrip` puts both
together. The reader gives an integer the signed tag when it is negative or fits 31 bits and the unsigned one
otherwise, so values come back with integers equal as numbers.

**Codecs.** `InfoString` is the in-place key and value buffer and the map it stands for; `Tokenizer` the
command tokenizer with its output buffer; `Qvm` the image loader in both byte orders.

**Commands.** `CommandList` is the server's doubly linked list with its recursive deletion.

## What the code does that one might not expect

- An integer token one digit past the 64-bit range is let through, reduced to 64 bits, when its last digit is no
  more than the limit's: 5, or 8 after a sign (`JsonNumber.OverflowSlipsThrough`). After a sign the result can be
  positive (`JsonNumber.SignSlipsThrough`). `JsonNumber.PastTheRange` says exactly when.
- The least signed 64-bit number is negated within its type before it is printed. `JsonText.SignedToString` takes
  that as two's complement and then holds for it too.
- A pair too long for an info string's buffer is refused, but one alone in the buffer is stored cut short
  (`InfoString.LongPairIsCut`); `InfoString.GetAfterSet` says exactly when what was set is read back, and
  `InfoString.SetStaysWellFormed` when the text stays well formed.
- QVM literals are copied from behind the last whole data word. If the data length is no multiple of four, that
  many bytes of the literals are not loaded (`Qvm.LiteralLost`); `Qvm.WholeWhenWords` says when that shows.
- A condition variable can be freed while a signaller has still to post to it, its waiter having timed out
  (`CondVar.FreedBeforePost`); `CondVar.FreedQuietly` says exactly when a free is quiet.
- A refused or timed-out lock can change `lock_idx` from 1 to -1; what it leaves alone is in
  `Mutex.RefusedCallHoldsStill`.
- A JSON escape of a high surrogate that no second escape follows is an error.
- A comma may follow a member of an object whose name is empty, before the closing brace (`JsonAccepts.Taken`). A
  comment behind a member hides a missing comma: any token that comes then stands for it, and is lost
  (`JsonAccepts.AnythingAfterComment`). Comments that are not allowed are skipped all the same behind elements and
  members and before names; before a value one is refused (`JsonAccepts.CommentsBefore`).
- In the tokenizer `/*/` is a whole comment, and bytes from 128 on separate tokens, `char` being signed.
- A thread that waits for a robust mutex can be left waiting for ever: a mutex taken over from an ended owner keeps
  that owner's `lock_idx`, and if that is not the mark -1, its next unlock sets no event
  (`RobustMutex.Process.LeftWaiting`). `RobustMutex.Process.Woken` says exactly when; no other call can do it.
- A plain mutex can be unlocked without an event although a thread sleeps; the thread whose exchange took the mark
  away then acquires it marked (`MutexCalls.SleeperLeftToNext`).
- Unlocking a recursive robust mutex that was taken over from an ended owner marks it unrecoverable at the first
  unlock, even if the owner still holds it; and when that owner ends, it can be taken over after all
  (`RobustMutex.Process.UnrecoverableForgotten`).

## Model

| member | source | states |
|---|---|---|
| `CondVar.InitHasInv` | tools/pthreads-win32/pthread_cond_init.c:90-110 | A fresh condition variable (gate 1, queue 0, counters 0) satisfies every protocol invariant, for any number of threads |
| `CondVar.RunsKeepInv` | tools/pthreads-win32/pthread_cond_wait.c:276-450 | In every state of every run of waits, timeouts, signals, broadcasts and destroys by any number of threads: waiter conservation, `nWaitersToUnblock` > 0 only with `nWaitersGone` = 0, one place for the gate token, every owed wake-up covered by a unit of the queue, mutex ownership |
| `CondVar.StepKeepsInv` | tools/pthreads-win32/pthread_cond_signal.c:87-148 | Each single step of any thread keeps all of these invariants |
| `CondVar.CleaningStep` | tools/pthreads-win32/pthread_cond_wait.c:291-341 | A waiter that counts itself out, whether woken or timed out, keeps conservation and coverage, and the last one owed takes the gate over |
| `CondVar.AdjustingStep` | tools/pthreads-win32/pthread_cond_wait.c:301-326 | Folding `nWaitersGone` into `nWaitersBlocked` at INT_MAX/2 keeps conservation, in each of its steps |
| `CondVar.SignallingStep` | tools/pthreads-win32/pthread_cond_signal.c:87-146 | A signaller's steps with the gate open, or closed already, keep the counts in agreement |
| `CondVar.ChoosingStep` | tools/pthreads-win32/pthread_cond_signal.c:92-109 | Moving counts while wake-ups are already owed, no-ops included, keeps the counts in agreement |
| `CondVar.ClosingStep` | tools/pthreads-win32/pthread_cond_signal.c:110-134 | Closing the gate for a new batch keeps the counts in agreement |
| `CondVar.OneGateOwner` | tools/pthreads-win32/pthread_cond_wait.c:334-341 | At most one thread owns the gate, and none does while wake-ups are owed |
| `CondVar.BlockedHasOneWriter` | tools/pthreads-win32/pthread_cond_wait.c:385-395 | `nWaitersBlocked` is changed only by the gate's owner, or by the mutex holder while the gate stands for owed wake-ups; the unlocked increment of an entering waiter adds exactly one |
| `CondVar.GateOwnerMoves` | tools/pthreads-win32/pthread_cond_wait.c:385-395 | The gate's owner can always take its next step: it never waits for the mutex |
| `CondVar.GateWaitIsShort` | tools/pthreads-win32/pthread_cond_signal.c:112-118 | Whoever waits for the gate with the mutex in hand waits for another thread that can move now |
| `CondVar.OwedDischargedByWaiter` | tools/pthreads-win32/pthread_cond_wait.c:297-300 | `nWaitersToUnblock` falls only when a registered waiter counts itself out, by one each time |
| `CondVar.OwedMeansProgress` | tools/pthreads-win32/pthread_cond_signal.c:140-146 | While wake-ups are owed some thread that is inside a call can move |
| `CondVar.StuckIsSettled` | tools/pthreads-win32/pthread_cond_wait.c:412-440 | No lost wake-up, no deadlock: when nobody can move, nothing is owed, gate and mutex are free and everyone inside waits in an empty queue |
| `CondVar.StepUsesWork` | tools/pthreads-win32/pthread_cond_wait.c:276-351 | Every step inside a call uses up a bounded amount of work |
| `CondVar.CallsRunOut` | tools/pthreads-win32/pthread_cond_signal.c:87-148 | Without new calls a run has at most 13 steps a thread, and where it can go no further every promised wake-up has been delivered |
| `CondVar.DecisionOwes` | tools/pthreads-win32/pthread_cond_signal.c:92-138 | A broadcast leaves every registered waiter owed a wake-up, on the no-op branches too; a signal leaves one more owed if there is one that is not; what is posted is what was added |
| `CondVar.ClosedGateAdmitsNobody` | tools/pthreads-win32/pthread_cond_wait.c:385-395 | While a wake-up is owed nobody new registers |
| `CondVar.BroadcastDrains` | tools/pthreads-win32/pthread_cond_signal.c:98-128 | From a broadcast's decision until what it owes has drained, the waiters are only ones that were there, each still owed; when drained, all of them have gone |
| `CondVar.DestroyIsSafe` | tools/pthreads-win32/pthread_cond_destroy.c:139-170 | A condition variable is freed only with no registered waiter and no other thread holding gate or mutex; a refused destroy gives the gate back and changes no counter |
| `CondVar.RefusedIffInUse` | tools/pthreads-win32/pthread_cond_destroy.c:139-170 | Destroy is refused exactly when the mutex is held, or, the mutex being free, when a waiter is registered |
| `CondVar.FreedQuietly` | tools/pthreads-win32/pthread_cond_destroy.c:162-190 | At the free no other thread is past the beginning of a call if and only if no signaller has still to post |
| `CondVar.FreedBeforePost` | tools/pthreads-win32/pthread_cond_signal.c:140-146 | A run in which a signaller has still to post to a condition variable that has been freed: its waiter had timed out |
| `CondVar.CountersFit` | tools/pthreads-win32/pthread_cond_wait.c:301-326 | With at most INT_MAX/2 + 1 threads the three counters stay within a C `int` |
| `CondCalls.StepIsMeant` | tools/pthreads-win32/pthread_cond_signal.c:87-148 | Every step of the protocol refines a simple one of waiters, owed wake-ups and units: a thread becomes a waiter only while nothing is owed, is woken by one unit, takes one owed wake-up along as it leaves; a signal owes one waiter more and a broadcast all, and each posts exactly as many units as it added |
| `CondCalls.WakesAreChosen` | tools/pthreads-win32/pthread_cond_signal.c:140-146 | Over every run the waits that were woken, the units in the queue and those in signallers' hands are together exactly the wake-ups that signals and broadcasts chose to add |
| `CondCalls.SignalWakesOne` | tools/pthreads-win32/pthread_cond_signal.c:92-146 | Over every run without a broadcast no more waits are woken than signals were called |
| `CondCalls.CallsMayBegin` | tools/pthreads-win32/pthread_cond_wait.c:357-440 | A thread outside may make any call, and a wait for the gate or for a wake-up may be given up at any time |
| `Mutex.InitHasInv` | tools/pthreads-win32/pthread_mutex_init.c:84-116 | A fresh mutex (`lock_idx` 0) satisfies the invariants |
| `Mutex.RunsKeepInv` | tools/pthreads-win32/pthread_mutex_lock.c:75-142 | In every run mixing lock, timedlock, trylock and unlock by any number of threads on a normal, recursive or error-checking mutex: `lock_idx` is 0 exactly when nobody holds it and else exactly one thread does, owner and count tell who and how often, and no waiter is stranded |
| `Mutex.MutualExclusion` | tools/pthreads-win32/pthread_mutex_lock.c:75-142 | Two holders are the same thread |
| `Mutex.StepKeepsIndex` | tools/pthreads-win32/pthread_mutex_unlock.c:63-110 | Each exchange or compare-exchange keeps `lock_idx` telling whether the mutex is held |
| `Mutex.StepKeepsNotStranded` | tools/pthreads-win32/pthread_mutex_timedlock.c:137-198 | A thread waiting on the event always has the mark -1, the event set, or a thread about to set one of them, although a contender's first exchange erases the mark |
| `Mutex.StuckMeansHeld` | tools/pthreads-win32/pthread_mutex_unlock.c:63-110 | When nobody can move, a thread waiting on the event waits for one that does hold the mutex |
| `Mutex.FreeMutexWakesSomeone` | tools/pthreads-win32/pthread_mutex_unlock.c:65-84 | If the mutex is free and somebody waits, somebody can move |
| `Mutex.OwnerChecksAreExact` | tools/pthreads-win32/pthread_mutex_lock.c:108-118 | The unlocked read of the owner is exact: EDEADLK, EBUSY or re-entry exactly for the holder, EPERM exactly for the others |
| `Mutex.LastUnlockReleases` | tools/pthreads-win32/pthread_mutex_unlock.c:87-102 | A recursive mutex is given up by the unlock matching its first lock and by no earlier one |
| `Mutex.RefusalChangesNothing` | tools/pthreads-win32/pthread_mutex_trylock.c:83-94 | The step with which a call is refused or times out leaves hold, index, owner and event alone |
| `Mutex.RefusedCallHoldsStill` | tools/pthreads-win32/pthread_mutex_timedlock.c:137-198 | From its beginning to its refusal or time-out a call leaves the caller's hold as it was, and none of its steps touches the owner or makes a held mutex look free |
| `Mutex.SuccessMeansHeld` | tools/pthreads-win32/pthread_mutex_trylock.c:69-95 | Lock, timedlock and trylock succeed only for a thread that then holds the mutex alone |
| `MutexCalls.StepIsMeant` | tools/pthreads-win32/pthread_mutex_trylock.c:69-95 | Every step refines a simple mutex of who holds it how often: a lock or trylock that looks at a free mutex is given it at once, EBUSY exactly when it is held and not the caller's own recursive one, EDEADLK and EPERM exactly by what the caller holds |
| `MutexCalls.CallIsAnswered` | tools/pthreads-win32/pthread_mutex_timedlock.c:110-198 | In every run each call is answered once, at one of its own steps, by what is held at that moment, and not made to look again once the mutex was to be had; ETIMEDOUT is returned only to a timed wait that gave up |
| `MutexCalls.StepUsesWork` | tools/pthreads-win32/pthread_mutex_lock.c:75-142 | Every step inside a call uses up work; a set event pays for one more look of one waiting thread |
| `MutexCalls.CallsRunOut` | tools/pthreads-win32/pthread_mutex_lock.c:75-142 | Without new calls a run has at most 7 steps a thread and 2 more, and where it ends with a call pending somebody holds the mutex |
| `MutexCalls.OnlyWaitersWait` | tools/pthreads-win32/pthread_mutex_unlock.c:63-110 | Inside a call a thread can always go on unless it waits for an event that is not set |
| `MutexCalls.FastPath` | tools/pthreads-win32/pthread_mutex_unlock.c:65-84 | In a run without contention the mutex is never marked and no unlock sets the event |
| `MutexCalls.SleeperLeftToNext` | tools/pthreads-win32/pthread_mutex_lock.c:76-84 | A run in which a mutex is unlocked without setting the event although a thread sleeps, the mark having been exchanged away by one that comes to lock |
| `Barrier.InitHasInv` | tools/pthreads-win32/pthread_barrier_init.c:38-69 | A fresh barrier satisfies the invariants |
| `Barrier.RunsKeepInv` | tools/pthreads-win32/pthread_barrier_wait.c:54-103 | Over every run of any number of threads and rounds: a thread crosses a round only after all N arrived in it, itself among them, and once; it arrives in the next only after N crossed, and once; one serial thread a round; semaphore 0 while threads gather |
| `Barrier.FinishedRound` | tools/pthreads-win32/pthread_barrier_wait.c:90-103 | In a finished round exactly N threads arrived and exactly those crossed, one of them as the serial thread |
| `Barrier.AllCrossBeforeNext` | tools/pthreads-win32/pthread_barrier_wait.c:54-103 | Before anyone arrives in a round, every thread that ever arrives in the one before has crossed it |
| `Barrier.CallPassesOneRound` | tools/pthreads-win32/pthread_barrier_wait.c:54-103 | In every run, between the beginning of a call and its return its thread arrives in one round and crosses that round, once each, and at the return all N have arrived in it |
| `Barrier.CallsRunOut` | tools/pthreads-win32/pthread_barrier_wait.c:54-103 | Without new calls a run has at most 8 steps a thread, and where it can go no further exactly the threads of a round short of arrivals are inside |
| `Barrier.StepKeepsInside` | tools/pthreads-win32/pthread_barrier_wait.c:54-103 | The threads inside are exactly those that have arrived in the current round and not yet crossed it |
| `Barrier.GatherStep` | tools/pthreads-win32/pthread_barrier_wait.c:54-90 | Arriving, and handing the lock over to the proxy, keeps the phase's counts of height, semaphore and waiting threads |
| `Barrier.DisperseStep` | tools/pthreads-win32/pthread_barrier_wait.c:90-103 | Posting, waking and crossing keeps them, up to the last thread out |
| `Barrier.AppendInOrder` | tools/pthreads-win32/pthread_barrier_wait.c:54-103 | A history in order stays so under an event whose turn has come |
| `Barrier.DispersingMoves` | tools/pthreads-win32/pthread_barrier_wait.c:57-76 | The proxy holds the lock only while some thread of the round can move |
| `Barrier.StuckMeansShort` | tools/pthreads-win32/pthread_barrier_wait.c:77-90 | When nobody inside can move, the round lacks arrivals: no thread is left behind by a full round |
| `RobustMutex.Process.HeldIsOwned` | tools/pthreads-win32/pthread_mutex_consistent.c:104-113 | A live thread's list holds exactly the robust mutexes it owns, and lists of different threads share no node |
| `RobustMutex.Mutex.constructor` | tools/pthreads-win32/pthread_mutex_init.c:84-111 | A robust mutex starts free, consistent, with its own list node |
| `RobustMutex.Process.Add` | tools/pthreads-win32/pthread_mutex_consistent.c:114-138 | The mutex goes to the front of its new owner's list, the rest in order |
| `RobustMutex.Process.Remove` | tools/pthreads-win32/pthread_mutex_consistent.c:140-162 | The mutex leaves the list from wherever it stands, the rest in order |
| `RobustMutex.Process.TryLock` | tools/pthreads-win32/pthread_mutex_trylock.c:97-154 | The result by state and owner, who then owns and lists the mutex; lists stay well formed, and a waiting thread keeps the mark or the event to count on |
| `RobustMutex.Process.Lock` | tools/pthreads-win32/pthread_mutex_lock.c:145-262 | The same for a blocking lock up to its first wait, EDEADLK included |
| `RobustMutex.Process.Contend` | tools/pthreads-win32/pthread_mutex_lock.c:229-250 | One turn of the waiting loop takes over, acquires or marks the mutex, which keeps or gets the mark -1 unless it is taken over, and keeps all lists well formed |
| `RobustMutex.Process.Woken` | tools/pthreads-win32/pthread_mutex_lock.c:234-250 | After a wait: another turn, or, of an unrecoverable mutex, the refusal, with the event set again for the next waiter; afterwards a waiting thread has the mark or the event to count on if and only if this one did not take over an unmarked abandoned mutex while others wait |
| `RobustMutex.Process.Unlock` | tools/pthreads-win32/pthread_mutex_unlock.c:111-172 | Only the owner releases; released, the mutex is off the list, its order kept, and the event is set if the mutex was marked as waited for; an unrepaired one becomes unrecoverable |
| `RobustMutex.Process.MakeConsistent` | tools/pthreads-win32/pthread_mutex_consistent.c:165-191 | Exactly an inconsistent mutex is repaired |
| `RobustMutex.Process.Detach` | tools/pthreads-win32/pthread_win32_attach_detach_np.c:224-241 | Ending a thread empties its list, terminates, and leaves exactly its mutexes to be taken over, each with its event set |
| `RobustMutex.Process.TakeOver` | tools/pthreads-win32/pthread_mutex_consistent.c:52-58 | The next thread to try an ended owner's mutex is told so and owns it |
| `RobustMutex.Process.AfterTakingOver` | tools/pthreads-win32/pthread_mutex_consistent.c:55-70 | Repaired and unlocked as often as locked, the mutex works as before; unlocked without repair it is refused to everyone |
| `RobustMutex.Process.UnrecoverableForgotten` | tools/pthreads-win32/pthread_mutex_unlock.c:125-150 | A recursive mutex can be unrecoverable while held, and is then taken over again when its holder ends |
| `RobustMutex.Process.LeftWaiting` | tools/pthreads-win32/pthread_mutex_lock.c:224-250 | Of two threads that wait the first takes over a mutex that an ended thread had locked anew, repairs and unlocks it, and the second is left waiting for a free mutex with no event set |
| `LinkedList.PushFront` | tools/pthreads-win32/pthread_mutex_consistent.c:123-137 | A node put in front of a well-linked list makes it one longer |
| `LinkedList.Remove` | tools/pthreads-win32/pthread_mutex_consistent.c:148-161 | A node taken out anywhere leaves a well-linked list and the right head |
| `LinkedList.Bridged` | tools/pthreads-win32/pthread_mutex_consistent.c:150-157 | Bridging the gap is all a removal needs |
| `CondList.CondVars.Join` | tools/pthreads-win32/pthread_cond_init.c:138-162 | A new condition variable joins the global list at its tail |
| `CondList.CondVars.Leave` | tools/pthreads-win32/pthread_cond_destroy.c:194-212 | A destroyed one leaves it from anywhere, head, tail and order of the rest kept |
| `JsonValue.PutSorted` | tools/jsoncpp/jsoncpp.cpp:676-686 | Storing a member keeps the object in name order |
| `JsonValue.PutFind` | tools/jsoncpp/jsoncpp.cpp:676-686 | What is stored is found, and no other member changes |
| `JsonValue.LessIs` | tools/jsoncpp/jsoncpp.cpp:1725-1731 | Names are ordered by their first difference, as `strcmp` does, a name before those that go on from it |
| `JsonScan.NextToken` | tools/jsoncpp/jsoncpp.cpp:434-506 | Reading a token always takes something from the input unless it is at the end, and stays inside the document |
| `JsonNumber.IntegerTokenExact` | tools/jsoncpp/jsoncpp.cpp:743-792 | A token of digits decodes to the number it spells if and only if that number is in range |
| `JsonNumber.PastTheRange` | tools/jsoncpp/jsoncpp.cpp:773-786 | What becomes of every token past the range, with a sign or without: the double scanner, or, with a last digit up to that of the limit, the number reduced to 64 bits and, after a sign, negated |
| `JsonNumber.OverflowSlipsThrough` | tools/jsoncpp/jsoncpp.cpp:773-783 | 18446744073709551620 reads as 4 |
| `JsonNumber.SignSlipsThrough` | tools/jsoncpp/jsoncpp.cpp:773-786 | -9223372036854775811 reads as 9223372036854775805 |
| `JsonNumber.IntTextDecodes` | tools/jsoncpp/jsoncpp.cpp:743-792 | The decimal text of every 64-bit number, signed or unsigned, decodes to that number |
| `JsonNumber.SpellingDecodes` | tools/jsoncpp/jsoncpp.cpp:743-792 | Every integer as RFC 8259 section 6 spells it, -0 included, decodes to its number when that is in range |
| `JsonDoc.Unescapes` | tools/jsoncpp/jsoncpp.cpp:833-877 | Escapes, Unicode and surrogate pairs included, decode to the text they stand for |
| `JsonDoc.Utf8Is` | tools/jsoncpp/jsoncpp.cpp:101-129 | What an escaped code point is decoded to is its UTF-8 form (RFC 3629, section 4), and the only string that decodes back to it |
| `JsonDoc.EscapesAreUtf8` | tools/jsoncpp/jsoncpp.cpp:880-906 | The text of an escape or of a surrogate pair decodes, as UTF-8, to the code point that its digits spell |
| `JsonDoc.Characters` | tools/jsoncpp/jsoncpp.cpp:866-876 | White space, number characters, hexadecimal digits and two-character escapes are those of RFC 8259, for every character |
| `JsonDoc.StringReads` | tools/jsoncpp/jsoncpp.cpp:624-636 | A spelled string is one token with its text |
| `JsonDoc.ValueReads` | tools/jsoncpp/jsoncpp.cpp:355-403 | A spelled value of any shape is read as its meaning, up to where it ends |
| `JsonDoc.DocumentReads` | tools/jsoncpp/jsoncpp.cpp:311-352 | Every document of RFC 8259 sections 2 to 7 (any white space, any escapes, surrogates in pairs; integers in 64 bits, -0 included; doubles as their scanner takes them) is accepted and read as its meaning |
| `JsonNumber.RealIsDouble` | tools/jsoncpp/jsoncpp.cpp:743-757 | Every number of RFC 8259, section 6, with a fraction or an exponent is left to the floating point scanner |
| `JsonAccepts.AcceptedIsDocument` | tools/jsoncpp/jsoncpp.cpp:311-403 | The converse: of any text without comments, what the reader accepts is spelled as a document (with the leniencies the code has: number tokens, raw control characters, a comma after a member of empty name), and its value is what that means; strict mode wants an array or an object |
| `JsonAccepts.StringTaken` | tools/jsoncpp/jsoncpp.cpp:834-877 | A string is accepted only if nothing but the escapes of RFC 8259 occurs in it, and means what they spell |
| `JsonAccepts.NumberTokens` | tools/jsoncpp/jsoncpp.cpp:743-800 | A number token is decoded as an integer only where it is all digits behind a sign; any other goes to the scanner |
| `JsonAccepts.AsidesSkipped` | tools/jsoncpp/jsoncpp.cpp:539-610 | Comments and the white space before them are skipped whole, a block up to its first closing mark, a line to its end |
| `JsonAccepts.CommentsBefore` | tools/jsoncpp/jsoncpp.cpp:407-420 | A document behind comments is read as the document where comments are allowed, and refused where they are not |
| `JsonAccepts.CommentsAfterElement` | tools/jsoncpp/jsoncpp.cpp:719-733 | After an array element comments are skipped, allowed or not, and then a comma or the bracket must come |
| `JsonAccepts.AnythingAfterComment` | tools/jsoncpp/jsoncpp.cpp:676-690 | After a member and a comment, whatever token comes stands for the comma |
| `JsonReader.Reader.ReadToken` | tools/jsoncpp/jsoncpp.cpp:434-506 | The cursor moves to the end of the token that the text has there |
| `JsonReader.Reader.RecoverFromError` | tools/jsoncpp/jsoncpp.cpp:949-963 | Recovery ends, behind the first token of the kind it looks for or at the end of the document, and reports nothing |
| `JsonReader.Reader.DecodeNumberToken` | tools/jsoncpp/jsoncpp.cpp:743-792 | The digit loop decodes as JsonNumber says, with one error at most |
| `JsonReader.Reader.DecodeStringToken` | tools/jsoncpp/jsoncpp.cpp:833-877 | The escape loop resolves the token or reports an error |
| `JsonReader.Reader.DecodeUnicodeCodePoint` | tools/jsoncpp/jsoncpp.cpp:879-906 | A code point, or both halves of a surrogate pair |
| `JsonReader.Reader.DecodeUnicodeEscapeSequence` | tools/jsoncpp/jsoncpp.cpp:909-932 | Four hexadecimal digits, or an error |
| `JsonReader.Reader.ReadValue` | tools/jsoncpp/jsoncpp.cpp:355-403 | Ends on every input; success, error and recovery alike leave the value stack at its entry depth and untouched below its top |
| `JsonReader.Reader.ReadArray` | tools/jsoncpp/jsoncpp.cpp:699-739 | The same for an array; on success its elements in order |
| `JsonReader.Reader.ReadItems` | tools/jsoncpp/jsoncpp.cpp:711-738 | Its loop: one stack entry pushed and popped an element, whatever happens in between |
| `JsonReader.Reader.ReadObject` | tools/jsoncpp/jsoncpp.cpp:640-695 | The same for an object; a repeated name keeps its last value |
| `JsonReader.Reader.ReadMember` | tools/jsoncpp/jsoncpp.cpp:657-682 | One member, stored under its name |
| `JsonReader.Reader.ParseDocument` | tools/jsoncpp/jsoncpp.cpp:311-352 | Total: always ends with the cursor inside the document and one value on the stack; no error is reported exactly when the document has a value, which is the root |
| `JsonText.UIntToString` | tools/jsoncpp/jsoncpp.cpp:159-171 | The digits and a NUL, written backwards inside the buffer, at most 21 of its 25 characters |
| `JsonText.SignedToString` | tools/jsoncpp/jsoncpp.cpp:3418-3430 | The decimal text of every signed 64-bit number, in the buffer with its sign |
| `JsonText.UnsignedToString` | tools/jsoncpp/jsoncpp.cpp:3433-3440 | The decimal text of every unsigned 64-bit number |
| `JsonText.PiecesMean` | tools/jsoncpp/jsoncpp.cpp:3503-3564 | The escaped form of a NUL-free string means that string |
| `JsonText.NoControlIsSpelled` | tools/jsoncpp/jsoncpp.cpp:3503-3570 | No control character is written raw: the quoted form of a NUL-free string has none |
| `JsonText.ValueToQuotedString` | tools/jsoncpp/jsoncpp.cpp:3503-3564 | The shortcut and the escaping loop both give the escaped form |
| `JsonWriter.FastMeans` | tools/jsoncpp/jsoncpp.cpp:3599-3655 | The compact form is a document that means the value |
| `JsonWriter.FastWriter.Write` | tools/jsoncpp/jsoncpp.cpp:3589-3596 | The text is that document and a newline |
| `JsonWriter.FastWriter.WriteValue` | tools/jsoncpp/jsoncpp.cpp:3599-3655 | Appends exactly the value's compact form |
| `JsonWriter.FastWriter.WriteArray` | tools/jsoncpp/jsoncpp.cpp:3622-3634 | The same for arrays |
| `JsonWriter.FastWriter.WriteObject` | tools/jsoncpp/jsoncpp.cpp:3635-3653 | The same for objects, in both YAML modes |
| `JsonStyled.StyledWriter.Write` | tools/jsoncpp/jsoncpp.cpp:3668-3679 | The text is some document that means the value, and a newline |
| `JsonStyled.StyledWriter.WriteValue` | tools/jsoncpp/jsoncpp.cpp:3682-3740 | Appends such a document, or in measuring mode adds its text to `childValues_`, and never both |
| `JsonStyled.StyledWriter.WriteArrayValue` | tools/jsoncpp/jsoncpp.cpp:3743-3793 | The same for arrays in either layout |
| `JsonStyled.StyledWriter.WriteLines` | tools/jsoncpp/jsoncpp.cpp:3752-3779 | Elements a line each, from their texts if measured |
| `JsonStyled.StyledWriter.WriteLine` | tools/jsoncpp/jsoncpp.cpp:3780-3792 | Elements on one line |
| `JsonStyled.StyledWriter.WriteObjectValue` | tools/jsoncpp/jsoncpp.cpp:3706-3737 | The same for objects |
| `JsonStyled.StyledWriter.IsMultilineArray` | tools/jsoncpp/jsoncpp.cpp:3796-3824 | The exact layout criterion; afterwards `childValues_` is empty or has one text for each element |
| `JsonStyled.StyledWriter.Measure` | tools/jsoncpp/jsoncpp.cpp:3810-3822 | The measuring loop leaves one text for each element in `childValues_`, and the length of the line they would make |
| `JsonRoundTrip.NormDecides` | tools/jsoncpp/jsoncpp.cpp:784-791 | Normal forms are equal exactly for values that are equal with integers compared by number |
| `JsonRoundTrip.CompactReads` | tools/jsoncpp/jsoncpp.cpp:3589-3596 | Compact round trip: every writable value's compact form reads back as the value, in both YAML modes |
| `JsonRoundTrip.CompactIsFaithful` | tools/jsoncpp/jsoncpp.cpp:3589-3596 | Equal compact texts come only from equal values |
| `JsonRoundTrip.WriteBoth` | tools/jsoncpp/jsoncpp.cpp:3668-3679 | What the two printers print is read as the same value, the one printed |
| `JsonRoundTrip.RoundTrip` | tools/jsoncpp/jsoncpp.cpp:282-292 | Writing with either writer and reading back gives the value, with no error |
| `InfoString.GetIsLookup` | client/Utils.cc:12-61 | On a well-formed text, looking a key up is looking it up in the map |
| `InfoString.FindsFirst` | client/Utils.cc:32-58 | Searching finds the first pair with that key and where it stands |
| `InfoString.RemovedIsDrop` | client/Utils.cc:93-139 | Removing a key removes its pair and nothing else |
| `InfoString.SetIs` | client/Utils.cc:63-91 | What a set leaves, in every case, the cut pair included |
| `InfoString.SetRefinesMap` | client/Utils.cc:63-91 | A pair that fits is stored; an empty value removes; a pair that does not fit leaves exactly the text without the key, or is stored cut short where that is nothing; forbidden characters change nothing |
| `InfoString.SetStaysWellFormed` | client/Utils.cc:79-91 | A set leaves a well-formed text if and only if it does not cut into the key |
| `InfoString.LongPairIsCut` | client/Utils.cc:79-91 | Into an empty buffer, a value of 8192 characters is stored cut short |
| `InfoString.GetAfterSet` | client/Utils.cc:63-91 | What was set is read back if and only if the pair fits with what stays |
| `InfoString.RunsStayGood` | client/Utils.cc:63-139 | After any sequence of sets and removes, with keys that leave room for a value, the text is well formed, each key once, within the buffer |
| `InfoString.InfoValueForKey` | client/Utils.cc:12-61 | The loops over the buffer find what Get says, for every C string |
| `InfoString.InfoRemoveKey` | client/Utils.cc:93-139 | In place, in a buffer of any size: the text becomes what Removed says, for every C string, its copies within bounds |
| `InfoString.InfoSetValueForKey` | client/Utils.cc:63-91 | In place, in every buffer with room for the result: the text becomes what Set says and stays terminated |
| `Tokenizer.SpelledReads` | client/StringTokenizer.h:36-129 | Tokens spelled in quotes or as words, with blanks and closed block comments between, are read back, all or the first 1024, with quotes heeded or ignored; a line comment or a block comment never closed ends the text |
| `Tokenizer.QuotedTextsRead` | client/StringTokenizer.h:84-99 | Any quote-free texts, empty ones and comment markers included, survive quoting and joining |
| `Tokenizer.TokenStart` | client/StringTokenizer.h:55-82 | What is found lies behind blanks and whole comments, is visible and starts no comment |
| `Tokenizer.TokenAt` | client/StringTokenizer.h:84-127 | A token is never longer than what is read for it, and reading moves on |
| `Tokenizer.StringTokenizer.SetNewSourceString` | client/StringTokenizer.h:36-129 | The tokens are those of the text; what is written is at most what is read plus a NUL a token, so it fits the buffer |
| `Tokenizer.StringTokenizer.TakeToken` | client/StringTokenizer.h:84-127 | One token is added behind the others, which stay as they were |
| `Tokenizer.StringTokenizer.Advance` | client/StringTokenizer.h:51-127 | Each turn of the outer loop moves on or ends it, and keeps what is written within what is read plus a NUL a token |
| `Tokenizer.StringTokenizer.SkipToToken` | client/StringTokenizer.h:55-82 | The skipping loop ends at the next token, or tells that there is none |
| `Tokenizer.StringTokenizer.Argv` | client/StringTokenizer.h:131-141 | Each token's text by its number, empty beyond the last |
| `Qvm.SwapTwice` | client/Q3Vm.cc:17-27 | Swapping is its own inverse and reverses the bytes |
| `Qvm.IntByteSwap` | client/Q3Vm.cc:17-27 | The shifts and sums reverse the bytes of every 32-bit integer, sign included |
| `Qvm.CodeReads` | client/Q3Vm.cc:594-644 | The loader reads exactly the instructions that were laid down, in either byte order |
| `Qvm.WidthIs` | client/Quake3.h:331-393 | Each opcode has the parameter width of the instruction table: a word for ENTER, LEAVE, CONST, LOCAL, EQ to GEF and BLOCK_COPY, a byte for ARG |
| `Qvm.WordsRead` | client/Q3Vm.cc:647-658 | Data words laid down in either byte order load to the same bytes |
| `Qvm.HeaderReads` | client/Q3Vm.cc:531-546 | The header is recognised and read in either byte order |
| `Qvm.ImageLoads` | client/Q3Vm.cc:531-661 | Every well-formed image loads to its program's instructions, data words, literals and zeros |
| `Qvm.TwinsLoadAlike` | client/Q3Vm.cc:534-546 | An image and its byte-swapped twin load to the same code and data |
| `Qvm.WholeWhenWords` | client/Q3Vm.cc:651-661 | In either byte order the bytes behind the last whole data word, literals included, arrive whole if and only if as many at their end are zero as the data is longer than whole words |
| `Qvm.LiteralLost` | client/Q3Vm.cc:651-661 | One byte of data and one literal: the literal is lost |
| `Qvm.Mask` | client/Q3Vm.cc:559-565 | The mask plus one is the least power of two above the segment sizes |
| `Qvm.Q3Vm.Create` | client/Q3Vm.cc:531-666 | Refuses exactly unacceptable headers; else the segments, their lengths, the mask and the registers are those of the image |
| `Qvm.LoadCode` | client/Q3Vm.cc:594-644 | The instruction loop fills the code segment with what Code says |
| `Qvm.LoadInstruction` | client/Q3Vm.cc:599-644 | One instruction becomes its opcode and its parameter, read in the image's byte order |
| `Qvm.LoadData` | client/Q3Vm.cc:647-661 | The data loop and the copy fill the data segment |
| `CommandList.KeptAre` | server/CompatibilityManager.cc:231-271 | What deletion keeps is exactly the entries that do not go by the name |
| `CommandList.Commands.AddCommand` | server/CompatibilityManager.cc:191-229 | Appends one entry, its command cut to what fits |
| `CommandList.Commands.DelCommand` | server/CompatibilityManager.cc:231-274 | Terminates, and leaves exactly the entries that do not go by the name, in order, well linked |
| `CommandList.Commands.UnlinkFirst` | server/CompatibilityManager.cc:236-249 | The first entry leaves, the rest well linked |
| `CommandList.Commands.UnlinkMiddle` | server/CompatibilityManager.cc:251-259 | An entry leaves the middle, the rest well linked |
| `CommandList.Commands.UnlinkLast` | server/CompatibilityManager.cc:261-268 | The last entry leaves, the rest well linked |

## Left out

- Read/write locks, spin locks, `pthread_once`, thread creation, join and keys.
- The condition variable's external mutex, static initialisation, the lock around the global list, the maximum of
  a semaphore, and failing system calls.
- CondVar.DestroyIsSafe: a signaller that has left the mutex and has still to post is not excluded, because the code
  does not exclude it; `CondVar.FreedQuietly` has the exact condition.
- A condition variable cancelled in its wait for the gate: modelled as giving up, as a timeout is.
- Unlocking a normal mutex that the caller does not hold, which POSIX leaves undefined.
- Waiting itself in robust locks, and `pthread_mutex_timedlock` on robust mutexes.
- RobustMutex.Process.Lock: the call is one step up to its first wait, so steps of other threads inside it are not
  interleaved; the lists it is about are touched by their own thread only.
- RobustMutex.Process.Contend: one turn; the wait that follows it is the caller's, and what it finds is in `Woken`.
- Doubles in JSON: a double is the text it was scanned from, its scanner a parameter.
- JsonWriter.FastWriter.Write: values without doubles (so its WriteValue, WriteArray, WriteObject too), because
  `sprintf` is not modelled.
- JsonStyled.StyledWriter.Write: values without doubles or comments (so its other methods too). The exact column
  layout is not specified, only that the text means the value and which layout an array gets.
- JSON comments as values (collecting and writing them back); the reader skips them as the code does.
- JsonAccepts.AcceptedIsDocument: texts with comment marks, inside strings too; with comments the reader also takes
  what no document spells (`JsonAccepts.AnythingAfterComment`).
- The value left behind by a document that is refused, and which of several faults is reported, beyond their number
  and, in strings, the fault of an escape.
- Error positions as line and column, message texts (an enumeration stands for them), `JSON_VALUE_USE_INTERNAL_MAP`
  and CPPTL builds, C++ array indices of 32 bits.
- InfoString.InfoValueForKey: returns a copy; the two static result buffers used in turn are not modelled.
- InfoString.InfoRemoveKey: texts of BIG_INFO_STRING characters or more, of which the code warns and goes on, its
  copies then being too short.
- InfoString.InfoSetValueForKey: the same; a null value, which the code reads before it tests it; and buffers without
  room for the result, of whose size the code knows nothing. `snprintf` is taken to be that of C99.
- InfoString.RunsStayGood: keys that fill the buffer alone, with which it fails by `InfoString.SetStaysWellFormed`.
- Tokenizer.StringTokenizer.SetNewSourceString: a source text of BIG_INFO_STRING characters or more is not modelled.
- Qvm.Mask: sizes from 2^30 on, where the shift leaves the range of a C `int`.
- Qvm.Q3Vm.Create: parts of an image are taken to lie inside it and behind its header, as the code does without a
  check; reloading into old memory and failing allocation are not modelled.
- The QVM interpreter and system calls, `Restart`, module loading, SQL, consoles, RPC, plugins and the asynchronous
  executors.
- Allocation and freeing of list nodes: a removed node is simply no longer on its list.
