# Verified models of a systems-programming course

This project models the solved homeworks and the hand-written synchronisation examples of a systems
programming course written in C, and proves what they are for. `dafny verify dfyconfig.toml` checks all of it.

| files | what they model |
|---|---|
| `Scheduler.dfy`, `Programs.dfy`, `LibCoro.dfy` | the cooperative coroutine scheduler: a state machine, coroutine bodies as programs of yields, spawns and a return, and the library's own code over its doubly linked list, with `next`, `prev`, the globals and the saved contexts as real fields |
| `MergeSort.dfy`, `KWayMerge.dfy`, `Pool.dfy`, `SortMain.dfy`, `SortOnArrays.dfy`, `SortOnHeap.dfy` | the coroutine pool that reads, sorts and merges files: the in-place sort on arrays with 32-bit indices, the k-way merge, the pool under any interleaving at the yields, the whole program, the same with its data in real arrays, and the pool on the library's heap |
| `SharedChannel.dfy` | the two-flag shared-memory channel, interleaved byte by byte |
| `Detach.dfy`, `DetachSweep.dfy`, `Futex.dfy`, `Condvar.dfy`, `Semaphore.dfy`, `EventCollector.dfy` | thread and process synchronisation, for any number of participants |
| `CharStack.dfy`, `Parser.dfy`, `Tokens.dfy`, `Command.dfy` | the shell's character stacks, tokenizer and command grouper |
| `MersenneTwister.dfy` | the in-place random generator |
| `Sums.dfy`, `Options.dfy`, `Integers.dfy` | sums of a weight over a sequence, used by the counting arguments; values that may be missing; C's `int` |

Code that one thread executes alone is imperative Dafny: classes with the source's fields, arrays that are
changed in place, the source's loops; each method is proved against a function or a state machine, and the
results are lemmas about that. Code whose point is the interleaving of several threads, processes or coroutines
is a state machine whose steps are the source's atomic steps; `Run` relates two states by any sequence of
enabled steps, so a lemma about `Run` holds in every schedule. Memory is sequentially consistent.

In the scheduler, `sigsetjmp` stores who executes and which pointer the code holds, `siglongjmp` makes that
code execute again; the pointer it then writes to `coro_this_ptr` is the stored one. `coro_sched_wait` is called
from the scheduler's context only, `coro_yield` from coroutines only.

## What the code does and its comments do not say

- Outside quotes, a backslash before `|`, `>` or `&` at the start of a word drops the operator and makes a word
  of the character after it (`2/solution/parser.c:295-316`); the comment there expects the operator. See
  `Tokens.EscapedOperatorValue` for what becomes of it and `Tokens.EscapedOperatorSurvives` for exactly when it survives.
- `2/solution/parser.c:40-401` drops a last word whose quote is never closed. `Tokens.LastWordNeedsItsQuote` says that
  it comes out if and only if the quote is closed; `Tokens.UnclosedWordIsLost` is an instance.
- `1/solution/solution.c:231` asks `realloc` for 0 bytes when a file holds no integers, and the program may end
  there. See `SortMain.AbortsExactlyOnEmptyFiles`.
- The counter `zeros` of the k-way merge comes down to 0, as the comment at `1/solution/solution.c:265-269` has it, if
  and only if no row is empty from the start (`KWayMerge.ZerosAtEnd`, carried to the end of `KWayMerge.WriteResult`;
  `KWayMerge.ZerosStaysUp` is an instance of the other case). With an empty row the loop ends because no row has a
  number left. The function itself takes such rows; the program passes one only where a `realloc` of 0 bytes does not
  return NULL, and where it does, the counter ends at 0 (`SortMain.SortFiles`).
- Seeded with 0, and only then, every word that the generator returns is 0. See `MersenneTwister.ZeroSeed`.
- `condvar_signal` writes the flag down again before it returns; that write never erases a signal. See
  `Condvar.LastWriteErasesNothing`.

## Model

| member | source | states |
|---|---|---|
| `Scheduler.SafeWhileRunning` | 1/solution/libcoro.c:101-121 | in every run, with coroutines created anywhere: while a coroutine runs, `coro_this_ptr` names it, the scheduler waits and no listed coroutine is finished; so its yield resumes an unfinished coroutine or the scheduler in that one's own context, and its return finds the scheduler |
| `Scheduler.NeverFails` | 1/solution/libcoro.c:175-182 | the branch "no place to return" is unreachable |
| `Scheduler.YieldLaw` | 1/solution/libcoro.c:101-145 | whenever the scheduler is back, a live coroutine has yielded exactly once per round since its creation, less one for each younger coroutine that has finished |
| `Scheduler.Fairness` | 1/solution/libcoro.c:52-74 | of two live coroutines of the same birth round the one nearer the head is ahead by exactly the number of finished ones between them, so by at most all finished ones |
| `Scheduler.HarvestedOnce` | 1/solution/libcoro.c:130-145 | what `coro_sched_wait` has returned is finished and was returned once; the list is empty if and only if every coroutine ever created was returned |
| `Scheduler.FirstFinished` | 1/solution/libcoro.c:134-139 | the first finished entry of the list, with no finished one before it |
| `Scheduler.NextIsBelow` | 1/solution/libcoro.c:112-121 | the successor of a listed coroutine is the next older one that is still listed; none for the oldest |
| `Scheduler.NewInv` | 1/solution/libcoro.c:185-257 | creating a coroutine, by anybody, keeps the scheduler's invariant |
| `Scheduler.YieldInv` | 1/solution/libcoro.c:100-121 | a yield keeps it |
| `Scheduler.ReturnInv` | 1/solution/libcoro.c:174-182 | the end of a body keeps it |
| `Scheduler.WaitInv` | 1/solution/libcoro.c:130-145 | an iteration of the wait loop keeps it |
| `Programs.HarvestComplete` | 1/solution/libcoro.c:130-145 | for any bodies with finitely many yields and spawns the loop over `coro_sched_wait` ends; every coroutine, spawned ones included, is returned exactly once, with its body's return value and exactly its body's yields |
| `Programs.FamilyComplete` | 1/solution/libcoro.c:184-257 | the coroutines that come into being are exactly main's own and all their offspring, as a multiset of bodies |
| `Programs.NextFamily` | 1/solution/libcoro.c:100-182 | every step keeps the multiset of born and still unborn coroutines |
| `Programs.NextDecreases` | 1/solution/libcoro.c:100-145 | every step leaves fewer actions, or as many and a shorter list, or hands control from the scheduler to a coroutine |
| `Programs.AlwaysNext` | 1/solution/libcoro.c:130-182 | somebody can always go on until all coroutines are returned |
| `Programs.StepsToTheEnd` | 1/solution/libcoro.c:130-145 | whoever steps until nothing is left arrives at the outcome of the main loop |
| `LibCoro.Library.constructor` | 1/solution/libcoro.c:123-128 | the initialised globals are the state machine's initial state |
| `LibCoro.Library.ListAdd` | 1/solution/libcoro.c:52-60 | over `next`/`prev` nodes: the new node in front, the rest of the list unchanged |
| `LibCoro.Library.ListDelete` | 1/solution/libcoro.c:63-74 | the list without the node, in order, at any position |
| `LibCoro.Library.Save` | 1/solution/libcoro.c:104-106 | counts the switch on `coro_this_ptr` and stores the executing context in it, as the state machine does |
| `LibCoro.Library.Jump` | 1/solution/libcoro.c:107-108 | the resumed code executes and restores `coro_this_ptr`; the scheduler lowers `is_sched_waiting` |
| `LibCoro.Library.YieldTo` | 1/solution/libcoro.c:100-109 | the heap follows the state machine's switch to any unfinished coroutine or to the scheduler |
| `LibCoro.Library.Yield` | 1/solution/libcoro.c:111-121 | `coro_yield`, found through the `next` field, is the state machine's yield; the list stays linked |
| `LibCoro.Library.NextNode` | 1/solution/libcoro.c:114-120 | the `next` field of a listed node is the state machine's successor, NULL at the end |
| `LibCoro.Library.Return` | 1/solution/libcoro.c:174-182 | the end of `coro_body`, both branches, is the state machine's return |
| `LibCoro.Library.Make` | 1/solution/libcoro.c:160-171 | the detour through the new stack leaves a context that resumes the new coroutine, and `coro_this_ptr` as it was |
| `LibCoro.Library.New` | 1/solution/libcoro.c:184-257 | `coro_new` yields a fresh coroutine at the head of the list, everything else as it was |
| `LibCoro.Library.RunAction` | 1/solution/libcoro.c:100-182 | one action of the executing coroutine on the heap is the state machine's action; only new nodes are added |
| `LibCoro.Library.Scan` | 1/solution/libcoro.c:134-139 | the `for` loop over `next` fields finds the first finished coroutine or none |
| `LibCoro.Library.Harvest` | 1/solution/libcoro.c:135-138 | taking that node off is the state machine's harvest |
| `LibCoro.Library.StartRound` | 1/solution/libcoro.c:140-141 | otherwise the head of the list runs, as in the state machine |
| `LibCoro.Library.RunCoroutines` | 1/solution/libcoro.c:100-142 | coroutines run until the scheduler is back, which they reach with less work left and without a harvest |
| `LibCoro.Library.SchedWait` | 1/solution/libcoro.c:130-145 | terminates; returns the next finished coroutine of the harvest, NULL only when none is left |
| `LibCoro.Library.WaitAll` | 1/solution/solution.c:404-413 | the main loop terminates in the state machine's outcome |
| `LibCoro.Program` | 1/solution/solution.c:373-413 | any bodies: the heap program ends with an empty list and every coroutine that came into being, spawned ones included, finished with its body's return value and yields in its fields; those are main's own and all their offspring |
| `MergeSort.CopyOut` | 1/solution/solution.c:74-80 | a fresh copy of a stretch of the array |
| `MergeSort.Interleave` | 1/solution/solution.c:82-93 | what is written and the merge of what is left is the merge of both halves; line 84 is evaluated once per element written |
| `MergeSort.PutBack` | 1/solution/solution.c:95-105 | the rest of one half goes to the end, nothing else changes |
| `MergeSort.MeMerge` | 1/solution/solution.c:61-109 | the two blocks are merged in place and the cells around them unchanged; every access is in bounds and, below 2^30 elements, no int expression overflows |
| `MergeSort.MeMergesort` | 1/solution/solution.c:111-150 | in place: the array becomes all passes of itself; bounds on comparisons, exact number of yields; below 2^30 elements no int expression of the code leaves its 32 bits, as every index and size is an `int32` |
| `MergeSort.MergeOne` | 1/solution/solution.c:122-131 | one iteration of the inner loop, as the pool's step sees it, keeps the sort's outcome |
| `MergeSort.SortPass` | 1/solution/solution.c:117-147 | one iteration of the outer loop keeps the outcome and yields once per merge and once more |
| `MergeSort.ResumeMerge` | 1/solution/solution.c:120-131 | a sort interrupted before a merge and one interrupted after it arrive at the same array |
| `MergeSort.ResumeNextPass` | 1/solution/solution.c:117-120 | so do sorts interrupted at the end of a pass and at the start of the next |
| `MergeSort.MergeSorted` | 1/solution/solution.c:82-105 | merging sorted blocks gives a sorted block |
| `MergeSort.MergeBag` | 1/solution/solution.c:82-105 | merging keeps the multiset |
| `MergeSort.PassDoublesRuns` | 1/solution/solution.c:120-140 | after a pass over sorted blocks of width w, blocks of width 2w are sorted, the leftover single element included |
| `MergeSort.SortCorrect` | 1/solution/solution.c:111-150 | for every length the result is a sorted permutation |
| `MergeSort.SortedUnique` | 1/solution/solution.c:111-150 | there is only one sorted permutation |
| `MergeSort.ComparesClosed` | 1/solution/solution.c:84-84 | the bound on evaluations of line 84 is n * (floor(log2 n) + 1) |
| `MergeSort.YieldsClosed` | 1/solution/solution.c:117-147 | the yields of one sort are sum for p = 0..floor(log2 n) of (ceil((n-1)/2^(p+1)) + 1) |
| `MergeSort.FitsExactlyBelow30` | 1/solution/solution.c:117-120 | the bound 2^30 is tight: the doubled width and the next start of the inner loop stay in a 32-bit int in every pass if and only if n < 2^30 |
| `MergeSort.ReadFile` | 1/solution/solution.c:205-246 | the array holds exactly the stream; it fails exactly on an empty one; never more than twice the input is allocated; no int expression overflows below 2^30 integers |
| `KWayMerge.SmallestHead` | 1/solution/solution.c:280-301 | a row with a smallest unwritten head, or -1 exactly when no row has one |
| `KWayMerge.TakeSmallest` | 1/solution/solution.c:280-307 | one iteration keeps the multiset, the order and the meaning of `zeros` (unexhausted rows plus rows empty from the start) |
| `KWayMerge.WriteResult` | 1/solution/solution.c:258-315 | the output is the multiset union of the rows, and sorted if the rows are; the counter `zeros` ends at the number of rows that were empty from the start |
| `KWayMerge.ZerosAtEnd` | 1/solution/solution.c:265-270 | with everything written `zeros` is the number of rows empty from the start; it is 0 if and only if there is none |
| `KWayMerge.ZerosStaysUp` | 1/solution/solution.c:279-307 | two rows after which it ends at 1 |
| `KWayMerge.MergingStep` | 1/solution/solution.c:302-310 | moving on in a row with a smallest head keeps the loop's invariant and leaves less |
| `KWayMerge.Exhausted` | 1/solution/solution.c:279-291 | both ways out of the loop leave nothing unwritten |
| `Pool.GetFile` | 1/solution/solution.c:50-59 | the first file not yet processed, or none |
| `Pool.ClaimInv` | 1/solution/solution.c:161-175 | claiming a file, or leaving when none is free, keeps the pool's invariant |
| `Pool.MergedInv` | 1/solution/solution.c:120-136 | a merge between two yields keeps it |
| `Pool.StepInv` | 1/solution/solution.c:152-188 | so does whatever a coroutine does between two yields |
| `Pool.ClaimedAtMostOnce` | 1/solution/solution.c:161-170 | at every moment of every schedule: a file is claimed by at most one coroutine, nobody else has touched its array, and a coroutine in its loop can go on |
| `Pool.PoolSorts` | 1/solution/solution.c:152-188 | when all have left their loops, every file was claimed by exactly one coroutine and its array is its sorted content |
| `Pool.AbortsExactlyOnEmptyFiles` | 1/solution/solution.c:231-235 | a run that cannot go on has ended the program in `read_file` if and only if some file is empty; otherwise all coroutines have left |
| `Pool.SwitchCounts` | 1/solution/solution.c:149-182 | each reported count is the true number of yields, and their sum depends on the files alone, in closed form |
| `Pool.ScheduleEnds` | 1/solution/solution.c:161-182 | no schedule is longer than the files' cost plus the number of coroutines, and one is as long exactly when all coroutines have left their loops |
| `SortMain.NextInv` | 1/solution/solution.c:372-413 | under the real scheduler, library and pool agree after every step on who has finished and on all switch counts |
| `SortMain.AllReturned` | 1/solution/solution.c:404-427 | from the start of main to the end of its loop: each coroutine was returned exactly once with result 0, the reported counts are the library's, and their sum is the closed form |
| `SortMain.AbortsExactlyOnEmptyFiles` | 1/solution/solution.c:231-235 | the whole program ends early if and only if some file is empty |
| `SortMain.ClaimedAtMostOnce` | 1/solution/solution.c:161-170 | at every moment of the whole program a file is claimed by at most one coroutine and its array touched by no other |
| `SortMain.ClaimedExactlyOnce` | 1/solution/solution.c:152-188 | at its end each file was claimed by exactly one coroutine, nobody else touched its array, and the array is sorted |
| `SortMain.RunPool` | 1/solution/solution.c:372-413 | main's loop terminates, after as many steps of scheduler and pool as it takes |
| `SortMain.SortFiles` | 1/solution/solution.c:372-436 | for any number of coroutines and files the output is the sorted permutation of all inputs' concatenation, and `zeros` ends at 0; no output exactly when some file is empty |
| `SortMain.OutputUnique` | 1/solution/solution.c:338-352 | the output is what one sort of all inputs in a row gives, so the number of coroutines does not matter |
| `SortOnArrays.Memory.GetFile` | 1/solution/solution.c:50-59 | the loop over the `processed` flags finds the first free file, or none |
| `SortOnArrays.Memory.Claim` | 1/solution/solution.c:161-175 | on real arrays, with `read_file` called, claiming a file is the pool's step; so are leaving the loop and ending the program |
| `SortOnArrays.Memory.MergeStep` | 1/solution/solution.c:122-136 | a merge in place in one array is the pool's step; no other array changes |
| `SortOnArrays.Memory.PassStep` | 1/solution/solution.c:117-144 | the end of a pass is the pool's step, the doubled width in 32 bits |
| `SortOnArrays.Memory.Segment` | 1/solution/solution.c:111-188 | whatever a coroutine does between two yields on the arrays is its step in the pool's state machine |
| `SortOnArrays.Run` | 1/solution/solution.c:372-413 | scheduler and coroutines on real arrays terminate in the state in which the program ends |
| `SortOnArrays.SortFiles` | 1/solution/solution.c:372-436 | the whole program on real arrays with 32-bit indices: the output is the sorted permutation of all inputs; no output exactly when some file is empty |
| `SortOnHeap.PoolIsItsYields` | 1/solution/solution.c:372-413 | the scheduler of the whole program ends exactly as the library does on bodies that only make the pool's yields and return 0 |
| `SortOnHeap.Simulates` | 1/solution/libcoro.c:100-182 | step for step: such bodies follow the pool through the same scheduler states |
| `SortOnHeap.HeapAgrees` | 1/solution/solution.c:161-182 | the library's nodes end with every pool coroutine finished, result 0 and the switch count that it reported |
| `SortOnHeap.PoolOnHeap` | 1/solution/solution.c:372-413 | a run of the linked-list library that ends in exactly the scheduler state in which the whole program on these files ends, with every reported count in the nodes |
| `SharedChannel.TurnsAlternate` | lecture_examples/7_ipc/3_mem_sort.c:40-57 | in every interleaving the two copies never overlap and the flags are never both up |
| `SharedChannel.ChunksAgree` | lecture_examples/7_ipc/3_mem_sort.c:31-84 | the chunks that were sent are those of the messages in order, the reader uses the same lengths, at most one chunk behind, and in the end both have handled the chunks of all messages |
| `SharedChannel.LensShape` | lecture_examples/7_ipc/3_mem_sort.c:43-55 | a message goes in chunks of 65534 bytes and one last chunk of what is left: so many of them as it takes, one for an empty message |
| `SharedChannel.ReadsAreExact` | lecture_examples/7_ipc/3_mem_sort.c:59-85 | every read returns exactly the bytes of the matching write, for any messages, empty ones and ones longer than the window included |
| `SharedChannel.NeverStuck` | lecture_examples/7_ipc/3_mem_sort.c:41-42 | until both are done somebody has a step that is not waiting |
| `SharedChannel.EveryRunEnds` | lecture_examples/7_ipc/3_mem_sort.c:40-84 | without waiting steps a run has at most ten steps per byte and per message |
| `SharedChannel.WriteInv` | lecture_examples/7_ipc/3_mem_sort.c:40-56 | every step of the writer keeps the channel's invariant |
| `SharedChannel.ReadInv` | lecture_examples/7_ipc/3_mem_sort.c:68-84 | every step of the reader keeps it |
| `SharedChannel.IntRoundTrip` | lecture_examples/7_ipc/3_mem_sort.c:104-104 | the four bytes of a 32-bit int give the int back |
| `SharedChannel.ArrayRoundTrip` | lecture_examples/7_ipc/3_mem_sort.c:105-105 | the bytes of an int array give the array back |
| `SharedChannel.MainReceivesArray` | lecture_examples/7_ipc/3_mem_sort.c:133-137 | after its two reads main holds the sorter's array, whatever the interleaving |
| `Detach.HandedOverOnce` | lecture_examples/6_threads/12_cthread_detach.c:65-100 | runner, joiner and detacher together hand a record to `cthread_destroy` at most once, exactly once when both sides are through |
| `Detach.FreedOnlyAfterExit` | lecture_examples/6_threads/12_cthread_detach.c:50-59 | no stack is freed before its thread is gone |
| `DetachSweep.DestroyFrees` | lecture_examples/6_threads/12_cthread_detach.c:45-63 | from where a call of `cthread_destroy` reads the head to where it releases the list, in any run: it frees a stretch at the front of the list, at least the records that were gone when it began and only ones that are gone when it ends, and leaves its own record before the rest |
| `DetachSweep.AllGoneAllFreed` | lecture_examples/6_threads/12_cthread_detach.c:50-61 | if every listed thread is gone when the call begins, every listed record is freed and the list is the caller's record alone |
| `DetachSweep.TestedGoneIsFreed` | lecture_examples/6_threads/12_cthread_detach.c:51-57 | a record that the loop finds gone is freed before the call goes on, in every run |
| `Detach.TouchesOnlyLiveRecords` | lecture_examples/6_threads/12_cthread_detach.c:45-63 | no step of `cthread_destroy` uses a freed record or frees one twice, and it waits for the list lock only |
| `Detach.RecordsPartitioned` | lecture_examples/6_threads/12_cthread_detach.c:49-62 | every record is owned, listed or freed, and never two of these; `stack_list` consists of exactly the listed ones |
| `Detach.JoinReturnsCode` | lecture_examples/6_threads/12_cthread_detach.c:66-89 | a join returns what the body of the thread returned, in the one return that the run has for it |
| `Detach.NeverStuck` | lecture_examples/6_threads/12_cthread_detach.c:13-23 | no deadlock between the two kinds of lock and the join loop |
| `Detach.EveryRunEnds` | lecture_examples/6_threads/12_cthread_detach.c:45-116 | every run has at most 27 steps for each thread, the loop of `cthread_destroy` included |
| `Detach.StepInv` | lecture_examples/6_threads/12_cthread_detach.c:45-116 | every atomic step of any thread keeps the protocol's invariant |
| `Futex.MutualExclusion` | lecture_examples/6_threads/8_futex.c:24-36 | in every schedule, interrupted sleeps included, never two threads between lock and unlock |
| `Futex.SleepersAreRemembered` | lecture_examples/6_threads/8_futex.c:27-36 | with the word free and a thread asleep, some awake thread is about to retry, to wait or to wake |
| `Futex.NeverStuck` | lecture_examples/6_threads/8_futex.c:24-53 | while a round is unfinished some thread can step by itself |
| `Futex.CounterTotal` | lecture_examples/6_threads/8_futex.c:47-51 | the counter, read and written in separate steps, ends at threads times rounds |
| `Futex.EveryScheduleEnds` | lecture_examples/6_threads/8_futex.c:42-53 | every schedule is finite, with an explicit bound in threads, rounds and interrupted sleeps |
| `Futex.StepInv` | lecture_examples/6_threads/8_futex.c:24-53 | every step, wake-up and interruption keeps the lock's invariant |
| `Condvar.SignalsBalance` | lecture_examples/6_threads/14_condvar.c:13-47 | at every moment the calls of `condvar_wait` that have returned are the times the flag was raised, less the flag that is up and the waits that took one and are about to return; between signals both are equal |
| `Condvar.RaisedFlagHasTaker` | lecture_examples/6_threads/14_condvar.c:16-46 | a raised flag always has a waiter in the loop to take it |
| `Condvar.CountIsExactUnderMutex` | lecture_examples/6_threads/14_condvar.c:16-21 | the count read under the mutex is the number of waits entered and not completed; a signal is skipped only when nobody waits |
| `Condvar.LastWriteErasesNothing` | lecture_examples/6_threads/14_condvar.c:28-29 | the flag is down already when the signaller writes it down |
| `Condvar.OneSignalReleasesOneWait` | lecture_examples/6_threads/14_condvar.c:13-47 | during a whole call of `condvar_signal` exactly one call of `condvar_wait` returns if some thread is in its loop when the signal is called, and none otherwise |
| `Condvar.PendingSignalProgresses` | lecture_examples/6_threads/14_condvar.c:26-46 | while a signal is pending something other than spinning can happen |
| `Condvar.SignalIsTakenSoon` | lecture_examples/6_threads/14_condvar.c:23-46 | spinning aside, a raised flag is taken within n + 2 steps of whatever threads |
| `Condvar.StepInv` | lecture_examples/6_threads/14_condvar.c:13-56 | every step of signaller and waiters keeps the invariant |
| `Semaphore.PermitsConserved` | lecture_examples/7_ipc/10_sem_mutex.h:9-26 | the counter is the initial number plus the calls of `semaphore_put` less the calls of `semaphore_get`, but for the calls that have not added or taken theirs yet, and never negative, with overtaking and spurious wake-ups |
| `Semaphore.NoStrandedPermit` | lecture_examples/7_ipc/10_sem_mutex.h:13-24 | with the mutex free and a thread asleep every permit has a woken thread that has not resumed yet |
| `Semaphore.OwnerCanStep` | lecture_examples/7_ipc/10_sem_mutex.h:12-25 | whoever holds the mutex can go on |
| `Semaphore.StuckOnlyWithoutPermits` | lecture_examples/7_ipc/10_sem_mutex.h:13-14 | callers are stuck only when all of them sleep and no permit is left |
| `Semaphore.EveryRunEnds` | lecture_examples/7_ipc/10_sem_mutex.h:9-26 | every run is bounded by its calls and spurious wake-ups: five steps for each get and each spurious wake-up, nine for each put |
| `Semaphore.StepInv` | lecture_examples/7_ipc/10_sem_mutex.h:9-26 | every step keeps the invariant |
| `EventCollector.OneReader` | lecture_examples/7_ipc/9_sem_event_cons.c:55-65 | at most one consumer reads at a time |
| `EventCollector.ReceiveNeverBlocks` | lecture_examples/7_ipc/9_sem_event_cons.c:38-43 | the lock holder always finds a message of the type it asks for |
| `EventCollector.TriplesInOrder` | lecture_examples/7_ipc/9_sem_event_cons.c:74-78 | there is one collection for every release of the lock, and the t-th holds the text of the t-th send of each type, as the events of the run have it |
| `EventCollector.History` | lecture_examples/7_ipc/9_sem_event_source.c:69-102 | what is queued over a run is exactly one message for each send, in order, with the type of its source and the text it was given |
| `EventCollector.LockableIffTripleWaiting` | lecture_examples/7_ipc/9_sem_event_cons.c:55-65 | with nobody inside and no send uncounted, a consumer can lock if and only if every type was sent more often than collections were made |
| `EventCollector.FirstOfKind` | lecture_examples/7_ipc/9_sem_event_cons.c:30-30 | a receive of a type finds its first message, or none exactly when there is none |
| `EventCollector.RemoveFirst` | lecture_examples/7_ipc/9_sem_event_cons.c:30-30 | taking it out pops that type's messages and leaves the other types' order alone |
| `EventCollector.SourceInv` | lecture_examples/7_ipc/9_sem_event_source.c:97-102 | sending and then counting keep: messages queued of a type = semaphore + sends not counted + reads reserved by the lock holder |
| `EventCollector.StepInv` | lecture_examples/7_ipc/9_sem_event_cons.c:38-78 | so does every step of every consumer |
| `CharStack.Stack.Push` | 2/solution/stack.c:21-31 | the character on top of what was there |
| `CharStack.Stack.IsEmpty` | 2/solution/stack.c:33-37 | whether the stack holds anything |
| `CharStack.Stack.Peek` | 2/solution/stack.c:39-44 | the top of a non-empty stack |
| `CharStack.Stack.Pop` | 2/solution/stack.c:46-53 | everything but the top |
| `CharStack.Stack.Splice` | 2/solution/stack.c:55-75 | a fresh array of exactly the contents, top first |
| `CharStack.Stack.Reverse` | 2/solution/stack.c:77-89 | a fresh stack with the contents reversed, the old one unchanged |
| `CharStack.Stack.Clear` | 2/solution/stack.c:91-98 | empties the stack |
| `CharStack.ReversedTwice` | 2/solution/stack.c:77-89 | reversing twice restores the order |
| `Parser.ParseLine` | 2/solution/parser.c:40-401 | the loop with its two quote flags and two linked stacks computes the recursive scan; both stacks are empty whenever no quote is open, and no pop or peek meets an empty stack |
| `Parser.SaveToken` | 2/solution/parser.c:78-90 | the token is the word in reading order with its NUL, and the word stack is empty again |
| `Parser.Quoted` | 2/solution/parser.c:153-272 | one character between quotes changes flags and stacks as the scan's quoting mode changes |
| `Parser.Escape` | 2/solution/parser.c:223-270 | a character behind a backslash between double quotes |
| `Parser.Unquoted` | 2/solution/parser.c:56-151 | outside quotes: blanks, single and doubled operators, opening quotes, or a word |
| `Parser.ScanWord` | 2/solution/parser.c:283-388 | the inner loop reads exactly the specified word and stops where it ends |
| `Parser.EscapedOperator` | 2/solution/parser.c:295-358 | a backslash before an operator ends a word that has begun, and otherwise makes one of what follows |
| `Parser.EscapedOther` | 2/solution/parser.c:287-294 | a backslash before anything else in a word |
| `Tokens.RoundTrip` | 2/solution/parser.c:54-388 | words in double quotes, in single quotes or bare, and operators, printed in any order with any blanks where they are needed, are scanned back exactly |
| `Tokens.ScanPrinted` | 2/solution/parser.c:54-388 | the same in front of any further input that does not continue the last word or operator |
| `Tokens.ScanDouble` | 2/solution/parser.c:180-272 | a word printed between double quotes is one token, whatever characters it has |
| `Tokens.ScanBare` | 2/solution/parser.c:283-388 | an unquoted word before a blank or the end of the line is one token: its plain characters and those behind a backslash, without the backslashes, the joined line breaks and the quotes inside it |
| `Tokens.ScanOp` | 2/solution/parser.c:69-144 | an operator is one token, doubled if the same character follows; a different operator may follow at once |
| `Tokens.EscapesInDoubleQuotes` | 2/solution/parser.c:223-270 | between double quotes a backslash and n, t or r are a line feed, a tab and a carriage return, a backslash and a line break are nothing, a backslash or a double quote loses its backslash, and any other character keeps it |
| `Tokens.CommentIgnored` | 2/solution/parser.c:62-66 | a `#` where a token may begin ends the line: exactly the tokens before it come out |
| `Tokens.LastBackslash` | 2/solution/parser.c:287-289 | a backslash at the end of the line is dropped; on its own it makes an empty token |
| `Tokens.TokensAreStrings` | 2/solution/parser.c:78-86 | the token buffers of NUL-free words are those words as C strings |
| `Tokens.LastWordNeedsItsQuote` | 2/solution/parser.c:146-206 | after any printed list a last quoted word, in either kind of quotes, is a token if and only if its quote is closed; otherwise exactly the tokens before it come out |
| `Tokens.UnclosedWordIsLost` | 2/solution/parser.c:180-220 | a line on which it is lost |
| `Tokens.EscapedOperatorValue` | 2/solution/parser.c:295-358 | outside quotes a backslash before an operator ends a word that has begun, and the operator is scanned on its own; otherwise the token is the doubled operator if the same character follows, the character that follows instead, or a NUL at the end of the line |
| `Tokens.EscapedOperatorSurvives` | 2/solution/parser.c:295-358 | outside quotes an escaped operator at the start of a word begins the token if and only if it is doubled |
| `Tokens.EscapedPipeIsLost` | 2/solution/parser.c:295-316 | a line on which it is lost |
| `Tokens.EscapedPipeSplits` | 2/solution/parser.c:303-307 | a line on which it ends a word and is kept |
| `Command.ParseCmds` | 2/solution/command.c:30-91 | the growing array ends with exactly the specified commands, every write below the allocated size; NULL without tokens |
| `Command.NextOperator` | 2/solution/command.c:45-53 | after growing, the stored commands are kept, the current one is stored and the operator becomes current |
| `Command.NextConnective` | 2/solution/command.c:60-69 | the same, and the operator is stored at once |
| `Command.NextCommand` | 2/solution/command.c:71-75 | the token after a connective starts a command |
| `Command.AddArgument` | 2/solution/command.c:80-84 | any other token is appended to the current command's arguments |
| `Command.GroupsKeepTokens` | 2/solution/command.c:30-91 | names and arguments of the commands, concatenated, are the tokens |
| `Command.GroupsUnique` | 2/solution/command.c:40-86 | a list of commands is the result if and only if it concatenates to the tokens and has the right shape, written with the six operator strings: operators start an entry, the connectives have no arguments and the token after them starts a command, no argument is an operator |
| `Command.LineToCommands` | 2/solution/command.c:30-91 | from a printed line through the tokenizer come its words and operators as C strings, and names and arguments of the commands made of them, concatenated, are those |
| `MersenneTwister.Twister.constructor` | lecture_examples/6_threads/8_5_random_generator.h:46-54 | seeding and 62400 discarded words leave index 0 and a buffer that holds the next 624 terms |
| `MersenneTwister.Twister.Generate` | lecture_examples/6_threads/8_5_random_generator.h:22-44 | each call returns the tempered next term of the infinite recurrence |
| `MersenneTwister.Twister.Advance` | lecture_examples/6_threads/8_5_random_generator.h:25-37 | the in-place update returns the next untempered term and keeps the buffer a window on the recurrence |
| `MersenneTwister.TwistWord` | lecture_examples/6_threads/8_5_random_generator.h:33-35 | the source's expression, with its product, is one step of the mt19937 recurrence |
| `MersenneTwister.CircularView` | lecture_examples/6_threads/8_5_random_generator.h:25-37 | after any number of calls slot (index + d) mod 624 holds the term d calls ahead |
| `MersenneTwister.ViewStep` | lecture_examples/6_threads/8_5_random_generator.h:33-37 | overwriting the oldest word by its twist moves the window on by one term |
| `MersenneTwister.TemperBijective` | lecture_examples/6_threads/8_5_random_generator.h:39-42 | tempering is a bijection on 32-bit words: each stage is undone by repeating it |
| `MersenneTwister.TemperLinear` | lecture_examples/6_threads/8_5_random_generator.h:39-42 | tempering the exclusive or of two words gives the exclusive or of the tempered words, so the 32 words below determine it |
| `MersenneTwister.TemperLowBits` | lecture_examples/6_threads/8_5_random_generator.h:39-42 | its values, in numbers, at the words with one of the lower 16 bits |
| `MersenneTwister.TemperHighBits` | lecture_examples/6_threads/8_5_random_generator.h:39-42 | and at those with one of the upper 16 |
| `MersenneTwister.TwistLinear` | lecture_examples/6_threads/8_5_random_generator.h:33-35 | a step of the recurrence is linear in its three words in the same way |
| `MersenneTwister.TwistParts` | lecture_examples/6_threads/8_5_random_generator.h:33-35 | and what it makes of each alone: the far word itself, the upper bit of the first moved down, the lower bits of the next moved down, its lowest bit as the constant |
| `MersenneTwister.FirstTerms` | lecture_examples/6_threads/8_5_random_generator.h:12-37 | terms in numbers on both sides of the places where the distances 624 and 397 come in, and a tempered one |
| `MersenneTwister.BranchFree` | lecture_examples/6_threads/8_5_random_generator.h:35-35 | the product with the lowest bit is the conditional reduction of mt19937 |
| `MersenneTwister.ZeroSeed` | lecture_examples/6_threads/8_5_random_generator.h:46-54 | all words returned are 0 if and only if the seed is 0 |
| `MersenneTwister.OneBack` | lecture_examples/6_threads/8_5_random_generator.h:33-35 | a term is determined by the later ones where they are 0: zeros from term n on reach back to term n - 1 |
| `MersenneTwister.Reduction` | lecture_examples/6_threads/8_5_random_generator.h:35-35 | the product of the lowest bit and the constant is the conditional reduction |
| `MersenneTwister.FirstWords` | lecture_examples/6_threads/8_5_random_generator.h:22-54 | the k-th word a client gets is the tempered term 101 * 624 + k of the seed's sequence |

## Left out

- Homeworks 3 to 5 (`3/`, `4/`, `5/`): their functions are stubs.
- `1/libcoro.c` and `lecture_examples/4_signals/12_libcoro.c`: the same scheduler as `1/solution/libcoro.c`.
- Signal-stack setup in `coro_new` (`sigaltstack`, `sigaction`, `sigprocmask`, `raise`): only the stored context and the list insertion are modelled.
- `coro_delete`, `free` and `cs_free`'s deallocation: no double free or leak is stated for the coroutine library, the sort and the shell; `Detach.dfy` models freeing where it is the point.
- `coro_yield` from the scheduler's context and `coro_sched_wait` from a coroutine: neither homework makes such a call.
- The first round before any `siglongjmp` to the scheduler: its context is represented by the scheduler's own, since nobody can jump there.
- Allocation failure (the `exit(-1)` branches after `calloc`, `realloc`), except the zero-byte `realloc` of `read_file`.
- Clock fields, `printf`, `fopen`, `fscanf`, `fprintf`: a file is its sequence of integers, the output the sequence of numbers written. A file with something other than integers makes `read_file` loop; that is not modelled.
- `strdup`, `atoi` and the command line: the number of coroutines is at least 1 and there is at least one file.
- MergeSort.MeMergesort: requires fewer than 2^30 elements, like the methods it calls and `MergeSort.ReadFile`; from there on `int` overflows in C, so there is nothing to promise. The lemmas about the sorted result hold for every length.
- `calloc` of 0 bytes: `me_merge` asks for one at `1/solution/solution.c:67` whenever the right block is empty, and ends the program if it returns NULL; it is assumed to return a pointer, as the C library on Linux does.
- 32-bit wrap-around elsewhere: switch counts, the futex counter, wait counts and semaphore counters are unbounded here.
- SortMain.SortFiles: on values, for files of any length, where the C code overflows from 2^30 integers in a file on; `SortOnArrays.SortFiles` has that bound. Both require at least one coroutine and one file; without them line 278 of `1/solution/solution.c` reads a row that does not exist. The lemmas of `Pool.dfy` are on values in the same way.
- KWayMerge.WriteResult: requires a first row with a number in it, because line 278 reads `array[0][0]` before anything else; rows are values here, as the code only reads them.
- Arrays and list nodes in one heap: `SortOnArrays.dfy` has the pool's data in real arrays and the scheduler as a value, `SortOnHeap.dfy` the library's nodes in the heap and the pool's data as values; both follow the states of `SortMain.dfy`.
- The files of concurrent code (`8_futex.c`, `12_cthread_detach.c`, `14_condvar.c`, `10_sem_mutex.h`, `3_mem_sort.c`, `9_sem_event_*.c`) are state machines over their atomic steps rather than methods, because their properties are about interleavings.
- The start flag of `8_futex.c`: threads begin at the lock.
- In `Detach.dfy` all records exist from the start; a thread that is not created yet is one that has not run. `cthread_exit` is a return of the body with that code.
- `qsort` in `3_mem_sort.c` and the merge in its `main`: a library call and the same k-way idea once more. A sorter's array is assumed shorter than 2^29 ints, the length its own 32-bit byte count allows.
- Message packing, `msgsnd` sizes, `SEM_UNDO`, process death and removal of the queue and semaphores in the event collector; source ids other than 1, 2 and 3.
- Weak-memory behaviour, and that `memcpy` may move several bytes at once.
- `read_line` and `exec_cmds` of the shell: terminal input, `fork` and `exec`.
- Conformance of the tokenizer to the POSIX shell grammar: it is the code that is modelled, with its own rules for escapes and joined words.
- Growth of the `args` array in `parse_line`: the result is a list of tokens.
- Sockets, polling, the file-system and process examples, and the deliberately faulty examples.
