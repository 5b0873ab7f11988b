# Verified models of fio's concurrent and stateful core

This project models, in Dafny, the parts of the benchmark repository whose correctness is hard to see from one
function: the locking protocols, the life cycle of I/O units, the write history, the latency-target search, the CPU
clock, the client's progress reports, and the byte FIFO and status printer beside them. Most of it is the vendored
fio 3.5; `test.cc` is the repository's own two-thread benchmark.

Protocols are state machines. A step is one access to shared state or one wait, the scheduler, the callers, the I/O
engine, the network and the clock choose freely, and the theorems are about every state of every run. Code that works
in place is a class or a method with loops, proved against functions whose own properties are then proved.

| module | models |
|---|---|
| `FileLock` | per-name file locks over a fixed pool of slots, for any number of threads and any pool size |
| `Semaphore` | fio's semaphore used as a lock, with signals after the unlock and spurious wakeups |
| `Peterson` | two threads filling one array under Peterson's algorithm, every shared access a step |
| `WriteHistory` | the search tree of logged writes that evicts what a new write overlaps |
| `IoUnits`, `IoLoop` | I/O units between free stack, requeue ring, loop and engine: the state machine, and the loop in place |
| `IoHistory`, `IoCounts`, `IoDepth` | theorems about its runs: every I/O has one fate; the counters are what the engine reported; how many units are in use, and when a quiesce ends |
| `UnitQueue` | the free stack, the requeue ring and the ring's size |
| `LatTarget` | the doubling and bisecting search for a queue depth |
| `CpuClock` | calibration and cycles-to-nanoseconds conversion in 64 bits |
| `ClockTest` | the compare-and-swap test for clocks that run backwards |
| `ClientEta`, `EtaEvents` | the counted aggregate behind one progress report of many clients, and what it is made of, told from the events of a run |
| `Fifo`, `TraceFormat`, `TraceReader` | the byte FIFO with free-running indices, the trace format, and the trace loader on them |
| `Condensed` | the run-length printer of the job status string |
| `Bits`, `Threads`, `Options` | shared helpers: 32- and 64-bit arithmetic, counting sets of threads, an option type |

Some properties that look natural are false of the code. Each has an input at which it fails and the exact condition
under which it holds.

| property | holds if and only if | fails at |
|---|---|---|
| a trylock that is the only reference gets the slot without waiting | no other thread holds the slot by then; one that does came in between (`FileLock.TryWaitsExactly`) | `FileLock.TryWaitsExample` |
| the latency search settles at the best depth | that depth is not one below the maximum (`LatTarget.SettlesExactly`) | `LatTarget.NeverEnds` |
| a push onto a full requeue ring is caught | the tail is not at slot 0 (`UnitQueue.Ring.Push`); the loop never fills the ring (`IoLoop.Thread.RequeueUnit`) | `UnitQueue.LostEntries` |
| a progress report is shown once nobody is waited for | some client was connected, and each was running or already waited for (`ClientEta.ShownExactly`, `ClientEta.IdleNeverShown`) | `ClientEta.IdleExample` |
| a well-formed trace file is accepted | no payload is longer than the FIFO (`TraceFormat.ParseWritten`) | `TraceFormat.LongPayload` |
| every load reported as a success is complete | every read up to the first failing one brings at least a header (`TraceReader.SuccessExactly`) | `TraceReader.TruncatedLoad` |
| the units in use stay within the depth the latency search allows | it has not just gone below them, that is, outside the quiesce that then follows (`IoDepth.DepthKept`, `IoDepth.ExceedsExactly`) | `IoDepth.DepthLowered` |
| a quiesce returns | the depth is not 0 or nothing is queued when it is called (`IoDepth.QuiesceExactly`) | `IoDepth.HangExample` |
| the two threads of `test.cc` keep to the array | its size is a multiple of 200, in any run in which both finish (`Peterson.InRangeExactly`) | `Peterson.OverrunExample` |

The comment on the trylock path in `filelock.c` says that the only reference can grab the lock; the code waits for it,
and the model follows the code.

`dafny verify dfyconfig.toml` checks the whole project.

## Model

| member | source | states |
|---|---|---|
| `FileLock.Find` | fio/fio-fio-3.5/filelock.c:119-131 | Looking a hash up gives an active slot that carries it, and finds none only if no active slot does. |
| `FileLock.Without` | fio/fio-fio-3.5/filelock.c:239-242 | Taking a slot off a list removes exactly that slot and keeps the entries distinct. |
| `FileLock.TakeFree` | fio/fio-fio-3.5/filelock.c:40-68 | The slot taken off the free list is from then on in the hand of the pool holder and in no list; the invariant survives. |
| `FileLock.PutBack` | fio/fio-fio-3.5/filelock.c:150-158 | After the retry found the hash in use, the carried slot goes back to the free list and every slot is in one place again. |
| `FileLock.Activate` | fio/fio-fio-3.5/filelock.c:160-163 | Listing the carried slot under a hash keeps hashes of active slots distinct, also when the pool lock was dropped on the way. |
| `FileLock.MoveRef` | fio/fio-fio-3.5/filelock.c:177-178 | Adding or dropping a reference keeps `references` equal to the threads that hold, wait for or try the slot. |
| `FileLock.MoveSem` | fio/fio-fio-3.5/filelock.c:186-192 | Taking or giving up a slot semaphore keeps its value plus its holders equal to 1. |
| `FileLock.Release` | fio/fio-fio-3.5/filelock.c:239-242 | A slot goes back to the free list only when no thread refers to it, and its semaphore is then unlocked. |
| `FileLock.AllocKeeps` | fio/fio-fio-3.5/filelock.c:52-68 | Every turn of the allocation loop, including the one that drops the pool lock, keeps the invariant. |
| `FileLock.HashGetKeeps` | fio/fio-fio-3.5/filelock.c:133-166 | Every step of the lookup, of the second lookup and of the listing keeps the invariant and can always be taken. |
| `FileLock.LockTailKeeps` | fio/fio-fio-3.5/filelock.c:175-184 | The steps that take a reference and drop the pool lock keep the invariant; which way the call goes from there is in `FileLock.CallsEnd` and `FileLock.HaltsOnlyEmpty`. |
| `FileLock.TryTailKeeps` | fio/fio-fio-3.5/filelock.c:194-213 | The second critical section of a trylock keeps the invariant in both outcomes of the "only reference" test. |
| `FileLock.DownKeeps` | fio/fio-fio-3.5/filelock.c:186-192 | Waiting for, trying and getting the slot semaphore outside the pool lock keep the invariant. |
| `FileLock.WaitKeeps` | fio/fio-fio-3.5/filelock.c:168-246 | Calls, returns and waits for the pool lock keep the invariant; so does halting at the assert. |
| `FileLock.UnlockKeeps` | fio/fio-fio-3.5/filelock.c:225-246 | Every step of an unlock by a holder finds the holder's slot, keeps the invariant and can always be taken. |
| `FileLock.InitOk` | fio/fio-fio-3.5/filelock.c:70-96 | A fresh pool of any size satisfies the invariant. |
| `FileLock.StepKeeps` | fio/fio-fio-3.5/filelock.c:133-246 | Every step of every thread keeps the invariant and the number of slots. |
| `FileLock.RunKeeps` | fio/fio-fio-3.5/filelock.c:133-246 | The invariant holds in every state of every run, for any number of threads and slots. |
| `FileLock.MutualExclusion` | fio/fio-fio-3.5/filelock.c:133-246 | In every reachable state at most one thread holds the lock of a name hash. |
| `FileLock.PoolAtRest` | fio/fio-fio-3.5/filelock.c:150-205 | Whenever the pool lock is free: each slot is on exactly one list, active hashes are distinct, each active slot has as many references as users and at least one, and every free slot is unlocked. |
| `FileLock.PoolHolderMoves` | fio/fio-fio-3.5/filelock.c:168-246 | The pool holder can always take its next step, so the pool lock is never held across a wait. |
| `FileLock.WaitsExactly` | fio/fio-fio-3.5/filelock.c:186-192 | A thread that waits for its slot is stuck if and only if some other thread holds that slot. |
| `FileLock.NoDeadlock` | fio/fio-fio-3.5/filelock.c:133-246 | While any thread is inside a call, and the assert has not halted the program, some thread inside a call can step or some thread holds a lock. |
| `FileLock.CallsBegin` | fio/fio-fio-3.5/filelock.c:215-223 | An idle thread can only start a lock or a trylock, and the call is of that kind and for that name. |
| `FileLock.CallsEnd` | fio/fio-fio-3.5/filelock.c:181-212 | In every run a call keeps its name and kind; a lock call returns only with the lock, only a trylock can return without it, holding ends only by an unlock, and an unlock ends idle. |
| `FileLock.TryAnswers` | fio/fio-fio-3.5/filelock.c:191-203 | In every run a trylock is refused the semaphore if and only if another thread owns it, and reports the lock as taken if and only if another thread refers to the slot. |
| `FileLock.RefusedHeld` | fio/fio-fio-3.5/filelock.c:191-194 | A trylock on its second way through the pool lock found another thread owning its slot, earlier in the same call. |
| `FileLock.TryFailsOnlyBusy` | fio/fio-fio-3.5/filelock.c:191-212 | A call that returns without the lock is a trylock; another thread owned the semaphore when this call tried it, and another thread referred to the slot when it looked again. |
| `FileLock.HaltsOnlyEmpty` | fio/fio-fio-3.5/filelock.c:181-184 | The program stops at the assert only after a trylock met an empty free list. |
| `FileLock.TryRace` | fio/fio-fio-3.5/filelock.c:194-203 | A trylock that passes the "only reference" test is the only user of the slot, nobody holds it and it is unlocked at that moment. |
| `FileLock.SlippedIn` | fio/fio-fio-3.5/filelock.c:194-210 | Whoever uses the slot after a trylock has passed the test, and before it gets the slot, took its reference while that trylock waited without the pool lock. |
| `FileLock.TryWaitsExactly` | fio/fio-fio-3.5/filelock.c:194-210 | A trylock that passed the test waits for the slot if and only if another thread holds it, and every such thread came in between: it did not use the slot when the test passed. |
| `FileLock.TryWaitsExample` | fio/fio-fio-3.5/filelock.c:194-210 | A run with one slot and three threads at whose end a trylock that passed the test is stuck. |
| `Semaphore.LockKeeps` | fio/fio-fio-3.5/mutex.c:200-247 | Exactly the thread inside a critical section has the pthread mutex, after every step. |
| `Semaphore.CountsKeep` | fio/fio-fio-3.5/mutex.c:200-247 | `waiters` stays the number of threads in a wait and the value plus its owners stays 1. |
| `Semaphore.SignalKeeps` | fio/fio-fio-3.5/mutex.c:244-246 | Delivering a signal keeps the invariant: the woken thread has yet to look at the value again. |
| `Semaphore.UpRouses` | fio/fio-fio-3.5/mutex.c:232-247 | Raising the value while a thread sleeps leaves a signal owed. |
| `Semaphore.StepRouses` | fio/fio-fio-3.5/mutex.c:216-230 | Whoever gives up the duty to rouse a sleeper passes it on, finds nobody asleep or takes the value. |
| `Semaphore.StepKeeps` | fio/fio-fio-3.5/mutex.c:200-247 | Every step, spurious wakeups included, keeps the invariant; what the calls answer is in `Semaphore.TryAnswers`, `Semaphore.DownAnswers`, `Semaphore.UpAnswers` and `Semaphore.CallsEnd`. |
| `Semaphore.RunKeeps` | fio/fio-fio-3.5/mutex.c:200-247 | The invariant holds in every state of every run with any number of threads. |
| `Semaphore.MutualExclusion` | fio/fio-fio-3.5/mutex.c:200-247 | At most one thread owns the value, and then it is 0. |
| `Semaphore.NoLostWakeup` | fio/fio-fio-3.5/mutex.c:216-247 | Whenever the value is free and a thread sleeps, a signal is owed or a woken thread has yet to recheck. |
| `Semaphore.SleepersAreNotStuck` | fio/fio-fio-3.5/mutex.c:216-247 | In such a state some thread can step by itself, without a new call or a spurious wakeup. |
| `Semaphore.TryAnswers` | fio/fio-fio-3.5/mutex.c:200-214 | In every reachable state a trylock that looks at the value gets it if and only if nobody owns it. |
| `Semaphore.DownAnswers` | fio/fio-fio-3.5/mutex.c:216-230 | A down that looks at the value takes it if and only if nobody owns it, and goes to sleep otherwise. |
| `Semaphore.UpAnswers` | fio/fio-fio-3.5/mutex.c:232-247 | An up decides to signal if and only if some thread waits. |
| `Semaphore.CallsEnd` | fio/fio-fio-3.5/mutex.c:200-247 | In every run a down ends only with the value, a trylock with or without it as it found, an up without it; owning ends only by an up. |
| `Semaphore.InternalFalls` | fio/fio-fio-3.5/mutex.c:200-247 | Every step the code takes by itself uses up some of a total that no such step adds to. |
| `Semaphore.InternalStepsEnd` | fio/fio-fio-3.5/mutex.c:200-247 | Without new calls and spurious wakeups only finitely many steps are possible, in whatever order. |
| `Semaphore.SleepersGetOn` | fio/fio-fio-3.5/mutex.c:200-247 | Every run can be continued by such steps alone until somebody has the value or nobody sleeps. |
| `Peterson.StepLocked` | test.cc:42-76 | Every step keeps the flags equal to the threads' places and holds a waiting thread behind one in the critical section. |
| `Peterson.StepTheirs` | test.cc:42-76 | A step of one thread cannot change what the other relies on, because only the critical section moves the index. |
| `Peterson.StoreFilled` | test.cc:50-54 | A store, not yet counted by the index, leaves the counted part of the array as it was. |
| `Peterson.CountFilled` | test.cc:50-54 | The separate increment of the index adds exactly the number just stored to the counted part. |
| `Peterson.StepKeeps` | test.cc:42-76 | Every step keeps the whole invariant: as long as all stores were in range, the counted part of the array is the numbers both threads have stored. |
| `Peterson.RunKeeps` | test.cc:42-76 | The invariant holds in every reachable state, for every array size. |
| `Peterson.MutualExclusion` | test.cc:44-57 | For every array size the two threads are never both in the critical section, with flag and turn read in separate steps. |
| `Peterson.NeverBothStuck` | test.cc:45-48 | The two threads are never both stuck: when both wait, the one whose turn it is enters within its next two own steps, whatever the other does in between. |
| `Peterson.EntersInTwo` | test.cc:45-48 | A thread that waits on its own turn enters within its next two own steps; within one if it has already seen the flag. |
| `Peterson.WorkIsBounded` | test.cc:44-57 | In every run, however it is scheduled, the steps not spent in the wait loop are bounded by a number that depends on MAX alone. |
| `Peterson.EveryRunCanFinish` | test.cc:42-76 | Every run can be continued to one in which both threads have finished. |
| `Peterson.StaysInRange` | test.cc:44-57 | With an array size that is a multiple of 200 no store is ever outside the array. |
| `Peterson.OvertakenOnce` | test.cc:45-48 | While a thread waits the other enters at most once, and if it comes back to wait the turn favours the first. |
| `Peterson.StoresOnce` | test.cc:50-54 | No slot is stored to twice over the whole run, whatever the size; with a multiple of 200 every store is in range. |
| `Peterson.FinishedPermutation` | test.cc:42-76 | When both threads have finished the array is a permutation of 0..MAX-1. |
| `Peterson.InRangeExactly` | test.cc:42-76 | A run in which both threads finish made no store outside the array if and only if MAX is a multiple of 200. |
| `Peterson.OverrunExample` | test.cc:50-54 | A run with an array of one in which a store is outside the array. |
| `Peterson.FinishedSum` | test.cc:35-37 | Its sum is then MAX*(MAX-1)/2. |
| `Peterson.PrintedSum` | test.cc:35-37 | The summing loop computes the sum of the array modulo 2^64. |
| `CpuClock.HighestBit` | fio/fio-fio-3.5/gettime.c:324-328 | The shifting loop finds the position of the highest set bit. |
| `CpuClock.OnesBelow` | fio/fio-fio-3.5/gettime.c:357-358 | The mask loop builds 2^k - 1. |
| `CpuClock.Calibrate` | fio/fio-fio-3.5/gettime.c:313-358 | For every clock rate with an hour of cycles in 64 bits, no intermediate overflows, the multiplier is the floor of the scaled nanoseconds per cycle, and a masked cycle count times it fits 64 bits. |
| `CpuClock.MultiplierRoom` | fio/fio-fio-3.5/gettime.c:313-328 | The largest multiplier for an hour of cycles is large enough that the search for a shift is well defined. |
| `CpuClock.MultiplierFits` | fio/fio-fio-3.5/gettime.c:330-331 | The chosen multiplier is within the largest one and brackets the exact ratio. |
| `CpuClock.ProductFits` | fio/fio-fio-3.5/gettime.c:194-200 | The masked product never overflows 64 bits. |
| `CpuClock.GettimeIsNanos` | fio/fio-fio-3.5/gettime.c:194-200 | The shift/mask/multiply code computes the two-stage conversion, split into seconds and nanoseconds. |
| `CpuClock.NanosMonotone` | fio/fio-fio-3.5/gettime.c:194-200 | Converted time is non-decreasing in the cycle count, also across a mask boundary. |
| `CpuClock.TwoStages` | fio/fio-fio-3.5/gettime.c:194-200 | Two-stage scaling never exceeds the one-stage result and loses less than one nanosecond for each stage. |
| `CpuClock.NanosLag` | fio/fio-fio-3.5/gettime.c:194-200 | Converted time lags the exact t*10^6/c by at least 0 and less than t/2^clock_shift + (t >> max_cycles_shift) + 1 nanoseconds. |
| `CpuClock.GettimeDoesNotWrap` | fio/fio-fio-3.5/gettime.c:194-200 | The 64-bit result equals the unbounded one as long as the exact time fits 64 bits. |
| `ClockTest.StepKeeps` | fio/fio-fio-3.5/gettime.c:608-626 | Every step of every thread keeps: each drawn number belongs to one swap, and its clock read came after the previous number's. |
| `ClockTest.RunKeeps` | fio/fio-fio-3.5/gettime.c:608-626 | That holds in every state of every run with any number of threads. |
| `ClockTest.Distinct` | fio/fio-fio-3.5/gettime.c:608-626 | Recorded sequence numbers are distinct and below the counter. |
| `ClockTest.NoGaps` | fio/fio-fio-3.5/gettime.c:608-626 | In every state no number below the counter is missing: it is recorded or about to be. |
| `ClockTest.FillsExactly` | fio/fio-fio-3.5/gettime.c:607-626 | A thread records at most nr_entries entries, and exactly as many by the time it stops unless the counter has reached its end. |
| `ClockTest.SortedByNumber` | fio/fio-fio-3.5/gettime.c:743-771 | If no clock read went backwards, timestamps are non-decreasing in the order of sequence numbers. |
| `ClockTest.CountMismatches` | fio/fio-fio-3.5/gettime.c:747-771 | The check reports a mismatch if and only if some timestamp is below its predecessor; it counts all of them when debugging and stops at the first otherwise. |
| `ClockTest.DescentsGrow` | fio/fio-fio-3.5/gettime.c:747-771 | The number of mismatches only grows with the part of the list looked at, so stopping early never hides one. |
| `ClockTest.MismatchMeansBackwards` | fio/fio-fio-3.5/gettime.c:743-771 | A reported mismatch always means that some clock read returned less than an earlier one. |
| `LatTarget.SuccessKeeps` | fio/fio-fio-3.5/io_u.c:1504-1543 | A good window keeps 1 <= low <= qd <= high <= iodepth and the goal inside the bracket; how far it moves is in `LatTarget.DepthDoubles` and `LatTarget.SettlesFast`. |
| `LatTarget.FailureKeeps` | fio/fio-fio-3.5/io_u.c:1451-1472 | A missed window keeps the same. |
| `LatTarget.WindowsKeep` | fio/fio-fio-3.5/io_u.c:1451-1543 | That holds after any number of windows of a device that meets the target exactly up to some depth. |
| `LatTarget.Closer` | fio/fio-fio-3.5/io_u.c:1451-1543 | Every window before the final run brings the search strictly closer to its end. |
| `LatTarget.Finishes` | fio/fio-fio-3.5/io_u.c:1451-1543 | From any state of the search finitely many windows end it at min(T, iodepth). |
| `LatTarget.NeverEnds` | fio/fio-fio-3.5/io_u.c:1504-1543 | With T = iodepth - 1 the search goes round for ever. |
| `LatTarget.SettlesExactly` | fio/fio-fio-3.5/io_u.c:1451-1543 | For every T >= 1 the search settles at min(T, iodepth) if and only if T is not iodepth - 1. |
| `LatTarget.GivesUp` | fio/fio-fio-3.5/io_u.c:1451-1454 | A device that misses the target at depth 1 is given up on in every window and the search stays at its start. |
| `LatTarget.DepthDoubles` | fio/fio-fio-3.5/io_u.c:1508-1523 | As long as no window missed, the depth after n windows is min(2^n, iodepth). |
| `LatTarget.SettlesFast` | fio/fio-fio-3.5/io_u.c:1451-1543 | The search is done at min(T, iodepth) within 3 * log2(iodepth) + 5 windows, the logarithm rounded up, unless T is iodepth - 1. |
| `LatTarget.EndsAfterFinalRun` | fio/fio-fio-3.5/io_u.c:1525-1541 | The search never gives up on a device that meets the target at depth 1, and it is done only after a whole window at the goal that follows the quiesce. |
| `LatTarget.EveryWindow` | fio/fio-fio-3.5/io_u.c:1451-1543 | For any sequence of verdicts, also of a device that changes its mind: the depth stays between 1 and iodepth, a miss lowers it and is the new upper bound, a hit does not lower it and is the new lower bound, and only a miss at depth 1 gives up. |
| `LatTarget.Tracker.constructor` | fio/fio-fio-3.5/io_u.c:1483-1496 | The search starts at depth 1 between 1 and iodepth. |
| `LatTarget.Tracker.Fail` | fio/fio-fio-3.5/io_u.c:1451-1472 | The in-place update is the failure step of the search proved about above. |
| `LatTarget.Tracker.Succeed` | fio/fio-fio-3.5/io_u.c:1504-1543 | The in-place update is the success step, which doubles or bisects as `LatTarget.DepthDoubles` and `LatTarget.SettlesFast` say. |
| `WriteHistory.OverlapsIsIntersection` | fio/fio-fio-3.5/iolog.c:264-273 | For writes of at least one byte the overlap test is: same file and a common byte. |
| `WriteHistory.LoggedOk` | fio/fio-fio-3.5/iolog.c:252-291 | Logging a write keeps the history sorted and disjoint, and leaves the new write and exactly the old ones it misses. |
| `WriteHistory.FarSide` | fio/fio-fio-3.5/iolog.c:260-273 | Nothing on the side the descent turns away from can overlap the new write. |
| `WriteHistory.DescentIsScan` | fio/fio-fio-3.5/iolog.c:252-291 | For any search tree, the descent meets an overlapping entry if and only if a linear scan of the tree finds one. |
| `WriteHistory.HistoryIsSurvivors` | fio/fio-fio-3.5/iolog.c:209-292 | After any sequence of writes the history is sorted, pairwise disjoint and exactly the writes that no later one overlaps. |
| `WriteHistory.Descend` | fio/fio-fio-3.5/iolog.c:252-286 | The loop stops at an overlapping entry if the descent meets one, and otherwise at the only place that keeps the order. |
| `WriteHistory.Erase` | fio/fio-fio-3.5/iolog.c:275-285 | Erasing an entry leaves the in-order contents without it, whatever the shape of the tree. |
| `WriteHistory.Link` | fio/fio-fio-3.5/iolog.c:288-291 | Linking at the place found inserts the entry between its in-order neighbours. |
| `WriteHistory.Log.DescendOnce` | fio/fio-fio-3.5/iolog.c:252-291 | One pass either links the new entry or erases an overlapping one; the contents shrink at a restart, so the loop ends, and the final result is unchanged by the order of evictions. |
| `WriteHistory.Log.LogPiece` | fio/fio-fio-3.5/iolog.c:209-292 | The tree ends up with the in-order contents of a linear-scan eviction, or the entry is appended to the plain list. |
| `WriteHistory.LogAll` | fio/fio-fio-3.5/iolog.c:209-292 | After logging any sequence of writes the tree holds exactly the writes that no later one overlaps, in order. |
| `WriteHistory.Log.UnlogSorted` | fio/fio-fio-3.5/iolog.c:294-321 | Unlogging a tree entry removes exactly that entry and keeps the length count. |
| `WriteHistory.Log.UnlogListed` | fio/fio-fio-3.5/iolog.c:294-321 | Unlogging a list entry removes exactly that position and keeps the length count. |
| `WriteHistory.Log.Trim` | fio/fio-fio-3.5/iolog.c:323-331 | A short transfer sets the length of the logged entry on the tree, changes nothing else, and keeps the tree sorted and disjoint. |
| `WriteHistory.Log.TrimListed` | fio/fio-fio-3.5/iolog.c:323-331 | A short transfer shrinks the logged entry on the plain list and nothing else. |
| `WriteHistory.ShrunkOne` | fio/fio-fio-3.5/iolog.c:323-331 | Shrinking an entry of a sorted, disjoint history changes that one entry, only in its length, and no other. |
| `WriteHistory.Log.Prune` | fio/fio-fio-3.5/iolog.c:184-204 | Pruning empties the tree, the list and the count. |
| `WriteHistory.ShrunkTidy` | fio/fio-fio-3.5/iolog.c:323-331 | Shrinking any entry of a sorted, disjoint history leaves it sorted and disjoint. |
| `UnitQueue.Smear` | fio/fio-fio-3.5/io_u_queue.c:24-32 | One step n |= n >> j doubles the run of ones below the highest bit. |
| `UnitQueue.SmearAll` | fio/fio-fio-3.5/io_u_queue.c:24-32 | The five steps fill every bit below the highest one. |
| `UnitQueue.RingSize` | fio/fio-fio-3.5/io_u_queue.c:20-39 | For every 32-bit nr the ring size is the least power of two that is at least nr + 1, or 0 when that power is 2^32. |
| `UnitQueue.MaskIsMod` | fio/fio-fio-3.5/io_u_queue.h:59-80 | Masking an index that moved one past a slot wraps it to the start of the ring. |
| `UnitQueue.Stack.constructor` | fio/fio-fio-3.5/io_u_queue.c:4-13 | A new stack of any capacity is empty. |
| `UnitQueue.Stack.Empty` | fio/fio-fio-3.5/io_u_queue.h:38-41 | The emptiness test is true exactly when the contents are empty. |
| `UnitQueue.Stack.Pop` | fio/fio-fio-3.5/io_u_queue.h:15-26 | Takes the last unit pushed, or nothing from an empty stack. |
| `UnitQueue.Stack.Push` | fio/fio-fio-3.5/io_u_queue.h:28-36 | Appends, and reaches its assert exactly when the stack is full. |
| `UnitQueue.Ring.constructor` | fio/fio-fio-3.5/io_u_queue.c:20-39 | A new ring is empty and has a slot more than the units it was sized for. |
| `UnitQueue.Ring.Empty` | fio/fio-fio-3.5/io_u_queue.h:82-85 | The emptiness test is true exactly when the queue has no entries. |
| `UnitQueue.Ring.Push` | fio/fio-fio-3.5/io_u_queue.h:59-68 | Appends whenever fewer than max - 1 entries are queued; on a full ring it reaches its assert, except with the tail at slot 0, where the unmasked test lets it through and the entries are lost. |
| `UnitQueue.Ring.Pop` | fio/fio-fio-3.5/io_u_queue.h:70-80 | Takes the oldest entry, or nothing from an empty ring. |
| `UnitQueue.FullRing` | fio/fio-fio-3.5/io_u_queue.h:59-68 | A new ring takes max - 1 entries, with the tail still at slot 0. |
| `UnitQueue.LostEntries` | fio/fio-fio-3.5/io_u_queue.h:59-68 | One more push onto that ring is let through and leaves it empty. |
| `IoUnits.InFlightOverlap` | fio/fio-fio-3.5/backend.c:591-617 | The loop answers whether some in-flight unit has a byte in common with the range. |
| `IoUnits.OverlapExactly` | fio/fio-fio-3.5/backend.c:591-617 | The comparison of end points finds exactly the ranges that share a byte. |
| `IoUnits.BeginKeeps` | fio/fio-fio-3.5/io_u.c:1587-1632 | Taking and filling a unit keeps the invariant. |
| `IoUnits.BeginFailKeeps` | fio/fio-fio-3.5/io_u.c:1735-1830 | Taking a unit and putting it back unused keeps the invariant. |
| `IoUnits.ClearOfFlight` | fio/fio-fio-3.5/backend.c:619-630 | A unit the check lets through overlaps no unit in flight; when cur_depth is 1 there is none. |
| `IoUnits.HeldToRing` | fio/fio-fio-3.5/io_u.c:891-917 | Requeueing the held unit keeps the invariant and takes its issue back if it was counted. |
| `IoUnits.HeldToEngine` | fio/fio-fio-3.5/ioengines.c:280-392 | A queued unit moves to the engine and is counted once. |
| `IoUnits.HeldCompletes` | fio/fio-fio-3.5/io_u.c:1963-2050 | A unit completed at submission without an error is credited once with the bytes of all its pieces and freed. |
| `IoUnits.HeldFails` | fio/fio-fio-3.5/io_u.c:885-889 | A unit that failed at submission is freed without a credit. |
| `IoUnits.EventKeeps` | fio/fio-fio-3.5/io_u.c:2067-2081 | Reaping a completion event keeps the invariant; what it counts is in `IoUnits.CompleteFate` and `IoCounts.CountsReported`. |
| `IoUnits.BusyKeeps` | fio/fio-fio-3.5/backend.c:540-547 | A refused or busy unit is requeued with its issue undone, then what is queued is committed. |
| `IoUnits.QueuedKeeps` | fio/fio-fio-3.5/ioengines.c:364-376 | A queued unit raises the queued count, and a full batch is committed. |
| `IoUnits.CompletedKeeps` | fio/fio-fio-3.5/backend.c:474-516 | Completion, failure, short transfer and short transfer at the end of the file all keep the invariant. |
| `IoUnits.CommitKeeps` | fio/fio-fio-3.5/ioengines.c:414-438 | A commit leaves nothing queued while the engine has units, and keeps the sum of the two counts and the rest of the invariant. |
| `IoUnits.GetEventsKeeps` | fio/fio-fio-3.5/ioengines.c:237-278 | Getting events keeps the 32-bit sum of the two counts equal to the units queued and not reaped, even when one of them wraps. |
| `IoUnits.StepKeeps` | fio/fio-fio-3.5/backend.c:921-1157 | Every action of the loop keeps the invariant. |
| `IoUnits.RunKeeps` | fio/fio-fio-3.5/backend.c:921-1157 | The invariant holds in every state of every run, whatever the engine answers. |
| `IoUnits.FlightDisjoint` | fio/fio-fio-3.5/backend.c:591-630 | With serialize_overlap no byte is ever in the ranges of two units in flight. |
| `IoUnits.DepthIsExact` | fio/fio-fio-3.5/io_u.c:863-917 | cur_depth is all units less those on the free stack and the ring, and every unit in flight is among them. |
| `IoDepth.DepthCapped` | fio/fio-fio-3.5/io_u.c:1575-1585 | While the latency search allows at most c units, those in use, requeued ones included, stay within c or within what was in use when that began. |
| `IoDepth.DepthKept` | fio/fio-fio-3.5/io_u.c:1575-1632 | With a latency target the units in use, requeued ones included, never exceed the allowed depth outside the quiesce that follows when it goes down; the ring never holds more than one unit. |
| `IoDepth.ExceedsExactly` | fio/fio-fio-3.5/io_u.c:1451-1472 | From within the allowed depth, an action leads beyond it if and only if it is the search going below the units in use. |
| `IoDepth.DepthLowered` | fio/fio-fio-3.5/io_u.c:1451-1472 | A run at whose end two queued units are in use, the search has gone back to one, and the loop is quiescing. |
| `IoDepth.QuiesceEnds` | fio/fio-fio-3.5/io_u.c:696-727 | A quiesce that starts with a depth above 0 or nothing queued brings units back in every turn, and can return exactly when nothing is at the engine. |
| `IoDepth.QuiesceHangs` | fio/fio-fio-3.5/io_u.c:712-718 | One that starts with a depth of 0 and something queued changes nothing in any turn, and can return after none. |
| `IoDepth.QuiesceExactly` | fio/fio-fio-3.5/io_u.c:696-727 | A quiesce can return if and only if, when it is called, the depth is not 0 or nothing is queued. |
| `IoDepth.HangExample` | fio/fio-fio-3.5/ioengines.c:252-256 | A run that ends with a depth of 0 and one unit counted as queued: it was reaped without a commit. |
| `IoUnits.Conservation` | fio/fio-fio-3.5/backend.c:796-807 | io_u_queued + io_u_in_flight modulo 2^32 is the units queued and not reaped; completed plus outstanding I/Os never pass number_ios * loops; every issue is outstanding, credited or failed. |
| `IoUnits.CreditedExactly` | fio/fio-fio-3.5/io_u.c:2004-2022 | Every credit has exactly the bytes of its pieces, which are contiguous from the first offset of its I/O; the byte counter is the sum of the credits. |
| `IoUnits.RetriesEnd` | fio/fio-fio-3.5/backend.c:479-507 | Every short transfer leaves a strictly smaller residue, so a unit goes through fewer of them than it has bytes. |
| `IoUnits.SubmitFate` | fio/fio-fio-3.5/backend.c:474-547 | A submitted unit goes back to the ring if it is refused, the engine is busy or the transfer is short; to the engine if it is queued; and to the free stack if the I/O has ended, as one more error when the answer is an error and as one more block with its bytes when it is not, under its number. |
| `IoUnits.CompleteFate` | fio/fio-fio-3.5/io_u.c:1963-2050 | A completed unit is freed; with an error it is one more error, without one it is one more block with all its bytes but the residue, under the number of its I/O. |
| `IoHistory.ExactlyOneFate` | fio/fio-fio-3.5/io_u.c:1963-2050 | Every I/O that a unit was set up for is carried by exactly one unit in use, or has ended exactly once: credited, failed or put back unfinished. |
| `IoHistory.CreditedOnce` | fio/fio-fio-3.5/io_u.c:2004-2022 | No I/O is credited twice, and none that is credited has failed, was put back or is still in use. |
| `IoHistory.RunAccounted` | fio/fio-fio-3.5/backend.c:921-1157 | That account is kept by every action of every run. |
| `IoUnits.AssertsHold` | fio/fio-fio-3.5/io_u.c:1604-1615 | A unit taken is marked free, one submitted is not in flight, one completing is, and neither the stack nor the ring is full when a unit goes back. |
| `IoCounts.CountsReported` | fio/fio-fio-3.5/io_u.c:1998-2049 | In every run io_blocks is the number of results the engine reported without an error, io_bytes the sum of their buffers less their residues, and the error count the number of results with an error; credits and failures name those I/Os in order. |
| `IoCounts.StepGrows` | fio/fio-fio-3.5/backend.c:468-547 | Every action adds to the counters exactly the result it reports: at most one, from an event or from an answer on the spot that ends the I/O. |
| `IoCounts.BeginsExactly` | fio/fio-fio-3.5/backend.c:796-807 | A unit can be taken if and only if the loop is quiet, I/Os done and outstanding are below number_ios * loops, and a unit is on the ring, or on the free stack with depth to spare. |
| `IoCounts.TakesExactly` | fio/fio-fio-3.5/io_u.c:1587-1632 | A requeued unit is taken before any fresh one and goes on where it stopped; a fresh one is the top of the stack, set up for the I/O asked for under the next number. |
| `IoCounts.RefusedExactly` | fio/fio-fio-3.5/backend.c:619-630 | With serialize_overlap a unit is refused if and only if it shares a byte with a unit the engine has; without it never. |
| `IoCounts.BatchKept` | fio/fio-fio-3.5/ioengines.c:364-376 | In every state the units queued and not committed are fewer than iodepth_batch, or none. |
| `IoCounts.CommitEmpties` | fio/fio-fio-3.5/backend.c:540-547 | After a commit, the start of a quiesce, a refused unit or a busy engine nothing stays queued while the engine has a unit. |
| `IoCounts.QuiescesExactly` | fio/fio-fio-3.5/io_u.c:1451-1472 | The loop waits for quiescence exactly from a quiesce, or a move of the depth that does not raise it, until the quiesce returns. |
| `IoLoop.Thread.constructor` | fio/fio-fio-3.5/backend.c:1215-1333 | The set-up of the queues is the initial state of the machine. |
| `IoLoop.Thread.PutUnit` | fio/fio-fio-3.5/io_u.c:863-883 | Works in place as the put step; the stack never reaches its assert. |
| `IoLoop.Thread.RequeueUnit` | fio/fio-fio-3.5/io_u.c:891-917 | Works in place as the requeue step; the ring never drops an entry or reaches its assert. |
| `IoLoop.Thread.CommitQueued` | fio/fio-fio-3.5/ioengines.c:414-438 | Works in place as the commit step. |
| `IoLoop.Thread.GetUnit` | fio/fio-fio-3.5/io_u.c:1587-1632 | Takes the oldest requeued unit, else the top of the free stack unless the depth is capped, as the machine says. |
| `IoLoop.Thread.CompleteUnit` | fio/fio-fio-3.5/io_u.c:1963-2050 | Works in place as a completion of the machine and meets the assert that the unit is in flight; it counts an error or a block as `IoUnits.CompleteFate` says. |
| `IoLoop.Thread.Issue` | fio/fio-fio-3.5/ioengines.c:280-392 | Works in place as the answer step for every answer of the engine. |
| `IoLoop.Thread.Begin` | fio/fio-fio-3.5/backend.c:958-960 | Takes a unit exactly when the machine can. |
| `IoLoop.Thread.Submit` | fio/fio-fio-3.5/backend.c:619-630 | Works in place as the submit action and meets the assert that the unit is not in flight. |
| `IoLoop.Thread.GetEvents` | fio/fio-fio-3.5/ioengines.c:237-278 | Works in place as the event-count action. |
| `IoLoop.Thread.Event` | fio/fio-fio-3.5/io_u.c:2067-2081 | Works in place as the reap action. |
| `IoLoop.Thread.Retarget` | fio/fio-fio-3.5/io_u.c:1451-1472 | Works in place as the action that moves the allowed depth and quiesces unless it goes up. |
| `IoLoop.Thread.Quiesce` | fio/fio-fio-3.5/io_u.c:708-712 | Works in place as the start of a quiesce. |
| `IoLoop.Thread.Quiesced` | fio/fio-fio-3.5/io_u.c:714 | Returns if and only if nothing is counted as in flight. |
| `IoLoop.Perform` | fio/fio-fio-3.5/backend.c:921-1157 | An action of a script is carried out if and only if the machine can, and then as the machine does. |
| `IoLoop.DoIo` | fio/fio-fio-3.5/backend.c:921-1157 | For every script of requests, engine answers and events the in-place loop ends in the state the machine ends in, and its states on the way are a run of the machine. |
| `Fifo.ModAdvance` | fio/fio-fio-3.5/fifo.c:57-66 | Advancing an index by at most the size moves its buffer position round by as much. |
| `Fifo.Advance` | fio/fio-fio-3.5/fifo.c:66-91 | The same across the 32-bit wrap-around of the index, because the size divides 2^32. |
| `Fifo.CircularDrop` | fio/fio-fio-3.5/fifo.c:72-97 | Dropping bytes from the front of a circular region is moving its start. |
| `Fifo.CircularAppend` | fio/fio-fio-3.5/fifo.c:49-70 | Copying right behind a circular region, in one piece or two, appends to it and leaves it as it was. |
| `Fifo.SizeExactly` | fio/fio-fio-3.5/fifo.c:28-41 | Masking with size - 1 leaves every slot number alone if and only if the size is a power of two. |
| `Fifo.Queue.constructor` | fio/fio-fio-3.5/fifo.c:28-41 | A new FIFO of any power-of-two size up to 2^31 is empty. |
| `Fifo.Queue.RoomIsRest` | fio/fio-fio-3.5/fifo.h:37-45 | Length and room, computed by wrapping subtraction, add up to the size. |
| `Fifo.Queue.Put` | fio/fio-fio-3.5/fifo.c:49-70 | Appends the longest prefix of the data that fits and returns its length. |
| `Fifo.Queue.Get` | fio/fio-fio-3.5/fifo.c:72-97 | Takes the first min(len, length) bytes in order, or only discards them. |
| `TraceFormat.MagicBytes` | fio/fio-fio-3.5/blktrace.c:464-476 | The magic and version tests accept one byte pattern, and with swapping the same pattern back to front. |
| `TraceFormat.PayloadLen` | fio/fio-fio-3.5/blktrace_api.h:94-106 | The payload length is the last two bytes of the header, in either byte order. |
| `TraceFormat.ParseWritten` | fio/fio-fio-3.5/blktrace.c:452-501 | Parsing is the inverse of writing well-formed headers and payloads one after the other, up to the first payload longer than the 8192-byte FIFO; the trace is refused there. |
| `TraceFormat.LongPayload` | fio/fio-fio-3.5/blktrace.c:64-72 | A well-formed trace with a payload of 8193 bytes that is refused. |
| `TraceReader.RoundIsFirst` | fio/fio-fio-3.5/blktrace.c:453-484 | A round of the loop that delivers a trace delivers the one the file has at that place, with its whole payload consumed. |
| `TraceReader.LoadIsPrefix` | fio/fio-fio-3.5/blktrace.c:452-501 | Whatever the reads deliver, the traces handled are a prefix of those in the file. |
| `TraceReader.FullIsAll` | fio/fio-fio-3.5/blktrace.c:452-501 | When every read is full the loader handles exactly what the file holds, with the same verdict. |
| `TraceReader.SuccessIsAll` | fio/fio-fio-3.5/blktrace.c:457-462 | When every read up to the first failing one brings at least a header, a success stands for the whole file. |
| `TraceReader.Truncates` | fio/fio-fio-3.5/blktrace.c:457-462 | When some read before any failing one is shorter than a header, there is a file of which the loader handles all traces but the last and reports success. |
| `TraceReader.SuccessExactly` | fio/fio-fio-3.5/blktrace.c:457-462 | No file is ever truncated silently if and only if every read up to the first failing one brings at least a header. |
| `TraceReader.Reader.Position` | fio/fio-fio-3.5/blktrace.c:22-72 | The bytes consumed, discarded ones included, are a prefix of the file and the FIFO holds what follows them. |
| `TraceReader.Reader.Refill` | fio/fio-fio-3.5/blktrace.c:22-43 | Every byte a read delivers is stored, however the read splits the file. |
| `TraceReader.Reader.TraceGet` | fio/fio-fio-3.5/blktrace.c:48-59 | Takes exactly the next bytes of the file that are asked for and at hand after at most one read; fails exactly when a needed read fails. |
| `TraceReader.Reader.DiscardPayload` | fio/fio-fio-3.5/blktrace.c:64-72 | Consumes payload bytes in the same order without returning them. |
| `TraceReader.Reader.NextTrace` | fio/fio-fio-3.5/blktrace.c:453-484 | Works in place as one round of the loop, for every splitting of the reads. |
| `TraceReader.Reader.Load` | fio/fio-fio-3.5/blktrace.c:452-501 | Handles exactly what the specification of the loop says for these reads, hence a prefix of the file, all of it for full reads, and all of it on success when reads bring at least a header each. |
| `TraceReader.TruncatedLoad` | fio/fio-fio-3.5/blktrace.c:457-462 | For any reads of which one is shorter than a header and none before it failed or was, builds a file that is loaded short of one trace and reported as a success. |
| `Condensed.ValueDigits` | fio/fio-fio-3.5/eta.c:25 | Printing a count in decimal and reading it back is the identity. |
| `Condensed.ExpandGroups` | fio/fio-fio-3.5/eta.c:17-26 | The groups expand to the status string. |
| `Condensed.GroupsCanonical` | fio/fio-fio-3.5/eta.c:17-26 | Groups are non-empty and neighbouring groups carry different characters. |
| `Condensed.GroupsUnique` | fio/fio-fio-3.5/eta.c:17-26 | There is no other canonical division of a string into groups. |
| `Condensed.DecodeOfLines` | fio/fio-fio-3.5/eta.c:20-25 | Printed groups are read back as they were, whatever their characters. |
| `Condensed.RoundTrip` | fio/fio-fio-3.5/eta.c:14-30 | The condensed string decodes to exactly the original, for every input. |
| `Condensed.Injective` | fio/fio-fio-3.5/eta.c:14-30 | Different status strings have different condensed strings. |
| `Condensed.OneSpelling` | fio/fio-fio-3.5/eta.c:14-30 | A canonical list of groups spells the condensed form of a string if and only if it expands to that string. |
| `Condensed.TextFits` | fio/fio-fio-3.5/stat.h:363 | A group never takes more than five characters for each status it stands for. |
| `Condensed.SkipRun` | fio/fio-fio-3.5/eta.c:21-24 | The inner loop finds the end of the run it starts in. |
| `Condensed.PrintGroup` | fio/fio-fio-3.5/eta.c:25 | Writes the printed count behind what is there and says where it ends. |
| `Condensed.UpdateCondensed` | fio/fio-fio-3.5/eta.c:14-30 | The destination holds the condensed string and its terminator; five characters for each status and one more are always enough. |
| `ClientEta.SumMeans` | fio/fio-fio-3.5/client.c:1177-1208 | The accumulated report has the column totals of the replies and the largest of their remaining times. |
| `ClientEta.DecKeeps` | fio/fio-fio-3.5/client.c:209-218 | Dropping one of the references of a sound aggregate keeps it sound; it had not been released before. |
| `ClientEta.DecTimesIs` | fio/fio-fio-3.5/client.c:1863-1866 | Dropping n references at a request releases the aggregate exactly when n is all of them. |
| `ClientEta.ReplyKeeps` | fio/fio-fio-3.5/client.c:1259-1277 | A reply, matched or not, keeps the invariant and meets the assert on the request in flight; which report it adds to which request is in `EtaEvents.RecordedExactly`. |
| `ClientEta.TimeoutKeeps` | fio/fio-fio-3.5/client.c:1874-1900 | A timeout keeps the invariant. |
| `ClientEta.RemoveKeeps` | fio/fio-fio-3.5/client.c:238-264 | Removing a client at any time keeps the invariant. |
| `ClientEta.RequestKeeps` | fio/fio-fio-3.5/client.c:1831-1869 | A request keeps the invariant and meets the assert that no asked client has one in flight. |
| `ClientEta.StepKeeps` | fio/fio-fio-3.5/client.c:1831-1900 | Every event keeps the invariant. |
| `ClientEta.RunKeeps` | fio/fio-fio-3.5/client.c:1831-1900 | The invariant holds in every state of every run. |
| `ClientEta.NeverFaults` | fio/fio-fio-3.5/client.c:1259-1277 | No assert fires, no released aggregate is used or released again, and none is released while a client points to it. |
| `ClientEta.ShownExactly` | fio/fio-fio-3.5/client.c:209-218 | An aggregate is released if and only if it was asked of someone, nobody points to it any more and every client not skipped was running; the callback has then been called once, with the sum of what was received, which is what `EtaEvents.RecordedExactly` says. |
| `ClientEta.IdleNeverShown` | fio/fio-fio-3.5/client.c:1853-1854 | A request made while a client was neither running nor waited for is not shown or released in any later state. |
| `ClientEta.IdleExample` | fio/fio-fio-3.5/client.c:1853-1854 | A run at whose end nobody is waited for and the aggregate is not released. |
| `ClientEta.Accounted` | fio/fio-fio-3.5/client.c:1844-1866 | Every client of a request was skipped, idle, answered, given up or is still waited for. |
| `ClientEta.RunExtends` | fio/fio-fio-3.5/client.c:209-218 | Over a run nothing recorded of a request is taken back, so its callback is called at most once. |
| `ClientEta.EveryAnswerLeaves` | fio/fio-fio-3.5/client.c:1874-1900 | A reply, a timeout or a removal of a client that is waited for takes it off the aggregate. |
| `ClientEta.Monitor.DecJobsEta` | fio/fio-fio-3.5/client.c:209-218 | Works in place as the step proved about above. |
| `ClientEta.Monitor.HandleEta` | fio/fio-fio-3.5/client.c:1210-1277 | Works in place as the reply event, which `EtaEvents.RecordedExactly` ties to the report it carries, and meets its assert. |
| `ClientEta.Monitor.HandleTimeout` | fio/fio-fio-3.5/client.c:1874-1900 | Works in place as the timeout event. |
| `ClientEta.Monitor.RemoveClient` | fio/fio-fio-3.5/client.c:238-264 | Works in place as the removal event. |
| `ClientEta.Monitor.AskClients` | fio/fio-fio-3.5/client.c:1846-1862 | The loop over the clients, in any order, asks exactly those running and not waited for and counts the skipped ones. |
| `ClientEta.Monitor.DropSkipped` | fio/fio-fio-3.5/client.c:1863-1866 | The second loop drops one reference for each skipped client and stops at the release. |
| `ClientEta.Monitor.RequestEtas` | fio/fio-fio-3.5/client.c:1831-1869 | Works in place as the request event and meets its assert. |
| `EtaEvents.RecordedExactly` | fio/fio-fio-3.5/client.c:1250-1277 | In every run a request has received exactly the reports carried by the replies to its own entries, in order, and has lost exactly the clients that timed out or were removed while waited for. |
| `EtaEvents.ShowsDelivered` | fio/fio-fio-3.5/client.c:209-218 | The callback is called at most once for a request, with the sum of exactly the reports delivered for it, and as soon as everybody it asked has delivered or been given up, if every client not skipped was running. |
| `EtaEvents.CountedAtRequest` | fio/fio-fio-3.5/client.c:1843-1866 | What a request counts as asked, skipped, idle and sent is what the clients were when it was made, for the rest of the run. |
| `EtaEvents.WaitedForExactly` | fio/fio-fio-3.5/client.c:1846-1860 | A client is waited for by a request exactly while that request asked it and it has neither answered, nor timed out, nor been removed since. |
| `EtaEvents.EntryExactly` | fio/fio-fio-3.5/client.c:1210-1233 | A message matches a request exactly when the request was sent to that client under the tag of the message and the client has neither answered, nor timed out, nor been removed since. |
| `EtaEvents.AskedReady` | fio/fio-fio-3.5/client.c:1846-1854 | A request asks exactly the connected clients that run and that no request waits for. |
| `EtaEvents.ReadyExactly` | fio/fio-fio-3.5/client.c:1730-1746 | A client counts as running from its start message to its stop message or its removal. |

## Left out

- FileLock.MutualExclusion: speaks of name hashes, as the code does; two names with the same hash share a lock.
- FileLock.WaitKeeps: an unlock by a thread that does not hold the lock is not a step of the model; a trylock on an
  empty pool halts at the assert.
- Semaphore.MutualExclusion: covers lock-style use, where only the holder calls up; timed waits are not modelled.
- Peterson.InRangeExactly: a store outside the array, which is undefined in C, only sets a flag in the model; what is
  said of a run is meant up to that point.
- CpuClock.Calibrate: takes `cycles_per_msec` as an input; the sampling and averaging of the clock are floating point
  and measurement.
- ClockTest.CountMismatches: is given the entries sorted by sequence number; qsort and its comparator are not
  modelled, nor are table entries never filled because the counter ran out.
- LatTarget.SettlesExactly: takes the verdict on a window as an input (met exactly at depths up to T); the percentile
  arithmetic and the reset of statistics are not modelled, and the quiescing of I/O is part of `IoDepth`. Depths are below 2^31.
- WriteHistory.Log.UnlogSorted: covers an entry still on the tree; unlogging one that a later write evicted in flight
  is not modelled, nor are the trim list and the in-flight flag that delays freeing.
- WriteHistory.Erase: any tree with the right in-order contents will do; red-black balancing is not modelled. Offsets
  and lengths are unbounded, so offset + length does not wrap at 2^64.
- IoHistory.ExactlyOneFate: a unit that could not be prepared after it was filled counts as put back without a number.
- IoUnits.CompletedKeeps: a transfer that moves nothing and a negative answer of the engine, which end the job, are
  not actions of the machine.
- IoUnits.Conservation: one direction of I/O stands for the per-direction counters; time-based runs, replayed logs,
  trim lists, verify-list units, asynchronous verification, offloaded submission and rate limits are not modelled.
- IoDepth.DepthCapped: any positive value may become the allowed depth whenever the loop is between two units; which ones
  do is the business of `LatTarget`.
- IoDepth.QuiesceExactly: the engine answers a wait for one event with at least one; a quiesce is called with no unit held.
- IoLoop.Thread.Begin: file choice and offset generation are inputs; only the parts of `do_io` that take, submit and
  reap units are modelled.
- UnitQueue.Ring.constructor: for up to 2^31 - 1 units; for more the computed size is 0 and there is no slot to use.
- Fifo.Queue.constructor: for power-of-two sizes up to 2^31, as the only caller uses; `Fifo.SizeExactly` says why.
- TraceReader.Reader.Load: models the reading loop; depth statistics, the read-only skip and what is done with a
  handled trace are not modelled. Headers are read on a little-endian host.
- TraceReader.Reader.TraceGet: `read` may deliver any number of bytes up to what was asked for, or fail.
- Condensed.UpdateCondensed: counts are printed as unbounded numbers; the code's int holds every possible job count.
- ClientEta.ShownExactly: an ETA message never carries the tag of an entry for another command; replies to other
  commands, the message bodies and the sockets are not modelled. Counters are unbounded and the run string, which the
  code overwrites with the last one, is not kept. "Points to" speaks of connected clients: a removed client keeps a
  stale pointer that nothing reads.
- EtaEvents.ReadyExactly: a message that announces new jobs before they run counts as a stop message. A client that has
  timed out more than five times in a row is removed; the model lets any client be removed at any time.
- ClientEta.Monitor.AskClients: the client list is a table visited in any order, and `nr_clients` is its size.
- Start and termination of threads (`run_threads`), option parsing, output formats, the graphical client and the thin
  system-call benchmarks: easy members or foreign calls.
