# Verification of the tomato runtime core

Dafny models and proofs for the code under `src/common` that everything else stands on: the
cooperative task library, the hash table, string search, list and halloc headers, and the message codecs.

Each part has a specification on values (functions and state machines, with theorems over all inputs
or all runs) and, where the source changes things in place, classes and methods in the source's own
form that are proved against it.

- **Channels** (`ChanModel`, `ChanQueues`, `ChanTheorems`, `ChanCalls`, `ChanValues`; in place: `Channels`).
  A step is what one task does between two task switches. A run is any sequence of steps; the two
  uses of rand() are arbitrary numbers, task bodies are arbitrary, and a step that is not enabled
  changes nothing. Values are abstract elements; memory is a map from addresses.
- **Runtime** (`TaskLocks`, `TaskModel`, `TaskPlaces`, `TaskResume`, `TaskCount`, `TaskTimers`,
  `TaskTheorems`, `TaskRuns`, `TaskAnswers`, `TaskLives`; in place: `TaskLists`, `TaskClock`,
  `TaskRuntime`, `TaskDriver`). One state machine holds the scheduler, mutexes, reader/writer locks, rendez, the sleep queue and the
  counters. Runs are *matched*: a task unlocks what it holds, and taskready from outside is called for
  tasks that wait for a channel or a descriptor. This is what the source demands of its callers.
  `TaskLists` and `TaskClock` prove each operation in place on the lists it names; `TaskRuntime` holds
  all lists of tasks at once, and `TaskDriver` carries out every step on them (`TaskEffects` says what a
  step does to the lists), so that whole runs are simulated on the `next` and `prev` fields.
- **Search** (`Kmp`, `UtString`). Table construction and search in both directions. The
  right-to-left code is proved to be the left-to-right code in the mirror.
- **Lists** (`MergeSort`, `UtList`, `UtListOps`). The in-place merge sorts of singly linked, doubly
  linked and circular lists against merge sort on sequences, and the list surgery macros.
- **Hash table** (`UtHash`, `UtHashTable`, `UtHashRuns`, `UtHashGrowth`; in place: `UtHashHeap`,
  `UtHashExpand`, `UtHashApp`, `UtHashMacros`). Bucket chains, expansion statistics and application order. The hash
  is an arbitrary function of the key.
- **halloc** (`HallocModel`; in place: `HallocHeap`). A forest given by the lists of children; a rank
  function witnesses that it has no cycles.
- **Codecs** (`XdrModel`, `XdrWire`, `XdrStream`). Message formats as lists of fields over the primitives
  of RFC 4506, the bytes they put on the wire, and the filters running on a byte stream.

`dafny verify dfyconfig.toml` checks the project.

## Findings

Four places where the code does not do what one would expect; each has its exact condition and an input.

- The inlined path of the consensus filter cuts 64-bit counters to 32 bits, where the slow path
  refuses the message: the two agree exactly if the counters fit (`XdrStream.InlineAgrees`,
  `XdrStream.InlineReceived`); term 2^32 arrives as term 0 (`XdrStream.InlineCutsTerm`).
- fdtask does not poll past the earliest alarm exactly if the clock plus five seconds fits in 64 bits
  (`TaskTimers.PollsInTime`); a run in which it does is in `TaskRuns.PollsTooLong`.
- A task that called taskdelay is not woken before its time exactly if the clock plus the delay fits
  in 64 bits (`TaskRuns.DelayEndsOnTime`); a run in which it is, at once, is in `TaskRuns.WakesTooEarly`.
- hattach detaches before it checks for a cycle, so a refused call changes nothing exactly if the block
  had no parent (`HallocHeap.Hierarchy.Hattach`, `HallocModel.DetachChangesNothing`); otherwise the block
  is lost to its parent (`HallocModel.RefusedAttachLoses`).

How to read the proofs: some predicates are stated "for all marked numbers", with a marker predicate
that is always true. The marker has no meaning; it keeps a definition folded until a proof writes it.

## Model

| member | source | states |
|---|---|---|
| ChanTheorems.NoMissedCommunication | src/common/task/channel.c:71-93 | in every reachable state of every interleaving: no abort; on a buffered channel a queued sender means a full buffer and a queued receiver an empty one; on an unbuffered channel a queued sender and a queued receiver belong to the same call; so no waiting alt could proceed except with its own call |
| ChanTheorems.ChannelsConserve | src/common/task/channel.c:154-199 | in every run, on every channel, the values received followed by the values still buffered are the values sent, in commit order |
| ChanCalls.ExactlyOneCommit | src/common/task/channel.c:222-286 | in every run, for every call: waiting means nothing committed and still blocked; woken or returned with index i means alt i and nothing else was committed; refusing means nothing committed; a woken task stands once in the run queue; only waiting calls have queued alts |
| ChanValues.CommitDelivers | src/common/task/channel.c:146-199 | a receiver gets the oldest buffered value, or the waiting sender's own when the buffer is empty; a waiting receiver gets exactly the sender's value; any other sender's value, as its pointer holds it once a receiver was served, is last in the buffer |
| ChanValues.AltAlone | src/common/task/channel.c:201-220 | with nobody waiting: a send appends what its pointer holds to the buffer and changes nothing else, a receive takes the oldest element to where its pointer points; with the log entry of each |
| ChanValues.AltPaired | src/common/task/channel.c:154-199 | with a partner: buffer, memory, log, run queue and blocked calls afterwards, for an empty and for a full buffer |
| ChanValues.ValuesAreCarried | src/common/task/channel.c:135-199 | in every run, at every step: every value sent is what the sender's pointer held, every value received is in memory where the receiver wanted it, and no other memory changes but where a task writes |
| ChanValues.CallAnswers | src/common/task/channel.c:222-286 | in every run: a call returns at once exactly if some alt of it could move a value, with the one of these that rand() selects; else it refuses exactly if it may not block, changing nothing, and else it waits |
| ChanValues.CanExecMeans | src/common/task/channel.c:71-93 | altcanexec: room or an element in a buffered channel, a blocked call at the other end of an unbuffered one |
| ChanValues.ResumedInOrder | src/common/task/channel.c:216-286 | in every run woken tasks are resumed in the order in which they were woken, and the call returns the committed index |
| ChanValues.SizesStay | src/common/task/channel.c:5-21 | in every run each channel keeps the size it was made with and never holds more |
| ChanQueues.RunSound | src/common/task/channel.c:201-286 | the invariant (each wait queue holds exactly the waiting alts of blocked calls, once each; nothing missed; no abort) holds after every run |
| ChanQueues.StepSound | src/common/task/channel.c:222-286 | every atomic step keeps the invariant |
| ChanQueues.DequeueSucceeds | src/common/task/channel.c:104-133 | altalldequeue finds every alt of a blocked call in its queue, removes exactly these, and cannot abort |
| ChanQueues.DelArrayRemoves | src/common/task/channel.c:45-50 | swap-with-last removal drops exactly the one entry, and only the last entry moves |
| ChanQueues.QueueingMatches | src/common/task/channel.c:274-277 | queueing a blocking call makes the queues hold exactly its non-NOP alts besides the old ones |
| ChanQueues.PartnerDecidesCopy | src/common/task/channel.c:146-182 | a waiting receiver means an empty buffer and a waiting sender a full one, so altcopy neither overflows nor reorders |
| ChanQueues.PartnerIsWaiting | src/common/task/channel.c:209-217 | the entry altexec picks from a queue is a blocked alt for the opposite operation on the same channel |
| ChanQueues.ExecWithSound | src/common/task/channel.c:209-217 | altexec with a partner keeps the invariant and unblocks exactly the partner |
| ChanQueues.ExecSound | src/common/task/channel.c:201-220 | altexec keeps the invariant, with and without a partner |
| ChanQueues.BlockingMissesNothing | src/common/task/channel.c:242-277 | a call that found no executable alt may block without missing a communication |
| ChanTheorems.CopyConserves | src/common/task/channel.c:154-199 | altcopy in all its cases: what comes in at the back goes out at the front |
| ChanTheorems.StepConserves | src/common/task/channel.c:222-286 | every step keeps received ++ buffered == sent on every channel |
| ChanCalls.StepBooked | src/common/task/channel.c:222-286 | every step keeps the account of calls, wakeups and commits |
| ChanModel.Pick | src/common/task/channel.c:252-265 | the j-th executable alt: executable, with exactly j executable alts before it |
| Channels.WindowTake | src/common/task/channel.c:187-193 | removing the element at off and wrapping off is removing the first element of the ring read from off |
| Channels.WindowPut | src/common/task/channel.c:194-198 | writing at (off + nbuf) % bufsize appends to the ring read from off |
| Channels.Channel.constructor | src/common/task/channel.c:5-21 | a new channel has the given size, an empty buffer and empty queues |
| Channels.Channel.Take | src/common/task/channel.c:187-193 | the ring loses its oldest element |
| Channels.Channel.Put | src/common/task/channel.c:194-198 | the ring gains an element at its end |
| Channels.Channel.AltQueue | src/common/task/channel.c:95-102 | the alt is appended to the queue of its operation |
| Channels.Channel.AltDequeue | src/common/task/channel.c:104-123 | succeeds exactly if the alt is queued, and then removes it by swap-with-last; else nothing changes |
| Channels.Runtime.AltCopy | src/common/task/channel.c:154-199 | buffer, memory and the value moved are those of the state machine, for every combination of sender, receiver and buffer |
| Channels.Runtime.AltAllDequeue | src/common/task/channel.c:125-133 | dequeues all alts of the call, or reports the missing one where the source aborts |
| Channels.Runtime.AltExec | src/common/task/channel.c:201-220 | the whole state becomes that of the state machine's altexec |
| Channels.Runtime.Pair | src/common/task/channel.c:211-217 | the branch with a waiting partner: copy, dequeue all of the partner's alts, write its index into the first entry of its alt array, make it ready |
| Channels.Runtime.Count | src/common/task/channel.c:242-251 | counts the executable alts |
| Channels.Runtime.Choose | src/common/task/channel.c:252-268 | the second loop always reaches the chosen executable alt and returns its index |
| Channels.Runtime.QueueAlts | src/common/task/channel.c:274-277 | queues every alt but CHANNOP |
| Channels.Runtime.ChanAlt | src/common/task/channel.c:222-286 | the in-place code refines the state machine: it keeps the invariant, and returns an index, returns -1 or switches away exactly as the machine says |
| Channels.Runtime.Dispatch | src/common/task/channel.c:279-286 | the resumed call returns the index that it reads from the first entry of its own alt array, which is the one its partner committed |
| Channels.PickIs | src/common/task/channel.c:252-265 | counting executable alts down to zero stops at the j-th one |
| TaskTheorems.MutexesHandOff | src/common/task/qlock.c:6-50 | when only owners unlock: no abort is reached, waiting tasks wait for an owner, and a mutex is granted in the order of asking |
| TaskTheorems.WaiterComesBackWithLock | src/common/task/qlock.c:15-22 | a task resumed in qlock, rlock or wlock after waiting holds the lock |
| TaskTheorems.ReadersAndWriters | src/common/task/qlock.c:52-142 | a writer is alone; waiting readers imply a held or waiting writer; waiting writers imply a holder; a waiting reader sees at most one more writer grant; a waiting writer sees only the writers ahead of it, at most one reader batch for each of these and one more, and at most one batch since it began to wait or since the latest writer grant, whichever is later (none while a writer is inside) |
| TaskRuns.SleeperComesBackWithLock | src/common/task/rendez.c:6-16 | from a call of tasksleep on a rendez with a lock, through any matched run: when the caller runs again it is the owner of the lock |
| TaskTheorems.SleeperWaitsForWakeup | src/common/task/rendez.c:6-33 | from the unlock in tasksleep on, through any run without a wakeup on that rendez, the sleeper stays in its place on the list: no wakeup issued after the unlock misses it |
| TaskTheorems.OnlyWakeupWakes | src/common/task/rendez.c:18-33 | no step but a wakeup on the rendez takes a task off its list |
| TaskTheorems.WakeupReachesSleeper | src/common/task/rendez.c:18-33 | the first wakeup after the unlock in tasksleep, however many steps later: wakeup-all readies the sleeper and all before it in order, and wakeup readies the one that slept longest, so that those before the sleeper go first |
| TaskTheorems.EachTaskInOnePlace | src/common/task/task.c:382-407 | although all lists share next and prev: a task is on one list at most and once, the running task and exited tasks on none, and who is on no list runs or is parked |
| TaskDriver.Simulate | src/common/task/task.c:222-254 | every matched run can be carried out on the next and prev fields: in the state it reaches every list is linked both ways, no two lists share a task, and each holds the tasks that the state machine says |
| TaskDriver.Do | src/common/task/task.c:222-254 | one call or one turn of the scheduler on all lists at once keeps them linked, apart and in agreement with the state machine |
| TaskDriver.EveryListLinked | src/common/task/task.c:382-407 | what the agreement means for any two lists: both ways linked, the ids of the model in order, no task in common |
| TaskDriver.LockCall | src/common/task/qlock.c:6-142 | the six calls of qlock.c on all lists |
| TaskDriver.SleepCall | src/common/task/rendez.c:6-13 | tasksleep on all lists: on the rendez first, then the unlock |
| TaskDriver.TakeTurn | src/common/task/task.c:231-254 | a turn of the scheduler on all lists, with what the resumed task does first |
| TaskDriver.DelayCall | src/common/task/fd.c:230-256 | taskdelay on all lists, with the alarm time of the task |
| TaskDriver.WakeCall | src/common/task/fd.c:166-172 | the wake loop on all lists |
| TaskRuntime.Runtime.AddTo | src/common/task/task.c:382-394 | addtask to one of many lists: that list grows, every other list stays as it was |
| TaskRuntime.Runtime.TakeHead | src/common/task/task.c:396-407 | deltask of the head of one of many lists: it is on no list then |
| TaskRuntime.Runtime.InsertTo | src/common/task/fd.c:235-252 | taskdelay's insertion, among many lists |
| TaskRuntime.Runtime.Ready | src/common/task/task.c:174-179 | the first tasks of a list become ready one after the other |
| TaskRuntime.Runtime.Create | src/common/task/task.c:136-153 | a new task enters the run queue with the next number |
| TaskRuntime.Runtime.FallAsleep | src/common/task/fd.c:230-252 | the search on the list ends in the place of the state machine, and the task enters there |
| TaskRuns.YieldLetsOthersRun | src/common/task/task.c:181-191 | between a call of taskyield and the turn in which the caller comes back, the scheduler resumes exactly the tasks of the run queue at the call, in order, and taskyield returns their number |
| TaskRuns.QueuedRunFirst | src/common/task/task.c:222-254 | in any run, the tasks on the run queue are the first to be resumed, in their order, and those not yet resumed are at its head |
| TaskTheorems.RunQueueIsFifo | src/common/task/task.c:222-254 | the run queue only loses its head to the scheduler or grows at its end |
| TaskResume.RunSound | src/common/task/task.c:222-254 | the invariant of the runtime (list discipline, locks, promises to waiting tasks, turns of yielding tasks, no abort) after every matched run |
| TaskResume.StepSound | src/common/task/task.c:222-254 | every matched call and every scheduler turn keeps the invariant |
| TaskResume.DispatchSound | src/common/task/qlock.c:17-21 | resuming a waiter never reaches the abort of _qlock |
| TaskPlaces.MovedKeeps | src/common/task/task.c:174-179 | moving tasks from the head of one list to the run queue keeps the list discipline |
| TaskPlaces.JoinedKeeps | src/common/task/task.c:382-394 | a running task that joins one list as it switches away keeps the list discipline |
| TaskLocks.LockKeeps | src/common/task/qlock.c:6-23 | _qlock keeps first come, first served |
| TaskLocks.UnlockKeeps | src/common/task/qlock.c:37-50 | qunlock hands the lock to the first waiter, or frees it |
| TaskLocks.RLockKeeps | src/common/task/qlock.c:52-65 | _rlock keeps the reader/writer invariant with its bypass bounds |
| TaskLocks.WLockKeeps | src/common/task/qlock.c:79-92 | _wlock keeps it, and a writer that gets in at once passes nobody |
| TaskLocks.RUnlockKeeps | src/common/task/qlock.c:106-116 | runlock keeps it and lets in the first waiting writer after the last reader |
| TaskLocks.WUnlockKeeps | src/common/task/qlock.c:118-142 | wunlock keeps it, cannot abort for its holder, and lets in all waiting readers, or else the first waiting writer |
| TaskAnswers.LockAnswers | src/common/task/qlock.c:6-23 | an attempt gets a mutex exactly if it is free, and is refused exactly if it is taken and it may not wait; what each answer leaves behind |
| TaskAnswers.UnlockUndoesLock | src/common/task/qlock.c:6-50 | an unlock right after a lock that did not wait gives back the same mutex |
| TaskAnswers.EachWaiterInTurn | src/common/task/qlock.c:37-50 | the k-th unlock gives the mutex to the k-th waiting task, and the one after the last leaves it free |
| TaskAnswers.UnlockAborts | src/common/task/qlock.c:42-45 | qunlock aborts exactly if nobody owns the mutex |
| TaskAnswers.RLockAnswers | src/common/task/qlock.c:52-65 | a reader gets in exactly if no writer is inside or waits; the holders and queues afterwards |
| TaskAnswers.WLockAnswers | src/common/task/qlock.c:79-92 | a writer gets in exactly if nobody is inside; the writer and queues afterwards |
| TaskAnswers.RUnlockLetsOut | src/common/task/qlock.c:106-116 | runlock takes the caller, and only it, out of the holders; the last reader lets in the first waiting writer, and with none waiting a writer that asks next gets in exactly if that was the last reader |
| TaskAnswers.WUnlockLetsOut | src/common/task/qlock.c:118-142 | who is inside after wunlock: all waiting readers, or else the first waiting writer, or nobody, and then readers and writers get in |
| TaskAnswers.ReadersComeAndGo | src/common/task/qlock.c:52-116 | after any readers have come and some of them gone, in any order, a writer gets in exactly if all have gone |
| TaskLives.MutexAttempt | src/common/task/qlock.c:6-35 | a caller of qlock or canqlock goes on, with the mutex if it was free, unless it must wait; then it is last on the list |
| TaskLives.ReadAttempt | src/common/task/qlock.c:52-77 | the same for rlock and canrlock |
| TaskLives.WriteAttempt | src/common/task/qlock.c:79-104 | the same for wlock and canwlock |
| TaskLives.ReaderBecomesWriter | src/common/task/qlock.c:79-116 | in every reachable state: a reader that is alone, with no writer waiting, can call runlock and wlock and goes on as the writer |
| TaskLives.SleepReleasesLock | src/common/task/rendez.c:6-13 | tasksleep puts the caller last on the rendez and lets go of its lock, which the first task that waits for it owns at once |
| TaskLives.ParkedWaits | src/common/task/task.c:167-179 | a task that waits for a channel or a descriptor stays parked in any run until it is readied, and then it is last on the run queue |
| TaskLives.ExitedIsGone | src/common/task/task.c:205-254 | a task that called taskexit is never on a list and never runs again, in any run |
| TaskLives.LiveUntilExit | src/common/task/task.c:136-165 | in every run the live tasks are those created that have not called taskexit, and the system tasks those that called tasksystem |
| TaskLives.EndsWhenAllAreDone | src/common/task/task.c:229-232 | in every run the scheduler ends the program normally exactly when every task ever created has called taskexit or tasksystem |
| TaskLives.StallsWhenAllWait | src/common/task/task.c:232-236 | in every run the scheduler gives up exactly when a task is left that is no system task and every live task waits on a list or is parked |
| TaskLives.FdTaskOnce | src/common/task/fd.c:218-227 | the first call of taskdelay makes the task that polls, at the end of the run queue, and no later call does |
| TaskCount.ExitsOnlyWhenDone | src/common/task/task.c:222-254 | taskcount is the number of live non-system tasks, plus one while any of them sleeps; the scheduler exits normally exactly when none is live |
| TaskCount.RunCounted | src/common/task/task.c:136-165 | the accounting holds after every matched run |
| TaskTimers.SleepQueueSorted | src/common/task/fd.c:215-259 | in every matched run the sleep queue is sorted by alarm time |
| TaskTimers.InsertSorted | src/common/task/fd.c:232-252 | inserting before the first later or equal alarm keeps the order |
| TaskTimers.WakesExactly | src/common/task/fd.c:166-172 | the wake loop readies exactly the sleepers with alarmtime <= now, in order, and none early |
| TaskTimers.PollsInTime | src/common/task/fd.c:141-152 | the timeout is never over 5000 ms, is -1 exactly with no sleeper, is 0 for an alarm that is due, and otherwise does not pass the earliest alarm if and only if now plus five seconds fits in 64 bits |
| TaskTimers.PollsExactly | src/common/task/fd.c:141-152 | for an alarm to come the timeout is the whole milliseconds until then, rounded down, if it is at most five seconds ahead and the clock does not wrap before, and 5000 otherwise |
| TaskRuns.PollsTooLong | src/common/task/fd.c:148-149 | a run of two steps in which fdtask sleeps past the alarm: a delay of one millisecond, two milliseconds before the clock wraps |
| TaskRuns.DelayEndsOnTime | src/common/task/fd.c:166-172 | a task that called taskdelay and has slept since is woken by the wake loop exactly if its alarm has come; this is not before the clock and the delay say so if and only if their sum fits in 64 bits |
| TaskRuns.WakesTooEarly | src/common/task/fd.c:230 | a run in which the sum wraps and the sleeper is woken at once |
| TaskModel.SleepPlace | src/common/task/fd.c:232-233 | the place before the first sleeper whose alarm is not earlier |
| TaskLists.Tasklist.AddTask | src/common/task/task.c:382-394 | appends the task to the doubly linked list |
| TaskLists.Tasklist.DelTask | src/common/task/task.c:396-407 | removes exactly that task and keeps the list linked both ways |
| TaskLists.ReadyHead | src/common/task/qlock.c:46-49 | deltask of the head and taskready of it, on two separate lists |
| TaskLists.ReadyMany | src/common/task/rendez.c:18-33 | moves one or all tasks from a list to the run queue in order and returns how many |
| TaskLists.QLock.Lock | src/common/task/qlock.c:6-17 | _qlock in place up to its task switch does what the lock value says: owner, queue, answer |
| TaskLists.QLock.Unlock | src/common/task/qlock.c:37-50 | qunlock in place: the owner is the old head of the queue, which is now at the end of the run queue |
| TaskLists.RWLock.RLock | src/common/task/qlock.c:52-65 | _rlock in place |
| TaskLists.RWLock.WLock | src/common/task/qlock.c:79-92 | _wlock in place |
| TaskLists.RWLock.RUnlock | src/common/task/qlock.c:106-116 | runlock in place, with the task it readies |
| TaskLists.RWLock.WUnlock | src/common/task/qlock.c:118-142 | wunlock in place, with the tasks it readies, and its aborts reported |
| TaskLists.Rendez.TaskSleep | src/common/task/rendez.c:6-13 | tasksleep up to its switch: on the list first, then the unlock |
| TaskLists.Rendez.TaskWakeup | src/common/task/rendez.c:18-33 | _taskwakeup in place, with its result |
| TaskClock.InsertBefore | src/common/task/fd.c:235-252 | the pointer surgery of taskdelay puts the task in its place and keeps the list linked |
| TaskClock.FindPlace | src/common/task/fd.c:232-233 | the search finds the first sleeper that is not earlier |
| TaskClock.Clock.TaskDelay | src/common/task/fd.c:230-256 | the sleeper is inserted in alarm order and the counters stay right |
| TaskClock.Clock.Wake | src/common/task/fd.c:166-172 | the loop moves exactly the due sleepers to the run queue and keeps order and counters |
| UtString.UTString.Find | src/common/ut/utstring.h:303-345 | the least position at or after the start where the needle occurs, -1 exactly if there is none (or the needle is empty), with at most |needle| + |string| failure links |
| UtString.UTString.FindR | src/common/ut/utstring.h:349-387 | the greatest position whose match ends at or before the start, -1 exactly if there is none (or the needle is empty), in the string with its NUL; at most |needle| + |string| + 1 failure links |
| UtString.UTString.OccursInBody | src/common/ut/utstring.h:349-387 | before the NUL an occurrence in the string with its NUL is one in the string |
| UtString.BuildTable | src/common/ut/utstring.h:156-192 | every entry is the strong failure value: the longest proper border followed by a different character; at most |needle| links |
| UtString.BuildTableR | src/common/ut/utstring.h:196-232 | the right-to-left table is the mirror image of the left-to-right table of the mirrored needle |
| UtString.FindWith | src/common/ut/utstring.h:236-265 | the first occurrence, or -1 exactly if there is none; at most |haystack| links |
| UtString.FindWithR | src/common/ut/utstring.h:269-299 | the last occurrence, or -1 exactly if there is none; at most |haystack| links |
| UtString.FallBack | src/common/ut/utstring.h:168-171 | the inner loop ends at the longest match that the next character extends |
| UtString.FallBackR | src/common/ut/utstring.h:208-211 | the same in the mirror |
| UtString.StoreKeepsTable | src/common/ut/utstring.h:174-188 | what is stored for position i is its strong failure value |
| Kmp.FailureSkipsNothing | src/common/ut/utstring.h:250-253 | following a strong failure value skips no match that the next character could extend |
| Kmp.StrongFailStep | src/common/ut/utstring.h:174-183 | the entry for a border is the border's own entry if the characters agree, else the border |
| Kmp.NoneIsLeft | src/common/ut/utstring.h:248 | when the rest of the haystack is too short for the rest of the needle no occurrence is left |
| Kmp.MirroredOccurrence | src/common/ut/utstring.h:269-299 | occurrences in the mirror are the mirrored occurrences |
| MergeSort.SortIsStable | src/common/ut/utlist.h:171-228 | the bottom-up passes yield a sorted permutation that keeps ties in order, for any total preorder |
| MergeSort.StableOrderIsUnique | src/common/ut/utlist.h:171-228 | there is only one stable sorting, so sorted, permutation and stable determine the result |
| MergeSort.PassGoesUp | src/common/ut/utlist.h:184-220 | a pass over sorted runs of k leaves sorted runs of 2k |
| MergeSort.PassIsStable | src/common/ut/utlist.h:184-220 | a pass keeps tied elements in order |
| MergeSort.PassesPermute | src/common/ut/utlist.h:171-228 | the passes permute the list |
| UtList.LLSort | src/common/ut/utlist.h:108-165 | LL_SORT in place: the result is the stable sorting and ends with NULL; prev is never written; at most ceil(log2 n) + 1 passes |
| UtList.DLSort | src/common/ut/utlist.h:171-228 | DL_SORT in place: the result is the stable sorting, head's prev is the tail and the tail's next NULL; at most ceil(log2 n) + 1 passes |
| UtList.CDLSort | src/common/ut/utlist.h:233-304 | CDL_SORT in place: the same, with a closed ring |
| UtList.SortPass | src/common/ut/utlist.h:184-227 | each pass restores the whole shape of the list, for the singly linked, doubly linked and circular list and the hash's application order, and is the last exactly if it made at most one merge |
| UtList.SortPasses | src/common/ut/utlist.h:180-227 | the loop ends with what the passes on sequences yield, after at most ceil(log2 n) + 1 passes |
| UtList.CloseUp | src/common/ut/utlist.h:295-297 | the ends of the list after a pass: NULL, or the ring closed again |
| UtList.MergePass | src/common/ut/utlist.h:184-218 | one pass of pointer merging builds exactly the merged sequence, linked by next and, if the list is doubly linked, by prev |
| UtList.MergeRuns | src/common/ut/utlist.h:196-216 | the merge loop takes from the right run exactly as the merge of sequences does |
| UtListOps.DList.Prepend | src/common/ut/utlist.h:507-516 | the element is in front, and the whole DL shape is kept, also in the empty, one-element, head and tail cases |
| UtListOps.DList.Append | src/common/ut/utlist.h:522-533 | the element is last, and the whole DL shape is kept, also in the empty, one-element, head and tail cases |
| UtListOps.DList.Concat | src/common/ut/utlist.h:539-551 | the second list follows the first, and the whole DL shape is kept, also in the empty, one-element, head and tail cases |
| UtListOps.DList.Delete | src/common/ut/utlist.h:557-572 | exactly that element is gone, and the whole DL shape is kept, also in the empty, one-element, head and tail cases |
| UtListOps.DList.ReplaceElem | src/common/ut/utlist.h:603-627 | the new element takes the old one's place, and the whole DL shape is kept, also in the empty, one-element, head and tail cases |
| UtListOps.DList.PrependElem | src/common/ut/utlist.h:629-642 | the new element is right before the given one, and the whole DL shape is kept, also in the empty, one-element, head and tail cases |
| UtListOps.CList.Prepend | src/common/ut/utlist.h:651-663 | the element is in front, and the ring stays closed |
| UtListOps.CList.Delete | src/common/ut/utlist.h:668-677 | exactly that element is gone, and the ring stays closed |
| UtListOps.CList.ReplaceElem | src/common/ut/utlist.h:722-740 | the new element takes the old one's place, and the ring stays closed |
| UtListOps.CList.PrependElem | src/common/ut/utlist.h:742-753 | the new element is right before the given one, and the ring stays closed |
| UtHashRuns.HashIsList | src/common/ut/uthash.h:94-248 | after any run of add, delete, replace and sort, with any number of expansions: the application order is that of a plain list, find returns the one element with the key or NULL exactly if there is none, and the integrity holds |
| UtHashRuns.FindMeans | src/common/ut/uthash.h:94-105 | HASH_FIND finds an element with the key exactly if there is one |
| UtHashRuns.AddKeeps | src/common/ut/uthash.h:173-196 | HASH_ADD_KEYPTR keeps what HASH_FSCK checks, through an expansion too |
| UtHashRuns.DeleteKeeps | src/common/ut/uthash.h:215-248 | HASH_DELETE keeps it, and the last element takes the table with it |
| UtHashRuns.SortKeeps | src/common/ut/uthash.h:719-804 | HASH_SRT keeps it, with the same elements |
| UtHashRuns.AddToBktKeeps | src/common/ut/uthash.h:611-622 | HASH_ADD_TO_BKT keeps the buckets in order |
| UtHashRuns.DelInBktKeeps | src/common/ut/uthash.h:625-635 | HASH_DEL_IN_BKT keeps the buckets in order |
| UtHashTable.ExpandKeeps | src/common/ut/uthash.h:666-712 | expansion keeps all elements, doubles the buckets, sets ideal_chain_maxlen to the ceiling of items over new buckets, nonideal_items to the sum over buckets of max(0, count - ideal), and expand_mult to count / ideal for a chain longer than ideal and 0 for any other |
| UtHashTable.ExpandSplits | src/common/ut/uthash.h:681-700 | new bucket j is filled from old bucket j mod n only, with its elements for j in reverse order |
| UtHashTable.BucketHalves | src/common/ut/uthash.h:198-201 | with twice the buckets a hash value of bucket i goes to i or i + n |
| UtHashTable.OverfullIsExcess | src/common/ut/uthash.h:688-692 | counting during the walk gives the excess over the ideal |
| UtHashTable.Placed | src/common/ut/uthash.h:681-700 | the walk puts into each new chain exactly the elements that belong there, newest first, with count and expand_mult |
| UtHashGrowth.AddDoublesWhen | src/common/ut/uthash.h:618-622 | an add doubles the buckets exactly if expansion is allowed and the chain has ten times one more than its multiplier |
| UtHashGrowth.NextDoubling | src/common/ut/uthash.h:618-622 | after an expansion, when the next one comes, in terms of the chain lengths it left |
| UtHashGrowth.TwoInVain | src/common/ut/uthash.h:705-710 | an expansion that leaves more than half of the elements too deep counts as in vain, any other resets the count, and after two in a row expansion ends |
| UtHashGrowth.StopsForGood | src/common/ut/uthash.h:618-622 | once expansion has ended, no sequence of adds changes the number of buckets |
| UtHashGrowth.FirstDoubling | src/common/ut/uthash.h:611-622 | a new hash keeps its 32 buckets until some bucket gets its tenth element, whatever elements come in what order, and doubles them then |
| UtHashGrowth.ElevenAlike | src/common/ut/uthash.h:618-692 | eleven elements with one hash value: the tenth doubles the buckets and leaves the multiplier 10, the eleventh does not |
| UtHash.AndMask | src/common/ut/uthash.h:198-201 | masking with a power of two less one is the remainder, and so is the bucket of a hash value |
| UtHash.IdealIsCeiling | src/common/ut/uthash.h:677-679 | shift and mask compute the ceiling of the division |
| UtHashHeap.Buckets.Link | src/common/ut/uthash.h:614-617 | the handle becomes the head of its chain; chains stay linked both ways |
| UtHashHeap.Buckets.Unlink | src/common/ut/uthash.h:625-635 | the handle leaves its chain; no other chain changes |
| UtHashHeap.Buckets.FindInBkt | src/common/ut/uthash.h:597-608 | the first element of the chain with the key |
| UtHashExpand.MoveAll | src/common/ut/uthash.h:680-700 | the loops move every handle to its new chain and count the nonideal ones as the value model does |
| UtHashMacros.HashTable.Expand | src/common/ut/uthash.h:666-712 | expansion in place, with all counters |
| UtHashMacros.HashTable.AddToBkt | src/common/ut/uthash.h:611-622 | in place, with the expansion it may trigger |
| UtHashMacros.HashTable.DelInBkt | src/common/ut/uthash.h:625-635 | in place |
| UtHashMacros.Uthash.Add | src/common/ut/uthash.h:173-196 | HASH_ADD_KEYPTR in place refines the value model: table and application order |
| UtHashMacros.Uthash.Find | src/common/ut/uthash.h:94-105 | HASH_FIND in place |
| UtHashMacros.Uthash.Delete | src/common/ut/uthash.h:215-248 | HASH_DELETE in place |
| UtHashMacros.Uthash.Replace | src/common/ut/uthash.h:163-171 | HASH_REPLACE in place, with the element replaced, which may be the given element itself |
| UtHashMacros.Uthash.Sort | src/common/ut/uthash.h:719-804 | HASH_SRT in place sorts the application order stably and leaves every bucket chain alone |
| UtHashApp.AppList.Append | src/common/ut/uthash.h:183-187 | the list part of adding: next, prev, head and tail |
| UtHashApp.AppList.Remove | src/common/ut/uthash.h:227-242 | the list part of deleting: next, prev, head and tail |
| UtHashApp.AppList.Sort | src/common/ut/uthash.h:719-804 | the stable sorted permutation with next, prev, head and tail rebuilt, in at most ceil(log2 n) + 1 passes |
| HallocHeap.Hierarchy.Free | src/common/halloc/src/halloc.c:103-109 | releases exactly the block and all its descendants, each once, children before parents; the list words of a released block are gone, and reading one needs proof that it is not, so that no word of a released block is read; the rest stays well formed |
| HallocHeap.Hierarchy.FreeChildren | src/common/halloc/src/halloc.c:235-253 | releases exactly the descendants, in that order, reading no word of a released block |
| HallocHeap.Hierarchy.Hattach | src/common/halloc/src/halloc.c:111-139 | detaches, and attaches exactly if the parent is neither the block nor below it; the hierarchy stays acyclic; a refused attach changes nothing if and only if the block had no parent |
| HallocModel.DetachChangesNothing | src/common/halloc/src/halloc.c:125 | detaching changes nothing exactly if the block is no child |
| HallocModel.RefusedAttachLoses | src/common/halloc/src/halloc.c:125-136 | three blocks in a row: attaching the second below the third is refused, and the second is no child of the first any more |
| HallocHeap.Hierarchy.Relate | src/common/halloc/src/halloc.c:214-233 | 1 exactly for proper descendants |
| HallocHeap.Hierarchy.New | src/common/halloc/src/halloc.c:69-85 | a new block without parent and children |
| HallocHeap.Hierarchy.Detach | src/common/halloc/src/hlist.h:110-120 | the block leaves its parent's list; for a root, which refers to itself, the same writes change nothing |
| HallocHeap.HlistAdd | src/common/halloc/src/hlist.h:99-108 | the item is first in the list; every prev points at the cell that points at the item |
| HallocHeap.HlistDel | src/common/halloc/src/hlist.h:110-120 | the item, in a list or referring to itself, is out; the list is linked, and the item refers to itself |
| HallocModel.BelowLeast | src/common/halloc/src/halloc.c:214-233 | what the search visits is the least set that holds the children and is closed under children |
| HallocModel.BelowOnce | src/common/halloc/src/halloc.c:247-252 | no block is released twice |
| HallocModel.ChildrenFirst | src/common/halloc/src/halloc.c:247-252 | children are released before their parents |
| HallocModel.Nested | src/common/halloc/src/halloc.c:214-253 | two trees with a common block: one is part of the other |
| HallocModel.AttachOk | src/common/halloc/src/halloc.c:134-138 | attaching outside the block's own tree keeps a forest |
| HallocModel.AttachBreaks | src/common/halloc/src/halloc.c:134-136 | attaching inside it makes a cycle: the two assertions are exactly what is needed |
| HallocModel.AttachesFirst | src/common/halloc/src/hlist.h:99-108 | an attached block is its parent's first child, the other children keep their order, and no other list changes but the one it was in |
| HallocModel.RemainingHas | src/common/halloc/src/halloc.c:103-109 | no remaining block has a released child |
| XdrModel.MessageRoundTrip | src/common/proto/proto_xdr.c:112-188 | for every message format: decoding what encoding wrote, followed by any bytes, gives back the message and leaves those bytes (RFC 4506, sections 4.1 to 4.4, 4.9 to 4.11, 4.13 and 4.14) |
| XdrModel.MessageEncodes | src/common/proto/proto_xdr.c:112-188 | a message is encoded if and only if its unsigned longs have 32 bits and its strings and arrays are not too long |
| XdrModel.MessageDecoded | src/common/proto/proto_xdr.c:112-188 | from any bytes, decoding fails or yields a message that can be encoded again |
| XdrModel.TypeComesFirst | src/common/proto/proto.h:17-28 | each of the ten messages starts with its type, by which the receiver finds the filter that gives the message back |
| XdrModel.FixedMessages | src/common/proto/proto_xdr.c:65-93 | the messages of fixed size are never refused, and their sizes |
| XdrModel.BootstrapEncodes | src/common/proto/proto_xdr.c:33-48 | a bootstrap message is refused exactly if its address is too long |
| XdrModel.RespBootstrapEncodes | src/common/proto/proto_xdr.c:50-63 | its answer is refused exactly if the replicas do not fit in 32 bits of memory or an address is too long |
| XdrModel.RespConsensusEncodes | src/common/proto/proto_xdr.c:190-202 | the answer to a consensus message is refused exactly if its term has more than 32 bits |
| XdrModel.DataEncodes | src/common/proto/proto_xdr.c:283-298 | a data message is refused exactly if its operations cannot be counted |
| XdrModel.WordRoundTrip | src/common/proto/proto_xdr.c:13 | four bytes, most significant first, read back as the same number (RFC 4506, section 4.1) |
| XdrModel.FieldRoundTrip | src/common/proto/proto_xdr.c:51-62 | the round trip of one field, arrays of structures included |
| XdrModel.PrimRoundTrip | src/common/proto/proto_xdr.c:18-30 | the round trip of each primitive with padding and counts |
| XdrWire.PrimBytes | src/common/proto/proto_xdr.c:18-30 | the bytes of each primitive: numbers most significant byte first, true and false as 1 and 0, opaque data with zero padding to a multiple of four, strings and bytes with their length before them (RFC 4506, sections 4.1 to 4.4 and 4.9 to 4.11) |
| XdrWire.NumbersRead | src/common/proto/proto_xdr.c:9-16 | what is read from any bytes: the number they stand for; any word but zero is true; too few bytes fail |
| XdrWire.OpaqueReads | src/common/proto/proto_xdr.c:24 | opaque data is read with its padding, from any bytes that are long enough |
| XdrWire.BytesRead | src/common/proto/proto_xdr.c:100 | counted bytes are read exactly if there are as many as the count says, padded |
| XdrWire.StringReads | src/common/proto/proto_xdr.c:28 | a string is counted bytes up to the first NUL, and the largest count is refused |
| XdrWire.BootstrapBytes | src/common/proto/proto_xdr.c:33-48 | the bytes of a bootstrap message: type, uuid, port, address |
| XdrWire.ConnectBytes | src/common/proto/proto_xdr.c:65-78 | the bytes of a connect message: type, magic, version |
| XdrWire.ConsensusBytes | src/common/proto/proto_xdr.c:105-188 | the bytes of a consensus message with one entry: type, vote, uuid, term, log index, log term, commit index, entry |
| XdrWire.ControlBytes | src/common/proto/proto_xdr.c:214-227 | the bytes of a control message: type, action, uuid |
| XdrWire.DataBytes | src/common/proto/proto_xdr.c:283-298 | the bytes of a data message with one operation: type, mode, transaction, verb and data |
| XdrWire.RespBootstrapBytes | src/common/proto/proto_xdr.c:50-63 | the bytes of the answer to a bootstrap message with one replica: type, flag, and its uuid, port and address |
| XdrWire.RespConnectBytes | src/common/proto/proto_xdr.c:80-93 | the bytes of the answer to a connect message: type, version, flag |
| XdrWire.RespConsensusBytes | src/common/proto/proto_xdr.c:190-202 | the bytes of the answer to a consensus message: type, term, flag |
| XdrWire.FlagBytes | src/common/proto/proto_xdr.c:229-239 | the bytes of the answers to control and data messages: type, flag |
| XdrWire.ArrayBytes | src/common/proto/proto_xdr.c:59-61 | an array starts with its count, and nothing follows if the count is too large |
| XdrWire.RefusedAt | src/common/proto/proto_xdr.c:33-48 | a refused message leaves the fields before the refused one and what that one wrote |
| XdrStream.InlineAgrees | src/common/proto/proto_xdr.c:118-142 | the inlined path does what the slow path does, byte for byte and also where it refuses, if and only if the four counters have 32 bits; when each of them refuses |
| XdrStream.InlineCutsTerm | src/common/proto/proto_xdr.c:131 | a message with term 2^32: the slow path refuses it, the inlined path sends it and the receiver gets term 0 |
| XdrStream.InlineReceived | src/common/proto/proto_xdr.c:118-172 | what the receiver gets from an inlined sender is the message with its counters cut to 32 bits; it is the message sent if and only if they fit |
| XdrStream.Exchange | src/common/proto/proto_xdr.c:112-188 | sender and receiver together, whichever paths they take |
| XdrStream.Stream.PutConsensus | src/common/proto/proto_xdr.c:118-146 | the filter, encoding, writes exactly the encoding of the (possibly cut) message, or exactly the bytes before the refusal |
| XdrStream.Stream.GetConsensus | src/common/proto/proto_xdr.c:147-172 | the filter, decoding, reads the same through the inlined and the slow path |
| XdrStream.Stream.PutMsg | src/common/proto/proto_xdr.c:33-48 | a filter, encoding, writes exactly the encoding of the message, or exactly the bytes up to the refused field, the count or length word of an array or string included |
| XdrStream.Stream.GetMsg | src/common/proto/proto_xdr.c:33-48 | a filter, decoding, advances the stream past exactly one message, or fails exactly if none is there |
| XdrStream.EncSplits | src/common/proto/proto_xdr.c:118-146 | encoding a message in parts is encoding it whole |
| XdrStream.DecSplits | src/common/proto/proto_xdr.c:147-172 | decoding a message in parts is decoding it whole |

## Left out

- Memory exhaustion: every allocation succeeds; the exits and NULL returns for a failed malloc are not modelled.
- Context switching, stacks, signals, epoll and file descriptors: fdwait is a task that parks, and fdtask's readying of it is a step.
- chansend, chanrecv and their variants: a call of chanalt with one alt. chanfree is not modelled: its own comment calls it racy.
- CHANNOP alts inside channels are modelled; op codes other than the five of the interface are not.
- Alt arrays are per call, as on the caller's stack; arrays shared between tasks are outside the model.
- Task numbers are never reused, so the reuse of a freed task's address is not captured; the alltask array, task names and states are left out.
- tasknswitch, taskcount and lock counters are unbounded: their overflow is not modelled. The clock has 64 bits with wrap-around.
- TaskDriver.Simulate: the lists, the table of tasks and the alarm times are on the heap; owners, counters and continuations are those of the state machine. `TaskLists` has the locks in place, one at a time.
- TaskLists.QLock.Lock: up to the task switch; the owner test and abort after it are in `TaskResume.DispatchSound`.
- ChanModel.Pick: rand() is an arbitrary number, so nothing is said about fairness among executable alts.
- UtString.UTString.Find: lengths up to INT_MAX, as the code casts them to int; the start may not lie before the buffer, which the code would read.
- UtString.UTString.FindR: the same, and the start is at most the length, where the NUL is, since the code does not check it; start + 1 must be an int. The NUL counts as a character of the string, as in the code.
- UtString.FindWith: for lengths up to INT_MAX and a needle that is not empty, as the callers ensure.
- The LL_ macros but the sort: simple loops. The counting and search macros are left out as easy.
- UtHashMacros.Uthash.Replace: the element is not in the hash already, unless it is the one found under its key; one whose key was changed in place would be linked twice.
- HASH_SELECT: it does not update the tail of its source, so it does not keep the integrity; HASH_CLEAR is easy.
- Hash functions, Bloom filter and HASH_EMIT_KEY; the wrap-around of unsigned counts and of the number of buckets.
- The realloc branch of halloc: a block without a parent refers to its own next cell, which relinking does not move, so its result depends on freed memory.
- HallocHeap.Hierarchy.Hattach: where an assertion fails the model returns false instead of ending the program; what the call changed until then is in its contract.
- The XDR primitives of the C library are modelled after RFC 4506 and the common implementation (an unsigned long of more than 32 bits is refused); XDR_FREE and the pointers that decoding allocates are left out.
- XdrStream.Stream.PutMsg: the stream takes every byte; I/O errors of the record stream are not modelled.
- XdrStream.Stream.GetConsensus: decoded fields are returned instead of written through the object pointer.
- Consensus, leader election, routing, key-value store and the terminal client: outside this model.
