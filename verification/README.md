# Verified models of the lab programs

A Dafny model of the parts of the repository that are hard to get right, with machine-checked proofs:
the hand-written locks, the linked-list queues under threads, the list with one lock per node, the
reversing copier and the proxy cache. `dafny verify dfyconfig.toml` checks everything.

**Locks (`FutexMutex`, `SpinLock`, `FutexProgram`).** N threads run "lock; ++counter; unlock" with the
CAS/futex mutex of `mutex.c`. One action is one atomic step: a CAS, the compare-and-sleep of
FUTEX_WAIT, a load, a store, a wake of at most one sleeper, or a wakeup nobody caused. Proved for every
interleaving: mutual exclusion, an unlock CAS that never fails, no lost wakeup, an exact counter. A
potential function, in which every unlock pays for the retries it causes, shows that *every* schedule
is finite: (2N+12)C + 8N + 3k actions for C iterations and k spurious wakeups, with no fairness
assumption. A run that cannot go on has therefore finished every thread. Erasing sleeping and waking
turns each run into a run of the spin lock with the same critical sections and counter values. The spin
lock itself has a bound on its runs if and only if at most one thread has iterations to make.

**Queues.** `PointerQueue` is the sequential queue on the heap; its invariant `mallocs == frees + nodes`
says that nothing leaks and nothing is freed twice, while `last` may dangle. `MutexQueue` runs
`queue-mutex.c` statement by statement in any number of threads, over a memory in which following NULL
or a freed node is a fault: no run faults, every node is in exactly one place, the queue is linearizable
although a reader looks at its node after unlocking, and every pending call can complete (at most 12
actions per return). `AtomicFifo` is the specification for that, and the driver's claim (one writer, one
reader, values 0, 1, 2, ...) is proved there and carried over. `CondvarQueue` covers the
condition-variable queue, `CondvarNodes` its nodes. For the driver's pair values arrive in order and no
schedule runs for long without delivering. `CondvarDeadlock` settles deadlock for every capacity and
every set of threads: the queue is free of it if and only if there is exactly one writer and one reader
and the capacity is not 0. With a third thread the signal meant for the other side can wake a thread of
the same side, and everybody waits although somebody need not.

**List with a lock per node (`LockedList`, `LockedListSwap`, `ListStorage`).** Any mix of finders and
swappers over a list of any length, with read-write locks (`rwlock.c`) or mutexes (`main.c`). Both loops
walk a window of consecutive nodes. From every reachable state the threads can all finish their pass and
give back every lock, even if waiting writers shut out readers; complete passes count adjacent pairs
exactly; with the indices that `number_random_node` can return, every iteration of `random_swap` locks
and unlocks exactly its three nodes.

**Transformations.** `ReverseFile` and `ReverseFolder`: chunk-wise reversal of a file, and of a directory
tree on a disk that is read and written, in any readdir order; copying the copy restores the original.

**Proxy.** `CacheSpec` and `ProxyCache`: the cache list on the heap is a first-push-wins map, and a replay
is exact if and only if nothing but NULs follows the first NUL. `ProxyThreads` runs one thread per client,
with lookups and pushes as single actions and the relay between them unprotected, short and failing
writes included. `ProxyAnswers` says what every client gets in every interleaving, which requests make a run
undefined, and when a client can be given the response to another request. `ProxyDescriptors` says when a
response can reach the wrong client because descriptors are closed twice. `ProxyProgram` runs the threads
over the list on the heap.

State machines are given twice: as functions on values, so that lemmas can speak of whole runs, and as
classes whose methods update fields in place and are proved to perform those functions.

Where the code differs from what one would expect, the model follows the code:

- A negative capacity of the condition-variable queue works like an unlimited one, because the code
  compares with `==` (`DeadlockIff`).
- The spin lock has a bound on its runs only if at most one thread has anything to do (`BoundedIffAlone`);
  the mutex always has one.
- `create_reverse_folder` ignores the result of `fill_folder`, which stops at the first entry that is
  neither a directory nor a regular file; it still reports success. The copy is complete if and only if
  there is no such entry; a regular file that cannot be opened counts as one (`CreateReverseFolder`).
- `create_reverse_file` compares the result of fwrite with -1 only. What a buffered stream cannot write shows
  at the next fseek, which is checked, except for the last chunk, which goes out at an unchecked fclose. A
  file that may not grow to the size of the output is therefore reported, unless the output is a single
  chunk; then it is cut off and success is reported (`CreateReverseFile`).
- Run on its own copy from the command line the copier fails, because the original is in the way
  (`ReverseArgumentAgain`).
- Two clients with one key that overlap both miss; both get their own server's response and the second
  push is dropped (`EveryAnswer`). After a failed write of a cached copy the thread goes on to the server,
  although the client's socket is closed; after a failed connection or write its record is never freed
  (`RecordOwnership`).
- On a hit, and after a failed connection, the client's descriptor is closed twice. If its number was given
  to a second client in between, and then to a third, the second client's response goes to the third
  (`HitMisdelivers`); `MisdeliveryIff` says exactly when this can happen.
- `queue_destroy` leaves the queue's fields alone, so the driver's error path, which destroys the queue under
  a running writer, is harmless only for an empty or a full queue (`WriterSurvivesIff`).
- The cache key does not identify a request: exchanging "ab" for "bA" anywhere keeps it
  (`CollidingRequests`), and such a client gets the other request's response (`CollisionIsServed`,
  `AnothersResponseIff`).
- A relayed response longer than the buffer is written past its end, a request with the key of the list's
  dummy head copies from an uninitialised pointer, a request without a usable "Host:" line is cut at a wild
  place, and a host that does not resolve makes the program free an unset pointer; a run can reach such a
  point exactly when there is such a request (`FaultIff`).

## Model

| member | source | states |
|---|---|---|
| FutexMutex.InitEstablishesInv | semestr2/Task2/Task2_4/mutex.c:48-50 | the unlocked initial state meets the invariant for any number of threads and iteration counts |
| FutexMutex.CpuStepKeepsMutualExclusion | semestr2/Task2/Task2_4/mutex.c:58-77 | after any CPU step the lock word is 0 exactly when one thread, and only one, is between lock and unlock; an unlock CAS finds the lock taken |
| FutexMutex.CpuStepKeepsWakeups | semestr2/Task2/Task2_4/mutex.c:58-77 | whenever a thread sleeps and the lock is free, an awake thread is about to wake one or is still in the lock loop |
| FutexMutex.CpuStepKeepsCounter | semestr2/Task2/Task2_4/mutex.c:91-96 | with load and store as separate steps the counter always equals the sum of completed increments |
| FutexMutex.WakingKeepsInv | semestr2/Task2/Task2_4/mutex.c:64-67 | a return from FUTEX_WAIT, caused or spurious, keeps the whole invariant |
| FutexMutex.StepKeepsInv | semestr2/Task2/Task2_4/mutex.c:58-77 | every atomic action keeps the whole invariant |
| FutexMutex.RunKeepsInv | semestr2/Task2/Task2_4/mutex.c:86-113 | every finite interleaving keeps the whole invariant |
| FutexMutex.EveryInterleavingIsSafe | semestr2/Task2/Task2_4/mutex.c:58-113 | from the initial state, every run has exclusion with lock word 0 exactly inside a section, no lost wakeup, an exact counter and no failing unlock |
| FutexMutex.EveryThreadMayBeNext | semestr2/Task2/Task2_4/mutex.c:58-113 | nothing but sleep holds a thread up, and a sleeper may wake without being woken |
| FutexMutex.NeverStuck | semestr2/Task2/Task2_4/mutex.c:58-77 | in every state short of the end some action other than a spurious wakeup is possible |
| FutexMutex.StepReducesWork | semestr2/Task2/Task2_4/mutex.c:58-77 | every action but a spurious wakeup strictly reduces the work left, whoever is scheduled |
| FutexMutex.RunLengthBound | semestr2/Task2/Task2_4/mutex.c:58-113 | a run is no longer than the work at its start plus three per spurious wakeup |
| FutexMutex.EveryScheduleTerminates | semestr2/Task2/Task2_4/mutex.c:86-113 | every run from the start has at most (2N+12)C + 8N + 3k actions, without any fairness assumption |
| FutexMutex.FinishedCounterIsTotal | semestr2/Task2/Task2_4/mutex.c:134-137 | when all threads have finished the counter is the exact total of their iterations |
| FutexMutex.MaximalRunIsComplete | semestr2/Task2/Task2_4/mutex.c:86-137 | a run that cannot be continued has finished every thread, lost no increment and left the lock free |
| FutexMutex.CanAlwaysFinish | semestr2/Task2/Task2_4/mutex.c:58-113 | from every reachable state a finite continuation without spurious wakeups finishes every thread |
| FutexMutex.Choose | semestr2/Task2/Task2_4/mutex.c:58-77 | a scheduler: returns a possible action, and none exactly when every thread has finished |
| FutexProgram.Program.constructor | semestr2/Task2/Task2_4/mutex.c:48-50 | the fields start in the initial state of the model |
| FutexProgram.Program.LockCas | semestr2/Task2/Task2_4/mutex.c:60-62 | performs the lock action of the model on the fields |
| FutexProgram.Program.Wait | semestr2/Task2/Task2_4/mutex.c:64-67 | sleeps exactly when the lock word is still taken, otherwise retries, as the model does |
| FutexProgram.Program.Increment | semestr2/Task2/Task2_4/mutex.c:93-93 | performs the load or the store of the increment as the model does |
| FutexProgram.Program.UnlockCas | semestr2/Task2/Task2_4/mutex.c:71-73 | performs the unlock action of the model on the fields |
| FutexProgram.Program.WakeOne | semestr2/Task2/Task2_4/mutex.c:74-76 | makes at most one sleeper runnable and ends the iteration, as the model does |
| FutexProgram.Program.Finish | semestr2/Task2/Task2_4/mutex.c:86-113 | from any reachable state runs the program to the end: all threads finished, counter the exact total, lock free, within the work bound |
| SpinLock.ContentionIsUnbounded | semestr2/Task2/Task2_4/spinlock.c:49-55 | with two threads that have work there are runs from the start longer than any n |
| SpinLock.BoundedIffAlone | semestr2/Task2/Task2_4/spinlock.c:49-99 | for every program the runs from the start have a common bound if and only if at most one thread has iterations to make |
| FutexRefinesSpin.StepRefines | semestr2/Task2/Task2_4/spinlock.c:49-60 | each mutex action is one spin-lock step with the same events, or invisible |
| FutexRefinesSpin.RunRefines | semestr2/Task2/Task2_4/spinlock.c:49-60 | every mutex run maps to a spin-lock run with the same sequence of critical sections and stored values |
| FutexRefinesSpin.ProgramRefines | semestr2/Task2/Task2_4/spinlock.c:70-99 | the same from the initial states, ending with the same counter |
| FutexRefinesSpin.RunIsSections | semestr2/Task2/Task2_4/mutex.c:91-96 | the events of every run are critical sections one after the other, and the k-th stores k |
| BoundedFifo.FifoConservation | semestr2/Task2/Task2_1/queue.c:68-125 | over any operations, what was in plus what was accepted equals what was delivered plus what is left, in order, never above the capacity |
| PointerQueue.Queue.ListNodesAreLive | semestr2/Task2/Task2_1/queue.c:85-90 | a node reachable through the list was never freed |
| PointerQueue.Queue.constructor | semestr2/Task2/Task2_1/queue.c:25-50 | an empty valid queue |
| PointerQueue.Queue.Link | semestr2/Task2/Task2_1/queue.c:85-90 | the list gains exactly the new node at its end, whether or not `last` dangles |
| PointerQueue.Queue.Add | semestr2/Task2/Task2_1/queue.c:68-99 | adds or refuses as the bounded FIFO does; frees nothing; the counters, the links and the no-leak invariant are kept |
| PointerQueue.Queue.Get | semestr2/Task2/Task2_1/queue.c:101-125 | delivers or reports empty as the bounded FIFO does; frees exactly the first node, once; leaves `last` dangling when it empties the queue |
| PointerQueue.Queue.Run | semestr2/Task2/Task2_1/queue-example.c:18-31 | any sequence of calls gives the outputs and contents of the bounded FIFO |
| PointerQueue.Queue.Destroy | semestr2/Task2/Task2_1/queue.c:52-66 | afterwards every node ever allocated was freed exactly once |
| AtomicFifo.RunConserves | semestr2/Task2/Task2_2/mutex/queue-mutex.c:77-129 | accepted values are the delivered ones followed by the contents, within the capacity, in every run of the specification |
| AtomicFifo.DriverRun | semestr2/Task2/Task2_2/mutex/queue-threads-mutex.c:35-69 | one writer and one reader: the reader has seen 0, 1, 2, ... without error in every run of the specification |
| AtomicFifo.ErrorsAreSurprises | semestr2/Task2/Task2_2/mutex/queue-threads-mutex.c:35-50 | in every run a reader counts exactly the values that are not the successor of the one before |
| MutexQueueProofs.AfterMalloc | semestr2/Task2/Task2_2/mutex/queue-mutex.c:78-84 | the new node belongs to the adder alone and everything else stays where it was |
| MutexQueueProofs.AfterAppend | semestr2/Task2/Task2_2/mutex/queue-mutex.c:97-102 | linking moves the node from the adder's hands to the end of the list and adds its value to the contents |
| MutexQueueProofs.AfterDetach | semestr2/Task2/Task2_2/mutex/queue-mutex.c:120-121 | moving `first` hands the first node to the getter and removes its value from the contents |
| MutexQueueProofs.AfterFree | semestr2/Task2/Task2_2/mutex/queue-mutex.c:93-127 | only a live node that the thread holds is freed, and nobody else's node changes |
| MutexQueueProofs.StepKeepsInv | semestr2/Task2/Task2_2/mutex/queue-mutex.c:77-129 | every statement of every thread keeps the invariant of memory, list, fields and lock |
| MutexQueueProofs.RunKeepsInv | semestr2/Task2/Task2_2/mutex/queue-mutex.c:77-129 | every interleaving of any number of readers and writers keeps it |
| MutexQueueProofs.AssertsHold | semestr2/Task2/Task2_2/mutex/queue-mutex.c:89-113 | the program's asserts on `count` hold, `count` is add_count minus get_count there, and attempts are never fewer than successes |
| MutexQueueProofs.NodeOwnership | semestr2/Task2/Task2_2/mutex/queue-mutex.c:77-129 | a node is in the list, or freed, or in the hands of exactly one thread, never two of these |
| MutexQueueProofs.EveryRunIsMemorySafe | semestr2/Task2/Task2_2/mutex/queue-mutex.c:77-129 | no run faults; the node a statement is about to read, write or free was never freed; the asserts on `count` hold where they are reached; each node is always in exactly one place |
| MutexQueueProofs.TouchesOnlyItsOwn | semestr2/Task2/Task2_2/mutex/queue-mutex.c:97-127 | a statement touches a live node that is its own, or one in the list while it holds the lock |
| MutexQueueRefinesFifo.StepRefines | semestr2/Task2/Task2_2/mutex/queue-mutex.c:77-129 | each statement is one step of the atomic queue, with the same calls and returns, or invisible |
| MutexQueueRefinesFifo.RunRefines | semestr2/Task2/Task2_2/mutex/queue-mutex.c:77-129 | every run maps to a run of the atomic queue with the same calls and returns in the same order |
| MutexQueueRefinesFifo.Linearizable | semestr2/Task2/Task2_2/mutex/queue-mutex.c:77-129 | from queue_init, every run of any readers and writers has the calls and returns of an atomic bounded FIFO that loses nothing |
| MutexQueueRefinesFifo.ReaderSeesEveryValueInOrder | semestr2/Task2/Task2_2/mutex/queue-threads-mutex.c:35-69 | with the driver's writer and reader the `expected` check never fires |
| MutexQueueProgress.EveryScheduleReturns | semestr2/Task2/Task2_2/mutex/queue-mutex.c:77-129 | a run of N threads with c returns has at most 12c + 11N actions |
| MutexQueueProgress.SomebodyCanMove | semestr2/Task2/Task2_2/mutex/queue-mutex.c:77-129 | while a call is pending some action other than a new call is possible |
| MutexQueueProgress.CanAlwaysComplete | semestr2/Task2/Task2_2/mutex/queue-mutex.c:77-129 | from every reachable state all pending calls can complete without a new call being made |
| MutexQueueProgress.EveryCallMayBeNext | semestr2/Task2/Task2_2/mutex/queue-mutex.c:77-129 | only the mutex holds a call up |
| MutexQueueProgress.CallsMayBegin | semestr2/Task2/Task2_2/mutex/queue-threads-mutex.c:35-69 | between calls the writer may add its next value, the reader may get, and any other client may call what it likes |
| MutexQueueStatistics.EveryCallIsSeen | semestr2/Task2/Task2_2/mutex/queue-mutex.c:77-129 | the trace shows every call and return: what was called and has not returned is what is open |
| MutexQueueStatistics.StatisticsAreExact | semestr2/Task2/Task2_2/mutex/queue-mutex.c:131-137 | when no call is open the four statistics counters are the returns in the trace, by kind of call and success |
| MutexQueueDestroy.Destroy | semestr2/Task2/Task2_2/mutex/queue-mutex.c:55-69 | in every reachable state queue_destroy frees exactly the nodes of the list, each once, and follows neither NULL nor a freed node |
| MutexQueueDestroy.NothingLeaksIff | semestr2/Task2/Task2_2/mutex/queue-mutex.c:55-69 | afterwards every node is freed if and only if no thread holds one, as after joining the threads |
| MutexQueueDestroy.WriterSurvivesIff | semestr2/Task2/Task2_2/mutex/queue-threads-mutex.c:102-107 | destroying the queue between two calls of a writer that goes on leads to a use of a freed node in some run if and only if the queue was neither empty nor full |
| MutexQueueProgram.Program.constructor | semestr2/Task2/Task2_2/mutex/queue-mutex.c:29-53 | the fields start in the initial state and meet the invariant |
| MutexQueueProgram.Program.AddStatement | semestr2/Task2/Task2_2/mutex/queue-mutex.c:77-108 | performs the next statement of queue_add of the model on the fields |
| MutexQueueProgram.Program.GetStatement | semestr2/Task2/Task2_2/mutex/queue-mutex.c:110-129 | performs the next statement of queue_get of the model on the fields |
| MutexQueueProgram.Program.Perform | semestr2/Task2/Task2_2/mutex/queue-mutex.c:77-129 | any possible action performs the model's step, keeps the invariant and never faults |
| MutexQueueProgram.Program.Follow | semestr2/Task2/Task2_2/mutex/queue-mutex.c:77-129 | any schedule performs a run of the model, and the callers see the calls and returns of that run |
| MutexQueueProgram.Program.CompleteCalls | semestr2/Task2/Task2_2/mutex/queue-mutex.c:77-129 | runs the pending calls until every thread has returned |
| MutexQueueProgram.Drive | semestr2/Task2/Task2_2/mutex/queue-threads-mutex.c:35-69 | from queue_init, after any schedule of any threads: everybody returns, nothing faults, the calls and returns are those of an atomic bounded FIFO that loses nothing, and the driver's reader has seen no error |
| CondvarQueue.StepKeepsInv | semestr2/Task2/Task2_2/cond-var/queue-condvar.c:86-139 | every action keeps exclusion, the meaning of the flag and the order of values |
| CondvarQueue.RunKeepsInv | semestr2/Task2/Task2_2/cond-var/queue-condvar.c:86-139 | any number of readers and writers: with the mutex free the flag is NOK iff the queue holds one item and OK iff it is empty |
| CondvarQueue.EveryThreadMayBeNext | semestr2/Task2/Task2_2/cond-var/queue-condvar.c:86-139 | only the mutex and waiting hold a thread up, and a waiter may wake without a signal |
| CondvarNodes.HeapStepKeepsOk | semestr2/Task2/Task2_2/cond-var/queue-condvar.c:92-137 | every action keeps the list of nodes equal to the queue and each taken node in its reader's hands until it is freed after the unlock |
| CondvarNodes.AddKeepsHeap | semestr2/Task2/Task2_2/cond-var/queue-condvar.c:92-109 | a writer always finds `first` NULL, so a dangling `last` is never followed |
| CondvarNodes.EveryRunIsMemorySafe | semestr2/Task2/Task2_2/cond-var/queue-condvar.c:86-139 | any readers and writers: the node a reader is about to take or free was never freed, and each node is in exactly one place |
| CondvarDeadlock.NobodyForgottenRun | semestr2/Task2/Task2_2/cond-var/queue-condvar.c:86-139 | one writer, one reader, capacity not 0: over every run a waiter whose condition has come true is about to be signalled |
| CondvarPair.PairRun | semestr2/Task2/Task2_2/cond-var/queue-thread-condvar.c:35-69 | every run of the pair keeps the counters of both threads in step with what was sent and received |
| CondvarPair.ReaderSeesEveryValueInOrder | semestr2/Task2/Task2_2/cond-var/queue-thread-condvar.c:35-69 | values arrive as 0, 1, 2, ... whatever the schedule and the spurious wakeups |
| CondvarQueue.ErrorsAreSurprises | semestr2/Task2/Task2_2/cond-var/queue-thread-condvar.c:35-50 | in every run a reader counts exactly the values that are not the successor of the one before |
| CondvarDeadlock.PairKeepsMoving | semestr2/Task2/Task2_2/cond-var/queue-condvar.c:86-139 | one writer, one reader, capacity not 0: in every reachable state the two do not both wait and some action other than a spurious wakeup is possible |
| CondvarDeadlock.StolenSignal | semestr2/Task2/Task2_2/cond-var/queue-condvar.c:111-135 | if two threads of one side wait, the signal between them leaves everybody waiting although the other side need not |
| CondvarDeadlock.ThreeIsACrowd | semestr2/Task2/Task2_2/cond-var/queue-condvar.c:86-139 | with both sides present and two threads on one, a run without spurious wakeups ends with everybody waiting, one of them for nothing |
| CondvarDeadlock.CanDeadlock | semestr2/Task2/Task2_2/cond-var/queue-condvar.c:86-139 | a deadlocking run without spurious wakeups for capacity 0 and for every set of threads but one writer and one reader |
| CondvarDeadlock.DeadlockIff | semestr2/Task2/Task2_2/cond-var/queue-condvar.c:86-139 | for every capacity and every set of threads, a deadlock is reachable if and only if the capacity is 0 or it is not one writer and one reader |
| CondvarPair.EveryScheduleDelivers | semestr2/Task2/Task2_2/cond-var/queue-thread-condvar.c:35-69 | a run with k spurious wakeups in which the reader completed c calls has at most 26c + 50 + 3k actions |
| CondvarProgram.Program.TestAndWait | semestr2/Task2/Task2_2/cond-var/queue-condvar.c:88-90 | tests the condition and, if it must wait, releases the mutex and waits in one action |
| CondvarProgram.Program.MoveItem | semestr2/Task2/Task2_2/cond-var/queue-condvar.c:92-127 | moves one item as the model does |
| CondvarProgram.Program.SignalOne | semestr2/Task2/Task2_2/cond-var/queue-condvar.c:113-134 | wakes the chosen waiter, if any, as the model does |
| CondvarProgram.Program.Perform | semestr2/Task2/Task2_2/cond-var/queue-condvar.c:86-139 | any possible action performs the model's step, keeps the invariant and never reads a NULL `first` |
| CondvarProgram.Program.Follow | semestr2/Task2/Task2_2/cond-var/queue-condvar.c:86-139 | any schedule, spurious wakeups included, performs a run of the model |
| CondvarProgram.Program.DeliverUpTo | semestr2/Task2/Task2_2/cond-var/queue-thread-condvar.c:35-69 | the pair by itself gets the reader to any number of completed calls |
| CondvarProgram.Drive | semestr2/Task2/Task2_2/cond-var/queue-thread-condvar.c:35-69 | after any schedule, n values arrive: they are 0, 1, 2, ..., the `expected` check never fires, within 26 actions each plus 50 plus 3 per spurious wakeup |
| LockedList.PairsSum | semestr2/Task2/Task2_3/rwlock.c:121-196 | every adjacent pair is counted by exactly one of the three finders |
| LockedList.NextKeepsThread | semestr2/Task2/Task2_3/rwlock.c:106-276 | a step of a thread reads through no NULL, keeps its window inside the list and its counter exact |
| LockedList.NextHolds | semestr2/Task2/Task2_3/rwlock.c:107-275 | a step adds the node it locks and drops the node it unlocks, and nothing else |
| LockedList.LockMoves | semestr2/Task2/Task2_3/rwlock.c:107-275 | after a step each lock still records exactly its holders, and a write lock has one holder |
| LockedList.StepKeepsInv | semestr2/Task2/Task2_3/rwlock.c:96-280 | every action of every thread keeps the invariant of threads and locks |
| LockedList.RunKeepsInv | semestr2/Task2/Task2_3/rwlock.c:96-280 | every interleaving of any mix of threads over any list keeps it |
| LockedListProgress.LockingDiscipline | semestr2/Task2/Task2_3/rwlock.c:106-275 | at most three consecutive nodes are held, a thread waits only for the next one, and no node is write-locked while another thread holds it |
| LockedListProgress.EveryRunExcludes | semestr2/Task2/Task2_3/rwlock.c:107-265 | in every run a swapper on a node is alone there, in the mutex version everybody is, and a thread at a lock can take it exactly when nobody holds the node, or, with read-write locks, when it is a finder and only finders hold it |
| LockedListSwap.FinderPass | semestr2/Task2/Task2_3/rwlock.c:96-208 | in every run a finder has locked each pair of neighbours left before right and unlocked it in reverse, compares under both locks, and holds nothing at the end of its pass |
| LockedListProgress.EveryThreadMayBeNext | semestr2/Task2/Task2_3/rwlock.c:96-280 | only a lock holds a thread up, and a swapper may choose any index |
| LockedListProgress.CompletePassCounts | semestr2/Task2/Task2_3/rwlock.c:96-208 | the counter of a complete pass is the number of adjacent pairs whose second string is longer, shorter, or as long |
| LockedListProgress.ThreeFindersPartitionThePairs | semestr2/Task2/Task2_3/rwlock.c:96-208 | complete passes of the three finders sum to the number of adjacent pairs |
| LockedListSwap.SwapperCalls | semestr2/Task2/Task2_3/main.c:239-278 | each statement of random_swap extends the sequence of lock calls as one iteration prescribes |
| LockedListSwap.SwapperPass | semestr2/Task2/Task2_3/main.c:217-278 | in every run with indices from number_random_node: prev, current, future stay at i, i+1, i+2, no NULL branch is taken, each iteration locks and unlocks exactly these three nodes, nothing is held between iterations, a pass makes exactly `index` iterations |
| LockedListSwap.NullBranchIff | semestr2/Task2/Task2_3/rwlock.c:245-276 | for any index, a pass is cut short by a NULL if and only if the index exceeds n-2 |
| LockedListProgress.SomebodyRuns | semestr2/Task2/Task2_3/rwlock.c:106-275 | if a thread is inside a pass, some thread inside a pass can move, even when waiting writers shut out readers |
| LockedListProgress.CanAlwaysDrain | semestr2/Task2/Task2_3/rwlock.c:96-280 | from every reachable state all threads can finish their passes and every lock is given back |
| LockedListProgress.PassesAreBounded | semestr2/Task2/Task2_3/rwlock.c:96-280 | a run in which nobody begins a new pass is bounded by the work left in the passes |
| LockedListProgress.EverySchedulePasses | semestr2/Task2/Task2_3/rwlock.c:96-280 | over a list of n >= 2 nodes, T threads that have completed P passes have taken at most (12n + 11)(P + T) actions, whatever the schedule |
| LockedListProgress.PassesAreCounted | semestr2/Task2/Task2_3/rwlock.c:96-280 | the passes a thread records are the ends of passes in the run |
| LockedListProgress.EveryRun | semestr2/Task2/Task2_3/rwlock.c:304-327 | from the start, every run follows no NULL, has counted the longer, shorter and equal neighbours right, and can still be drained |
| LockedListProgram.Program.WorkOnWindow | semestr2/Task2/Task2_3/rwlock.c:121-123 | compares the pair, or advances the three pointers, as the model does |
| LockedListProgram.Program.Perform | semestr2/Task2/Task2_3/rwlock.c:96-280 | any possible action performs the model's step, keeps the invariant and follows no NULL |
| LockedListProgram.Program.Drain | semestr2/Task2/Task2_3/rwlock.c:96-280 | runs every thread to the end of its pass within the work left; no lock is held afterwards |
| LockedListProgram.Program.FindRunnable | semestr2/Task2/Task2_3/rwlock.c:106-275 | finds a thread that can move, and none exactly when no thread is inside a pass |
| ListStorage.ExchangedTwice | semestr2/Task2/Task2_3/rwlock.c:210-217 | exchanging twice is the identity, and once keeps the elements |
| ListStorage.Storage.AppendNewNode | semestr2/Task2/Task2_3/main.c:53-65 | an acyclic list gains the node at its end |
| ListStorage.Storage.InitStorage | semestr2/Task2/Task2_3/rwlock.c:78-86 | builds an acyclic list of fresh nodes with the given strings in order |
| ListStorage.Storage.SwapNodes | semestr2/Task2/Task2_3/rwlock.c:210-217 | exactly the two nodes change places; the list stays acyclic with the same head |
| ListStorage.Storage.SwapTwice | semestr2/Task2/Task2_3/rwlock.c:210-217 | swapping again restores every link |
| ListStorage.DrawnRange | semestr2/Task2/Task2_3/main.c:217-224 | the indices number_random_node can return are exactly 3 to size-3 |
| ListStorage.NumberRandomNode | semestr2/Task2/Task2_3/main.c:217-224 | returns the first draw that is at least 3 modulo size-2, hence between 3 and size-3; never for a size below 6 |
| ReverseFile.ReversedTwice | semestr1/Task3/Task3_1/main.c:31-36 | reversal is its own inverse |
| ReverseFile.ReverseLine | semestr1/Task3/Task3_1/main.c:31-36 | reverses the first `size` elements in place and leaves the rest |
| ReverseFile.InStream.Read | semestr1/Task3/Task3_1/main.c:108-109 | delivers the next bytes; fails exactly on a short read, at the end or at an unreadable place |
| ReverseFile.OverwrittenAt | semestr1/Task3/Task3_1/main.c:119-127 | after a write each byte is the chunk's, zero in a gap, or the old one |
| ReverseFile.ChunkWritten | semestr1/Task3/Task3_1/main.c:105-134 | a reversed chunk that reaches the file, in full or cut off by its size limit, extends the finished tail of the output |
| ReverseFile.CopyChunk | semestr1/Task3/Task3_1/main.c:105-134 | one turn of the loop: fails exactly on a read error or if the chunk before it was refused, which fseek reports; otherwise the chunk is pending in front of the finished tail |
| ReverseFile.MakeRoom | semestr1/Task3/Task3_1/main.c:119-125 | the fseek of the output writes what is pending and fails exactly when that is refused |
| ReverseFile.CreateReverseFile | semestr1/Task3/Task3_1/main.c:69-139 | for every file and buffer size: succeeds exactly when both files open, the input can be read, and the output fits the size limit or is a single chunk; the output is the reverse of the whole input, cut off at the limit |
| ReverseTree.MirrorTwice | semestr1/Task3/Task3_1/main.c:183-286 | mirroring a tree twice restores it |
| ReverseTree.ReversedNames | semestr1/Task3/Task3_1/main.c:229-230 | reversed sibling names never collide |
| ReverseTree.SubtreeUnique | semestr1/Task3/Task3_1/main.c:183-286 | what is on disk at a path determines the tree, so the copy is determined completely |
| ReverseTree.TreeAtIs | semestr1/Task3/Task3_1/main.c:183-286 | whatever is on disk at a path is a tree |
| ReverseTree.CopyHasNoSpecial | semestr1/Task3/Task3_1/main.c:251-258 | a copy holds no special entry |
| ReverseTree.CopyIsBackwards | semestr1/Task3/Task3_1/main.c:183-286 | at every path of a copy, complete or not, lies a directory for a directory and the content backwards for a file, under names spelled backwards |
| ReverseTree.MirrorCovers | semestr1/Task3/Task3_1/main.c:216-263 | an exact mirror has an image for every entry |
| ReverseTree.CoveredHasNoSpecial | semestr1/Task3/Task3_1/main.c:251-258 | if every entry has an image there was no special entry |
| ReverseFolder.FileSystem.ReverseInto | semestr1/Task3/Task3_1/main.c:247-249 | the file at the path holds the reversed content of the one read, and nothing else changes |
| ReverseFolder.FileSystem.ReverseEntry | semestr1/Task3/Task3_1/main.c:229-258 | handles one entry without touching anything outside its image; fails exactly on an entry that is neither directory nor regular file or cannot be opened |
| ReverseFolder.FileSystem.FillFolder | semestr1/Task3/Task3_1/main.c:183-270 | in any readdir order: succeeds exactly when no entry of the folder is special (not a file, or not to be opened); what appears is the image of an ordinary entry, nothing outside changes, and without special entries the folder is the exact mirror |
| ReverseFolder.FileSystem.CreateReverseFolder | semestr1/Task3/Task3_1/main.c:275-286 | succeeds exactly when mkdir does; the original is unchanged; the copy is the exact mirror without special entries, and complete if and only if there are none |
| ReverseFolder.FileSystem.ReverseTwice | semestr1/Task3/Task3_1/main.c:275-286 | copying a folder and then its copy: the second copy is the original tree if and only if there are no special entries; the original is still there and nothing else changed |
| ReverseFolder.FileSystem.ReverseArgument | semestr1/Task3/Task3_1/main.c:308-336 | an argument is copied into its own parent under its name spelled backwards, exactly when that name is free |
| ReverseFolder.FileSystem.ReverseArgumentAgain | semestr1/Task3/Task3_1/main.c:308-336 | running it on the copy fails and leaves the original |
| CacheSpec.FirstPushWins | semestr2/Task3/header/cache_list.h:72-90 | after any finds and pushes a key has the response pushed first, and is absent exactly when never pushed; `Cache.Run` and `ListIsFirstPushWinsMap` tie it to the list |
| CacheSpec.ReplayAt | semestr2/Task3/header/cache_list.h:44-44 | strncpy delivers a byte unless a NUL came at or before it |
| CacheSpec.ReplayExactIff | semestr2/Task3/header/cache_list.h:44-44 | a replay is exact if and only if nothing but NULs follows the first NUL |
| CacheSpec.SameHashSameSuffix | semestr2/Task3/header/cache_list.h:19-26 | equal keys stay equal when the same text is appended |
| CacheSpec.HashIsBase33 | semestr2/Task3/header/cache_list.h:19-26 | the key is the sum of the signed bytes times powers of 33, modulo 2 to the 64 |
| CacheSpec.LastByteCounts | semestr2/Task3/header/cache_list.h:19-26 | texts that differ only in their last byte have different keys |
| CacheSpec.CollidingRequests | semestr2/Task3/header/cache_list.h:19-26 | inside any text "ab" and "bA" give the same key |
| ProxyCache.Hash | semestr2/Task3/header/cache_list.h:19-26 | the loop computes the sum of the signed bytes times powers of 33, modulo 2 to the 64 |
| ProxyHost.HasHostIff | semestr2/Task3/src/proxy.c:80-82 | the host name can be cut out if and only if a carriage return follows the first "Host:" in time |
| ProxyCache.Strncpy | semestr2/Task3/header/cache_list.h:44-44 | copies up to the first NUL, then zeros, and leaves the rest of the buffer |
| ProxyCache.AddResponse | semestr2/Task3/header/cache_list.h:60-62 | puts the chunk at the position and keeps what was before it |
| ProxyCache.Relay | semestr2/Task3/src/proxy.c:100-114 | for every chunking and every result of the writes: the client holds what was taken of each chunk written, the record the chunks read; ends at a failed write, overruns exactly when what was read before that does not fit |
| ProxyCache.Cache.constructor | semestr2/Task3/src/proxy.c:20-28 | an empty cache whose dummy head has an arbitrary request |
| ProxyCache.Cache.Locate | semestr2/Task3/header/cache_list.h:39-49 | finds the head exactly on its unset request, otherwise the record of the key or nothing, as the map says |
| ProxyCache.Cache.FindInCache | semestr2/Task3/header/cache_list.h:38-52 | a hit delivers the replay of the map's response; a miss exactly when the map has none |
| ProxyCache.Cache.WalkToEnd | semestr2/Task3/header/cache_list.h:76-85 | reports a duplicate exactly when the map has the key, otherwise the last node |
| ProxyCache.Cache.PushRecord | semestr2/Task3/header/cache_list.h:72-90 | the map changes as first-push-wins; a duplicate leaves the list alone and is freed |
| ProxyCache.Cache.Run | semestr2/Task3/header/cache_list.h:38-90 | any sequence of lookups and pushes: every lookup answers from the first-push-wins map of the operations before it, and the list ends as the map of them all |
| ProxyThreads.WalkFindsFirst | semestr2/Task3/header/cache_list.h:38-52 | what a walk of the list finds is the record pushed first under the key, and nothing exactly when nothing was pushed |
| ProxyThreads.PublishKeepsInv | semestr2/Task3/header/cache_list.h:72-90 | a push keeps the list equal to the map; a duplicate, as two concurrent misses make, is freed |
| ProxyThreads.StepKeepsInv | semestr2/Task3/src/proxy.c:64-124 | every action of every thread keeps the invariant of clients, list and records |
| ProxyThreads.RunKeepsInv | semestr2/Task3/src/proxy.c:126-166 | every interleaving of any number of client threads keeps it |
| ProxyAnswers.ListIsFirstPushWinsMap | semestr2/Task3/src/proxy.c:64-124 | in every run the list is the first-push-wins map of the lookups and pushes in the order of their critical sections |
| ProxyAnswers.EveryAnswer | semestr2/Task3/src/proxy.c:64-124 | in every run an answered client was sent the chunks of its own server's response, or a replay of the first response pushed under its key, and holds what the writes took; the replay exactly when one had been pushed before its lookup; a client whose copy could not be written is answered only if its server sends nothing |
| ProxyAnswers.OwnResponseIff | semestr2/Task3/src/proxy.c:64-124 | an answered client was given a response to its own request if and only if nothing had been pushed under its key, or the first push was for the same text, or writing it the copy failed |
| ProxyAnswers.RecordOwnership | semestr2/Task3/src/proxy.c:73-115 | each record is with its thread, in the list, freed once, or lost by a thread that gave up after a failed connection or write |
| ProxyAnswers.FaultIff | semestr2/Task3/src/proxy.c:67-112 | some interleaving copies a request past its buffer, matches the unset head, cuts out a host name that is not there, frees the result of a failed resolution or writes past a record, if and only if some request is too long, has the head's key, has no host name, has one that does not resolve, or has a response that does not fit |
| ProxyAnswers.SecondGetsFirstsResponse | semestr2/Task3/src/proxy.c:43-62 | a client with the key of one already served gets a replay of that one's response |
| ProxyAnswers.CollisionIsServed | semestr2/Task3/header/cache_list.h:19-26 | a client whose text differs by "bA" for "ab" gets the other client's response |
| ProxyAnswers.AnothersResponseIff | semestr2/Task3/src/proxy.c:64-124 | with descriptors that are never reused, some interleaving gives a client the response to another request if and only if two different requests share a key and the response to one can be fetched and fits |
| ProxyAnswers.EveryRunEnds | semestr2/Task3/src/proxy.c:64-124 | every run has at most as many actions as there are chunks, plus three per client, plus one for a fault; a run that cannot go on and met no fault has answered every client or lost it to a failure |
| ProxyAnswers.WritesMayFallShort | semestr2/Task3/src/proxy.c:47-112 | a write may take any number of bytes, and may fail |
| ProxyAnswers.FailedCopyRun | semestr2/Task3/src/proxy.c:47-112 | a client whose copy cannot be written goes to the server and is lost at the first chunk, with its record |
| ProxyDescriptors.MisdeliveryIff | semestr2/Task3/src/proxy.c:43-122 | for any sequences of writes and closes that threads make on their clients' descriptors, some interleaving sends a write to another client if and only if a thread writes after closing and there is another client, or one thread closes twice, another writes and there is a third |
| ProxyDescriptors.ProxyMisdeliversIff | semestr2/Task3/src/proxy.c:43-122 | for threads on any paths, some interleaving sends a write to another client if and only if chunks follow a failed write of a copy and there is another client, or one thread hits, fails to connect or fails to write a copy, another sends and there is a third |
| ProxyDescriptors.HitMisdelivers | semestr2/Task3/src/proxy.c:58-73 | a client served from the cache, whose descriptor is closed twice, lets the response of a second client reach a third |
| ProxyDescriptors.TidyPathsAreSafe | semestr2/Task3/src/proxy.c:100-122 | threads that close once, at the end, never write to another client |
| ProxyProgram.Proxy.Lookup | semestr2/Task3/src/proxy.c:43-72 | the walk of the list on the heap performs the lookup of the model |
| ProxyProgram.Proxy.Publish | semestr2/Task3/src/proxy.c:113-114 | the push on the heap performs the push of the model |
| ProxyProgram.Proxy.Follow | semestr2/Task3/src/proxy.c:64-124 | any schedule performs a run of the model and stops exactly where it meets one of the undefined operations |
| ProxyProgram.Serve | semestr2/Task3/src/proxy.c:126-166 | any clients, any schedule: with harmless requests none of the undefined operations is met, and every client written to in full got its own response or a replay of one to a request with its key |

## Left out

- FutexMutex.StepKeepsInv: does not model signed overflow of `counter` and `i`, error returns of futex other than EAGAIN, printing and CPU pinning; integers are unbounded.
- MutexQueueProofs.StepKeepsInv: malloc never fails and never gives out an address twice; the statistics are unbounded integers.
- MutexQueueProgram.Program.Perform: the heap is a sequence of cells on values, not Dafny objects, so that lemmas can speak of runs; `PointerQueue` has the same code on objects.
- CondvarNodes.HeapStepKeepsOk: the assignments that link or unlink a node are one action, under the mutex.
- LockedList.StepKeepsInv: `pthread_rwlock` and mutex calls do not fail; a string is represented by its length; the finders' counter, which the program discards, is kept as `result`.
- ReverseFile.CreateReverseFile: a write is refused only by a limit on the size of the file (a full disk, which would lose the front of the output, is not modelled), the stream's buffer holds at least a chunk, and the input can be positioned.
- ReverseFolder.FileSystem.FillFolder: reading and writing opened files does not fail here, and opening a directory fails only if it is none; name buffers and their NUL termination, permissions of directories and disk space are not modelled.
- ReverseFolder.FileSystem.CreateReverseFolder: origin and copy are the same path or neither lies below the other, as for the sibling paths that `run` makes.
- ProxyThreads.StepKeepsInv: each thread starts with its own request, a text without NULs (the `ctx` variable that the accept loop reuses, and reading the request into its buffer, are not modelled); allocation does not fail; whether a host resolves and what the server sends are given.
- ProxyAnswers.AnothersResponseIff: descriptors are never reused here; that a descriptor closed twice can carry a response to the wrong client is the subject of `ProxyDescriptors`.
- ProxyDescriptors.MisdeliveryIff: the descriptors of connections to servers, which come from the same numbers, and the path taken after a write to a closed number are not modelled; the sequence of writes and closes of each thread is given.
- ProxyProgram.Proxy.Publish: a record is a value local to its thread until it is pushed; `destroy_cache`, which frees the head's uninitialised response, is not modelled.
- Semaphore, spin-lock and usleep variants of the queue: the same algorithm under another lock.
- `find_decreasing` of `semestr2/Task2/Task2_3/main.c`, which tests `<` like `find_increasing`; the three kinds are those of rwlock.c.
- Sockets, DNS, logging and the thread semaphore of the proxy; monitor threads; the thread-library exercises; the semester 1 client and server programs.
- `find_name_folder` and the argument loop of the reversing copier: string plumbing around `create_reverse_folder`.
