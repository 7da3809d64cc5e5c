# Verified models of the native layer

This project models the parts of the native code whose behaviour depends on state and
interleaving, and proves what they are for. `dafny verify dfyconfig.toml` checks all of it.

**Memory scheduling.** `spark_resource_adaptor_impl` keeps a state for every registered thread and
escalates memory pressure from waiting, over one more attempt and rolling back, to splitting the
input. Each critical section runs under one mutex, so it is one atomic step.

- `TaskPriority`, `ThreadState` and `Deadlock` hold the priority tracker, the thread records with their
  order, and the rules for when tasks count as blocked.
- `AdaptorModel` gives every critical section as a function of the whole state. `SparkResourceAdaptor`
  is the class with the source's fields and loops; each of its methods is proved to compute its function.
- `AdaptorRuns` defines the steps clients can take and proves an invariant of all their interleavings.
  `NoStall`, `Escalation`, `Erasure`, `Footprint` and `Selection` build the main results on it; `Nudge` collects what
  waking and breaking deadlocks may change. `Wakeups`, `Attempts`, `Exceptions`, `Detector` and `Registration` say what
  each kind of step means to every thread, in terms of their own: who is woken, what a failure comes to, which
  exception is thrown, who counts as stuck, who is refused. `AdaptorExamples` has runs from the empty adaptor into the
  situations that these results speak about.

The state has three fields the source keeps only implicitly: which threads are inside a condition wait and
whether they have been notified (`waiters`), which allocations each thread has begun under its present
registration and not yet reported on (`inFlight`), and which it began before that, unregistered or under an
earlier registration (`orphaned`). Registrations may change while allocations are open, and the reports on
those allocations still come. A wait is two steps: going to sleep, and waking with a fresh look at the state. The
shared priority tracker is part of the state, because the selection loops issue priorities while they run.

**Parquet footers.** `ParquetSchema` has depth-first schemas and the trees they stand for,
`ParquetPruner` the recursive prune of a file tree against a request tree and the cursor-passing filter
that refines it, `ParquetConforms` the shapes it accepts, `ParquetChosen` the nodes it keeps, `ParquetPruned` the
results about gather maps, `PrunerBuilder` the request builder,
`RowGroups` the byte-range selection, and `ParquetFooter` the whole `readAndFilter`.

**Smaller parts.** `PageablePool` is the sub-allocator with its free list, `ConfigString` the key/value
parser and the simplifier that prints into the buffer it reads, and `HostTable` the table layout and the
relocation of its views. `Common` holds a few generic definitions.

Every lemma carries `{:induction false}`, so no proof leans on automatic induction, and costly proofs
`hide` the definitions they do not need.

## Where the code differs from its documentation

- docs/memory_management.md (line 53) says that the lowest-priority thread is told to split when all are BUFN.
  The code picks the highest-priority one (src/main/cpp/src/SparkResourceAdaptorJni.cpp:2012-2025), and so does the model.
- The rule for when all tasks are BUFN is stated at src/main/cpp/src/SparkResourceAdaptorJni.cpp:1815-1820, but the
  code compares the sizes of two sets. They agree exactly under the condition `Deadlock.AllBufnTestAgrees` states,
  and a run on which they do not is `AdaptorExamples.MisfireIsReached`.
- src/main/cpp/profiler/nvtxw3.h:119-123 promises simplification for every config. The code does it in place, which works exactly for the
  configs that are not tight (`ConfigString.SimplifyConfigHeapString`).
- The gathered Parquet schema is meant to be a schema again. It is one exactly when the request matches something
  and the filter lost no element, key or value (`ParquetPruned.PrunedSchemaIsATree`); both conditions can fail on
  their own (`ParquetPruned.NoMatchIsNoTree`, `ParquetPruned.EmptyElementIsNoTree`).
- src/main/cpp/src/SparkResourceAdaptorJni.cpp:2102-2107 calls a failure report in any other state an internal error. Clients reach it
  by registering a thread while one of its allocations is open, exactly as `AdaptorRuns.ReportsFailExactly` says.

## Model

| member | source | states |
|---|---|---|
| `NoStall.StepNeverStalls` | src/main/cpp/src/SparkResourceAdaptorJni.cpp:1340-1413 | Starting from a state in which somebody is awake, no step of any kind (allocation start, success, failure, free, wake, registration, removal, watchdog) ends with every registered thread in BLOCKED or BUFN, provided there is a dedicated thread, every pool task has one, and only RUNNING threads leave in the step |
| `NoStall.RunsNeverStall` | src/main/cpp/src/SparkResourceAdaptorJni.cpp:1354-1388 | The same over whole runs of any length |
| `NoStall.CheckNeverStalls` | src/main/cpp/src/SparkResourceAdaptorJni.cpp:1121-1125 | A watchdog check never ends in a stall, whatever the state before it: it restores the property after a removal that broke it |
| `NoStall.CheckExactlyUnstalls` | src/main/cpp/src/SparkResourceAdaptorJni.cpp:1930-2034 | A check gets a fully blocked adaptor going again if and only if there is a dedicated thread and either some thread is BLOCKED or every pool task has a dedicated thread |
| `NoStall.LeavingCanStall` | src/main/cpp/src/SparkResourceAdaptorJni.cpp:1459-1513 | Deregistering a thread that is not RUNNING stalls the rest if and only if all others were BLOCKED or BUFN |
| `NoStall.LeavingPoolCanStall` | src/main/cpp/src/SparkResourceAdaptorJni.cpp:808-835 | The same if and only if for a pool thread that is not RUNNING and finishes the last of its tasks |
| `NoStall.RemovedCanStall` | src/main/cpp/src/SparkResourceAdaptorJni.cpp:1394-1400 | The same if and only if for a thread in REMOVE_THROW that wakes, or enters the blocking loop, and erases itself |
| `NoStall.RegisterStaysAwake` | src/main/cpp/src/SparkResourceAdaptorJni.cpp:675-737 | Registering a thread, also one that is moved from another task, stalls nobody, unconditionally |
| `NoStall.FinishCanStall` | src/main/cpp/src/SparkResourceAdaptorJni.cpp:858-893 | `task_done` leaves every registered thread blocked if and only if the threads that depart are exactly those that were awake and, when a RUNNING one is among them, nobody remains |
| `NoStall.RemovalNeverStalls` | src/main/cpp/src/SparkResourceAdaptorJni.cpp:1422-1452 | A removal followed by the conditional wake-up does not stall when only RUNNING threads left |
| `Escalation.EscalatingStepDescends` | src/main/cpp/src/SparkResourceAdaptorJni.cpp:1340-1413 | When every allocation fails with OOM and nothing is freed or deregistered, every step either tells a thread to split or lowers the rank of each thread whose record it changes and raises none |
| `Escalation.FailDescends` | src/main/cpp/src/SparkResourceAdaptorJni.cpp:2069-2101 | A failed allocation followed by its check lowers the rank of the failing thread unless somebody is told to split |
| `Escalation.BrokenDescends` | src/main/cpp/src/SparkResourceAdaptorJni.cpp:1944-2032 | Breaking a deadlock tells a thread to split or only lowers ranks |
| `Escalation.AlwaysProgress` | src/main/cpp/src/SparkResourceAdaptorJni.cpp:1524-1628 | In every such state that is not a stall some enabled step lowers the total rank or tells a thread to split |
| `Escalation.BoundedEscalation` | src/main/cpp/src/SparkResourceAdaptorJni.cpp:1944-2032 | In any run of such steps without a split, of whatever length and including steps that only fall asleep or wake up, thread records change at most 22 n times for n threads, when no nested allocations are open at its start |
| `Escalation.PhaseCanContinue` | src/main/cpp/src/SparkResourceAdaptorJni.cpp:1340-1413 | After every such run a step that lowers the total rank, or splits, is enabled: it cannot end in a deadlock |
| `Escalation.SplitIsReached` | src/main/cpp/src/SparkResourceAdaptorJni.cpp:2012-2032 | From every such state there is a run that tells a thread to split within as many steps as the total rank |
| `Escalation.TwoTasksAreReady` | src/main/cpp/src/SparkResourceAdaptorJni.cpp:675-737 | Two registrations lead from the empty adaptor to a state with all the premises of the no-stall and escalation results |
| `AdaptorExamples.MidEscalation` | src/main/cpp/src/SparkResourceAdaptorJni.cpp:1944-1990 | A run from the empty adaptor to the middle of an escalation, one thread retrying its allocation and one asleep in BUFN, where the premises hold too |
| `AdaptorRuns.InvStep` | src/main/cpp/src/SparkResourceAdaptorJni.cpp:657-2192 | Every step of every interleaving keeps the invariant: listed threads, no pool tasks on dedicated threads, retry flag only in RUNNING, ALLOC or ALLOC_FREE, open allocations matching the state, active footprint at most the maximum, no lost wake-up |
| `AdaptorRuns.RunsKeepInv` | src/main/cpp/src/SparkResourceAdaptorJni.cpp:1356-1362 | In every reachable state a thread inside a condition wait is still BLOCKED or BUFN or has a notification pending |
| `AdaptorRuns.InFlightIsOwned` | src/main/cpp/src/SparkResourceAdaptorJni.cpp:1547-1566 | A step of any thread keeps a thread in ALLOC or ALLOC_FREE, with its CPU/GPU kind and its retry flag, if and only if it is neither its own non-recursive report nor takes its record out: `task_done` for its only task, its removal from the last of its work, or its move to another task; a free of its kind by another thread is what takes it to ALLOC_FREE |
| `AdaptorRuns.CutTaskFate` | src/main/cpp/src/SparkResourceAdaptorJni.cpp:858-893 | What `task_done` does to each thread: it erases exactly the threads it finds through the list or the pool tasks and that have no other work, tells those of them that sleep to leave, and keeps state, task and kind of all others |
| `AdaptorRuns.ReportsFailExactly` | src/main/cpp/src/SparkResourceAdaptorJni.cpp:2047-2112 | Over all runs, registrations changing under open allocations included: a success report is always accepted, and a failure report is refused, by the internal error or as a mismatch, if and only if it is not recursive, its thread is registered, and the allocation was begun before that registration |
| `AdaptorExamples.BegunUnregistered` | src/main/cpp/src/SparkResourceAdaptorJni.cpp:2102-2107 | A run that reaches the internal error: an allocation begun unregistered, a registration, the failure report |
| `AdaptorExamples.BegunEarlier` | src/main/cpp/src/SparkResourceAdaptorJni.cpp:2102-2107 | Another one: begun in one task, deregistered, registered with another task, the failure report |
| `AdaptorRuns.TaskDoneCleansUp` | src/main/cpp/src/SparkResourceAdaptorJni.cpp:858-893 | After `task_done` the task is unlisted, every thread still dedicated to it is in REMOVE_THROW, and no pool thread works on it; the invariant holds |
| `Wakeups.FreeTellsAndWakes` | src/main/cpp/src/SparkResourceAdaptorJni.cpp:2150-2192 | A free takes every ALLOC of its kind by another thread to ALLOC_FREE and sets running, with a notification if it sleeps, the highest BLOCKED thread of the kind in the final tracker, exactly one if there is any; no other thread changes |
| `Wakeups.SuccessCountsAndWakes` | src/main/cpp/src/SparkResourceAdaptorJni.cpp:1648-1699 | A success ends the allocation, counts it on the thread and in the total, and wakes the highest BLOCKED thread of its kind in the same way; recursive reports and those of unregistered threads change no thread |
| `Wakeups.DeregisterStates` | src/main/cpp/src/SparkResourceAdaptorJni.cpp:1422-1452 | What a deregistration does to every thread: gone, told to leave, or kept, and if a RUNNING one went, the BLOCKED ones run, or else all those rolled back or in BUFN; whoever moves in its sleep is notified |
| `Wakeups.LeavePoolStates` | src/main/cpp/src/SparkResourceAdaptorJni.cpp:808-835 | The same when a pool thread finishes tasks: it departs exactly when none is left |
| `Wakeups.FinishStates` | src/main/cpp/src/SparkResourceAdaptorJni.cpp:858-893 | The same for `task_done`, with the threads that depart read off the state before it |
| `Attempts.AllocateAnswers` | src/main/cpp/src/SparkResourceAdaptorJni.cpp:1540-1628 | The answer of `pre_alloc` is true exactly for a thread that is allocating, and exactly then the allocation it opens is a recursive one; when it refuses is stated too |
| `Attempts.BeginsExactly` | src/main/cpp/src/SparkResourceAdaptorJni.cpp:1606-1622 | Of all steps exactly the own call of a RUNNING thread, or its waking from one, puts it into ALLOC, and records the kind; no other step makes it allocate or changes the kind it failed with |
| `Attempts.AttemptHears` | src/main/cpp/src/SparkResourceAdaptorJni.cpp:2150-2192 | Over all runs: from its beginning to its report an attempt keeps kind and retry flag, and its thread is in ALLOC_FREE if and only if another thread freed memory of the kind meanwhile |
| `Attempts.FailureFollows` | src/main/cpp/src/SparkResourceAdaptorJni.cpp:2069-2101 | Over all runs: the failure of an attempt is answered by "try again" and leaves the thread RUNNING if there was such a free, in BUFN_THROW for an OOM on its retry, in BLOCKED for another blocking OOM, and RUNNING for any other report, each before the check that follows |
| `Exceptions.ExceptionsExactly` | src/main/cpp/src/SparkResourceAdaptorJni.cpp:1286-1325 | For every step in which a thread runs the blocking loop: a retry exception exactly from BUFN_THROW, a split exception exactly from SPLIT_THROW or when its own check tells it to split, both of its CPU/GPU kind, the retry limit exactly from the 501st on, and when it is removed and when it waits |
| `Exceptions.BlockingLeaves` | src/main/cpp/src/SparkResourceAdaptorJni.cpp:1340-1413 | What these steps leave in the record of the thread, counters included, and the call a waiting thread comes back to |
| `Attempts.ExceptionOfItsKind` | src/main/cpp/src/SparkResourceAdaptorJni.cpp:1300-1325 | Over all runs: a retry or split exception thrown to a thread after a failed allocation, before it begins another, is of the kind of that allocation |
| `Detector.DeadlockedExactly` | src/main/cpp/src/SparkResourceAdaptorJni.cpp:1790-1887 | The detector fires exactly when there is a dedicated thread and each task with one has a dedicated thread and all its pool threads stuck: BLOCKED, in BUFN, waiting for the pool, or reported by the JVM |
| `Detector.CheckDoes` | src/main/cpp/src/SparkResourceAdaptorJni.cpp:1930-2034 | What a check does to every thread, in terms of who is stuck: nothing without a deadlock, else the lowest BLOCKED thread is sent back or retries, the highest BUFN thread is told to split if the size test says so, and nobody else changes |
| `Detector.UncountedFailureChecks` | src/main/cpp/src/SparkResourceAdaptorJni.cpp:2047-2059 | A failure inside another allocation, or of an unregistered thread, is not tried again, and does what a check does and nothing else |
| `Detector.WatchdogSendsBack` | src/main/cpp/src/SparkResourceAdaptorJni.cpp:1739-1761 | If there is a dedicated thread and all threads are stuck, the watchdog takes the lowest BLOCKED thread out of BLOCKED |
| `Detector.WatchdogLeavesAlone` | src/main/cpp/src/SparkResourceAdaptorJni.cpp:1739-1761 | If no dedicated thread of some task is stuck, or some pool thread that works for a task with one is not, the watchdog changes nothing |
| `Detector.BlockedIsHelpable` | src/main/cpp/src/SparkResourceAdaptorJni.cpp:1754-1755 | A BLOCKED thread that the JVM reports does not count as blocked until further notice |
| `Registration.RegisterExactly` | src/main/cpp/src/SparkResourceAdaptorJni.cpp:675-737 | When a dedicated registration is refused, the record it leaves, and that no other thread changes |
| `Registration.JoinPoolExactly` | src/main/cpp/src/SparkResourceAdaptorJni.cpp:768-806 | The same for pool threads, whose metrics are saved before tasks are added |
| `Registration.FlagsExactly` | src/main/cpp/src/SparkResourceAdaptorJni.cpp:1248-1262 | Exactly dedicated threads may report waiting on the pool; any registered thread marks its spilling, and nothing else changes |
| `Registration.CheckpointMoves` | src/main/cpp/src/SparkResourceAdaptorJni.cpp:1267-1280 | A checkpoint moves all five metrics of a thread to each of its tasks, adding counts and footprints and keeping the larger maximum, and to no other task |
| `Erasure.RecordsErasedExactly` | src/main/cpp/src/SparkResourceAdaptorJni.cpp:1459-1513 | Of all steps exactly these erase the record of a thread: `task_done`, removal or leaving the pool when that ends the last of its work and it is not blocked, and its own blocking loop once it was told to leave |
| `Erasure.SleeperErasedExactly` | src/main/cpp/src/SparkResourceAdaptorJni.cpp:1354-1388 | A thread inside its condition wait loses its record, which it looks up again afterwards, exactly by such a deregistration after it was notified and before it has looked |
| `Deadlock.CountingIsExact` | src/main/cpp/src/SparkResourceAdaptorJni.cpp:1996-2001 | The comparison of pool counts holds for a task if and only if every pool thread working on it is BUFN or above |
| `Deadlock.BufnIdsExact` | src/main/cpp/src/SparkResourceAdaptorJni.cpp:1815-1859 | The ids collected are exactly the tasks that are BUFN by the documented rule, plus pool tasks without a dedicated thread all of whose workers are |
| `Deadlock.AllBufnTestMeaning` | src/main/cpp/src/SparkResourceAdaptorJni.cpp:1996-2003 | The size test holds if and only if as many dedicated tasks are not BUFN by the documented rule as there are tasks nobody is dedicated to, all of whose pool threads are BUFN or above |
| `Deadlock.AllBufnTestAgrees` | src/main/cpp/src/SparkResourceAdaptorJni.cpp:1815-1820 | The size test agrees with the documented rule if and only if, when every dedicated task is BUFN, there is no such stray task, and otherwise the two numbers differ: read off the thread table |
| `Deadlock.AllBufnTestExact` | src/main/cpp/src/SparkResourceAdaptorJni.cpp:2003 | With a dedicated thread for every pool task the size test is the documented rule |
| `Deadlock.AllBufnTestCanMisfire` | src/main/cpp/src/SparkResourceAdaptorJni.cpp:2003 | On every thread table with one dedicated thread and one BUFN pool thread of another task the size test answers wrongly, in either direction |
| `AdaptorExamples.MisfireIsReached` | src/main/cpp/src/SparkResourceAdaptorJni.cpp:1996-2032 | A run from the empty adaptor that reaches such a table: its last check tells the pool thread to split although task 1 is not BUFN |
| `Deadlock.DeadlockMonotone` | src/main/cpp/src/SparkResourceAdaptorJni.cpp:1739-1761 | The more threads the JVM reports as blocked, the more states count as a deadlock |
| `SparkResourceAdaptorImpl.DeadlockBySize` | src/main/cpp/src/SparkResourceAdaptorJni.cpp:1866-1869 | Comparing the sizes of all ids and blocked ids decides the deadlock, because one set contains the other |
| `SparkResourceAdaptorImpl.BufnIdsFromCounts` | src/main/cpp/src/SparkResourceAdaptorJni.cpp:1996-2002 | Adding the tasks whose counts compare gives exactly the BUFN ids |
| `Selection.WokenThreadIsHighest` | src/main/cpp/src/SparkResourceAdaptorJni.cpp:1707-1728 | Woken is the unique maximum among the BLOCKED threads of the matching kind, in the tracker state after the loop that itself issued priorities |
| `Selection.RolledBackThreadIsLowest` | src/main/cpp/src/SparkResourceAdaptorJni.cpp:1946-1985 | Sent back is the unique minimum among the BLOCKED threads in the final tracker state; a lone one retries instead, and nobody else changes |
| `Selection.SplitThreadIsHighest` | src/main/cpp/src/SparkResourceAdaptorJni.cpp:2005-2032 | Told to split is the unique maximum among the BUFN threads in the final tracker state |
| `Registration.DeregisterTrims` | src/main/cpp/src/SparkResourceAdaptorJni.cpp:1459-1513 | A deregistration takes at most one thread from the one task, changes no other work, and beside that only states and metrics |
| `Registration.LeavePoolTrims` | src/main/cpp/src/SparkResourceAdaptorJni.cpp:808-835 | Leaving the pool takes the thread from exactly the tasks given and nobody else from any |
| `Registration.FinishTrims` | src/main/cpp/src/SparkResourceAdaptorJni.cpp:858-893 | The end of a task takes every remaining thread from exactly this task, whichever of the two loops finds it |
| `Registration.DropsExactly` | src/main/cpp/src/SparkResourceAdaptorJni.cpp:1059-1063 | Dropping the record of a task, or its priority, drops that one and no other |
| `Selection.KeysExactly` | src/main/cpp/src/SparkResourceAdaptorJni.cpp:622-636 | A dedicated thread has the priority of its task, a pool thread that of the least of its tasks, and one that shuffles or has none that of -1 |
| `Selection.TiesByThread` | src/main/cpp/src/SparkResourceAdaptorJni.cpp:370-392 | Between threads of equal task priority the larger thread id wins |
| `Selection.ShuffleOutranksTasks` | src/main/cpp/src/SparkResourceAdaptorJni.cpp:622-636 | Shuffle threads and idle pool threads outrank every thread that works for a task |
| `Selection.EarlierTasksOutrank` | src/main/cpp/src/TaskPriorityJni.cpp:29-38 | A task that has its priority outranks every task that is asked for later |
| `TaskPriority.IssueIsLowest` | src/main/cpp/src/TaskPriorityJni.cpp:29-38 | A first request is answered below all earlier answers, which stay as they are |
| `TaskPriority.PrioritiesDiffer` | src/main/cpp/src/TaskPriorityJni.cpp:29-38 | Two tasks never have the same priority |
| `TaskPriority.TaskPriorityTracker.GetTaskPriority` | src/main/cpp/src/TaskPriorityJni.cpp:62-70 | The answer is the priority of the id in the new tracker; -1 gets the highest and leaves no record |
| `TaskPriority.TaskPriorityTracker.TaskDone` | src/main/cpp/src/TaskPriorityJni.cpp:72-79 | Forgets the attempt and nothing else; its priority is never issued again |
| `ThreadState.ExtremesExist` | src/main/cpp/src/SparkResourceAdaptorJni.cpp:370-392 | A non-empty set of threads has a highest and a lowest member |
| `ThreadState.ExtremesUnique` | src/main/cpp/src/SparkResourceAdaptorJni.cpp:370-392 | and only one of each |
| `ThreadState.IssueAllIssues` | src/main/cpp/src/SparkResourceAdaptorJni.cpp:622-636 | Asking for a set of threads one after the other gives all of them a priority and changes no earlier one |
| `Footprint.FootprintIsUpperBound` | src/main/cpp/src/SparkResourceAdaptorJni.cpp:1033-1049 | At every point of a run the footprint reported for a task is at least the net bytes its dedicated threads had allocated at any earlier point, across checkpoints and thread turnover; a drop of the metrics of the task begins the count anew with what its live threads hold, and the bound is for points since the last drop (not counted: CPU, recursive and spill-range allocations, and those begun before the registration) |
| `Footprint.ReportCoversPeak` | src/main/cpp/src/SparkResourceAdaptorJni.cpp:1094-1097 | The reported sum covers the peak of an independent ledger |
| `Footprint.RunAccounted` | src/main/cpp/src/SparkResourceAdaptorJni.cpp:1267-1280 | Checkpointed records and live threads together account for the ledger in every state of every run, drops of the metrics included |
| `Footprint.StepAccounted` | src/main/cpp/src/SparkResourceAdaptorJni.cpp:1683-1693 | Every step keeps the account |
| `Footprint.PeakIsReached` | src/main/cpp/src/SparkResourceAdaptorJni.cpp:426-460 | The ledger peak is at least every earlier net since the last drop |
| `SparkResourceAdaptorImpl.SparkResourceAdaptor.constructor` | src/main/cpp/src/SparkResourceAdaptorJni.cpp:657-663 | The empty adaptor |
| `SparkResourceAdaptorImpl.SparkResourceAdaptor.StartDedicatedTaskThread` | src/main/cpp/src/SparkResourceAdaptorJni.cpp:675-737 | New state and outcome are those of the specification, including both refusals |
| `SparkResourceAdaptorImpl.SparkResourceAdaptor.PoolThreadWorkingOnTasks` | src/main/cpp/src/SparkResourceAdaptorJni.cpp:768-806 | New state and outcome are those of the specification |
| `SparkResourceAdaptorImpl.SparkResourceAdaptor.PoolThreadFinishedForTasks` | src/main/cpp/src/SparkResourceAdaptorJni.cpp:808-835 | New state is that of the specification |
| `SparkResourceAdaptorImpl.SparkResourceAdaptor.RemoveThread` | src/main/cpp/src/SparkResourceAdaptorJni.cpp:844-850 | Removal, and the wake-up only if a RUNNING thread was removed |
| `SparkResourceAdaptorImpl.SparkResourceAdaptor.TaskDone` | src/main/cpp/src/SparkResourceAdaptorJni.cpp:858-893 | Both loops over threads that disappear while they run compute the specification |
| `SparkResourceAdaptorImpl.SparkResourceAdaptor.RemoveThreadAssociation` | src/main/cpp/src/SparkResourceAdaptorJni.cpp:1459-1513 | The metrics are saved, tasks are trimmed, and if nothing is left the thread is unlisted and erased, or told to leave if it is blocked; the flag says whether a RUNNING thread was erased |
| `SparkResourceAdaptorImpl.SparkResourceAdaptor.GetMaxGpuTaskMemory` | src/main/cpp/src/SparkResourceAdaptorJni.cpp:1033-1049 | The report is the sum over listed threads plus the checkpointed record |
| `SparkResourceAdaptorImpl.SparkResourceAdaptor.CheckpointMetrics` | src/main/cpp/src/SparkResourceAdaptorJni.cpp:1267-1280 | Adds the metrics of the thread to its tasks and clears them |
| `SparkResourceAdaptorImpl.SparkResourceAdaptor.WakeUpThreadsAfterTaskFinishes` | src/main/cpp/src/SparkResourceAdaptorJni.cpp:1422-1452 | All BLOCKED threads run, or if there are none all BUFN ones, and all of them are notified |
| `SparkResourceAdaptorImpl.SparkResourceAdaptor.WakeNextHighestPriorityBlocked` | src/main/cpp/src/SparkResourceAdaptorJni.cpp:1707-1728 | The loop that keeps a running best while issuing priorities wakes the highest thread of the final tracker |
| `SparkResourceAdaptorImpl.SparkResourceAdaptor.IsInDeadlock` | src/main/cpp/src/SparkResourceAdaptorJni.cpp:1790-1887 | The two passes return true if and only if some task has a dedicated thread and each such task has one blocked and no active pool thread; counts and id sets are exact |
| `SparkResourceAdaptorImpl.SparkResourceAdaptor.CheckAndUpdateForBufn` | src/main/cpp/src/SparkResourceAdaptorJni.cpp:1930-2034 | Detection, both selection loops and both breakers compute the specification |
| `SparkResourceAdaptorImpl.SparkResourceAdaptor.BreakBlockedThread` | src/main/cpp/src/SparkResourceAdaptorJni.cpp:1944-1994 | The lowest BLOCKED thread goes to BUFN_THROW, or retries once when it is alone |
| `SparkResourceAdaptorImpl.SparkResourceAdaptor.BreakBufnThread` | src/main/cpp/src/SparkResourceAdaptorJni.cpp:2003-2032 | The highest BUFN thread goes to SPLIT_THROW |
| `SparkResourceAdaptorImpl.SparkResourceAdaptor.BlockThreadLoop` | src/main/cpp/src/SparkResourceAdaptorJni.cpp:1340-1413 | The loop up to its next wait, its end or an exception computes the specification |
| `SparkResourceAdaptorImpl.SparkResourceAdaptor.WakeFromWait` | src/main/cpp/src/SparkResourceAdaptorJni.cpp:1354-1388 | What a thread does after `wait` returns, with the re-check of its state |
| `SparkResourceAdaptorImpl.SparkResourceAdaptor.PreAllocCore` | src/main/cpp/src/SparkResourceAdaptorJni.cpp:1540-1628 | Recursion, refusals, blocking and the start of an allocation are those of the specification |
| `SparkResourceAdaptorImpl.SparkResourceAdaptor.PostAllocSuccessCore` | src/main/cpp/src/SparkResourceAdaptorJni.cpp:1648-1699 | State, footprint, allocated bytes, the following wake-up and the outcome are those of the specification |
| `SparkResourceAdaptorImpl.SparkResourceAdaptor.PostAllocFailedCore` | src/main/cpp/src/SparkResourceAdaptorJni.cpp:2047-2112 | The escalation of a failed attempt, the following check and the outcome are those of the specification |
| `SparkResourceAdaptorImpl.SparkResourceAdaptor.DeallocCore` | src/main/cpp/src/SparkResourceAdaptorJni.cpp:2150-2192 | The footprint, the notice to other allocations of the kind and the wake-up are those of the specification |
| `ParquetSchema.ParseSomeInverts` | src/main/cpp/src/NativeParquetJni.cpp:93-95 | Reading a depth-first list back gives the well-formed trees it was flattened from, wherever they stand in a longer list |
| `ParquetSchema.ParseSomeIsThere` | src/main/cpp/src/NativeParquetJni.cpp:93-95 | Reading loses nothing, for every list: the trees flatten to the part they came from |
| `ParquetSchema.SkipsOne` | src/main/cpp/src/NativeParquetJni.cpp:187-206 | Skipping advances by exactly one subtree and by its number of leaves |
| `ParquetPruner.SchemaFilter.Skip` | src/main/cpp/src/NativeParquetJni.cpp:187-206 | The loop computes the walk that skips one subtree |
| `ParquetPruner.SchemaFilter.FilterValue` | src/main/cpp/src/NativeParquetJni.cpp:287-305 | For every schema position: fails as the tree prune of a value does, or appends one leaf and its chunk |
| `ParquetPruner.SchemaFilter.FilterStruct` | src/main/cpp/src/NativeParquetJni.cpp:211-281 | Placeholder, per-child counting and the final pop together append the flattening of the pruned struct, or nothing if no field matched |
| `ParquetPruner.SchemaFilter.FilterList` | src/main/cpp/src/NativeParquetJni.cpp:310-408 | The list-shape rules: one subtree consumed and the pruned list appended, or the same failure |
| `ParquetPruner.SchemaFilter.FilterMap` | src/main/cpp/src/NativeParquetJni.cpp:413-484 | The same for maps |
| `ParquetPruner.SchemaFilter.FilterSchema` | src/main/cpp/src/NativeParquetJni.cpp:493-541 | The cursor-passing recursion refines the recursive prune of the tree at the cursor: same failures, exactly one subtree consumed, outputs extended by the depth-first list of what is kept |
| `ParquetConforms.ConformsExactly` | src/main/cpp/src/NativeParquetJni.cpp:211-541 | The filter accepts a tree if and only if it conforms to the request by the rules of the format: typed childless columns, structs whose requested fields conform, lists by the four compatibility rules, maps of one repeated group of one or two; a refusal names the first thing missing |
| `ParquetConforms.PruneRefuses` | src/main/cpp/src/NativeParquetJni.cpp:287-541 | Which of the twelve complaints comes first, and that there is none exactly when nothing is missing |
| `ParquetChosen.KeptIsChosen` | src/main/cpp/src/NativeParquetJni.cpp:211-541 | For every conforming tree the schema map holds exactly the positions the request chooses: requested fields by their folded names, all groups around elements, keys and values, and structs with something requested in them |
| `ParquetPruned.PruneShape` | src/main/cpp/src/NativeParquetJni.cpp:211-541 | A filter keeps something exactly when the request matches, and the recorded child counts are exact exactly when no element, key or value filter came out empty |
| `ParquetPruned.PrunedSchemaIsATree` | src/main/cpp/src/NativeParquetJni.cpp:780-788 | For every schema and request the filter accepts: the gathered list is the list of a well-formed tree if and only if the request matches something and no list or map lost the element, key or value it was counted for; it then reads back as the pruned tree |
| `ParquetPruned.KeptGathers` | src/main/cpp/src/NativeParquetJni.cpp:780-788 | What a kept tree gathers is always its depth-first list, and the list of some well-formed tree if and only if every recorded child count is exact |
| `ParquetPruned.EmptyElementIsNoTree` | src/main/cpp/src/NativeParquetJni.cpp:365-408 | A request and a schema whose filter succeeds, keeps a list without its element, and gathers no tree |
| `ParquetPruned.NoMatchIsNoTree` | src/main/cpp/src/NativeParquetJni.cpp:262-280 | A request that matches no column: the filter succeeds, nothing is lost, and what it gathers is empty, so no tree |
| `ParquetPruned.FilterPrunesTheTree` | src/main/cpp/src/NativeParquetJni.cpp:151-175 | Filtering the flattening of a well-formed tree is pruning that tree |
| `ParquetPruned.ChunkMapMeetsLeaves` | src/main/cpp/src/NativeParquetJni.cpp:294-304 | The chunk map is strictly ascending, has one entry per leaf of the pruned schema, and its entries are the chunks the kept leaves had |
| `ParquetPruned.PruneIsPlaced` | src/main/cpp/src/NativeParquetJni.cpp:187-206 | Kept nodes stand in schema order inside the consumed subtree, chunk cursors pass exactly its leaves, and each kept leaf carries the number of leaves before it |
| `ParquetPruned.GatherSchema` | src/main/cpp/src/NativeParquetJni.cpp:780-788 | Each new element is the one it maps to with its new child count |
| `ParquetFooter.KeptChunksExist` | src/main/cpp/src/NativeParquetJni.cpp:790-813 | Every chunk index is inside the columns of every row group of a valid file |
| `ParquetFooter.ReadAndFilter` | src/main/cpp/src/NativeParquetJni.cpp:742-817 | The whole footer: same failure as the tree prune, or the gathered schema and column orders, and exactly the selected row groups, each with its first row and with column k the original chunk of the k-th kept leaf |
| `PrunerBuilder.AddDepthFirst` | src/main/cpp/src/NativeParquetJni.cpp:547-590 | The loop with its two explicit stacks computes the stack machine |
| `PrunerBuilder.BuilderInvertsFlattening` | src/main/cpp/src/NativeParquetJni.cpp:547-590 | For every request with distinct sibling names the depth-first lists rebuild exactly that tree and both stacks end empty |
| `PrunerBuilder.ChildrenAreTheRequests` | src/main/cpp/src/NativeParquetJni.cpp:567 | The rebuilt node has exactly the requested names, each with its own tag and children |
| `PrunerBuilder.PrefixIsRejected` | src/main/cpp/src/NativeParquetJni.cpp:587-589 | Every proper prefix of such a list is rejected |
| `PrunerBuilder.AcceptedExactly` | src/main/cpp/src/NativeParquetJni.cpp:560-589 | For any list: accepted if and only if the number of missing subtrees first reaches zero at its end, rejected if some are missing at its end, run past its stacks otherwise |
| `RowGroups.Offset` | src/main/cpp/src/NativeParquetJni.cpp:616-624 | The offset is one of the two page offsets and no later than either |
| `RowGroups.FilterGroups` | src/main/cpp/src/NativeParquetJni.cpp:638-691 | The accumulating loop returns exactly the row groups whose midpoint is in range, in order, each with the rows of all original groups before it |
| `RowGroups.SelectedAreTaken` | src/main/cpp/src/NativeParquetJni.cpp:683-687 | A result belongs to a tile if and only if it is a row group with its midpoint in the tile and all rows before it |
| `RowGroups.MidPointHalves` | src/main/cpp/src/NativeParquetJni.cpp:683 | Twice the distance from the start of a row group to its midpoint is its size or one less |
| `RowGroups.StartsExactly` | src/main/cpp/src/NativeParquetJni.cpp:596-614 | A row group starts at the offset of its first column if there is column metadata, and otherwise at its file offset if that leaves room for its predecessor, else right behind it |
| `RowGroups.TakenOnce` | src/main/cpp/src/NativeParquetJni.cpp:684 | For every tiling that contains all midpoints each row group is taken by exactly one tile |
| `RowGroups.RepairedStarts` | src/main/cpp/src/NativeParquetJni.cpp:596-614 | Without column metadata, whatever the file offsets say, starts begin at 4 and each start leaves room for the row group before it |
| `RowGroups.TilesRebuildTheList` | src/main/cpp/src/NativeParquetJni.cpp:638-691 | In that mode with sizes set, the results of the tiles, in order, are the original list with its row counts |
| `RowGroups.JoinedInOrder` | src/main/cpp/src/NativeParquetJni.cpp:683-687 | The same for every file whose midpoints ascend |
| `RowGroups.AllOffsets` | src/main/cpp/src/NativeParquetJni.cpp:804-810 | Without a byte range the offsets are the running row counts |
| `RowGroups.FilterColumns` | src/main/cpp/src/NativeParquetJni.cpp:725-735 | In every row group column k is the column its chunk filter names, and nothing else changes |
| `PageablePool.AlignUpExact` | src/main/cpp/src/pageable_pool_resource.hpp:244-247 | The least multiple that is large enough, or zero when it does not fit a `size_t` |
| `PageablePool.CoalescedIsCanonical` | src/main/cpp/src/pageable_pool_resource.hpp:93-107 | A coalesced free list is determined by the bytes in it |
| `PageablePool.FreeListIsDetermined` | src/main/cpp/src/pageable_pool_resource.hpp:171-182 | The free list depends only on what is live, not on the order of calls |
| `PageablePool.AllReturned` | src/main/cpp/src/pageable_pool_resource.hpp:175-182 | When everything is returned there is a single free block of the pool size |
| `PageablePool.HistoryTiles` | src/main/cpp/src/pageable_pool_resource.hpp:155-182 | After any sequence of allocations, whatever their results, and matching frees the free and live blocks tile the pool |
| `PageablePool.FreeListIsCanonical` | src/main/cpp/src/pageable_pool_resource.hpp:155-182 | Two such sequences that leave the same allocations live leave the same free list, and one that leaves none has the pool as it was made |
| `PageablePool.FreeIsTheRest` | src/main/cpp/src/pageable_pool_resource.hpp:155-182 | The free bytes are exactly the pool bytes no live allocation holds |
| `PageablePool.AllocationTiles` | src/main/cpp/src/pageable_pool_resource.hpp:155-169 | Carving the front off a free block keeps the pool tiled by disjoint aligned blocks |
| `PageablePool.ReturnTiles` | src/main/cpp/src/pageable_pool_resource.hpp:175-182 | Giving an allocation back keeps it tiled |
| `PageablePool.PageablePoolResource.constructor` | src/main/cpp/src/pageable_pool_resource.hpp:121-137 | The start of every such sequence: one free block of the pool size, nothing live, tiled |
| `PageablePool.PageablePoolResource.AllocateSync` | src/main/cpp/src/pageable_pool_resource.hpp:155-169 | A step of such a sequence: null for zero bytes, exhausted if and only if no free block holds the aligned size, otherwise the front of a best-fitting block, at an address not live before; the tiling is kept |
| `PageablePool.PageablePoolResource.DeallocateSync` | src/main/cpp/src/pageable_pool_resource.hpp:175-182 | A step of such a sequence: exactly the bytes of the allocation are free again and it is no longer live; the tiling is kept |
| `PageablePool.CoalescingFreeList.GetBlock` | src/main/cpp/src/pageable_pool_resource.hpp:93-107 | Takes out a smallest block that is large enough, if there is one |
| `PageablePool.CoalescingFreeList.Insert` | src/main/cpp/src/pageable_pool_resource.hpp:171-173 | Adds exactly the bytes of the block and leaves nothing to coalesce |
| `ConfigString.StandsOnce` | src/main/cpp/profiler/nvtxw3.h:196-225 | A line holds at most one pair: where key, `=` and value stand is unique |
| `ConfigString.ReadLine` | src/main/cpp/profiler/nvtxw3.h:184-228 | The nested trimming loops find the pair of the line and the start of the next, and the pairs of the config are this one followed by those of the rest |
| `ConfigString.ConsumeConfigString` | src/main/cpp/profiler/nvtxw3.h:174-234 | The consumer sees exactly the pairs of the config, in order, until it asks to stop |
| `ConfigString.KVPConsumerForSimplify` | src/main/cpp/profiler/nvtxw3.cpp:485-518 | Prints one pair behind the others although the ranges overlap, and leaves the unread text alone unless the newline lands past the read cursor |
| `ConfigString.SimplifyConfigHeapString` | src/main/cpp/profiler/nvtxw3.cpp:520-528 | The buffer holds the canonical text of the original pairs, terminated inside the original length; the write cursor passes the read cursor if and only if the config is tight |
| `ConfigString.FitsUnlessTight` | src/main/cpp/profiler/nvtxw3.cpp:512 | The canonical text is longer than the config if and only if every line is already canonical, with one break between neighbours and none after the last |
| `ConfigString.TrailingBreakIsNotTight` | src/main/cpp/profiler/nvtxw3.cpp:512 | A config that is empty or ends in a line break is always safe |
| `ConfigString.TightExample` | src/main/cpp/profiler/nvtxw3.cpp:512 | The config `a=b` is not |
| `ConfigString.SimplifiedReadsTheSame` | src/main/cpp/profiler/nvtxw3.h:119-123 | The simplified text has the same ordered pairs as the original |
| `ConfigString.SimplifyIsIdempotent` | src/main/cpp/profiler/nvtxw3.h:119-123 | Simplifying again changes nothing |
| `HostTable.SizesAreExact` | src/main/cpp/src/HostTableJni.cpp:63-84 | The size functions report exactly the bytes the writer has to write |
| `HostTable.BuildHostColumnView` | src/main/cpp/src/HostTableJni.cpp:94-125 | Succeeds if and only if the column size fits behind the cursor; then it writes exactly the image of the column and its children there, appends its view, and touches nothing else; otherwise the outcome is that of the first column that does not fit |
| `HostTable.PastEndExactly` | src/main/cpp/src/HostTableJni.cpp:102-112 | The unchecked padding runs over the end of the buffer if and only if the first column that does not fit has room for its data but not for the zeros behind it |
| `HostTable.ToHostTable` | src/main/cpp/src/HostTableJni.cpp:127-140 | Succeeds if and only if the buffer has `host_buffer_size` bytes, and then holds the image of the table; otherwise fails as the first column that does not fit |
| `HostTable.LayoutsShow` | src/main/cpp/src/HostTableJni.cpp:94-140 | Through the views the buffer shows every byte and bitmask of every column: nothing was overwritten |
| `HostTable.AllRegionsAreDisjoint` | src/main/cpp/src/HostTableJni.cpp:94-125 | All data and mask regions are disjoint, in order, and inside `host_buffer_size` bytes |
| `HostTable.LayoutsAreAligned` | src/main/cpp/src/HostTableJni.cpp:42-43 | In an aligned buffer every data and mask pointer is 64-byte aligned if bitmask sizes are multiples of 64 |
| `HostTable.MaskMovesLikeData` | src/main/cpp/src/HostTableJni.cpp:142-147 | The mask pointer, moved by an unsigned quotient, moves like the data pointer modulo 2^64 if and only if the offset, of either sign, is a multiple of the mask word |
| `HostTable.OffsetCheckIsExact` | src/main/cpp/src/HostTableJni.cpp:215-216 | The argument check accepts exactly those offsets |
| `HostTable.AllAddressesMove` | src/main/cpp/src/HostTableJni.cpp:142-157 | An accepted offset moves every address of the tree by the same amount modulo 2^64 |
| `HostTable.MovedLayouts` | src/main/cpp/src/HostTableJni.cpp:142-157 | Moving the views of a table gives the views of the table at the moved address |
| `HostTable.RelocatedShows` | src/main/cpp/src/HostTableJni.cpp:142-175 | After the buffer is copied, the moved views show the same table on the device |

## Left out

Memory scheduling:

- A thread table entry is a value in the `threads` map, so pointers into the table are not modelled; where the source dereferences an
  iterator after `wait` although the thread may be gone, the model treats the thread as not registered. `Erasure.SleeperErasedExactly` says
  which steps bring that about.
- `AdaptorRuns.Enabled` takes from the callers that thread ids are not -1, that task ids are at least 0, and that a thread reports once
  on each allocation, innermost first and with the kind and the recursion answer it was begun with.
- Waiting on the pool, spilling and JVM-blocked threads come in as parameters of steps; logging, JNI and exception construction are outcomes or nothing.
- `all_done` and shutdown depend on a timeout; injected OOMs and exceptions are test hooks; both are not modelled.
- `start_retry_block`, `end_retry_block`, the wall-clock metrics and the resetting metric getters (lines 739-751, 1010-1031) are not modelled.
- The allocation loops at lines 2115-2143 are the clients of the modelled steps, not steps of their own.
- `task_done` visits threads in ascending order in both loops; the second loop of the source has no fixed order.
- Counters, byte counts and priorities are unbounded; running out of 64-bit priorities is not modelled.
- Pool-thread metrics are added to every task on purpose and are not claimed to be conserved.
- Escalation.BoundedEscalation: the constant covers phases that start without nested allocations; nested ones are covered by the total rank of `Escalation.PhaseDescends`.

Parquet:

- Case folding is an arbitrary function on names; its failures, Thrift and encryption are not part of this model.
- Child counts in a file schema are at least 0 where subtrees are skipped (`ParquetSchema.Countable`); the walk over negative counts is only given as a function.
- ParquetPruned.ChunkMapMeetsLeaves: needs that leaves have no children, as in every valid file; a typed repeated child of a map would be counted as a chunk.
- The nodes of the request tree under construction are named by paths instead of pointers.
- 64-bit overflow of offsets and row counts is not modelled.

Smaller parts:

- The free list and the constants of rmm and cudf are not part of the repository; the free list is written from the contract the pool relies on, with an alignment of 256 bytes.
- An empty pool registers a block of size zero in the source; the model starts it with an empty free list.
- Pre-touching pages, `posix_memalign`, device copies and locking of the pool are effects of the system; a copy is an assignment of bytes.
- `nvtxwConsumeConfigString` returns at once for null arguments; the model has no null pointers. The final `realloc` and the other consumers of the parser are not modelled.
- Sizes in `HostTable` are unbounded, columns are not sliced, and the bytes behind a data pointer are as many as its type says.
- Library loading, the profiler, NVML, CUDA kernels, benchmarks and CI are not modelled: input and output, or bodies that are not in these files.
