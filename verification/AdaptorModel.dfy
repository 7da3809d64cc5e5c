/**
 * What each critical section of `spark_resource_adaptor_impl` does, as a function of its state.
 * The class in SparkResourceAdaptor.dfy is proved to compute these functions.
 */
module AdaptorModel {
  import opened Common
  import opened TaskPriority
  import opened ThreadState
  import opened Deadlock

  /** Which call a sleeping thread goes on with when it wakes. */
  datatype Call = UntilReady | ForAlloc(isCpu: bool)

  /** A thread inside `wake_condition->wait`; `notified` once somebody has called `notify_all`. */
  datatype Waiter = Waiter(notified: bool, call: Call)

  /** An allocation between its pre and its post call. */
  datatype Frame = Frame(isCpu: bool, blocking: bool, recursive: bool)

  /**
   * The fields of the adaptor and the shared priority tracker, and three records of where the client
   * threads are: `waiters` sleep, `inFlight` stacks the allocations a thread has begun under its present
   * registration, and `orphaned` those it began before that, unregistered or under an earlier one.
   */
  datatype Adaptor = Adaptor(
    threads: Threads,
    taskToThreads: map<int, set<int>>,
    taskToMetrics: map<int, Metrics>,
    gpuAllocatedBytes: int,
    tracker: Tracker,
    waiters: map<int, Waiter>,
    inFlight: map<int, seq<Frame>>,
    orphaned: map<int, seq<Frame>>)

  const EMPTY := Adaptor(map[], map[], map[], 0, FRESH, map[], map[], map[])

  datatype Error =
    | RetryOom(isCpu: bool)
    | SplitAndRetryOom(isCpu: bool)
    | RetryLimitExceeded
    | Removed
    | InvalidArgument
    | InternalError

  datatype Outcome = Done(flag: bool) | Waits | Threw(error: Error)

  /** How often a thread may be told to retry before it gets a plain out-of-memory error. */
  const RETRY_LIMIT: int := 500

  // ---- small steps ----

  function Notify(waiters: map<int, Waiter>, id: int): map<int, Waiter> {
    if id in waiters then waiters[id := waiters[id].(notified := true)] else waiters
  }

  ghost function With(a: Adaptor, id: int, t: Thread): Adaptor {
    a.(threads := a.threads[id := t])
  }

  /** A state change that another thread makes, with the wake-up that goes with it. */
  ghost function Move(a: Adaptor, id: int, s: State): Adaptor
    requires id in a.threads
  {
    With(a, id, a.threads[id].(state := s)).(waiters := Notify(a.waiters, id))
  }

  ghost function FramesOf(a: Adaptor, id: int): seq<Frame> {
    if id in a.inFlight then a.inFlight[id] else []
  }

  ghost function OrphansOf(a: Adaptor, id: int): seq<Frame> {
    if id in a.orphaned then a.orphaned[id] else []
  }

  /** All allocations a thread has open, the innermost one last. */
  ghost function OpenFrames(a: Adaptor, id: int): seq<Frame> {
    OrphansOf(a, id) + FramesOf(a, id)
  }

  /** The record goes away; what the thread has open stays open, but not under a registration. */
  ghost function Erase(a: Adaptor, id: int): Adaptor {
    a.(threads := a.threads - {id}, inFlight := a.inFlight - {id}, orphaned := a.orphaned[id := OpenFrames(a, id)])
  }

  ghost function Push(a: Adaptor, id: int, f: Frame): Adaptor {
    a.(inFlight := a.inFlight[id := FramesOf(a, id) + [f]])
  }

  /** An allocation by a thread that is not registered. */
  ghost function PushOrphan(a: Adaptor, id: int, f: Frame): Adaptor {
    a.(orphaned := a.orphaned[id := OrphansOf(a, id) + [f]])
  }

  /** The innermost open allocation is over. */
  ghost function Pop(a: Adaptor, id: int): Adaptor {
    var frames, orphans := FramesOf(a, id), OrphansOf(a, id);
    if frames != [] then a.(inFlight := a.inFlight[id := frames[..|frames| - 1]])
    else if orphans != [] then a.(orphaned := a.orphaned[id := orphans[..|orphans| - 1]])
    else a
  }

  ghost function Sleep(a: Adaptor, id: int, call: Call): Adaptor {
    a.(waiters := a.waiters[id := Waiter(false, call)])
  }

  // ---- metrics ----

  function Lookup(metrics: map<int, Metrics>, task: int): Metrics {
    if task in metrics then metrics[task] else NO_METRICS
  }

  function AddToEach(metrics: map<int, Metrics>, tasks: set<int>, m: Metrics): map<int, Metrics> {
    map task | task in metrics.Keys + tasks ::
      if task in tasks then AddMetrics(Lookup(metrics, task), m) else metrics[task]
  }

  ghost function CheckpointMetrics(a: Adaptor, id: int): Adaptor
    requires id in a.threads
  {
    var t := a.threads[id];
    var tasks := if IsPool(t) then t.poolTaskIds else {t.taskId};
    With(a, id, t.(metrics := NO_METRICS)).(taskToMetrics := AddToEach(a.taskToMetrics, tasks, t.metrics))
  }

  // ---- registration ----

  /** Deregister one thread; the flag says that a running thread was removed. */
  ghost function RemoveAssociation(a: Adaptor, id: int, task: int): (Adaptor, bool) {
    if id !in a.threads then (a, false)
    else
      var b := CheckpointMetrics(a, id);
      var t := b.threads[id];
      var c := if task >= 0 && IsPool(t) then With(b, id, t.(poolTaskIds := t.poolTaskIds - {task})) else b;
      var leaves := task < 0 || (if IsPool(t) then c.threads[id].poolTaskIds == {} else t.taskId == task);
      if !leaves then (c, false)
      else
        var d := if task >= 0 && task in c.taskToThreads
                 then c.(taskToThreads := c.taskToThreads[task := c.taskToThreads[task] - {id}])
                 else c;
        if IsBlocked(t.state) then (Move(d, id, RemoveThrow), false)
        else (Erase(d, id), t.state.Running?)
  }

  /** Set the threads `ids` running and wake them. */
  ghost function Rouse(a: Adaptor, ids: set<int>): Adaptor {
    a.(threads := map id | id in a.threads ::
         if id in ids then a.threads[id].(state := Running) else a.threads[id],
       waiters := map id | id in a.waiters ::
         if id in ids && id in a.threads then a.waiters[id].(notified := true) else a.waiters[id])
  }

  ghost function AnyBufn(ts: Threads): set<int> {
    set id | id in ts && (ts[id].state.Bufn? || ts[id].state.BufnThrow? || ts[id].state.BufnWait?)
  }

  ghost function WakeAfterTaskFinishes(a: Adaptor): Adaptor {
    if InState(a.threads, Blocked) != {} then Rouse(a, InState(a.threads, Blocked))
    else Rouse(a, AnyBufn(a.threads))
  }

  ghost function WakeIf(r: (Adaptor, bool)): Adaptor {
    if r.1 then WakeAfterTaskFinishes(r.0) else r.0
  }

  ghost function StartDedicated(a: Adaptor, id: int, task: int): (Adaptor, Outcome) {
    var moved := id in a.threads && a.threads[id].taskId >= 0 && a.threads[id].taskId != task;
    var b := if moved then RemoveAssociation(a, id, a.threads[id].taskId).0 else a;
    if id in b.threads && (b.threads[id].state.RemoveThrow? || b.threads[id].taskId != task) then
      (b, Threw(InvalidArgument))
    else
      var c := if id in b.threads then b else With(b, id, NewThread(task, false));
      var listed := if task in c.taskToThreads then c.taskToThreads[task] else {};
      (c.(taskToThreads := c.taskToThreads[task := listed + {id}]), Done(true))
  }

  ghost function PoolWorking(a: Adaptor, isForShuffle: bool, id: int, tasks: set<int>): (Adaptor, Outcome) {
    if id in a.threads && (a.threads[id].taskId != -1 || a.threads[id].state.RemoveThrow?
                           || a.threads[id].isForShuffle != isForShuffle) then
      (a, Threw(InvalidArgument))
    else
      var b := if id in a.threads then a else With(a, id, NewThread(-1, isForShuffle));
      var c := CheckpointMetrics(b, id);
      var t := c.threads[id];
      (With(c, id, t.(poolTaskIds := t.poolTaskIds + tasks)), Done(true))
  }

  ghost function PoolFinished(a: Adaptor, id: int, tasks: set<int>): Adaptor {
    if id !in a.threads then a
    else
      var b := CheckpointMetrics(a, id);
      var t := b.threads[id];
      var c := With(b, id, t.(poolTaskIds := t.poolTaskIds - tasks));
      if t.poolTaskIds - tasks == {} then WakeIf(RemoveAssociation(c, id, -1)) else c
  }

  ghost function RemoveThread(a: Adaptor, id: int, task: int): Adaptor {
    WakeIf(RemoveAssociation(a, id, task))
  }

  ghost function RemoveAll(a: Adaptor, ids: set<int>, task: int): (Adaptor, bool)
    decreases |ids|
  {
    if ids == {} then (a, false)
    else
      var first := RemoveAssociation(a, MinOf(ids), task);
      var rest := RemoveAll(first.0, ids - {MinOf(ids)}, task);
      (rest.0, first.1 || rest.1)
  }

  /** Take `task` from a pool thread, and deregister the thread when nothing is left. */
  ghost function DropPoolTask(a: Adaptor, id: int, task: int): (Adaptor, bool) {
    if id in a.threads && task in a.threads[id].poolTaskIds then
      var t := a.threads[id];
      var b := With(a, id, t.(poolTaskIds := t.poolTaskIds - {task}));
      if t.poolTaskIds - {task} == {} then RemoveAssociation(b, id, task) else (b, false)
    else (a, false)
  }

  ghost function DropPoolTaskAll(a: Adaptor, ids: set<int>, task: int): (Adaptor, bool)
    decreases |ids|
  {
    if ids == {} then (a, false)
    else
      var first := DropPoolTask(a, MinOf(ids), task);
      var rest := DropPoolTaskAll(first.0, ids - {MinOf(ids)}, task);
      (rest.0, first.1 || rest.1)
  }

  ghost function TaskDone(a: Adaptor, task: int): Adaptor {
    var r := if task in a.taskToThreads then RemoveAll(a, a.taskToThreads[task], task) else (a, false);
    var s := DropPoolTaskAll(r.0, r.0.threads.Keys, task);
    var b := WakeIf((s.0, r.1 || s.1));
    b.(taskToThreads := b.taskToThreads - {task})
  }

  ghost function PoolStatus(a: Adaptor, id: int, poolBlocked: bool): (Adaptor, Outcome) {
    if id !in a.threads || a.threads[id].taskId < 0 then (a, Threw(InvalidArgument))
    else (With(a, id, a.threads[id].(poolBlocked := poolBlocked)), Done(true))
  }

  ghost function SpillRange(a: Adaptor, id: int, spilling: bool): Adaptor {
    if id in a.threads then With(a, id, a.threads[id].(isInSpilling := spilling)) else a
  }

  ghost function RemoveTaskMetrics(a: Adaptor, task: int): Adaptor {
    a.(taskToMetrics := a.taskToMetrics - {task})
  }

  // ---- waking and breaking deadlocks ----

  ghost function BlockedFor(ts: Threads, isCpu: bool): set<int> {
    set id | id in ts && ts[id].state.Blocked? && ts[id].isCpuAlloc == isCpu
  }

  /** Ask for the priorities of `ids` in ascending thread order. */
  ghost function Ask(a: Adaptor, ids: set<int>): (b: Adaptor)
    requires Valid(a.tracker) && ids <= a.threads.Keys
    ensures Valid(b.tracker) && Extends(a.tracker, b.tracker) && AllIssued(b.threads, b.tracker, ids)
    ensures b == a.(tracker := b.tracker)
  {
    IssueAllIssues(a.threads, a.tracker, ids);
    a.(tracker := IssueAll(a.threads, a.tracker, ids))
  }

  ghost function WakeNext(a: Adaptor, isCpu: bool): (b: Adaptor)
    requires Valid(a.tracker)
    ensures Valid(b.tracker)
  {
    var ids := BlockedFor(a.threads, isCpu);
    var b := Ask(a, ids);
    if ids == {} then b else Move(b, Highest(b.threads, b.tracker, ids), Running)
  }

  /** Let a blocked thread try its allocation once more before it goes to BUFN. */
  ghost function Retry(a: Adaptor, id: int): Adaptor
    requires id in a.threads
  {
    With(a, id, a.threads[id].(isRetryAllocBeforeBufn := true, state := Running)).(waiters := Notify(a.waiters, id))
  }

  /** Send the lowest blocked thread back; the last blocked thread retries its allocation once. */
  ghost function BreakBlocked(a: Adaptor): (b: Adaptor)
    requires Valid(a.tracker)
    ensures Valid(b.tracker)
  {
    var ids := InState(a.threads, Blocked);
    var b := Ask(a, ids);
    if ids == {} then b
    else
      var id := Lowest(b.threads, b.tracker, ids);
      if |ids| == 1 then Retry(b, id) else Move(b, id, BufnThrow)
  }

  /** Tell the highest thread that waits until further notice to split its input. */
  ghost function BreakBufn(a: Adaptor): (b: Adaptor)
    requires Valid(a.tracker)
    ensures Valid(b.tracker)
  {
    var ids := InState(a.threads, Bufn);
    var b := Ask(a, ids);
    if ids == {} then b else Move(b, Highest(b.threads, b.tracker, ids), SplitThrow)
  }

  ghost function CheckForBufn(a: Adaptor, java: JavaBlocked): (b: Adaptor)
    requires Valid(a.tracker)
    ensures Valid(b.tracker)
  {
    if !Deadlocked(a.threads, java) then a
    else if AllBufnTest(a.threads, java) then BreakBufn(BreakBlocked(a))
    else BreakBlocked(a)
  }

  // ---- blocking ----

  /** Count a retry or split exception; the watchdog turns too many into a plain out-of-memory error. */
  ghost function ThrowOom(a: Adaptor, id: int, split: bool): (Adaptor, Outcome)
    requires id in a.threads
  {
    var t := a.threads[id];
    var m := if split then t.metrics.(numSplitRetryThrow := t.metrics.numSplitRetryThrow + 1)
             else t.metrics.(numRetryThrow := t.metrics.numRetryThrow + 1);
    if t.numTimesRetried + 1 > RETRY_LIMIT then (With(a, id, t.(metrics := m)), Threw(RetryLimitExceeded))
    else
      (With(a, id, t.(metrics := m, numTimesRetried := t.numTimesRetried + 1)),
       Threw(if split then SplitAndRetryOom(t.isCpuAlloc) else RetryOom(t.isCpuAlloc)))
  }

  /** One pass of the blocking loop for a thread that is not about to become BUFN. */
  ghost function Settle(a: Adaptor, id: int): (Adaptor, Outcome) {
    if id !in a.threads then (a, Done(true))
    else
      var t := a.threads[id];
      if IsBlocked(t.state) then (a, Waits)
      else if t.state.BufnThrow? then ThrowOom(With(a, id, t.(state := BufnWait)), id, false)
      else if t.state.SplitThrow? then ThrowOom(With(a, id, t.(state := Running)), id, true)
      else if t.state.RemoveThrow? then (Erase(a, id), Threw(Removed))
      else (a, Done(true))
  }

  /** The blocking loop up to its next wait, its end, or an exception. */
  ghost function BlockLoop(a: Adaptor, id: int): (Adaptor, Outcome)
    requires Valid(a.tracker)
  {
    if id in a.threads && a.threads[id].state.BufnWait?
    then Settle(CheckForBufn(With(a, id, a.threads[id].(state := Bufn)), None), id)
    else Settle(a, id)
  }

  ghost function BlockUntilReady(a: Adaptor, id: int): (Adaptor, Outcome)
    requires Valid(a.tracker)
  {
    var r := BlockLoop(a, id);
    if r.1.Waits? then (Sleep(r.0, id, UntilReady), Waits) else r
  }

  // ---- allocation ----

  ghost function EnterAlloc(a: Adaptor, id: int, isCpu: bool, blocking: bool): (Adaptor, Outcome) {
    if id !in a.threads then (PushOrphan(a, id, Frame(isCpu, blocking, false)), Done(false))
    else if a.threads[id].state.Running? then
      (Push(With(a, id, a.threads[id].(state := Alloc, isCpuAlloc := isCpu)), id, Frame(isCpu, blocking, false)),
       Done(false))
    else (a, Threw(InvalidArgument))
  }

  ghost function BlockThenAlloc(a: Adaptor, id: int, isCpu: bool): (Adaptor, Outcome)
    requires Valid(a.tracker)
  {
    var r := BlockLoop(a, id);
    if r.1.Waits? then (Sleep(r.0, id, ForAlloc(isCpu)), Waits)
    else if r.1.Done? then EnterAlloc(r.0, id, isCpu, true)
    else r
  }

  /** `Done(true)` means the thread was already allocating: a recursive allocation. */
  ghost function PreAlloc(a: Adaptor, id: int, isCpu: bool, blocking: bool): (Adaptor, Outcome)
    requires Valid(a.tracker)
  {
    if id !in a.threads then (PushOrphan(a, id, Frame(isCpu, blocking, false)), Done(false))
    else if IsAllocating(a.threads[id].state) then
      if isCpu && blocking then (a, Threw(InvalidArgument))
      else (Push(a, id, Frame(isCpu, blocking, true)), Done(true))
    else if blocking then BlockThenAlloc(a, id, isCpu)
    else EnterAlloc(a, id, isCpu, false)
  }

  /** A sleeping thread wakes, looks at its state, and goes back to sleep or on with its call. */
  ghost function Resume(a: Adaptor, id: int): (Adaptor, Outcome)
    requires Valid(a.tracker) && id in a.waiters
  {
    if id in a.threads && IsBlocked(a.threads[id].state) then (Sleep(a, id, a.waiters[id].call), Waits)
    else
      var b := a.(waiters := a.waiters - {id});
      match a.waiters[id].call
      case UntilReady => BlockUntilReady(b, id)
      case ForAlloc(isCpu) => BlockThenAlloc(b, id, isCpu)
  }

  ghost function CountAlloc(t: Thread, gpuAllocatedBytes: int, bytes: int): Thread {
    var m := t.metrics;
    var m' := if t.isInSpilling then m
              else m.(activeFootprint := m.activeFootprint + bytes,
                      maxFootprint := Max(m.activeFootprint + bytes, m.maxFootprint));
    t.(metrics := m'.(maxAllocated := Max(m.maxAllocated, gpuAllocatedBytes + bytes)))
  }

  /** The bookkeeping of a successful allocation by a registered thread that is allocating. */
  ghost function RecordSuccess(a: Adaptor, id: int, isCpu: bool, bytes: nat): Adaptor
    requires id in a.threads
  {
    var t := a.threads[id].(isRetryAllocBeforeBufn := false, state := Running, isCpuAlloc := false);
    if isCpu then With(a, id, t)
    else With(a, id, CountAlloc(t, a.gpuAllocatedBytes, bytes)).(gpuAllocatedBytes := a.gpuAllocatedBytes + bytes)
  }

  ghost function PostAllocSuccess(a0: Adaptor, id: int, isCpu: bool, recursive: bool, bytes: nat): (Adaptor, Outcome)
    requires Valid(a0.tracker)
  {
    var a := Pop(a0, id);
    if recursive || id !in a.threads then (a, Done(true))
    else
      var t := a.threads[id].(isRetryAllocBeforeBufn := false);
      if !IsAllocating(t.state) then (WakeNext(With(a, id, t), isCpu), Done(true))
      else if t.isCpuAlloc != isCpu then (With(a, id, t), Threw(InvalidArgument))
      else (WakeNext(RecordSuccess(a, id, isCpu, bytes), isCpu), Done(true))
  }

  /** The state of a thread whose allocation attempt failed. */
  ghost function AfterFailure(t: Thread, isOom: bool, blocking: bool): Thread
    requires IsAllocating(t.state)
  {
    if t.state.AllocFree? then t.(state := Running)
    else if isOom && t.isRetryAllocBeforeBufn then t.(isRetryAllocBeforeBufn := false, state := BufnThrow)
    else if isOom && blocking then t.(state := Blocked)
    else t.(state := Running)
  }

  /** The bookkeeping of a failed allocation by a registered thread that is allocating. */
  ghost function RecordFailure(a: Adaptor, id: int, isOom: bool, blocking: bool): Adaptor
    requires id in a.threads && IsAllocating(a.threads[id].state)
  {
    var u := AfterFailure(a.threads[id], isOom, blocking);
    With(a, id, u).(waiters := if u.state.BufnThrow? then Notify(a.waiters, id) else a.waiters)
  }

  /** `Done(true)` tells the caller to try again. */
  ghost function PostAllocFailed(a0: Adaptor, id: int, isCpu: bool, isOom: bool, blocking: bool, recursive: bool)
    : (Adaptor, Outcome)
    requires Valid(a0.tracker)
  {
    var a := Pop(a0, id);
    if recursive || id !in a.threads then (CheckForBufn(a, None), Done(false))
    else
      var t := a.threads[id];
      if t.isCpuAlloc != isCpu then (a, Threw(InvalidArgument))
      else if !IsAllocating(t.state) then (a, Threw(InternalError))
      else (CheckForBufn(RecordFailure(a, id, isOom, blocking), None), Done(true))
  }

  /** Other allocations of the same kind learn that memory was freed while they were trying. */
  ghost function MarkFreed(ts: Threads, id: int, isCpu: bool): Threads {
    map x | x in ts ::
      if x != id && ts[x].state.Alloc? && ts[x].isCpuAlloc == isCpu then ts[x].(state := AllocFree) else ts[x]
  }

  /** The bookkeeping of a free; frees by unregistered threads and of CPU memory are not counted. */
  ghost function RecordFree(a: Adaptor, id: int, isCpu: bool, bytes: nat): Adaptor {
    if id !in a.threads || isCpu then a
    else
      var t := a.threads[id];
      var b := if t.isInSpilling then a
               else With(a, id, t.(metrics := t.metrics.(activeFootprint := t.metrics.activeFootprint - bytes)));
      b.(gpuAllocatedBytes := b.gpuAllocatedBytes - bytes)
  }

  ghost function Dealloc(a: Adaptor, id: int, isCpu: bool, bytes: nat): Adaptor
    requires Valid(a.tracker)
  {
    var b := RecordFree(a, id, isCpu, bytes);
    WakeNext(b.(threads := MarkFreed(b.threads, id, isCpu)), isCpu)
  }

  /** What `get_max_gpu_task_memory` reports, for the footprint of a task. */
  ghost function SumFootprints(ts: Threads, ids: set<int>): int
    decreases |ids|
  {
    if ids == {} then 0
    else
      var id := MinOf(ids);
      (if id in ts then ts[id].metrics.maxFootprint else 0) + SumFootprints(ts, ids - {id})
  }

  ghost function ReportedFootprint(a: Adaptor, task: int): int {
    SumFootprints(a.threads, if task in a.taskToThreads then a.taskToThreads[task] else {})
    + Lookup(a.taskToMetrics, task).maxFootprint
  }
}
