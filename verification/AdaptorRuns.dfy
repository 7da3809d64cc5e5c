/** All interleavings of the adaptor's critical sections, and the invariant they keep. */
module AdaptorRuns {
  import opened Common
  import TP = TaskPriority
  import opened ThreadState
  import opened Deadlock
  import opened AdaptorModel
  import opened Nudge

  /** One critical section; `id` is the calling thread where the source asks `pthread_self`. */
  datatype Action =
    | Register(id: int, task: int)
    | JoinPool(isForShuffle: bool, id: int, tasks: set<int>)
    | LeavePool(id: int, tasks: set<int>)
    | Deregister(id: int, task: int)
    | FinishTask(task: int)
    | WaitOnPool(id: int, poolBlocked: bool)
    | Spill(id: int, spilling: bool)
    | DropMetrics(task: int)
    | ForgetPriority(task: int)
    | Watchdog(javaBlocked: set<int>)
    | Allocate(id: int, isCpu: bool, blocking: bool)
    | Succeed(id: int, isCpu: bool, recursive: bool, bytes: nat)
    | Fail(id: int, isCpu: bool, isOom: bool, blocking: bool, recursive: bool)
    | Free(id: int, isCpu: bool, bytes: nat)
    | AwaitReady(id: int)
    | Wake(id: int)

  /** A thread reports on the innermost allocation it has open, whenever and however that was begun. */
  ghost predicate Reports(a: Adaptor, id: int, isCpu: bool, recursive: bool) {
    var frames := OpenFrames(a, id);
    frames != [] && frames[|frames| - 1].isCpu == isCpu && frames[|frames| - 1].recursive == recursive
  }

  /** A sleeping thread does nothing but wake; ids are what the source takes for granted. */
  ghost predicate Enabled(a: Adaptor, act: Action) {
    match act
    case Register(id, task) => id != -1 && task >= 0
    case JoinPool(_, id, tasks) => id != -1
    case FinishTask(task) => task >= 0
    case Allocate(id, _, _) => id !in a.waiters
    case Succeed(id, isCpu, recursive, _) => id !in a.waiters && Reports(a, id, isCpu, recursive)
    case Fail(id, isCpu, _, _, recursive) => id !in a.waiters && Reports(a, id, isCpu, recursive)
    case Free(id, _, _) => id !in a.waiters
    case AwaitReady(id) => id !in a.waiters
    case Wake(id) => id in a.waiters
    case _ => true
  }

  ghost function Step(a: Adaptor, act: Action): (Adaptor, Outcome)
    requires TP.Valid(a.tracker) && Enabled(a, act)
  {
    match act
    case Register(id, task) => StartDedicated(a, id, task)
    case JoinPool(isForShuffle, id, tasks) => PoolWorking(a, isForShuffle, id, tasks)
    case LeavePool(id, tasks) => (PoolFinished(a, id, tasks), Done(true))
    case Deregister(id, task) => (RemoveThread(a, id, task), Done(true))
    case FinishTask(task) => (TaskDone(a, task), Done(true))
    case WaitOnPool(id, poolBlocked) => PoolStatus(a, id, poolBlocked)
    case Spill(id, spilling) => (SpillRange(a, id, spilling), Done(true))
    case DropMetrics(task) => (RemoveTaskMetrics(a, task), Done(true))
    case ForgetPriority(task) => (a.(tracker := a.tracker.(priorities := a.tracker.priorities - {task})), Done(true))
    case Watchdog(javaBlocked) => (CheckForBufn(a, Some(javaBlocked)), Done(true))
    case Allocate(id, isCpu, blocking) => PreAlloc(a, id, isCpu, blocking)
    case Succeed(id, isCpu, recursive, bytes) => PostAllocSuccess(a, id, isCpu, recursive, bytes)
    case Fail(id, isCpu, isOom, blocking, recursive) => PostAllocFailed(a, id, isCpu, isOom, blocking, recursive)
    case Free(id, isCpu, bytes) => (Dealloc(a, id, isCpu, bytes), Done(true))
    case AwaitReady(id) => BlockUntilReady(a, id)
    case Wake(id) => Resume(a, id)
  }

  // ---- the invariant ----

  /** The open allocations of a thread match its state: one proper one, then recursive ones. */
  ghost predicate FramesMatch(t: Thread, frames: seq<Frame>) {
    if IsAllocating(t.state)
    then && frames != [] && !frames[0].recursive && frames[0].isCpu == t.isCpuAlloc
         && forall i :: 0 < i < |frames| ==> frames[i].recursive
    else frames == []
  }

  ghost predicate MetricsOk(m: Metrics) {
    m.activeFootprint <= m.maxFootprint && 0 <= m.maxFootprint
  }

  /** A dedicated thread that is not on its way out is listed under its task and has no pool tasks. */
  ghost predicate Listed(taskToThreads: map<int, set<int>>, id: int, t: Thread) {
    !IsPool(t) ==>
      && t.poolTaskIds == {}
      && (!t.state.RemoveThrow? ==> t.taskId in taskToThreads && id in taskToThreads[t.taskId])
  }

  ghost predicate ThreadOk(id: int, t: Thread) {
    && id != -1 && t.taskId >= -1
    && (t.isRetryAllocBeforeBufn ==> t.state.Running? || IsAllocating(t.state))
    && MetricsOk(t.metrics)
  }

  /** Nobody sleeps through a wake-up: a sleeper is blocked, or a notification is pending for it. */
  ghost predicate NoLostWakeup(a: Adaptor) {
    forall id :: id in a.waiters ==>
      || a.waiters[id].notified
      || (id in a.threads && IsBlocked(a.threads[id].state))
  }

  ghost predicate Inv(a: Adaptor) {
    && TP.Valid(a.tracker)
    && (forall id :: id in a.threads ==> ThreadOk(id, a.threads[id]))
    && (forall id :: id in a.threads ==> FramesMatch(a.threads[id], FramesOf(a, id)))
    && (forall id :: id in a.threads ==> Listed(a.taskToThreads, id, a.threads[id]))
    && (forall id :: id in a.threads && id in a.waiters ==> !IsAllocating(a.threads[id].state))
    && a.inFlight.Keys <= a.threads.Keys
    && (forall task :: task in a.taskToMetrics ==> MetricsOk(a.taskToMetrics[task]))
    && NoLostWakeup(a)
  }

  lemma {:induction false} InvEmpty()
    ensures Inv(EMPTY)
  {
  }

  lemma {:induction false} InvNudged(a: Adaptor, b: Adaptor)
    requires Inv(a) && Nudged(a, b)
    ensures Inv(b)
  {
    forall id | id in b.threads
      ensures ThreadOk(id, b.threads[id]) && FramesMatch(b.threads[id], FramesOf(b, id))
      ensures Listed(b.taskToThreads, id, b.threads[id])
      ensures id in b.waiters ==> !IsAllocating(b.threads[id].state)
    {
      assert NudgedThread(a.threads[id], b.threads[id]);
    }
    forall id | id in b.waiters
      ensures b.waiters[id].notified || (id in b.threads && IsBlocked(b.threads[id].state))
    {
      assert id in a.waiters;
    }
  }

  /** What the invariant says of one thread. */
  lemma {:induction false} InvAt(a: Adaptor, id: int)
    requires Inv(a) && id in a.threads
    ensures TP.Valid(a.tracker)
    ensures ThreadOk(id, a.threads[id]) && Listed(a.taskToThreads, id, a.threads[id])
    ensures FramesMatch(a.threads[id], FramesOf(a, id))
    ensures id in a.waiters ==>
      !IsAllocating(a.threads[id].state) && (a.waiters[id].notified || IsBlocked(a.threads[id].state))
  {
  }

  lemma {:induction false} InvValid(a: Adaptor)
    requires Inv(a)
    ensures TP.Valid(a.tracker)
  {
  }

  /** The invariant does not look at orphaned allocations. */
  lemma {:induction false} InvOrphans(a: Adaptor, orphaned: map<int, seq<Frame>>)
    requires Inv(a)
    ensures Inv(a.(orphaned := orphaned))
  {
    var b := a.(orphaned := orphaned);
    assert forall id :: FramesOf(b, id) == FramesOf(a, id);
  }

  /** Replacing one record. */
  lemma {:induction false} InvWith(a: Adaptor, id: int, t: Thread)
    requires Inv(a) && ThreadOk(id, t) && Listed(a.taskToThreads, id, t)
    requires FramesMatch(t, FramesOf(a, id))
    requires id in a.waiters ==> !IsAllocating(t.state) && (a.waiters[id].notified || IsBlocked(t.state))
    ensures Inv(With(a, id, t))
  {
  }

  /** A new running record. */
  lemma {:induction false} InvInsert(a: Adaptor, id: int, t: Thread)
    requires Inv(a) && id !in a.threads && ThreadOk(id, t) && t.state.Running? && Listed(a.taskToThreads, id, t)
    ensures Inv(With(a, id, t))
  {
    assert FramesOf(a, id) == [];
    InvWith(a, id, t);
  }

  lemma {:induction false} InvErase(a: Adaptor, id: int)
    requires Inv(a)
    requires id in a.waiters ==> a.waiters[id].notified
    ensures Inv(Erase(a, id))
  {
    var b := Erase(a, id);
    assert forall x :: x in b.threads ==> FramesOf(b, x) == FramesOf(a, x);
  }

  lemma {:induction false} InvCheckpoint(a: Adaptor, id: int)
    requires Inv(a) && id in a.threads
    ensures Inv(CheckpointMetrics(a, id))
  {
    var t := a.threads[id];
    InvWith(a, id, t.(metrics := NO_METRICS));
  }

  lemma {:induction false} InvUnlist(a: Adaptor, id: int, task: int)
    requires Inv(a) && task in a.taskToThreads
    requires id in a.threads && !IsPool(a.threads[id]) && a.threads[id].taskId == task ==>
      a.threads[id].state.RemoveThrow?
    ensures Inv(a.(taskToThreads := a.taskToThreads[task := a.taskToThreads[task] - {id}]))
  {
  }

  /** The last part of a deregistration: the record goes away, or its sleeping owner is told to leave. */
  ghost function Leave(a: Adaptor, id: int): Adaptor
    requires id in a.threads
  {
    if IsBlocked(a.threads[id].state) then Move(a, id, RemoveThrow) else Erase(a, id)
  }

  lemma {:induction false} InvNotify(a: Adaptor, id: int)
    requires Inv(a)
    ensures Inv(a.(waiters := Notify(a.waiters, id)))
  {
    var b := a.(waiters := Notify(a.waiters, id));
    assert forall x :: FramesOf(b, x) == FramesOf(a, x);
  }

  lemma {:induction false} InvToldToLeave(a: Adaptor, id: int)
    requires Inv(a) && id in a.threads && IsBlocked(a.threads[id].state)
    ensures Inv(Move(a, id, RemoveThrow))
  {
    InvAt(a, id);
    InvNotify(a, id);
    var b := a.(waiters := Notify(a.waiters, id));
    assert FramesOf(b, id) == FramesOf(a, id);
    hide Inv, FramesOf;
    InvWith(b, id, a.threads[id].(state := RemoveThrow));
    assert With(b, id, a.threads[id].(state := RemoveThrow)) == Move(a, id, RemoveThrow);
  }

  lemma {:induction false} InvLeave(a: Adaptor, id: int)
    requires Inv(a) && id in a.threads
    ensures Inv(Leave(a, id))
    ensures id in Leave(a, id).threads ==> Leave(a, id).threads[id].state.RemoveThrow?
  {
    InvAt(a, id);
    hide Inv;
    if IsBlocked(a.threads[id].state) {
      InvToldToLeave(a, id);
    } else {
      InvErase(a, id);
    }
  }

  ghost function Unlist(a: Adaptor, id: int, task: int): Adaptor {
    if task >= 0 && task in a.taskToThreads
    then a.(taskToThreads := a.taskToThreads[task := a.taskToThreads[task] - {id}]) else a
  }

  /** The record of a pool thread without one of its tasks, metrics already saved. */
  ghost function Trimmed(a: Adaptor, id: int, task: int): Adaptor
    requires id in a.threads
  {
    var b := CheckpointMetrics(a, id);
    var t := b.threads[id];
    if task >= 0 && IsPool(t) then With(b, id, t.(poolTaskIds := t.poolTaskIds - {task})) else b
  }

  /** Does deregistering `id` from `task` (any task when negative) make the thread leave? */
  ghost predicate Leaves(t: Thread, task: int) {
    task < 0 || (if IsPool(t) then t.poolTaskIds - {task} == {} else t.taskId == task)
  }

  lemma {:induction false} UnlistThenErase(a: Adaptor, id: int, task: int)
    ensures Erase(Unlist(a, id, task), id) == Unlist(Erase(a, id), id, task)
  {
    assert OpenFrames(Unlist(a, id, task), id) == OpenFrames(a, id);
  }

  lemma {:induction false} UnlistThenLeave(a: Adaptor, id: int, task: int)
    requires id in a.threads
    ensures Leave(Unlist(a, id, task), id) == Unlist(Leave(a, id), id, task)
  {
    hide Erase, Notify, IsBlocked;
    UnlistThenErase(a, id, task);
  }

  /** Deregistering is: save the metrics, trim the tasks, and if nothing is left leave and be unlisted. */
  lemma {:induction false} RemoveAssociationShape(a: Adaptor, id: int, task: int)
    requires id in a.threads
    ensures RemoveAssociation(a, id, task).0
         == if Leaves(a.threads[id], task) then Unlist(Leave(Trimmed(a, id, task), id), id, task)
            else Trimmed(a, id, task)
    ensures RemoveAssociation(a, id, task).1 <==> Leaves(a.threads[id], task) && a.threads[id].state.Running?
  {
    hide AddToEach, OpenFrames;
    UnlistThenLeave(Trimmed(a, id, task), id, task);
  }

  lemma {:induction false} InvTrimmed(a: Adaptor, id: int, task: int)
    requires Inv(a) && id in a.threads
    ensures Inv(Trimmed(a, id, task))
  {
    InvCheckpoint(a, id);
    var b := CheckpointMetrics(a, id);
    var t := b.threads[id];
    InvWith(b, id, t.(poolTaskIds := t.poolTaskIds - {task}));
  }

  lemma {:induction false} InvRemove(a: Adaptor, id: int, task: int)
    requires Inv(a)
    ensures Inv(RemoveAssociation(a, id, task).0)
  {
    if id in a.threads {
      RemoveAssociationShape(a, id, task);
      hide Inv, RemoveAssociation;
      InvTrimmed(a, id, task);
      var c := Trimmed(a, id, task);
      InvLeave(c, id);
      if task >= 0 && task in c.taskToThreads {
        InvUnlist(Leave(c, id), id, task);
      }
    }
  }

  lemma {:induction false} InvWakeIf(r: (Adaptor, bool))
    requires Inv(r.0)
    ensures Inv(WakeIf(r)) && Nudged(r.0, WakeIf(r))
  {
    WakeAfterTaskFinishesNudges(r.0);
    InvNudged(r.0, WakeAfterTaskFinishes(r.0));
  }

  ghost function List(a: Adaptor, id: int, task: int): Adaptor {
    a.(taskToThreads := a.taskToThreads[task := (if task in a.taskToThreads then a.taskToThreads[task] else {}) + {id}])
  }

  lemma {:induction false} InvList(a: Adaptor, id: int, task: int)
    requires Inv(a)
    ensures Inv(List(a, id, task))
  {
  }

  lemma {:induction false} InvRegister(a: Adaptor, id: int, task: int)
    requires Inv(a) && id != -1 && task >= 0
    ensures Inv(StartDedicated(a, id, task).0)
  {
    hide Inv, RemoveAssociation;
    var moved := id in a.threads && a.threads[id].taskId >= 0 && a.threads[id].taskId != task;
    var b := if moved then RemoveAssociation(a, id, a.threads[id].taskId).0 else a;
    if moved {
      InvRemove(a, id, a.threads[id].taskId);
    }
    if StartDedicated(a, id, task).1.Done? {
      var c := List(b, id, task);
      InvList(b, id, task);
      if id in b.threads {
        assert StartDedicated(a, id, task).0 == c;
      } else {
        assert StartDedicated(a, id, task).0 == With(c, id, NewThread(task, false));
        InvInsert(c, id, NewThread(task, false));
      }
    } else {
      assert StartDedicated(a, id, task).0 == b;
    }
  }

  lemma {:induction false} InvJoinPool(a: Adaptor, isForShuffle: bool, id: int, tasks: set<int>)
    requires Inv(a) && id != -1
    ensures Inv(PoolWorking(a, isForShuffle, id, tasks).0)
  {
    if PoolWorking(a, isForShuffle, id, tasks).1.Done? {
      var b := if id in a.threads then a else With(a, id, NewThread(-1, isForShuffle));
      assert Inv(b) by {
        if id !in a.threads {
          InvInsert(a, id, NewThread(-1, isForShuffle));
        }
      }
      InvCheckpoint(b, id);
      var c := CheckpointMetrics(b, id);
      var t := c.threads[id];
      InvWith(c, id, t.(poolTaskIds := t.poolTaskIds + tasks));
    }
  }

  lemma {:induction false} InvLeavePool(a: Adaptor, id: int, tasks: set<int>)
    requires Inv(a)
    ensures Inv(PoolFinished(a, id, tasks))
  {
    if id in a.threads {
      InvCheckpoint(a, id);
      var b := CheckpointMetrics(a, id);
      var t := b.threads[id];
      var c := With(b, id, t.(poolTaskIds := t.poolTaskIds - tasks));
      InvWith(b, id, t.(poolTaskIds := t.poolTaskIds - tasks));
      InvRemove(c, id, -1);
      InvWakeIf(RemoveAssociation(c, id, -1));
    }
  }

  // ---- finishing a task ----

  /** No live thread `id` is dedicated to `task`. */
  ghost predicate Gone(a: Adaptor, id: int, task: int) {
    id in a.threads && !IsPool(a.threads[id]) && a.threads[id].taskId == task ==> a.threads[id].state.RemoveThrow?
  }

  ghost predicate NotWorking(a: Adaptor, id: int, task: int) {
    id in a.threads ==> task !in a.threads[id].poolTaskIds
  }

  ghost predicate Shrunk(t: Thread, u: Thread) {
    u.taskId == t.taskId && u.poolTaskIds <= t.poolTaskIds && (t.state.RemoveThrow? ==> u.state.RemoveThrow?)
  }

  /** Only `id` may change: it loses pool tasks, leaves, or is told to leave. */
  ghost predicate Shrinks(ts: Threads, us: Threads, id: int) {
    && us.Keys <= ts.Keys
    && (forall x :: x in ts && x != id ==> x in us && us[x] == ts[x])
    && (id in us ==> Shrunk(ts[id], us[id]))
  }

  lemma {:induction false} TrimmedShrinks(a: Adaptor, id: int, task: int)
    requires id in a.threads
    ensures Shrinks(a.threads, Trimmed(a, id, task).threads, id) && id in Trimmed(a, id, task).threads
    ensures Trimmed(a, id, task).threads[id].state == a.threads[id].state
  {
  }

  lemma {:induction false} LeaveShrinks(a: Adaptor, id: int)
    requires id in a.threads
    ensures Shrinks(a.threads, Leave(a, id).threads, id)
    ensures id in Leave(a, id).threads ==> Leave(a, id).threads[id].state.RemoveThrow?
  {
  }

  lemma {:induction false} RemoveShrinks(a: Adaptor, id: int, task: int)
    ensures var b := RemoveAssociation(a, id, task).0;
      Shrinks(a.threads, b.threads, id) && (task >= 0 ==> Gone(b, id, task))
  {
    if id in a.threads {
      RemoveAssociationShape(a, id, task);
      TrimmedShrinks(a, id, task);
      LeaveShrinks(Trimmed(a, id, task), id);
    }
  }

  lemma {:induction false} DropShrinks(a: Adaptor, id: int, task: int)
    ensures var b := DropPoolTask(a, id, task).0;
      Shrinks(a.threads, b.threads, id) && NotWorking(b, id, task)
  {
    if id in a.threads && task in a.threads[id].poolTaskIds {
      var t := a.threads[id];
      var b := With(a, id, t.(poolTaskIds := t.poolTaskIds - {task}));
      assert Shrinks(a.threads, b.threads, id) && NotWorking(b, id, task);
      RemoveShrinks(b, id, task);
    }
  }

  lemma {:induction false} ShrinkingKeeps(a: Adaptor, b: Adaptor, id: int, task: int, x: int)
    requires Shrinks(a.threads, b.threads, id)
    ensures Gone(a, x, task) ==> Gone(b, x, task)
    ensures NotWorking(a, x, task) ==> NotWorking(b, x, task)
  {
  }

  lemma {:induction false} RemoveAllClears(a: Adaptor, ids: set<int>, task: int)
    requires Inv(a) && task >= 0
    ensures var b := RemoveAll(a, ids, task).0;
      Inv(b) && (forall x :: x in ids || Gone(a, x, task) ==> Gone(b, x, task))
    decreases |ids|
  {
    if ids != {} {
      var id := MinOf(ids);
      var b := RemoveAssociation(a, id, task).0;
      InvRemove(a, id, task);
      RemoveShrinks(a, id, task);
      forall x | x == id || Gone(a, x, task) ensures Gone(b, x, task) {
        ShrinkingKeeps(a, b, id, task, x);
      }
      RemoveAllClears(b, ids - {id}, task);
    }
  }

  lemma {:induction false} InvDrop(a: Adaptor, id: int, task: int)
    requires Inv(a)
    ensures Inv(DropPoolTask(a, id, task).0)
  {
    if id in a.threads && task in a.threads[id].poolTaskIds {
      var t := a.threads[id];
      InvWith(a, id, t.(poolTaskIds := t.poolTaskIds - {task}));
      InvRemove(With(a, id, t.(poolTaskIds := t.poolTaskIds - {task})), id, task);
    }
  }

  lemma {:induction false} DropAllClears(a: Adaptor, ids: set<int>, task: int)
    requires Inv(a)
    ensures var b := DropPoolTaskAll(a, ids, task).0;
      && Inv(b) && b.threads.Keys <= a.threads.Keys
      && (forall x :: x in ids || NotWorking(a, x, task) ==> NotWorking(b, x, task))
      && (forall x :: Gone(a, x, task) ==> Gone(b, x, task))
    decreases |ids|
  {
    if ids != {} {
      var id := MinOf(ids);
      var b := DropPoolTask(a, id, task).0;
      InvDrop(a, id, task);
      DropShrinks(a, id, task);
      forall x
        ensures Gone(a, x, task) ==> Gone(b, x, task)
        ensures x == id || NotWorking(a, x, task) ==> NotWorking(b, x, task)
      {
        ShrinkingKeeps(a, b, id, task, x);
      }
      DropAllClears(b, ids - {id}, task);
    }
  }

  /** Both loops of `task_done`, without the wake-up and the last erase. */
  ghost function CutTask(a: Adaptor, task: int): (Adaptor, bool) {
    var r := if task in a.taskToThreads then RemoveAll(a, a.taskToThreads[task], task) else (a, false);
    var s := DropPoolTaskAll(r.0, r.0.threads.Keys, task);
    (s.0, r.1 || s.1)
  }

  lemma {:induction false} CutTaskClears(a: Adaptor, task: int)
    requires Inv(a) && task >= 0
    ensures var b := CutTask(a, task).0;
      Inv(b) && forall x :: x in b.threads ==> Gone(b, x, task) && NotWorking(b, x, task)
  {
    var none: set<int> := {};
    var ids := if task in a.taskToThreads then a.taskToThreads[task] else none;
    var r := RemoveAll(a, ids, task).0;
    RemoveAllClears(a, ids, task);
    var b := DropPoolTaskAll(r, r.threads.Keys, task).0;
    DropAllClears(r, r.threads.Keys, task);
    forall x | x in b.threads ensures Gone(b, x, task) && NotWorking(b, x, task) {
      if x in a.threads {
        assert Listed(a.taskToThreads, x, a.threads[x]);
      }
      assert x in ids || Gone(a, x, task);
      assert Gone(r, x, task);
      assert x in r.threads.Keys;
    }
  }

  /** After `task_done` only threads already told to leave are dedicated to it, and no pool works on it. */
  lemma {:induction false} TaskDoneCleansUp(a: Adaptor, task: int)
    requires Inv(a) && task >= 0
    ensures var b := TaskDone(a, task);
      && Inv(b) && task !in b.taskToThreads
      && forall id :: id in b.threads ==>
           && (!IsPool(b.threads[id]) && b.threads[id].taskId == task ==> b.threads[id].state.RemoveThrow?)
           && task !in b.threads[id].poolTaskIds
  {
    CutTaskClears(a, task);
    var r := CutTask(a, task);
    InvWakeIf(r);
    var b := WakeIf(r);
    forall x | x in b.threads ensures Gone(b, x, task) && NotWorking(b, x, task) {
      assert NudgedThread(r.0.threads[x], b.threads[x]);
      assert Gone(r.0, x, task) && NotWorking(r.0, x, task);
    }
    InvForgetTask(b, task);
    assert TaskDone(a, task) == b.(taskToThreads := b.taskToThreads - {task});
  }

  lemma {:induction false} InvForgetTask(a: Adaptor, task: int)
    requires Inv(a) && forall id :: id in a.threads ==> Gone(a, id, task)
    ensures Inv(a.(taskToThreads := a.taskToThreads - {task}))
  {
    var b := a.(taskToThreads := a.taskToThreads - {task});
    forall id | id in b.threads ensures Listed(b.taskToThreads, id, b.threads[id]) {
      assert Listed(a.taskToThreads, id, a.threads[id]) && Gone(a, id, task);
    }
  }

  // ---- what becomes of each thread ----

  /** `task_done` finds a thread through the list of the task or through its pool tasks. */
  ghost predicate Departs(a: Adaptor, id: int, task: int)
    requires id in a.threads
  {
    && Leaves(a.threads[id], task)
    && (task in a.threads[id].poolTaskIds || (task in a.taskToThreads && id in a.taskToThreads[task]))
  }

  /** Who departs is erased, or told to leave if asleep; who stays at most loses pool tasks and saves metrics. */
  ghost predicate Fate(t: Thread, us: Threads, id: int, departs: bool) {
    if departs && !IsBlocked(t.state) then id !in us
    else
      && id in us
      && us[id] == t.(state := if departs then RemoveThrow else t.state,
                      poolTaskIds := us[id].poolTaskIds, metrics := us[id].metrics)
  }

  ghost predicate Untouched(ts: Threads, us: Threads, id: int) {
    (id in us <==> id in ts) && (id in ts ==> us[id] == ts[id])
  }

  ghost predicate RunsAway(ts: Threads, id: int, task: int) {
    id in ts && Leaves(ts[id], task) && ts[id].state.Running?
  }

  lemma {:induction false} TrimmedShape(a: Adaptor, id: int, task: int)
    requires id in a.threads
    ensures var c := Trimmed(a, id, task); var t := a.threads[id];
      && c.threads == a.threads[id := c.threads[id]] && c.tracker == a.tracker
      && c.threads[id] == t.(metrics := NO_METRICS,
                             poolTaskIds := if task >= 0 && IsPool(t) then t.poolTaskIds - {task} else t.poolTaskIds)
  {
    hide AddToEach;
  }

  lemma {:induction false} LeaveShape(a: Adaptor, id: int)
    requires id in a.threads
    ensures var b := Leave(a, id); var t := a.threads[id];
      && b.tracker == a.tracker
      && b.threads == if IsBlocked(t.state) then a.threads[id := t.(state := RemoveThrow)] else a.threads - {id}
  {
    hide OpenFrames, Notify;
  }

  lemma {:induction false} RemoveFate(a: Adaptor, id: int, task: int)
    requires id in a.threads && task >= 0 && (!IsPool(a.threads[id]) ==> a.threads[id].poolTaskIds == {})
    ensures var r := RemoveAssociation(a, id, task);
      && Fate(a.threads[id], r.0.threads, id, Leaves(a.threads[id], task)) && NotWorking(r.0, id, task)
      && (r.1 <==> RunsAway(a.threads, id, task))
  {
    hide RemoveAssociation, Trimmed, Leave, IsBlocked, Leaves;
    RemoveAssociationShape(a, id, task);
    TrimmedShape(a, id, task);
    var c := Trimmed(a, id, task);
    LeaveShape(c, id);
    FateOfOne(a.threads[id], c.threads, id, Leaves(a.threads[id], task), Leave(c, id).threads, task);
  }

  lemma {:induction false} FateOfOne(t: Thread, ts: Threads, id: int, leaves: bool, us: Threads, task: int)
    requires id in ts && task !in ts[id].poolTaskIds
    requires ts[id] == t.(poolTaskIds := ts[id].poolTaskIds, metrics := ts[id].metrics)
    requires us == if IsBlocked(t.state) then ts[id := ts[id].(state := RemoveThrow)] else ts - {id}
    ensures Fate(t, if leaves then us else ts, id, leaves)
    ensures leaves && id in us ==> task !in us[id].poolTaskIds
  {
    hide IsBlocked;
  }

  lemma {:induction false} RemoveKeepsTracker(a: Adaptor, x: int, task: int)
    ensures RemoveAssociation(a, x, task).0.tracker == a.tracker
  {
    hide Trimmed, Leave, Leaves;
    if x in a.threads {
      RemoveAssociationShape(a, x, task);
      TrimmedShape(a, x, task);
      LeaveShape(Trimmed(a, x, task), x);
      hide RemoveAssociation;
    }
  }

  lemma {:induction false} OthersUntouched(a: Adaptor, b: Adaptor, id: int, x: int)
    requires Shrinks(a.threads, b.threads, id) && x != id
    ensures Untouched(a.threads, b.threads, x)
  {
  }

  lemma {:induction false} RemoveAllFate(a: Adaptor, ids: set<int>, task: int, x: int)
    requires Inv(a) && task >= 0
    ensures var b := RemoveAll(a, ids, task).0;
      if x in ids && x in a.threads
      then Fate(a.threads[x], b.threads, x, Leaves(a.threads[x], task)) && NotWorking(b, x, task)
      else Untouched(a.threads, b.threads, x)
    decreases |ids|
  {
    if ids != {} {
      var id := MinOf(ids);
      var b := RemoveAssociation(a, id, task).0;
      InvRemove(a, id, task);
      RemoveAllFate(b, ids - {id}, task, x);
      RemoveShrinks(a, id, task);
      if x != id {
        OthersUntouched(a, b, id, x);
      } else if id in a.threads {
        InvAt(a, id);
        RemoveFate(a, id, task);
      }
      hide Inv, RemoveAssociation;
    }
  }

  lemma {:induction false} RemoveAllFlag(a: Adaptor, ids: set<int>, task: int)
    requires Inv(a) && task >= 0
    ensures RemoveAll(a, ids, task).1 <==> exists x :: x in ids && RunsAway(a.threads, x, task)
    decreases |ids|
  {
    if ids != {} {
      var id := MinOf(ids);
      var b := RemoveAssociation(a, id, task).0;
      InvRemove(a, id, task);
      RemoveAllFlag(b, ids - {id}, task);
      RemoveShrinks(a, id, task);
      if id in a.threads {
        RemoveAssociationShape(a, id, task);
      }
      hide Inv, RemoveAssociation, Leaves;
      forall x | x in ids - {id} ensures RunsAway(b.threads, x, task) <==> RunsAway(a.threads, x, task) {
        OthersUntouched(a, b, id, x);
      }
      if exists x :: x in ids && RunsAway(a.threads, x, task) {
        var x :| x in ids && RunsAway(a.threads, x, task);
        assert x == id || x in ids - {id};
      }
    }
  }

  lemma {:induction false} DropFate(a: Adaptor, id: int, task: int)
    requires id in a.threads && task >= 0 && (!IsPool(a.threads[id]) ==> a.threads[id].poolTaskIds == {})
    ensures var r := DropPoolTask(a, id, task); var t := a.threads[id];
      && Fate(t, r.0.threads, id, task in t.poolTaskIds && Leaves(t, task))
      && (r.1 <==> task in t.poolTaskIds && RunsAway(a.threads, id, task))
  {
    hide RemoveAssociation;
    var t := a.threads[id];
    if task in t.poolTaskIds {
      var b := With(a, id, t.(poolTaskIds := t.poolTaskIds - {task}));
      RemoveFate(b, id, task);
    }
  }

  lemma {:induction false} DropAllFate(a: Adaptor, ids: set<int>, task: int, x: int)
    requires Inv(a) && task >= 0
    ensures var b := DropPoolTaskAll(a, ids, task).0;
      if x in ids && x in a.threads
      then Fate(a.threads[x], b.threads, x, task in a.threads[x].poolTaskIds && Leaves(a.threads[x], task))
      else Untouched(a.threads, b.threads, x)
    decreases |ids|
  {
    if ids != {} {
      var id := MinOf(ids);
      var b := DropPoolTask(a, id, task).0;
      InvDrop(a, id, task);
      DropAllFate(b, ids - {id}, task, x);
      DropShrinks(a, id, task);
      if x != id {
        OthersUntouched(a, b, id, x);
      } else if id in a.threads {
        InvAt(a, id);
        DropFate(a, id, task);
      }
      hide Inv, DropPoolTask;
    }
  }

  lemma {:induction false} DropAllFlag(a: Adaptor, ids: set<int>, task: int)
    requires Inv(a) && task >= 0
    ensures DropPoolTaskAll(a, ids, task).1
       <==> exists x :: x in ids && RunsAway(a.threads, x, task) && task in a.threads[x].poolTaskIds
    decreases |ids|
  {
    if ids != {} {
      var id := MinOf(ids);
      var b := DropPoolTask(a, id, task).0;
      InvDrop(a, id, task);
      DropAllFlag(b, ids - {id}, task);
      DropShrinks(a, id, task);
      if id in a.threads {
        InvAt(a, id);
        DropFate(a, id, task);
      }
      hide Inv, DropPoolTask, Leaves;
      forall x | x in ids - {id} ensures Untouched(a.threads, b.threads, x) {
        OthersUntouched(a, b, id, x);
      }
      if exists x :: x in ids && RunsAway(a.threads, x, task) && task in a.threads[x].poolTaskIds {
        var x :| x in ids && RunsAway(a.threads, x, task) && task in a.threads[x].poolTaskIds;
        assert x == id || x in ids - {id};
      }
    }
  }

  /** The threads the task lists. */
  ghost function ListedFor(a: Adaptor, task: int): set<int> {
    if task in a.taskToThreads then a.taskToThreads[task] else {}
  }

  lemma {:induction false} CutTaskParts(a: Adaptor, task: int)
    ensures var r := RemoveAll(a, ListedFor(a, task), task); var s := DropPoolTaskAll(r.0, r.0.threads.Keys, task);
      CutTask(a, task) == (s.0, r.1 || s.1)
  {
  }

  /** What `task_done` does to each thread, whatever it does to the others. */
  lemma {:induction false} CutTaskFate(a: Adaptor, task: int, x: int)
    requires Inv(a) && task >= 0
    ensures var us := CutTask(a, task).0.threads;
      if x in a.threads then Fate(a.threads[x], us, x, Departs(a, x, task)) else x !in us
  {
    var ids := ListedFor(a, task);
    var r := RemoveAll(a, ids, task).0;
    CutTaskParts(a, task);
    RemoveAllClears(a, ids, task);
    RemoveAllFate(a, ids, task, x);
    DropAllFate(r, r.threads.Keys, task, x);
    hide Inv, RemoveAll, DropPoolTaskAll, CutTask;
  }

  /** A RUNNING thread is taken out exactly when the flag says so. */
  lemma {:induction false} CutTaskFlag(a: Adaptor, task: int)
    requires Inv(a) && task >= 0
    ensures CutTask(a, task).1
       <==> exists x :: x in a.threads && Departs(a, x, task) && a.threads[x].state.Running?
  {
    var ids := ListedFor(a, task);
    var r := RemoveAll(a, ids, task).0;
    CutTaskParts(a, task);
    RemoveAllClears(a, ids, task);
    RemoveAllFlag(a, ids, task);
    DropAllFlag(r, r.threads.Keys, task);
    hide Inv, RemoveAll, DropPoolTaskAll, CutTask, Leaves;
    forall x
      ensures x in r.threads && RunsAway(r.threads, x, task) && task in r.threads[x].poolTaskIds
         <==> x in a.threads && x !in ids && RunsAway(a.threads, x, task) && task in a.threads[x].poolTaskIds
    {
      RemoveAllFate(a, ids, task, x);
    }
  }

  // ---- blocking ----

  lemma {:induction false} InvThrowOom(a: Adaptor, id: int, split: bool)
    requires Inv(a) && id in a.threads
    ensures Inv(ThrowOom(a, id, split).0) && ThrowOom(a, id, split).0.waiters == a.waiters
    ensures !ThrowOom(a, id, split).1.Waits?
  {
    var t := a.threads[id];
    var u := ThrowOom(a, id, split).0.threads[id];
    assert ThrowOom(a, id, split).0 == With(a, id, u);
    InvWith(a, id, u);
  }

  lemma {:induction false} InvSettle(a: Adaptor, id: int)
    requires Inv(a) && id !in a.waiters
    ensures Inv(Settle(a, id).0) && id !in Settle(a, id).0.waiters
    ensures Settle(a, id).1.Waits? ==> id in Settle(a, id).0.threads && IsBlocked(Settle(a, id).0.threads[id].state)
  {
    if id in a.threads && !IsBlocked(a.threads[id].state) {
      var t := a.threads[id];
      match t.state {
        case BufnThrow =>
          InvWith(a, id, t.(state := BufnWait));
          InvThrowOom(With(a, id, t.(state := BufnWait)), id, false);
        case SplitThrow =>
          InvWith(a, id, t.(state := Running));
          InvThrowOom(With(a, id, t.(state := Running)), id, true);
        case RemoveThrow =>
          InvErase(a, id);
        case _ =>
      }
    }
  }

  lemma {:induction false} InvCheck(a: Adaptor, java: JavaBlocked)
    requires Inv(a)
    ensures Inv(CheckForBufn(a, java)) && Nudged(a, CheckForBufn(a, java))
  {
    CheckNudges(a, java);
    InvNudged(a, CheckForBufn(a, java));
  }

  lemma {:induction false} InvBlockLoop(a: Adaptor, id: int)
    requires Inv(a) && id !in a.waiters
    ensures var r := BlockLoop(a, id);
      Inv(r.0) && id !in r.0.waiters && (r.1.Waits? ==> id in r.0.threads && IsBlocked(r.0.threads[id].state))
  {
    if id in a.threads && a.threads[id].state.BufnWait? {
      var t := a.threads[id].(state := Bufn);
      InvWith(a, id, t);
      InvCheck(With(a, id, t), None);
      InvSettle(CheckForBufn(With(a, id, t), None), id);
    } else {
      InvSettle(a, id);
    }
  }

  lemma {:induction false} InvSleep(a: Adaptor, id: int, call: Call)
    requires Inv(a) && id in a.threads && IsBlocked(a.threads[id].state)
    ensures Inv(Sleep(a, id, call))
  {
  }

  lemma {:induction false} InvBlockUntilReady(a: Adaptor, id: int)
    requires Inv(a) && id !in a.waiters
    ensures Inv(BlockUntilReady(a, id).0)
  {
    InvBlockLoop(a, id);
    var r := BlockLoop(a, id);
    if r.1.Waits? {
      InvSleep(r.0, id, UntilReady);
    }
  }

  // ---- allocation ----

  /** A registered thread that is awake begins its proper allocation. */
  lemma {:induction false} InvBegin(a: Adaptor, id: int, t: Thread, f: Frame)
    requires Inv(a) && id !in a.waiters && id in a.threads && a.threads[id].state.Running?
    requires t == a.threads[id].(state := Alloc, isCpuAlloc := f.isCpu) && !f.recursive
    ensures Inv(Push(With(a, id, t), id, f))
  {
    InvAt(a, id);
    var b := Push(With(a, id, t), id, f);
    assert FramesOf(b, id) == [f];
    forall x | x in b.threads
      ensures ThreadOk(x, b.threads[x]) && FramesMatch(b.threads[x], FramesOf(b, x))
      ensures Listed(b.taskToThreads, x, b.threads[x])
      ensures x in b.waiters ==> !IsAllocating(b.threads[x].state)
    {
      assert x != id ==> b.threads[x] == a.threads[x] && FramesOf(b, x) == FramesOf(a, x);
    }
  }

  lemma {:induction false} InvEnterAlloc(a: Adaptor, id: int, isCpu: bool, blocking: bool)
    requires Inv(a) && id !in a.waiters
    ensures Inv(EnterAlloc(a, id, isCpu, blocking).0)
  {
    hide Inv, OrphansOf, FramesOf;
    var f := Frame(isCpu, blocking, false);
    if id !in a.threads {
      InvOrphans(a, a.orphaned[id := OrphansOf(a, id) + [f]]);
    } else if a.threads[id].state.Running? {
      var t := a.threads[id].(state := Alloc, isCpuAlloc := isCpu);
      InvBegin(a, id, t, f);
      FramesWith(a, id, t);
    }
  }

  lemma {:induction false} FramesWith(a: Adaptor, id: int, t: Thread)
    ensures FramesOf(With(a, id, t), id) == FramesOf(a, id)
    ensures OrphansOf(With(a, id, t), id) == OrphansOf(a, id)
  {
  }

  lemma {:induction false} InvBlockThenAlloc(a: Adaptor, id: int, isCpu: bool)
    requires Inv(a) && id !in a.waiters
    ensures Inv(BlockThenAlloc(a, id, isCpu).0)
  {
    InvBlockLoop(a, id);
    var r := BlockLoop(a, id);
    if r.1.Waits? {
      InvSleep(r.0, id, ForAlloc(isCpu));
    } else {
      InvEnterAlloc(r.0, id, isCpu, true);
    }
  }

  lemma {:induction false} InvPreAlloc(a: Adaptor, id: int, isCpu: bool, blocking: bool)
    requires Inv(a) && id !in a.waiters
    ensures Inv(PreAlloc(a, id, isCpu, blocking).0)
  {
    if id in a.threads {
      if IsAllocating(a.threads[id].state) {
        var b := Push(a, id, Frame(isCpu, blocking, true));
        assert forall x :: x in a.threads && x != id ==> FramesOf(b, x) == FramesOf(a, x);
        assert FramesOf(b, id) == FramesOf(a, id) + [Frame(isCpu, blocking, true)];
        assert Inv(b);
      } else {
        InvBlockThenAlloc(a, id, isCpu);
        InvEnterAlloc(a, id, isCpu, false);
      }
    } else {
      InvEnterAlloc(a, id, isCpu, blocking);
    }
  }

  lemma {:induction false} InvResume(a: Adaptor, id: int)
    requires Inv(a) && id in a.waiters
    ensures Inv(Resume(a, id).0)
  {
    if id in a.threads && IsBlocked(a.threads[id].state) {
      InvSleep(a, id, a.waiters[id].call);
    } else {
      var b := a.(waiters := a.waiters - {id});
      assert Inv(b);
      match a.waiters[id].call
      case UntilReady => InvBlockUntilReady(b, id);
      case ForAlloc(isCpu) => InvBlockThenAlloc(b, id, isCpu);
    }
  }

  /** The report is on an allocation begun under the thread's present registration. */
  ghost predicate Current(a: Adaptor, id: int) {
    FramesOf(a, id) != []
  }

  /** Closing a recursive allocation leaves the proper one below it. */
  lemma {:induction false} InvPopRecursive(a: Adaptor, id: int, isCpu: bool)
    requires Inv(a) && Reports(a, id, isCpu, true)
    ensures Inv(Pop(a, id))
  {
    if Current(a, id) {
      var b := Pop(a, id);
      assert FramesOf(b, id) == FramesOf(a, id)[..|FramesOf(a, id)| - 1];
      assert forall x :: x in a.threads && x != id ==> FramesOf(b, x) == FramesOf(a, x);
    } else {
      InvPopOrphan(a, id);
    }
  }

  /** Closing an allocation from before the registration touches nothing else. */
  lemma {:induction false} InvPopOrphan(a: Adaptor, id: int)
    requires Inv(a) && !Current(a, id)
    ensures Inv(Pop(a, id)) && Pop(a, id) == a.(orphaned := Pop(a, id).orphaned)
    ensures id in a.threads ==> !IsAllocating(a.threads[id].state)
  {
    InvOrphans(a, Pop(a, id).orphaned);
    if id in a.threads {
      InvAt(a, id);
    }
  }

  lemma {:induction false} InvPopUnregistered(a: Adaptor, id: int)
    requires Inv(a) && id !in a.threads
    ensures Inv(Pop(a, id)) && Pop(a, id).threads == a.threads
  {
    assert !Current(a, id);
    InvPopOrphan(a, id);
  }

  /** Closing an allocation whose report says nothing about the thread's state. */
  lemma {:induction false} InvPopped(a: Adaptor, id: int, isCpu: bool, recursive: bool)
    requires Inv(a) && Reports(a, id, isCpu, recursive) && (recursive || id !in a.threads)
    ensures Inv(Pop(a, id)) && Pop(a, id).threads == a.threads
  {
    if recursive {
      InvPopRecursive(a, id, isCpu);
    } else {
      InvPopUnregistered(a, id);
    }
    hide Inv, OrphansOf, FramesOf, Reports;
  }

  /** A thread reporting on its proper allocation is allocating, in the kind it reports. */
  lemma {:induction false} ProperReport(a: Adaptor, id: int, isCpu: bool)
    requires Inv(a) && id in a.threads && Reports(a, id, isCpu, false) && Current(a, id)
    ensures IsAllocating(a.threads[id].state) && a.threads[id].isCpuAlloc == isCpu
    ensures FramesOf(Pop(a, id), id) == []
  {
    assert FramesMatch(a.threads[id], FramesOf(a, id));
    TopFrame(a, id);
  }

  lemma {:induction false} TopFrame(a: Adaptor, id: int)
    requires Current(a, id)
    ensures OpenFrames(a, id)[|OpenFrames(a, id)| - 1] == FramesOf(a, id)[|FramesOf(a, id)| - 1]
  {
  }

  /** Closing the proper allocation while the state leaves ALLOC. */
  lemma {:induction false} InvClose(a: Adaptor, id: int, isCpu: bool, t: Thread)
    requires Inv(a) && id in a.threads && Reports(a, id, isCpu, false) && Current(a, id) && id !in a.waiters
    requires ThreadOk(id, t) && !IsAllocating(t.state) && !t.state.RemoveThrow?
    requires t.taskId == a.threads[id].taskId && t.poolTaskIds == a.threads[id].poolTaskIds
    ensures Inv(With(Pop(a, id), id, t))
  {
    ProperReport(a, id, isCpu);
    var b := With(Pop(a, id), id, t);
    assert FramesOf(b, id) == [];
    assert forall x :: x in a.threads && x != id ==> b.threads[x] == a.threads[x] && FramesOf(b, x) == FramesOf(a, x);
    assert Listed(a.taskToThreads, id, a.threads[id]);
  }

  lemma {:induction false} InvBytes(a: Adaptor, bytes: int)
    requires Inv(a)
    ensures Inv(a.(gpuAllocatedBytes := bytes))
  {
    var b := a.(gpuAllocatedBytes := bytes);
    assert forall id :: FramesOf(b, id) == FramesOf(a, id);
  }

  /** A success on an allocation from before the registration: the retry is over, and somebody is woken. */
  lemma {:induction false} InvOrphanSucceeds(a: Adaptor, id: int)
    requires Inv(a) && id in a.threads && !Current(a, id)
    ensures !IsAllocating(a.threads[id].state)
    ensures Inv(With(Pop(a, id), id, a.threads[id].(isRetryAllocBeforeBufn := false)))
  {
    hide Inv, With;
    InvPopOrphan(a, id);
    InvAt(Pop(a, id), id);
    InvWith(Pop(a, id), id, a.threads[id].(isRetryAllocBeforeBufn := false));
  }

  lemma {:induction false} InvProperSuccess(a: Adaptor, id: int, isCpu: bool, bytes: nat)
    requires Inv(a) && id !in a.waiters && id in a.threads && Reports(a, id, isCpu, false) && Current(a, id)
    ensures Inv(RecordSuccess(Pop(a, id), id, isCpu, bytes))
  {
    ProperReport(a, id, isCpu);
    InvAt(a, id);
    var b := RecordSuccess(Pop(a, id), id, isCpu, bytes);
    InvClose(a, id, isCpu, b.threads[id]);
    InvBytes(With(Pop(a, id), id, b.threads[id]), b.gpuAllocatedBytes);
    assert b == With(Pop(a, id), id, b.threads[id]).(gpuAllocatedBytes := b.gpuAllocatedBytes);
    hide Inv, OrphansOf, FramesOf, Reports;
  }

  lemma {:induction false} InvWakeNext(a: Adaptor, isCpu: bool)
    requires Inv(a)
    ensures Inv(WakeNext(a, isCpu))
  {
    InvValid(a);
    hide Inv, WakeNext;
    WakeNextNudges(a, isCpu);
    InvNudged(a, WakeNext(a, isCpu));
  }

  lemma {:induction false} InvSucceed(a: Adaptor, id: int, isCpu: bool, recursive: bool, bytes: nat)
    requires Inv(a) && id !in a.waiters && Reports(a, id, isCpu, recursive)
    ensures Inv(PostAllocSuccess(a, id, isCpu, recursive, bytes).0)
    ensures PostAllocSuccess(a, id, isCpu, recursive, bytes).1 == Done(true)
  {
    InvValid(a);
    hide Inv, OrphansOf, FramesOf, WakeNext, CountAlloc;
    if recursive || id !in a.threads {
      InvPopped(a, id, isCpu, recursive);
    } else if Current(a, id) {
      ProperReport(a, id, isCpu);
      InvProperSuccess(a, id, isCpu, bytes);
      InvWakeNext(RecordSuccess(Pop(a, id), id, isCpu, bytes), isCpu);
    } else {
      InvOrphanSucceeds(a, id);
      InvWakeNext(With(Pop(a, id), id, a.threads[id].(isRetryAllocBeforeBufn := false)), isCpu);
    }
  }

  /** The reporting thread does not sleep, so there is nobody to notify. */
  lemma {:induction false} FailureIsOwn(a: Adaptor, id: int, isOom: bool, blocking: bool)
    requires id in a.threads && IsAllocating(a.threads[id].state) && id !in a.waiters
    ensures RecordFailure(a, id, isOom, blocking) == With(a, id, AfterFailure(a.threads[id], isOom, blocking))
  {
    hide AfterFailure;
  }

  lemma {:induction false} AfterFailureShape(id: int, t: Thread, isOom: bool, blocking: bool)
    requires IsAllocating(t.state) && ThreadOk(id, t)
    ensures var u := AfterFailure(t, isOom, blocking);
      && ThreadOk(id, u) && !IsAllocating(u.state) && !u.state.RemoveThrow?
      && u.taskId == t.taskId && u.poolTaskIds == t.poolTaskIds
  {
  }

  lemma {:induction false} InvProperFailure(a: Adaptor, id: int, isCpu: bool, isOom: bool, blocking: bool)
    requires Inv(a) && id !in a.waiters && id in a.threads && Reports(a, id, isCpu, false) && Current(a, id)
    requires IsAllocating(a.threads[id].state)
    ensures Inv(RecordFailure(Pop(a, id), id, isOom, blocking))
  {
    InvAt(a, id);
    hide Inv, OrphansOf, FramesOf, Reports, RecordFailure, AfterFailure, ThreadOk, FramesMatch, Listed;
    AfterFailureShape(id, a.threads[id], isOom, blocking);
    FailureIsOwn(Pop(a, id), id, isOom, blocking);
    InvClose(a, id, isCpu, AfterFailure(a.threads[id], isOom, blocking));
  }

  /**
   * What a failure report comes to: only a non-recursive one, by a thread whose registration is newer
   * than the allocation, is refused.
   */
  ghost function FailureOutcome(a: Adaptor, id: int, isCpu: bool, recursive: bool): Outcome {
    if recursive || id !in a.threads then Done(false)
    else if Current(a, id) then Done(true)
    else Threw(if a.threads[id].isCpuAlloc == isCpu then InternalError else InvalidArgument)
  }

  lemma {:induction false} InvFail(a: Adaptor, id: int, isCpu: bool, isOom: bool, blocking: bool, recursive: bool)
    requires Inv(a) && id !in a.waiters && Reports(a, id, isCpu, recursive)
    ensures Inv(PostAllocFailed(a, id, isCpu, isOom, blocking, recursive).0)
    ensures PostAllocFailed(a, id, isCpu, isOom, blocking, recursive).1 == FailureOutcome(a, id, isCpu, recursive)
  {
    InvValid(a);
    if recursive || id !in a.threads {
      InvPopped(a, id, isCpu, recursive);
      InvCheck(Pop(a, id), None);
    } else if Current(a, id) {
      ProperReport(a, id, isCpu);
      InvProperFailure(a, id, isCpu, isOom, blocking);
      InvCheck(RecordFailure(Pop(a, id), id, isOom, blocking), None);
    } else {
      InvPopOrphan(a, id);
    }
    hide Inv, OrphansOf, FramesOf, Reports, CheckForBufn;
  }

  lemma {:induction false} InvLessActive(a: Adaptor, id: int, bytes: nat)
    requires Inv(a) && id in a.threads
    ensures var t := a.threads[id];
      Inv(With(a, id, t.(metrics := t.metrics.(activeFootprint := t.metrics.activeFootprint - bytes))))
  {
    hide Inv, With, FramesOf;
    var t := a.threads[id];
    InvAt(a, id);
    InvWith(a, id, t.(metrics := t.metrics.(activeFootprint := t.metrics.activeFootprint - bytes)));
  }

  lemma {:induction false} InvRecordFree(a: Adaptor, id: int, isCpu: bool, bytes: nat)
    requires Inv(a)
    ensures Inv(RecordFree(a, id, isCpu, bytes))
  {
    hide Inv;
    if id in a.threads && !isCpu {
      var t := a.threads[id];
      var b := a;
      if !t.isInSpilling {
        b := With(a, id, t.(metrics := t.metrics.(activeFootprint := t.metrics.activeFootprint - bytes)));
        InvLessActive(a, id, bytes);
      }
      InvBytes(b, a.gpuAllocatedBytes - bytes);
    }
  }

  lemma {:induction false} InvMarkFreed(a: Adaptor, id: int, isCpu: bool)
    requires Inv(a)
    ensures Inv(a.(threads := MarkFreed(a.threads, id, isCpu)))
  {
    var b := a.(threads := MarkFreed(a.threads, id, isCpu));
    forall x | x in b.threads
      ensures ThreadOk(x, b.threads[x]) && FramesMatch(b.threads[x], FramesOf(b, x))
      ensures Listed(b.taskToThreads, x, b.threads[x])
      ensures x in b.waiters ==> !IsAllocating(b.threads[x].state)
    {
      assert FramesOf(b, x) == FramesOf(a, x);
    }
  }

  lemma {:induction false} InvFree(a: Adaptor, id: int, isCpu: bool, bytes: nat)
    requires Inv(a)
    ensures Inv(Dealloc(a, id, isCpu, bytes))
  {
    var b := RecordFree(a, id, isCpu, bytes);
    InvRecordFree(a, id, isCpu, bytes);
    InvMarkFreed(b, id, isCpu);
    var c := b.(threads := MarkFreed(b.threads, id, isCpu));
    WakeNextNudges(c, isCpu);
    InvNudged(c, WakeNext(c, isCpu));
  }

  /** The steps that only set a flag, or forget a record. */
  lemma {:induction false} InvSmallStep(a: Adaptor, act: Action)
    requires Inv(a) && Enabled(a, act)
    requires act.WaitOnPool? || act.Spill? || act.DropMetrics? || act.ForgetPriority?
    ensures Inv(Step(a, act).0)
  {
    match act
    case WaitOnPool(id, poolBlocked) =>
      if id in a.threads { InvWith(a, id, a.threads[id].(poolBlocked := poolBlocked)); }
    case Spill(id, spilling) =>
      if id in a.threads { InvWith(a, id, a.threads[id].(isInSpilling := spilling)); }
    case DropMetrics(task) =>
    case ForgetPriority(task) =>
  }

  /** Every step keeps the invariant. */
  lemma {:induction false} InvStep(a: Adaptor, act: Action)
    requires Inv(a) && Enabled(a, act)
    ensures Inv(Step(a, act).0)
  {
    hide Inv, CheckForBufn, BlockUntilReady, PreAlloc, Resume, PostAllocSuccess, PostAllocFailed, Dealloc,
      StartDedicated, PoolWorking, PoolFinished, TaskDone, RemoveAssociation, WakeAfterTaskFinishes;
    match act
    case Register(id, task) => InvRegister(a, id, task);
    case JoinPool(isForShuffle, id, tasks) => InvJoinPool(a, isForShuffle, id, tasks);
    case LeavePool(id, tasks) => InvLeavePool(a, id, tasks);
    case Deregister(id, task) => InvRemove(a, id, task); InvWakeIf(RemoveAssociation(a, id, task));
    case FinishTask(task) => TaskDoneCleansUp(a, task);
    case Watchdog(javaBlocked) => InvCheck(a, Some(javaBlocked));
    case Allocate(id, isCpu, blocking) => InvPreAlloc(a, id, isCpu, blocking);
    case Succeed(id, isCpu, recursive, bytes) => InvSucceed(a, id, isCpu, recursive, bytes);
    case Fail(id, isCpu, isOom, blocking, recursive) => InvFail(a, id, isCpu, isOom, blocking, recursive);
    case Free(id, isCpu, bytes) => InvFree(a, id, isCpu, bytes);
    case AwaitReady(id) => InvBlockUntilReady(a, id);
    case Wake(id) => InvResume(a, id);
    case _ => InvSmallStep(a, act);
  }

  // ---- runs ----

  ghost predicate IsRun(states: seq<Adaptor>, acts: seq<Action>) {
    && |states| == |acts| + 1
    && forall i :: 0 <= i < |acts| ==>
         && TP.Valid(states[i].tracker) && Enabled(states[i], acts[i])
         && states[i + 1] == Step(states[i], acts[i]).0
  }

  /** The invariant, no lost wake-up included, holds in every state of every run. */
  lemma {:induction false} RunsKeepInv(states: seq<Adaptor>, acts: seq<Action>, k: nat)
    requires IsRun(states, acts) && Inv(states[0]) && k < |states|
    ensures Inv(states[k]) && NoLostWakeup(states[k])
  {
    if k > 0 {
      RunsKeepInv(states, acts, k - 1);
      InvStep(states[k - 1], acts[k - 1]);
    }
  }

  // ---- allocations in flight ----

  /** Does the step take the record of `id` out of the table, if only to make a new one? */
  ghost predicate Deregisters(a: Adaptor, act: Action, id: int)
    requires id in a.threads
  {
    match act
    case Register(x, task) => x == id && a.threads[id].taskId >= 0 && a.threads[id].taskId != task
    case LeavePool(x, tasks) => x == id && a.threads[id].poolTaskIds <= tasks
    case Deregister(x, task) => x == id && Leaves(a.threads[id], task)
    case FinishTask(task) => Departs(a, id, task)
    case _ => false
  }

  /** The report that ends the proper allocation of `id`. */
  ghost predicate Ends(act: Action, id: int) {
    match act
    case Succeed(x, _, recursive, _) => x == id && !recursive
    case Fail(x, _, _, _, recursive) => x == id && !recursive
    case _ => false
  }

  /** Another thread frees memory of the kind. */
  ghost predicate Hears(act: Action, id: int, isCpu: bool) {
    act.Free? && act.id != id && act.isCpu == isCpu
  }

  /** Still the same allocation; ALLOC_FREE remembers that it heard of a free. */
  ghost predicate StillAllocating(t: Thread, u: Thread, hears: bool) {
    && IsAllocating(t.state) && u.isCpuAlloc == t.isCpuAlloc
    && u.isRetryAllocBeforeBufn == t.isRetryAllocBeforeBufn
    && u.state == if hears then AllocFree else t.state
  }

  /** The thread is not allocating any more, or not there. */
  ghost predicate Out(a: Adaptor, id: int) {
    !(id in a.threads && IsAllocating(a.threads[id].state))
  }

  lemma {:induction false} NudgeKeepsAllocation(a: Adaptor, b: Adaptor, id: int)
    requires Nudged(a, b) && id in a.threads && IsAllocating(a.threads[id].state)
    ensures b.threads[id] == a.threads[id]
  {
    assert NudgedThread(a.threads[id], b.threads[id]);
  }

  /** Blocking on behalf of another thread, or of one that is allocating, leaves allocations alone. */
  lemma {:induction false} BlockLoopKeepsAllocation(a: Adaptor, x: int, id: int)
    requires TP.Valid(a.tracker) && id in a.threads && IsAllocating(a.threads[id].state)
    ensures var b := BlockLoop(a, x).0; id in b.threads && b.threads[id] == a.threads[id]
    ensures id == x ==> BlockLoop(a, x) == (a, Done(true))
  {
    if x in a.threads && a.threads[x].state.BufnWait? {
      var b := With(a, x, a.threads[x].(state := Bufn));
      CheckNudges(b, None);
      NudgeKeepsAllocation(b, CheckForBufn(b, None), id);
      SettleKeepsAllocation(CheckForBufn(b, None), x, id);
    } else {
      SettleKeepsAllocation(a, x, id);
    }
  }

  lemma {:induction false} ThrowOomShape(a: Adaptor, id: int, split: bool)
    requires id in a.threads
    ensures var b := ThrowOom(a, id, split).0; var t := a.threads[id];
      && b.threads == a.threads[id := b.threads[id]]
      && b.threads[id] == t.(metrics := b.threads[id].metrics, numTimesRetried := b.threads[id].numTimesRetried)
  {
  }

  lemma {:induction false} SettleKeepsAllocation(a: Adaptor, x: int, id: int)
    requires id in a.threads && IsAllocating(a.threads[id].state)
    ensures var b := Settle(a, x).0; id in b.threads && b.threads[id] == a.threads[id]
  {
    hide ThrowOom, OpenFrames;
    if x in a.threads {
      var t := a.threads[x];
      ThrowOomShape(With(a, x, t.(state := BufnWait)), x, false);
      ThrowOomShape(With(a, x, t.(state := Running)), x, true);
    }
  }

  lemma {:induction false} RemoveKeepsOthers(a: Adaptor, x: int, task: int, id: int)
    requires TP.Valid(a.tracker) && id in a.threads && IsAllocating(a.threads[id].state) && x != id
    ensures var b := RemoveAssociation(a, x, task).0; id in b.threads && b.threads[id] == a.threads[id]
    ensures var b := RemoveThread(a, x, task); id in b.threads && b.threads[id] == a.threads[id]
  {
    RemoveShrinks(a, x, task);
    var b := RemoveAssociation(a, x, task).0;
    assert b.tracker == a.tracker;
    WakeAfterTaskFinishesNudges(b);
    NudgeKeepsAllocation(b, WakeAfterTaskFinishes(b), id);
  }

  ghost predicate Keeps(a: Adaptor, b: Adaptor, id: int) {
    id in a.threads && id in b.threads && StillAllocating(a.threads[id], b.threads[id], false)
  }

  lemma {:induction false} RegisterKeeps(a: Adaptor, x: int, task: int, id: int)
    requires TP.Valid(a.tracker) && id in a.threads && IsAllocating(a.threads[id].state) && x != id
    ensures Keeps(a, StartDedicated(a, x, task).0, id)
  {
    hide RemoveAssociation, RemoveThread;
    if x in a.threads {
      RemoveKeepsOthers(a, x, a.threads[x].taskId, id);
    }
  }

  lemma {:induction false} JoinPoolKeeps(a: Adaptor, isForShuffle: bool, x: int, tasks: set<int>, id: int)
    requires id in a.threads && IsAllocating(a.threads[id].state)
    ensures Keeps(a, PoolWorking(a, isForShuffle, x, tasks).0, id)
  {
  }

  lemma {:induction false} LeavePoolKeeps(a: Adaptor, x: int, tasks: set<int>, id: int)
    requires TP.Valid(a.tracker) && id in a.threads && IsAllocating(a.threads[id].state) && x != id
    ensures Keeps(a, PoolFinished(a, x, tasks), id)
  {
    hide RemoveAssociation, WakeAfterTaskFinishes;
    if x in a.threads {
      var b := CheckpointMetrics(a, x);
      var t := b.threads[x];
      RemoveKeepsOthers(With(b, x, t.(poolTaskIds := t.poolTaskIds - tasks)), x, -1, id);
    }
  }

  lemma {:induction false} RemoveOwn(a: Adaptor, id: int, task: int)
    requires id in a.threads && IsAllocating(a.threads[id].state)
    ensures var r := RemoveAssociation(a, id, task);
      && r.0.tracker == a.tracker && !r.1
      && if Leaves(a.threads[id], task) then id !in r.0.threads else Keeps(a, r.0, id)
  {
    RemoveAssociationShape(a, id, task);
    TrimmedShape(a, id, task);
    hide RemoveAssociation, Trimmed, Leave;
    LeaveShape(Trimmed(a, id, task), id);
  }

  /** Registering anew keeps the thread, unless that moves it from one task to another. */
  lemma {:induction false} RegisterOwn(a: Adaptor, id: int, task: int)
    requires id in a.threads && IsAllocating(a.threads[id].state) && task >= 0
    ensures var b := StartDedicated(a, id, task).0;
      if a.threads[id].taskId >= 0 && a.threads[id].taskId != task then Out(b, id) else Keeps(a, b, id)
  {
    hide RemoveAssociation;
    if a.threads[id].taskId >= 0 {
      RemoveOwn(a, id, a.threads[id].taskId);
    }
  }

  lemma {:induction false} DeregisterOwn(a: Adaptor, id: int, task: int)
    requires id in a.threads && IsAllocating(a.threads[id].state)
    ensures var b := RemoveThread(a, id, task); if Leaves(a.threads[id], task) then Out(b, id) else Keeps(a, b, id)
  {
    hide RemoveAssociation, WakeAfterTaskFinishes;
    RemoveOwn(a, id, task);
  }

  lemma {:induction false} LeavePoolOwn(a: Adaptor, id: int, tasks: set<int>)
    requires id in a.threads && IsAllocating(a.threads[id].state)
    ensures var b := PoolFinished(a, id, tasks);
      if a.threads[id].poolTaskIds <= tasks then Out(b, id) else Keeps(a, b, id)
  {
    hide RemoveAssociation, AddToEach, WakeAfterTaskFinishes;
    var b := CheckpointMetrics(a, id);
    var t := b.threads[id];
    RemoveOwn(With(b, id, t.(poolTaskIds := t.poolTaskIds - tasks)), id, -1);
    assert t.poolTaskIds - tasks == {} <==> t.poolTaskIds <= tasks by {
      if t.poolTaskIds - tasks == {} {
        forall x | x in t.poolTaskIds ensures x in tasks {
          assert x !in t.poolTaskIds - tasks;
        }
      }
    }
  }

  lemma {:induction false} FinishTaskKeeps(a: Adaptor, task: int, id: int)
    requires Inv(a) && task >= 0 && id in a.threads && IsAllocating(a.threads[id].state)
    ensures var b := TaskDone(a, task); if Departs(a, id, task) then Out(b, id) else Keeps(a, b, id)
  {
    var c := CutTask(a, task);
    CutTaskClears(a, task);
    CutTaskFate(a, task, id);
    InvWakeIf(c);
    assert TaskDone(a, task).threads == WakeIf(c).threads;
    hide Inv, CutTask, TaskDone, WakeIf, Departs;
    if id in c.0.threads {
      NudgeKeepsAllocation(c.0, WakeIf(c), id);
    }
  }

  lemma {:induction false} RegistrationOwned(a: Adaptor, act: Action, id: int)
    requires Inv(a) && Enabled(a, act)
    requires act.Register? || act.JoinPool? || act.LeavePool? || act.Deregister? || act.FinishTask?
    requires id in a.threads && IsAllocating(a.threads[id].state)
    ensures var b := Step(a, act).0; if Deregisters(a, act, id) then Out(b, id) else Keeps(a, b, id)
  {
    InvValid(a);
    hide Inv, StartDedicated, PoolWorking, PoolFinished, RemoveThread, TaskDone;
    match act
    case Register(x, task) =>
      if x == id { RegisterOwn(a, id, task); } else { RegisterKeeps(a, x, task, id); }
    case JoinPool(isForShuffle, x, tasks) => JoinPoolKeeps(a, isForShuffle, x, tasks, id);
    case LeavePool(x, tasks) =>
      if x == id { LeavePoolOwn(a, id, tasks); } else { LeavePoolKeeps(a, x, tasks, id); }
    case Deregister(x, task) =>
      if x == id { DeregisterOwn(a, id, task); } else { RemoveKeepsOthers(a, x, task, id); }
    case FinishTask(task) => FinishTaskKeeps(a, task, id);
  }

  lemma {:induction false} EnterAllocKeeps(a: Adaptor, x: int, isCpu: bool, blocking: bool, id: int)
    requires id in a.threads && IsAllocating(a.threads[id].state)
    ensures Keeps(a, EnterAlloc(a, x, isCpu, blocking).0, id)
  {
  }

  lemma {:induction false} BlockThenAllocKeeps(a: Adaptor, x: int, isCpu: bool, id: int)
    requires TP.Valid(a.tracker) && id in a.threads && IsAllocating(a.threads[id].state)
    ensures Keeps(a, BlockThenAlloc(a, x, isCpu).0, id)
  {
    BlockLoopKeepsAllocation(a, x, id);
    EnterAllocKeeps(BlockLoop(a, x).0, x, isCpu, true, id);
  }

  lemma {:induction false} AllocateKeeps(a: Adaptor, x: int, isCpu: bool, blocking: bool, id: int)
    requires TP.Valid(a.tracker) && id in a.threads && IsAllocating(a.threads[id].state)
    ensures Keeps(a, PreAlloc(a, x, isCpu, blocking).0, id)
  {
    hide BlockThenAlloc, EnterAlloc, FramesOf, OrphansOf;
    BlockThenAllocKeeps(a, x, isCpu, id);
    EnterAllocKeeps(a, x, isCpu, blocking, id);
  }

  lemma {:induction false} ResumeKeeps(a: Adaptor, x: int, id: int)
    requires TP.Valid(a.tracker) && x in a.waiters && id in a.threads && IsAllocating(a.threads[id].state)
    ensures Keeps(a, Resume(a, x).0, id)
  {
    hide BlockThenAlloc, BlockLoop;
    var b := a.(waiters := a.waiters - {x});
    BlockLoopKeepsAllocation(b, x, id);
    if a.waiters[x].call.ForAlloc? {
      BlockThenAllocKeeps(b, x, a.waiters[x].call.isCpu, id);
    }
  }

  lemma {:induction false} BlockingKeeps(a: Adaptor, act: Action, id: int)
    requires Inv(a) && Enabled(a, act) && (act.Allocate? || act.AwaitReady? || act.Wake?)
    requires id in a.threads && IsAllocating(a.threads[id].state)
    ensures Keeps(a, Step(a, act).0, id)
  {
    InvValid(a);
    hide Inv, PreAlloc, Resume, BlockLoop;
    match act
    case Allocate(x, isCpu, blocking) => AllocateKeeps(a, x, isCpu, blocking, id);
    case AwaitReady(x) => BlockLoopKeepsAllocation(a, x, id);
    case Wake(x) => ResumeKeeps(a, x, id);
  }

  lemma {:induction false} SucceedKeeps(a: Adaptor, x: int, isCpu: bool, recursive: bool, bytes: nat, id: int)
    requires Inv(a) && x !in a.waiters && Reports(a, x, isCpu, recursive)
    requires id in a.threads && IsAllocating(a.threads[id].state) && (x == id ==> recursive)
    ensures Keeps(a, PostAllocSuccess(a, x, isCpu, recursive, bytes).0, id)
  {
    if x in a.threads && !recursive {
      var b := With(Pop(a, x), x, a.threads[x].(isRetryAllocBeforeBufn := false));
      if Current(a, x) {
        ProperReport(a, x, isCpu);
        b := RecordSuccess(Pop(a, x), x, isCpu, bytes);
      } else {
        InvPopOrphan(a, x);
      }
      WakeNextNudges(b, isCpu);
      NudgeKeepsAllocation(b, WakeNext(b, isCpu), id);
    }
  }

  lemma {:induction false} CheckKeeps(a: Adaptor, b: Adaptor, id: int)
    requires TP.Valid(b.tracker) && id in a.threads && IsAllocating(a.threads[id].state)
    requires id in b.threads && b.threads[id] == a.threads[id]
    ensures Keeps(a, CheckForBufn(b, None), id)
  {
    hide CheckForBufn;
    CheckNudges(b, None);
    NudgeKeepsAllocation(b, CheckForBufn(b, None), id);
  }

  lemma {:induction false} FailKeeps(a: Adaptor, x: int, isCpu: bool, isOom: bool, blocking: bool, recursive: bool,
                                     id: int)
    requires Inv(a) && x !in a.waiters && Reports(a, x, isCpu, recursive)
    requires id in a.threads && IsAllocating(a.threads[id].state) && (x == id ==> recursive)
    ensures Keeps(a, PostAllocFailed(a, x, isCpu, isOom, blocking, recursive).0, id)
  {
    InvAt(a, id);
    if x in a.threads && !recursive {
      if Current(a, x) {
        ProperReport(a, x, isCpu);
        CheckKeeps(a, RecordFailure(Pop(a, x), x, isOom, blocking), id);
      } else {
        InvPopOrphan(a, x);
      }
    } else {
      CheckKeeps(a, Pop(a, x), id);
    }
    hide Inv, Reports, CheckForBufn, OrphansOf, FramesOf, Notify;
  }

  /** A free before the wake-up that goes with it. */
  ghost function Freed(a: Adaptor, id: int, isCpu: bool, bytes: nat): Adaptor {
    var b := RecordFree(a, id, isCpu, bytes);
    b.(threads := MarkFreed(b.threads, id, isCpu))
  }

  /** The same state and kind, except that an allocation hears of the free. */
  ghost predicate LearnsOfFree(t: Thread, u: Thread, hears: bool) {
    && u.isCpuAlloc == t.isCpuAlloc && u.isRetryAllocBeforeBufn == t.isRetryAllocBeforeBufn
    && u.state == if hears && t.state.Alloc? then AllocFree else t.state
  }

  lemma {:induction false} RecordFreeShape(a: Adaptor, id: int, isCpu: bool, bytes: nat)
    ensures var b := RecordFree(a, id, isCpu, bytes); b.tracker == a.tracker && b.threads.Keys == a.threads.Keys
    ensures var b := RecordFree(a, id, isCpu, bytes);
      forall x :: x in a.threads ==> LearnsOfFree(a.threads[x], b.threads[x], false)
  {
    var b := RecordFree(a, id, isCpu, bytes);
    if id in a.threads && !isCpu && !a.threads[id].isInSpilling {
      var t := a.threads[id];
      var u := t.(metrics := t.metrics.(activeFootprint := t.metrics.activeFootprint - bytes));
      assert b.threads == a.threads[id := u];
    } else {
      assert b.threads == a.threads;
    }
  }

  lemma {:induction false} FreedShape(a: Adaptor, id: int, isCpu: bool, bytes: nat)
    ensures var c := Freed(a, id, isCpu, bytes); c.tracker == a.tracker && c.threads.Keys == a.threads.Keys
    ensures var c := Freed(a, id, isCpu, bytes);
      forall x :: x in a.threads ==>
        LearnsOfFree(a.threads[x], c.threads[x], x != id && a.threads[x].isCpuAlloc == isCpu)
  {
    hide RecordFree;
    RecordFreeShape(a, id, isCpu, bytes);
  }

  lemma {:induction false} FreeKeeps(a: Adaptor, x: int, isCpu: bool, bytes: nat, id: int)
    requires TP.Valid(a.tracker) && id in a.threads && IsAllocating(a.threads[id].state)
    ensures var b := Dealloc(a, x, isCpu, bytes);
      id in b.threads
      && StillAllocating(a.threads[id], b.threads[id], Hears(Free(x, isCpu, bytes), id, a.threads[id].isCpuAlloc))
  {
    hide RecordFree, MarkFreed, WakeNext, TP.Valid;
    FreedShape(a, x, isCpu, bytes);
    var c := Freed(a, x, isCpu, bytes);
    assert LearnsOfFree(a.threads[id], c.threads[id], x != id && a.threads[id].isCpuAlloc == isCpu);
    WakeNextNudges(c, isCpu);
    NudgeKeepsAllocation(c, WakeNext(c, isCpu), id);
  }

  /** The thread's own report takes it out of ALLOC, and what follows in the step does not put it back. */
  lemma {:induction false} OwnSuccessEnds(a: Adaptor, id: int, isCpu: bool, bytes: nat)
    requires Inv(a) && id !in a.waiters && Reports(a, id, isCpu, false)
    requires id in a.threads && IsAllocating(a.threads[id].state)
    ensures Out(PostAllocSuccess(a, id, isCpu, false, bytes).0, id)
  {
    InvAt(a, id);
    ProperReport(a, id, isCpu);
    var b := RecordSuccess(Pop(a, id), id, isCpu, bytes);
    assert b.threads[id].state.Running?;
    hide Inv, Reports, WakeNext;
    WakeNextNudges(b, isCpu);
    NudgedNotAllocating(b, WakeNext(b, isCpu), id);
  }

  lemma {:induction false} NudgedNotAllocating(a: Adaptor, b: Adaptor, id: int)
    requires Nudged(a, b) && id in a.threads && !IsAllocating(a.threads[id].state)
    ensures id in b.threads && !IsAllocating(b.threads[id].state)
  {
    assert NudgedThread(a.threads[id], b.threads[id]);
  }

  lemma {:induction false} OwnFailureEnds(a: Adaptor, id: int, isCpu: bool, isOom: bool, blocking: bool)
    requires Inv(a) && id !in a.waiters && Reports(a, id, isCpu, false)
    requires id in a.threads && IsAllocating(a.threads[id].state)
    ensures Out(PostAllocFailed(a, id, isCpu, isOom, blocking, false).0, id)
  {
    InvAt(a, id);
    ProperReport(a, id, isCpu);
    AfterFailureShape(id, a.threads[id], isOom, blocking);
    var b := RecordFailure(Pop(a, id), id, isOom, blocking);
    assert !IsAllocating(b.threads[id].state);
    hide Inv, Reports, CheckForBufn, RecordFailure;
    CheckNudges(b, None);
    NudgedNotAllocating(b, CheckForBufn(b, None), id);
  }

  lemma {:induction false} QuietKeeps(a: Adaptor, act: Action, id: int)
    requires TP.Valid(a.tracker) && Enabled(a, act) && id in a.threads && IsAllocating(a.threads[id].state)
    requires act.WaitOnPool? || act.Spill? || act.DropMetrics? || act.ForgetPriority?
    ensures var b := Step(a, act).0;
      id in b.threads && StillAllocating(a.threads[id], b.threads[id], Hears(act, id, a.threads[id].isCpuAlloc))
  {
    hide TP.Valid;
  }

  lemma {:induction false} WatchdogKeeps(a: Adaptor, javaBlocked: set<int>, id: int)
    requires TP.Valid(a.tracker) && id in a.threads && IsAllocating(a.threads[id].state)
    ensures var b, t := CheckForBufn(a, Some(javaBlocked)), a.threads[id];
      id in b.threads && StillAllocating(t, b.threads[id], Hears(Watchdog(javaBlocked), id, t.isCpuAlloc))
  {
    CheckNudges(a, Some(javaBlocked));
    hide CheckForBufn, Nudged;
    NudgeKeepsAllocation(a, CheckForBufn(a, Some(javaBlocked)), id);
  }

  lemma {:induction false} InFlightByCase(a: Adaptor, act: Action, id: int)
    requires TP.Valid(a.tracker) && Inv(a) && Enabled(a, act) && id in a.threads && IsAllocating(a.threads[id].state)
    ensures var b := Step(a, act).0;
      if Deregisters(a, act, id) || Ends(act, id) then Out(b, id)
      else id in b.threads && StillAllocating(a.threads[id], b.threads[id], Hears(act, id, a.threads[id].isCpuAlloc))
  {
    hide Inv, TP.Valid, Reports, Nudged, CheckForBufn, BlockUntilReady, PreAlloc, Resume, PostAllocSuccess,
      PostAllocFailed, Dealloc, StartDedicated, PoolWorking, PoolFinished, TaskDone, RemoveThread, StillAllocating, Out;
    match act
    case Succeed(x, isCpu, recursive, bytes) =>
      if Ends(act, id) {
        OwnSuccessEnds(a, id, isCpu, bytes);
      } else {
        SucceedKeeps(a, x, isCpu, recursive, bytes, id);
      }
    case Fail(x, isCpu, isOom, blocking, recursive) =>
      if Ends(act, id) {
        OwnFailureEnds(a, id, isCpu, isOom, blocking);
      } else {
        FailKeeps(a, x, isCpu, isOom, blocking, recursive, id);
      }
    case Allocate(_, _, _) => BlockingKeeps(a, act, id);
    case AwaitReady(_) => BlockingKeeps(a, act, id);
    case Wake(_) => BlockingKeeps(a, act, id);
    case Free(x, isCpu, bytes) =>
      InvValid(a);
      FreeKeeps(a, x, isCpu, bytes, id);
    case Watchdog(javaBlocked) => WatchdogKeeps(a, javaBlocked, id);
    case WaitOnPool(_, _) => QuietKeeps(a, act, id);
    case Spill(_, _) => QuietKeeps(a, act, id);
    case DropMetrics(_) => QuietKeeps(a, act, id);
    case ForgetPriority(_) => QuietKeeps(a, act, id);
    case _ => RegistrationOwned(a, act, id);
  }

  /**
   * Exactly its own report and its deregistration end an allocation. Every other step, of any thread,
   * leaves it its state, kind and retry flag, except that a free of its kind by another thread takes it
   * to ALLOC_FREE.
   */
  lemma {:induction false} InFlightIsOwned(a: Adaptor, act: Action, id: int)
    requires Inv(a) && Enabled(a, act) && id in a.threads && IsAllocating(a.threads[id].state)
    ensures var b := Step(a, act).0;
      if Deregisters(a, act, id) || Ends(act, id) then Out(b, id)
      else id in b.threads && StillAllocating(a.threads[id], b.threads[id], Hears(act, id, a.threads[id].isCpuAlloc))
  {
    InvValid(a);
    InFlightByCase(a, act, id);
    hide *;
  }

  /**
   * Over all runs: a success report is always accepted, and a failure report is refused exactly when
   * it is non-recursive and the reporting thread's registration is newer than the allocation.
   */
  lemma {:induction false} ReportsFailExactly(states: seq<Adaptor>, acts: seq<Action>)
    requires IsRun(states, acts) && Inv(states[0]) && |acts| > 0
    ensures var i := |acts| - 1; var a := states[i];
      match acts[i]
      case Succeed(_, _, _, _) => Step(a, acts[i]).1 == Done(true)
      case Fail(id, isCpu, _, _, recursive) =>
        && Step(a, acts[i]).1 == FailureOutcome(a, id, isCpu, recursive)
        && (Step(a, acts[i]).1.Threw? <==> id in a.threads && !recursive && !Current(a, id))
      case _ => true
  {
    var i := |acts| - 1;
    RunsKeepInv(states, acts, i);
    match acts[i]
    case Succeed(id, isCpu, recursive, bytes) => InvSucceed(states[i], id, isCpu, recursive, bytes);
    case Fail(id, isCpu, isOom, blocking, recursive) => InvFail(states[i], id, isCpu, isOom, blocking, recursive);
    case _ =>
  }
}
