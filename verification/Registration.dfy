/** Who may register, what a registration leaves, and what work each way of departing takes away. */
module Registration {
  import opened Common
  import TP = TaskPriority
  import opened ThreadState
  import opened Deadlock
  import opened AdaptorModel
  import opened AdaptorRuns
  import NoStall

  /** The record of a thread that has just been registered. */
  function Fresh(taskId: int, isForShuffle: bool): Thread {
    Thread(Running, taskId, isForShuffle, {}, false, false, false, 0, false, Metrics(0, 0, 0, 0, 0))
  }

  /** A pool thread, a thread that was told to leave, or one that sleeps in another task is refused. */
  ghost predicate RefusesDedicated(t: Thread, task: int) {
    if t.taskId < 0 then true
    else if t.taskId == task then t.state.RemoveThrow?
    else IsBlocked(t.state)
  }

  ghost predicate OthersSame(ts: Threads, us: Threads, id: int) {
    forall x :: x != id ==> (x in us <==> x in ts) && (x in ts ==> us[x] == ts[x])
  }

  lemma {:induction false} MovedRecord(a: Adaptor, id: int)
    requires id in a.threads && a.threads[id].taskId >= 0
    ensures var us := RemoveAssociation(a, id, a.threads[id].taskId).0.threads; var t := a.threads[id];
      && OthersSame(a.threads, us, id)
      && if IsBlocked(t.state) then
           id in us && us[id].state.RemoveThrow? && us[id].taskId == t.taskId
         else id !in us
  {
    RemoveAssociationShape(a, id, a.threads[id].taskId);
    TrimmedShape(a, id, a.threads[id].taskId);
    RemoveShrinks(a, id, a.threads[id].taskId);
    hide RemoveAssociation, Trimmed, Leave, IsBlocked;
    LeaveShape(Trimmed(a, id, a.threads[id].taskId), id);
  }

  /** What a registration for a task leaves. */
  ghost predicate Registers(a: Adaptor, r: (Adaptor, Outcome), id: int, task: int) {
    var us, refused := r.0.threads, id in a.threads && RefusesDedicated(a.threads[id], task);
    && r.1 == (if refused then Threw(InvalidArgument) else Done(true))
    && OthersSame(a.threads, us, id) && id in us
    && if refused then
         us[id].taskId == a.threads[id].taskId && us[id].state == if a.threads[id].taskId >= 0 then RemoveThrow
                                                                  else a.threads[id].state
       else
         && task in r.0.taskToThreads && id in r.0.taskToThreads[task]
         && us[id] == if id in a.threads && a.threads[id].taskId == task then a.threads[id] else Fresh(task, false)
  }

  lemma {:induction false} RegisterShape(a: Adaptor, id: int, task: int)
    requires task >= 0
    ensures Registers(a, StartDedicated(a, id, task), id, task)
  {
    hide RemoveAssociation, IsBlocked;
    if id in a.threads && a.threads[id].taskId >= 0 && a.threads[id].taskId != task {
      MovedRecord(a, id);
    }
  }

  /** Registering a thread for a task: when it is refused, and what it leaves. */
  lemma {:induction false} RegisterExactly(a: Adaptor, id: int, task: int)
    requires Inv(a) && id != -1 && task >= 0
    ensures TP.Valid(a.tracker) && Registers(a, Step(a, Register(id, task)), id, task)
  {
    InvValid(a);
    RegisterShape(a, id, task);
    hide Inv, TP.Valid, StartDedicated, Registers;
  }

  /** A dedicated thread, one told to leave, or one that switches between shuffle and other work is refused. */
  ghost predicate RefusesPool(t: Thread, isForShuffle: bool) {
    t.taskId >= 0 || t.state.RemoveThrow? || t.isForShuffle != isForShuffle
  }

  /** What a registration of a pool thread leaves. */
  ghost predicate Joins(a: Adaptor, r: (Adaptor, Outcome), isForShuffle: bool, id: int, tasks: set<int>) {
    if id in a.threads && RefusesPool(a.threads[id], isForShuffle) then r == (a, Threw(InvalidArgument))
    else
      var t := if id in a.threads then a.threads[id] else Fresh(-1, isForShuffle);
      && r.1 == Done(true) && OthersSame(a.threads, r.0.threads, id) && id in r.0.threads
      && r.0.threads[id] == t.(metrics := Metrics(0, 0, 0, 0, 0), poolTaskIds := t.poolTaskIds + tasks)
  }

  lemma {:induction false} JoinShape(a: Adaptor, isForShuffle: bool, id: int, tasks: set<int>)
    requires id in a.threads ==> a.threads[id].taskId >= -1
    ensures Joins(a, PoolWorking(a, isForShuffle, id, tasks), isForShuffle, id, tasks)
  {
    hide AddToEach;
  }

  /** Registering a pool thread for more tasks: when it is refused, and what it leaves. */
  lemma {:induction false} JoinPoolExactly(a: Adaptor, isForShuffle: bool, id: int, tasks: set<int>)
    requires Inv(a) && id != -1
    ensures TP.Valid(a.tracker) && Joins(a, Step(a, JoinPool(isForShuffle, id, tasks)), isForShuffle, id, tasks)
  {
    InvValid(a);
    if id in a.threads {
      InvAt(a, id);
    }
    hide Inv, TP.Valid;
    JoinShape(a, isForShuffle, id, tasks);
    hide PoolWorking, Joins;
  }

  /** Only a dedicated thread can say that it waits for a pool, and any registered one that it spills. */
  lemma {:induction false} FlagsExactly(a: Adaptor, id: int, flag: bool)
    requires Inv(a)
    ensures TP.Valid(a.tracker)
    ensures Step(a, WaitOnPool(id, flag)) ==
      if id in a.threads && a.threads[id].taskId >= 0
      then (a.(threads := a.threads[id := a.threads[id].(poolBlocked := flag)]), Done(true))
      else (a, Threw(InvalidArgument))
    ensures Step(a, Spill(id, flag)) ==
      (if id in a.threads then a.(threads := a.threads[id := a.threads[id].(isInSpilling := flag)]) else a, Done(true))
  {
    InvValid(a);
    hide Inv, TP.Valid;
  }

  /** A checkpoint adds up counts and footprints, keeps the larger maximum, and starts the thread anew. */
  lemma {:induction false} CheckpointMoves(a: Adaptor, id: int, task: int)
    requires id in a.threads
    ensures var b, t := CheckpointMetrics(a, id), a.threads[id];
      var mine := if t.taskId < 0 then task in t.poolTaskIds else t.taskId == task;
      && b.threads == a.threads[id := t.(metrics := Metrics(0, 0, 0, 0, 0))]
      && (task in b.taskToMetrics <==> task in a.taskToMetrics || mine)
      && (task in a.taskToMetrics && !mine ==> b.taskToMetrics[task] == a.taskToMetrics[task])
      && (mine ==>
            var was := if task in a.taskToMetrics then a.taskToMetrics[task] else Metrics(0, 0, 0, 0, 0);
            var now := b.taskToMetrics[task];
            && now.numRetryThrow == was.numRetryThrow + t.metrics.numRetryThrow
            && now.numSplitRetryThrow == was.numSplitRetryThrow + t.metrics.numSplitRetryThrow
            && now.activeFootprint == was.activeFootprint + t.metrics.activeFootprint
            && now.maxFootprint == was.maxFootprint + t.metrics.maxFootprint
            && now.maxAllocated >= was.maxAllocated && now.maxAllocated >= t.metrics.maxAllocated
            && (now.maxAllocated == was.maxAllocated || now.maxAllocated == t.metrics.maxAllocated))
  {
  }

  // ---- what work is left ----

  /** The thread works for the same tasks but `tasks`; apart from its state and its metrics nothing else changes. */
  ghost predicate KeepsWork(t: Thread, u: Thread, tasks: set<int>) {
    u == t.(state := u.state, poolTaskIds := t.poolTaskIds - tasks, metrics := u.metrics)
  }

  lemma {:induction false} KeepsNothing(t: Thread)
    ensures t.poolTaskIds - {} == t.poolTaskIds && (t.poolTaskIds == {} ==> forall tasks :: t.poolTaskIds - tasks == {})
  {
  }

  lemma {:induction false} RouseKeepsWork(a: Adaptor, ids: set<int>)
    ensures var ts, us := a.threads, Rouse(a, ids).threads;
      us.Keys == ts.Keys && forall x :: x in ts ==> us[x] == ts[x].(state := us[x].state)
  {
  }

  lemma {:induction false} WakeIfKeepsWork(r: (Adaptor, bool))
    ensures var ts, us := r.0.threads, WakeIf(r).threads;
      us.Keys == ts.Keys && forall x :: x in ts ==> us[x] == ts[x].(state := us[x].state)
  {
    RouseKeepsWork(r.0, InState(r.0.threads, Blocked));
    RouseKeepsWork(r.0, AnyBufn(r.0.threads));
    hide InState, AnyBufn, Rouse;
  }

  lemma {:induction false} RemoveTrims(a: Adaptor, id: int, task: int, x: int)
    requires Inv(a)
    ensures var us := RemoveAssociation(a, id, task).0.threads; x in us ==>
      x in a.threads && KeepsWork(a.threads[x], us[x], if x == id && task >= 0 then {task} else {})
  {
    if id in a.threads {
      InvAt(a, id);
      KeepsNothing(a.threads[id]);
      RemoveAssociationShape(a, id, task);
      TrimmedShape(a, id, task);
      RemoveShrinks(a, id, task);
      LeaveShape(Trimmed(a, id, task), id);
    }
    hide Inv, RemoveAssociation, Trimmed, Leave, IsBlocked, Gone;
    if x in a.threads {
      KeepsNothing(a.threads[x]);
    }
  }

  /** A deregistration takes a thread from one task, and nobody else from any. */
  lemma {:induction false} DeregisterTrims(a: Adaptor, id: int, task: int, x: int)
    requires Inv(a)
    ensures var us := RemoveThread(a, id, task).threads; x in us ==>
      x in a.threads && KeepsWork(a.threads[x], us[x], if x == id && task >= 0 then {task} else {})
  {
    RemoveTrims(a, id, task, x);
    WakeIfKeepsWork(RemoveAssociation(a, id, task));
    hide Inv, WakeIf, RemoveAssociation;
  }

  /** Leaving the pool takes a thread from the tasks given, and nobody else from any. */
  lemma {:induction false} LeavePoolTrims(a: Adaptor, id: int, tasks: set<int>, x: int)
    requires Inv(a)
    ensures var us := PoolFinished(a, id, tasks).threads; x in us ==>
      x in a.threads && KeepsWork(a.threads[x], us[x], if x == id then tasks else {})
  {
    if x in a.threads {
      KeepsNothing(a.threads[x]);
    }
    if id in a.threads {
      var c := NoStall.TrimForPool(a, id, tasks);
      hide Inv, PoolFinished, RemoveThread;
      if x in a.threads {
        KeepsNothing(c.threads[x]);
      }
      if c.threads[id].poolTaskIds == {} {
        DeregisterTrims(c, id, -1, x);
      }
    }
  }

  /** No thread is new, and none lost any work but `task`. */
  ghost predicate OnlyTrims(ts: Threads, us: Threads, task: int) {
    && us.Keys <= ts.Keys
    && forall x :: x in us ==> ts[x].poolTaskIds - {task} <= us[x].poolTaskIds <= ts[x].poolTaskIds
  }

  lemma {:induction false} RemoveOnlyTrims(a: Adaptor, id: int, task: int)
    requires task >= 0
    ensures OnlyTrims(a.threads, RemoveAssociation(a, id, task).0.threads, task)
  {
    if id in a.threads {
      RemoveAssociationShape(a, id, task);
      TrimmedShape(a, id, task);
      RemoveShrinks(a, id, task);
      LeaveShape(Trimmed(a, id, task), id);
    }
    hide RemoveAssociation, Trimmed, Leave, IsBlocked, Gone;
  }

  lemma {:induction false} DropOnlyTrims(a: Adaptor, id: int, task: int)
    requires task >= 0
    ensures OnlyTrims(a.threads, DropPoolTask(a, id, task).0.threads, task)
  {
    if id in a.threads {
      var t := a.threads[id];
      RemoveOnlyTrims(With(a, id, t.(poolTaskIds := t.poolTaskIds - {task})), id, task);
    }
    hide RemoveAssociation;
  }

  lemma {:induction false} RemoveAllOnlyTrims(a: Adaptor, ids: set<int>, task: int)
    requires task >= 0
    ensures OnlyTrims(a.threads, RemoveAll(a, ids, task).0.threads, task)
    decreases |ids|
  {
    if ids != {} {
      var id := MinOf(ids);
      RemoveOnlyTrims(a, id, task);
      RemoveAllOnlyTrims(RemoveAssociation(a, id, task).0, ids - {id}, task);
    }
  }

  lemma {:induction false} DropAllOnlyTrims(a: Adaptor, ids: set<int>, task: int)
    requires task >= 0
    ensures OnlyTrims(a.threads, DropPoolTaskAll(a, ids, task).0.threads, task)
    decreases |ids|
  {
    if ids != {} {
      var id := MinOf(ids);
      DropOnlyTrims(a, id, task);
      DropAllOnlyTrims(DropPoolTask(a, id, task).0, ids - {id}, task);
    }
  }

  lemma {:induction false} CutTaskOnlyTrims(a: Adaptor, task: int)
    requires task >= 0
    ensures OnlyTrims(a.threads, CutTask(a, task).0.threads, task)
  {
    if task in a.taskToThreads {
      RemoveAllOnlyTrims(a, a.taskToThreads[task], task);
    }
    var r := if task in a.taskToThreads then RemoveAll(a, a.taskToThreads[task], task).0 else a;
    DropAllOnlyTrims(r, r.threads.Keys, task);
    hide RemoveAll, DropPoolTaskAll;
  }

  /** The end of a task takes every thread from it, and nobody from any other. */
  lemma {:induction false} FinishTrims(a: Adaptor, task: int, x: int)
    requires Inv(a) && task >= 0
    ensures var us := TaskDone(a, task).threads; x in us ==>
      x in a.threads && KeepsWork(a.threads[x], us[x], {task})
  {
    CutTaskOnlyTrims(a, task);
    TaskDoneCleansUp(a, task);
    CutTaskFate(a, task, x);
    WakeIfKeepsWork(CutTask(a, task));
    assert TaskDone(a, task).threads == WakeIf(CutTask(a, task)).threads;
    hide Inv, CutTask, WakeIf, Departs, TaskDone, IsBlocked;
  }

  /** Dropping the record of a task, or its priority, drops that one and no other. */
  lemma {:induction false} DropsExactly(a: Adaptor, task: int, other: int)
    requires Inv(a)
    ensures TP.Valid(a.tracker)
    ensures var b := Step(a, DropMetrics(task)).0;
      && b.threads == a.threads && b.tracker == a.tracker && b.taskToThreads == a.taskToThreads
      && (other in b.taskToMetrics <==> other in a.taskToMetrics && other != task)
      && (other in b.taskToMetrics ==> b.taskToMetrics[other] == a.taskToMetrics[other])
    ensures var b := Step(a, ForgetPriority(task)).0;
      && b.threads == a.threads && b.taskToThreads == a.taskToThreads && b.taskToMetrics == a.taskToMetrics
      && (TP.Issued(b.tracker, other) <==> TP.Issued(a.tracker, other) && (other != task || task == -1))
      && (TP.Issued(b.tracker, other) ==> TP.PriorityOf(b.tracker, other) == TP.PriorityOf(a.tracker, other))
  {
    InvValid(a);
    hide Inv, TP.Valid;
  }
}
