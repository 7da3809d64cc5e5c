/** The adaptor never leaves every registered thread blocked. */
module NoStall {
  import opened Common
  import TP = TaskPriority
  import opened ThreadState
  import opened Deadlock
  import opened AdaptorModel
  import opened Nudge
  import opened AdaptorRuns

  /** Every registered thread sleeps or is about to: nobody is left to wake anybody. */
  ghost predicate Stalled(a: Adaptor) {
    forall id :: id in a.threads ==> IsBlocked(a.threads[id].state)
  }

  /** There is a dedicated thread, and every task a pool thread works on has one. */
  ghost predicate Supported(ts: Threads) {
    TaskIds(ts) != {} && PoolsCovered(ts)
  }

  /** When all are blocked the detector fires, and either a BLOCKED thread is let go or all tasks are BUFN. */
  lemma {:induction false} StalledIsDeadlock(a: Adaptor, java: JavaBlocked)
    requires Stalled(a) && Supported(a.threads)
    ensures Deadlocked(a.threads, java)
    ensures InState(a.threads, Blocked) == {} ==> InState(a.threads, Bufn) != {} && AllBufnTest(a.threads, java)
  {
    var ts := a.threads;
    forall task | task in TaskIds(ts)
      ensures TaskBlocked(ts, task, java)
      ensures InState(ts, Blocked) == {} ==> TaskBufn(ts, task, java)
    {
      var id := DedicatedThread(ts, task);
      assert BlockedOrAbove(id, ts[id], java);
      assert ts[id].state.Blocked? ==> id in InState(ts, Blocked);
    }
    AllBufnTestExact(ts, java);
    var some := Member(TaskIds(ts));
    var id := DedicatedThread(ts, some);
    assert id in InState(ts, Blocked) + InState(ts, Bufn);
  }

  lemma {:induction false} BreakingWakes(a: Adaptor, java: JavaBlocked)
    requires TP.Valid(a.tracker) && Stalled(a) && Supported(a.threads)
    ensures !Stalled(CheckForBufn(a, java))
  {
    StalledIsDeadlock(a, java);
    var b := BreakBlocked(a);
    BreakBlockedNudges(a);
    BreakBufnNudges(b);
    if InState(a.threads, Blocked) != {} {
      assert !Stalled(b);
      NudgedStaysAwake(b, BreakBufn(b));
    } else {
      assert InState(b.threads, Bufn) != {};
      assert !Stalled(BreakBufn(b));
    }
  }

  /** A check never ends in a stall: the watchdog always finds somebody to let go. */
  lemma {:induction false} CheckNeverStalls(a: Adaptor, java: JavaBlocked)
    requires TP.Valid(a.tracker) && Supported(a.threads)
    ensures !Stalled(CheckForBufn(a, java))
  {
    if Stalled(a) {
      BreakingWakes(a, java);
    } else {
      CheckNudges(a, java);
      NudgedStaysAwake(a, CheckForBufn(a, java));
    }
  }

  /** Nudging blocks nobody. */
  lemma {:induction false} NudgedStaysAwake(a: Adaptor, b: Adaptor)
    requires Nudged(a, b) && !Stalled(a)
    ensures !Stalled(b)
  {
    var id :| id in a.threads && !IsBlocked(a.threads[id].state);
    assert NudgedThread(a.threads[id], b.threads[id]);
  }

  // ---- every step ----

  /** Same threads, same tasks: only the rest of the records may differ. */
  ghost predicate SameTasks(ts: Threads, us: Threads) {
    && us.Keys == ts.Keys
    && forall id :: id in ts ==> us[id].taskId == ts[id].taskId && us[id].poolTaskIds == ts[id].poolTaskIds
  }

  lemma {:induction false} SameTasksSupported(ts: Threads, us: Threads)
    requires SameTasks(ts, us) && Supported(ts)
    ensures Supported(us)
  {
    forall task ensures task in TaskIds(ts) <==> task in TaskIds(us) {
      if task in TaskIds(ts) {
        var id := DedicatedThread(ts, task);
        assert DedicatedTo(us, id, task);
      }
      if task in TaskIds(us) {
        var id := DedicatedThread(us, task);
        assert DedicatedTo(ts, id, task);
      }
    }
    assert TaskIds(us) == TaskIds(ts);
    forall task | task in PoolTasks(us) ensures task in PoolTasks(ts) {
      PoolTasksHaveWorkers(us, task);
      var id := Member(Workers(us, task));
      assert WorksFor(ts, id, task);
    }
  }

  /** A check on a state with the tasks of a supported one does not stall. */
  lemma {:induction false} CheckInContext(a: Adaptor, java: JavaBlocked, us: Threads)
    requires TP.Valid(a.tracker) && Supported(us) && SameTasks(us, a.threads)
    ensures !Stalled(CheckForBufn(a, java))
    ensures SameTasks(us, CheckForBufn(a, java).threads)
  {
    SameTasksSupported(us, a.threads);
    CheckNeverStalls(a, java);
    CheckNudges(a, java);
    assert forall id :: id in a.threads ==> NudgedThread(a.threads[id], CheckForBufn(a, java).threads[id]);
  }

  lemma {:induction false} WakeNeverStalls(a: Adaptor)
    requires a.threads != map[]
    ensures !Stalled(WakeAfterTaskFinishes(a))
  {
    var b := WakeAfterTaskFinishes(a);
    var blocked := InState(a.threads, Blocked);
    if blocked != {} {
      var id := Member(blocked);
      assert b.threads[id].state.Running?;
    } else {
      var id := Member(a.threads.Keys);
      assert !a.threads[id].state.Blocked? by {
        assert id !in blocked;
      }
      assert !IsBlocked(b.threads[id].state);
    }
  }

  /** Did `id` leave, or was it told to? */
  ghost predicate Left(a: Adaptor, b: Adaptor, id: int)
    requires id in a.threads
  {
    id !in b.threads || (b.threads[id].state.RemoveThrow? && !a.threads[id].state.RemoveThrow?)
  }

  /** No thread that was not running leaves. */
  ghost predicate OnlyRunningLeave(a: Adaptor, b: Adaptor) {
    forall id :: id in a.threads && Left(a, b, id) ==> a.threads[id].state.Running?
  }

  /** Deregistering changes no state except to RemoveThrow, and unless flagged removes no running thread. */
  ghost predicate Removal(a: Adaptor, b: Adaptor, flag: bool) {
    && (forall id :: id in a.threads && id in b.threads ==>
          b.threads[id].state == a.threads[id].state || b.threads[id].state.RemoveThrow?)
    && (!flag ==> forall id :: id in a.threads && a.threads[id].state.Running? ==>
          id in b.threads && b.threads[id].state.Running?)
    && b.threads.Keys <= a.threads.Keys
  }

  lemma {:induction false} RemoveIsRemoval(a: Adaptor, id: int, task: int)
    ensures var r := RemoveAssociation(a, id, task); Removal(a, r.0, r.1)
  {
    if id in a.threads {
      RemoveAssociationShape(a, id, task);
      TrimmedShrinks(a, id, task);
      var c := Trimmed(a, id, task);
      LeaveShrinks(c, id);
      assert Removal(a, c, false);
    }
  }

  lemma {:induction false} RemovalTransitive(a: Adaptor, b: Adaptor, c: Adaptor, f: bool, g: bool)
    requires Removal(a, b, f) && Removal(b, c, g)
    ensures Removal(a, c, f || g)
  {
  }

  lemma {:induction false} RemoveAllIsRemoval(a: Adaptor, ids: set<int>, task: int)
    ensures var r := RemoveAll(a, ids, task); Removal(a, r.0, r.1)
    decreases |ids|
  {
    if ids != {} {
      var first := RemoveAssociation(a, MinOf(ids), task);
      var rest := RemoveAll(first.0, ids - {MinOf(ids)}, task);
      RemoveIsRemoval(a, MinOf(ids), task);
      RemoveAllIsRemoval(first.0, ids - {MinOf(ids)}, task);
      RemovalTransitive(a, first.0, rest.0, first.1, rest.1);
    }
  }

  lemma {:induction false} DropIsRemoval(a: Adaptor, id: int, task: int)
    ensures var r := DropPoolTask(a, id, task); Removal(a, r.0, r.1)
  {
    if id in a.threads && task in a.threads[id].poolTaskIds {
      var t := a.threads[id];
      var b := With(a, id, t.(poolTaskIds := t.poolTaskIds - {task}));
      assert Removal(a, b, false);
      RemoveIsRemoval(b, id, task);
      RemovalTransitive(a, b, RemoveAssociation(b, id, task).0, false, RemoveAssociation(b, id, task).1);
    }
  }

  lemma {:induction false} DropAllIsRemoval(a: Adaptor, ids: set<int>, task: int)
    ensures var r := DropPoolTaskAll(a, ids, task); Removal(a, r.0, r.1)
    decreases |ids|
  {
    if ids != {} {
      var first := DropPoolTask(a, MinOf(ids), task);
      var rest := DropPoolTaskAll(first.0, ids - {MinOf(ids)}, task);
      DropIsRemoval(a, MinOf(ids), task);
      DropAllIsRemoval(first.0, ids - {MinOf(ids)}, task);
      RemovalTransitive(a, first.0, rest.0, first.1, rest.1);
    }
  }

  /** A removal followed by the conditional wake-up does not stall, if only running threads left. */
  lemma {:induction false} RemovalNeverStalls(a: Adaptor, r: (Adaptor, bool))
    requires TP.Valid(a.tracker) && TP.Valid(r.0.tracker)
    requires !Stalled(a) && Removal(a, r.0, r.1) && WakeIf(r).threads != map[]
    requires OnlyRunningLeave(a, WakeIf(r))
    ensures !Stalled(WakeIf(r))
  {
    if r.1 {
      WakeAfterTaskFinishesNudges(r.0);
      assert r.0.threads.Keys == WakeIf(r).threads.Keys;
      assert r.0.threads.Keys != {};
      WakeNeverStalls(r.0);
    } else {
      var id :| id in a.threads && !IsBlocked(a.threads[id].state);
      assert !Left(a, r.0, id);
      assert !IsBlocked(r.0.threads[id].state);
    }
  }

  /** One thread changes, and not into a blocked state. */
  lemma {:induction false} AwakeThread(a: Adaptor, b: Adaptor, id: int)
    requires !Stalled(a)
    requires forall x :: x in a.threads && x != id ==> x in b.threads && b.threads[x].state == a.threads[x].state
    requires id in a.threads ==>
      id in b.threads && (!IsBlocked(a.threads[id].state) ==> !IsBlocked(b.threads[id].state))
    ensures !Stalled(b)
  {
    var x :| x in a.threads && !IsBlocked(a.threads[x].state);
    assert !IsBlocked(b.threads[x].state);
  }

  /** `Settle` touches its own thread only: two states move on, one leaves. */
  lemma {:induction false} SettleShape(a: Adaptor, id: int)
    requires id in a.threads && !a.threads[id].state.RemoveThrow?
    ensures var b := Settle(a, id).0; var t := a.threads[id];
      && b.threads.Keys == a.threads.Keys && (forall x :: x in a.threads && x != id ==> b.threads[x] == a.threads[x])
      && b.threads[id].taskId == t.taskId && b.threads[id].poolTaskIds == t.poolTaskIds
      && b.threads[id].state
         == (if t.state.BufnThrow? then BufnWait else if t.state.SplitThrow? then Running else t.state)
  {
    hide Erase, ThrowOom;
    var t := a.threads[id];
    ThrowOomShape(With(a, id, t.(state := BufnWait)), id, false);
    ThrowOomShape(With(a, id, t.(state := Running)), id, true);
  }

  lemma {:induction false} SettleStaysAwake(a: Adaptor, id: int)
    requires !Stalled(a) && (id in a.threads ==> !a.threads[id].state.RemoveThrow?)
    ensures !Stalled(Settle(a, id).0)
    ensures SameTasks(a.threads, Settle(a, id).0.threads)
  {
    if id in a.threads {
      SettleShape(a, id);
      AwakeThread(a, Settle(a, id).0, id);
    }
  }

  lemma {:induction false} CheckKeepsTasks(a: Adaptor, java: JavaBlocked)
    requires TP.Valid(a.tracker)
    ensures SameTasks(a.threads, CheckForBufn(a, java).threads)
  {
    CheckNudges(a, java);
    assert forall id :: id in a.threads ==> NudgedThread(a.threads[id], CheckForBufn(a, java).threads[id]);
  }

  lemma {:induction false} EnterBufnStaysAwake(a: Adaptor, id: int)
    requires TP.Valid(a.tracker) && id in a.threads && a.threads[id].state.BufnWait?
    requires Supported(BlockLoop(a, id).0.threads)
    ensures !Stalled(BlockLoop(a, id).0)
    ensures SameTasks(a.threads, BlockLoop(a, id).0.threads)
  {
    hide Supported, Stalled, CheckForBufn, Settle;
    var b := With(a, id, a.threads[id].(state := Bufn));
    var c := CheckForBufn(b, None);
    CheckOnOwnBufn(b, None, id);
    CheckKeepsTasks(b, None);
    SettleShape(c, id);
    CheckInContext(b, None, BlockLoop(a, id).0.threads);
    SettleStaysAwake(c, id);
  }

  lemma {:induction false} BlockLoopStaysAwake(a: Adaptor, id: int)
    requires TP.Valid(a.tracker) && !Stalled(a) && Supported(BlockLoop(a, id).0.threads)
    requires OnlyRunningLeave(a, BlockLoop(a, id).0)
    ensures !Stalled(BlockLoop(a, id).0)
    ensures SameTasks(a.threads, BlockLoop(a, id).0.threads)
  {
    hide Supported, Stalled, CheckForBufn, Settle, OnlyRunningLeave;
    if id in a.threads && a.threads[id].state.BufnWait? {
      EnterBufnStaysAwake(a, id);
    } else {
      if id in a.threads {
        SettleKeepsThread(a, id);
      }
      SettleStaysAwake(a, id);
    }
  }

  lemma {:induction false} SettleKeepsThread(a: Adaptor, id: int)
    requires id in a.threads && OnlyRunningLeave(a, Settle(a, id).0)
    ensures !a.threads[id].state.RemoveThrow?
  {
    if a.threads[id].state.RemoveThrow? {
      assert Left(a, Settle(a, id).0, id);
    }
  }

  lemma {:induction false} SameTasksWith(a: Adaptor, id: int, s: State, isCpu: bool)
    ensures SameTasks(a.threads, a.threads)
    ensures id in a.threads ==>
      SameTasks(With(a, id, a.threads[id].(state := s, isCpuAlloc := isCpu)).threads, a.threads)
  {
  }

  lemma {:induction false} EnterAllocShape(a: Adaptor, id: int, isCpu: bool, blocking: bool)
    ensures var b := EnterAlloc(a, id, isCpu, blocking).0;
      && SameTasks(b.threads, a.threads)
      && (forall x :: x in a.threads && x != id ==> b.threads[x] == a.threads[x])
      && (forall x :: x in a.threads ==> (b.threads[x].state.RemoveThrow? <==> a.threads[x].state.RemoveThrow?))
      && (forall x :: x in a.threads ==> (IsBlocked(b.threads[x].state) <==> IsBlocked(a.threads[x].state)))
  {
    hide FramesOf, OrphansOf, SameTasks;
    SameTasksWith(a, id, Alloc, isCpu);
  }

  lemma {:induction false} BlockThenAllocStaysAwake(a: Adaptor, id: int, isCpu: bool)
    requires TP.Valid(a.tracker) && !Stalled(a) && Supported(BlockThenAlloc(a, id, isCpu).0.threads)
    requires OnlyRunningLeave(a, BlockThenAlloc(a, id, isCpu).0)
    ensures !Stalled(BlockThenAlloc(a, id, isCpu).0)
  {
    var r := BlockLoop(a, id);
    var c := BlockThenAlloc(a, id, isCpu).0;
    EnterAllocShape(r.0, id, isCpu, true);
    SameTasksSupported(c.threads, r.0.threads);
    assert OnlyRunningLeave(a, r.0) by {
      forall x | x in a.threads && Left(a, r.0, x) ensures a.threads[x].state.Running? {
        assert Left(a, c, x);
      }
    }
    BlockLoopStaysAwake(a, id);
    if r.1.Done? {
      AwakeThread(r.0, c, id);
    }
  }

  lemma {:induction false} CheckAfterFailure(a: Adaptor)
    requires TP.Valid(a.tracker) && Supported(CheckForBufn(a, None).threads)
    ensures !Stalled(CheckForBufn(a, None))
  {
    hide Stalled, Supported, CheckForBufn;
    CheckKeepsTasks(a, None);
    CheckInContext(a, None, CheckForBufn(a, None).threads);
  }

  lemma {:induction false} FailStaysAwake(a: Adaptor, id: int, isCpu: bool, isOom: bool, blocking: bool,
                                          recursive: bool)
    requires Inv(a) && id !in a.waiters && Reports(a, id, isCpu, recursive) && !Stalled(a)
    requires Supported(PostAllocFailed(a, id, isCpu, isOom, blocking, recursive).0.threads)
    ensures !Stalled(PostAllocFailed(a, id, isCpu, isOom, blocking, recursive).0)
  {
    if recursive || id !in a.threads {
      CheckAfterFailure(Pop(a, id));
    } else if Current(a, id) {
      ProperReport(a, id, isCpu);
      CheckAfterFailure(RecordFailure(Pop(a, id), id, isOom, blocking));
    } else {
      InvPopOrphan(a, id);
    }
    hide Inv, Reports, Supported, CheckForBufn, OrphansOf, FramesOf;
  }

  lemma {:induction false} FreeStaysAwake(a: Adaptor, id: int, isCpu: bool, bytes: nat)
    requires TP.Valid(a.tracker) && !Stalled(a)
    ensures !Stalled(Dealloc(a, id, isCpu, bytes))
  {
    hide RecordFree, MarkFreed, WakeNext, TP.Valid;
    FreedShape(a, id, isCpu, bytes);
    var c := Freed(a, id, isCpu, bytes);
    var x :| x in a.threads && !IsBlocked(a.threads[x].state);
    assert LearnsOfFree(a.threads[x], c.threads[x], x != id && a.threads[x].isCpuAlloc == isCpu);
    WakeNextNudges(c, isCpu);
    NudgedStaysAwake(c, WakeNext(c, isCpu));
  }

  lemma {:induction false} SucceedStaysAwake(a: Adaptor, id: int, isCpu: bool, recursive: bool, bytes: nat)
    requires Inv(a) && id !in a.waiters && Reports(a, id, isCpu, recursive) && !Stalled(a)
    ensures !Stalled(PostAllocSuccess(a, id, isCpu, recursive, bytes).0)
  {
    if id in a.threads && !recursive {
      var b := With(Pop(a, id), id, a.threads[id].(isRetryAllocBeforeBufn := false));
      if Current(a, id) {
        ProperReport(a, id, isCpu);
        b := RecordSuccess(Pop(a, id), id, isCpu, bytes);
      } else {
        InvPopOrphan(a, id);
      }
      AwakeThread(a, b, id);
      WakeNextNudges(b, isCpu);
      NudgedStaysAwake(b, WakeNext(b, isCpu));
    }
  }

  lemma {:induction false} RegisterStaysAwake(a: Adaptor, id: int, task: int)
    requires !Stalled(a)
    ensures !Stalled(StartDedicated(a, id, task).0)
  {
    var b := StartDedicated(a, id, task).0;
    if id in a.threads && a.threads[id].taskId >= 0 && a.threads[id].taskId != task {
      RemoveShrinks(a, id, a.threads[id].taskId);
      assert Gone(RemoveAssociation(a, id, a.threads[id].taskId).0, id, a.threads[id].taskId);
      assert id in b.threads && !IsBlocked(b.threads[id].state);
    } else {
      AwakeThread(a, b, id);
    }
  }

  lemma {:induction false} LeavePoolStaysAwake(a: Adaptor, id: int, tasks: set<int>)
    requires Inv(a) && !Stalled(a)
    requires PoolFinished(a, id, tasks).threads != map[] && OnlyRunningLeave(a, PoolFinished(a, id, tasks))
    ensures !Stalled(PoolFinished(a, id, tasks))
  {
    if id in a.threads {
      var b := CheckpointMetrics(a, id);
      var t := b.threads[id];
      var c := With(b, id, t.(poolTaskIds := t.poolTaskIds - tasks));
      if t.poolTaskIds - tasks == {} {
        assert Removal(a, c, false);
        RemoveIsRemoval(c, id, -1);
        var r := RemoveAssociation(c, id, -1);
        RemovalTransitive(a, c, r.0, false, r.1);
        assert r.0.tracker == a.tracker;
        RemovalNeverStalls(a, r);
      } else {
        AwakeThread(a, c, id);
      }
    }
  }

  lemma {:induction false} JoinPoolStaysAwake(a: Adaptor, isForShuffle: bool, id: int, tasks: set<int>)
    requires !Stalled(a)
    ensures !Stalled(PoolWorking(a, isForShuffle, id, tasks).0)
  {
    AwakeThread(a, PoolWorking(a, isForShuffle, id, tasks).0, id);
  }

  lemma {:induction false} DeregisterStaysAwake(a: Adaptor, id: int, task: int)
    requires Inv(a) && !Stalled(a)
    requires RemoveThread(a, id, task).threads != map[] && OnlyRunningLeave(a, RemoveThread(a, id, task))
    ensures !Stalled(RemoveThread(a, id, task))
  {
    RemoveIsRemoval(a, id, task);
    InvRemove(a, id, task);
    RemovalNeverStalls(a, RemoveAssociation(a, id, task));
  }

  lemma {:induction false} FinishStaysAwake(a: Adaptor, task: int)
    requires Inv(a) && task >= 0 && !Stalled(a)
    requires TaskDone(a, task).threads != map[] && OnlyRunningLeave(a, TaskDone(a, task))
    ensures !Stalled(TaskDone(a, task))
  {
    var none: set<int> := {};
    var ids := if task in a.taskToThreads then a.taskToThreads[task] else none;
    var r := RemoveAll(a, ids, task);
    RemoveAllIsRemoval(a, ids, task);
    var s := DropPoolTaskAll(r.0, r.0.threads.Keys, task);
    DropAllIsRemoval(r.0, r.0.threads.Keys, task);
    RemovalTransitive(a, r.0, s.0, r.1, s.1);
    CutTaskClears(a, task);
    assert CutTask(a, task) == (s.0, r.1 || s.1);
    assert TaskDone(a, task).threads == WakeIf(CutTask(a, task)).threads;
    RemovalNeverStalls(a, CutTask(a, task));
  }

  lemma {:induction false} AllocateStaysAwake(a: Adaptor, x: int, isCpu: bool, blocking: bool)
    requires Inv(a) && x !in a.waiters && !Stalled(a) && Supported(PreAlloc(a, x, isCpu, blocking).0.threads)
    requires OnlyRunningLeave(a, PreAlloc(a, x, isCpu, blocking).0)
    ensures !Stalled(PreAlloc(a, x, isCpu, blocking).0)
  {
    if x in a.threads && !IsAllocating(a.threads[x].state) {
      if blocking {
        BlockThenAllocStaysAwake(a, x, isCpu);
      } else {
        EnterAllocShape(a, x, isCpu, false);
        AwakeThread(a, EnterAlloc(a, x, isCpu, false).0, x);
      }
    }
  }

  lemma {:induction false} AwaitStaysAwake(a: Adaptor, x: int)
    requires TP.Valid(a.tracker) && !Stalled(a) && Supported(BlockUntilReady(a, x).0.threads)
    requires OnlyRunningLeave(a, BlockUntilReady(a, x).0)
    ensures !Stalled(BlockUntilReady(a, x).0)
  {
    hide BlockLoop;
    BlockLoopStaysAwake(a, x);
  }

  lemma {:induction false} WakeStaysAwake(a: Adaptor, x: int)
    requires Inv(a) && x in a.waiters && !Stalled(a) && Supported(Resume(a, x).0.threads)
    requires OnlyRunningLeave(a, Resume(a, x).0)
    ensures !Stalled(Resume(a, x).0)
  {
    if !(x in a.threads && IsBlocked(a.threads[x].state)) {
      var c := a.(waiters := a.waiters - {x});
      assert !Stalled(c);
      match a.waiters[x].call
      case UntilReady => BlockLoopStaysAwake(c, x);
      case ForAlloc(isCpu) => BlockThenAllocStaysAwake(c, x, isCpu);
    }
  }

  lemma {:induction false} SupportedNotEmpty(ts: Threads)
    requires Supported(ts)
    ensures ts != map[]
  {
    var some := Member(TaskIds(ts));
    var id := DedicatedThread(ts, some);
  }

  lemma {:induction false} ClientStepNeverStalls(a: Adaptor, act: Action)
    requires Inv(a) && Enabled(a, act) && !Stalled(a)
    requires act.Watchdog? || act.Allocate? || act.AwaitReady? || act.Wake? || act.Succeed? || act.Fail? || act.Free?
    requires Supported(Step(a, act).0.threads) && OnlyRunningLeave(a, Step(a, act).0)
    ensures !Stalled(Step(a, act).0)
  {
    hide Supported, Stalled, PostAllocFailed, PostAllocSuccess, PreAlloc, Resume, BlockUntilReady, Dealloc,
      CheckForBufn, OnlyRunningLeave;
    match act
    case Watchdog(javaBlocked) =>
      CheckKeepsTasks(a, Some(javaBlocked));
      CheckInContext(a, Some(javaBlocked), CheckForBufn(a, Some(javaBlocked)).threads);
    case Allocate(x, isCpu, blocking) => AllocateStaysAwake(a, x, isCpu, blocking);
    case AwaitReady(x) => AwaitStaysAwake(a, x);
    case Wake(x) => WakeStaysAwake(a, x);
    case Succeed(x, isCpu, recursive, bytes) => SucceedStaysAwake(a, x, isCpu, recursive, bytes);
    case Fail(x, isCpu, isOom, blocking, recursive) => FailStaysAwake(a, x, isCpu, isOom, blocking, recursive);
    case Free(x, isCpu, bytes) => FreeStaysAwake(a, x, isCpu, bytes);
  }

  lemma {:induction false} PoolFlagStaysAwake(a: Adaptor, x: int, poolBlocked: bool)
    requires !Stalled(a)
    ensures !Stalled(PoolStatus(a, x, poolBlocked).0)
  {
    AwakeThread(a, PoolStatus(a, x, poolBlocked).0, x);
  }

  lemma {:induction false} SpillFlagStaysAwake(a: Adaptor, x: int, spilling: bool)
    requires !Stalled(a)
    ensures !Stalled(SpillRange(a, x, spilling))
  {
    AwakeThread(a, SpillRange(a, x, spilling), x);
  }

  lemma {:induction false} OtherStepNeverStalls(a: Adaptor, act: Action)
    requires Inv(a) && Enabled(a, act) && !Stalled(a)
    requires !(act.Watchdog? || act.Allocate? || act.AwaitReady? || act.Wake? || act.Succeed? || act.Fail? || act.Free?)
    requires Step(a, act).0.threads != map[] && OnlyRunningLeave(a, Step(a, act).0)
    ensures !Stalled(Step(a, act).0)
  {
    hide Inv, StartDedicated, PoolWorking, PoolFinished, TaskDone, RemoveThread, PoolStatus, SpillRange,
      OnlyRunningLeave;
    match act
    case Register(id, task) => RegisterStaysAwake(a, id, task);
    case JoinPool(isForShuffle, id, tasks) => JoinPoolStaysAwake(a, isForShuffle, id, tasks);
    case LeavePool(id, tasks) => LeavePoolStaysAwake(a, id, tasks);
    case Deregister(id, task) => DeregisterStaysAwake(a, id, task);
    case FinishTask(task) => FinishStaysAwake(a, task);
    case WaitOnPool(x, poolBlocked) => PoolFlagStaysAwake(a, x, poolBlocked);
    case Spill(x, spilling) => SpillFlagStaysAwake(a, x, spilling);
    case DropMetrics(_) =>
    case ForgetPriority(_) =>
  }

  /**
   * No step ends with every registered thread blocked, as long as only running threads leave in it
   * and the state it ends in has a dedicated thread for every task.
   */
  lemma {:induction false} StepNeverStalls(a: Adaptor, act: Action)
    requires Inv(a) && Enabled(a, act) && !Stalled(a)
    requires Supported(Step(a, act).0.threads) && OnlyRunningLeave(a, Step(a, act).0)
    ensures !Stalled(Step(a, act).0)
  {
    if act.Watchdog? || act.Allocate? || act.AwaitReady? || act.Wake? || act.Succeed? || act.Fail? || act.Free? {
      ClientStepNeverStalls(a, act);
    } else {
      SupportedNotEmpty(Step(a, act).0.threads);
      OtherStepNeverStalls(a, act);
    }
  }

  /** Over a whole run: once somebody is awake, somebody always is. */
  lemma {:induction false} RunsNeverStall(states: seq<Adaptor>, acts: seq<Action>, k: nat)
    requires IsRun(states, acts) && Inv(states[0]) && !Stalled(states[0]) && k < |states|
    requires forall i :: 0 <= i < |states| ==> Supported(states[i].threads)
    requires forall i :: 0 <= i < |acts| ==> OnlyRunningLeave(states[i], states[i + 1])
    ensures !Stalled(states[k])
  {
    if k > 0 {
      RunsNeverStall(states, acts, k - 1);
      RunsKeepInv(states, acts, k - 1);
      assert states[k] == Step(states[k - 1], acts[k - 1]).0;
      StepNeverStalls(states[k - 1], acts[k - 1]);
    }
  }

  // ---- where the conditions come from ----

  lemma {:induction false} StalledIsDeadlocked(a: Adaptor, java: JavaBlocked)
    requires Stalled(a)
    ensures Deadlocked(a.threads, java) <==> TaskIds(a.threads) != {}
  {
    var ts := a.threads;
    forall task | task in TaskIds(ts) ensures TaskBlocked(ts, task, java) {
      var id := DedicatedThread(ts, task);
      assert BlockedOrAbove(id, ts[id], java);
    }
  }

  lemma {:induction false} StalledBufnIds(a: Adaptor, java: JavaBlocked, task: int)
    requires forall id :: id in a.threads ==> BufnOrAbove(id, a.threads[id], java)
    ensures task in BufnIds(a.threads, java) <==> task in TaskIds(a.threads) + PoolTasks(a.threads)
  {
    hide BufnOrAbove;
    BufnIdsExact(a.threads, java, task);
    PoolTasksHaveWorkers(a.threads, task);
    if task in TaskIds(a.threads) {
      var id := DedicatedThread(a.threads, task);
    }
  }

  lemma {:induction false} BufnTestBySets(ts: Threads, java: JavaBlocked)
    requires BufnIds(ts, java) == TaskIds(ts) + PoolTasks(ts)
    ensures AllBufnTest(ts, java) <==> PoolsCovered(ts)
  {
    hide BufnIds, TaskIds, PoolTasks;
    SubsetSize(TaskIds(ts), BufnIds(ts, java));
  }

  lemma {:induction false} StalledBufnTest(a: Adaptor, java: JavaBlocked)
    requires Stalled(a) && InState(a.threads, Blocked) == {}
    ensures AllBufnTest(a.threads, java) <==> PoolsCovered(a.threads)
  {
    var ts := a.threads;
    forall id | id in ts ensures BufnOrAbove(id, ts[id], java) {
      assert id !in InState(ts, Blocked);
    }
    hide BufnOrAbove, BufnIds, TaskIds, PoolTasks, Stalled, InState, AllBufnTest, PoolsCovered;
    forall task ensures task in BufnIds(ts, java) <==> task in TaskIds(ts) + PoolTasks(ts) {
      StalledBufnIds(a, java, task);
    }
    BufnTestBySets(ts, java);
  }

  /** A check gets a stalled adaptor going again in exactly these situations. */
  lemma {:induction false} CheckExactlyUnstalls(a: Adaptor, java: JavaBlocked)
    requires TP.Valid(a.tracker) && Stalled(a)
    ensures !Stalled(CheckForBufn(a, java))
       <==> TaskIds(a.threads) != {} && (InState(a.threads, Blocked) != {} || PoolsCovered(a.threads))
  {
    StalledIsDeadlocked(a, java);
    var ts := a.threads;
    if InState(ts, Blocked) == {} {
      StalledBufnTest(a, java);
    }
    var b := BreakBlocked(a);
    BreakBlockedNudges(a);
    if TaskIds(ts) != {} && InState(ts, Blocked) != {} {
      assert !Stalled(b);
      BreakBufnNudges(b);
      NudgedStaysAwake(b, BreakBufn(b));
    } else if TaskIds(ts) != {} && PoolsCovered(ts) {
      BreakingWakes(a, java);
    } else if TaskIds(ts) != {} {
      assert b.threads == a.threads;
    }
  }

  /** The others than `id` all sleep or are about to. */
  ghost predicate OthersBlocked(a: Adaptor, id: int) {
    forall x :: x in a.threads && x != id ==> IsBlocked(a.threads[x].state)
  }

  /** Taking out a thread that is not running leaves the rest stalled exactly when it was the only one awake. */
  lemma {:induction false} LeavingCanStall(a: Adaptor, id: int, task: int)
    requires Inv(a) && !Stalled(a) && id in a.threads && Leaves(a.threads[id], task) && !a.threads[id].state.Running?
    ensures Stalled(RemoveThread(a, id, task)) <==> OthersBlocked(a, id)
  {
    RemoveAssociationShape(a, id, task);
    TrimmedShrinks(a, id, task);
    var c := Trimmed(a, id, task);
    LeaveShrinks(c, id);
    var b := RemoveThread(a, id, task);
    assert b == RemoveAssociation(a, id, task).0 && b.threads == Leave(c, id).threads;
    if IsBlocked(a.threads[id].state) {
      var x :| x in a.threads && !IsBlocked(a.threads[x].state);
      assert x != id && b.threads[x] == a.threads[x];
    }
  }

  lemma {:induction false} SameStates(a: Adaptor, b: Adaptor, id: int)
    requires b.threads.Keys == a.threads.Keys
    requires forall x :: x in a.threads ==> b.threads[x].state == a.threads[x].state
    ensures OthersBlocked(a, id) <==> OthersBlocked(b, id)
    ensures Stalled(a) <==> Stalled(b)
  {
  }

  lemma {:induction false} WithoutOne(a: Adaptor, b: Adaptor, id: int)
    requires b.threads == a.threads - {id}
    ensures Stalled(b) <==> OthersBlocked(a, id)
  {
    forall x | x in a.threads && x != id ensures x in b.threads && b.threads[x] == a.threads[x] {
      assert x in a.threads - {id};
    }
  }

  ghost function PoolTrimmed(a: Adaptor, id: int, tasks: set<int>): Adaptor
    requires id in a.threads
  {
    var b := CheckpointMetrics(a, id);
    With(b, id, b.threads[id].(poolTaskIds := b.threads[id].poolTaskIds - tasks))
  }

  lemma {:induction false} PoolTrimmedShape(a: Adaptor, id: int, tasks: set<int>)
    requires id in a.threads
    ensures var t, c := a.threads[id], PoolTrimmed(a, id, tasks);
      && c.threads == a.threads[id := t.(metrics := NO_METRICS, poolTaskIds := t.poolTaskIds - tasks)]
      && PoolFinished(a, id, tasks) == if c.threads[id].poolTaskIds == {} then RemoveThread(c, id, -1) else c
  {
    hide AddToEach, RemoveAssociation, WakeIf;
  }

  lemma {:induction false} TrimForPool(a: Adaptor, id: int, tasks: set<int>) returns (c: Adaptor)
    requires Inv(a) && id in a.threads
    ensures var t := a.threads[id];
      Inv(c) && c.threads == a.threads[id := t.(metrics := NO_METRICS, poolTaskIds := t.poolTaskIds - tasks)]
    ensures PoolFinished(a, id, tasks) == if c.threads[id].poolTaskIds == {} then RemoveThread(c, id, -1) else c
  {
    var b := CheckpointMetrics(a, id);
    InvCheckpoint(a, id);
    InvWith(b, id, b.threads[id].(poolTaskIds := b.threads[id].poolTaskIds - tasks));
    c := PoolTrimmed(a, id, tasks);
    PoolTrimmedShape(a, id, tasks);
    hide Inv, AddToEach, PoolFinished, RemoveThread, CheckpointMetrics, With;
  }

  /** So does a pool thread that is not running and finishes the last of its tasks. */
  lemma {:induction false} LeavingPoolCanStall(a: Adaptor, id: int, tasks: set<int>)
    requires Inv(a) && !Stalled(a) && id in a.threads && a.threads[id].poolTaskIds <= tasks
    requires !a.threads[id].state.Running?
    ensures Stalled(PoolFinished(a, id, tasks)) <==> OthersBlocked(a, id)
  {
    var c := TrimForPool(a, id, tasks);
    hide Inv, Stalled, OthersBlocked, PoolFinished, RemoveThread;
    assert c.threads[id].poolTaskIds == {};
    SameStates(a, c, id);
    LeavingCanStall(c, id, -1);
  }

  /** A call in which thread `id` runs the blocking loop. */
  ghost predicate Blocks(act: Action, id: int) {
    act == Wake(id) || act == AwaitReady(id) || (act.Allocate? && act.id == id && act.blocking)
  }

  lemma {:induction false} RemovedLeaves(a: Adaptor, id: int)
    requires TP.Valid(a.tracker) && id in a.threads && a.threads[id].state.RemoveThrow?
    ensures BlockLoop(a, id) == (Erase(a, id), Threw(Removed))
  {
    hide OpenFrames;
  }

  /** And so does a thread that was told to leave, when it notices. */
  lemma {:induction false} RemovedCanStall(a: Adaptor, act: Action, id: int)
    requires Inv(a) && !Stalled(a) && id in a.threads && a.threads[id].state.RemoveThrow?
    requires Enabled(a, act) && Blocks(act, id)
    ensures Step(a, act).1 == Threw(Removed)
    ensures Stalled(Step(a, act).0) <==> OthersBlocked(a, id)
  {
    InvValid(a);
    hide Inv, Stalled, OthersBlocked, BlockLoop;
    var b := if act.Wake? then a.(waiters := a.waiters - {id}) else a;
    RemovedLeaves(b, id);
    WithoutOne(a, Step(a, act).0, id);
  }

  /** What `task_done` leaves before its wake-up: stalled when just those who were awake departed. */
  lemma {:induction false} CutTaskStalls(a: Adaptor, task: int)
    requires Inv(a) && task >= 0
    ensures Stalled(CutTask(a, task).0)
       <==> forall x :: x in a.threads ==> (Departs(a, x, task) <==> !IsBlocked(a.threads[x].state))
    ensures CutTask(a, task).0.threads == map[]
       <==> forall x :: x in a.threads ==> Departs(a, x, task) && !IsBlocked(a.threads[x].state)
  {
    var us := CutTask(a, task).0.threads;
    hide Inv, CutTask, Departs;
    forall x
      ensures x in a.threads ==> (x in us <==> !Departs(a, x, task) || IsBlocked(a.threads[x].state))
      ensures x in us ==>
        && x in a.threads
        && us[x].state == if Departs(a, x, task) then RemoveThrow else a.threads[x].state
    {
      CutTaskFate(a, task, x);
    }
    if us != map[] {
      assert us.Keys != {};
      var x := Member(us.Keys);
    }
  }

  /**
   * Exactly when `task_done` leaves every registered thread blocked: the threads that depart are the
   * ones that were awake, and if a RUNNING one is among them, whose wake-up would help, nobody is left.
   */
  lemma {:induction false} FinishCanStall(a: Adaptor, task: int)
    requires Inv(a) && task >= 0
    ensures Stalled(TaskDone(a, task)) <==>
      && (forall x :: x in a.threads ==> (Departs(a, x, task) <==> !IsBlocked(a.threads[x].state)))
      && ((exists x :: x in a.threads && Departs(a, x, task) && a.threads[x].state.Running?) ==>
            forall x :: x in a.threads ==> Departs(a, x, task))
  {
    var c := CutTask(a, task);
    assert TaskDone(a, task).threads == WakeIf(c).threads;
    CutTaskClears(a, task);
    CutTaskStalls(a, task);
    CutTaskFlag(a, task);
    InvWakeIf(c);
    hide Inv, CutTask, TaskDone, Departs, WakeAfterTaskFinishes;
    if c.1 {
      if c.0.threads == map[] {
        assert WakeIf(c).threads.Keys == {};
      } else {
        WakeNeverStalls(c.0);
      }
    }
  }
}
