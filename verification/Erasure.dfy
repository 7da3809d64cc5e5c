/** Which steps erase the record of a thread, asleep or not. */
module Erasure {
  import opened Common
  import TP = TaskPriority
  import opened ThreadState
  import opened Deadlock
  import opened AdaptorModel
  import opened Nudge
  import opened AdaptorRuns
  import opened NoStall

  /**
   * A thread that is not blocked is deregistered from the last of its work, by itself or by somebody
   * else; or it runs the blocking loop and notices that it was told to leave.
   */
  ghost predicate Erases(a: Adaptor, act: Action, id: int)
    requires id in a.threads
  {
    var t := a.threads[id];
    match act
    case Deregister(x, task) => x == id && Leaves(t, task) && !IsBlocked(t.state)
    case LeavePool(x, tasks) => x == id && t.poolTaskIds <= tasks && !IsBlocked(t.state)
    case FinishTask(task) => Departs(a, id, task) && !IsBlocked(t.state)
    case _ => Blocks(act, id) && t.state.RemoveThrow?
  }

  // ---- registration ----

  lemma {:induction false} RemoveErases(a: Adaptor, x: int, task: int, id: int)
    requires id in a.threads
    ensures var b := RemoveAssociation(a, x, task).0;
      && b.tracker == a.tracker
      && (id !in b.threads <==> x == id && Leaves(a.threads[id], task) && !IsBlocked(a.threads[id].state))
  {
    RemoveKeepsTracker(a, x, task);
    RemoveShrinks(a, x, task);
    hide Trimmed, Leave, Leaves, IsBlocked, RemoveAssociation;
    if x == id {
      RemoveAssociationShape(a, x, task);
      TrimmedShape(a, x, task);
      LeaveShape(Trimmed(a, x, task), x);
    }
  }

  lemma {:induction false} WakeIfErasesNobody(r: (Adaptor, bool))
    requires TP.Valid(r.0.tracker)
    ensures WakeIf(r).threads.Keys == r.0.threads.Keys
  {
    WakeAfterTaskFinishesNudges(r.0);
  }

  lemma {:induction false} RegisterErasesNobody(a: Adaptor, x: int, task: int, id: int)
    requires id in a.threads
    ensures id in StartDedicated(a, x, task).0.threads
  {
    hide RemoveAssociation;
    if x in a.threads {
      RemoveErases(a, x, a.threads[x].taskId, id);
    }
  }

  lemma {:induction false} LeavePoolErases(a: Adaptor, x: int, tasks: set<int>, id: int)
    requires Inv(a) && id in a.threads
    ensures id !in PoolFinished(a, x, tasks).threads <==> Erases(a, LeavePool(x, tasks), id)
  {
    if x in a.threads {
      var c := TrimForPool(a, x, tasks);
      InvValid(c);
      hide Inv, PoolFinished, RemoveAssociation, WakeAfterTaskFinishes;
      RemoveErases(c, x, -1, id);
      WakeIfErasesNobody(RemoveAssociation(c, x, -1));
      SubsetByDifference(a.threads[x].poolTaskIds, tasks);
    }
  }

  lemma {:induction false} SubsetByDifference(s: set<int>, t: set<int>)
    ensures s - t == {} <==> s <= t
  {
    if s - t == {} {
      forall x | x in s ensures x in t {
        assert x !in s - t;
      }
    }
  }

  lemma {:induction false} FinishErases(a: Adaptor, task: int, id: int)
    requires Inv(a) && task >= 0 && id in a.threads
    ensures id !in TaskDone(a, task).threads <==> Erases(a, FinishTask(task), id)
  {
    var c := CutTask(a, task);
    assert TaskDone(a, task).threads == WakeIf(c).threads;
    CutTaskClears(a, task);
    CutTaskFate(a, task, id);
    InvValid(c.0);
    hide Inv, CutTask, TaskDone, WakeIf;
    WakeIfErasesNobody(c);
  }

  lemma {:induction false} RegistrationErases(a: Adaptor, act: Action, id: int)
    requires Inv(a) && Enabled(a, act) && id in a.threads
    requires act.Register? || act.JoinPool? || act.LeavePool? || act.Deregister? || act.FinishTask?
    ensures id !in Step(a, act).0.threads <==> Erases(a, act, id)
  {
    InvValid(a);
    hide Inv, StartDedicated, PoolFinished, RemoveAssociation, WakeAfterTaskFinishes, TaskDone, AddToEach;
    match act
    case Register(x, task) => RegisterErasesNobody(a, x, task, id);
    case JoinPool(_, _, _) =>
    case LeavePool(x, tasks) => LeavePoolErases(a, x, tasks, id);
    case Deregister(x, task) =>
      RemoveErases(a, x, task, id);
      WakeIfErasesNobody(RemoveAssociation(a, x, task));
    case FinishTask(task) => FinishErases(a, task, id);
  }

  // ---- blocking ----

  lemma {:induction false} SettleErases(a: Adaptor, x: int, id: int)
    requires id in a.threads
    ensures id !in Settle(a, x).0.threads <==> x == id && a.threads[id].state.RemoveThrow?
  {
    if x in a.threads && !a.threads[x].state.RemoveThrow? {
      SettleShape(a, x);
      hide Settle;
    }
  }

  lemma {:induction false} BlockLoopErases(a: Adaptor, x: int, id: int)
    requires TP.Valid(a.tracker) && id in a.threads
    ensures id !in BlockLoop(a, x).0.threads <==> x == id && a.threads[id].state.RemoveThrow?
  {
    hide CheckForBufn, Settle, TP.Valid;
    if x in a.threads && a.threads[x].state.BufnWait? {
      var b := With(a, x, a.threads[x].(state := Bufn));
      CheckNudges(b, None);
      CheckOnOwnBufn(b, None, x);
      SettleErases(CheckForBufn(b, None), x, id);
    } else {
      SettleErases(a, x, id);
    }
  }

  lemma {:induction false} BlockThenAllocErases(a: Adaptor, x: int, isCpu: bool, id: int)
    requires TP.Valid(a.tracker) && id in a.threads
    ensures id !in BlockThenAlloc(a, x, isCpu).0.threads <==> x == id && a.threads[id].state.RemoveThrow?
  {
    hide BlockLoop, EnterAlloc;
    BlockLoopErases(a, x, id);
    EnterAllocShape(BlockLoop(a, x).0, x, isCpu, true);
  }

  lemma {:induction false} WakeErases(a: Adaptor, x: int, id: int)
    requires TP.Valid(a.tracker) && id in a.threads && x in a.waiters
    ensures id !in Resume(a, x).0.threads <==> x == id && a.threads[id].state.RemoveThrow?
  {
    hide BlockLoop, BlockThenAlloc, TP.Valid;
    var b := a.(waiters := a.waiters - {x});
    match a.waiters[x].call
    case UntilReady => BlockLoopErases(b, x, id);
    case ForAlloc(isCpu) => BlockThenAllocErases(b, x, isCpu, id);
  }

  lemma {:induction false} AllocateErases(a: Adaptor, x: int, isCpu: bool, blocking: bool, id: int)
    requires TP.Valid(a.tracker) && id in a.threads
    ensures id !in PreAlloc(a, x, isCpu, blocking).0.threads
       <==> x == id && blocking && a.threads[id].state.RemoveThrow?
  {
    hide BlockThenAlloc, EnterAlloc, TP.Valid, FramesOf, OrphansOf;
    BlockThenAllocErases(a, x, isCpu, id);
    EnterAllocShape(a, x, isCpu, blocking);
  }

  lemma {:induction false} BlockingErases(a: Adaptor, act: Action, id: int)
    requires TP.Valid(a.tracker) && Enabled(a, act) && id in a.threads
    requires act.Allocate? || act.AwaitReady? || act.Wake?
    ensures id !in Step(a, act).0.threads <==> Erases(a, act, id)
  {
    hide BlockLoop, PreAlloc, Resume, TP.Valid;
    match act
    case Allocate(x, isCpu, blocking) => AllocateErases(a, x, isCpu, blocking, id);
    case AwaitReady(x) => BlockLoopErases(a, x, id);
    case Wake(x) => WakeErases(a, x, id);
  }

  // ---- reports and the rest ----

  lemma {:induction false} PopErasesNobody(a: Adaptor, x: int)
    ensures Pop(a, x).threads == a.threads && Pop(a, x).tracker == a.tracker
  {
  }

  lemma {:induction false} RecordErasesNobody(a: Adaptor, x: int, isOom: bool, blocking: bool)
    requires x in a.threads && IsAllocating(a.threads[x].state)
    ensures var b := RecordFailure(a, x, isOom, blocking);
      b.threads.Keys == a.threads.Keys && b.tracker == a.tracker
  {
    hide AfterFailure, Notify;
  }

  lemma {:induction false} SuccessErasesNobody(a: Adaptor, x: int, isCpu: bool, recursive: bool, bytes: nat)
    requires TP.Valid(a.tracker)
    ensures PostAllocSuccess(a, x, isCpu, recursive, bytes).0.threads.Keys == a.threads.Keys
  {
    hide WakeNext, TP.Valid, Pop, CountAlloc;
    PopErasesNobody(a, x);
    var b := Pop(a, x);
    if x in a.threads && !recursive {
      WakeNextNudges(With(b, x, a.threads[x].(isRetryAllocBeforeBufn := false)), isCpu);
      WakeNextNudges(RecordSuccess(b, x, isCpu, bytes), isCpu);
    }
  }

  lemma {:induction false} FailureErasesNobody(a: Adaptor, x: int, isCpu: bool, isOom: bool, blocking: bool,
                                               recursive: bool)
    requires TP.Valid(a.tracker)
    ensures PostAllocFailed(a, x, isCpu, isOom, blocking, recursive).0.threads.Keys == a.threads.Keys
  {
    hide CheckForBufn, TP.Valid, RecordFailure, Pop;
    PopErasesNobody(a, x);
    var b := Pop(a, x);
    CheckNudges(b, None);
    if x in a.threads && IsAllocating(a.threads[x].state) {
      RecordErasesNobody(b, x, isOom, blocking);
      CheckNudges(RecordFailure(b, x, isOom, blocking), None);
    }
  }

  lemma {:induction false} FreeErasesNobody(a: Adaptor, x: int, isCpu: bool, bytes: nat)
    requires TP.Valid(a.tracker)
    ensures Dealloc(a, x, isCpu, bytes).threads.Keys == a.threads.Keys
  {
    hide RecordFree, MarkFreed, WakeNext, TP.Valid;
    FreedShape(a, x, isCpu, bytes);
    WakeNextNudges(Freed(a, x, isCpu, bytes), isCpu);
  }

  /** Of all steps of all threads exactly these erase the record of `id`. */
  lemma {:induction false} RecordsErasedExactly(a: Adaptor, act: Action, id: int)
    requires Inv(a) && Enabled(a, act) && id in a.threads
    ensures id !in Step(a, act).0.threads <==> Erases(a, act, id)
  {
    InvValid(a);
    hide Inv, TP.Valid, StartDedicated, PoolWorking, PoolFinished, RemoveThread, TaskDone, CheckForBufn, PreAlloc,
      PostAllocSuccess, PostAllocFailed, Dealloc, BlockUntilReady, Resume;
    match act
    case Allocate(_, _, _) => BlockingErases(a, act, id);
    case AwaitReady(_) => BlockingErases(a, act, id);
    case Wake(_) => BlockingErases(a, act, id);
    case Succeed(x, isCpu, recursive, bytes) => SuccessErasesNobody(a, x, isCpu, recursive, bytes);
    case Fail(x, isCpu, isOom, blocking, recursive) => FailureErasesNobody(a, x, isCpu, isOom, blocking, recursive);
    case Free(x, isCpu, bytes) => FreeErasesNobody(a, x, isCpu, bytes);
    case Watchdog(javaBlocked) => CheckNudges(a, Some(javaBlocked));
    case WaitOnPool(_, _) =>
    case Spill(_, _) =>
    case DropMetrics(_) =>
    case ForgetPriority(_) =>
    case _ => RegistrationErases(a, act, id);
  }

  /**
   * A thread inside its wait loses its record only after it was notified and before it has looked,
   * by a deregistration: from then on the table has no record for it to come back to.
   */
  lemma {:induction false} SleeperErasedExactly(a: Adaptor, act: Action, id: int)
    requires Inv(a) && Enabled(a, act) && id in a.threads && id in a.waiters && act != Wake(id)
    ensures id !in Step(a, act).0.threads
       <==> !IsBlocked(a.threads[id].state)
            && match act
               case Deregister(x, task) => x == id && Leaves(a.threads[id], task)
               case LeavePool(x, tasks) => x == id && a.threads[id].poolTaskIds <= tasks
               case FinishTask(task) => Departs(a, id, task)
               case _ => false
    ensures id !in Step(a, act).0.threads ==> a.waiters[id].notified
  {
    InvAt(a, id);
    hide Inv, Step;
    RecordsErasedExactly(a, act, id);
  }
}
