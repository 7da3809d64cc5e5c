/** One allocation attempt from its start to its report, over whatever happens in between. */
module Attempts {
  import opened Common
  import TP = TaskPriority
  import opened ThreadState
  import opened Deadlock
  import opened AdaptorModel
  import opened Nudge
  import opened AdaptorRuns
  import opened NoStall
  import opened Exceptions

  // ---- threads that are not allocating ----

  /** The thread, if still there, is not allocating, and the kind of its last allocation is the same. */
  ghost predicate Rests(a: Adaptor, b: Adaptor, id: int)
    requires id in a.threads
  {
    id in b.threads ==> !IsAllocating(b.threads[id].state) && b.threads[id].isCpuAlloc == a.threads[id].isCpuAlloc
  }

  lemma {:induction false} NudgedRests(a: Adaptor, b: Adaptor, id: int)
    requires Nudged(a, b) && id in a.threads && !IsAllocating(a.threads[id].state)
    ensures Rests(a, b, id) && id in b.threads
  {
    assert NudgedThread(a.threads[id], b.threads[id]);
  }

  /** A part of a step that leaves the thread alone, and then waking or a check. */
  lemma {:induction false} NudgedAfter(a: Adaptor, c: Adaptor, b: Adaptor, id: int)
    requires id in a.threads && Rests(a, c, id) && Nudged(c, b)
    ensures Rests(a, b, id)
  {
    hide Nudged;
    if id in c.threads {
      NudgedRests(c, b, id);
    } else {
      NudgedKeys(c, b);
    }
  }

  lemma {:induction false} NudgedKeys(a: Adaptor, b: Adaptor)
    requires Nudged(a, b)
    ensures b.threads.Keys == a.threads.Keys
  {
  }

  lemma {:induction false} RemoveRests(a: Adaptor, x: int, task: int, id: int)
    requires id in a.threads && !IsAllocating(a.threads[id].state)
    ensures var b := RemoveAssociation(a, x, task).0; Rests(a, b, id) && b.tracker == a.tracker
  {
    RemoveKeepsTracker(a, x, task);
    RemoveShrinks(a, x, task);
    hide Trimmed, Leave, Leaves, IsBlocked, RemoveAssociation;
    if x == id {
      RemoveAssociationShape(a, x, task);
      TrimmedShape(a, x, task);
      LeaveShape(Trimmed(a, x, task), x);
    }
  }

  lemma {:induction false} WakeIfRests(a: Adaptor, r: (Adaptor, bool), id: int)
    requires id in a.threads && Rests(a, r.0, id) && TP.Valid(r.0.tracker)
    ensures Rests(a, WakeIf(r), id)
  {
    if r.1 {
      WakeAfterTaskFinishesNudges(r.0);
      NudgedAfter(a, r.0, WakeIf(r), id);
    }
  }

  /** A registration may make a new record, of a thread that runs. */
  lemma {:induction false} RegisterRests(a: Adaptor, x: int, task: int, id: int)
    requires id in a.threads && !IsAllocating(a.threads[id].state)
    ensures var b := StartDedicated(a, x, task).0;
      if Deregisters(a, Register(x, task), id) then Out(b, id) else Rests(a, b, id)
  {
    hide RemoveAssociation;
    if x in a.threads {
      RemoveRests(a, x, a.threads[x].taskId, id);
    }
  }

  lemma {:induction false} LeavePoolRests(a: Adaptor, x: int, tasks: set<int>, id: int)
    requires Inv(a) && id in a.threads && !IsAllocating(a.threads[id].state)
    ensures Rests(a, PoolFinished(a, x, tasks), id)
  {
    InvValid(a);
    hide Inv, RemoveAssociation, WakeAfterTaskFinishes, AddToEach;
    if x in a.threads {
      var b := CheckpointMetrics(a, x);
      var t := b.threads[x];
      var c := With(b, x, t.(poolTaskIds := t.poolTaskIds - tasks));
      RemoveRests(c, x, -1, id);
      WakeIfRests(a, RemoveAssociation(c, x, -1), id);
    }
  }

  lemma {:induction false} FinishRests(a: Adaptor, task: int, id: int)
    requires Inv(a) && task >= 0 && id in a.threads && !IsAllocating(a.threads[id].state)
    ensures Rests(a, TaskDone(a, task), id)
  {
    var c := CutTask(a, task);
    CutTaskClears(a, task);
    CutTaskFate(a, task, id);
    assert TaskDone(a, task).threads == WakeIf(c).threads;
    InvValid(c.0);
    hide Inv, CutTask, TaskDone, WakeIf, Departs;
    WakeIfRests(a, c, id);
  }

  lemma {:induction false} JoinRests(a: Adaptor, isForShuffle: bool, x: int, tasks: set<int>, id: int)
    requires id in a.threads && !IsAllocating(a.threads[id].state)
    ensures Rests(a, PoolWorking(a, isForShuffle, x, tasks).0, id)
  {
    hide AddToEach;
  }

  lemma {:induction false} RegistrationRests(a: Adaptor, act: Action, id: int)
    requires Inv(a) && Enabled(a, act) && id in a.threads && !IsAllocating(a.threads[id].state)
    requires act.Register? || act.JoinPool? || act.LeavePool? || act.Deregister? || act.FinishTask?
    ensures var b := Step(a, act).0; if Deregisters(a, act, id) then Out(b, id) else Rests(a, b, id)
  {
    InvValid(a);
    hide Inv, TP.Valid, StartDedicated, PoolFinished, PoolWorking, RemoveAssociation, WakeIf, TaskDone, Leaves, Rests,
      Out;
    match act
    case Register(x, task) => RegisterRests(a, x, task, id);
    case JoinPool(isForShuffle, x, tasks) => JoinRests(a, isForShuffle, x, tasks, id);
    case LeavePool(x, tasks) => LeavePoolRests(a, x, tasks, id);
    case Deregister(x, task) =>
      RemoveRests(a, x, task, id);
      WakeIfRests(a, RemoveAssociation(a, x, task), id);
    case FinishTask(task) => FinishRests(a, task, id);
  }

  lemma {:induction false} ToldRests(t: Thread)
    ensures forall split ::
      !IsAllocating(Told(t, split).state) && Told(t, split).isCpuAlloc == t.isCpuAlloc
  {
  }

  lemma {:induction false} SettleRests(a: Adaptor, x: int, id: int)
    requires id in a.threads && !IsAllocating(a.threads[id].state)
    ensures Rests(a, Settle(a, x).0, id)
  {
    if x in a.threads {
      hide Settle, Told, Exception, OpenFrames;
      SettleMeets(a, x);
      ToldRests(a.threads[x]);
    }
  }

  lemma {:induction false} BlockLoopRests(a: Adaptor, x: int, id: int)
    requires TP.Valid(a.tracker) && id in a.threads && !IsAllocating(a.threads[id].state)
    ensures Rests(a, BlockLoop(a, x).0, id)
  {
    hide CheckForBufn, Settle, TP.Valid;
    if x in a.threads && a.threads[x].state.BufnWait? {
      var b := With(a, x, a.threads[x].(state := Bufn));
      CheckNudges(b, None);
      NudgedRests(b, CheckForBufn(b, None), id);
      SettleRests(CheckForBufn(b, None), x, id);
    } else {
      SettleRests(a, x, id);
    }
  }

  lemma {:induction false} EnterAllocOther(a: Adaptor, x: int, isCpu: bool, blocking: bool, id: int)
    requires id in a.threads && !IsAllocating(a.threads[id].state) && (x == id ==> !a.threads[id].state.Running?)
    ensures Rests(a, EnterAlloc(a, x, isCpu, blocking).0, id)
  {
    hide FramesOf, OrphansOf;
  }

  lemma {:induction false} BlockThenAllocOther(a: Adaptor, x: int, isCpu: bool, id: int)
    requires TP.Valid(a.tracker) && id in a.threads && !IsAllocating(a.threads[id].state)
    requires x == id ==> !a.threads[id].state.Running?
    ensures Rests(a, BlockThenAlloc(a, x, isCpu).0, id)
  {
    BlockLoopRests(a, x, id);
    if x == id {
      BlockLoopMeets(a, id);
    }
    hide BlockLoop, EnterAlloc, TP.Valid;
    var r := BlockLoop(a, x);
    if r.1.Done? && id in r.0.threads {
      EnterAllocOther(r.0, x, isCpu, true, id);
    } else if r.1.Done? {
      EnterAllocKeys(r.0, x, isCpu);
    }
  }

  lemma {:induction false} EnterAllocKeys(a: Adaptor, x: int, isCpu: bool)
    ensures EnterAlloc(a, x, isCpu, true).0.threads.Keys == a.threads.Keys
  {
    hide FramesOf, OrphansOf;
  }

  /** The kind with which the step begins an allocation of `id`, if it does. */
  ghost function Begins(a: Adaptor, act: Action, id: int): Option<bool>
    requires id in a.threads && Enabled(a, act)
  {
    if !a.threads[id].state.Running? then None
    else
      match act
      case Allocate(x, isCpu, _) => if x == id then Some(isCpu) else None
      case Wake(x) => if x == id && a.waiters[x].call.ForAlloc? then Some(a.waiters[x].call.isCpu) else None
      case _ => None
  }

  lemma {:induction false} BlockingRests(a: Adaptor, act: Action, id: int)
    requires TP.Valid(a.tracker) && Enabled(a, act) && id in a.threads && !IsAllocating(a.threads[id].state)
    requires act.Allocate? || act.AwaitReady? || act.Wake?
    requires Begins(a, act, id) == None
    ensures Rests(a, Step(a, act).0, id)
  {
    hide BlockLoop, BlockThenAlloc, EnterAlloc, TP.Valid, FramesOf, OrphansOf;
    match act
    case Allocate(x, isCpu, blocking) =>
      BlockThenAllocOther(a, x, isCpu, id);
      EnterAllocOther(a, x, isCpu, blocking, id);
    case AwaitReady(x) => BlockLoopRests(a, x, id);
    case Wake(x) =>
      var b := a.(waiters := a.waiters - {x});
      BlockLoopRests(b, x, id);
      if a.waiters[x].call.ForAlloc? {
        BlockThenAllocOther(b, x, a.waiters[x].call.isCpu, id);
      }
  }

  lemma {:induction false} RecordRests(a: Adaptor, x: int, isCpu: bool, bytes: nat, id: int)
    requires id in a.threads && !IsAllocating(a.threads[id].state) && x in a.threads && x != id
    ensures Rests(a, RecordSuccess(a, x, isCpu, bytes), id) && RecordSuccess(a, x, isCpu, bytes).tracker == a.tracker
  {
    hide CountAlloc;
  }

  lemma {:induction false} WakeNextRests(a: Adaptor, b: Adaptor, isCpu: bool, id: int)
    requires id in a.threads && Rests(a, b, id) && TP.Valid(b.tracker)
    ensures Rests(a, WakeNext(b, isCpu), id)
  {
    hide WakeNext, TP.Valid, Rests;
    WakeNextNudges(b, isCpu);
    NudgedAfter(a, b, WakeNext(b, isCpu), id);
  }

  lemma {:induction false} ProperSuccessRests(a: Adaptor, x: int, isCpu: bool, bytes: nat, id: int)
    requires Inv(a) && x in a.threads && IsAllocating(a.threads[x].state) && a.threads[x].isCpuAlloc == isCpu
    requires id in a.threads && !IsAllocating(a.threads[id].state)
    ensures Rests(a, PostAllocSuccess(a, x, isCpu, false, bytes).0, id)
  {
    InvValid(a);
    hide Inv, WakeNext, TP.Valid, FramesOf, OrphansOf, RecordSuccess;
    RecordRests(Pop(a, x), x, isCpu, bytes, id);
    WakeNextRests(a, RecordSuccess(Pop(a, x), x, isCpu, bytes), isCpu, id);
  }

  lemma {:induction false} SuccessRests(a: Adaptor, x: int, isCpu: bool, recursive: bool, bytes: nat, id: int)
    requires Inv(a) && x !in a.waiters && Reports(a, x, isCpu, recursive)
    requires id in a.threads && !IsAllocating(a.threads[id].state)
    ensures Rests(a, PostAllocSuccess(a, x, isCpu, recursive, bytes).0, id)
  {
    InvValid(a);
    if x in a.threads && !recursive {
      if Current(a, x) {
        ProperReport(a, x, isCpu);
        ProperSuccessRests(a, x, isCpu, bytes, id);
      } else {
        InvPopOrphan(a, x);
        var b := With(Pop(a, x), x, a.threads[x].(isRetryAllocBeforeBufn := false));
        hide Inv, Reports, WakeNext, TP.Valid, FramesOf, OrphansOf;
        WakeNextRests(a, b, isCpu, id);
      }
    }
  }

  lemma {:induction false} FailureRests(a: Adaptor, x: int, isCpu: bool, isOom: bool, blocking: bool, recursive: bool,
                                        id: int)
    requires TP.Valid(a.tracker) && Inv(a) && x !in a.waiters && Reports(a, x, isCpu, recursive)
    requires id in a.threads && !IsAllocating(a.threads[id].state)
    ensures Rests(a, PostAllocFailed(a, x, isCpu, isOom, blocking, recursive).0, id)
  {
    hide Inv, Reports, CheckForBufn, TP.Valid, FramesOf, OrphansOf;
    var b := Pop(a, x);
    if x in a.threads && !recursive && Current(a, x) {
      ProperReport(a, x, isCpu);
      b := RecordFailure(b, x, isOom, blocking);
    } else if x in a.threads && !recursive {
      InvPopOrphan(a, x);
    }
    assert Rests(a, b, id) && b.tracker == a.tracker;
    hide RecordFailure, Pop;
    CheckNudges(b, None);
    NudgedAfter(a, b, CheckForBufn(b, None), id);
  }

  lemma {:induction false} FreeRests(a: Adaptor, x: int, isCpu: bool, bytes: nat, id: int)
    requires TP.Valid(a.tracker) && id in a.threads && !IsAllocating(a.threads[id].state)
    ensures Rests(a, Dealloc(a, x, isCpu, bytes), id)
  {
    hide RecordFree, MarkFreed, WakeNext, TP.Valid;
    FreedShape(a, x, isCpu, bytes);
    var c := Freed(a, x, isCpu, bytes);
    assert LearnsOfFree(a.threads[id], c.threads[id], x != id && a.threads[id].isCpuAlloc == isCpu);
    WakeNextNudges(c, isCpu);
    NudgedAfter(a, c, WakeNext(c, isCpu), id);
  }

  lemma {:induction false} ReportRests(a: Adaptor, act: Action, id: int)
    requires TP.Valid(a.tracker) && Inv(a) && Enabled(a, act) && id in a.threads && !IsAllocating(a.threads[id].state)
    requires act.Succeed? || act.Fail? || act.Free? || act.Watchdog?
    ensures Rests(a, Step(a, act).0, id)
  {
    hide Inv, TP.Valid, CheckForBufn, PostAllocSuccess, PostAllocFailed, Dealloc, Rests, Reports, Nudged;
    match act
    case Succeed(x, isCpu, recursive, bytes) => SuccessRests(a, x, isCpu, recursive, bytes, id);
    case Fail(x, isCpu, isOom, blocking, recursive) => FailureRests(a, x, isCpu, isOom, blocking, recursive, id);
    case Free(x, isCpu, bytes) => FreeRests(a, x, isCpu, bytes, id);
    case Watchdog(javaBlocked) =>
      CheckNudges(a, Some(javaBlocked));
      NudgedRests(a, CheckForBufn(a, Some(javaBlocked)), id);
  }

  lemma {:induction false} QuietRests(a: Adaptor, act: Action, id: int)
    requires TP.Valid(a.tracker) && Enabled(a, act) && id in a.threads && !IsAllocating(a.threads[id].state)
    requires act.WaitOnPool? || act.Spill? || act.DropMetrics? || act.ForgetPriority?
    ensures Rests(a, Step(a, act).0, id)
  {
    hide TP.Valid;
  }

  lemma {:induction false} NoneBegins(a: Adaptor, act: Action, id: int)
    requires Inv(a) && Enabled(a, act) && id in a.threads && !IsAllocating(a.threads[id].state)
    requires Begins(a, act, id) == None
    ensures var b := Step(a, act).0; if Deregisters(a, act, id) then Out(b, id) else Rests(a, b, id)
  {
    InvValid(a);
    if act.Allocate? || act.AwaitReady? || act.Wake? {
      hide Step, Inv, Enabled, Begins, Rests;
      BlockingRests(a, act, id);
    } else if act.Succeed? || act.Fail? || act.Free? || act.Watchdog? {
      ReportRests(a, act, id);
      hide Step, Inv, Enabled, Rests;
    } else if act.WaitOnPool? || act.Spill? || act.DropMetrics? || act.ForgetPriority? {
      QuietRests(a, act, id);
      hide Step, Inv, Enabled, Rests;
    } else {
      hide Step, Inv, Enabled, Rests;
      RegistrationRests(a, act, id);
    }
  }

  lemma {:induction false} RunningBegins(a: Adaptor, act: Action, id: int)
    requires TP.Valid(a.tracker) && Enabled(a, act) && id in a.threads && Begins(a, act, id).Some?
    ensures var b := Step(a, act).0;
      && Step(a, act).1 == Done(false) && id in b.threads
      && b.threads[id] == a.threads[id].(state := Alloc, isCpuAlloc := Begins(a, act, id).value)
  {
    hide TP.Valid, FramesOf, OrphansOf;
    var c := if act.Wake? then a.(waiters := a.waiters - {id}) else a;
    BlockLoopMeets(c, id);
    hide BlockLoop;
  }

  /** What begins an allocation is a running thread's own call, and nothing else. */
  lemma {:induction false} BeginsExactly(a: Adaptor, act: Action, id: int)
    requires Inv(a) && Enabled(a, act) && id in a.threads && !IsAllocating(a.threads[id].state)
    ensures var b, kind := Step(a, act).0, Begins(a, act, id);
      if kind.Some? then
        && Step(a, act).1 == Done(false) && id in b.threads
        && b.threads[id] == a.threads[id].(state := Alloc, isCpuAlloc := kind.value)
      else if Deregisters(a, act, id) then Out(b, id)
      else Rests(a, b, id)
  {
    InvValid(a);
    if Begins(a, act, id).Some? {
      RunningBegins(a, act, id);
    } else {
      NoneBegins(a, act, id);
    }
    hide Step, Inv, Enabled, Begins, Deregisters, Rests, Out;
  }

  // ---- what a call of pre_alloc answers ----

  /**
   * The flag is the recursion: true exactly for a thread that is allocating, and then the allocation
   * opened is a recursive one; the only refusals are these two.
   */
  lemma {:induction false} AllocateAnswers(a: Adaptor, id: int, isCpu: bool, blocking: bool)
    requires Inv(a) && id !in a.waiters
    ensures TP.Valid(a.tracker)
    ensures var act := Allocate(id, isCpu, blocking); var b, o := Step(a, act).0, Step(a, act).1;
      var state := if id in a.threads then Some(a.threads[id].state) else None;
      var inside := state.Some? && IsAllocating(state.value);
      && (o == Done(true) <==> inside && !(isCpu && blocking))
      && (o == Done(false) <==> state == None || state == Some(Running))
      && (o == Threw(InvalidArgument) <==>
            (inside && isCpu && blocking) || (!inside && !blocking && state.Some? && state != Some(Running)))
      && (o.Done? ==> OpenFrames(b, id) == OpenFrames(a, id) + [Frame(isCpu, blocking, o == Done(true))])
  {
    InvValid(a);
    var act := Allocate(id, isCpu, blocking);
    var f := Frame(isCpu, blocking, false);
    if id in a.threads && IsAllocating(a.threads[id].state) {
      FramesPushed(a, id, Frame(isCpu, blocking, true));
      hide Inv, TP.Valid, FramesOf, OrphansOf, BlockThenAlloc;
    } else if id !in a.threads {
      OrphanPushed(a, id, f);
      hide Inv, TP.Valid, FramesOf, OrphansOf, BlockThenAlloc;
    } else if a.threads[id].state.Running? {
      var c := With(a, id, a.threads[id].(state := Alloc, isCpuAlloc := isCpu));
      FramesWith(a, id, a.threads[id].(state := Alloc, isCpuAlloc := isCpu));
      FramesPushed(c, id, f);
      BlockLoopMeets(a, id);
      hide Inv, TP.Valid, FramesOf, OrphansOf, BlockLoop;
    } else if blocking {
      BlockLoopMeets(a, id);
      hide Inv, TP.Valid, BlockLoop, EnterAlloc;
    }
  }

  lemma {:induction false} FramesPushed(a: Adaptor, id: int, f: Frame)
    ensures OpenFrames(Push(a, id, f), id) == OpenFrames(a, id) + [f]
  {
  }

  lemma {:induction false} OrphanPushed(a: Adaptor, id: int, f: Frame)
    requires Inv(a) && id !in a.threads
    ensures OpenFrames(PushOrphan(a, id, f), id) == OpenFrames(a, id) + [f]
  {
    assert FramesOf(a, id) == [];
  }

  // ---- over runs ----

  /** From its beginning in step `i` on, the allocation of `id` is not ended before step `k`. */
  ghost predicate Attempt(states: seq<Adaptor>, acts: seq<Action>, id: int, i: nat, k: nat)
    requires IsRun(states, acts)
  {
    && i < k <= |acts|
    && id in states[i].threads && !IsAllocating(states[i].threads[id].state)
    && id in states[i + 1].threads && IsAllocating(states[i + 1].threads[id].state)
    && forall j :: i < j < k && id in states[j].threads ==>
         !Deregisters(states[j], acts[j], id) && !Ends(acts[j], id)
  }

  /** In the steps after `i` and before `k` another thread frees memory of the kind. */
  ghost predicate Heard(acts: seq<Action>, id: int, isCpu: bool, i: nat, k: nat) {
    exists j :: i < j < k && j < |acts| && Hears(acts[j], id, isCpu)
  }

  lemma {:induction false} HeardNext(acts: seq<Action>, id: int, isCpu: bool, i: nat, k: nat)
    requires i < k < |acts|
    ensures Heard(acts, id, isCpu, i, k + 1) <==> Heard(acts, id, isCpu, i, k) || Hears(acts[k], id, isCpu)
  {
  }

  lemma {:induction false} NothingHeard(acts: seq<Action>, id: int, isCpu: bool, i: nat)
    ensures !Heard(acts, id, isCpu, i, i + 1)
  {
  }

  lemma {:induction false} AllocatingMeansBegun(a: Adaptor, act: Action, id: int)
    requires Inv(a) && TP.Valid(a.tracker) && Enabled(a, act) && id in a.threads && !IsAllocating(a.threads[id].state)
    requires !Out(Step(a, act).0, id)
    ensures Begins(a, act, id).Some? && id in Step(a, act).0.threads
    ensures Step(a, act).0.threads[id] == a.threads[id].(state := Alloc, isCpuAlloc := Begins(a, act, id).value)
  {
    hide Inv, Step, Enabled, TP.Valid, Begins, Deregisters;
    BeginsExactly(a, act, id);
  }

  lemma {:induction false} RunStep(states: seq<Adaptor>, acts: seq<Action>, j: nat)
    requires IsRun(states, acts) && Inv(states[0]) && j < |acts|
    ensures Inv(states[j]) && TP.Valid(states[j].tracker) && Enabled(states[j], acts[j])
    ensures states[j + 1] == Step(states[j], acts[j]).0
  {
    RunsKeepInv(states, acts, j);
  }

  lemma {:induction false} AttemptParts(states: seq<Adaptor>, acts: seq<Action>, id: int, i: nat, k: nat)
    requires IsRun(states, acts) && Attempt(states, acts, id, i, k)
    ensures |states| == |acts| + 1 && i < k <= |acts|
    ensures id in states[i].threads && !IsAllocating(states[i].threads[id].state) && !Out(states[i + 1], id)
    ensures k > i + 1 ==> Attempt(states, acts, id, i, k - 1)
    ensures k > i + 1 && id in states[k - 1].threads ==>
      !Deregisters(states[k - 1], acts[k - 1], id) && !Ends(acts[k - 1], id)
  {
    hide Deregisters, Ends, IsAllocating;
  }

  lemma {:induction false} AttemptGoesOn(a: Adaptor, act: Action, id: int, kind: bool, heard: bool)
    requires Inv(a) && TP.Valid(a.tracker) && Enabled(a, act) && id in a.threads
    requires !Deregisters(a, act, id) && !Ends(act, id)
    requires a.threads[id].isCpuAlloc == kind && a.threads[id].state == if heard then AllocFree else Alloc
    ensures var b := Step(a, act).0; id in b.threads
    ensures var u := Step(a, act).0.threads[id];
      && u.isCpuAlloc == kind && u.isRetryAllocBeforeBufn == a.threads[id].isRetryAllocBeforeBufn
      && u.state == if heard || Hears(act, id, kind) then AllocFree else Alloc
  {
    hide Inv, Step, Enabled, TP.Valid, Deregisters, Ends, Hears;
    InFlightIsOwned(a, act, id);
  }

  /** An attempt begins with a call of its own and keeps kind and flag; ALLOC_FREE says that it heard of a free. */
  lemma {:induction false} AttemptHears(states: seq<Adaptor>, acts: seq<Action>, id: int, i: nat, k: nat)
    requires IsRun(states, acts) && Inv(states[0]) && Attempt(states, acts, id, i, k)
    ensures Begins(states[i], acts[i], id).Some? && id in states[k].threads
    ensures var t, kind := states[i].threads[id], Begins(states[i], acts[i], id).value; var u := states[k].threads[id];
      && u.isCpuAlloc == kind && u.isRetryAllocBeforeBufn == t.isRetryAllocBeforeBufn
      && u.state == if Heard(acts, id, kind, i, k) then AllocFree else Alloc
    decreases k
  {
    hide *;
    AttemptParts(states, acts, id, i, k);
    RunStep(states, acts, k - 1);
    RunStep(states, acts, i);
    var a := states[k - 1];
    if k == i + 1 {
      AllocatingMeansBegun(a, acts[i], id);
      NothingHeard(acts, id, Begins(a, acts[i], id).value, i);
    } else {
      AttemptHears(states, acts, id, i, k - 1);
      var kind := Begins(states[i], acts[i], id).value;
      HeardNext(acts, id, kind, i, k - 1);
      AttemptGoesOn(a, acts[k - 1], id, kind, Heard(acts, id, kind, i, k - 1));
    }
  }

  /** Where a failure takes an attempt: it is repeated after a free, rolled back on its retry, else it blocks. */
  ghost function StateAfter(heard: bool, onRetry: bool, isOom: bool, blocking: bool): State {
    if heard || !isOom then Running
    else if onRetry then BufnThrow
    else if blocking then Blocked
    else Running
  }

  /** The state of the adaptor in which the failed thread has its next state, before the check. */
  ghost function Failing(a: Adaptor, id: int, s: State): Adaptor
    requires id in a.threads
  {
    var t := a.threads[id];
    With(Pop(a, id), id, t.(state := s, isRetryAllocBeforeBufn := t.isRetryAllocBeforeBufn && !s.BufnThrow?))
  }

  lemma {:induction false} FailsInto(a: Adaptor, id: int, isCpu: bool, isOom: bool, blocking: bool)
    requires Inv(a) && Enabled(a, Fail(id, isCpu, isOom, blocking, false))
    requires id in a.threads && IsAllocating(a.threads[id].state)
    ensures TP.Valid(a.tracker) && a.threads[id].isCpuAlloc == isCpu
    ensures var t := a.threads[id]; var r := PostAllocFailed(a, id, isCpu, isOom, blocking, false);
      var s := StateAfter(t.state.AllocFree?, t.isRetryAllocBeforeBufn, isOom, blocking);
      && TP.Valid(Failing(a, id, s).tracker)
      && r == (CheckForBufn(Failing(a, id, s), None), Done(true))
  {
    InvValid(a);
    InvAt(a, id);
    ProperReport(a, id, isCpu);
    hide Inv, Reports, FramesOf, OrphansOf, CheckForBufn, TP.Valid;
    FailureIsOwn(Pop(a, id), id, isOom, blocking);
  }

  lemma {:induction false} RunningIsLeft(a: Adaptor, id: int)
    requires TP.Valid(a.tracker) && id in a.threads && a.threads[id].state.Running?
    ensures var b := CheckForBufn(a, None); id in b.threads && b.threads[id] == a.threads[id]
  {
    hide CheckForBufn;
    CheckNudges(a, None);
    assert NudgedThread(a.threads[id], CheckForBufn(a, None).threads[id]);
  }

  /**
   * Over all runs: what the failure of an attempt comes to depends on whether another thread freed
   * memory of its kind since the attempt began, on whether it is the retry, and on the report.
   */
  lemma {:induction false} FailureFollows(states: seq<Adaptor>, acts: seq<Action>, id: int, i: nat, k: nat)
    requires IsRun(states, acts) && Inv(states[0]) && Attempt(states, acts, id, i, k)
    requires k < |acts| && acts[k].Fail? && acts[k].id == id && !acts[k].recursive
    ensures Begins(states[i], acts[i], id).Some? && id in states[k].threads
    ensures var kind, t := acts[k].isCpu, states[i].threads[id];
      var s := StateAfter(Heard(acts, id, kind, i, k), t.isRetryAllocBeforeBufn, acts[k].isOom, acts[k].blocking);
      && Begins(states[i], acts[i], id).value == kind
      && Step(states[k], acts[k]).1 == Done(true)
      && TP.Valid(Failing(states[k], id, s).tracker)
      && states[k + 1] == CheckForBufn(Failing(states[k], id, s), None)
      && (s.Running? ==>
            && id in states[k + 1].threads && states[k + 1].threads[id].state.Running?
            && states[k + 1].threads[id].isRetryAllocBeforeBufn == t.isRetryAllocBeforeBufn)
  {
    hide *;
    AttemptParts(states, acts, id, i, k);
    RunStep(states, acts, k);
    RunStep(states, acts, i);
    AttemptHears(states, acts, id, i, k);
    var a, act := states[k], acts[k];
    assert act == Fail(id, act.isCpu, act.isOom, act.blocking, false);
    FailingStep(a, id, act.isCpu, act.isOom, act.blocking);
  }

  lemma {:induction false} FailingStep(a: Adaptor, id: int, isCpu: bool, isOom: bool, blocking: bool)
    requires Inv(a) && TP.Valid(a.tracker) && Enabled(a, Fail(id, isCpu, isOom, blocking, false)) && id in a.threads
    requires a.threads[id].state.Alloc? || a.threads[id].state.AllocFree?
    ensures a.threads[id].isCpuAlloc == isCpu
    ensures var t := a.threads[id]; var r := Step(a, Fail(id, isCpu, isOom, blocking, false));
      var s := StateAfter(t.state.AllocFree?, t.isRetryAllocBeforeBufn, isOom, blocking);
      && TP.Valid(Failing(a, id, s).tracker)
      && r == (CheckForBufn(Failing(a, id, s), None), Done(true))
      && (s.Running? ==>
            && id in r.0.threads && r.0.threads[id].state.Running?
            && r.0.threads[id].isRetryAllocBeforeBufn == t.isRetryAllocBeforeBufn)
  {
    hide Inv, CheckForBufn, PostAllocFailed, TP.Valid, Reports, Pop;
    FailsInto(a, id, isCpu, isOom, blocking);
    var t := a.threads[id];
    var s := StateAfter(t.state.AllocFree?, t.isRetryAllocBeforeBufn, isOom, blocking);
    if s.Running? {
      RunningIsLeft(Failing(a, id, s), id);
    }
  }

  // ---- the kind of an exception ----

  /** The thread stays registered and begins no allocation in the steps after `i` and before `k`. */
  ghost predicate Idle(states: seq<Adaptor>, acts: seq<Action>, id: int, i: nat, k: nat)
    requires IsRun(states, acts)
  {
    && i < k <= |acts|
    && (forall j :: i < j <= k ==> id in states[j].threads)
    && forall j :: i < j < k ==>
         !Deregisters(states[j], acts[j], id) && Enabled(states[j], acts[j]) && Begins(states[j], acts[j], id) == None
  }

  lemma {:induction false} IdleParts(states: seq<Adaptor>, acts: seq<Action>, id: int, i: nat, k: nat)
    requires IsRun(states, acts) && Idle(states, acts, id, i, k)
    ensures |states| == |acts| + 1 && i < k <= |acts|
    ensures id in states[k].threads
    ensures k > i + 1 ==> Idle(states, acts, id, i, k - 1)
    ensures k > i + 1 ==>
      && id in states[k - 1].threads && !Deregisters(states[k - 1], acts[k - 1], id)
      && Enabled(states[k - 1], acts[k - 1]) && Begins(states[k - 1], acts[k - 1], id) == None
  {
    hide Deregisters, Begins, Enabled;
  }

  /** A thread whose allocation failed keeps its kind until it begins another one. */
  lemma {:induction false} KindStays(states: seq<Adaptor>, acts: seq<Action>, id: int, i: nat, k: nat)
    requires IsRun(states, acts) && Inv(states[0]) && Idle(states, acts, id, i, k)
    requires acts[i].Fail? && acts[i].id == id && !acts[i].recursive && Step(states[i], acts[i]).1 == Done(true)
    ensures id in states[k].threads
    ensures !IsAllocating(states[k].threads[id].state) && states[k].threads[id].isCpuAlloc == acts[i].isCpu
    decreases k
  {
    hide *;
    IdleParts(states, acts, id, i, k);
    RunStep(states, acts, k - 1);
    if k == i + 1 {
      FailureRestsOwn(states[i], id, acts[i].isCpu, acts[i].isOom, acts[i].blocking);
      assert acts[i] == Fail(id, acts[i].isCpu, acts[i].isOom, acts[i].blocking, false);
    } else {
      KindStays(states, acts, id, i, k - 1);
      RestsOn(states[k - 1], acts[k - 1], id);
    }
  }

  lemma {:induction false} RestsOn(a: Adaptor, act: Action, id: int)
    requires Inv(a) && TP.Valid(a.tracker) && Enabled(a, act) && id in a.threads && !IsAllocating(a.threads[id].state)
    requires Begins(a, act, id) == None && !Deregisters(a, act, id) && id in Step(a, act).0.threads
    ensures var u := Step(a, act).0.threads[id];
      !IsAllocating(u.state) && u.isCpuAlloc == a.threads[id].isCpuAlloc
  {
    hide Inv, Step, Enabled, TP.Valid, Begins, Deregisters;
    BeginsExactly(a, act, id);
  }

  lemma {:induction false} FailureRestsOwn(a: Adaptor, id: int, isCpu: bool, isOom: bool, blocking: bool)
    requires Inv(a) && TP.Valid(a.tracker) && Enabled(a, Fail(id, isCpu, isOom, blocking, false))
    requires Step(a, Fail(id, isCpu, isOom, blocking, false)).1 == Done(true)
    ensures var b := Step(a, Fail(id, isCpu, isOom, blocking, false)).0;
      id in b.threads && !IsAllocating(b.threads[id].state) && b.threads[id].isCpuAlloc == isCpu
  {
    InvFail(a, id, isCpu, isOom, blocking, false);
    ProperReport(a, id, isCpu);
    FailsInto(a, id, isCpu, isOom, blocking);
    var t := a.threads[id];
    var s := StateAfter(t.state.AllocFree?, t.isRetryAllocBeforeBufn, isOom, blocking);
    hide Inv, CheckForBufn, PostAllocFailed, TP.Valid, Reports, Pop;
    CheckNudges(Failing(a, id, s), None);
    NudgedRests(Failing(a, id, s), CheckForBufn(Failing(a, id, s), None), id);
  }

  /** Over all runs: the exception of a thread whose allocation failed is of the kind of that allocation. */
  lemma {:induction false} ExceptionOfItsKind(states: seq<Adaptor>, acts: seq<Action>, id: int, i: nat, k: nat, c: bool)
    requires IsRun(states, acts) && Inv(states[0]) && Idle(states, acts, id, i, k) && k < |acts|
    requires acts[i].Fail? && acts[i].id == id && !acts[i].recursive && Step(states[i], acts[i]).1 == Done(true)
    requires Blocks(acts[k], id)
    requires var o := Step(states[k], acts[k]).1; o == Threw(RetryOom(c)) || o == Threw(SplitAndRetryOom(c))
    ensures c == acts[i].isCpu
  {
    hide *;
    IdleParts(states, acts, id, i, k);
    KindStays(states, acts, id, i, k);
    RunStep(states, acts, k);
    ExceptionsExactly(states[k], acts[k], id);
  }
}
