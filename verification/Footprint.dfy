/**
 * The footprint reported for a task is never below the peak of the bytes its dedicated threads
 * really had counted, through checkpoints and through threads coming and going.
 */
module Footprint {
  import opened Common
  import TP = TaskPriority
  import opened ThreadState
  import opened Deadlock
  import opened AdaptorModel
  import opened Nudge
  import opened AdaptorRuns

  /** What really happened for one task: bytes counted and not yet freed, and the most there were. */
  datatype Ledger = Ledger(net: int, peak: int)

  ghost function InTask(ts: Threads, task: int): set<int> {
    set id | id in ts && DedicatedTo(ts, id, task)
  }

  ghost function SumActive(ts: Threads, ids: set<int>): int
    requires ids <= ts.Keys
    decreases |ids|
  {
    if ids == {} then 0 else ts[MinOf(ids)].metrics.activeFootprint + SumActive(ts, ids - {MinOf(ids)})
  }

  // ---- sums over sets of threads ----

  lemma {:induction false} SumSplit(ts: Threads, ids: set<int>, id: int)
    requires id in ids
    ensures ids <= ts.Keys ==> SumActive(ts, ids) == ts[id].metrics.activeFootprint + SumActive(ts, ids - {id})
    ensures SumFootprints(ts, ids)
         == (if id in ts then ts[id].metrics.maxFootprint else 0) + SumFootprints(ts, ids - {id})
    decreases |ids|
  {
    var m := MinOf(ids);
    if m != id {
      SumSplit(ts, ids - {m}, id);
      MinUnique(ids - {id}, m);
      assert ids - {m} - {id} == ids - {id} - {m};
    }
  }

  lemma {:induction false} SumSame(ts: Threads, us: Threads, ids: set<int>)
    requires ids <= ts.Keys && ids <= us.Keys
    requires forall id :: id in ids ==> us[id].metrics.activeFootprint == ts[id].metrics.activeFootprint
    requires forall id :: id in ids ==> us[id].metrics.maxFootprint == ts[id].metrics.maxFootprint
    ensures SumActive(us, ids) == SumActive(ts, ids) && SumFootprints(us, ids) == SumFootprints(ts, ids)
    decreases |ids|
  {
    if ids != {} {
      SumSame(ts, us, ids - {MinOf(ids)});
    }
  }

  lemma {:induction false} SumOrdered(ts: Threads, ids: set<int>)
    requires ids <= ts.Keys && forall id :: id in ids ==> MetricsOk(ts[id].metrics)
    ensures SumActive(ts, ids) <= SumFootprints(ts, ids)
    decreases |ids|
  {
    if ids != {} {
      SumOrdered(ts, ids - {MinOf(ids)});
    }
  }

  /** Adding up more threads, missing only ones that report nothing, gives no less. */
  lemma {:induction false} SumCovers(ts: Threads, ids: set<int>, listed: set<int>)
    requires ids <= ts.Keys && forall id :: id in ts ==> 0 <= ts[id].metrics.maxFootprint
    requires forall id :: id in ids && id !in listed ==> ts[id].metrics.maxFootprint == 0
    ensures SumFootprints(ts, ids) <= SumFootprints(ts, listed)
    decreases |ids|, |listed|
  {
    if ids != {} {
      var id := Member(ids);
      SumSplit(ts, ids, id);
      if id in listed {
        SumSplit(ts, listed, id);
      }
      SumCovers(ts, ids - {id}, listed - {id});
      assert id !in listed ==> listed - {id} == listed;
    } else if listed != {} {
      SumCovers(ts, ids, listed - {MinOf(listed)});
    }
  }

  // ---- the invariant for one task ----

  ghost predicate Accounted(a: Adaptor, task: int, l: Ledger) {
    var ids := InTask(a.threads, task);
    var saved := Lookup(a.taskToMetrics, task).maxFootprint;
    && (forall id :: id in ids && a.threads[id].state.RemoveThrow? ==> a.threads[id].metrics.maxFootprint == 0)
    && l.net <= saved + SumActive(a.threads, ids)
    && l.net <= l.peak <= saved + SumFootprints(a.threads, ids)
  }

  /** Every thread that counts is listed; stale entries and strangers in the list only add to the report. */
  lemma {:induction false} ReportCoversPeak(a: Adaptor, task: int, l: Ledger)
    requires Inv(a) && Accounted(a, task, l)
    ensures ReportedFootprint(a, task) >= l.peak
  {
    var ids := InTask(a.threads, task);
    var none: set<int> := {};
    var listed := if task in a.taskToThreads then a.taskToThreads[task] else none;
    forall id | id in a.threads
      ensures 0 <= a.threads[id].metrics.maxFootprint
      ensures id in ids && id !in listed ==> a.threads[id].metrics.maxFootprint == 0
    {
      assert Listed(a.taskToThreads, id, a.threads[id]) && ThreadOk(id, a.threads[id]);
    }
    SumCovers(a.threads, ids, listed);
  }

  /** Nothing the account looks at changes. */
  ghost predicate SameAccount(a: Adaptor, b: Adaptor) {
    && b.taskToMetrics == a.taskToMetrics && b.threads.Keys == a.threads.Keys
    && forall id :: id in a.threads ==> SameRecord(a.threads[id], b.threads[id])
  }

  ghost predicate SameRecord(t: Thread, u: Thread) {
    && u.taskId == t.taskId && (u.state.RemoveThrow? <==> t.state.RemoveThrow?)
    && u.metrics.activeFootprint == t.metrics.activeFootprint && u.metrics.maxFootprint == t.metrics.maxFootprint
  }

  lemma {:induction false} AccountedSame(a: Adaptor, b: Adaptor, task: int, l: Ledger)
    requires Accounted(a, task, l) && SameAccount(a, b)
    ensures Accounted(b, task, l)
  {
    assert InTask(b.threads, task) == InTask(a.threads, task);
    SumSame(a.threads, b.threads, InTask(a.threads, task));
  }

  lemma {:induction false} NudgedSame(a: Adaptor, b: Adaptor)
    requires Nudged(a, b)
    ensures SameAccount(a, b)
  {
    forall id | id in a.threads ensures SameRecord(a.threads[id], b.threads[id]) {
      assert NudgedThread(a.threads[id], b.threads[id]);
    }
  }

  /** Replacing the metrics of one thread of the task: what the sums lose and gain. */
  lemma {:induction false} SumWith(a: Adaptor, id: int, t: Thread, task: int)
    requires DedicatedTo(a.threads, id, task) && t.taskId == a.threads[id].taskId
    ensures var b := With(a, id, t); var ids := InTask(a.threads, task); var m := a.threads[id].metrics;
      && InTask(b.threads, task) == ids
      && SumActive(b.threads, ids) == SumActive(a.threads, ids) - m.activeFootprint + t.metrics.activeFootprint
      && SumFootprints(b.threads, ids) == SumFootprints(a.threads, ids) - m.maxFootprint + t.metrics.maxFootprint
  {
    var b := With(a, id, t);
    var ids := InTask(a.threads, task);
    assert InTask(b.threads, task) == ids;
    SumSplit(a.threads, ids, id);
    SumSplit(b.threads, ids, id);
    SumSame(a.threads, b.threads, ids - {id});
  }

  /** A checkpoint moves a thread's footprint into the task's record, or adds a pool thread's. */
  lemma {:induction false} AccountedCheckpoint(a: Adaptor, id: int, task: int, l: Ledger)
    requires Inv(a) && id in a.threads && Accounted(a, task, l)
    ensures Accounted(CheckpointMetrics(a, id), task, l)
  {
    var b := CheckpointMetrics(a, id);
    var t := a.threads[id];
    assert ThreadOk(id, t);
    if DedicatedTo(a.threads, id, task) {
      SumWith(a, id, t.(metrics := NO_METRICS), task);
      assert Lookup(b.taskToMetrics, task) == AddMetrics(Lookup(a.taskToMetrics, task), t.metrics);
    } else {
      assert InTask(b.threads, task) == InTask(a.threads, task);
      SumSame(a.threads, b.threads, InTask(a.threads, task));
      assert Lookup(b.taskToMetrics, task).maxFootprint >= Lookup(a.taskToMetrics, task).maxFootprint;
    }
  }

  /** A thread may go once nothing is counted for it any more. */
  lemma {:induction false} AccountedErase(a: Adaptor, id: int, task: int, l: Ledger)
    requires Accounted(a, task, l) && id in a.threads && MetricsOk(a.threads[id].metrics)
    requires DedicatedTo(a.threads, id, task) ==> a.threads[id].metrics.maxFootprint == 0
    ensures Accounted(Erase(a, id), task, l)
  {
    var b := Erase(a, id);
    var ids := InTask(a.threads, task);
    assert InTask(b.threads, task) == ids - {id};
    if id in ids {
      SumSplit(a.threads, ids, id);
    } else {
      assert ids - {id} == ids;
    }
    SumSame(a.threads, b.threads, ids - {id});
  }

  lemma {:induction false} AccountedLeave(a: Adaptor, id: int, task: int, l: Ledger)
    requires Accounted(a, task, l) && id in a.threads && MetricsOk(a.threads[id].metrics)
    requires DedicatedTo(a.threads, id, task) ==> a.threads[id].metrics.maxFootprint == 0
    ensures Accounted(Leave(a, id), task, l)
  {
    if IsBlocked(a.threads[id].state) {
      var b := Leave(a, id);
      assert InTask(b.threads, task) == InTask(a.threads, task);
      SumSame(a.threads, b.threads, InTask(a.threads, task));
    } else {
      AccountedErase(a, id, task, l);
    }
  }

  lemma {:induction false} AccountedTrimmed(a: Adaptor, id: int, from: int, task: int, l: Ledger)
    requires Inv(a) && Accounted(a, task, l) && id in a.threads
    ensures Accounted(Trimmed(a, id, from), task, l)
    ensures Trimmed(a, id, from).threads[id].metrics == NO_METRICS
  {
    AccountedCheckpoint(a, id, task, l);
    AccountedSame(CheckpointMetrics(a, id), Trimmed(a, id, from), task, l);
  }

  lemma {:induction false} AccountedUnlisted(a: Adaptor, id: int, from: int, task: int, l: Ledger)
    requires Accounted(a, task, l)
    ensures Accounted(Unlist(a, id, from), task, l)
  {
    AccountedSame(a, Unlist(a, id, from), task, l);
  }

  lemma {:induction false} AccountedRemove(a: Adaptor, id: int, from: int, task: int, l: Ledger)
    requires Inv(a) && Accounted(a, task, l)
    ensures Accounted(RemoveAssociation(a, id, from).0, task, l)
  {
    if id in a.threads {
      hide Inv, Accounted, RemoveAssociation, Trimmed, Leave;
      RemoveAssociationShape(a, id, from);
      AccountedTrimmed(a, id, from, task, l);
      var b := Trimmed(a, id, from);
      AccountedLeave(b, id, task, l);
      AccountedUnlisted(Leave(b, id), id, from, task, l);
    }
  }

  lemma {:induction false} AccountedInsert(a: Adaptor, id: int, t: Thread, task: int, l: Ledger)
    requires Accounted(a, task, l) && id !in a.threads && t.metrics == NO_METRICS && t.state.Running?
    ensures Accounted(With(a, id, t), task, l)
  {
    var b := With(a, id, t);
    var ids := InTask(a.threads, task);
    SumSame(a.threads, b.threads, ids);
    if !IsPool(t) && t.taskId == task {
      assert InTask(b.threads, task) == ids + {id};
      SumSplit(b.threads, ids + {id}, id);
      assert ids + {id} - {id} == ids;
    } else {
      assert InTask(b.threads, task) == ids;
    }
  }

  lemma {:induction false} AccountedRegister(a: Adaptor, id: int, at: int, task: int, l: Ledger)
    requires Inv(a) && Accounted(a, task, l) && id != -1 && at >= 0
    ensures Accounted(StartDedicated(a, id, at).0, task, l)
  {
    var moved := id in a.threads && a.threads[id].taskId >= 0 && a.threads[id].taskId != at;
    var b := if moved then RemoveAssociation(a, id, a.threads[id].taskId).0 else a;
    if moved {
      AccountedRemove(a, id, a.threads[id].taskId, task, l);
    }
    if StartDedicated(a, id, at).1.Done? {
      var c := if id in b.threads then b else With(b, id, NewThread(at, false));
      if id !in b.threads {
        AccountedInsert(b, id, NewThread(at, false), task, l);
      }
      assert StartDedicated(a, id, at).0 == List(c, id, at);
      AccountedSame(c, List(c, id, at), task, l);
    } else {
      assert StartDedicated(a, id, at).0 == b;
    }
  }

  lemma {:induction false} AccountedJoinPool(a: Adaptor, isForShuffle: bool, id: int, tasks: set<int>,
                                             task: int, l: Ledger)
    requires Inv(a) && Accounted(a, task, l) && id != -1
    ensures Accounted(PoolWorking(a, isForShuffle, id, tasks).0, task, l)
  {
    hide Accounted;
    if PoolWorking(a, isForShuffle, id, tasks).1.Done? {
      var b := if id in a.threads then a else With(a, id, NewThread(-1, isForShuffle));
      if id !in a.threads {
        InvWith(a, id, NewThread(-1, isForShuffle));
        AccountedInsert(a, id, NewThread(-1, isForShuffle), task, l);
      }
      AccountedCheckpoint(b, id, task, l);
      AccountedSame(CheckpointMetrics(b, id), PoolWorking(a, isForShuffle, id, tasks).0, task, l);
    }
  }

  lemma {:induction false} AccountedWakeIf(r: (Adaptor, bool), task: int, l: Ledger)
    requires Inv(r.0) && Accounted(r.0, task, l)
    ensures Accounted(WakeIf(r), task, l)
  {
    InvWakeIf(r);
    NudgedSame(r.0, WakeIf(r));
    AccountedSame(r.0, WakeIf(r), task, l);
  }

  lemma {:induction false} AccountedLeavePool(a: Adaptor, id: int, tasks: set<int>, task: int, l: Ledger)
    requires Inv(a) && Accounted(a, task, l)
    ensures Accounted(PoolFinished(a, id, tasks), task, l)
  {
    if id in a.threads {
      var b := CheckpointMetrics(a, id);
      AccountedCheckpoint(a, id, task, l);
      InvCheckpoint(a, id);
      var t := b.threads[id];
      var c := With(b, id, t.(poolTaskIds := t.poolTaskIds - tasks));
      InvWith(b, id, t.(poolTaskIds := t.poolTaskIds - tasks));
      AccountedSame(b, c, task, l);
      AccountedRemove(c, id, -1, task, l);
      InvRemove(c, id, -1);
      AccountedWakeIf(RemoveAssociation(c, id, -1), task, l);
    }
  }

  lemma {:induction false} AccountedRemoveAll(a: Adaptor, ids: set<int>, from: int, task: int, l: Ledger)
    requires Inv(a) && Accounted(a, task, l) && from >= 0
    ensures Accounted(RemoveAll(a, ids, from).0, task, l) && Inv(RemoveAll(a, ids, from).0)
    decreases |ids|
  {
    if ids != {} {
      AccountedRemove(a, MinOf(ids), from, task, l);
      InvRemove(a, MinOf(ids), from);
      AccountedRemoveAll(RemoveAssociation(a, MinOf(ids), from).0, ids - {MinOf(ids)}, from, task, l);
    }
  }

  lemma {:induction false} AccountedDrop(a: Adaptor, id: int, from: int, task: int, l: Ledger)
    requires Inv(a) && Accounted(a, task, l) && from >= 0
    ensures Accounted(DropPoolTask(a, id, from).0, task, l)
  {
    if id in a.threads && from in a.threads[id].poolTaskIds {
      var t := a.threads[id];
      var b := With(a, id, t.(poolTaskIds := t.poolTaskIds - {from}));
      InvWith(a, id, t.(poolTaskIds := t.poolTaskIds - {from}));
      AccountedSame(a, b, task, l);
      AccountedRemove(b, id, from, task, l);
    }
  }

  lemma {:induction false} AccountedDropAll(a: Adaptor, ids: set<int>, from: int, task: int, l: Ledger)
    requires Inv(a) && Accounted(a, task, l) && from >= 0
    ensures Accounted(DropPoolTaskAll(a, ids, from).0, task, l)
    decreases |ids|
  {
    if ids != {} {
      AccountedDrop(a, MinOf(ids), from, task, l);
      InvDrop(a, MinOf(ids), from);
      AccountedDropAll(DropPoolTask(a, MinOf(ids), from).0, ids - {MinOf(ids)}, from, task, l);
    }
  }

  lemma {:induction false} AccountedFinish(a: Adaptor, from: int, task: int, l: Ledger)
    requires Inv(a) && Accounted(a, task, l) && from >= 0
    ensures Accounted(TaskDone(a, from), task, l)
  {
    var none: set<int> := {};
    var ids := if from in a.taskToThreads then a.taskToThreads[from] else none;
    AccountedRemoveAll(a, ids, from, task, l);
    var r := RemoveAll(a, ids, from).0;
    AccountedDropAll(r, r.threads.Keys, from, task, l);
    CutTaskClears(a, from);
    var cut := CutTask(a, from);
    AccountedWakeIf(cut, task, l);
    var b := WakeIf(cut);
    AccountedSame(b, TaskDone(a, from), task, l);
  }

  // ---- blocking ----

  lemma {:induction false} ThrowOomSame(a: Adaptor, id: int, split: bool)
    requires id in a.threads
    ensures SameAccount(a, ThrowOom(a, id, split).0)
  {
  }

  lemma {:induction false} SameAccountComposes(a: Adaptor, b: Adaptor, c: Adaptor)
    requires SameAccount(a, b) && SameAccount(b, c)
    ensures SameAccount(a, c)
  {
  }

  lemma {:induction false} StateSame(a: Adaptor, id: int, s: State)
    requires id in a.threads && !a.threads[id].state.RemoveThrow? && !s.RemoveThrow?
    ensures SameAccount(a, With(a, id, a.threads[id].(state := s))) && SameAccount(a, a)
  {
  }

  lemma {:induction false} SettleSame(a: Adaptor, id: int)
    requires id in a.threads && !a.threads[id].state.RemoveThrow?
    ensures SameAccount(a, Settle(a, id).0)
  {
    hide SameAccount, ThrowOom;
    var t := a.threads[id];
    StateSame(a, id, BufnWait);
    StateSame(a, id, Running);
    if t.state.BufnThrow? {
      var b := With(a, id, t.(state := BufnWait));
      ThrowOomSame(b, id, false);
      SameAccountComposes(a, b, ThrowOom(b, id, false).0);
    } else if t.state.SplitThrow? {
      var b := With(a, id, t.(state := Running));
      ThrowOomSame(b, id, true);
      SameAccountComposes(a, b, ThrowOom(b, id, true).0);
    }
  }

  lemma {:induction false} AccountedSettle(a: Adaptor, id: int, task: int, l: Ledger)
    requires Inv(a) && Accounted(a, task, l)
    ensures Accounted(Settle(a, id).0, task, l)
  {
    if id in a.threads {
      if a.threads[id].state.RemoveThrow? {
        assert DedicatedTo(a.threads, id, task) ==> id in InTask(a.threads, task);
        assert ThreadOk(id, a.threads[id]);
        AccountedErase(a, id, task, l);
      } else {
        SettleSame(a, id);
        AccountedSame(a, Settle(a, id).0, task, l);
      }
    }
  }

  lemma {:induction false} AccountedBlockLoop(a: Adaptor, id: int, task: int, l: Ledger)
    requires Inv(a) && id !in a.waiters && Accounted(a, task, l)
    ensures Accounted(BlockLoop(a, id).0, task, l)
  {
    if id in a.threads && a.threads[id].state.BufnWait? {
      var b := With(a, id, a.threads[id].(state := Bufn));
      InvWith(a, id, a.threads[id].(state := Bufn));
      AccountedSame(a, b, task, l);
      InvCheck(b, None);
      NudgedSame(b, CheckForBufn(b, None));
      AccountedSame(b, CheckForBufn(b, None), task, l);
      AccountedSettle(CheckForBufn(b, None), id, task, l);
    } else {
      AccountedSettle(a, id, task, l);
    }
  }

  lemma {:induction false} AccountedBlockUntilReady(a: Adaptor, id: int, task: int, l: Ledger)
    requires Inv(a) && id !in a.waiters && Accounted(a, task, l)
    ensures Accounted(BlockUntilReady(a, id).0, task, l)
  {
    AccountedBlockLoop(a, id, task, l);
    AccountedSame(BlockLoop(a, id).0, BlockUntilReady(a, id).0, task, l);
  }

  lemma {:induction false} ItselfSame(t: Thread)
    ensures SameRecord(t, t)
  {
  }

  lemma {:induction false} BeginsSame(t: Thread, isCpu: bool)
    requires t.state.Running?
    ensures SameRecord(t, t.(state := Alloc, isCpuAlloc := isCpu))
  {
  }

  lemma {:induction false} EnterAllocSame(a: Adaptor, id: int, isCpu: bool, blocking: bool)
    ensures SameAccount(a, EnterAlloc(a, id, isCpu, blocking).0)
  {
    hide FramesOf, OrphansOf, SameRecord;
    if id in a.threads && a.threads[id].state.Running? {
      BeginsSame(a.threads[id], isCpu);
    }
    forall x | x in a.threads ensures SameRecord(a.threads[x], a.threads[x]) {
      ItselfSame(a.threads[x]);
    }
  }

  lemma {:induction false} AccountedBlockThenAlloc(a: Adaptor, id: int, isCpu: bool, task: int, l: Ledger)
    requires Inv(a) && id !in a.waiters && Accounted(a, task, l)
    ensures Accounted(BlockThenAlloc(a, id, isCpu).0, task, l)
  {
    AccountedBlockLoop(a, id, task, l);
    var r := BlockLoop(a, id);
    EnterAllocSame(r.0, id, isCpu, true);
    AccountedSame(r.0, BlockThenAlloc(a, id, isCpu).0, task, l);
  }

  lemma {:induction false} AccountedPreAlloc(a: Adaptor, id: int, isCpu: bool, blocking: bool, task: int, l: Ledger)
    requires Inv(a) && id !in a.waiters && Accounted(a, task, l)
    ensures Accounted(PreAlloc(a, id, isCpu, blocking).0, task, l)
  {
    if id in a.threads && !IsAllocating(a.threads[id].state) && blocking {
      AccountedBlockThenAlloc(a, id, isCpu, task, l);
    } else {
      EnterAllocSame(a, id, isCpu, blocking);
      AccountedSame(a, PreAlloc(a, id, isCpu, blocking).0, task, l);
    }
  }

  lemma {:induction false} AccountedWake(a: Adaptor, id: int, task: int, l: Ledger)
    requires Inv(a) && id in a.waiters && Accounted(a, task, l)
    ensures Accounted(Resume(a, id).0, task, l)
  {
    if id in a.threads && IsBlocked(a.threads[id].state) {
      AccountedSame(a, Resume(a, id).0, task, l);
    } else {
      var b := a.(waiters := a.waiters - {id});
      AccountedSame(a, b, task, l);
      assert Inv(b);
      match a.waiters[id].call
      case UntilReady => AccountedBlockUntilReady(b, id, task, l);
      case ForAlloc(isCpu) => AccountedBlockThenAlloc(b, id, isCpu, task, l);
    }
  }

  // ---- counting ----

  /**
   * Is this step a GPU allocation or free that is counted for a dedicated thread of `task`? An
   * allocation begun before the thread was registered with the task is not.
   */
  ghost predicate Counts(a: Adaptor, act: Action, task: int) {
    match act
    case Succeed(id, isCpu, recursive, _) =>
      DedicatedTo(a.threads, id, task) && Current(a, id) && !isCpu && !recursive && !a.threads[id].isInSpilling
    case Free(id, isCpu, _) => DedicatedTo(a.threads, id, task) && !isCpu && !a.threads[id].isInSpilling
    case _ => false
  }

  /**
   * The independent record: what the clients did, whatever the adaptor stored about it. Dropping the
   * metrics of the task begins it anew with what the live threads have counted.
   */
  ghost function Record(a: Adaptor, act: Action, task: int, l: Ledger): Ledger {
    if act == DropMetrics(task) then
      var live := SumActive(a.threads, InTask(a.threads, task));
      Ledger(live, live)
    else if !Counts(a, act, task) then l
    else if act.Succeed? then Ledger(l.net + act.bytes, Max(l.peak, l.net + act.bytes))
    else if act.Free? then Ledger(l.net - act.bytes, l.peak)
    else l
  }

  /** A success that is recorded. */
  ghost function Counted(a: Adaptor, id: int, isCpu: bool, bytes: nat, task: int, l: Ledger): Ledger {
    if DedicatedTo(a.threads, id, task) && !isCpu && !a.threads[id].isInSpilling
    then Ledger(l.net + bytes, Max(l.peak, l.net + bytes)) else l
  }

  lemma {:induction false} RecordSuccessAccounted(a: Adaptor, id: int, isCpu: bool, bytes: nat, task: int, l: Ledger)
    requires Accounted(a, task, l) && id in a.threads && IsAllocating(a.threads[id].state)
    requires forall x :: x in a.threads ==> MetricsOk(a.threads[x].metrics)
    ensures Accounted(RecordSuccess(a, id, isCpu, bytes), task, Counted(a, id, isCpu, bytes, task, l))
  {
    var b := RecordSuccess(a, id, isCpu, bytes);
    var t := b.threads[id];
    if DedicatedTo(a.threads, id, task) {
      SumWith(a, id, t, task);
      assert b.threads == With(a, id, t).threads;
      SumOrdered(b.threads, InTask(a.threads, task));
    } else {
      assert InTask(b.threads, task) == InTask(a.threads, task);
      SumSame(a.threads, b.threads, InTask(a.threads, task));
    }
  }

  lemma {:induction false} AccountedWakeNext(a: Adaptor, isCpu: bool, task: int, l: Ledger)
    requires TP.Valid(a.tracker) && Accounted(a, task, l)
    ensures Accounted(WakeNext(a, isCpu), task, l)
  {
    hide Accounted, WakeNext;
    WakeNextNudges(a, isCpu);
    NudgedSame(a, WakeNext(a, isCpu));
    AccountedSame(a, WakeNext(a, isCpu), task, l);
  }

  lemma {:induction false} PopSame(a: Adaptor, id: int)
    ensures SameAccount(a, Pop(a, id)) && Pop(a, id).threads == a.threads && Pop(a, id).tracker == a.tracker
  {
    hide OrphansOf, FramesOf;
  }

  lemma {:induction false} AccountedProperSuccess(a: Adaptor, id: int, isCpu: bool, bytes: nat, task: int, l: Ledger)
    requires Inv(a) && Accounted(a, task, l) && Reports(a, id, isCpu, false) && id in a.threads && Current(a, id)
    ensures Accounted(PostAllocSuccess(a, id, isCpu, false, bytes).0, task,
                      Record(a, Succeed(id, isCpu, false, bytes), task, l))
  {
    var b := Pop(a, id);
    PopSame(a, id);
    AccountedSame(a, b, task, l);
    InvValid(a);
    ProperReport(a, id, isCpu);
    RecordSuccessAccounted(b, id, isCpu, bytes, task, l);
    hide Inv, Accounted, Reports, OrphansOf, FramesOf, WakeNext, CountAlloc, Pop;
    var c := RecordSuccess(b, id, isCpu, bytes);
    AccountedWakeNext(c, isCpu, task, Counted(b, id, isCpu, bytes, task, l));
    assert PostAllocSuccess(a, id, isCpu, false, bytes).0 == WakeNext(c, isCpu);
    hide PostAllocSuccess, RecordSuccess;
  }

  lemma {:induction false} AccountedOrphanSuccess(a: Adaptor, id: int, isCpu: bool, bytes: nat, task: int, l: Ledger)
    requires Inv(a) && Accounted(a, task, l) && id in a.threads && !Current(a, id)
    ensures Accounted(PostAllocSuccess(a, id, isCpu, false, bytes).0, task, l)
  {
    InvPopOrphan(a, id);
    InvValid(a);
    PopSame(a, id);
    var c := With(Pop(a, id), id, a.threads[id].(isRetryAllocBeforeBufn := false));
    AccountedSame(a, c, task, l);
    AccountedWakeNext(c, isCpu, task, l);
    hide Inv, Accounted, WakeNext, Pop;
  }

  lemma {:induction false} AccountedSucceed(a: Adaptor, id: int, isCpu: bool, recursive: bool, bytes: nat,
                                            task: int, l: Ledger)
    requires Inv(a) && Accounted(a, task, l) && id !in a.waiters && Reports(a, id, isCpu, recursive)
    ensures Accounted(PostAllocSuccess(a, id, isCpu, recursive, bytes).0, task,
                      Record(a, Succeed(id, isCpu, recursive, bytes), task, l))
  {
    hide Inv, Accounted, Reports, Current;
    InvValid(a);
    if recursive || id !in a.threads {
      PopSame(a, id);
      AccountedSame(a, Pop(a, id), task, l);
    } else if Current(a, id) {
      AccountedProperSuccess(a, id, isCpu, bytes, task, l);
    } else {
      AccountedOrphanSuccess(a, id, isCpu, bytes, task, l);
    }
    hide WakeNext, CountAlloc, Pop;
  }

  lemma {:induction false} AccountedFree(a: Adaptor, id: int, isCpu: bool, bytes: nat, task: int, l: Ledger)
    requires Inv(a) && Accounted(a, task, l)
    ensures Accounted(Dealloc(a, id, isCpu, bytes), task, Record(a, Free(id, isCpu, bytes), task, l))
  {
    var l' := Record(a, Free(id, isCpu, bytes), task, l);
    var b := RecordFree(a, id, isCpu, bytes);
    RecordFreeAccounted(a, id, isCpu, bytes, task, l);
    var c := b.(threads := MarkFreed(b.threads, id, isCpu));
    AccountedSame(b, c, task, l');
    WakeNextNudges(c, isCpu);
    NudgedSame(c, WakeNext(c, isCpu));
    AccountedSame(c, WakeNext(c, isCpu), task, l');
  }

  /** Whatever happens to threads of other tasks. */
  lemma {:induction false} AccountedElsewhere(a: Adaptor, b: Adaptor, task: int, l: Ledger)
    requires Accounted(a, task, l) && b.taskToMetrics == a.taskToMetrics
    requires b.threads.Keys == a.threads.Keys
    requires forall id :: id in a.threads ==> b.threads[id].taskId == a.threads[id].taskId
    requires forall id :: DedicatedTo(a.threads, id, task) ==> SameRecord(a.threads[id], b.threads[id])
    ensures Accounted(b, task, l)
  {
    assert InTask(b.threads, task) == InTask(a.threads, task);
    SumSame(a.threads, b.threads, InTask(a.threads, task));
  }

  /** Only the counted bytes of one thread of the task go down. */
  lemma {:induction false} AccountedLess(a: Adaptor, id: int, u: Thread, bytes: nat, task: int, l: Ledger)
    requires Accounted(a, task, l) && DedicatedTo(a.threads, id, task)
    requires u == a.threads[id].(metrics := u.metrics)
    requires u.metrics.activeFootprint == a.threads[id].metrics.activeFootprint - bytes
    requires u.metrics.maxFootprint == a.threads[id].metrics.maxFootprint
    ensures Accounted(With(a, id, u), task, Ledger(l.net - bytes, l.peak))
  {
    SumWith(a, id, u, task);
  }

  lemma {:induction false} CountedFree(a: Adaptor, id: int, bytes: nat, task: int, l: Ledger)
    requires Accounted(a, task, l) && DedicatedTo(a.threads, id, task) && !a.threads[id].isInSpilling
    ensures Accounted(RecordFree(a, id, false, bytes), task, Ledger(l.net - bytes, l.peak))
  {
    var u := RecordFree(a, id, false, bytes).threads[id];
    AccountedLess(a, id, u, bytes, task, l);
    AccountedElsewhere(With(a, id, u), RecordFree(a, id, false, bytes), task, Ledger(l.net - bytes, l.peak));
  }

  lemma {:induction false} RecordFreeAccounted(a: Adaptor, id: int, isCpu: bool, bytes: nat, task: int, l: Ledger)
    requires Accounted(a, task, l)
    ensures Accounted(RecordFree(a, id, isCpu, bytes), task, Record(a, Free(id, isCpu, bytes), task, l))
  {
    if Counts(a, Free(id, isCpu, bytes), task) {
      CountedFree(a, id, bytes, task, l);
    } else {
      AccountedElsewhere(a, RecordFree(a, id, isCpu, bytes), task, l);
    }
  }

  lemma {:induction false} RegistrationAccounted(a: Adaptor, act: Action, task: int, l: Ledger)
    requires Inv(a) && Enabled(a, act) && Accounted(a, task, l)
    requires act.Register? || act.JoinPool? || act.LeavePool? || act.Deregister? || act.FinishTask?
    ensures Accounted(Step(a, act).0, task, l)
  {
    match act
    case Register(id, at) => AccountedRegister(a, id, at, task, l);
    case JoinPool(isForShuffle, id, tasks) => AccountedJoinPool(a, isForShuffle, id, tasks, task, l);
    case LeavePool(id, tasks) => AccountedLeavePool(a, id, tasks, task, l);
    case Deregister(id, from) =>
      AccountedRemove(a, id, from, task, l);
      InvRemove(a, id, from);
      AccountedWakeIf(RemoveAssociation(a, id, from), task, l);
    case FinishTask(from) => AccountedFinish(a, from, task, l);
  }

  lemma {:induction false} CheckAccounted(a: Adaptor, java: JavaBlocked, task: int, l: Ledger)
    requires Inv(a) && Accounted(a, task, l)
    ensures Accounted(CheckForBufn(a, java), task, l)
  {
    CheckNudges(a, java);
    NudgedSame(a, CheckForBufn(a, java));
    AccountedSame(a, CheckForBufn(a, java), task, l);
  }

  lemma {:induction false} ProperFailureAccounted(a: Adaptor, id: int, isCpu: bool, isOom: bool, blocking: bool,
                                                  task: int, l: Ledger)
    requires Inv(a) && Accounted(a, task, l) && id !in a.waiters && id in a.threads
    requires Reports(a, id, isCpu, false) && Current(a, id)
    ensures IsAllocating(a.threads[id].state) && a.threads[id].isCpuAlloc == isCpu
    ensures var c := RecordFailure(Pop(a, id), id, isOom, blocking); Inv(c) && Accounted(c, task, l)
  {
    ProperReport(a, id, isCpu);
    InvProperFailure(a, id, isCpu, isOom, blocking);
    PopSame(a, id);
    hide Inv, Reports, Current, Pop, Accounted;
    AccountedSame(a, RecordFailure(Pop(a, id), id, isOom, blocking), task, l);
  }

  lemma {:induction false} FailAccounted(a: Adaptor, id: int, isCpu: bool, isOom: bool, blocking: bool, recursive: bool,
                                         task: int, l: Ledger)
    requires Inv(a) && Accounted(a, task, l) && id !in a.waiters && Reports(a, id, isCpu, recursive)
    ensures Accounted(PostAllocFailed(a, id, isCpu, isOom, blocking, recursive).0, task, l)
  {
    InvValid(a);
    hide Inv, Accounted, Reports, CheckForBufn, RecordFailure;
    PopSame(a, id);
    AccountedSame(a, Pop(a, id), task, l);
    if recursive || id !in a.threads {
      InvPopped(a, id, isCpu, recursive);
      CheckAccounted(Pop(a, id), None, task, l);
    } else if Current(a, id) {
      ProperFailureAccounted(a, id, isCpu, isOom, blocking, task, l);
      CheckAccounted(RecordFailure(Pop(a, id), id, isOom, blocking), None, task, l);
    } else {
      InvPopOrphan(a, id);
    }
    hide Pop;
  }

  lemma {:induction false} StepAccounted(a: Adaptor, act: Action, task: int, l: Ledger)
    requires Inv(a) && Enabled(a, act) && Accounted(a, task, l)
    ensures Accounted(Step(a, act).0, task, Record(a, act, task, l))
  {
    InvValid(a);
    hide Inv, Accounted, SumActive, InTask, TP.Valid, StartDedicated, PoolWorking, PoolFinished, RemoveThread, TaskDone,
      CheckForBufn, PreAlloc, PostAllocSuccess, PostAllocFailed, Dealloc, BlockUntilReady, Resume;
    match act
    case Register(_, _) => RegistrationAccounted(a, act, task, l);
    case JoinPool(_, _, _) => RegistrationAccounted(a, act, task, l);
    case LeavePool(_, _) => RegistrationAccounted(a, act, task, l);
    case Deregister(_, _) => RegistrationAccounted(a, act, task, l);
    case FinishTask(_) => RegistrationAccounted(a, act, task, l);
    case Watchdog(javaBlocked) => CheckAccounted(a, Some(javaBlocked), task, l);
    case Allocate(id, isCpu, blocking) => AccountedPreAlloc(a, id, isCpu, blocking, task, l);
    case Succeed(id, isCpu, recursive, bytes) => AccountedSucceed(a, id, isCpu, recursive, bytes, task, l);
    case Fail(id, isCpu, isOom, blocking, recursive) =>
      FailAccounted(a, id, isCpu, isOom, blocking, recursive, task, l);
    case Free(id, isCpu, bytes) => AccountedFree(a, id, isCpu, bytes, task, l);
    case AwaitReady(id) => AccountedBlockUntilReady(a, id, task, l);
    case Wake(id) => AccountedWake(a, id, task, l);
    case WaitOnPool(id, poolBlocked) =>
      PoolFlagSame(a, id, poolBlocked);
      AccountedSame(a, PoolStatus(a, id, poolBlocked).0, task, l);
    case Spill(id, spilling) =>
      SpillFlagSame(a, id, spilling);
      AccountedSame(a, SpillRange(a, id, spilling), task, l);
    case DropMetrics(from) => DropMetricsAccounted(a, from, task, l);
    case ForgetPriority(_) => AccountedSame(a, Step(a, act).0, task, l);
  }

  lemma {:induction false} PoolFlagSame(a: Adaptor, id: int, poolBlocked: bool)
    ensures SameAccount(a, PoolStatus(a, id, poolBlocked).0)
  {
  }

  lemma {:induction false} SpillFlagSame(a: Adaptor, id: int, spilling: bool)
    ensures SameAccount(a, SpillRange(a, id, spilling))
  {
  }

  lemma {:induction false} DropMetricsAccounted(a: Adaptor, from: int, task: int, l: Ledger)
    requires Inv(a) && Accounted(a, task, l)
    ensures Accounted(RemoveTaskMetrics(a, from), task, Record(a, DropMetrics(from), task, l))
  {
    var ids := InTask(a.threads, task);
    forall id | id in ids ensures MetricsOk(a.threads[id].metrics) {
      InvAt(a, id);
    }
    hide Inv;
    SumOrdered(a.threads, ids);
  }

  /** The record of a task over the first k steps of a run. */
  ghost function LedgerAt(states: seq<Adaptor>, acts: seq<Action>, task: int, k: nat): Ledger
    requires IsRun(states, acts) && k <= |acts|
  {
    if k == 0 then Ledger(0, 0) else Record(states[k - 1], acts[k - 1], task, LedgerAt(states, acts, task, k - 1))
  }

  lemma {:induction false} RunAccounted(states: seq<Adaptor>, acts: seq<Action>, task: int, k: nat)
    requires IsRun(states, acts) && states[0] == EMPTY && k <= |acts|
    ensures Inv(states[k]) && Accounted(states[k], task, LedgerAt(states, acts, task, k))
  {
    if k == 0 {
      InvEmpty();
      assert InTask(EMPTY.threads, task) == {};
    } else {
      RunAccounted(states, acts, task, k - 1);
      assert states[k] == Step(states[k - 1], acts[k - 1]).0;
      InvStep(states[k - 1], acts[k - 1]);
      StepAccounted(states[k - 1], acts[k - 1], task, LedgerAt(states, acts, task, k - 1));
    }
  }

  lemma {:induction false} PeakGrows(a: Adaptor, act: Action, task: int, l: Ledger)
    requires l.net <= l.peak
    ensures var l' := Record(a, act, task, l); l'.net <= l'.peak && (act != DropMetrics(task) ==> l.peak <= l'.peak)
  {
  }

  lemma {:induction false} PeakIsReached(states: seq<Adaptor>, acts: seq<Action>, task: int, k: nat, i: nat)
    requires IsRun(states, acts) && i <= k <= |acts|
    requires forall j :: i <= j < k ==> acts[j] != DropMetrics(task)
    ensures LedgerAt(states, acts, task, k).net <= LedgerAt(states, acts, task, k).peak
    ensures LedgerAt(states, acts, task, i).net <= LedgerAt(states, acts, task, k).peak
    decreases k
  {
    hide Record, Counts, Step, Enabled, TP.Valid;
    if k > 0 {
      var l := LedgerAt(states, acts, task, k - 1);
      PeakIsReached(states, acts, task, k - 1, if i == k then k - 1 else i);
      PeakGrows(states[k - 1], acts[k - 1], task, l);
    }
  }

  /**
   * At any time the report is at least what the task had counted at any earlier time since its
   * metrics were last dropped, or ever if they were not.
   */
  lemma {:induction false} FootprintIsUpperBound(states: seq<Adaptor>, acts: seq<Action>, task: int, k: nat, i: nat)
    requires IsRun(states, acts) && states[0] == EMPTY && i <= k <= |acts|
    requires forall j :: i <= j < k ==> acts[j] != DropMetrics(task)
    ensures ReportedFootprint(states[k], task) >= LedgerAt(states, acts, task, i).net
  {
    RunAccounted(states, acts, task, k);
    ReportCoversPeak(states[k], task, LedgerAt(states, acts, task, k));
    PeakIsReached(states, acts, task, k, i);
  }
}
