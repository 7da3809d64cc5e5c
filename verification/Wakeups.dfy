/** Whom frees, successful allocations and departures wake, told on the states before and after the step. */
module Wakeups {
  import opened Common
  import TP = TaskPriority
  import opened ThreadState
  import opened Deadlock
  import opened AdaptorModel
  import opened Nudge
  import opened AdaptorRuns
  import NoStall

  // ---- one blocked thread of a kind ----

  /** The threads blocked on an allocation of the kind. */
  ghost function WaitingFor(ts: Threads, isCpu: bool): set<int> {
    set id | id in ts && ts[id].state.Blocked? && ts[id].isCpuAlloc == isCpu
  }

  /** Somebody is woken exactly if somebody waits, and then it is the highest in the tracker afterwards. */
  ghost predicate WakesHighest(ts: Threads, tr: TP.Tracker, isCpu: bool, woken: Option<int>) {
    var ids := WaitingFor(ts, isCpu);
    && (woken.None? <==> ids == {})
    && (woken.Some? ==> AllIssued(ts, tr, ids) && IsHighest(ts, tr, ids, woken.value))
  }

  ghost predicate NotifiedOnly(waiters: map<int, Waiter>, after: map<int, Waiter>, woken: Option<int>) {
    && after.Keys == waiters.Keys
    && forall id :: id in waiters ==>
         after[id] == if woken == Some(id) then waiters[id].(notified := true) else waiters[id]
  }

  /** The records after the wake-up, given those before it. */
  ghost predicate RunsOnly(ts: Threads, us: Threads, woken: Option<int>) {
    && us.Keys == ts.Keys
    && forall id :: id in ts ==> us[id] == if woken == Some(id) then ts[id].(state := Running) else ts[id]
  }

  lemma {:induction false} WakeNextWakes(a: Adaptor, isCpu: bool) returns (woken: Option<int>)
    requires TP.Valid(a.tracker)
    ensures var b := WakeNext(a, isCpu);
      && b == a.(threads := b.threads, waiters := b.waiters, tracker := b.tracker)
      && WakesHighest(a.threads, b.tracker, isCpu, woken)
      && RunsOnly(a.threads, b.threads, woken) && NotifiedOnly(a.waiters, b.waiters, woken)
  {
    var ids := BlockedFor(a.threads, isCpu);
    assert ids == WaitingFor(a.threads, isCpu);
    var b := Ask(a, ids);
    woken := None;
    if ids != {} {
      woken := Some(Highest(b.threads, b.tracker, ids));
    }
    hide TP.Valid, TP.Extends, IssueAll, BlockedFor, WaitingFor;
  }

  /** A change of records that blocks nobody and unblocks nobody. */
  lemma {:induction false} SameWaiting(ts: Threads, us: Threads, tr: TP.Tracker, isCpu: bool, woken: Option<int>)
    requires us.Keys == ts.Keys
    requires forall id :: id in ts ==>
      && PriorityKey(us[id]) == PriorityKey(ts[id])
      && (us[id].state.Blocked? <==> ts[id].state.Blocked?)
      && (ts[id].state.Blocked? ==> us[id].isCpuAlloc == ts[id].isCpuAlloc)
    requires WakesHighest(us, tr, isCpu, woken)
    ensures WakesHighest(ts, tr, isCpu, woken)
  {
    forall id ensures id in WaitingFor(us, isCpu) <==> id in WaitingFor(ts, isCpu) {
    }
    var ids := WaitingFor(ts, isCpu);
    assert WaitingFor(us, isCpu) == ids;
    hide WaitingFor, Less;
    if woken.Some? {
      assert forall id :: id in ids ==> PriorityKey(us[id]) == PriorityKey(ts[id]);
    }
  }

  // ---- frees ----

  /** What a free does to a record, apart from the wake-up. */
  ghost function AfterFree(t: Thread, own: bool, isCpu: bool, bytes: nat): Thread {
    if own then
      if isCpu || t.isInSpilling then t
      else t.(metrics := t.metrics.(activeFootprint := t.metrics.activeFootprint - bytes))
    else if t.state.Alloc? && t.isCpuAlloc == isCpu then t.(state := AllocFree)
    else t
  }

  lemma {:induction false} RecordedFree(a: Adaptor, id: int, isCpu: bool, bytes: nat)
    ensures var b := RecordFree(a, id, isCpu, bytes);
      && b == a.(threads := b.threads, gpuAllocatedBytes := b.gpuAllocatedBytes)
      && b.threads == (
           if id in a.threads then a.threads[id := AfterFree(a.threads[id], true, isCpu, bytes)] else a.threads)
      && b.gpuAllocatedBytes == if id in a.threads && !isCpu then a.gpuAllocatedBytes - bytes else a.gpuAllocatedBytes
  {
    if id in a.threads && (isCpu || a.threads[id].isInSpilling) {
      assert a.threads[id := a.threads[id]] == a.threads;
    }
  }

  lemma {:induction false} FreedRecords(a: Adaptor, id: int, isCpu: bool, bytes: nat)
    ensures var c := Freed(a, id, isCpu, bytes);
      && c.threads.Keys == a.threads.Keys
      && c == a.(threads := c.threads, gpuAllocatedBytes := c.gpuAllocatedBytes)
      && c.gpuAllocatedBytes == if id in a.threads && !isCpu then a.gpuAllocatedBytes - bytes else a.gpuAllocatedBytes
    ensures var c := Freed(a, id, isCpu, bytes);
      forall x :: x in a.threads ==> c.threads[x] == AfterFree(a.threads[x], x == id, isCpu, bytes)
  {
    hide RecordFree;
    RecordedFree(a, id, isCpu, bytes);
  }

  lemma {:induction false} FreeWaiting(a: Adaptor, id: int, isCpu: bool, bytes: nat, tr: TP.Tracker, woken: Option<int>)
    requires WakesHighest(Freed(a, id, isCpu, bytes).threads, tr, isCpu, woken)
    ensures WakesHighest(a.threads, tr, isCpu, woken)
  {
    hide Freed, WakesHighest;
    FreedRecords(a, id, isCpu, bytes);
    SameWaiting(a.threads, Freed(a, id, isCpu, bytes).threads, tr, isCpu, woken);
  }

  /**
   * A free tells every allocation of the kind that another thread has under way, and lets the highest
   * blocked thread of the kind run, if there is one; nobody else changes.
   */
  lemma {:induction false} FreeTellsAndWakes(a: Adaptor, id: int, isCpu: bool, bytes: nat) returns (woken: Option<int>)
    requires Inv(a) && id !in a.waiters
    ensures TP.Valid(a.tracker)
    ensures var b := Step(a, Free(id, isCpu, bytes)).0;
      && b == a.(threads := b.threads, waiters := b.waiters, tracker := b.tracker,
                 gpuAllocatedBytes := if id in a.threads && !isCpu then a.gpuAllocatedBytes - bytes
                                      else a.gpuAllocatedBytes)
      && WakesHighest(a.threads, b.tracker, isCpu, woken) && NotifiedOnly(a.waiters, b.waiters, woken)
      && b.threads.Keys == a.threads.Keys
      && forall x :: x in a.threads ==>
           var t := AfterFree(a.threads[x], x == id, isCpu, bytes);
           b.threads[x] == if woken == Some(x) then t.(state := Running) else t
  {
    InvValid(a);
    var c := Freed(a, id, isCpu, bytes);
    FreedRecords(a, id, isCpu, bytes);
    assert Step(a, Free(id, isCpu, bytes)).0 == WakeNext(c, isCpu);
    hide Inv, TP.Valid, Freed, WakeNext, WakesHighest, Step, AfterFree;
    woken := WakeNextWakes(c, isCpu);
    FreeWaiting(a, id, isCpu, bytes, WakeNext(c, isCpu).tracker, woken);
  }

  // ---- successes ----

  /** What a success report does to the record of the thread, apart from the wake-up. */
  ghost function AfterSuccess(t: Thread, total: int, isCpu: bool, bytes: nat): Thread {
    var m := t.metrics;
    var active := m.activeFootprint + (if t.isInSpilling then 0 else bytes);
    if !IsAllocating(t.state) then t.(isRetryAllocBeforeBufn := false)
    else if isCpu then t.(state := Running, isCpuAlloc := false, isRetryAllocBeforeBufn := false)
    else
      t.(state := Running, isCpuAlloc := false, isRetryAllocBeforeBufn := false,
         metrics := m.(activeFootprint := active,
                       maxFootprint := if t.isInSpilling || active <= m.maxFootprint then m.maxFootprint else active,
                       maxAllocated := if total <= m.maxAllocated then m.maxAllocated else total))
  }

  lemma {:induction false} RecordedSuccess(a: Adaptor, id: int, isCpu: bool, bytes: nat)
    requires id in a.threads && IsAllocating(a.threads[id].state)
    ensures var c := RecordSuccess(a, id, isCpu, bytes);
      && c == a.(threads := c.threads, gpuAllocatedBytes := c.gpuAllocatedBytes)
      && c.threads == a.threads[id := AfterSuccess(a.threads[id], a.gpuAllocatedBytes + bytes, isCpu, bytes)]
      && c.gpuAllocatedBytes == if isCpu then a.gpuAllocatedBytes else a.gpuAllocatedBytes + bytes
  {
  }

  lemma {:induction false} PopTouches(a: Adaptor, id: int)
    ensures var b := Pop(a, id); b == a.(inFlight := b.inFlight, orphaned := b.orphaned)
  {
  }

  /** The report before the wake-up. */
  lemma {:induction false} Succeeded(a: Adaptor, id: int, isCpu: bool, bytes: nat) returns (c: Adaptor)
    requires Inv(a) && Enabled(a, Succeed(id, isCpu, false, bytes)) && id in a.threads
    ensures TP.Valid(a.tracker)
    ensures var allocating := IsAllocating(a.threads[id].state);
      && c == Pop(a, id).(threads := c.threads,
                          gpuAllocatedBytes := if isCpu || !allocating then a.gpuAllocatedBytes
                                               else a.gpuAllocatedBytes + bytes)
      && c.threads == a.threads[id := AfterSuccess(a.threads[id], a.gpuAllocatedBytes + bytes, isCpu, bytes)]
      && c.tracker == a.tracker && c.waiters == a.waiters
      && PostAllocSuccess(a, id, isCpu, false, bytes) == (WakeNext(c, isCpu), Done(true))
  {
    InvValid(a);
    PopTouches(a, id);
    c := With(Pop(a, id), id, a.threads[id].(isRetryAllocBeforeBufn := false));
    if Current(a, id) {
      ProperReport(a, id, isCpu);
      RecordedSuccess(Pop(a, id), id, isCpu, bytes);
      c := RecordSuccess(Pop(a, id), id, isCpu, bytes);
    } else {
      InvPopOrphan(a, id);
    }
    hide Inv, Reports, TP.Valid, FramesOf, OrphansOf, RecordSuccess, WakeNext;
  }

  lemma {:induction false} SuccessWaiting(
    a: Adaptor, c: Adaptor, id: int, isCpu: bool, bytes: nat, tr: TP.Tracker, woken: Option<int>)
    requires id in a.threads
    requires c.threads == a.threads[id := AfterSuccess(a.threads[id], a.gpuAllocatedBytes + bytes, isCpu, bytes)]
    requires WakesHighest(c.threads, tr, isCpu, woken)
    ensures WakesHighest(a.threads, tr, isCpu, woken)
  {
    hide WakesHighest;
    SameWaiting(a.threads, c.threads, tr, isCpu, woken);
  }

  lemma {:induction false} RunsOnlyAt(ts: Threads, us: Threads, woken: Option<int>)
    requires RunsOnly(ts, us, woken)
    ensures us.Keys == ts.Keys
    ensures forall id :: id in ts ==> us[id] == if woken == Some(id) then ts[id].(state := Running) else ts[id]
  {
  }

  /**
   * A success report ends the allocation, counts it, and lets the highest blocked thread of the kind
   * try next; a recursive report, or one of a thread that is not registered, does none of that.
   */
  lemma {:induction false} SuccessCountsAndWakes(a: Adaptor, id: int, isCpu: bool, recursive: bool, bytes: nat)
    returns (woken: Option<int>)
    requires Inv(a) && Enabled(a, Succeed(id, isCpu, recursive, bytes))
    ensures TP.Valid(a.tracker)
    ensures var b := Step(a, Succeed(id, isCpu, recursive, bytes)).0;
      if recursive || id !in a.threads then
        && b == Pop(a, id) && b.threads == a.threads && b.waiters == a.waiters
        && b.gpuAllocatedBytes == a.gpuAllocatedBytes
      else
        && b == Pop(a, id).(threads := b.threads, waiters := b.waiters, tracker := b.tracker,
                            gpuAllocatedBytes := if isCpu || !IsAllocating(a.threads[id].state) then a.gpuAllocatedBytes
                                                 else a.gpuAllocatedBytes + bytes)
        && WakesHighest(a.threads, b.tracker, isCpu, woken) && NotifiedOnly(a.waiters, b.waiters, woken)
        && b.threads.Keys == a.threads.Keys
        && forall x :: x in a.threads ==>
             var t := if x == id then AfterSuccess(a.threads[id], a.gpuAllocatedBytes + bytes, isCpu, bytes)
                      else a.threads[x];
             b.threads[x] == if woken == Some(x) then t.(state := Running) else t
  {
    InvValid(a);
    woken := None;
    PopTouches(a, id);
    hide Inv, TP.Valid, Pop, WakeNext, WakesHighest, AfterSuccess, Reports;
    if !recursive && id in a.threads {
      hide PostAllocSuccess, RunsOnly, NotifiedOnly;
      var c := Succeeded(a, id, isCpu, bytes);
      woken := WakeNextWakes(c, isCpu);
      SuccessWaiting(a, c, id, isCpu, bytes, WakeNext(c, isCpu).tracker, woken);
      RunsOnlyAt(c.threads, WakeNext(c, isCpu).threads, woken);
    }
  }

  // ---- departures ----

  /** Who rises when a running thread has left: the BLOCKED, or if there are none all that are rolled back. */
  ghost predicate Rises(s: State, anyBlocked: bool) {
    if anyBlocked then s.Blocked? else s.Bufn? || s.BufnThrow? || s.BufnWait?
  }

  ghost predicate AnyBlocked(ts: Threads) {
    exists id :: id in ts && ts[id].state.Blocked?
  }

  lemma {:induction false} WakeIfRouses(r: (Adaptor, bool))
    ensures var ts, us := r.0.threads, WakeIf(r).threads;
      && us.Keys == ts.Keys
      && forall id :: id in ts ==>
           us[id].state == if r.1 && Rises(ts[id].state, AnyBlocked(ts)) then Running else ts[id].state
  {
    var ts := r.0.threads;
    assert InState(ts, Blocked) != {} <==> AnyBlocked(ts) by {
      if AnyBlocked(ts) {
        var id :| id in ts && ts[id].state.Blocked?;
        assert id in InState(ts, Blocked);
      }
      if InState(ts, Blocked) != {} {
        var id := Member(InState(ts, Blocked));
      }
    }
  }

  /** The state a thread has when the threads in `gone` depart. */
  ghost function StateLeft(s: State, departs: bool, rouses: bool, anyBlocked: bool): State {
    if departs then RemoveThrow else if rouses && Rises(s, anyBlocked) then Running else s
  }

  /**
   * The threads in `gone` are erased, or told to leave if they sleep. If one of them was running, the
   * BLOCKED threads that stay run again, or if there are none all those rolled back or in BUFN.
   */
  ghost predicate Depart(a: Adaptor, b: Adaptor, gone: set<int>) {
    var rouses := exists y :: y in gone && y in a.threads && a.threads[y].state.Running?;
    var anyBlocked := exists y :: y in a.threads && y !in gone && a.threads[y].state.Blocked?;
    && b.threads.Keys <= a.threads.Keys
    && forall x :: x in a.threads ==>
         if x in gone && !IsBlocked(a.threads[x].state) then x !in b.threads
         else
           && x in b.threads
           && b.threads[x].state == StateLeft(a.threads[x].state, x in gone, rouses, anyBlocked)
           && (x in b.waiters && b.threads[x].state != a.threads[x].state ==> b.waiters[x].notified)
  }

  /** The removals, before the wake-up. */
  ghost predicate Removed(ts: Threads, us: Threads, gone: set<int>) {
    && us.Keys <= ts.Keys
    && forall x :: x in ts ==>
         if x in gone && !IsBlocked(ts[x].state) then x !in us
         else x in us && us[x].state == if x in gone then RemoveThrow else ts[x].state
  }

  lemma {:induction false} BlockedThatStay(ts: Threads, us: Threads, gone: set<int>)
    requires Removed(ts, us, gone)
    ensures AnyBlocked(us) <==> exists y :: y in ts && y !in gone && ts[y].state.Blocked?
  {
    if AnyBlocked(us) {
      var y :| y in us && us[y].state.Blocked?;
      assert y in ts && y !in gone;
    }
    if exists y :: y in ts && y !in gone && ts[y].state.Blocked? {
      var y :| y in ts && y !in gone && ts[y].state.Blocked?;
      assert y in us && us[y].state.Blocked?;
    }
  }

  lemma {:induction false} LeavesOrStays(ts: Threads, us: Threads, gone: set<int>, x: int)
    requires Removed(ts, us, gone) && x in ts
    ensures if x in gone && !IsBlocked(ts[x].state) then x !in us
            else x in us && us[x].state == if x in gone then RemoveThrow else ts[x].state
  {
  }

  lemma {:induction false} RisesKeepsRemoved(anyBlocked: bool)
    ensures !Rises(RemoveThrow, anyBlocked)
  {
  }

  /** A state changes only to one that is not blocked. */
  lemma {:induction false} StateLeftAwake()
    ensures forall s, departs, rouses, anyBlocked ::
      StateLeft(s, departs, rouses, anyBlocked) == s || !IsBlocked(StateLeft(s, departs, rouses, anyBlocked))
  {
  }

  lemma {:induction false} StatesLeft(ts: Threads, us: Threads, vs: Threads, gone: set<int>, rouses: bool)
    requires Removed(ts, us, gone) && vs.Keys == us.Keys
    requires forall x :: x in us ==>
      vs[x].state == if rouses && Rises(us[x].state, AnyBlocked(us)) then Running else us[x].state
    ensures forall x :: x in ts ==>
      if x in gone && !IsBlocked(ts[x].state) then x !in vs
      else x in vs && vs[x].state == StateLeft(ts[x].state, x in gone, rouses, AnyBlocked(us))
  {
    RisesKeepsRemoved(AnyBlocked(us));
    hide Rises, Removed, AnyBlocked, IsBlocked;
    forall x | x in ts
      ensures
        if x in gone && !IsBlocked(ts[x].state) then x !in vs
        else x in vs && vs[x].state == StateLeft(ts[x].state, x in gone, rouses, AnyBlocked(us))
    {
      LeavesOrStays(ts, us, gone, x);
    }
  }

  lemma {:induction false} RemovedThenRoused(a: Adaptor, r: (Adaptor, bool), b: Adaptor, gone: set<int>)
    requires Removed(a.threads, r.0.threads, gone) && b.threads == WakeIf(r).threads && Inv(b)
    requires r.1 <==> exists y :: y in gone && y in a.threads && a.threads[y].state.Running?
    ensures Depart(a, b, gone)
  {
    WakeIfRouses(r);
    BlockedThatStay(a.threads, r.0.threads, gone);
    StatesLeft(a.threads, r.0.threads, b.threads, gone, r.1);
    StateLeftAwake();
    forall x | x in a.threads && x in b.threads && x in b.waiters
      ensures b.waiters[x].notified || IsBlocked(b.threads[x].state)
    {
      InvAt(b, x);
    }
    hide WakeIf, Rises, Inv, AnyBlocked, IsBlocked, StateLeft;
  }

  /** The thread that leaves when `id` is deregistered from `task`, if it does. */
  ghost function Leaver(a: Adaptor, id: int, task: int): set<int> {
    if id in a.threads && Leaves(a.threads[id], task) then {id} else {}
  }

  /** The pool thread that leaves when `id` is done with its last task, if it is. */
  ghost function PoolLeaver(a: Adaptor, id: int, tasks: set<int>): set<int> {
    if id in a.threads && a.threads[id].poolTaskIds <= tasks then {id} else {}
  }

  lemma {:induction false} RemoveRemoves(a: Adaptor, id: int, task: int)
    ensures var r := RemoveAssociation(a, id, task);
      && Removed(a.threads, r.0.threads, Leaver(a, id, task))
      && (r.1 <==> exists y :: y in Leaver(a, id, task) && y in a.threads && a.threads[y].state.Running?)
  {
    RemoveShrinks(a, id, task);
    hide Trimmed, Leave, Leaves, IsBlocked, RemoveAssociation;
    if id in a.threads {
      RemoveAssociationShape(a, id, task);
      TrimmedShape(a, id, task);
      LeaveShape(Trimmed(a, id, task), id);
    } else {
      NobodyToRemove(a, id, task);
    }
  }

  lemma {:induction false} NobodyToRemove(a: Adaptor, id: int, task: int)
    requires id !in a.threads
    ensures RemoveAssociation(a, id, task) == (a, false)
  {
  }

  /** What a deregistration does to every thread. */
  lemma {:induction false} DeregisterStates(a: Adaptor, id: int, task: int)
    requires Inv(a)
    ensures Depart(a, RemoveThread(a, id, task), Leaver(a, id, task))
  {
    var r := RemoveAssociation(a, id, task);
    RemoveRemoves(a, id, task);
    InvRemove(a, id, task);
    InvWakeIf(r);
    hide Inv, RemoveAssociation, WakeIf, Removed, Depart, Leaves;
    RemovedThenRoused(a, r, RemoveThread(a, id, task), Leaver(a, id, task));
  }

  lemma {:induction false} NobodyDeparts(a: Adaptor, b: Adaptor)
    requires b.threads.Keys == a.threads.Keys
    requires forall x :: x in a.threads ==> b.threads[x].state == a.threads[x].state
    ensures Depart(a, b, {})
  {
  }

  lemma {:induction false} DepartFromTrimmed(a: Adaptor, c: Adaptor, b: Adaptor, gone: set<int>)
    requires c.threads.Keys == a.threads.Keys
    requires forall x :: x in a.threads ==> c.threads[x].state == a.threads[x].state
    requires Depart(c, b, gone)
    ensures Depart(a, b, gone)
  {
    hide Rises;
    assert (exists y :: y in gone && y in a.threads && a.threads[y].state.Running?)
      <==> exists y :: y in gone && y in c.threads && c.threads[y].state.Running?;
    assert (exists y :: y in a.threads && y !in gone && a.threads[y].state.Blocked?)
      <==> exists y :: y in c.threads && y !in gone && c.threads[y].state.Blocked?;
  }

  /** The same for a pool thread that finishes tasks. */
  lemma {:induction false} LeavePoolStates(a: Adaptor, id: int, tasks: set<int>)
    requires Inv(a)
    ensures Depart(a, PoolFinished(a, id, tasks), PoolLeaver(a, id, tasks))
  {
    if id in a.threads {
      var c := NoStall.TrimForPool(a, id, tasks);
      hide Inv, PoolFinished, RemoveThread, Depart;
      assert c.threads[id].poolTaskIds == {} <==> a.threads[id].poolTaskIds <= tasks by {
        NothingLeft(a.threads[id].poolTaskIds, tasks);
      }
      if c.threads[id].poolTaskIds == {} {
        DeregisterStates(c, id, -1);
        DepartFromTrimmed(a, c, PoolFinished(a, id, tasks), {id});
      } else {
        NobodyDeparts(a, c);
      }
    } else {
      NobodyDeparts(a, a);
    }
  }

  lemma {:induction false} NothingLeft(s: set<int>, t: set<int>)
    ensures s - t == {} <==> s <= t
  {
    if s - t == {} {
      forall x | x in s ensures x in t {
        assert x !in s - t;
      }
    }
  }

  lemma {:induction false} CutTaskRemoves(a: Adaptor, task: int)
    requires Inv(a) && task >= 0
    ensures Removed(a.threads, CutTask(a, task).0.threads, set x | x in a.threads && Departs(a, x, task))
  {
    hide Inv, CutTask, Departs, Fate;
    var us, gone := CutTask(a, task).0.threads, set x | x in a.threads && Departs(a, x, task);
    forall x | x in us ensures x in a.threads {
      CutTaskFate(a, task, x);
    }
    forall x | x in a.threads
      ensures if x in gone && !IsBlocked(a.threads[x].state) then x !in us
              else x in us && us[x].state == if x in gone then RemoveThrow else a.threads[x].state
    {
      CutTaskFate(a, task, x);
      FateState(a.threads[x], us, x, x in gone);
    }
  }

  lemma {:induction false} FateState(t: Thread, us: Threads, x: int, departs: bool)
    requires Fate(t, us, x, departs)
    ensures if departs && !IsBlocked(t.state) then x !in us
            else x in us && us[x].state == if departs then RemoveThrow else t.state
  {
  }

  /** The same for the end of a task. */
  lemma {:induction false} FinishStates(a: Adaptor, task: int)
    requires Inv(a) && task >= 0
    ensures Depart(a, TaskDone(a, task), set x | x in a.threads && Departs(a, x, task))
  {
    var c, gone := CutTask(a, task), set x | x in a.threads && Departs(a, x, task);
    assert TaskDone(a, task).threads == WakeIf(c).threads;
    TaskDoneCleansUp(a, task);
    CutTaskFlag(a, task);
    CutTaskRemoves(a, task);
    hide Inv, CutTask, TaskDone, WakeIf, Departs, Depart, Removed;
    RemovedThenRoused(a, c, TaskDone(a, task), gone);
  }
}
