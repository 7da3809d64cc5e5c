/** When the deadlock check acts and what it does, told on thread states and the threads the JVM reports. */
module Detector {
  import opened Common
  import TP = TaskPriority
  import opened ThreadState
  import opened Deadlock
  import opened AdaptorModel
  import opened Nudge
  import opened AdaptorRuns
  import opened Selection

  /** A thread that cannot go on: blocked in the adaptor, waiting for a pool, or blocked in the JVM. */
  ghost predicate Stuck(id: int, t: Thread, java: set<int>) {
    t.state.Blocked? || t.state.Bufn? || t.poolBlocked || id in java
  }

  /** And cannot be helped by a free: a thread that is only BLOCKED can, whatever the JVM says of it. */
  ghost predicate StuckForGood(id: int, t: Thread, java: set<int>) {
    t.state.Bufn? || t.poolBlocked || (id in java && !t.state.Blocked?)
  }

  ghost predicate Owns(ts: Threads, id: int, task: int) {
    id in ts && ts[id].taskId >= 0 && ts[id].taskId == task
  }

  ghost predicate Serves(ts: Threads, id: int, task: int) {
    id in ts && ts[id].taskId < 0 && task in ts[id].poolTaskIds
  }

  /** Some dedicated thread is stuck, and all pool threads that work for the task are. */
  ghost predicate StuckTask(ts: Threads, task: int, java: set<int>) {
    && (exists id :: Owns(ts, id, task) && Stuck(id, ts[id], java))
    && (forall id :: Serves(ts, id, task) ==> Stuck(id, ts[id], java))
  }

  ghost predicate HasOwner(ts: Threads, task: int) {
    exists id :: Owns(ts, id, task)
  }

  /** There are tasks with a dedicated thread, and all of them are stuck. */
  ghost predicate AllStuck(ts: Threads, java: set<int>) {
    && (exists id :: id in ts && ts[id].taskId >= 0)
    && (forall task :: HasOwner(ts, task) ==> StuckTask(ts, task, java))
  }

  ghost predicate StuckTaskForGood(ts: Threads, task: int, java: set<int>) {
    || (exists id :: Owns(ts, id, task) && StuckForGood(id, ts[id], java))
    || ((exists id :: Serves(ts, id, task)) && forall id :: Serves(ts, id, task) ==> StuckForGood(id, ts[id], java))
  }

  /** The threads the JVM was asked about; nobody is when it was not asked. */
  function Reported(java: JavaBlocked): set<int> {
    if java.Some? then java.value else {}
  }

  lemma {:induction false} StuckMeans(id: int, t: Thread, java: JavaBlocked)
    ensures BlockedOrAbove(id, t, java) <==> Stuck(id, t, Reported(java))
    ensures BufnOrAbove(id, t, java) <==> StuckForGood(id, t, Reported(java))
  {
  }

  lemma {:induction false} OwnersMean(ts: Threads, id: int, task: int)
    requires task >= 0
    ensures DedicatedTo(ts, id, task) <==> Owns(ts, id, task)
    ensures WorksFor(ts, id, task) <==> Serves(ts, id, task)
  {
  }

  lemma {:induction false} StuckTaskMeans(ts: Threads, task: int, java: JavaBlocked)
    ensures task >= 0 ==> (TaskBlocked(ts, task, java) <==> StuckTask(ts, task, Reported(java)))
    ensures TaskBufn(ts, task, java) <==> StuckTaskForGood(ts, task, Reported(java))
    ensures task in TaskIds(ts) <==> HasOwner(ts, task)
  {
    forall id
      ensures WorksFor(ts, id, task) <==> Serves(ts, id, task)
      ensures DedicatedTo(ts, id, task) <==> Owns(ts, id, task)
      ensures id in ts ==> (BlockedOrAbove(id, ts[id], java) <==> Stuck(id, ts[id], Reported(java)))
      ensures id in ts ==> (BufnOrAbove(id, ts[id], java) <==> StuckForGood(id, ts[id], Reported(java)))
    {
      if id in ts {
        StuckMeans(id, ts[id], java);
      }
    }
    if task in TaskIds(ts) {
      var id := DedicatedThread(ts, task);
      assert Owns(ts, id, task);
    }
    hide BlockedOrAbove, BufnOrAbove, Stuck, StuckForGood;
    assert Workers(ts, task) != {} <==> exists id :: Serves(ts, id, task) by {
      if Workers(ts, task) != {} {
        var id := Member(Workers(ts, task));
      }
      if exists id :: Serves(ts, id, task) {
        var id :| Serves(ts, id, task);
        assert id in Workers(ts, task);
      }
    }
  }

  /** The detector fires exactly when every task that has a dedicated thread is stuck. */
  lemma {:induction false} DeadlockedExactly(ts: Threads, java: JavaBlocked)
    ensures Deadlocked(ts, java) <==> AllStuck(ts, Reported(java))
  {
    forall task
      ensures task in TaskIds(ts) <==> HasOwner(ts, task)
      ensures HasOwner(ts, task) ==> task >= 0 && (TaskBlocked(ts, task, java) <==> StuckTask(ts, task, Reported(java)))
    {
      StuckTaskMeans(ts, task, java);
    }
    hide TaskBlocked, StuckTask;
    if TaskIds(ts) != {} {
      var task := Member(TaskIds(ts));
      var id :| Owns(ts, id, task);
    }
    if exists id :: id in ts && ts[id].taskId >= 0 {
      var id :| id in ts && ts[id].taskId >= 0;
      assert Owns(ts, id, ts[id].taskId);
      assert HasOwner(ts, ts[id].taskId);
    }
  }

  // ---- the size test ----

  /** Tasks with a dedicated thread that a free could still help. */
  ghost function Helpable(ts: Threads, java: set<int>): set<int> {
    set id | id in ts && ts[id].taskId >= 0 && !StuckTaskForGood(ts, ts[id].taskId, java) :: ts[id].taskId
  }

  /** Tasks without a dedicated thread all of whose pool threads are stuck for good. */
  ghost function Strays(ts: Threads, java: set<int>): set<int> {
    set id, task | id in ts && ts[id].taskId < 0 && task in ts[id].poolTaskIds
                   && !HasOwner(ts, task) && StuckTaskForGood(ts, task, java) :: task
  }

  lemma {:induction false} SizeTestMeans(ts: Threads, java: JavaBlocked)
    ensures AllBufnTest(ts, java) <==> |Helpable(ts, Reported(java))| == |Strays(ts, Reported(java))|
  {
    forall task
      ensures task in NotYetBufn(ts, java) <==> task in Helpable(ts, Reported(java))
      ensures task in StrayBufn(ts, java) <==> task in Strays(ts, Reported(java))
    {
      StuckTaskMeans(ts, task, java);
      PoolTasksHaveWorkers(ts, task);
      StrayMeans(ts, task, java);
      if HasOwner(ts, task) {
        var id :| Owns(ts, id, task);
      }
    }
    AllBufnTestMeaning(ts, java);
    hide AllBufnTest, NotYetBufn, StrayBufn, Helpable, Strays;
    assert NotYetBufn(ts, java) == Helpable(ts, Reported(java)) && StrayBufn(ts, java) == Strays(ts, Reported(java));
  }

  lemma {:induction false} StrayMeans(ts: Threads, task: int, java: JavaBlocked)
    ensures task in StrayBufn(ts, java) <==> task in Strays(ts, Reported(java))
  {
    StuckTaskMeans(ts, task, java);
    PoolTasksHaveWorkers(ts, task);
    hide TaskIds, PoolTasks, BufnOrAbove, StuckForGood;
    assert task in StrayBufn(ts, java)
      <==> (exists id :: Serves(ts, id, task)) && !HasOwner(ts, task) && StuckTaskForGood(ts, task, Reported(java)) by {
      forall id
        ensures WorksFor(ts, id, task) ==> (BufnOrAbove(id, ts[id], java) <==> StuckForGood(id, ts[id], Reported(java)))
      {
        if id in ts {
          StuckMeans(id, ts[id], java);
        }
      }
    }
  }

  // ---- the check ----

  ghost function InThis(ts: Threads, s: State): set<int> {
    set id | id in ts && ts[id].state == s
  }

  /** The blocked thread that is sent back, if any: the lowest; alone it gets one more try. */
  ghost predicate SendsBack(ts: Threads, us: Threads, tr: TP.Tracker, back: Option<int>) {
    var ids := InThis(ts, Blocked);
    && (back.None? <==> ids == {})
    && (back.Some? ==>
          && AllIssued(ts, tr, ids) && IsLowest(ts, tr, ids, back.value) && back.value in us
          && us[back.value] == if ids == {back.value}
                               then ts[back.value].(state := Running, isRetryAllocBeforeBufn := true)
                               else ts[back.value].(state := BufnThrow))
  }

  /** The BUFN thread that is told to split, if any: the highest. */
  ghost predicate TellsToSplit(ts: Threads, us: Threads, tr: TP.Tracker, split: Option<int>) {
    var ids := InThis(ts, Bufn);
    && (split.None? <==> ids == {})
    && (split.Some? ==>
          && AllIssued(ts, tr, ids) && IsHighest(ts, tr, ids, split.value) && split.value in us
          && us[split.value] == ts[split.value].(state := SplitThrow))
  }

  /** Nobody else changes. */
  ghost predicate Others(ts: Threads, us: Threads, back: Option<int>, split: Option<int>) {
    && us.Keys == ts.Keys
    && forall id :: id in ts && back != Some(id) && split != Some(id) ==> us[id] == ts[id]
  }

  /** What is done about a deadlock. */
  ghost predicate Breaks(
      ts: Threads, us: Threads, tr: TP.Tracker, java: set<int>, back: Option<int>, split: Option<int>) {
    && SendsBack(ts, us, tr, back)
    && (if |Helpable(ts, java)| == |Strays(ts, java)| then TellsToSplit(ts, us, tr, split) else split == None)
    && Others(ts, us, back, split)
  }

  lemma {:induction false} LowestStays(ts: Threads, tr: TP.Tracker, u: TP.Tracker, ids: set<int>, id: int)
    requires TP.Extends(tr, u) && AllIssued(ts, tr, ids)
    ensures AllIssued(ts, u, ids)
    ensures IsLowest(ts, tr, ids, id) ==> IsLowest(ts, u, ids, id)
  {
    forall x | x in ids ensures TP.Issued(u, PriorityKey(ts[x])) && PriorityIn(ts, u, x) == PriorityIn(ts, tr, x) {
      assert TP.Issued(tr, PriorityKey(ts[x]));
    }
  }

  lemma {:induction false} BreakBlockedSends(a: Adaptor) returns (back: Option<int>)
    requires TP.Valid(a.tracker)
    ensures var b := BreakBlocked(a);
      && TP.Valid(b.tracker) && TP.Extends(a.tracker, b.tracker)
      && SendsBack(a.threads, b.threads, b.tracker, back) && Others(a.threads, b.threads, back, None)
      && InThis(b.threads, Bufn) == InThis(a.threads, Bufn)
  {
    var ids := InState(a.threads, Blocked);
    assert ids == InThis(a.threads, Blocked);
    BreakBlockedNudges(a);
    assert InThis(BreakBlocked(a).threads, Bufn) == InState(BreakBlocked(a).threads, Bufn);
    assert InThis(a.threads, Bufn) == InState(a.threads, Bufn);
    back := None;
    if ids != {} {
      var id := RolledBackThreadIsLowest(a);
      back := Some(id);
      BlockedSent(a, id);
    } else {
      assert BreakBlocked(a).threads == a.threads;
    }
    hide BreakBlocked, InState, InThis, IsLowest, AllIssued, Nudged;
  }

  lemma {:induction false} BlockedSent(a: Adaptor, id: int)
    requires TP.Valid(a.tracker) && id in a.threads && a.threads[id].state.Blocked?
    requires var b := BreakBlocked(a); var ids := InState(a.threads, Blocked);
      && OnlyChanges(a.threads, b.threads, id, if ids == {id} then Running else BufnThrow)
      && b.threads[id].isRetryAllocBeforeBufn == (ids == {id} || a.threads[id].isRetryAllocBeforeBufn)
    ensures BreakBlocked(a).threads[id] ==
      if InThis(a.threads, Blocked) == {id} then a.threads[id].(state := Running, isRetryAllocBeforeBufn := true)
      else a.threads[id].(state := BufnThrow)
  {
    hide BreakBlocked;
    assert InThis(a.threads, Blocked) == InState(a.threads, Blocked);
  }

  lemma {:induction false} BreakBufnTells(a: Adaptor) returns (split: Option<int>)
    requires TP.Valid(a.tracker)
    ensures var b := BreakBufn(a);
      && TP.Valid(b.tracker) && TP.Extends(a.tracker, b.tracker)
      && TellsToSplit(a.threads, b.threads, b.tracker, split) && Others(a.threads, b.threads, None, split)
  {
    var ids := InState(a.threads, Bufn);
    assert ids == InThis(a.threads, Bufn);
    split := None;
    if ids != {} {
      var id := SplitThreadIsHighest(a);
      split := Some(id);
      BufnTold(a, id);
    } else {
      assert BreakBufn(a).threads == a.threads;
    }
    hide BreakBufn, InState, InThis, IsHighest, AllIssued;
  }

  lemma {:induction false} BufnTold(a: Adaptor, id: int)
    requires TP.Valid(a.tracker) && id in InState(a.threads, Bufn)
    requires OnlyChanges(a.threads, BreakBufn(a).threads, id, SplitThrow)
    ensures BreakBufn(a).threads[id] == a.threads[id].(state := SplitThrow)
  {
    BreakBufnNudges(a);
    assert NudgedThread(a.threads[id], BreakBufn(a).threads[id]);
    hide BreakBufn;
  }

  /**
   * What a check does: nothing unless all tasks are stuck. Then the lowest blocked thread is sent back,
   * and if the size test says so the highest BUFN thread is told to split; nobody else changes.
   */
  lemma {:induction false} CheckDoes(a: Adaptor, java: JavaBlocked) returns (back: Option<int>, split: Option<int>)
    requires TP.Valid(a.tracker)
    ensures var ts, b := a.threads, CheckForBufn(a, java); var reported := Reported(java);
      if !AllStuck(ts, reported) then b == a
      else Breaks(ts, b.threads, b.tracker, reported, back, split)
  {
    DeadlockedExactly(a.threads, java);
    SizeTestMeans(a.threads, java);
    hide Deadlocked, AllStuck, AllBufnTest, Helpable, Strays, BreakBlocked, BreakBufn, TP.Valid, TP.Extends;
    back, split := None, None;
    if Deadlocked(a.threads, java) {
      var c := BreakBlocked(a);
      back := BreakBlockedSends(a);
      if AllBufnTest(a.threads, java) {
        split := BreakBufnTells(c);
        BothBroken(a.threads, c.threads, BreakBufn(c).threads, c.tracker, BreakBufn(c).tracker, back, split);
      }
    }
  }

  lemma {:induction false} BothBroken(ts: Threads, us: Threads, vs: Threads, tr: TP.Tracker, u: TP.Tracker,
                                      back: Option<int>, split: Option<int>)
    requires TP.Extends(tr, u)
    requires SendsBack(ts, us, tr, back) && Others(ts, us, back, None) && InThis(us, Bufn) == InThis(ts, Bufn)
    requires TellsToSplit(us, vs, u, split) && Others(us, vs, None, split)
    ensures SendsBack(ts, vs, u, back) && TellsToSplit(ts, vs, u, split) && Others(ts, vs, back, split)
  {
    var blocked, bufn := InThis(ts, Blocked), InThis(ts, Bufn);
    forall id | id in bufn ensures back != Some(id) && us[id] == ts[id] {
    }
    if back.Some? {
      LowestStays(ts, tr, u, blocked, back.value);
      assert back.value in blocked && back.value !in bufn;
    }
    if split.Some? {
      assert split.value in bufn;
    }
    hide InThis, TP.Extends, Less, PriorityKey;
  }

  lemma {:induction false} UncountedFailureStep(
      a: Adaptor, id: int, isCpu: bool, isOom: bool, blocking: bool, recursive: bool)
    requires TP.Valid(a.tracker) && Enabled(a, Fail(id, isCpu, isOom, blocking, recursive))
    requires recursive || id !in a.threads
    ensures Pop(a, id).threads == a.threads && Pop(a, id).tracker == a.tracker
    ensures Step(a, Fail(id, isCpu, isOom, blocking, recursive)) == (CheckForBufn(Pop(a, id), None), Done(false))
  {
    hide CheckForBufn, TP.Valid, Reports, FramesOf, OrphansOf;
  }

  /** A failure inside another allocation, or unregistered, only checks for a deadlock, and is not tried again. */
  lemma {:induction false} UncountedFailureChecks(
      a: Adaptor, id: int, isCpu: bool, isOom: bool, blocking: bool, recursive: bool)
    returns (back: Option<int>, split: Option<int>)
    requires Inv(a) && Enabled(a, Fail(id, isCpu, isOom, blocking, recursive)) && (recursive || id !in a.threads)
    ensures TP.Valid(a.tracker)
    ensures var r := Step(a, Fail(id, isCpu, isOom, blocking, recursive));
      && r.1 == Done(false)
      && if !AllStuck(a.threads, {}) then r.0 == Pop(a, id)
         else Breaks(a.threads, r.0.threads, r.0.tracker, {}, back, split)
  {
    InvValid(a);
    UncountedFailureStep(a, id, isCpu, isOom, blocking, recursive);
    assert Reported(None) == {};
    hide *;
    back, split := CheckDoes(Pop(a, id), None);
  }

  // ---- the watchdog ----

  lemma {:induction false} EveryoneStuck(ts: Threads, java: set<int>)
    requires exists id :: id in ts && ts[id].taskId >= 0
    requires forall id :: id in ts ==> Stuck(id, ts[id], java)
    ensures AllStuck(ts, java)
  {
    forall task | HasOwner(ts, task) ensures StuckTask(ts, task, java) {
      var id :| Owns(ts, id, task);
    }
  }

  /**
   * If there is a dedicated thread and every thread is stuck, the watchdog takes the lowest blocked
   * thread out of BLOCKED, if one is blocked.
   */
  lemma {:induction false} WatchdogSendsBack(a: Adaptor, java: set<int>) returns (back: int)
    requires Inv(a) && (exists id :: id in a.threads && a.threads[id].taskId >= 0)
    requires forall id :: id in a.threads ==> Stuck(id, a.threads[id], java)
    requires exists id :: id in a.threads && a.threads[id].state.Blocked?
    ensures TP.Valid(a.tracker)
    ensures var b := Step(a, Watchdog(java)).0; SendsBack(a.threads, b.threads, b.tracker, Some(back))
  {
    InvValid(a);
    assert Step(a, Watchdog(java)).0 == CheckForBufn(a, Some(java)) && Reported(Some(java)) == java;
    EveryoneStuck(a.threads, java);
    hide *;
    var o, _ := CheckDoes(a, Some(java));
    BlockedIsSent(a.threads, CheckForBufn(a, Some(java)).threads, CheckForBufn(a, Some(java)).tracker, o);
    back := o.value;
  }

  lemma {:induction false} BlockedIsSent(ts: Threads, us: Threads, tr: TP.Tracker, back: Option<int>)
    requires SendsBack(ts, us, tr, back) && exists id :: id in ts && ts[id].state.Blocked?
    ensures back.Some?
  {
    var some :| some in ts && ts[some].state.Blocked?;
    assert some in InThis(ts, Blocked);
  }

  /** If no dedicated thread of some task is stuck, or not all who work for it, the watchdog does nothing. */
  lemma {:induction false} WatchdogLeavesAlone(a: Adaptor, java: set<int>, task: int)
    requires Inv(a) && HasOwner(a.threads, task)
    requires (forall id :: Owns(a.threads, id, task) ==> !Stuck(id, a.threads[id], java))
             || exists id :: Serves(a.threads, id, task) && !Stuck(id, a.threads[id], java)
    ensures TP.Valid(a.tracker) && Step(a, Watchdog(java)) == (a, Done(true))
  {
    InvValid(a);
    assert !StuckTask(a.threads, task, java);
    hide Inv, CheckForBufn, TP.Valid, Helpable, Strays, StuckTask;
    var _, _ := CheckDoes(a, Some(java));
  }

  /** A blocked thread can still be helped by a free, also when the JVM reports it. */
  lemma {:induction false} BlockedIsHelpable(a: Adaptor, java: set<int>, task: int, id: int)
    requires Owns(a.threads, id, task) && (forall x :: Owns(a.threads, x, task) ==> x == id)
    requires a.threads[id].state.Blocked? && !a.threads[id].poolBlocked
    requires forall x :: !Serves(a.threads, x, task)
    ensures !TaskBufn(a.threads, task, Some(java)) && task in Helpable(a.threads, java)
  {
    StuckTaskMeans(a.threads, task, Some(java));
    assert !StuckTaskForGood(a.threads, task, java);
  }
}
