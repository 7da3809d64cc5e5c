/** `spark_resource_adaptor_impl` as a class; every method is one critical section under its mutex. */
module SparkResourceAdaptorImpl {
  import opened Common
  import TP = TaskPriority
  import opened ThreadState
  import opened Deadlock
  import opened AdaptorModel
  import Nudge

  // ---- what a scan over `threads` in id order knows about the tracker ----

  /** The ids of `ids` outside `remaining` have their priority, the others are still to be asked for. */
  ghost predicate Scanned(ts: Threads, tr0: TP.Tracker, tr: TP.Tracker, ids: set<int>, remaining: set<int>) {
    && ids <= ts.Keys
    && TP.Valid(tr)
    && AllIssued(ts, tr, ids - remaining)
    && IssueAll(ts, tr, ids * remaining) == IssueAll(ts, tr0, ids)
  }

  /** The best so far among `ids`, with the priority it was compared with. */
  ghost predicate BestSoFar(ts: Threads, tr: TP.Tracker, ids: set<int>, best: Option<Priority>, highest: bool) {
    && AllIssued(ts, tr, ids)
    && (best.None? <==> ids == {})
    && (best.Some? ==>
          && (if highest then IsHighest(ts, tr, ids, best.value.thread) else IsLowest(ts, tr, ids, best.value.thread))
          && best.value == PriorityIn(ts, tr, best.value.thread))
  }

  /** A scan in progress: what is known of the tracker, and the best thread seen. */
  ghost predicate Scanning(ts: Threads, tr0: TP.Tracker, tr: TP.Tracker, ids: set<int>, remaining: set<int>,
                           best: Option<Priority>, highest: bool) {
    && Scanned(ts, tr0, tr, ids, remaining)
    && BestSoFar(ts, tr, ids - remaining, best, highest)
  }

  lemma {:induction false} ScanStart(ts: Threads, tr: TP.Tracker, ids: set<int>, highest: bool)
    requires TP.Valid(tr) && ids <= ts.Keys
    ensures Scanning(ts, tr, tr, ids, ts.Keys, None, highest)
  {
    assert ids * ts.Keys == ids;
    assert ids - ts.Keys == {};
  }

  /** The next thread is not a candidate. */
  lemma {:induction false} ScanMiss(ts: Threads, tr0: TP.Tracker, tr: TP.Tracker, ids: set<int>, remaining: set<int>,
                 best: Option<Priority>, highest: bool, id: int)
    requires remaining <= ts.Keys && Scanning(ts, tr0, tr, ids, remaining, best, highest)
    requires IsMin(remaining, id) && id !in ids
    ensures Scanning(ts, tr0, tr, ids, remaining - {id}, best, highest)
    ensures |ids - (remaining - {id})| == |ids - remaining|
  {
    assert ids * remaining == ids * (remaining - {id});
    assert ids - (remaining - {id}) == ids - remaining;
  }

  lemma {:induction false} ScannedStep(ts: Threads, tr0: TP.Tracker, tr: TP.Tracker, ids: set<int>,
                                       remaining: set<int>, id: int)
    requires remaining <= ts.Keys && Scanned(ts, tr0, tr, ids, remaining)
    requires IsMin(remaining, id) && id in ids
    ensures Scanned(ts, tr0, TP.Issue(tr, PriorityKey(ts[id])), ids, remaining - {id})
  {
    TP.IssueIsLowest(tr, PriorityKey(ts[id]));
    MinUnique(ids * remaining, id);
    assert (ids * remaining) - {id} == ids * (remaining - {id});
    assert ids - (remaining - {id}) == (ids - remaining) + {id};
  }

  lemma {:induction false} BestStep(ts: Threads, tr: TP.Tracker, u: TP.Tracker, seen: set<int>,
                                    best: Option<Priority>, highest: bool, id: int, current: Priority)
    requires BestSoFar(ts, tr, seen, best, highest) && TP.Extends(tr, u)
    requires id in ts && id !in seen && TP.Issued(u, PriorityKey(ts[id])) && current == PriorityIn(ts, u, id)
    ensures var better := best.None? || (if highest then Less(best.value, current) else Less(current, best.value));
      BestSoFar(ts, u, seen + {id}, if better then Some(current) else best, highest)
  {
  }

  /** The next thread is a candidate: its priority is asked for and compared. */
  lemma {:induction false} ScanHit(ts: Threads, tr0: TP.Tracker, tr: TP.Tracker, ids: set<int>, remaining: set<int>,
                best: Option<Priority>, highest: bool, id: int, u: TP.Tracker, current: Priority)
    requires remaining <= ts.Keys && Scanning(ts, tr0, tr, ids, remaining, best, highest)
    requires IsMin(remaining, id) && id in ids
    requires u == TP.Issue(tr, PriorityKey(ts[id])) && current == PriorityIn(ts, u, id)
    ensures var better := best.None? || (if highest then Less(best.value, current) else Less(current, best.value));
      Scanning(ts, tr0, u, ids, remaining - {id}, if better then Some(current) else best, highest)
    ensures |ids - (remaining - {id})| == |ids - remaining| + 1
  {
    TP.IssueIsLowest(tr, PriorityKey(ts[id]));
    assert ids - (remaining - {id}) == (ids - remaining) + {id};
    ScannedStep(ts, tr0, tr, ids, remaining, id);
    BestStep(ts, tr, u, ids - remaining, best, highest, id, current);
  }

  lemma {:induction false} ScanEnd(ts: Threads, tr0: TP.Tracker, tr: TP.Tracker, ids: set<int>,
                                   best: Option<Priority>, highest: bool)
    requires Scanning(ts, tr0, tr, ids, {}, best, highest)
    ensures TP.Valid(tr) && AllIssued(ts, tr, ids) && tr == IssueAll(ts, tr0, ids)
    ensures ids - {} == ids && (best.None? <==> ids == {})
    ensures best.Some? ==> best.value.thread in ids && best.value.thread in ts
    ensures best.Some? ==> best.value.thread == if highest then Highest(ts, tr, ids) else Lowest(ts, tr, ids)
  {
    assert ids * {} == {};
    assert ids - {} == ids;
    if best.Some? {
      var id := best.value.thread;
      ExtremesUnique(ts, tr, ids, id, if highest then Highest(ts, tr, ids) else Lowest(ts, tr, ids));
    }
  }

  // ---- what the counting loops know ----

  /** `counts` holds, for every task with a worker among `ts`, how many there are. */
  ghost predicate CountsWorkers(counts: map<int, int>, ts: Threads) {
    forall task :: (task in counts <==> Workers(ts, task) != {})
                && (task in counts ==> counts[task] == |Workers(ts, task)|)
  }

  ghost predicate CountsBufnWorkers(counts: map<int, int>, ts: Threads, java: JavaBlocked) {
    forall task :: (task in counts <==> BufnWorkers(ts, task, java) != {})
                && (task in counts ==> counts[task] == |BufnWorkers(ts, task, java)|)
  }

  /** One more for each of `tasks`. */
  ghost predicate Incremented(before: map<int, int>, tasks: set<int>, after: map<int, int>) {
    && after.Keys == before.Keys + tasks
    && forall task :: task in after ==>
         after[task] == (if task in before then before[task] else 0) + (if task in tasks then 1 else 0)
  }

  method CountEach(before: map<int, int>, tasks: set<int>) returns (after: map<int, int>)
    ensures Incremented(before, tasks, after)
  {
    after := before;
    var todo := tasks;
    while todo != {}
      invariant todo <= tasks
      invariant Incremented(before, tasks - todo, after)
    {
      var task := MinOf(todo);
      if task in after {
        after := after[task := after[task] + 1];
      } else {
        after := after[task := 1];
      }
      todo := todo - {task};
      assert tasks - todo == (tasks - (todo + {task})) + {task};
    }
  }

  lemma {:induction false} WorkersStep(seen: Threads, id: int, t: Thread, java: JavaBlocked, task: int)
    requires id !in seen
    ensures Workers(seen[id := t], task)
         == Workers(seen, task) + (if IsPool(t) && task in t.poolTaskIds then {id} else {})
    ensures BufnWorkers(seen[id := t], task, java)
         == BufnWorkers(seen, task, java)
            + (if IsPool(t) && task in t.poolTaskIds && BufnOrAbove(id, t, java) then {id} else {})
    ensures id !in Workers(seen, task) && id !in BufnWorkers(seen, task, java)
  {
  }

  /** Adding a pool thread to those already counted. */
  lemma {:induction false} CountStep(seen: Threads, id: int, t: Thread, counts: map<int, int>, counts': map<int, int>)
    requires id !in seen && CountsWorkers(counts, seen)
    requires if IsPool(t) then Incremented(counts, t.poolTaskIds, counts') else counts' == counts
    ensures CountsWorkers(counts', seen[id := t])
  {
    forall task
      ensures task in counts' <==> Workers(seen[id := t], task) != {}
      ensures task in counts' ==> counts'[task] == |Workers(seen[id := t], task)|
    {
      WorkersStep(seen, id, t, None, task);
    }
  }

  lemma {:induction false} CountBufnStep(seen: Threads, id: int, t: Thread, java: JavaBlocked,
                                         counts: map<int, int>, counts': map<int, int>)
    requires id !in seen && CountsBufnWorkers(counts, seen, java)
    requires if IsPool(t) && BufnOrAbove(id, t, java) then Incremented(counts, t.poolTaskIds, counts')
             else counts' == counts
    ensures CountsBufnWorkers(counts', seen[id := t], java)
  {
    forall task
      ensures task in counts' <==> BufnWorkers(seen[id := t], task, java) != {}
      ensures task in counts' ==> counts'[task] == |BufnWorkers(seen[id := t], task, java)|
    {
      WorkersStep(seen, id, t, java, task);
    }
  }

  /** Tasks with a dedicated thread that is blocked in some way: the first pass. */
  ghost function DedicatedBlocked(ts: Threads, java: JavaBlocked): set<int> {
    set id | id in ts && !IsPool(ts[id]) && BlockedOrAbove(id, ts[id], java) :: ts[id].taskId
  }

  /** Tasks some pool thread is still active for: what the second pass takes out. */
  ghost function ActivePoolTasks(ts: Threads, java: JavaBlocked): set<int> {
    set id, task | id in ts && IsPool(ts[id]) && task in ts[id].poolTaskIds && !BlockedOrAbove(id, ts[id], java) :: task
  }

  lemma {:induction false} TaskSetsStep(seen: Threads, id: int, t: Thread, java: JavaBlocked)
    requires id !in seen
    ensures TaskIds(seen[id := t]) == TaskIds(seen) + (if IsPool(t) then {} else {t.taskId})
    ensures DedicatedBufn(seen[id := t], java)
         == DedicatedBufn(seen, java) + (if !IsPool(t) && BufnOrAbove(id, t, java) then {t.taskId} else {})
    ensures DedicatedBlocked(seen[id := t], java)
         == DedicatedBlocked(seen, java) + (if !IsPool(t) && BlockedOrAbove(id, t, java) then {t.taskId} else {})
  {
    assert forall x :: x in seen ==> seen[id := t][x] == seen[x];
    assert seen[id := t][id] == t;
  }

  lemma {:induction false} ActiveStep(seen: Threads, id: int, t: Thread, java: JavaBlocked)
    requires id !in seen
    ensures ActivePoolTasks(seen[id := t], java)
         == ActivePoolTasks(seen, java) + (if IsPool(t) && !BlockedOrAbove(id, t, java) then t.poolTaskIds else {})
  {
    var all := seen[id := t];
    forall task
      ensures task in ActivePoolTasks(all, java)
        <==> (task in ActivePoolTasks(seen, java)
              || (IsPool(t) && !BlockedOrAbove(id, t, java) && task in t.poolTaskIds))
    {
      assert forall x :: x in seen ==> all[x] == seen[x];
      if IsPool(t) && !BlockedOrAbove(id, t, java) && task in t.poolTaskIds {
        assert all[id] == t;
      }
      if task in ActivePoolTasks(seen, java) {
        assert exists x ::
          x in seen && IsPool(seen[x]) && task in seen[x].poolTaskIds && !BlockedOrAbove(x, seen[x], java);
        assert exists x :: x in all && IsPool(all[x]) && task in all[x].poolTaskIds && !BlockedOrAbove(x, all[x], java);
      }
    }
  }

  /** What the second pass knows after the threads `seen`. */
  ghost predicate PoolsScanned(seen: Threads, java: JavaBlocked, counts: map<int, int>, bufn: map<int, int>,
                               dedicated: set<int>, blocked: set<int>) {
    && CountsWorkers(counts, seen)
    && CountsBufnWorkers(bufn, seen, java)
    && blocked == dedicated - ActivePoolTasks(seen, java)
  }

  lemma {:induction false} PoolsScannedStep(seen: Threads, id: int, t: Thread, java: JavaBlocked, dedicated: set<int>,
                         counts: map<int, int>, bufn: map<int, int>, blocked: set<int>,
                         counts': map<int, int>, bufn': map<int, int>, blocked': set<int>)
    requires id !in seen && PoolsScanned(seen, java, counts, bufn, dedicated, blocked)
    requires if IsPool(t) then Incremented(counts, t.poolTaskIds, counts') else counts' == counts
    requires if IsPool(t) && BufnOrAbove(id, t, java) then Incremented(bufn, t.poolTaskIds, bufn') else bufn' == bufn
    requires blocked' == if IsPool(t) && !BlockedOrAbove(id, t, java) then blocked - t.poolTaskIds else blocked
    ensures PoolsScanned(seen[id := t], java, counts', bufn', dedicated, blocked')
  {
    ActiveStep(seen, id, t, java);
    CountStep(seen, id, t, counts, counts');
    CountBufnStep(seen, id, t, java, bufn, bufn');
  }

  /** Comparing the sizes of all tasks and blocked tasks decides the deadlock: one contains the other. */
  lemma {:induction false} DeadlockBySize(ts: Threads, java: JavaBlocked, blocked: set<int>)
    requires blocked == DedicatedBlocked(ts, java) - ActivePoolTasks(ts, java)
    ensures Deadlocked(ts, java) <==> |TaskIds(ts)| == |blocked| && TaskIds(ts) != {}
  {
    assert blocked <= TaskIds(ts);
    SubsetSize(blocked, TaskIds(ts));
    forall task | task in TaskIds(ts) ensures task in blocked <==> TaskBlocked(ts, task, java) {
      assert task in DedicatedBlocked(ts, java)
        <==> exists id :: DedicatedTo(ts, id, task) && BlockedOrAbove(id, ts[id], java);
      assert task in ActivePoolTasks(ts, java)
        <==> exists id :: WorksFor(ts, id, task) && !BlockedOrAbove(id, ts[id], java);
    }
  }

  lemma {:induction false} BufnIdsFromCounts(ts: Threads, java: JavaBlocked, bufnCount: map<int, int>,
                                             count: map<int, int>)
    requires CountsWorkers(count, ts) && CountsBufnWorkers(bufnCount, ts, java)
    ensures BufnIds(ts, java) == DedicatedBufn(ts, java)
              + (set task | task in bufnCount.Keys && task in count && count[task] <= bufnCount[task])
  {
    var counted := set task | task in bufnCount.Keys && task in count && count[task] <= bufnCount[task];
    forall task ensures task in BufnIds(ts, java) <==> task in DedicatedBufn(ts, java) + counted {
      PoolTasksHaveWorkers(ts, task);
      if BufnWorkers(ts, task, java) != {} {
        var id := Member(BufnWorkers(ts, task, java));
        assert id in Workers(ts, task);
      }
    }
  }

  /** The blocking loop came round again because breaking a deadlock told this very thread to split. */
  ghost predicate AfterBufnWait(a: Adaptor, b: Adaptor, id: int) {
    && TP.Valid(a.tracker) && id in a.threads && a.threads[id].state.BufnWait?
    && b == CheckForBufn(With(a, id, a.threads[id].(state := Bufn)), None)
    && id in b.threads && b.threads[id].state.SplitThrow?
  }

  lemma {:induction false} RouseNobody(a: Adaptor)
    ensures Rouse(a, {}) == a
  {
    assert Rouse(a, {}).threads == a.threads && Rouse(a, {}).waiters == a.waiters;
  }

  lemma {:induction false} RouseKeeps(a: Adaptor, ids: set<int>)
    ensures Rouse(a, ids).threads.Keys == a.threads.Keys
  {
  }

  lemma {:induction false} RouseOneMore(a: Adaptor, ids: set<int>, id: int)
    requires id in a.threads && id !in ids
    ensures Rouse(a, ids + {id}) == Move(Rouse(a, ids), id, Running)
  {
    var b, c := Rouse(a, ids + {id}), Move(Rouse(a, ids), id, Running);
    assert b.threads == c.threads && b.waiters == c.waiters;
  }

  class SparkResourceAdaptor {
    var threads: map<int, Thread>
    var taskToThreads: map<int, set<int>>
    var taskToMetrics: map<int, Metrics>
    var gpuMemoryAllocatedBytes: int
    const tracker: TP.TaskPriorityTracker
    ghost var waiters: map<int, Waiter>
    ghost var inFlight: map<int, seq<Frame>>
    ghost var orphaned: map<int, seq<Frame>>

    ghost function View(): Adaptor
      reads this, tracker
    {
      Adaptor(threads, taskToThreads, taskToMetrics, gpuMemoryAllocatedBytes, tracker.View(),
              waiters, inFlight, orphaned)
    }

    ghost predicate Valid()
      reads this, tracker
    {
      TP.Valid(tracker.View()) && -1 !in threads
    }

    constructor ()
      ensures View() == EMPTY && Valid()
    {
      threads, taskToThreads, taskToMetrics := map[], map[], map[];
      gpuMemoryAllocatedBytes := 0;
      tracker := new TP.TaskPriorityTracker();
      waiters, inFlight, orphaned := map[], map[], map[];
    }

    // ---- helpers ----

    method NotifyAll(id: int)
      modifies this`waiters
      ensures waiters == Notify(old(waiters), id)
    {
      if id in waiters {
        waiters := waiters[id := waiters[id].(notified := true)];
      }
    }

    method Transition(id: int, s: State)
      requires id in threads
      modifies this`threads
      ensures threads == old(threads)[id := old(threads)[id].(state := s)]
    {
      threads := threads[id := threads[id].(state := s)];
    }

    /** `full_thread_state::priority`. */
    method PriorityOfThread(id: int) returns (p: Priority)
      requires id in threads
      modifies tracker
      ensures tracker.View() == TP.Issue(old(tracker.View()), PriorityKey(threads[id]))
      ensures p == PriorityIn(threads, tracker.View(), id)
    {
      var t := threads[id];
      var key := t.taskId;
      if t.taskId < 0 && !t.isForShuffle {
        key := if t.poolTaskIds == {} then -1 else MinOf(t.poolTaskIds);
      }
      var task := tracker.GetTaskPriority(key);
      p := Priority(task, id);
    }

    method SaveMetrics(tasks: set<int>, m: Metrics)
      modifies this`taskToMetrics
      ensures taskToMetrics == AddToEach(old(taskToMetrics), tasks, m)
    {
      var todo := tasks;
      while todo != {}
        invariant todo <= tasks
        invariant taskToMetrics == AddToEach(old(taskToMetrics), tasks - todo, m)
      {
        var task := MinOf(todo);
        ghost var saved := tasks - todo;
        taskToMetrics := taskToMetrics[task := AddMetrics(Lookup(taskToMetrics, task), m)];
        todo := todo - {task};
        assert tasks - todo == saved + {task};
      }
      assert tasks - {} == tasks;
    }

    method CheckpointMetrics(id: int)
      requires id in threads
      modifies this`threads, this`taskToMetrics
      ensures View() == AdaptorModel.CheckpointMetrics(old(View()), id)
    {
      var t := threads[id];
      if t.taskId < 0 {
        SaveMetrics(t.poolTaskIds, t.metrics);
      } else {
        SaveMetrics({t.taskId}, t.metrics);
      }
      threads := threads[id := t.(metrics := NO_METRICS)];
    }

    // ---- registration ----

    /** The record goes; allocations the thread has open are from then on from before its registration. */
    method EraseThread(id: int)
      modifies this`threads, this`inFlight, this`orphaned
      ensures View() == Erase(old(View()), id) && threads == old(threads) - {id}
    {
      orphaned := orphaned[id := OpenFrames(View(), id)];
      inFlight := inFlight - {id};
      threads := threads - {id};
    }

    /** The end of `remove_thread_association`: a sleeping thread is told to leave, any other one is gone. */
    method SendAway(id: int) returns (wasRunning: bool)
      requires id in threads
      modifies this
      ensures (View(), wasRunning) ==
        if IsBlocked(old(threads[id].state)) then (Move(old(View()), id, RemoveThrow), false)
        else (Erase(old(View()), id), old(threads[id].state).Running?)
    {
      hide Erase;
      match threads[id].state {
        case Blocked | Bufn =>
          wasRunning := false;
          Transition(id, RemoveThrow);
          NotifyAll(id);
        case _ =>
          wasRunning := threads[id].state == Running;
          EraseThread(id);
      }
    }

    method RemoveThreadAssociation(id: int, removeTaskId: int) returns (wasRunning: bool)
      modifies this
      ensures (View(), wasRunning) == RemoveAssociation(old(View()), id, removeTaskId)
    {
      hide AddToEach, Lookup, Erase, Move, IsBlocked;
      wasRunning := false;
      if id !in threads {
        return;
      }
      CheckpointMetrics(id);
      var t := threads[id];
      var shouldBeRemoved := false;
      if removeTaskId < 0 {
        shouldBeRemoved := true;
      } else if t.taskId >= 0 {
        shouldBeRemoved := t.taskId == removeTaskId;
      } else {
        t := t.(poolTaskIds := t.poolTaskIds - {removeTaskId});
        threads := threads[id := t];
        shouldBeRemoved := t.poolTaskIds == {};
      }
      if shouldBeRemoved {
        if removeTaskId >= 0 && removeTaskId in taskToThreads {
          taskToThreads := taskToThreads[removeTaskId := taskToThreads[removeTaskId] - {id}];
        }
        wasRunning := SendAway(id);
      }
    }

    /** A transition with the notification that goes with it. */
    method MoveThread(id: int, s: State)
      requires id in threads
      modifies this`threads, this`waiters
      ensures View() == Move(old(View()), id, s)
    {
      Transition(id, s);
      NotifyAll(id);
    }

    /** The loops over `threads` that set every thread in a given state running. */
    method RouseAll(ids: set<int>)
      requires ids <= threads.Keys
      modifies this`threads, this`waiters
      ensures View() == Rouse(old(View()), ids)
    {
      var todo := ids;
      RouseNobody(View());
      assert ids - todo == {};
      while todo != {}
        invariant todo <= ids && View() == Rouse(old(View()), ids - todo)
      {
        hide Rouse, Move;
        var id := MinOf(todo);
        RouseKeeps(old(View()), ids - todo);
        RouseOneMore(old(View()), ids - todo, id);
        assert ids - (todo - {id}) == ids - todo + {id};
        MoveThread(id, Running);
        todo := todo - {id};
      }
    }

    method WakeUpThreadsAfterTaskFinishes()
      modifies this`threads, this`waiters
      ensures View() == WakeAfterTaskFinishes(old(View()))
    {
      hide Rouse;
      var blocked := set id | id in threads && threads[id].state == Blocked;
      assert blocked == InState(threads, Blocked);
      if blocked != {} {
        RouseAll(blocked);
      } else {
        var bufn := set id | id in threads &&
          (threads[id].state == Bufn || threads[id].state == BufnThrow || threads[id].state == BufnWait);
        assert bufn == AnyBufn(threads);
        RouseAll(bufn);
      }
    }

    method StartDedicatedTaskThread(id: int, taskId: int) returns (r: Outcome)
      requires taskId >= 0
      modifies this
      ensures (View(), r) == StartDedicated(old(View()), id, taskId)
    {
      if id in threads && threads[id].taskId >= 0 && threads[id].taskId != taskId {
        var _ := RemoveThreadAssociation(id, threads[id].taskId);
      }
      if id in threads {
        if threads[id].state == RemoveThrow {
          return Threw(InvalidArgument);
        }
        if threads[id].taskId != taskId {
          return Threw(InvalidArgument);
        }
      } else {
        threads := threads[id := NewThread(taskId, false)];
      }
      if taskId in taskToThreads {
        taskToThreads := taskToThreads[taskId := taskToThreads[taskId] + {id}];
      } else {
        taskToThreads := taskToThreads[taskId := {} + {id}];
      }
      r := Done(true);
    }

    method PoolThreadWorkingOnTasks(isForShuffle: bool, id: int, taskIds: set<int>) returns (r: Outcome)
      modifies this
      ensures (View(), r) == PoolWorking(old(View()), isForShuffle, id, taskIds)
    {
      if id !in threads {
        threads := threads[id := NewThread(-1, isForShuffle)];
      } else if threads[id].taskId != -1 {
        return Threw(InvalidArgument);
      } else if threads[id].state == RemoveThrow {
        return Threw(InvalidArgument);
      } else if threads[id].isForShuffle != isForShuffle {
        return Threw(InvalidArgument);
      }
      CheckpointMetrics(id);
      threads := threads[id := threads[id].(poolTaskIds := threads[id].poolTaskIds + taskIds)];
      r := Done(true);
    }

    method PoolThreadFinishedForTasks(id: int, taskIds: set<int>)
      modifies this
      ensures View() == PoolFinished(old(View()), id, taskIds)
    {
      if id in threads {
        CheckpointMetrics(id);
        threads := threads[id := threads[id].(poolTaskIds := threads[id].poolTaskIds - taskIds)];
        if threads[id].poolTaskIds == {} {
          var wasRunning := RemoveThreadAssociation(id, -1);
          if wasRunning {
            WakeUpThreadsAfterTaskFinishes();
          }
        }
      }
    }

    method RemoveThread(id: int, taskId: int)
      modifies this
      ensures View() == AdaptorModel.RemoveThread(old(View()), id, taskId)
    {
      var wasRunning := RemoveThreadAssociation(id, taskId);
      if wasRunning {
        WakeUpThreadsAfterTaskFinishes();
      }
    }

    method TaskDone(taskId: int)
      modifies this
      ensures View() == AdaptorModel.TaskDone(old(View()), taskId)
    {
      var runChecks := false;
      if taskId in taskToThreads {
        var todo := taskToThreads[taskId];
        while todo != {}
          invariant var goal := RemoveAll(old(View()), old(taskToThreads)[taskId], taskId);
            var rest := RemoveAll(View(), todo, taskId);
            goal == (rest.0, runChecks || rest.1)
        {
          var id := MinOf(todo);
          var wasRunning := RemoveThreadAssociation(id, taskId);
          runChecks := wasRunning || runChecks;
          todo := todo - {id};
        }
      }
      ghost var mid, midChecks := View(), runChecks;
      var ids := threads.Keys;
      while ids != {}
        invariant var goal := DropPoolTaskAll(mid, mid.threads.Keys, taskId);
          var rest := DropPoolTaskAll(View(), ids, taskId);
          rest.0 == goal.0 && (midChecks || goal.1) == (runChecks || rest.1)
      {
        var id := MinOf(ids);
        if id in threads && taskId in threads[id].poolTaskIds {
          threads := threads[id := threads[id].(poolTaskIds := threads[id].poolTaskIds - {taskId})];
          if threads[id].poolTaskIds == {} {
            var wasRunning := RemoveThreadAssociation(id, taskId);
            runChecks := wasRunning || runChecks;
          }
        }
        ids := ids - {id};
      }
      if runChecks {
        WakeUpThreadsAfterTaskFinishes();
      }
      taskToThreads := taskToThreads - {taskId};
    }

    method WaitingOnPoolStatusChanged(id: int, poolBlocked: bool) returns (r: Outcome)
      modifies this`threads
      ensures (View(), r) == PoolStatus(old(View()), id, poolBlocked)
    {
      var taskId := if id in threads then threads[id].taskId else -1;
      if taskId < 0 {
        return Threw(InvalidArgument);
      }
      threads := threads[id := threads[id].(poolBlocked := poolBlocked)];
      r := Done(true);
    }

    method SpillRangeChanged(id: int, spilling: bool)
      modifies this`threads
      ensures View() == SpillRange(old(View()), id, spilling)
    {
      if id in threads {
        threads := threads[id := threads[id].(isInSpilling := spilling)];
      }
    }

    method RemoveTaskMetrics(taskId: int)
      modifies this`taskToMetrics
      ensures View() == AdaptorModel.RemoveTaskMetrics(old(View()), taskId)
    {
      taskToMetrics := taskToMetrics - {taskId};
    }

    method GetMaxGpuTaskMemory(taskId: int) returns (r: int)
      ensures r == ReportedFootprint(View(), taskId)
    {
      r := 0;
      if taskId in taskToThreads {
        var todo := taskToThreads[taskId];
        while todo != {}
          invariant r + SumFootprints(threads, todo) == SumFootprints(threads, taskToThreads[taskId])
        {
          var id := MinOf(todo);
          if id in threads {
            r := r + threads[id].metrics.maxFootprint;
          }
          todo := todo - {id};
        }
      }
      if taskId in taskToMetrics {
        r := r + taskToMetrics[taskId].maxFootprint;
      }
    }

    // ---- waking and breaking deadlocks ----

    /** Wakes the blocked thread of this kind that has the highest priority once all have one. */
    method WakeNextHighestPriorityBlocked(isForCpu: bool)
      requires Valid()
      modifies this`threads, this`waiters, tracker
      ensures Valid() && View() == WakeNext(old(View()), isForCpu)
    {
      ghost var ids := BlockedFor(threads, isForCpu);
      var toWake: Option<Priority> := None;
      var remaining := threads.Keys;
      ScanStart(threads, tracker.View(), ids, true);
      while remaining != {}
        invariant remaining <= threads.Keys
        invariant threads == old(threads) && waiters == old(waiters)
        invariant Scanning(threads, old(tracker.View()), tracker.View(), ids, remaining, toWake, true)
      {
        var id := MinOf(remaining);
        ghost var tr, best := tracker.View(), toWake;
        if threads[id].state == Blocked && isForCpu == threads[id].isCpuAlloc {
          var current := PriorityOfThread(id);
          ScanHit(threads, old(tracker.View()), tr, ids, remaining, best, true, id, tracker.View(), current);
          if toWake.None? || Less(toWake.value, current) {
            toWake := Some(current);
          }
        } else {
          ScanMiss(threads, old(tracker.View()), tr, ids, remaining, best, true, id);
        }
        remaining := remaining - {id};
      }
      ScanEnd(threads, old(tracker.View()), tracker.View(), ids, toWake, true);
      if toWake.Some? {
        MoveThread(toWake.value.thread, Running);
      }
    }

    /** The first pass: dedicated threads. */
    method ScanDedicated(java: JavaBlocked)
      returns (blockedTaskIds: set<int>, bufnTaskIds: set<int>, allTaskIds: set<int>)
      ensures blockedTaskIds == DedicatedBlocked(threads, java)
      ensures bufnTaskIds == DedicatedBufn(threads, java)
      ensures allTaskIds == TaskIds(threads)
    {
      blockedTaskIds, bufnTaskIds, allTaskIds := {}, {}, {};
      var todo := threads.Keys;
      while todo != {}
        invariant todo <= threads.Keys
        invariant allTaskIds == TaskIds(threads - todo)
        invariant bufnTaskIds == DedicatedBufn(threads - todo, java)
        invariant blockedTaskIds == DedicatedBlocked(threads - todo, java)
      {
        var id := MinOf(todo);
        var t := threads[id];
        ghost var seen := threads - todo;
        todo := todo - {id};
        assert threads - todo == seen[id := t];
        TaskSetsStep(seen, id, t, java);
        if t.taskId >= 0 {
          allTaskIds := allTaskIds + {t.taskId};
          var isBufnPlus := BufnOrAbove(id, t, java);
          if isBufnPlus {
            bufnTaskIds := bufnTaskIds + {t.taskId};
          }
          if isBufnPlus || t.state == Blocked {
            blockedTaskIds := blockedTaskIds + {t.taskId};
          }
        }
      }
      assert threads - {} == threads;
    }

    /** The second pass: pool threads, counted per task; active ones clear their tasks. */
    method ScanPools(java: JavaBlocked, dedicatedBlocked: set<int>)
      returns (poolBufnCount: map<int, int>, poolCount: map<int, int>, blockedTaskIds: set<int>)
      ensures CountsWorkers(poolCount, threads) && CountsBufnWorkers(poolBufnCount, threads, java)
      ensures blockedTaskIds == dedicatedBlocked - ActivePoolTasks(threads, java)
    {
      poolCount, poolBufnCount := map[], map[];
      blockedTaskIds := dedicatedBlocked;
      var todo := threads.Keys;
      assert threads - todo == map[];
      while todo != {}
        invariant todo <= threads.Keys
        invariant PoolsScanned(threads - todo, java, poolCount, poolBufnCount, dedicatedBlocked, blockedTaskIds)
      {
        var id := MinOf(todo);
        var t := threads[id];
        ghost var counts, bufn, blocked, seen := poolCount, poolBufnCount, blockedTaskIds, threads - todo;
        todo := todo - {id};
        assert threads - todo == seen[id := t];
        if t.taskId < 0 {
          poolCount := CountEach(poolCount, t.poolTaskIds);
          var isBufnPlus := BufnOrAbove(id, t, java);
          if isBufnPlus {
            poolBufnCount := CountEach(poolBufnCount, t.poolTaskIds);
          }
          if !isBufnPlus && t.state != Blocked {
            blockedTaskIds := blockedTaskIds - t.poolTaskIds;
          }
        }
        PoolsScannedStep(seen, id, t, java, dedicatedBlocked, counts, bufn, blocked,
                         poolCount, poolBufnCount, blockedTaskIds);
      }
      assert threads - {} == threads;
    }

    /** Two passes over the threads; the answer and all collected sets and counts are exact. */
    method IsInDeadlock(java: JavaBlocked)
      returns (ret: bool, poolBufnCount: map<int, int>, poolCount: map<int, int>,
               bufnTaskIds: set<int>, allTaskIds: set<int>)
      ensures ret <==> Deadlocked(threads, java)
      ensures CountsWorkers(poolCount, threads) && CountsBufnWorkers(poolBufnCount, threads, java)
      ensures bufnTaskIds == DedicatedBufn(threads, java)
      ensures allTaskIds == TaskIds(threads)
    {
      var blockedTaskIds;
      blockedTaskIds, bufnTaskIds, allTaskIds := ScanDedicated(java);
      poolBufnCount, poolCount, blockedTaskIds := ScanPools(java, blockedTaskIds);
      DeadlockBySize(threads, java, blockedTaskIds);
      ret := |allTaskIds| == |blockedTaskIds| && allTaskIds != {};
    }

    /** Adds the tasks all of whose pool threads are BUFN, decided by comparing counts. */
    method AddPoolBufnTasks(poolBufnCount: map<int, int>, poolCount: map<int, int>, dedicated: set<int>)
      returns (bufnTaskIds: set<int>)
      ensures bufnTaskIds == dedicated + (set task | task in poolBufnCount.Keys
                                            && task in poolCount && poolCount[task] <= poolBufnCount[task])
    {
      bufnTaskIds := dedicated;
      var todo := poolBufnCount.Keys;
      while todo != {}
        invariant todo <= poolBufnCount.Keys
        invariant bufnTaskIds == dedicated + (set task | task in poolBufnCount.Keys - todo
                                                && task in poolCount && poolCount[task] <= poolBufnCount[task])
      {
        var task := MinOf(todo);
        if task in poolCount && poolCount[task] <= poolBufnCount[task] {
          bufnTaskIds := bufnTaskIds + {task};
        }
        todo := todo - {task};
      }
    }

    method CheckAndUpdateForBufn(java: JavaBlocked)
      requires Valid()
      modifies this`threads, this`waiters, tracker
      ensures Valid() && View() == CheckForBufn(old(View()), java)
    {
      var needToBreak, poolBufnCount, poolCount, bufnTaskIds, allTaskIds := IsInDeadlock(java);
      if needToBreak {
        BufnIdsFromCounts(threads, java, poolBufnCount, poolCount);
        BreakBlockedThread();
        bufnTaskIds := AddPoolBufnTasks(poolBufnCount, poolCount, bufnTaskIds);
        if |allTaskIds| == |bufnTaskIds| {
          BreakBufnThread();
        }
      }
    }

    /** The first half of breaking a deadlock: pick the lowest blocked thread. */
    method BreakBlockedThread()
      requires Valid()
      modifies this`threads, this`waiters, tracker
      ensures Valid() && View() == BreakBlocked(old(View()))
    {
      hide AllIssued, IsLowest, PriorityIn, IssueAll, TP.Extends;
      ghost var ids := InState(threads, Blocked);
      var toBufn: Option<Priority> := None;
      var blockedThreadCount := 0;
      var remaining := threads.Keys;
      ScanStart(threads, tracker.View(), ids, false);
      while remaining != {}
        invariant remaining <= threads.Keys
        invariant threads == old(threads) && waiters == old(waiters)
        invariant Scanning(threads, old(tracker.View()), tracker.View(), ids, remaining, toBufn, false)
        invariant blockedThreadCount == |ids - remaining|
      {
        var id := MinOf(remaining);
        ghost var tr, best := tracker.View(), toBufn;
        if threads[id].state == Blocked {
          blockedThreadCount := blockedThreadCount + 1;
          var current := PriorityOfThread(id);
          ScanHit(threads, old(tracker.View()), tr, ids, remaining, best, false, id, tracker.View(), current);
          if toBufn.None? || Less(current, toBufn.value) {
            toBufn := Some(current);
          }
        } else {
          ScanMiss(threads, old(tracker.View()), tr, ids, remaining, best, false, id);
        }
        remaining := remaining - {id};
      }
      ScanEnd(threads, old(tracker.View()), tracker.View(), ids, toBufn, false);
      if toBufn.Some? {
        var id := toBufn.value.thread;
        if blockedThreadCount == 1 {
          threads := threads[id := threads[id].(isRetryAllocBeforeBufn := true, state := Running)];
        } else {
          Transition(id, BufnThrow);
        }
        NotifyAll(id);
      }
    }

    /** The second half: when every task is BUFN, the highest such thread has to split its input. */
    method BreakBufnThread()
      requires Valid()
      modifies this`threads, this`waiters, tracker
      ensures Valid() && View() == BreakBufn(old(View()))
    {
      ghost var ids := InState(threads, Bufn);
      var toWake: Option<Priority> := None;
      var remaining := threads.Keys;
      ScanStart(threads, tracker.View(), ids, true);
      while remaining != {}
        invariant remaining <= threads.Keys
        invariant threads == old(threads) && waiters == old(waiters)
        invariant Scanning(threads, old(tracker.View()), tracker.View(), ids, remaining, toWake, true)
      {
        var id := MinOf(remaining);
        ghost var tr, best := tracker.View(), toWake;
        if threads[id].state == Bufn {
          var current := PriorityOfThread(id);
          ScanHit(threads, old(tracker.View()), tr, ids, remaining, best, true, id, tracker.View(), current);
          if toWake.None? || Less(toWake.value, current) {
            toWake := Some(current);
          }
        } else {
          ScanMiss(threads, old(tracker.View()), tr, ids, remaining, best, true, id);
        }
        remaining := remaining - {id};
      }
      ScanEnd(threads, old(tracker.View()), tracker.View(), ids, toWake, true);
      // -1 stands for "nobody"; no thread has that id.
      var id := if toWake.Some? then toWake.value.thread else -1;
      if id in threads {
        MoveThread(id, SplitThrow);
      }
    }

    // ---- blocking ----

    method ThrowOomException(id: int, split: bool) returns (r: Outcome)
      requires id in threads
      modifies this`threads
      ensures (View(), r) == ThrowOom(old(View()), id, split) && threads.Keys == old(threads).Keys
    {
      var t := threads[id];
      if split {
        t := t.(metrics := t.metrics.(numSplitRetryThrow := t.metrics.numSplitRetryThrow + 1));
      } else {
        t := t.(metrics := t.metrics.(numRetryThrow := t.metrics.numRetryThrow + 1));
      }
      if t.numTimesRetried + 1 > RETRY_LIMIT {
        r := Threw(RetryLimitExceeded);
      } else {
        t := t.(numTimesRetried := t.numTimesRetried + 1);
        r := Threw(if split then SplitAndRetryOom(t.isCpuAlloc) else RetryOom(t.isCpuAlloc));
      }
      threads := threads[id := t];
    }

    /** The loop of `block_thread_until_ready`, up to the point where it would wait. */
    method BlockThreadLoop(id: int) returns (r: Outcome)
      requires Valid()
      modifies this, tracker
      ensures Valid() && (View(), r) == BlockLoop(old(View()), id)
    {
      hide CheckForBufn, Erase, ThrowOom;
      r := Done(true);
      var done := false;
      ghost var waited := id in threads && threads[id].state.BufnWait?;
      while !done
        invariant Valid()
        invariant done ==> (View(), r) == BlockLoop(old(View()), id)
        invariant !done ==>
          r == Done(true) && (View() == old(View()) || (waited && AfterBufnWait(old(View()), View(), id)))
        decreases !done, id in threads && threads[id].state.BufnWait?
      {
        if id in threads {
          match threads[id].state {
            case Blocked | Bufn =>
              r := Waits;
              done := true;
            case BufnThrow =>
              Transition(id, BufnWait);
              r := ThrowOomException(id, false);
              done := true;
            case BufnWait =>
              Transition(id, Bufn);
              ghost var before := View();
              CheckAndUpdateForBufn(None);
              Nudge.CheckOnOwnBufn(before, None, id);
              if threads[id].state == Blocked || threads[id].state == Bufn {
                r := Waits;
                done := true;
              }
            case SplitThrow =>
              Transition(id, Running);
              r := ThrowOomException(id, true);
              done := true;
            case RemoveThrow =>
              EraseThread(id);
              r := Threw(Removed);
              done := true;
            case _ =>
              done := true;
          }
        } else {
          done := true;
        }
      }
    }

    method BlockThreadUntilReady(id: int) returns (r: Outcome)
      requires Valid()
      modifies this, tracker
      ensures Valid() && (View(), r) == BlockUntilReady(old(View()), id)
    {
      r := BlockThreadLoop(id);
      if r.Waits? {
        waiters := waiters[id := Waiter(false, UntilReady)];
      }
    }

    /** What a thread does with the mutex re-acquired after `wait` returned inside `call`. */
    method WakeFromWait(id: int, call: Call) returns (r: Outcome)
      requires Valid() && id in waiters && waiters[id].call == call
      modifies this, tracker
      ensures Valid() && (View(), r) == Resume(old(View()), id)
    {
      if id in threads && (threads[id].state == Blocked || threads[id].state == Bufn) {
        waiters := waiters[id := Waiter(false, call)];
        return Waits;
      }
      waiters := waiters - {id};
      match call {
        case UntilReady => r := BlockThreadUntilReady(id);
        case ForAlloc(isForCpu) => r := BlockThenStartAlloc(id, isForCpu);
      }
    }

    // ---- allocation ----

    /** The end of `pre_alloc_core`. */
    method StartAlloc(id: int, isForCpu: bool, blocking: bool) returns (r: Outcome)
      modifies this`threads, this`inFlight, this`orphaned
      ensures (View(), r) == EnterAlloc(old(View()), id, isForCpu, blocking)
    {
      if id !in threads {
        orphaned := PushOrphan(View(), id, Frame(isForCpu, blocking, false)).orphaned;
        return Done(false);
      }
      match threads[id].state {
        case Running =>
          threads := threads[id := threads[id].(state := Alloc, isCpuAlloc := isForCpu)];
          inFlight := Push(View(), id, Frame(isForCpu, blocking, false)).inFlight;
          r := Done(false);
        case _ =>
          r := Threw(InvalidArgument);
      }
    }

    method BlockThenStartAlloc(id: int, isForCpu: bool) returns (r: Outcome)
      requires Valid()
      modifies this, tracker
      ensures Valid() && (View(), r) == BlockThenAlloc(old(View()), id, isForCpu)
    {
      r := BlockThreadLoop(id);
      if r.Waits? {
        waiters := waiters[id := Waiter(false, ForAlloc(isForCpu))];
      } else if r.Done? {
        r := StartAlloc(id, isForCpu, true);
      }
    }

    method PreAllocCore(id: int, isForCpu: bool, blocking: bool) returns (r: Outcome)
      requires Valid()
      modifies this, tracker
      ensures Valid() && (View(), r) == PreAlloc(old(View()), id, isForCpu, blocking)
    {
      if id !in threads {
        orphaned := PushOrphan(View(), id, Frame(isForCpu, blocking, false)).orphaned;
        return Done(false);
      }
      match threads[id].state {
        case Alloc | AllocFree =>
          if isForCpu && blocking {
            return Threw(InvalidArgument);
          }
          inFlight := Push(View(), id, Frame(isForCpu, blocking, true)).inFlight;
          return Done(true);
        case _ =>
      }
      if blocking {
        r := BlockThenStartAlloc(id, isForCpu);
      } else {
        r := StartAlloc(id, isForCpu, false);
      }
    }

    /** The innermost allocation the thread has open is over; the adaptor itself keeps no record of it. */
    ghost method CloseAllocation(id: int)
      modifies this`inFlight, this`orphaned
      ensures View() == Pop(old(View()), id)
      ensures threads == old(threads) && Pop(old(View()), id).threads == old(threads)
      ensures Pop(old(View()), id).tracker == old(View()).tracker
    {
      hide FramesOf, OrphansOf;
      inFlight, orphaned := Pop(View(), id).inFlight, Pop(View(), id).orphaned;
    }

    method PostAllocSuccessCore(id: int, isForCpu: bool, wasRecursive: bool, numBytes: nat) returns (r: Outcome)
      requires Valid()
      modifies this, tracker
      ensures Valid() && (View(), r) == PostAllocSuccess(old(View()), id, isForCpu, wasRecursive, numBytes)
    {
      hide WakeNext, Notify, FramesOf, OrphansOf;
      CloseAllocation(id);
      ghost var before := View();
      hide Pop;
      r := Done(true);
      if !wasRecursive && id in threads {
        var t := threads[id].(isRetryAllocBeforeBufn := false);
        match t.state {
          case Alloc | AllocFree =>
            if t.isCpuAlloc != isForCpu {
              threads := threads[id := t];
              return Threw(InvalidArgument);
            }
            t := t.(state := Running, isCpuAlloc := false);
            if !isForCpu {
              var m := t.metrics;
              if !t.isInSpilling {
                m := m.(activeFootprint := m.activeFootprint + numBytes);
                m := m.(maxFootprint := Max(m.activeFootprint, m.maxFootprint));
              }
              gpuMemoryAllocatedBytes := gpuMemoryAllocatedBytes + numBytes;
              t := t.(metrics := m.(maxAllocated := Max(m.maxAllocated, gpuMemoryAllocatedBytes)));
            }
          case _ =>
        }
        threads := threads[id := t];
        assert IsAllocating(before.threads[id].state) ==> View() == RecordSuccess(before, id, isForCpu, numBytes);
        assert !IsAllocating(before.threads[id].state) ==> View() == With(before, id, t);
        WakeNextHighestPriorityBlocked(isForCpu);
      }
    }

    method PostAllocFailedCore(id: int, isForCpu: bool, isOom: bool, blocking: bool, wasRecursive: bool)
      returns (r: Outcome)
      requires Valid()
      modifies this, tracker
      ensures Valid()
      ensures (View(), r) == PostAllocFailed(old(View()), id, isForCpu, isOom, blocking, wasRecursive)
    {
      hide CheckForBufn, FramesOf, OrphansOf;
      CloseAllocation(id);
      ghost var before := View();
      hide Pop;
      if wasRecursive || id !in threads {
        CheckAndUpdateForBufn(None);
        return Done(false);
      }
      var t := threads[id];
      if t.isCpuAlloc != isForCpu {
        return Threw(InvalidArgument);
      }
      match t.state {
        case AllocFree =>
          threads := threads[id := t.(state := Running)];
        case Alloc =>
          if isOom && t.isRetryAllocBeforeBufn {
            threads := threads[id := t.(isRetryAllocBeforeBufn := false, state := BufnThrow)];
            NotifyAll(id);
          } else if isOom && blocking {
            // the retry flag is clear here: the branch above takes every OOM with the flag set
            threads := threads[id := t.(state := Blocked)];
          } else {
            threads := threads[id := t.(state := Running)];
          }
        case _ =>
          return Threw(InternalError);
      }
      assert View() == RecordFailure(before, id, isOom, blocking);
      CheckAndUpdateForBufn(None);
      r := Done(true);
    }

    /** Tells the other allocations of this kind that memory was freed while they were trying. */
    method MarkOthersFreed(id: int, isForCpu: bool)
      modifies this`threads
      ensures threads == MarkFreed(old(threads), id, isForCpu)
    {
      var todo := threads.Keys;
      while todo != {}
        invariant todo <= threads.Keys && threads.Keys == old(threads).Keys
        invariant forall x :: x in todo ==> threads[x] == old(threads)[x]
        invariant forall x :: x in threads && x !in todo ==> threads[x] == MarkFreed(old(threads), id, isForCpu)[x]
      {
        var other := MinOf(todo);
        if other != id {
          match threads[other].state {
            case Alloc =>
              if isForCpu == threads[other].isCpuAlloc {
                Transition(other, AllocFree);
              }
            case _ =>
          }
        }
        todo := todo - {other};
      }
    }

    method DeallocCore(id: int, isForCpu: bool, numBytes: nat)
      requires Valid()
      modifies this, tracker
      ensures Valid() && View() == Dealloc(old(View()), id, isForCpu, numBytes)
    {
      if id in threads && !isForCpu {
        if !threads[id].isInSpilling {
          var m := threads[id].metrics;
          threads := threads[id := threads[id].(metrics := m.(activeFootprint := m.activeFootprint - numBytes))];
        }
        gpuMemoryAllocatedBytes := gpuMemoryAllocatedBytes - numBytes;
      }
      assert View() == RecordFree(old(View()), id, isForCpu, numBytes);
      MarkOthersFreed(id, isForCpu);
      WakeNextHighestPriorityBlocked(isForCpu);
    }
  }
}
