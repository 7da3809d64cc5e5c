/** What it means for tasks to be blocked, in the terms of the comment above `is_in_deadlock`. */
module Deadlock {
  import opened Common
  import opened ThreadState

  /** Thread ids the JVM reports as blocked; `None` when nobody asked the JVM. */
  type JavaBlocked = Option<set<int>>

  predicate BufnOrAbove(id: int, t: Thread, java: JavaBlocked) {
    t.poolBlocked || t.state.Bufn? || (!t.state.Blocked? && java.Some? && id in java.value)
  }

  predicate BlockedOrAbove(id: int, t: Thread, java: JavaBlocked) {
    BufnOrAbove(id, t, java) || t.state.Blocked?
  }

  ghost predicate DedicatedTo(ts: Threads, id: int, task: int) {
    id in ts && !IsPool(ts[id]) && ts[id].taskId == task
  }

  ghost predicate WorksFor(ts: Threads, id: int, task: int) {
    id in ts && IsPool(ts[id]) && task in ts[id].poolTaskIds
  }

  ghost function TaskIds(ts: Threads): set<int> {
    set id | id in ts && !IsPool(ts[id]) :: ts[id].taskId
  }

  lemma {:induction false} DedicatedThread(ts: Threads, task: int) returns (id: int)
    requires task in TaskIds(ts)
    ensures DedicatedTo(ts, id, task)
  {
    var ids := set x | x in ts && DedicatedTo(ts, x, task);
    assert !(forall x :: x in ts ==> x !in ids);
    id := Member(ids);
  }

  ghost function PoolTasks(ts: Threads): set<int> {
    set id, task | id in ts && IsPool(ts[id]) && task in ts[id].poolTaskIds :: task
  }

  ghost function Workers(ts: Threads, task: int): set<int> {
    set id | id in ts && WorksFor(ts, id, task)
  }

  ghost function BufnWorkers(ts: Threads, task: int, java: JavaBlocked): set<int> {
    set id | id in ts && WorksFor(ts, id, task) && BufnOrAbove(id, ts[id], java)
  }

  /** One dedicated thread that is blocked suffices, but every pool thread has to be. */
  ghost predicate TaskBlocked(ts: Threads, task: int, java: JavaBlocked) {
    && (exists id :: DedicatedTo(ts, id, task) && BlockedOrAbove(id, ts[id], java))
    && (forall id :: WorksFor(ts, id, task) ==> BlockedOrAbove(id, ts[id], java))
  }

  /** Blocked until further notice: a dedicated thread is, or there are pool threads and all are. */
  ghost predicate TaskBufn(ts: Threads, task: int, java: JavaBlocked) {
    || (exists id :: DedicatedTo(ts, id, task) && BufnOrAbove(id, ts[id], java))
    || (Workers(ts, task) != {} && forall id :: WorksFor(ts, id, task) ==> BufnOrAbove(id, ts[id], java))
  }

  ghost predicate Deadlocked(ts: Threads, java: JavaBlocked) {
    TaskIds(ts) != {} && forall task :: task in TaskIds(ts) ==> TaskBlocked(ts, task, java)
  }

  ghost predicate EveryTaskBufn(ts: Threads, java: JavaBlocked) {
    forall task :: task in TaskIds(ts) ==> TaskBufn(ts, task, java)
  }

  /** Tasks the first pass finds blocked until further notice. */
  ghost function DedicatedBufn(ts: Threads, java: JavaBlocked): set<int> {
    set id | id in ts && !IsPool(ts[id]) && BufnOrAbove(id, ts[id], java) :: ts[id].taskId
  }

  /** All ids the breaker ends up holding in `bufn_task_ids`. */
  ghost function BufnIds(ts: Threads, java: JavaBlocked): set<int> {
    DedicatedBufn(ts, java)
    + (set task | task in PoolTasks(ts) && BufnWorkers(ts, task, java) != {}
          && |Workers(ts, task)| <= |BufnWorkers(ts, task, java)|)
  }

  /** The breaker compares only the sizes of its two id sets. */
  ghost predicate AllBufnTest(ts: Threads, java: JavaBlocked) {
    |TaskIds(ts)| == |BufnIds(ts, java)|
  }

  /** Every task some pool thread works on also has a dedicated thread. */
  ghost predicate PoolsCovered(ts: Threads) {
    PoolTasks(ts) <= TaskIds(ts)
  }

  /** Counting pool threads decides "all of them": the counts compare iff no worker is left out. */
  lemma {:induction false} CountingIsExact(ts: Threads, task: int, java: JavaBlocked)
    ensures |Workers(ts, task)| <= |BufnWorkers(ts, task, java)|
       <==> forall id :: WorksFor(ts, id, task) ==> BufnOrAbove(id, ts[id], java)
  {
    var w, b := Workers(ts, task), BufnWorkers(ts, task, java);
    assert b <= w;
    SubsetSize(b, w);
    assert |w| <= |b| ==> b == w;
    if forall id :: WorksFor(ts, id, task) ==> BufnOrAbove(id, ts[id], java) {
      assert w <= b;
    } else {
      var id :| WorksFor(ts, id, task) && !BufnOrAbove(id, ts[id], java);
      assert id in w && id !in b;
    }
  }

  lemma {:induction false} PoolTasksHaveWorkers(ts: Threads, task: int)
    ensures task in PoolTasks(ts) <==> Workers(ts, task) != {}
  {
    if task in PoolTasks(ts) {
      assert exists id :: id in ts && IsPool(ts[id]) && task in ts[id].poolTaskIds;
      assert !(forall id :: id in ts ==> id !in Workers(ts, task));
    }
    if Workers(ts, task) != {} {
      var id := Member(Workers(ts, task));
      assert task in PoolTasks(ts);
    }
  }

  /** The ids collected are exactly the tasks that are blocked until further notice. */
  lemma {:induction false} BufnIdsExact(ts: Threads, java: JavaBlocked, task: int)
    ensures task in BufnIds(ts, java) <==>
              task in TaskIds(ts) + PoolTasks(ts) && TaskBufn(ts, task, java)
  {
    CountingIsExact(ts, task, java);
    PoolTasksHaveWorkers(ts, task);
    var w, b := Workers(ts, task), BufnWorkers(ts, task, java);
    assert w != {} && |w| <= |b| ==> b != {};
    assert task in DedicatedBufn(ts, java)
      <==> exists id :: DedicatedTo(ts, id, task) && BufnOrAbove(id, ts[id], java);
  }

  /** Dedicated tasks that are not blocked until further notice. */
  ghost function NotYetBufn(ts: Threads, java: JavaBlocked): set<int> {
    set task | task in TaskIds(ts) && !TaskBufn(ts, task, java)
  }

  /** Tasks nobody is dedicated to, all of whose pool threads are blocked until further notice. */
  ghost function StrayBufn(ts: Threads, java: JavaBlocked): set<int> {
    set task | task in PoolTasks(ts) && task !in TaskIds(ts)
               && forall id :: WorksFor(ts, id, task) ==> BufnOrAbove(id, ts[id], java)
  }

  lemma {:induction false} DifferencesAreTasks(ts: Threads, java: JavaBlocked)
    ensures TaskIds(ts) - BufnIds(ts, java) == NotYetBufn(ts, java)
    ensures BufnIds(ts, java) - TaskIds(ts) == StrayBufn(ts, java)
  {
    hide BufnIds, PoolTasks, TaskIds, BufnOrAbove;
    forall task
      ensures task in TaskIds(ts) - BufnIds(ts, java) <==> task in NotYetBufn(ts, java)
      ensures task in BufnIds(ts, java) - TaskIds(ts) <==> task in StrayBufn(ts, java)
    {
      BufnIdsExact(ts, java, task);
      PoolTasksHaveWorkers(ts, task);
      if task !in TaskIds(ts) {
        NobodyDedicated(ts, task);
      }
    }
  }

  lemma {:induction false} NobodyDedicated(ts: Threads, task: int)
    requires task !in TaskIds(ts)
    ensures forall id :: !DedicatedTo(ts, id, task)
  {
  }

  /** The size comparison balances: dedicated tasks not yet BUFN against stray tasks that are. */
  lemma {:induction false} AllBufnTestMeaning(ts: Threads, java: JavaBlocked)
    ensures AllBufnTest(ts, java) <==> |NotYetBufn(ts, java)| == |StrayBufn(ts, java)|
    ensures EveryTaskBufn(ts, java) <==> NotYetBufn(ts, java) == {}
  {
    hide BufnIds, TaskIds, TaskBufn;
    SizeByDifference(TaskIds(ts), BufnIds(ts, java));
    DifferencesAreTasks(ts, java);
    if NotYetBufn(ts, java) == {} {
      forall task | task in TaskIds(ts) ensures TaskBufn(ts, task, java) {
        assert task !in NotYetBufn(ts, java);
      }
    }
  }

  /** The size test agrees with the documented rule in exactly these situations. */
  lemma {:induction false} AllBufnTestAgrees(ts: Threads, java: JavaBlocked)
    ensures (AllBufnTest(ts, java) <==> EveryTaskBufn(ts, java))
       <==> if NotYetBufn(ts, java) == {} then StrayBufn(ts, java) == {}
            else |NotYetBufn(ts, java)| != |StrayBufn(ts, java)|
  {
    hide AllBufnTest, EveryTaskBufn, NotYetBufn, StrayBufn;
    AllBufnTestMeaning(ts, java);
  }

  /** With a dedicated thread for every pool task the size test is the documented rule. */
  lemma {:induction false} AllBufnTestExact(ts: Threads, java: JavaBlocked)
    requires PoolsCovered(ts)
    ensures AllBufnTest(ts, java) <==> EveryTaskBufn(ts, java)
  {
    AllBufnTestMeaning(ts, java);
    assert StrayBufn(ts, java) == {};
  }

  /**
   * Without that the test can be wrong both ways: task 1 has a dedicated thread 10 in state `s`, and
   * a pool thread 11 that is BUFN works for task 2, which nobody is dedicated to.
   */
  ghost predicate StrayPool(ts: Threads, s: State) {
    && ts.Keys == {10, 11}
    && !IsPool(ts[10]) && ts[10].taskId == 1 && ts[10].state == s && !ts[10].poolBlocked
    && IsPool(ts[11]) && ts[11].poolTaskIds == {2} && ts[11].state.Bufn?
  }

  lemma {:induction false} StrayPoolWorkers(ts: Threads, s: State, task: int)
    requires StrayPool(ts, s)
    ensures Workers(ts, task) == if task == 2 then {11} else {}
    ensures task in PoolTasks(ts) <==> task == 2
    ensures task in TaskIds(ts) <==> task == 1
  {
    PoolTasksHaveWorkers(ts, task);
    assert 10 in ts && 11 in ts;
  }

  lemma {:induction false} AllBufnTestCanMisfire(ts: Threads, s: State)
    requires StrayPool(ts, s) && (s.Blocked? || s.Bufn?)
    ensures Deadlocked(ts, None) && AllBufnTest(ts, None) == s.Blocked? && EveryTaskBufn(ts, None) == s.Bufn?
  {
    assert DedicatedTo(ts, 10, 1) && BlockedOrAbove(10, ts[10], None);
    assert forall id :: DedicatedTo(ts, id, 1) ==> id == 10;
    StrayPoolWorkers(ts, s, 1);
    assert TaskBlocked(ts, 1, None) && (TaskBufn(ts, 1, None) <==> s.Bufn?) by {
      forall id ensures !WorksFor(ts, id, 1) {
        assert id !in Workers(ts, 1);
      }
    }
    forall task
      ensures task in TaskIds(ts) <==> task == 1
      ensures task in StrayBufn(ts, None) <==> task == 2
    {
      StrayPoolWorkers(ts, s, task);
    }
    hide TaskIds, StrayBufn;
    assert NotYetBufn(ts, None) == if s.Bufn? then {} else {1};
    assert StrayBufn(ts, None) == {2};
    AllBufnTestMeaning(ts, None);
  }

  /** The more threads the JVM reports as blocked, the more states count as a deadlock. */
  lemma {:induction false} DeadlockMonotone(ts: Threads, fewer: JavaBlocked, more: JavaBlocked)
    requires fewer.Some? ==> more.Some? && fewer.value <= more.value
    requires Deadlocked(ts, fewer)
    ensures Deadlocked(ts, more)
  {
    forall task | task in TaskIds(ts) ensures TaskBlocked(ts, task, more) {
      assert TaskBlocked(ts, task, fewer);
      assert forall id :: id in ts && BlockedOrAbove(id, ts[id], fewer) ==> BlockedOrAbove(id, ts[id], more);
    }
  }
}
