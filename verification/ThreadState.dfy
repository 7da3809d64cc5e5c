/** The per-thread record of the resource adaptor, its metrics, and thread priorities. */
module ThreadState {
  import opened Common
  import opened TaskPriority

  datatype State =
    | Running | Alloc | AllocFree | Blocked
    | BufnThrow | BufnWait | Bufn | SplitThrow | RemoveThrow

  predicate IsBlocked(s: State) {
    s.Blocked? || s.Bufn?
  }

  predicate IsAllocating(s: State) {
    s.Alloc? || s.AllocFree?
  }

  /** The counters that are not clock readings. */
  datatype Metrics = Metrics(
    numRetryThrow: int,
    numSplitRetryThrow: int,
    maxAllocated: int,
    activeFootprint: int,
    maxFootprint: int)

  const NO_METRICS := Metrics(0, 0, 0, 0, 0)

  function Max(x: int, y: int): int {
    if x < y then y else x
  }

  function AddMetrics(m: Metrics, o: Metrics): Metrics {
    Metrics(
      m.numRetryThrow + o.numRetryThrow,
      m.numSplitRetryThrow + o.numSplitRetryThrow,
      Max(m.maxAllocated, o.maxAllocated),
      m.activeFootprint + o.activeFootprint,
      m.maxFootprint + o.maxFootprint)
  }

  datatype Thread = Thread(
    state: State,
    taskId: int,
    isForShuffle: bool,
    poolTaskIds: set<int>,
    isCpuAlloc: bool,
    poolBlocked: bool,
    isRetryAllocBeforeBufn: bool,
    numTimesRetried: int,
    isInSpilling: bool,
    metrics: Metrics)

  function NewThread(taskId: int, isForShuffle: bool): Thread {
    Thread(Running, taskId, isForShuffle, {}, false, false, false, 0, false, NO_METRICS)
  }

  predicate IsPool(t: Thread) {
    t.taskId < 0
  }

  type Threads = map<int, Thread>

  ghost function InState(ts: Threads, s: State): set<int> {
    set id | id in ts && ts[id].state == s
  }

  /** The task a thread takes its priority from; -1 stands for "before every task". */
  function PriorityKey(t: Thread): int {
    if t.taskId < 0 && !t.isForShuffle then
      if t.poolTaskIds == {} then -1 else MinOf(t.poolTaskIds)
    else t.taskId
  }

  /** A priority read from the tracker, with the thread id as tie breaker. */
  datatype Priority = Priority(task: int, thread: int)

  predicate Less(p: Priority, q: Priority) {
    p.task < q.task || (p.task == q.task && p.thread < q.thread)
  }

  ghost predicate AllIssued(ts: Threads, tr: Tracker, ids: set<int>) {
    ids <= ts.Keys && forall id :: id in ids ==> Issued(tr, PriorityKey(ts[id]))
  }

  ghost function PriorityIn(ts: Threads, tr: Tracker, id: int): Priority
    requires id in ts && Issued(tr, PriorityKey(ts[id]))
  {
    Priority(PriorityOf(tr, PriorityKey(ts[id])), id)
  }

  /** `id` outranks every other member of `ids`, all priorities read from the same tracker. */
  ghost predicate IsHighest(ts: Threads, tr: Tracker, ids: set<int>, id: int)
    requires AllIssued(ts, tr, ids)
  {
    id in ids && forall o :: o in ids && o != id ==> Less(PriorityIn(ts, tr, o), PriorityIn(ts, tr, id))
  }

  ghost predicate IsLowest(ts: Threads, tr: Tracker, ids: set<int>, id: int)
    requires AllIssued(ts, tr, ids)
  {
    id in ids && forall o :: o in ids && o != id ==> Less(PriorityIn(ts, tr, id), PriorityIn(ts, tr, o))
  }

  /** A non-empty set of threads has exactly one highest and exactly one lowest member. */
  lemma {:induction false} ExtremesExist(ts: Threads, tr: Tracker, ids: set<int>)
    requires ids != {} && AllIssued(ts, tr, ids)
    ensures exists id :: IsHighest(ts, tr, ids, id)
    ensures exists id :: IsLowest(ts, tr, ids, id)
    decreases |ids|
  {
    var x := Member(ids);
    var rest := ids - {x};
    assert ids == rest + {x};
    if rest == {} {
      assert ids == {x};
      assert IsHighest(ts, tr, ids, x) && IsLowest(ts, tr, ids, x);
    } else {
      ExtremesExist(ts, tr, rest);
      var h :| IsHighest(ts, tr, rest, h);
      var l :| IsLowest(ts, tr, rest, l);
      var p := PriorityIn(ts, tr, x);
      assert IsHighest(ts, tr, ids, if Less(p, PriorityIn(ts, tr, h)) then h else x);
      assert IsLowest(ts, tr, ids, if Less(p, PriorityIn(ts, tr, l)) then x else l);
    }
  }

  lemma {:induction false} ExtremesUnique(ts: Threads, tr: Tracker, ids: set<int>, x: int, y: int)
    requires AllIssued(ts, tr, ids)
    ensures IsHighest(ts, tr, ids, x) && IsHighest(ts, tr, ids, y) ==> x == y
    ensures IsLowest(ts, tr, ids, x) && IsLowest(ts, tr, ids, y) ==> x == y
  {
  }

  ghost function Highest(ts: Threads, tr: Tracker, ids: set<int>): (id: int)
    requires ids != {} && AllIssued(ts, tr, ids)
    ensures IsHighest(ts, tr, ids, id)
  {
    ExtremesExist(ts, tr, ids);
    var id :| IsHighest(ts, tr, ids, id);
    id
  }

  ghost function Lowest(ts: Threads, tr: Tracker, ids: set<int>): (id: int)
    requires ids != {} && AllIssued(ts, tr, ids)
    ensures IsLowest(ts, tr, ids, id)
  {
    ExtremesExist(ts, tr, ids);
    var id :| IsLowest(ts, tr, ids, id);
    id
  }

  /** The tracker after the priorities of `ids` were asked for in ascending thread order. */
  ghost function IssueAll(ts: Threads, tr: Tracker, ids: set<int>): Tracker
    requires ids <= ts.Keys
    decreases |ids|
  {
    if ids == {} then tr
    else
      var id := MinOf(ids);
      IssueAll(ts, Issue(tr, PriorityKey(ts[id])), ids - {id})
  }

  lemma {:induction false} IssueAllIssues(ts: Threads, tr: Tracker, ids: set<int>)
    requires Valid(tr) && ids <= ts.Keys
    ensures var u := IssueAll(ts, tr, ids); Valid(u) && Extends(tr, u) && AllIssued(ts, u, ids)
    decreases |ids|
  {
    if ids != {} {
      var id := MinOf(ids);
      IssueIsLowest(tr, PriorityKey(ts[id]));
      IssueAllIssues(ts, Issue(tr, PriorityKey(ts[id])), ids - {id});
    }
  }
}
