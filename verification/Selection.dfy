/** Which thread is woken, rolled back or told to split, in terms of the priorities everybody ends up with. */
module Selection {
  import opened Common
  import TP = TaskPriority
  import opened ThreadState
  import opened AdaptorModel

  /** Only `id` differs between `ts` and `us`, and only in its state and its retry flag. */
  ghost predicate OnlyChanges(ts: Threads, us: Threads, id: int, s: State) {
    && id in ts && id in us && us == ts[id := us[id]]
    && us[id] == ts[id].(state := s, isRetryAllocBeforeBufn := us[id].isRetryAllocBeforeBufn)
  }

  /** Woken is the one blocked thread of that kind that outranks all others, judged by the final tracker. */
  lemma {:induction false} WokenThreadIsHighest(a: Adaptor, isCpu: bool) returns (id: int)
    requires TP.Valid(a.tracker) && BlockedFor(a.threads, isCpu) != {}
    ensures var b := WakeNext(a, isCpu); var ids := BlockedFor(a.threads, isCpu);
      && TP.Extends(a.tracker, b.tracker) && AllIssued(a.threads, b.tracker, ids)
      && IsHighest(a.threads, b.tracker, ids, id) && (forall o :: IsHighest(a.threads, b.tracker, ids, o) ==> o == id)
      && OnlyChanges(a.threads, b.threads, id, Running)
  {
    var ids := BlockedFor(a.threads, isCpu);
    var b := Ask(a, ids);
    id := Highest(b.threads, b.tracker, ids);
    forall o | IsHighest(a.threads, b.tracker, ids, o) ensures o == id {
      ExtremesUnique(a.threads, b.tracker, ids, id, o);
    }
  }

  /** Sent back is the one blocked thread all others outrank; alone, it only retries. */
  lemma {:induction false} RolledBackThreadIsLowest(a: Adaptor) returns (id: int)
    requires TP.Valid(a.tracker) && InState(a.threads, Blocked) != {}
    ensures var b := BreakBlocked(a); var ids := InState(a.threads, Blocked);
      && TP.Extends(a.tracker, b.tracker) && AllIssued(a.threads, b.tracker, ids)
      && IsLowest(a.threads, b.tracker, ids, id) && (forall o :: IsLowest(a.threads, b.tracker, ids, o) ==> o == id)
      && OnlyChanges(a.threads, b.threads, id, if ids == {id} then Running else BufnThrow)
      && b.threads[id].isRetryAllocBeforeBufn == (ids == {id} || a.threads[id].isRetryAllocBeforeBufn)
  {
    hide IssueAll, TP.Valid, Notify;
    var ids := InState(a.threads, Blocked);
    var b := Ask(a, ids);
    id := Lowest(b.threads, b.tracker, ids);
    forall o | IsLowest(a.threads, b.tracker, ids, o) ensures o == id {
      ExtremesUnique(a.threads, b.tracker, ids, id, o);
    }
    SubsetSize({id}, ids);
  }

  /** Told to split is the one BUFN thread that outranks all others. */
  lemma {:induction false} SplitThreadIsHighest(a: Adaptor) returns (id: int)
    requires TP.Valid(a.tracker) && InState(a.threads, Bufn) != {}
    ensures var b := BreakBufn(a); var ids := InState(a.threads, Bufn);
      && TP.Extends(a.tracker, b.tracker) && AllIssued(a.threads, b.tracker, ids)
      && IsHighest(a.threads, b.tracker, ids, id) && (forall o :: IsHighest(a.threads, b.tracker, ids, o) ==> o == id)
      && OnlyChanges(a.threads, b.threads, id, SplitThrow)
  {
    var ids := InState(a.threads, Bufn);
    var b := Ask(a, ids);
    id := Highest(b.threads, b.tracker, ids);
    forall o | IsHighest(a.threads, b.tracker, ids, o) ensures o == id {
      ExtremesUnique(a.threads, b.tracker, ids, id, o);
    }
  }

  /**
   * Whose priority a thread has: its task's if it is dedicated; of the least task it works for if it is
   * a pool thread; and before every task if it has none or shuffles.
   */
  lemma {:induction false} KeysExactly(t: Thread)
    ensures t.taskId >= 0 ==> PriorityKey(t) == t.taskId
    ensures t.taskId == -1 && (t.isForShuffle || t.poolTaskIds == {}) ==> PriorityKey(t) == -1
    ensures t.taskId == -1 && !t.isForShuffle && t.poolTaskIds != {} ==>
      PriorityKey(t) in t.poolTaskIds && forall task :: task in t.poolTaskIds ==> PriorityKey(t) <= task
  {
  }

  /** Between threads of one task the larger thread id wins. */
  lemma {:induction false} TiesByThread(ts: Threads, tr: TP.Tracker, x: int, y: int)
    requires AllIssued(ts, tr, {x, y}) && PriorityKey(ts[x]) == PriorityKey(ts[y])
    ensures TP.Issued(tr, PriorityKey(ts[x])) && TP.Issued(tr, PriorityKey(ts[y]))
    ensures Less(PriorityIn(ts, tr, x), PriorityIn(ts, tr, y)) <==> x < y
  {
    assert x in {x, y} && y in {x, y};
  }

  /** A shuffle thread, or a pool thread without tasks, outranks every thread that works for a task. */
  lemma {:induction false} ShuffleOutranksTasks(ts: Threads, tr: TP.Tracker, x: int, y: int)
    requires TP.Valid(tr) && AllIssued(ts, tr, {x, y})
    requires PriorityKey(ts[x]) == -1 && PriorityKey(ts[y]) >= 0
    ensures Less(PriorityIn(ts, tr, y), PriorityIn(ts, tr, x))
  {
    assert TP.Issued(tr, PriorityKey(ts[y]));
  }

  /** A task that has its priority outranks every task that is only asked for afterwards. */
  lemma {:induction false} EarlierTasksOutrank(ts: Threads, tr: TP.Tracker, ids: set<int>, old_: int, new_: int)
    requires TP.Valid(tr) && ids <= ts.Keys && TP.Issued(tr, old_)
    requires !TP.Issued(tr, new_) && TP.Issued(IssueAll(ts, tr, ids), new_)
    ensures TP.Issued(IssueAll(ts, tr, ids), old_)
    ensures TP.PriorityOf(IssueAll(ts, tr, ids), new_) < TP.PriorityOf(IssueAll(ts, tr, ids), old_)
    decreases |ids|
  {
    if ids != {} {
      var id := MinOf(ids);
      var u := TP.Issue(tr, PriorityKey(ts[id]));
      TP.IssueIsLowest(tr, PriorityKey(ts[id]));
      if TP.Issued(u, new_) {
        IssueAllIssues(ts, u, ids - {id});
      } else {
        EarlierTasksOutrank(ts, u, ids - {id}, old_, new_);
      }
    }
  }
}
