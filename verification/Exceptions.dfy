/** What a thread that runs the blocking loop gets: an exception of its kind, a wait, or leave to go on. */
module Exceptions {
  import opened Common
  import TP = TaskPriority
  import opened ThreadState
  import opened Deadlock
  import opened AdaptorModel
  import opened Nudge
  import opened AdaptorRuns
  import opened NoStall

  /** The exception that tells a thread to retry or to split, by the kind of its last allocation. */
  ghost function Exception(t: Thread, split: bool): Error {
    if t.numTimesRetried >= 500 then RetryLimitExceeded
    else if split then SplitAndRetryOom(t.isCpuAlloc)
    else RetryOom(t.isCpuAlloc)
  }

  /** Its record afterwards: one more exception of that sort counted, and one retry used up. */
  ghost function Told(t: Thread, split: bool): Thread {
    t.(state := if split then Running else BufnWait,
       numTimesRetried := if t.numTimesRetried >= 500 then t.numTimesRetried else t.numTimesRetried + 1,
       metrics := if split then t.metrics.(numSplitRetryThrow := t.metrics.numSplitRetryThrow + 1)
                  else t.metrics.(numRetryThrow := t.metrics.numRetryThrow + 1))
  }

  lemma {:induction false} ThrowTells(a: Adaptor, id: int, s: State, split: bool)
    requires id in a.threads && s == if split then Running else BufnWait
    ensures var t := a.threads[id];
      ThrowOom(With(a, id, t.(state := s)), id, split) == (With(a, id, Told(t, split)), Threw(Exception(t, split)))
  {
    var u := Told(a.threads[id], split);
    assert a.threads[id := a.threads[id].(state := s)][id := u] == a.threads[id := u];
  }

  /** What a thread meets that is not about to go to BUFN, state by state. */
  ghost function Meets(a: Adaptor, id: int): (Adaptor, Outcome)
    requires id in a.threads
  {
    var t := a.threads[id];
    match t.state
    case Blocked => (a, Waits)
    case Bufn => (a, Waits)
    case BufnThrow => (With(a, id, Told(t, false)), Threw(Exception(t, false)))
    case SplitThrow => (With(a, id, Told(t, true)), Threw(Exception(t, true)))
    case RemoveThrow => (Erase(a, id), Threw(Removed))
    case _ => (a, Done(true))
  }

  lemma {:induction false} SettleMeets(a: Adaptor, id: int)
    requires id in a.threads
    ensures Settle(a, id) == Meets(a, id)
  {
    ThrowTells(a, id, BufnWait, false);
    ThrowTells(a, id, Running, true);
    hide ThrowOom, Told, Exception, Erase;
  }

  /** The state after a thread that was rolled back went to BUFN, with the check that comes with it. */
  ghost function Rechecked(a: Adaptor, id: int): (c: Adaptor)
    requires TP.Valid(a.tracker) && id in a.threads
  {
    CheckForBufn(With(a, id, a.threads[id].(state := Bufn)), None)
  }

  lemma {:induction false} RecheckedShape(a: Adaptor, id: int)
    requires TP.Valid(a.tracker) && id in a.threads
    ensures var c := Rechecked(a, id);
      && TP.Valid(c.tracker) && c.threads.Keys == a.threads.Keys && id in c.threads
      && (c.threads[id].state.Bufn? || c.threads[id].state.SplitThrow?)
      && c.threads[id] == a.threads[id].(state := c.threads[id].state)
  {
    hide CheckForBufn;
    var b := With(a, id, a.threads[id].(state := Bufn));
    CheckNudges(b, None);
    CheckOnOwnBufn(b, None, id);
    assert NudgedThread(b.threads[id], Rechecked(a, id).threads[id]);
  }

  /** Is the thread told to split: before, or by the check it makes itself? */
  ghost predicate ToldToSplit(a: Adaptor, id: int)
    requires TP.Valid(a.tracker) && id in a.threads
  {
    RecheckedShape(a, id);
    a.threads[id].state.SplitThrow? || (a.threads[id].state.BufnWait? && Rechecked(a, id).threads[id].state.SplitThrow?)
  }

  lemma {:induction false} BlockLoopMeets(a: Adaptor, id: int)
    requires TP.Valid(a.tracker) && id in a.threads
    ensures var t := a.threads[id]; var r := BlockLoop(a, id);
      && (t.state.Running? || IsAllocating(t.state) ==> r == (a, Done(true)))
      && (t.state.RemoveThrow? ==> r == (Erase(a, id), Threw(Removed)))
      && (t.state.BufnThrow? ==> r == (With(a, id, Told(t, false)), Threw(Exception(t, false))))
      && (ToldToSplit(a, id) ==>
            r.1 == Threw(Exception(t, true)) && id in r.0.threads && r.0.threads[id] == Told(t, true))
      && (IsBlocked(t.state) ==> r == (a, Waits))
      && (t.state.BufnWait? && !ToldToSplit(a, id) ==> r == (Rechecked(a, id), Waits))
  {
    hide CheckForBufn, Settle, Told, Exception, Erase, TP.Valid;
    RecheckedShape(a, id);
    if a.threads[id].state.BufnWait? {
      SettleMeets(Rechecked(a, id), id);
      SameException(a.threads[id], Rechecked(a, id).threads[id]);
    } else {
      SettleMeets(a, id);
    }
  }

  lemma {:induction false} SameException(t: Thread, u: Thread)
    requires u == t.(state := u.state)
    ensures Exception(u, true) == Exception(t, true) && Told(u, true) == Told(t, true)
  {
  }

  /** What the thread comes back to when it wakes. */
  ghost function CallOf(a: Adaptor, act: Action, id: int): Call
    requires Enabled(a, act) && Blocks(act, id)
  {
    match act
    case Wake(_) => a.waiters[id].call
    case Allocate(_, isCpu, _) => ForAlloc(isCpu)
    case _ => UntilReady
  }

  /** Every step in which a thread runs the blocking loop is the loop, then its wait or its allocation. */
  lemma {:induction false} BlockingStep(a: Adaptor, act: Action, id: int)
    requires TP.Valid(a.tracker) && Enabled(a, act) && Blocks(act, id) && id in a.threads
    requires act.Allocate? ==> !IsAllocating(a.threads[id].state)
    requires act.Wake? ==> !IsBlocked(a.threads[id].state)
    ensures var b := a.(waiters := a.waiters - {id}); var r := BlockLoop(b, id); var call := CallOf(a, act, id);
      Step(a, act) ==
        if r.1.Waits? then (Sleep(r.0, id, call), Waits)
        else if r.1.Done? && call.ForAlloc? then EnterAlloc(r.0, id, call.isCpu, true)
        else r
  {
    hide BlockLoop, EnterAlloc, TP.Valid;
    if !act.Wake? {
      assert a.waiters - {id} == a.waiters;
      assert a.(waiters := a.waiters - {id}) == a;
    }
  }

  lemma {:induction false} WaitersDoNotMatter(a: Adaptor, waiters: map<int, Waiter>, id: int)
    requires TP.Valid(a.tracker) && id in a.threads
    ensures var b := a.(waiters := waiters); ToldToSplit(b, id) <==> ToldToSplit(a, id)
    ensures var b := a.(waiters := waiters); Rechecked(b, id).threads == Rechecked(a, id).threads
  {
    CheckByThreads(With(a, id, a.threads[id].(state := Bufn)), waiters);
    hide CheckForBufn, TP.Valid;
  }

  /** A check looks at threads and priorities only. */
  lemma {:induction false} CheckByThreads(a: Adaptor, waiters: map<int, Waiter>)
    requires TP.Valid(a.tracker)
    ensures CheckForBufn(a.(waiters := waiters), None).threads == CheckForBufn(a, None).threads
  {
    hide Deadlocked, AllBufnTest, TP.Valid, BreakBlocked, BreakBufn;
    var b := a.(waiters := waiters);
    BreakBlockedByThreads(a, b);
    BreakBufnByThreads(BreakBlocked(a), BreakBlocked(b));
  }

  lemma {:induction false} AskByThreads(a: Adaptor, b: Adaptor, ids: set<int>)
    requires TP.Valid(a.tracker) && b.threads == a.threads && b.tracker == a.tracker && ids <= a.threads.Keys
    ensures Ask(b, ids).tracker == Ask(a, ids).tracker
  {
  }

  lemma {:induction false} MovesByThreads(a: Adaptor, b: Adaptor, id: int, s: State)
    requires b.threads == a.threads && b.tracker == a.tracker && id in a.threads
    ensures Move(b, id, s).threads == Move(a, id, s).threads && Move(b, id, s).tracker == Move(a, id, s).tracker
    ensures Retry(b, id).threads == Retry(a, id).threads && Retry(b, id).tracker == Retry(a, id).tracker
  {
  }

  lemma {:induction false} BreakBlockedByThreads(a: Adaptor, b: Adaptor)
    requires TP.Valid(a.tracker) && b.threads == a.threads && b.tracker == a.tracker
    ensures BreakBlocked(b).threads == BreakBlocked(a).threads && BreakBlocked(b).tracker == BreakBlocked(a).tracker
  {
    hide TP.Valid, Lowest, AllIssued, IsLowest, Ask, InState, Move, Retry;
    var ids := InState(a.threads, Blocked);
    InStateThreads(a.threads, Blocked);
    AskByThreads(a, b, ids);
    if ids != {} {
      var c, d := Ask(a, ids), Ask(b, ids);
      var id := Lowest(c.threads, c.tracker, ids);
      LowestIsOne(c.threads, c.tracker, ids);
      MovesByThreads(c, d, id, BufnThrow);
    }
  }

  lemma {:induction false} InStateThreads(ts: Threads, s: State)
    ensures InState(ts, s) <= ts.Keys
  {
  }

  lemma {:induction false} LowestIsOne(ts: Threads, tr: TP.Tracker, ids: set<int>)
    requires ids != {} && AllIssued(ts, tr, ids)
    ensures Lowest(ts, tr, ids) in ids && Highest(ts, tr, ids) in ids
  {
  }

  lemma {:induction false} BreakBufnByThreads(a: Adaptor, b: Adaptor)
    requires TP.Valid(a.tracker) && b.threads == a.threads && b.tracker == a.tracker
    ensures BreakBufn(b).threads == BreakBufn(a).threads && BreakBufn(b).tracker == BreakBufn(a).tracker
  {
    hide TP.Valid, Highest, AllIssued, IsHighest, Ask, InState, Move;
    var ids := InState(a.threads, Bufn);
    InStateThreads(a.threads, Bufn);
    AskByThreads(a, b, ids);
    if ids != {} {
      var c, d := Ask(a, ids), Ask(b, ids);
      var id := Highest(c.threads, c.tracker, ids);
      LowestIsOne(c.threads, c.tracker, ids);
      MovesByThreads(c, d, id, SplitThrow);
    }
  }

  lemma {:induction false} NotTold(a: Adaptor, id: int)
    requires TP.Valid(a.tracker) && id in a.threads
    requires !a.threads[id].state.SplitThrow? && !a.threads[id].state.BufnWait?
    ensures !ToldToSplit(a, id)
  {
    hide CheckForBufn, TP.Valid;
    RecheckedShape(a, id);
  }

  lemma {:induction false} IsTold(a: Adaptor, id: int)
    requires TP.Valid(a.tracker) && id in a.threads && a.threads[id].state.SplitThrow?
    ensures ToldToSplit(a, id)
  {
    hide CheckForBufn, TP.Valid;
    RecheckedShape(a, id);
  }

  lemma {:induction false} ExceptionsByState(a: Adaptor, act: Action, id: int)
    requires TP.Valid(a.tracker) && Inv(a) && Enabled(a, act) && Blocks(act, id) && id in a.threads
    ensures var t, o := a.threads[id], Step(a, act).1;
      && (forall k :: o == Threw(RetryOom(k)) <==> t.state.BufnThrow? && t.numTimesRetried < 500 && k == t.isCpuAlloc)
      && (forall k :: o == Threw(SplitAndRetryOom(k)) <==>
            ToldToSplit(a, id) && t.numTimesRetried < 500 && k == t.isCpuAlloc)
      && (o == Threw(RetryLimitExceeded) <==> (t.state.BufnThrow? || ToldToSplit(a, id)) && t.numTimesRetried >= 500)
      && (o == Threw(Removed) <==> t.state.RemoveThrow?)
      && (o == Waits <==> IsBlocked(t.state) || (t.state.BufnWait? && !ToldToSplit(a, id)))
  {
    hide Inv, BlockLoop, TP.Valid, ToldToSplit, Told;
    if act.Wake? && IsBlocked(a.threads[id].state) {
      NotTold(a, id);
    } else if act.Allocate? && IsAllocating(a.threads[id].state) {
      NotTold(a, id);
    } else {
      BlockingStep(a, act, id);
      WaitersDoNotMatter(a, a.waiters - {id}, id);
      BlockLoopMeets(a.(waiters := a.waiters - {id}), id);
      if !a.threads[id].state.SplitThrow? && !a.threads[id].state.BufnWait? {
        NotTold(a, id);
      }
      if a.threads[id].state.SplitThrow? {
        IsTold(a, id);
      }
    }
  }

  /**
   * Of every step in which a thread blocks: a retry exception is thrown exactly to a thread found in
   * BUFN_THROW, a split exception exactly to one told to split, both of the kind of the thread's last
   * allocation, until the 500 retries are used up; the thread waits exactly if it is left BLOCKED or BUFN.
   */
  lemma {:induction false} ExceptionsExactly(a: Adaptor, act: Action, id: int)
    requires Inv(a) && Enabled(a, act) && Blocks(act, id) && id in a.threads
    ensures TP.Valid(a.tracker)
    ensures var t, o := a.threads[id], Step(a, act).1;
      && (forall k :: o == Threw(RetryOom(k)) <==> t.state.BufnThrow? && t.numTimesRetried < 500 && k == t.isCpuAlloc)
      && (forall k :: o == Threw(SplitAndRetryOom(k)) <==>
            ToldToSplit(a, id) && t.numTimesRetried < 500 && k == t.isCpuAlloc)
      && (o == Threw(RetryLimitExceeded) <==> (t.state.BufnThrow? || ToldToSplit(a, id)) && t.numTimesRetried >= 500)
      && (o == Threw(Removed) <==> t.state.RemoveThrow?)
      && (o == Waits <==> IsBlocked(t.state) || (t.state.BufnWait? && !ToldToSplit(a, id)))
  {
    InvValid(a);
    ExceptionsByState(a, act, id);
    hide *;
  }

  /** What such a step leaves: the record of a thread that was told something, or the call of one that waits. */
  lemma {:induction false} BlockingLeaves(a: Adaptor, act: Action, id: int)
    requires Inv(a) && Enabled(a, act) && Blocks(act, id) && id in a.threads
    ensures TP.Valid(a.tracker)
    ensures var t, b := a.threads[id], Step(a, act).0;
      && (t.state.BufnThrow? ==> id in b.threads && b.threads[id] == Told(t, false))
      && (ToldToSplit(a, id) ==> id in b.threads && b.threads[id] == Told(t, true))
      && (Step(a, act).1 == Waits ==> id in b.waiters && b.waiters[id] == Waiter(false, CallOf(a, act, id)))
  {
    InvValid(a);
    hide Inv, BlockLoop, TP.Valid, ToldToSplit, Told;
    if act.Wake? && IsBlocked(a.threads[id].state) {
      NotTold(a, id);
    } else if act.Allocate? && IsAllocating(a.threads[id].state) {
      NotTold(a, id);
    } else {
      BlockingStep(a, act, id);
      WaitersDoNotMatter(a, a.waiters - {id}, id);
      BlockLoopMeets(a.(waiters := a.waiters - {id}), id);
      if !a.threads[id].state.SplitThrow? && !a.threads[id].state.BufnWait? {
        NotTold(a, id);
      }
    }
  }
}
