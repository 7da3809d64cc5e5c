/**
 * What one thread may do to another: everything the waking and deadlock-breaking code does to the
 * thread table is such a nudge.
 */
module Nudge {
  import TP = TaskPriority
  import opened ThreadState
  import opened Deadlock
  import opened AdaptorModel

  /** State changes made on a thread's behalf; the retry flag may only come with Blocked -> Running. */
  ghost predicate NudgedThread(t: Thread, u: Thread) {
    var sameFlag := u.isRetryAllocBeforeBufn == t.isRetryAllocBeforeBufn;
    || u == t
    || (&& u == t.(state := u.state, isRetryAllocBeforeBufn := u.isRetryAllocBeforeBufn)
        && match t.state
           case Blocked => u.state.Running? || (u.state.BufnThrow? && sameFlag)
           case Bufn => (u.state.Running? || u.state.SplitThrow?) && sameFlag
           case BufnThrow => u.state.Running? && sameFlag
           case BufnWait => u.state.Running? && sameFlag
           case _ => false)
  }

  /** Only states and flags change, and whoever is changed and asleep has a notification pending. */
  ghost predicate Nudged(a: Adaptor, b: Adaptor) {
    && b == a.(threads := b.threads, waiters := b.waiters, tracker := b.tracker)
    && TP.Valid(b.tracker)
    && b.threads.Keys == a.threads.Keys
    && b.waiters.Keys == a.waiters.Keys
    && (forall id :: id in a.threads ==> NudgedThread(a.threads[id], b.threads[id]))
    && (forall id :: id in a.waiters ==> b.waiters[id].call == a.waiters[id].call)
    && (forall id :: id in a.waiters && a.waiters[id].notified ==> b.waiters[id].notified)
    && (forall id :: id in a.waiters && id in a.threads && a.threads[id] != b.threads[id] ==> b.waiters[id].notified)
  }

  lemma {:induction false} NudgedTransitive(a: Adaptor, b: Adaptor, c: Adaptor)
    requires Nudged(a, b) && Nudged(b, c)
    ensures Nudged(a, c)
  {
    forall id | id in a.threads
      ensures NudgedThread(a.threads[id], c.threads[id])
      ensures id in a.waiters && a.threads[id] != c.threads[id] ==> c.waiters[id].notified
    {
      assert NudgedThread(a.threads[id], b.threads[id]) && NudgedThread(b.threads[id], c.threads[id]);
    }
  }

  lemma {:induction false} MoveNudges(a: Adaptor, b: Adaptor, id: int, s: State)
    requires TP.Valid(b.tracker) && b == a.(tracker := b.tracker)
    requires id in a.threads && NudgedThread(a.threads[id], a.threads[id].(state := s))
    ensures Nudged(a, Move(b, id, s))
  {
  }

  lemma {:induction false} WakeNextNudges(a: Adaptor, isCpu: bool)
    requires TP.Valid(a.tracker)
    ensures Nudged(a, WakeNext(a, isCpu))
  {
    var ids := BlockedFor(a.threads, isCpu);
    var b := Ask(a, ids);
    if ids != {} {
      MoveNudges(a, b, Highest(b.threads, b.tracker, ids), Running);
    }
  }

  lemma {:induction false} RetryNudges(a: Adaptor, b: Adaptor, id: int)
    requires TP.Valid(b.tracker) && b == a.(tracker := b.tracker)
    requires id in a.threads && a.threads[id].state.Blocked?
    ensures Nudged(a, Retry(b, id))
  {
  }

  lemma {:induction false} BreakBlockedNudges(a: Adaptor)
    requires TP.Valid(a.tracker)
    ensures Nudged(a, BreakBlocked(a))
    ensures InState(a.threads, Blocked) != {} ==>
      exists id :: id in InState(a.threads, Blocked) && !IsBlocked(BreakBlocked(a).threads[id].state)
    ensures InState(BreakBlocked(a).threads, Bufn) == InState(a.threads, Bufn)
  {
    var ids := InState(a.threads, Blocked);
    var b := Ask(a, ids);
    if ids != {} {
      var id := Lowest(b.threads, b.tracker, ids);
      hide AllIssued, IsLowest, TP.Extends;
      assert id in ids;
      BlockedMovesOn(a, b, id);
    }
  }

  lemma {:induction false} BlockedMovesOn(a: Adaptor, b: Adaptor, id: int)
    requires TP.Valid(b.tracker) && b == a.(tracker := b.tracker) && id in InState(a.threads, Blocked)
    ensures Nudged(a, Retry(b, id)) && !IsBlocked(Retry(b, id).threads[id].state)
    ensures Nudged(a, Move(b, id, BufnThrow)) && !IsBlocked(Move(b, id, BufnThrow).threads[id].state)
    ensures InState(Retry(b, id).threads, Bufn) == InState(a.threads, Bufn)
    ensures InState(Move(b, id, BufnThrow).threads, Bufn) == InState(a.threads, Bufn)
  {
    RetryNudges(a, b, id);
    MoveNudges(a, b, id, BufnThrow);
    hide Nudged, Notify, TP.Valid;
  }

  lemma {:induction false} BreakBufnNudges(a: Adaptor)
    requires TP.Valid(a.tracker)
    ensures Nudged(a, BreakBufn(a))
    ensures InState(a.threads, Bufn) != {} ==>
      exists id :: id in InState(a.threads, Bufn) && BreakBufn(a).threads[id].state.SplitThrow?
    ensures forall id :: id in InState(a.threads, Bufn) ==>
      BreakBufn(a).threads[id].state.Bufn? || BreakBufn(a).threads[id].state.SplitThrow?
  {
    var ids := InState(a.threads, Bufn);
    var b := Ask(a, ids);
    if ids != {} {
      MoveNudges(a, b, Highest(b.threads, b.tracker, ids), SplitThrow);
    }
  }

  lemma {:induction false} CheckNudges(a: Adaptor, java: JavaBlocked)
    requires TP.Valid(a.tracker)
    ensures Nudged(a, CheckForBufn(a, java))
  {
    BreakBlockedNudges(a);
    BreakBufnNudges(BreakBlocked(a));
    NudgedTransitive(a, BreakBlocked(a), BreakBufn(BreakBlocked(a)));
  }

  lemma {:induction false} WakeAfterTaskFinishesNudges(a: Adaptor)
    requires TP.Valid(a.tracker)
    ensures Nudged(a, WakeAfterTaskFinishes(a))
  {
    hide TP.Valid, IsBlocked;
  }

  /** Breaking a deadlock sends a thread that is BUFN nowhere but to split. */
  lemma {:induction false} CheckOnOwnBufn(a: Adaptor, java: JavaBlocked, id: int)
    requires TP.Valid(a.tracker) && id in a.threads && a.threads[id].state.Bufn?
    ensures var b := CheckForBufn(a, java);
      id in b.threads && (b.threads[id].state.Bufn? || b.threads[id].state.SplitThrow?)
  {
    BreakBlockedNudges(a);
    assert id in InState(BreakBlocked(a).threads, Bufn);
    BreakBufnNudges(BreakBlocked(a));
  }
}
