/**
 * When every allocation fails with out-of-memory, nothing is freed and nobody leaves, the adaptor
 * escalates: retry once, roll back, and finally somebody is told to split its input.
 */
module Escalation {
  import opened Common
  import TP = TaskPriority
  import opened ThreadState
  import opened Deadlock
  import opened AdaptorModel
  import opened Nudge
  import opened AdaptorRuns
  import opened NoStall

  /** The steps of such a phase: blocking allocations that fail, blocking, waking, and the watchdog. */
  ghost predicate Escalating(a: Adaptor, act: Action) {
    match act
    case Allocate(id, _, blocking) => blocking && id in a.threads && !IsAllocating(a.threads[id].state)
    case Fail(id, _, isOom, blocking, _) => isOom && blocking && id in a.threads
    case AwaitReady(_) => true
    case Wake(_) => true
    case Watchdog(_) => true
    case _ => false
  }

  /** Nobody has been told to split or to leave yet. */
  ghost predicate Quiet(a: Adaptor) {
    forall id :: id in a.threads ==> !a.threads[id].state.SplitThrow? && !a.threads[id].state.RemoveThrow?
  }

  /** Somebody is told to split: by its state, or, when it noticed at once, by its counter. */
  ghost predicate SplitSignalled(a: Adaptor, b: Adaptor) {
    exists id :: id in a.threads && id in b.threads &&
      (b.threads[id].state.SplitThrow?
       || b.threads[id].metrics.numSplitRetryThrow > a.threads[id].metrics.numSplitRetryThrow)
  }

  // ---- the rank ----

  ghost function StateRank(t: Thread): nat {
    match t.state
    case AllocFree => if t.isRetryAllocBeforeBufn then 6 else 10
    case Running => if t.isRetryAllocBeforeBufn then 5 else 9
    case Alloc => if t.isRetryAllocBeforeBufn then 4 else 8
    case Blocked => 7
    case BufnThrow => 3
    case BufnWait => 2
    case Bufn => 1
    case _ => 0
  }

  /** Its state, whether it still has to fall asleep or wake up, and its open allocations. */
  ghost function Rank(t: Thread, asleep: bool, depth: nat): nat {
    2 * StateRank(t) + (if IsBlocked(t.state) != asleep then 1 else 0) + depth
  }

  ghost function RankOf(a: Adaptor, id: int): nat
    requires id in a.threads
  {
    Rank(a.threads[id], id in a.waiters, |FramesOf(a, id)|)
  }

  ghost function Total(a: Adaptor, ids: set<int>): nat
    requires ids <= a.threads.Keys
    decreases |ids|
  {
    if ids == {} then 0 else RankOf(a, MinOf(ids)) + Total(a, ids - {MinOf(ids)})
  }

  /** No rank went up, and the rank of every thread whose record changed went down. */
  ghost predicate Descends(a: Adaptor, b: Adaptor) {
    && b.threads.Keys == a.threads.Keys
    && (forall id :: id in a.threads ==> RankOf(b, id) <= RankOf(a, id))
    && (forall id :: id in a.threads && b.threads[id] != a.threads[id] ==> RankOf(b, id) < RankOf(a, id))
  }

  lemma {:induction false} DescentComposes(a: Adaptor, b: Adaptor, c: Adaptor)
    requires Descends(a, b) && Descends(b, c)
    ensures Descends(a, c)
  {
  }

  /** A changed thread table has a smaller total. */
  lemma {:induction false} DescentLowersTotal(a: Adaptor, b: Adaptor)
    requires Descends(a, b)
    ensures Total(b, b.threads.Keys) <= Total(a, a.threads.Keys)
    ensures b.threads != a.threads ==> Total(b, b.threads.Keys) < Total(a, a.threads.Keys)
  {
    TotalDescends(a, b, a.threads.Keys);
    if forall id :: id in a.threads ==> b.threads[id] == a.threads[id] {
      assert b.threads == a.threads;
    }
  }

  lemma {:induction false} TotalDescends(a: Adaptor, b: Adaptor, ids: set<int>)
    requires b.threads.Keys == a.threads.Keys && ids <= a.threads.Keys
    requires forall id :: id in a.threads ==> RankOf(b, id) <= RankOf(a, id)
    ensures Total(b, ids) <= Total(a, ids)
    ensures (exists id :: id in ids && RankOf(b, id) < RankOf(a, id)) ==> Total(b, ids) < Total(a, ids)
    decreases |ids|
  {
    if ids != {} {
      TotalDescends(a, b, ids - {MinOf(ids)});
    }
  }

  lemma {:induction false} TotalBound(a: Adaptor, ids: set<int>, most: nat)
    requires ids <= a.threads.Keys && forall id :: id in ids ==> RankOf(a, id) <= most
    ensures Total(a, ids) <= most * |ids|
    decreases |ids|
  {
    hide RankOf;
    if ids != {} {
      var rest := ids - {MinOf(ids)};
      TotalBound(a, rest, most);
      assert |ids| == |rest| + 1;
      OneMore(most, |rest|);
    }
  }

  lemma {:induction false} OneMore(most: nat, n: nat)
    ensures most * (n + 1) == most * n + most
  {
  }

  // ---- breaking deadlocks descends ----

  /** What breaking a deadlock may do to a thread. */
  ghost predicate BrokenThread(t: Thread, u: Thread) {
    || u == t
    || (t.state.Blocked? && u == t.(state := Running, isRetryAllocBeforeBufn := true))
    || (t.state.Blocked? && u == t.(state := BufnThrow))
    || (t.state.Bufn? && u == t.(state := SplitThrow))
  }

  ghost predicate Broken(a: Adaptor, b: Adaptor) {
    && b.threads.Keys == a.threads.Keys && b.waiters.Keys == a.waiters.Keys && b.inFlight == a.inFlight
    && forall id :: id in a.threads ==> BrokenThread(a.threads[id], b.threads[id])
  }

  lemma {:induction false} CheckBreaks(a: Adaptor, java: JavaBlocked)
    requires TP.Valid(a.tracker)
    ensures Broken(a, CheckForBufn(a, java))
  {
    hide BreakBlocked, BreakBufn;
    BreakBlockedBreaks(a);
    BreakBufnBreaks(BreakBlocked(a));
    BrokenComposes(a, BreakBlocked(a), BreakBufn(BreakBlocked(a)));
    NothingBroken(a);
  }

  lemma {:induction false} NothingBroken(a: Adaptor)
    ensures Broken(a, a)
  {
  }

  lemma {:induction false} BrokenComposes(a: Adaptor, b: Adaptor, c: Adaptor)
    requires Broken(a, b) && Broken(b, c)
    ensures Broken(a, c)
  {
  }

  lemma {:induction false} BreakBlockedBreaks(a: Adaptor)
    requires TP.Valid(a.tracker)
    ensures Broken(a, BreakBlocked(a))
  {
    var ids := InState(a.threads, Blocked);
    var b := Ask(a, ids);
    if ids != {} {
      var id := Lowest(b.threads, b.tracker, ids);
      hide AllIssued, IsLowest, Lowest, TP.Extends, TP.Valid;
      assert a.threads[id].state.Blocked?;
      BlockedBreaks(a, b, id);
    }
  }

  lemma {:induction false} BlockedBreaks(a: Adaptor, b: Adaptor, id: int)
    requires b == a.(tracker := b.tracker) && id in a.threads && a.threads[id].state.Blocked?
    ensures Broken(a, Retry(b, id)) && Broken(a, Move(b, id, BufnThrow))
  {
  }

  lemma {:induction false} BreakBufnBreaks(a: Adaptor)
    requires TP.Valid(a.tracker)
    ensures Broken(a, BreakBufn(a))
  {
  }

  /** A check tells somebody to split, or only lowers ranks. */
  lemma {:induction false} BrokenDescends(a: Adaptor, b: Adaptor)
    requires Inv(a) && Quiet(a) && Broken(a, b)
    ensures SplitSignalled(a, b) || (Quiet(b) && Descends(a, b))
  {
    if Quiet(b) {
      forall id | id in a.threads
        ensures RankOf(b, id) <= RankOf(a, id)
        ensures b.threads[id] != a.threads[id] ==> RankOf(b, id) < RankOf(a, id)
      {
        assert BrokenThread(a.threads[id], b.threads[id]) && ThreadOk(id, a.threads[id]);
        assert FramesOf(b, id) == FramesOf(a, id);
      }
    } else {
      var id :| id in b.threads && (b.threads[id].state.SplitThrow? || b.threads[id].state.RemoveThrow?);
      assert BrokenThread(a.threads[id], b.threads[id]);
    }
  }

  // ---- the steps of the thread itself ----

  /** One thread's record, frames or sleep change; its rank goes down. */
  lemma {:induction false} OwnStepDescends(a: Adaptor, b: Adaptor, id: int)
    requires id in a.threads && b.threads.Keys == a.threads.Keys
    requires forall x :: x in a.threads && x != id ==>
      b.threads[x] == a.threads[x] && FramesOf(b, x) == FramesOf(a, x) && (x in b.waiters <==> x in a.waiters)
    requires RankOf(b, id) < RankOf(a, id)
    ensures Descends(a, b)
  {
  }

  /** Falling asleep when blocked, or throwing, or nothing. */
  lemma {:induction false} SettleOutcome(a: Adaptor, id: int)
    requires Quiet(a)
    ensures var r := Settle(a, id);
      && r.0.waiters == a.waiters && r.0.inFlight == a.inFlight
      && (r.1.Waits? <==> id in a.threads && IsBlocked(a.threads[id].state))
      && (r.1.Waits? || r.1.Done? ==> r.0 == a)
      && (!(id in a.threads && a.threads[id].state.BufnThrow?) ==> r.0 == a)
  {
  }

  lemma {:induction false} SettleDescends(a: Adaptor, id: int)
    requires Inv(a) && Quiet(a) && id !in a.waiters
    ensures var r := Settle(a, id);
      && Quiet(r.0) && Descends(a, r.0) && r.0.waiters == a.waiters && r.0.inFlight == a.inFlight
      && (id in a.threads && a.threads[id].state.BufnThrow? ==> RankOf(r.0, id) < RankOf(a, id))
      && (r.1.Waits? <==> id in a.threads && IsBlocked(a.threads[id].state))
      && (r.1.Waits? || r.1.Done? ==> r.0 == a)
  {
    hide Inv, Settle;
    SettleOutcome(a, id);
    if id in a.threads && a.threads[id].state.BufnThrow? {
      InvAt(a, id);
      SettleShape(a, id);
      OwnStepDescends(a, Settle(a, id).0, id);
    }
  }

  lemma {:induction false} SleepDescends(a: Adaptor, id: int, call: Call)
    requires Quiet(a) && id in a.threads && IsBlocked(a.threads[id].state) && id !in a.waiters
    ensures var b := Sleep(a, id, call); Quiet(b) && Descends(a, b) && RankOf(b, id) < RankOf(a, id)
  {
    OwnStepDescends(a, Sleep(a, id, call), id);
  }

  /** Going to BUFN after a rollback, with the check that follows. */
  lemma {:induction false} EnterBufn(a: Adaptor, id: int)
    requires Inv(a) && Quiet(a) && id !in a.waiters && id in a.threads && a.threads[id].state.BufnWait?
    ensures var b := With(a, id, a.threads[id].(state := Bufn)); var c := CheckForBufn(b, None);
      && Inv(b) && Inv(c) && Broken(b, c) && id in c.threads
      && (c.threads[id].state.Bufn? || c.threads[id].state.SplitThrow?)
      && Descends(a, b) && Quiet(b)
  {
    hide Inv, CheckForBufn, Broken;
    var u := a.threads[id].(state := Bufn);
    var b := With(a, id, u);
    InvAt(a, id);
    InvWith(a, id, u);
    InvCheck(b, None);
    CheckBreaks(b, None);
    CheckOnOwnBufn(b, None, id);
    assert FramesOf(b, id) == FramesOf(a, id);
    OwnStepDescends(a, b, id);
  }

  ghost predicate RollingBack(a: Adaptor, id: int) {
    id in a.threads && (a.threads[id].state.BufnThrow? || a.threads[id].state.BufnWait?)
  }

  /** The blocking loop: somebody is told to split, or ranks go down, or it is done without a change. */
  lemma {:induction false} BlockLoopDescends(a: Adaptor, id: int)
    requires Inv(a) && Quiet(a) && id !in a.waiters
    ensures var r := BlockLoop(a, id);
      SplitSignalled(a, r.0)
      || (&& Quiet(r.0) && Descends(a, r.0) && r.0.waiters.Keys == a.waiters.Keys
          && (r.1.Waits? ==> id in r.0.threads && IsBlocked(r.0.threads[id].state))
          && (r.1.Done? ==> r.0 == a)
          && (RollingBack(a, id) ==> RankOf(r.0, id) < RankOf(a, id)))
  {
    if id in a.threads && a.threads[id].state.BufnWait? {
      EnterBufn(a, id);
      var b := With(a, id, a.threads[id].(state := Bufn));
      var c := CheckForBufn(b, None);
      var r := Settle(c, id);
      if c.threads[id].state.SplitThrow? {
        SplitAtOnce(a, b, c, id);
      } else if Quiet(c) {
        BrokenDescends(b, c);
        if !SplitSignalled(b, c) {
          DescentComposes(a, b, c);
          assert RankOf(b, id) < RankOf(a, id);
        } else {
          SplitNotQuiet(b, c);
        }
      } else {
        OtherSplits(a, b, c, id);
      }
    } else {
      SettleDescends(a, id);
    }
  }

  /** Broken records keep their metrics, so a signal shows in a state. */
  lemma {:induction false} SplitNotQuiet(b: Adaptor, c: Adaptor)
    requires Broken(b, c) && SplitSignalled(b, c)
    ensures !Quiet(c)
  {
    var id :| id in b.threads && id in c.threads &&
      (c.threads[id].state.SplitThrow?
       || c.threads[id].metrics.numSplitRetryThrow > b.threads[id].metrics.numSplitRetryThrow);
    assert BrokenThread(b.threads[id], c.threads[id]);
  }

  lemma {:induction false} SplitIsCounted(c: Adaptor, id: int)
    requires id in c.threads && c.threads[id].state.SplitThrow?
    ensures var b := Settle(c, id).0;
      && id in b.threads
      && b.threads[id].metrics.numSplitRetryThrow == c.threads[id].metrics.numSplitRetryThrow + 1
  {
    hide ThrowOom;
    ThrowIsCounted(With(c, id, c.threads[id].(state := Running)), id);
  }

  lemma {:induction false} ThrowIsCounted(c: Adaptor, id: int)
    requires id in c.threads
    ensures var b := ThrowOom(c, id, true).0;
      && id in b.threads
      && b.threads[id].metrics.numSplitRetryThrow == c.threads[id].metrics.numSplitRetryThrow + 1
  {
  }

  lemma {:induction false} SplitAtOnce(a: Adaptor, b: Adaptor, c: Adaptor, id: int)
    requires id in a.threads && b == With(a, id, a.threads[id].(state := Bufn)) && Broken(b, c)
    requires c.threads[id].state.SplitThrow?
    ensures SplitSignalled(a, Settle(c, id).0)
  {
    SplitIsCounted(c, id);
    hide Settle;
    assert BrokenThread(b.threads[id], c.threads[id]);
    hide BrokenThread;
    assert Settle(c, id).0.threads[id].metrics.numSplitRetryThrow == a.threads[id].metrics.numSplitRetryThrow + 1;
  }

  lemma {:induction false} OtherSplits(a: Adaptor, b: Adaptor, c: Adaptor, id: int)
    requires Quiet(a) && id in a.threads && b == With(a, id, a.threads[id].(state := Bufn)) && Broken(b, c)
    requires c.threads[id].state.Bufn? && !Quiet(c)
    ensures SplitSignalled(a, Settle(c, id).0)
  {
    var x :| x in c.threads && (c.threads[x].state.SplitThrow? || c.threads[x].state.RemoveThrow?);
    assert BrokenThread(b.threads[x], c.threads[x]);
    assert Settle(c, id).0 == c;
    assert x in a.threads && c.threads[x].state.SplitThrow?;
  }

  lemma {:induction false} AwaitDescends(a: Adaptor, id: int)
    requires Inv(a) && Quiet(a) && id !in a.waiters
    ensures var b := BlockUntilReady(a, id).0;
      SplitSignalled(a, b) || (Quiet(b) && Descends(a, b) && (RollingBack(a, id) ==> RankOf(b, id) < RankOf(a, id)))
  {
    BlockLoopDescends(a, id);
    InvBlockLoop(a, id);
    var r := BlockLoop(a, id);
    if r.1.Waits? && !SplitSignalled(a, r.0) {
      SleepDescends(r.0, id, UntilReady);
      DescentComposes(a, r.0, Sleep(r.0, id, UntilReady));
    }
  }

  lemma {:induction false} SameRanks(a: Adaptor, b: Adaptor)
    requires b.threads == a.threads && b.waiters == a.waiters && b.inFlight == a.inFlight
    ensures Descends(a, b)
  {
    assert forall id :: FramesOf(b, id) == FramesOf(a, id);
  }

  lemma {:induction false} BeginLowersRank(a: Adaptor, id: int, isCpu: bool)
    requires Inv(a) && id !in a.waiters && id in a.threads && a.threads[id].state.Running?
    ensures var b := EnterAlloc(a, id, isCpu, true).0; id in b.threads && RankOf(b, id) < RankOf(a, id)
  {
    hide Inv, OrphansOf;
    InvAt(a, id);
    assert FramesOf(EnterAlloc(a, id, isCpu, true).0, id) == [Frame(isCpu, true, false)];
  }

  lemma {:induction false} EnterAllocDescends(a: Adaptor, id: int, isCpu: bool)
    requires Inv(a) && Quiet(a) && id !in a.waiters
    ensures var b := EnterAlloc(a, id, isCpu, true).0;
      Quiet(b) && Descends(a, b) && (id in a.threads && a.threads[id].state.Running? ==> RankOf(b, id) < RankOf(a, id))
  {
    hide Inv, RankOf, OrphansOf;
    if id in a.threads && a.threads[id].state.Running? {
      BeginLowersRank(a, id, isCpu);
      OwnStepDescends(a, EnterAlloc(a, id, isCpu, true).0, id);
    } else {
      SameRanks(a, EnterAlloc(a, id, isCpu, true).0);
    }
  }

  lemma {:induction false} BlockThenAllocDescends(a: Adaptor, id: int, isCpu: bool)
    requires Inv(a) && Quiet(a) && id !in a.waiters
    ensures var b := BlockThenAlloc(a, id, isCpu).0;
      SplitSignalled(a, b)
      || (Quiet(b) && Descends(a, b)
          && (id in a.threads && a.threads[id].state.Running? ==> RankOf(b, id) < RankOf(a, id)))
  {
    InvValid(a);
    hide BlockLoop, OrphansOf, RankOf;
    BlockLoopDescends(a, id);
    InvBlockLoop(a, id);
    var r := BlockLoop(a, id);
    if !SplitSignalled(a, r.0) {
      if r.1.Waits? {
        SleepDescends(r.0, id, ForAlloc(isCpu));
        DescentComposes(a, r.0, Sleep(r.0, id, ForAlloc(isCpu)));
      } else if r.1.Done? {
        EnterAllocDescends(a, id, isCpu);
      }
    } else {
      SignalSurvives(a, r.0, BlockThenAlloc(a, id, isCpu).0);
    }
  }

  /** What follows in the same step neither takes back a split state nor a count. */
  lemma {:induction false} SignalSurvives(a: Adaptor, b: Adaptor, c: Adaptor)
    requires SplitSignalled(a, b)
    requires forall id :: id in b.threads ==> id in c.threads && c.threads[id].metrics == b.threads[id].metrics
    requires forall id :: id in b.threads && b.threads[id].state.SplitThrow? ==> c.threads[id].state.SplitThrow?
    ensures SplitSignalled(a, c)
  {
  }

  lemma {:induction false} WakeDescends(a: Adaptor, id: int)
    requires Inv(a) && Quiet(a) && id in a.waiters
    ensures var b := Resume(a, id).0;
      SplitSignalled(a, b)
      || (Quiet(b) && Descends(a, b)
          && (id in a.threads && !IsBlocked(a.threads[id].state) ==> RankOf(b, id) < RankOf(a, id)))
  {
    if id in a.threads && IsBlocked(a.threads[id].state) {
    } else {
      var c := a.(waiters := a.waiters - {id});
      var b := Resume(a, id).0;
      assert Inv(c) && Quiet(c);
      if id in a.threads {
        OwnStepDescends(a, c, id);
      }
      match a.waiters[id].call {
        case UntilReady => AwaitDescends(c, id);
        case ForAlloc(isCpu) => BlockThenAllocDescends(c, id, isCpu);
      }
      if SplitSignalled(c, b) {
        assert SplitSignalled(a, b);
      } else {
        DescentComposes(a, c, b);
      }
    }
  }

  /** The failed thread, before the check that follows; a refused report only closes its allocation. */
  ghost function Failed(a: Adaptor, id: int, recursive: bool): Adaptor
    requires id in a.threads && (!recursive && Current(a, id) ==> IsAllocating(a.threads[id].state))
  {
    if recursive || !Current(a, id) then Pop(a, id) else RecordFailure(Pop(a, id), id, true, true)
  }

  lemma {:induction false} PopShape(a: Adaptor, id: int)
    requires id in a.threads && Current(a, id)
    ensures |FramesOf(Pop(a, id), id)| == |FramesOf(a, id)| - 1
    ensures forall x :: x != id ==> FramesOf(Pop(a, id), x) == FramesOf(a, x)
  {
  }

  lemma {:induction false} ProperFailureDescends(a: Adaptor, id: int, isCpu: bool)
    requires Inv(a) && Quiet(a) && id !in a.waiters && id in a.threads && Reports(a, id, isCpu, false) && Current(a, id)
    ensures IsAllocating(a.threads[id].state)
    ensures var c := Failed(a, id, false);
      && Inv(c) && Quiet(c) && Descends(a, c) && RankOf(c, id) < RankOf(a, id)
  {
    PopShape(a, id);
    ProperReport(a, id, isCpu);
    var t := AfterFailure(a.threads[id], true, true);
    InvProperFailure(a, id, isCpu, true, true);
    FailureIsOwn(Pop(a, id), id, true, true);
    var c := Failed(a, id, false);
    assert c == With(Pop(a, id), id, t);
    FramesWith(Pop(a, id), id, t);
    assert StateRank(t) < StateRank(a.threads[id]);
    hide Inv, Reports, OrphansOf, OpenFrames, AfterFailure, RecordFailure;
    OwnStepDescends(a, c, id);
  }

  lemma {:induction false} OrphanFailureDescends(a: Adaptor, id: int)
    requires Inv(a) && Quiet(a) && id in a.threads && !Current(a, id)
    ensures Inv(Pop(a, id)) && Quiet(Pop(a, id)) && Descends(a, Pop(a, id)) && Pop(a, id).threads == a.threads
  {
    InvPopOrphan(a, id);
    hide Inv;
    assert forall x :: FramesOf(Pop(a, id), x) == FramesOf(a, x);
  }

  lemma {:induction false} FailedDescends(a: Adaptor, id: int, isCpu: bool, recursive: bool)
    requires Inv(a) && Quiet(a) && id !in a.waiters && id in a.threads && Reports(a, id, isCpu, recursive)
    ensures !recursive && Current(a, id) ==> IsAllocating(a.threads[id].state) && a.threads[id].isCpuAlloc == isCpu
    ensures var c := Failed(a, id, recursive);
      && Inv(c) && Quiet(c) && Descends(a, c) && (Current(a, id) ==> RankOf(c, id) < RankOf(a, id))
  {
    if !Current(a, id) {
      OrphanFailureDescends(a, id);
    } else if recursive {
      PopShape(a, id);
      InvPopRecursive(a, id, isCpu);
      hide Inv, Reports, OrphansOf;
      OwnStepDescends(a, Pop(a, id), id);
    } else {
      ProperReport(a, id, isCpu);
      ProperFailureDescends(a, id, isCpu);
    }
  }

  lemma {:induction false} FailedShape(a: Adaptor, id: int, recursive: bool)
    requires id in a.threads && (!recursive && Current(a, id) ==> IsAllocating(a.threads[id].state))
    ensures forall x :: x in a.threads ==> Failed(a, id, recursive).threads[x].metrics == a.threads[x].metrics
    ensures SameTasks(a.threads, Failed(a, id, recursive).threads)
  {
    hide OrphansOf, FramesOf, Notify;
  }

  lemma {:induction false} FailIsCheck(a: Adaptor, id: int, isCpu: bool, recursive: bool)
    requires Inv(a) && id in a.threads && Reports(a, id, isCpu, recursive)
    requires !recursive && Current(a, id) ==> IsAllocating(a.threads[id].state) && a.threads[id].isCpuAlloc == isCpu
    ensures PostAllocFailed(a, id, isCpu, true, true, recursive).0
         == if recursive || Current(a, id) then CheckForBufn(Failed(a, id, recursive), None)
            else Failed(a, id, recursive)
  {
    if !recursive && !Current(a, id) {
      InvPopOrphan(a, id);
    }
    hide CheckForBufn, Inv, OrphansOf, FramesOf;
  }

  lemma {:induction false} FailDescends(a: Adaptor, id: int, isCpu: bool, recursive: bool)
    requires Inv(a) && Quiet(a) && id !in a.waiters && id in a.threads && Reports(a, id, isCpu, recursive)
    ensures var b := PostAllocFailed(a, id, isCpu, true, true, recursive).0;
      SplitSignalled(a, b) || (Quiet(b) && Descends(a, b) && (Current(a, id) ==> RankOf(b, id) < RankOf(a, id)))
  {
    FailedDescends(a, id, isCpu, recursive);
    FailIsCheck(a, id, isCpu, recursive);
    FailedShape(a, id, recursive);
    hide Inv, Reports, PostAllocFailed, Failed, CheckForBufn, Current, RankOf, SplitSignalled;
    CheckAfterDescent(a, Failed(a, id, recursive), id);
  }

  /** A descent followed by a check. */
  lemma {:induction false} CheckAfterDescent(a: Adaptor, c: Adaptor, id: int)
    requires Inv(c) && Quiet(c) && Descends(a, c) && id in a.threads
    requires forall x :: x in a.threads ==> c.threads[x].metrics == a.threads[x].metrics
    ensures var b := CheckForBufn(c, None);
      || SplitSignalled(a, b)
      || (Quiet(b) && Descends(a, b) && (RankOf(c, id) < RankOf(a, id) ==> RankOf(b, id) < RankOf(a, id)))
  {
    var b := CheckForBufn(c, None);
    CheckBreaks(c, None);
    BrokenDescends(c, b);
    if SplitSignalled(c, b) {
      assert SplitSignalled(a, b);
    } else {
      DescentComposes(a, c, b);
    }
  }

  /** Every step tells somebody to split, or lowers the rank of each thread it changes. */
  lemma {:induction false} EscalatingStepDescends(a: Adaptor, act: Action)
    requires Inv(a) && Quiet(a) && Enabled(a, act) && Escalating(a, act)
    ensures var b := Step(a, act).0; SplitSignalled(a, b) || (Quiet(b) && Descends(a, b))
  {
    match act
    case Allocate(id, isCpu, _) => BlockThenAllocDescends(a, id, isCpu);
    case Fail(id, isCpu, _, _, recursive) => FailDescends(a, id, isCpu, recursive);
    case AwaitReady(id) => AwaitDescends(a, id);
    case Wake(id) => WakeDescends(a, id);
    case Watchdog(javaBlocked) =>
      CheckBreaks(a, Some(javaBlocked));
      BrokenDescends(a, CheckForBufn(a, Some(javaBlocked)));
  }

  /** What a thread that is awake can do next. */
  ghost function NextOf(a: Adaptor, id: int): Action
    requires id in a.threads
  {
    var frames := FramesOf(a, id);
    if id in a.waiters then Wake(id)
    else if a.threads[id].state.Running? then Allocate(id, false, true)
    else if frames != [] then Fail(id, frames[|frames| - 1].isCpu, true, true, frames[|frames| - 1].recursive)
    else AwaitReady(id)
  }

  lemma {:induction false} NextIsEnabled(a: Adaptor, id: int)
    requires Inv(a) && Quiet(a) && id in a.threads && !IsBlocked(a.threads[id].state)
    ensures Enabled(a, NextOf(a, id)) && Escalating(a, NextOf(a, id))
  {
    InvAt(a, id);
    if FramesOf(a, id) != [] {
      TopFrame(a, id);
    }
    hide Inv;
  }

  lemma {:induction false} NextDescends(a: Adaptor, id: int)
    requires Inv(a) && Quiet(a) && id in a.threads && !IsBlocked(a.threads[id].state)
    requires Enabled(a, NextOf(a, id)) && Escalating(a, NextOf(a, id))
    ensures var b := Step(a, NextOf(a, id)).0; SplitSignalled(a, b) || (Descends(a, b) && RankOf(b, id) < RankOf(a, id))
  {
    InvAt(a, id);
    hide Inv, Resume, CheckForBufn, PostAllocFailed, BlockUntilReady, Quiet, Descends, SplitSignalled, RankOf, Settle;
    var frames := FramesOf(a, id);
    if id in a.waiters {
      WakeDescends(a, id);
    } else if a.threads[id].state.Running? {
      BlockThenAllocDescends(a, id, false);
    } else if frames != [] {
      var top := frames[|frames| - 1];
      TopFrame(a, id);
      FailDescends(a, id, top.isCpu, top.recursive);
    } else {
      AwaitDescends(a, id);
    }
  }

  /** Somebody awake can always take a step that lowers the total, or that tells somebody to split. */
  lemma {:induction false} AlwaysProgress(a: Adaptor) returns (act: Action)
    requires Inv(a) && Quiet(a) && !Stalled(a)
    ensures Enabled(a, act) && Escalating(a, act)
    ensures var b := Step(a, act).0;
      SplitSignalled(a, b) || (Descends(a, b) && Total(b, b.threads.Keys) < Total(a, a.threads.Keys))
  {
    var id :| id in a.threads && !IsBlocked(a.threads[id].state);
    act := NextOf(a, id);
    NextIsEnabled(a, id);
    NextDescends(a, id);
    hide Inv, Quiet, Step, NextOf, Enabled, Escalating, SplitSignalled, RankOf, Total;
    var b := Step(a, act).0;
    if !SplitSignalled(a, b) {
      TotalDescends(a, b, a.threads.Keys);
    }
  }

  // ---- whole phases ----

  /** A phase of such steps in which nobody is told to split. */
  ghost predicate QuietPhase(states: seq<Adaptor>, acts: seq<Action>) {
    && IsRun(states, acts) && Inv(states[0]) && Quiet(states[0])
    && forall i :: 0 <= i < |acts| ==>
         Escalating(states[i], acts[i]) && !SplitSignalled(states[i], states[i + 1])
  }

  /** How many of the first k steps changed the record of some thread. */
  ghost function Changes(states: seq<Adaptor>, k: nat): nat
    requires k < |states|
  {
    if k == 0 then 0 else Changes(states, k - 1) + (if states[k].threads != states[k - 1].threads then 1 else 0)
  }

  /** Every change is paid for by the total rank; the other steps cost nothing. */
  lemma {:induction false} PhaseDescends(states: seq<Adaptor>, acts: seq<Action>, k: nat)
    requires QuietPhase(states, acts) && k < |states|
    ensures Inv(states[k]) && Quiet(states[k]) && states[k].threads.Keys == states[0].threads.Keys
    ensures Total(states[k], states[k].threads.Keys) + Changes(states, k) <= Total(states[0], states[0].threads.Keys)
  {
    if k > 0 {
      PhaseDescends(states, acts, k - 1);
      var a, b := states[k - 1], states[k];
      assert b == Step(a, acts[k - 1]).0;
      InvStep(a, acts[k - 1]);
      EscalatingStepDescends(a, acts[k - 1]);
      DescentLowersTotal(a, b);
    }
  }

  /**
   * With n threads and no nested allocations open, thread records change at most 22 n times before
   * somebody is told to split, however many steps are taken; by `PhaseCanContinue` there is always
   * one that brings the split closer.
   */
  lemma {:induction false} BoundedEscalation(states: seq<Adaptor>, acts: seq<Action>)
    requires QuietPhase(states, acts)
    requires forall id :: id in states[0].threads ==> |FramesOf(states[0], id)| <= 1
    ensures Changes(states, |acts|) <= 22 * |states[0].threads|
  {
    var a := states[0];
    TotalBound(a, a.threads.Keys, 22);
    PhaseDescends(states, acts, |acts|);
    assert |a.threads.Keys| == |a.threads|;
  }

  /** Nobody stalls meanwhile: the next step is there after every such phase. */
  lemma {:induction false} PhaseCanContinue(states: seq<Adaptor>, acts: seq<Action>) returns (act: Action)
    requires QuietPhase(states, acts) && !Stalled(states[0]) && Supported(states[0].threads)
    ensures var a := states[|acts|];
      && Inv(a) && Enabled(a, act) && Escalating(a, act)
      && (SplitSignalled(a, Step(a, act).0)
          || Total(Step(a, act).0, Step(a, act).0.threads.Keys) < Total(a, a.threads.Keys))
  {
    PhaseDescends(states, acts, |acts|);
    PhaseStaysAwake(states, acts, |acts|);
    act := AlwaysProgress(states[|acts|]);
  }

  lemma {:induction false} PhaseStaysAwake(states: seq<Adaptor>, acts: seq<Action>, k: nat)
    requires QuietPhase(states, acts) && !Stalled(states[0]) && Supported(states[0].threads) && k < |states|
    ensures !Stalled(states[k]) && SameTasks(states[0].threads, states[k].threads)
  {
    hide Inv, Stalled, Supported, Quiet, Step, Total;
    if k > 0 {
      PhaseStaysAwake(states, acts, k - 1);
      PhaseDescends(states, acts, k - 1);
      PhaseDescends(states, acts, k);
      var a, b := states[k - 1], states[k];
      assert b == Step(a, acts[k - 1]).0;
      EscalatingKeepsTasks(a, acts[k - 1]);
      SameTasksSupported(states[0].threads, b.threads);
      StepNeverStalls(a, acts[k - 1]);
    }
  }

  lemma {:induction false} EscalatingKeepsTasks(a: Adaptor, act: Action)
    requires Inv(a) && Quiet(a) && Enabled(a, act) && Escalating(a, act)
    ensures SameTasks(a.threads, Step(a, act).0.threads)
  {
    match act
    case Allocate(id, isCpu, _) => BlockThenAllocKeepsTasks(a, id, isCpu);
    case Fail(id, isCpu, _, _, recursive) => FailKeepsTasks(a, id, isCpu, recursive);
    case AwaitReady(id) => BlockLoopKeepsTasks(a, id);
    case Wake(id) => WakeKeepsTasks(a, id);
    case Watchdog(javaBlocked) => CheckKeepsTasks(a, Some(javaBlocked));
  }

  lemma {:induction false} FailKeepsTasks(a: Adaptor, id: int, isCpu: bool, recursive: bool)
    requires Inv(a) && Quiet(a) && id !in a.waiters && id in a.threads && Reports(a, id, isCpu, recursive)
    ensures SameTasks(a.threads, PostAllocFailed(a, id, isCpu, true, true, recursive).0.threads)
  {
    hide CheckForBufn, Inv, PostAllocFailed, Failed, Quiet, Descends, Reports, Current;
    FailedDescends(a, id, isCpu, recursive);
    FailIsCheck(a, id, isCpu, recursive);
    FailedShape(a, id, recursive);
    InvValid(Failed(a, id, recursive));
    CheckKeepsTasks(Failed(a, id, recursive), None);
  }

  lemma {:induction false} WakeKeepsTasks(a: Adaptor, id: int)
    requires Inv(a) && Quiet(a) && id in a.waiters
    ensures SameTasks(a.threads, Resume(a, id).0.threads)
  {
    var b := a.(waiters := a.waiters - {id});
    match a.waiters[id].call
    case UntilReady => BlockLoopKeepsTasks(b, id);
    case ForAlloc(isCpu) => BlockThenAllocKeepsTasks(b, id, isCpu);
  }

  lemma {:induction false} BlockThenAllocKeepsTasks(a: Adaptor, id: int, isCpu: bool)
    requires TP.Valid(a.tracker) && Quiet(a)
    ensures SameTasks(a.threads, BlockThenAlloc(a, id, isCpu).0.threads)
  {
    BlockLoopKeepsTasks(a, id);
    EnterAllocShape(BlockLoop(a, id).0, id, isCpu, true);
  }

  lemma {:induction false} SettleKeepsTasks(a: Adaptor, id: int)
    requires id in a.threads && !a.threads[id].state.RemoveThrow?
    ensures SameTasks(a.threads, Settle(a, id).0.threads)
  {
    hide Settle;
    SettleShape(a, id);
  }

  lemma {:induction false} SameTasksCompose(ts: Threads, us: Threads, vs: Threads)
    requires SameTasks(ts, us) && SameTasks(us, vs)
    ensures SameTasks(ts, vs)
  {
  }

  lemma {:induction false} BlockLoopKeepsTasks(a: Adaptor, id: int)
    requires TP.Valid(a.tracker) && Quiet(a)
    ensures SameTasks(a.threads, BlockLoop(a, id).0.threads)
  {
    if id in a.threads {
      if a.threads[id].state.BufnWait? {
        var b := With(a, id, a.threads[id].(state := Bufn));
        assert SameTasks(a.threads, b.threads);
        hide CheckForBufn, Settle, TP.Valid, SameTasks;
        var c := CheckForBufn(b, None);
        CheckKeepsTasks(b, None);
        CheckOnOwnBufn(b, None, id);
        SettleKeepsTasks(c, id);
        SameTasksCompose(a.threads, b.threads, c.threads);
        SameTasksCompose(a.threads, c.threads, Settle(c, id).0.threads);
      } else {
        hide Settle;
        SettleKeepsTasks(a, id);
      }
    }
  }

  /** A step that signals no split leads to another such state, with a smaller total if it descends. */
  lemma {:induction false} QuietStep(a: Adaptor, act: Action)
    requires Inv(a) && Quiet(a) && !Stalled(a) && Supported(a.threads) && Enabled(a, act) && Escalating(a, act)
    requires !SplitSignalled(a, Step(a, act).0)
    ensures var b := Step(a, act).0; Inv(b) && Quiet(b) && !Stalled(b) && Supported(b.threads)
  {
    InvStep(a, act);
    EscalatingStepDescends(a, act);
    EscalatingKeepsTasks(a, act);
    SameTasksSupported(a.threads, Step(a, act).0.threads);
    StepNeverStalls(a, act);
  }

  /** A run of such steps from `a` whose last one tells somebody to split. */
  ghost predicate SplitRun(a: Adaptor, states: seq<Adaptor>, acts: seq<Action>) {
    && IsRun(states, acts) && states[0] == a && |acts| > 0
    && (forall i :: 0 <= i < |acts| ==> Escalating(states[i], acts[i]))
    && SplitSignalled(states[|acts| - 1], states[|acts|])
  }

  lemma {:induction false} SplitRunExtends(a: Adaptor, act: Action, states: seq<Adaptor>, acts: seq<Action>)
    requires TP.Valid(a.tracker) && Enabled(a, act) && Escalating(a, act) && SplitRun(Step(a, act).0, states, acts)
    ensures SplitRun(a, [a] + states, [act] + acts)
  {
    RunExtends(a, act, states, acts);
    var ss, all := [a] + states, [act] + acts;
    forall i | 0 <= i < |all| ensures Escalating(ss[i], all[i]) {
      assert i > 0 ==> ss[i] == states[i - 1] && all[i] == acts[i - 1];
    }
    assert ss[|all| - 1] == states[|acts| - 1] && ss[|all|] == states[|acts|];
  }

  lemma {:induction false} SplitRunOfOne(a: Adaptor, act: Action)
    requires TP.Valid(a.tracker) && Enabled(a, act) && Escalating(a, act) && SplitSignalled(a, Step(a, act).0)
    ensures SplitRun(a, [a, Step(a, act).0], [act])
  {
    assert IsRun([a, Step(a, act).0], [act]);
  }

  /** From any such state somebody can be told to split, within as many steps as the total rank allows. */
  lemma {:induction false} SplitIsReached(a: Adaptor) returns (states: seq<Adaptor>, acts: seq<Action>)
    requires Inv(a) && Quiet(a) && !Stalled(a) && Supported(a.threads)
    ensures SplitRun(a, states, acts) && |acts| <= Total(a, a.threads.Keys) + 1
    decreases Total(a, a.threads.Keys)
  {
    var act := AlwaysProgress(a);
    var b := Step(a, act).0;
    if SplitSignalled(a, b) {
      SplitRunOfOne(a, act);
      states, acts := [a, b], [act];
    } else {
      QuietStep(a, act);
      states, acts := SplitIsReached(b);
      SplitRunExtends(a, act, states, acts);
      states, acts := [a] + states, [act] + acts;
    }
  }

  lemma {:induction false} RunExtends(a: Adaptor, act: Action, states: seq<Adaptor>, acts: seq<Action>)
    requires TP.Valid(a.tracker) && Enabled(a, act) && IsRun(states, acts) && states[0] == Step(a, act).0
    ensures IsRun([a] + states, [act] + acts)
  {
    var ss, all := [a] + states, [act] + acts;
    forall i | 0 <= i < |all|
      ensures TP.Valid(ss[i].tracker) && Enabled(ss[i], all[i]) && ss[i + 1] == Step(ss[i], all[i]).0
    {
      if i > 0 {
        assert ss[i] == states[i - 1] && all[i] == acts[i - 1] && ss[i + 1] == states[i];
      }
    }
  }

  /** Such states are reached: two tasks register a thread each. */
  lemma {:induction false} TwoTasksAreReady() returns (states: seq<Adaptor>, acts: seq<Action>)
    ensures IsRun(states, acts) && |states| == 3 && states[0] == EMPTY
    ensures var a := states[2];
      a.threads.Keys == {1, 2} && Inv(a) && Quiet(a) && !Stalled(a) && Supported(a.threads)
  {
    var first, second := Register(1, 10), Register(2, 20);
    InvEmpty();
    var a := Step(EMPTY, first).0;
    InvStep(EMPTY, first);
    var b := Step(a, second).0;
    InvStep(a, second);
    assert a.threads == map[1 := NewThread(10, false)];
    assert b.threads == map[1 := NewThread(10, false), 2 := NewThread(20, false)];
    assert TP.Valid(EMPTY.tracker) && TP.Valid(a.tracker);
    hide Inv, StartDedicated;
    states, acts := [EMPTY, a, b], [first, second];
    assert DedicatedTo(b.threads, 1, 10) && 10 in TaskIds(b.threads);
  }
}
