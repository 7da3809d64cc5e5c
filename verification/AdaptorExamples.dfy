/** Runs from the empty adaptor into the situations that the other modules speak about. */
module AdaptorExamples {
  import opened Common
  import TP = TaskPriority
  import opened ThreadState
  import opened Deadlock
  import opened AdaptorModel
  import opened Nudge
  import opened AdaptorRuns
  import opened NoStall
  import opened Escalation

  /** The steps `acts` lead from the empty adaptor to `a`. */
  ghost predicate Reached(acts: seq<Action>, a: Adaptor) {
    exists states :: IsRun(states, acts) && states[0] == EMPTY && states[|acts|] == a
  }

  lemma {:induction false} ReachedEmpty()
    ensures Reached([], EMPTY) && Inv(EMPTY)
  {
    InvEmpty();
    assert IsRun([EMPTY], []);
  }

  lemma {:induction false} RunAppends(states: seq<Adaptor>, acts: seq<Action>, act: Action)
    requires IsRun(states, acts) && TP.Valid(states[|acts|].tracker) && Enabled(states[|acts|], act)
    ensures IsRun(states + [Step(states[|acts|], act).0], acts + [act])
  {
    hide TP.Valid, Enabled, Step;
    var more, all := states + [Step(states[|acts|], act).0], acts + [act];
    forall i | 0 <= i < |all|
      ensures TP.Valid(more[i].tracker) && Enabled(more[i], all[i]) && more[i + 1] == Step(more[i], all[i]).0
    {
      if i < |acts| {
        assert more[i] == states[i] && more[i + 1] == states[i + 1] && all[i] == acts[i];
      }
    }
  }

  /** One step more. */
  lemma {:induction false} Next(acts: seq<Action>, a: Adaptor, act: Action) returns (b: Adaptor)
    requires Reached(acts, a) && Inv(a) && Enabled(a, act)
    ensures b == Step(a, act).0 && Reached(acts + [act], b) && Inv(b)
  {
    InvValid(a);
    hide Inv, Step, Enabled, TP.Valid;
    b := Step(a, act).0;
    InvStep(a, act);
    var states :| IsRun(states, acts) && states[0] == EMPTY && states[|acts|] == a;
    RunAppends(states, acts, act);
    hide IsRun;
    assert (states + [b])[0] == EMPTY && (states + [b])[|acts + [act]|] == b;
  }

  /** Thread `id` has begun a blocking GPU allocation. */
  ghost function Begun(a: Adaptor, id: int): Adaptor
    requires id in a.threads
  {
    Push(With(a, id, a.threads[id].(state := Alloc, isCpuAlloc := false)), id, Frame(false, true, false))
  }

  lemma {:induction false} BeginStep(a: Adaptor, id: int)
    requires TP.Valid(a.tracker) && id !in a.waiters && id in a.threads && a.threads[id].state.Running?
    ensures Step(a, Allocate(id, false, true)) == (Begun(a, id), Done(false))
    ensures FramesOf(a, id) == [] ==> OpenFrames(Begun(a, id), id) == OrphansOf(a, id) + [Frame(false, true, false)]
  {
    hide FramesOf, OrphansOf, CheckForBufn;
    FramesPushed(With(a, id, a.threads[id].(state := Alloc, isCpuAlloc := false)), id, Frame(false, true, false));
    FramesWith(a, id, a.threads[id].(state := Alloc, isCpuAlloc := false));
  }

  lemma {:induction false} FramesPushed(a: Adaptor, id: int, f: Frame)
    ensures FramesOf(Push(a, id, f), id) == FramesOf(a, id) + [f]
    ensures OrphansOf(Push(a, id, f), id) == OrphansOf(a, id)
  {
  }

  // ---- reports on allocations from before the registration ----

  const FAILS := Fail(1, false, true, true, false)

  lemma {:induction false} FirstRegisters(a: Adaptor, task: int)
    requires a.threads == map[] && task >= 0
    ensures var b := StartDedicated(a, 1, task).0;
      && b.threads == map[1 := NewThread(task, false)] && b.waiters == a.waiters
      && FramesOf(b, 1) == FramesOf(a, 1) && OrphansOf(b, 1) == OrphansOf(a, 1)
  {
  }

  /** A registration with an allocation still open does not get that allocation's failure accepted. */
  lemma {:induction false} LateReport(a: Adaptor, task: int)
    requires Inv(a) && a.threads == map[] && task >= 0 && 1 !in a.waiters
    requires OpenFrames(a, 1) == [Frame(false, true, false)]
    ensures var b := StartDedicated(a, 1, task).0;
      TP.Valid(b.tracker) && Enabled(b, FAILS) && Step(b, FAILS).1 == Threw(InternalError)
  {
    FirstRegisters(a, task);
    InvRegister(a, 1, task);
    var b := StartDedicated(a, 1, task).0;
    InvValid(b);
    assert OpenFrames(b, 1) == OpenFrames(a, 1);
    hide Inv, StartDedicated, OpenFrames, CheckForBufn;
  }

  /** A thread begins an allocation, is registered, and reports its failure: refused. */
  lemma {:induction false} BegunUnregistered() returns (a: Adaptor)
    ensures Reached([Allocate(1, false, true), Register(1, 10)], a) && Inv(a)
    ensures Enabled(a, FAILS) && Step(a, FAILS).1 == Threw(InternalError)
  {
    var acts := [Allocate(1, false, true), Register(1, 10)];
    ReachedEmpty();
    assert [] + [acts[0]] == acts[..1] && acts[..1] + [acts[1]] == acts;
    var b := Next([], EMPTY, acts[0]);
    assert OpenFrames(b, 1) == [Frame(false, true, false)];
    hide Inv, Reached, StartDedicated, PostAllocFailed, PreAlloc, OpenFrames;
    a := Next(acts[..1], b, acts[1]);
    LateReport(b, 10);
  }

  const BEGINS := [Register(1, 10), Allocate(1, false, true)]

  lemma {:induction false} FirstBegins() returns (c: Adaptor)
    ensures Reached(BEGINS, c) && Inv(c)
    ensures c.threads == map[1 := NewThread(10, false).(state := Alloc)] && c.waiters == map[]
    ensures OpenFrames(c, 1) == [Frame(false, true, false)]
  {
    var acts := [Register(1, 10), Allocate(1, false, true)];
    ReachedEmpty();
    assert [] + [acts[0]] == acts[..1] && acts[..1] + [acts[1]] == acts;
    FirstRegisters(EMPTY, 10);
    assert FramesOf(EMPTY, 1) == [] && OrphansOf(EMPTY, 1) == [];
    hide Inv, Reached, StartDedicated, PreAlloc, OpenFrames, FramesOf, OrphansOf;
    var b := Next([], EMPTY, acts[0]);
    InvValid(b);
    BeginStep(b, 1);
    c := Next(acts[..1], b, acts[1]);
  }

  lemma {:induction false} FirstLeaves() returns (d: Adaptor)
    ensures Reached(BEGINS + [Deregister(1, 10)], d) && Inv(d)
    ensures d.threads == map[] && d.waiters == map[] && OpenFrames(d, 1) == [Frame(false, true, false)]
  {
    hide Inv, Reached, RemoveThread, OpenFrames;
    var c := FirstBegins();
    InvValid(c);
    LeavesBehind(c);
    d := Next(BEGINS, c, Deregister(1, 10));
  }

  /** A thread begins an allocation, moves from one task to another, and reports its failure: refused. */
  lemma {:induction false} BegunEarlier() returns (a: Adaptor)
    ensures Reached(BEGINS + [Deregister(1, 10)] + [Register(1, 11)], a) && Inv(a)
    ensures Enabled(a, FAILS) && Step(a, FAILS).1 == Threw(InternalError)
  {
    hide Inv, Reached, StartDedicated, PostAllocFailed, OpenFrames;
    var d := FirstLeaves();
    a := Next(BEGINS + [Deregister(1, 10)], d, Register(1, 11));
    LateReport(d, 11);
  }

  lemma {:induction false} LeavesBehind(c: Adaptor)
    requires c.threads == map[1 := NewThread(10, false).(state := Alloc)]
    requires c.waiters == map[] && TP.Valid(c.tracker)
    ensures var d := RemoveThread(c, 1, 10); d.threads == map[] && d.waiters == map[]
    ensures OpenFrames(RemoveThread(c, 1, 10), 1) == OpenFrames(c, 1)
  {
    RemoveAssociationShape(c, 1, 10);
    var t := Trimmed(c, 1, 10);
    assert t.threads == c.threads && OpenFrames(t, 1) == OpenFrames(c, 1);
  }

  // ---- two threads run out of memory ----

  /** It fails for lack of memory, before the check that follows. */
  ghost function FailedOnce(a: Adaptor, id: int): Adaptor
    requires id in a.threads
  {
    With(Pop(Begun(a, id), id), id, a.threads[id].(state := Blocked, isCpuAlloc := false))
  }

  ghost function Attempt(id: int): seq<Action> {
    [Allocate(id, false, true), Fail(id, false, true, true, false)]
  }

  lemma {:induction false} FailStep(a: Adaptor, id: int)
    requires TP.Valid(a.tracker) && id in a.threads && id !in a.waiters
    requires a.threads[id].state.Running? && !a.threads[id].isRetryAllocBeforeBufn
    ensures var b := Begun(a, id);
      && PostAllocFailed(b, id, false, true, true, false).0 == CheckForBufn(FailedOnce(a, id), None)
      && RecordFailure(Pop(b, id), id, true, true) == FailedOnce(a, id)
  {
    hide OrphansOf, CheckForBufn, TP.Valid;
    FailureIsOwn(Pop(Begun(a, id), id), id, true, true);
  }

  lemma {:induction false} FailIsEnabled(a: Adaptor, id: int)
    requires id in a.threads && id !in a.waiters && Inv(a) && Inv(Begun(a, id)) && a.threads[id].state.Running?
    ensures var b := Begun(a, id); Reports(b, id, false, false) && Current(b, id)
  {
    hide Inv;
    InvAt(a, id);
    InvValid(a);
    BeginStep(a, id);
    InvAt(Begun(a, id), id);
  }

  lemma {:induction false} FailedOnceInv(a: Adaptor, id: int)
    requires id in a.threads && id !in a.waiters && Inv(a) && Inv(Begun(a, id))
    requires a.threads[id].state.Running? && !a.threads[id].isRetryAllocBeforeBufn
    ensures Inv(FailedOnce(a, id))
  {
    hide Inv, Reports, Current;
    InvValid(a);
    FailIsEnabled(a, id);
    InvProperFailure(Begun(a, id), id, false, true, true);
    FailStep(a, id);
    hide Begun, FailedOnce, RecordFailure, Pop;
  }

  lemma {:induction false} AttemptBlocks(acts: seq<Action>, a: Adaptor, id: int)
    requires Reached(acts, a) && Inv(a) && id !in a.waiters && id in a.threads
    requires a.threads[id].state.Running? && !a.threads[id].isRetryAllocBeforeBufn
    ensures Inv(FailedOnce(a, id)) && Reached(acts + Attempt(id), CheckForBufn(FailedOnce(a, id), None))
  {
    hide Inv, Reached, PreAlloc, PostAllocFailed, CheckForBufn, FailedOnce, Reports, TP.Valid;
    InvValid(a);
    BeginStep(a, id);
    var b := Next(acts, a, Allocate(id, false, true));
    FailIsEnabled(a, id);
    FailStep(a, id);
    FailedOnceInv(a, id);
    var c := Next(acts + [Allocate(id, false, true)], b, Fail(id, false, true, true, false));
    assert acts + [Allocate(id, false, true)] + [Fail(id, false, true, true, false)] == acts + Attempt(id);
  }

  /** Thread 10 of task 1, and another one. */
  ghost predicate Two(a: Adaptor, t: Thread, u: Thread) {
    a.threads == map[10 := t, 11 := u] && a.waiters == map[]
  }

  const FIRST := NewThread(1, false)

  /** A new thread whose work is for task 2, dedicated to it or from a pool. */
  ghost predicate IsSecond(u: Thread) {
    u.(poolTaskIds := {}) == NewThread(u.taskId, false) && PriorityKey(u) == 2
  }

  lemma {:induction false} FirstIsDedicated(ts: Threads)
    requires 10 in ts && ts[10].taskId == 1
    ensures 1 in TaskIds(ts)
  {
  }

  /** As long as thread 10 runs there is no deadlock. */
  lemma {:induction false} NoDeadlockYet(ts: Threads)
    requires ts.Keys == {10, 11} && ts[10] == FIRST && PriorityKey(ts[11]) == 2
    ensures !Deadlocked(ts, None)
  {
    FirstIsDedicated(ts);
    assert !TaskBlocked(ts, 1, None);
  }

  lemma {:induction false} SecondFails(acts: seq<Action>, a: Adaptor, u: Thread) returns (b: Adaptor)
    requires Reached(acts, a) && Inv(a) && Two(a, FIRST, u) && IsSecond(u)
    ensures Reached(acts + Attempt(11), b) && Inv(b) && Two(b, FIRST, u.(state := Blocked)) && b.tracker == a.tracker
  {
    hide Inv, Reached;
    AttemptBlocks(acts, a, 11);
    b := FailedOnce(a, 11);
    InvValid(b);
    NoDeadlockYet(b.threads);
  }

  /** The priorities are asked for in the order of the thread ids. */
  lemma {:induction false} SecondIsLowest(ts: Threads)
    requires ts.Keys == {10, 11} && PriorityKey(ts[10]) == 1 && PriorityKey(ts[11]) == 2
    ensures var tr := IssueAll(ts, TP.FRESH, {10, 11}); AllIssued(ts, tr, {10, 11}) && Lowest(ts, tr, {10, 11}) == 11
  {
    IssueAllIssues(ts, TP.FRESH, {10, 11});
    assert MinOf({10, 11}) == 10 && {10, 11} - {10} == {11};
    assert MinOf({11}) == 11 && {11} - {11} == {};
    var tr := TP.Issue(TP.Issue(TP.FRESH, 1), 2);
    assert IssueAll(ts, TP.FRESH, {10, 11}) == tr;
    assert IsLowest(ts, tr, {10, 11}, 11);
    ExtremesUnique(ts, tr, {10, 11}, 11, Lowest(ts, tr, {10, 11}));
  }

  lemma {:induction false} NobodyIsBufn(ts: Threads)
    requires TaskIds(ts) != {} && forall id :: id in ts ==> !BufnOrAbove(id, ts[id], None)
    ensures !AllBufnTest(ts, None)
  {
    hide TaskIds, PoolTasks, BufnOrAbove, BufnIds;
    forall task ensures task !in BufnIds(ts, None) {
      BufnIdsExact(ts, None, task);
      if Workers(ts, task) != {} {
        var id := Member(Workers(ts, task));
      }
    }
    assert BufnIds(ts, None) == {};
    var task := Member(TaskIds(ts));
  }

  lemma {:induction false} MoveSecond(a: Adaptor, t: Thread, u: Thread, s: State)
    requires Two(a, t, u)
    ensures Two(Move(a, 11, s), t, u.(state := s))
  {
  }

  lemma {:induction false} SecondIsSentBack(a: Adaptor, u: Thread)
    requires Two(a, FIRST.(state := Blocked), u.(state := Blocked)) && PriorityKey(u) == 2 && a.tracker == TP.FRESH
    ensures TP.Valid(a.tracker) && Two(BreakBlocked(a), FIRST.(state := Blocked), u.(state := BufnThrow))
  {
    SecondIsLowest(a.threads);
    assert InState(a.threads, Blocked) == {10, 11} && |{10, 11}| == 2;
    var b := Ask(a, {10, 11});
    hide PriorityKey, AllIssued, IssueAll, Lowest, InState, TP.Extends, TP.Valid;
    assert BreakBlocked(a) == Move(b, 11, BufnThrow);
    hide BreakBlocked, Ask, Move, Notify, With;
    MoveSecond(b, FIRST.(state := Blocked), u.(state := Blocked), BufnThrow);
  }

  /** Both are blocked: a deadlock, and the second thread is sent back. */
  lemma {:induction false} BothBlocked(a: Adaptor, u: Thread)
    requires Two(a, FIRST.(state := Blocked), u.(state := Blocked)) && IsSecond(u) && a.tracker == TP.FRESH
    ensures TP.Valid(a.tracker)
    ensures Two(CheckForBufn(a, None), FIRST.(state := Blocked), u.(state := BufnThrow))
  {
    FirstIsDedicated(a.threads);
    StalledIsDeadlocked(a, None);
    hide AllBufnTest, Deadlocked, TaskIds, PriorityKey, BreakBlocked;
    NobodyIsBufn(a.threads);
    SecondIsSentBack(a, u);
  }

  lemma {:induction false} FirstFails(acts: seq<Action>, a: Adaptor, u: Thread) returns (b: Adaptor)
    requires Reached(acts, a) && Inv(a) && Two(a, FIRST, u.(state := Blocked)) && IsSecond(u) && a.tracker == TP.FRESH
    ensures Reached(acts + Attempt(10), b) && Inv(b) && Two(b, FIRST.(state := Blocked), u.(state := BufnThrow))
  {
    hide Inv, Reached, IsSecond, CheckForBufn;
    AttemptBlocks(acts, a, 10);
    var c := FailedOnce(a, 10);
    BothBlocked(c, u);
    InvCheck(c, None);
    b := CheckForBufn(c, None);
  }

  /** The second thread has been told to retry once. */
  ghost function Retried(u: Thread): Thread {
    u.(numTimesRetried := 1, metrics := NO_METRICS.(numRetryThrow := 1))
  }

  lemma {:induction false} RollsBack(a: Adaptor, u: Thread)
    requires TP.Valid(a.tracker) && Two(a, FIRST.(state := Blocked), u.(state := BufnThrow)) && IsSecond(u)
    ensures var r := BlockLoop(a, 11);
      r.1 == Threw(RetryOom(false)) && Two(r.0, FIRST.(state := Blocked), Retried(u).(state := BufnWait))
  {
  }

  /** How it comes to two threads of which one has been sent back. */
  ghost function ContendingFrom(acts: seq<Action>): seq<Action> {
    acts + Attempt(11) + Attempt(10) + [Allocate(11, false, true)]
  }

  lemma {:induction false} Contending(acts: seq<Action>, a: Adaptor, u: Thread) returns (b: Adaptor)
    requires Reached(acts, a) && Inv(a) && Two(a, FIRST, u) && IsSecond(u) && a.tracker == TP.FRESH
    ensures Reached(ContendingFrom(acts), b) && Inv(b)
    ensures Two(b, FIRST.(state := Blocked), Retried(u).(state := BufnWait))
  {
    hide Inv, Reached, IsSecond, BlockLoop;
    var c := SecondFails(acts, a, u);
    var d := FirstFails(acts + Attempt(11), c, u);
    InvValid(d);
    RollsBack(d, u);
    b := Next(acts + Attempt(11) + Attempt(10), d, Allocate(11, false, true));
  }

  lemma {:induction false} FirstStarts() returns (a: Adaptor)
    ensures Reached([Register(10, 1)], a) && Inv(a)
    ensures a.threads == map[10 := FIRST] && a.waiters == map[] && a.tracker == TP.FRESH
  {
    ReachedEmpty();
    a := Next([], EMPTY, Register(10, 1));
    assert [] + [Register(10, 1)] == [Register(10, 1)];
    hide Inv, IsRun;
  }

  /** The first thread, alone among the blocked, gets one more try. */
  lemma {:induction false} FirstRetries(a: Adaptor, u: Thread)
    requires TP.Valid(a.tracker) && Two(a, FIRST.(state := Blocked), u) && u.state.Bufn?
    ensures Two(BreakBlocked(a), FIRST.(isRetryAllocBeforeBufn := true), u)
  {
    assert InState(a.threads, Blocked) == {10} && |{10}| == 1;
    var b := Ask(a, {10});
    hide InState, TP.Extends, TP.Valid, AllIssued;
    assert Lowest(b.threads, b.tracker, {10}) in {10};
    assert BreakBlocked(a) == Retry(b, 10);
    hide BreakBlocked, Ask, Lowest;
  }

  lemma {:induction false} SecondSplits(a: Adaptor, t: Thread, u: Thread)
    requires TP.Valid(a.tracker) && Two(a, t, u) && u.state.Bufn? && !t.state.Bufn?
    ensures Two(BreakBufn(a), t, u.(state := SplitThrow))
  {
    assert InState(a.threads, Bufn) == {11};
    var b := Ask(a, {11});
    hide InState, TP.Extends, TP.Valid, AllIssued;
    assert Highest(b.threads, b.tracker, {11}) in {11};
    assert BreakBufn(a) == Move(b, 11, SplitThrow);
    hide BreakBufn, Ask, Highest, Move;
    MoveSecond(b, t, u, SplitThrow);
  }

  // ---- the size test misfires ----

  const STRAY := NewThread(-1, false).(poolTaskIds := {2})

  lemma {:induction false} JoinsPool(a: Adaptor)
    requires a.threads == map[10 := FIRST] && a.waiters == map[]
    ensures var b := PoolWorking(a, false, 11, {2}).0; Two(b, FIRST, STRAY) && b.tracker == a.tracker
  {
    hide AddToEach;
    var b := With(a, 11, NewThread(-1, false));
    assert NewThread(-1, false).poolTaskIds + {2} == {2};
    assert CheckpointMetrics(b, 11).threads == b.threads;
  }

  lemma {:induction false} StrayJoins() returns (a: Adaptor)
    ensures Reached([Register(10, 1)] + [JoinPool(false, 11, {2})], a) && Inv(a)
    ensures Two(a, FIRST, STRAY) && a.tracker == TP.FRESH
  {
    hide Inv, Reached, PoolWorking;
    var b := FirstStarts();
    JoinsPool(b);
    a := Next([Register(10, 1)], b, JoinPool(false, 11, {2}));
  }

  /** The state the check looks at when thread 11 goes to BUFN. */
  ghost function InBufn(a: Adaptor): Adaptor
    requires 11 in a.threads
  {
    With(a, 11, a.threads[11].(state := Bufn))
  }

  lemma {:induction false} IsStray(a: Adaptor, u: Thread)
    requires Two(a, FIRST.(state := Blocked), u)
    ensures StrayPool(a.threads, Blocked) <==> IsPool(u) && u.poolTaskIds == {2} && u.state.Bufn?
  {
    assert a.threads[10] == FIRST.(state := Blocked) && a.threads[11] == u;
  }

  lemma {:induction false} MisfiringCheck(a: Adaptor, u: Thread)
    requires TP.Valid(a.tracker) && Two(a, FIRST.(state := Blocked), u) && StrayPool(a.threads, Blocked)
    ensures Two(CheckForBufn(a, None), FIRST.(isRetryAllocBeforeBufn := true), u.(state := SplitThrow))
  {
    AllBufnTestCanMisfire(a.threads, Blocked);
    hide Deadlocked, AllBufnTest, EveryTaskBufn, BreakBlocked, BreakBufn, StrayPool;
    assert u.state.Bufn? by {
      IsStray(a, u);
    }
    FirstRetries(a, u);
    SecondSplits(BreakBlocked(a), FIRST.(isRetryAllocBeforeBufn := true), u);
    hide TP.Valid;
  }

  lemma {:induction false} SplitIsThrown(a: Adaptor)
    requires 11 in a.threads && a.threads[11] == Retried(STRAY).(state := SplitThrow)
    ensures Settle(a, 11).1 == Threw(SplitAndRetryOom(false))
  {
  }

  lemma {:induction false} StraySplits(a: Adaptor)
    requires TP.Valid(a.tracker) && Two(a, FIRST.(state := Blocked), Retried(STRAY).(state := BufnWait))
    ensures StrayPool(InBufn(a).threads, Blocked)
    ensures BlockLoop(a, 11).1 == Threw(SplitAndRetryOom(false))
  {
    var b, u := InBufn(a), Retried(STRAY).(state := Bufn);
    assert Two(b, FIRST.(state := Blocked), u);
    hide StrayPool, CheckForBufn, Settle, TP.Valid;
    IsStray(b, u);
    MisfiringCheck(b, u);
    SplitIsThrown(CheckForBufn(b, None));
  }

  /**
   * A run ends with thread 11 being told to split, because the check found as many BUFN ids as tasks:
   * the one id is task 2's, which nobody is dedicated to, and task 1 is only blocked.
   */
  lemma {:induction false} MisfireIsReached() returns (a: Adaptor)
    ensures Reached(ContendingFrom([Register(10, 1)] + [JoinPool(false, 11, {2})]), a) && Inv(a)
    ensures Enabled(a, AwaitReady(11)) && Step(a, AwaitReady(11)).1 == Threw(SplitAndRetryOom(false))
    ensures 11 in a.threads && a.threads[11].state.BufnWait?
    ensures var ts := InBufn(a).threads; Deadlocked(ts, None) && AllBufnTest(ts, None) && !EveryTaskBufn(ts, None)
  {
    hide Inv, Reached, Deadlocked, AllBufnTest, EveryTaskBufn, BlockLoop, StrayPool, ContendingFrom;
    var b := StrayJoins();
    a := Contending([Register(10, 1)] + [JoinPool(false, 11, {2})], b, STRAY);
    InvValid(a);
    StraySplits(a);
    AllBufnTestCanMisfire(InBufn(a).threads, Blocked);
  }

  // ---- in the middle of an escalation ----

  const SECOND := NewThread(2, false)

  lemma {:induction false} SecondStarts() returns (a: Adaptor)
    ensures Reached([Register(10, 1)] + [Register(11, 2)], a) && Inv(a)
    ensures Two(a, FIRST, SECOND) && a.tracker == TP.FRESH
  {
    hide Inv, Reached;
    var b := FirstStarts();
    a := Next([Register(10, 1)], b, Register(11, 2));
  }

  lemma {:induction false} TwoTasks(ts: Threads)
    requires ts.Keys == {10, 11} && ts[10].taskId == 1 && ts[11].taskId == 2
    ensures PoolTasks(ts) == {} && Supported(ts)
  {
    FirstIsDedicated(ts);
    forall task ensures task !in PoolTasks(ts) {
      PoolTasksHaveWorkers(ts, task);
    }
  }

  lemma {:induction false} CheckWithTwoTasks(a: Adaptor, u: Thread)
    requires TP.Valid(a.tracker) && Two(a, FIRST.(state := Blocked), u) && u.taskId == 2 && u.state.Bufn?
    ensures Two(CheckForBufn(a, None), FIRST.(isRetryAllocBeforeBufn := true), u)
  {
    TwoTasks(a.threads);
    StalledIsDeadlocked(a, None);
    AllBufnTestExact(a.threads, None);
    FirstIsDedicated(a.threads);
    assert !TaskBufn(a.threads, 1, None) by {
      PoolTasksHaveWorkers(a.threads, 1);
    }
    hide Deadlocked, AllBufnTest, BreakBlocked, TaskIds, TaskBufn, Supported, Stalled, PoolsCovered;
    FirstRetries(a, u);
    hide TP.Valid;
  }

  lemma {:induction false} SecondWaits(a: Adaptor)
    requires TP.Valid(a.tracker) && Two(a, FIRST.(state := Blocked), Retried(SECOND).(state := BufnWait))
    ensures var r := BlockLoop(a, 11);
      r.1.Waits? && Two(r.0, FIRST.(isRetryAllocBeforeBufn := true), Retried(SECOND).(state := Bufn))
  {
    var b, u := InBufn(a), Retried(SECOND).(state := Bufn);
    assert Two(b, FIRST.(state := Blocked), u);
    hide CheckForBufn, TP.Valid;
    CheckWithTwoTasks(b, u);
  }

  lemma {:induction false} FirstTriesAgain(a: Adaptor, b: Adaptor)
    requires Two(a, FIRST.(isRetryAllocBeforeBufn := true), Retried(SECOND).(state := Bufn))
    requires b == Begun(Sleep(a, 11, UntilReady), 10)
    ensures b.threads.Keys == {10, 11} && b.threads[10].state.Alloc? && b.threads[11].state.Bufn? && 11 in b.waiters
    ensures Quiet(b) && !Stalled(b) && Supported(b.threads)
  {
    TwoTasks(b.threads);
    assert !IsBlocked(b.threads[10].state);
    hide Supported;
  }

  /** The premises of the escalation results hold with one thread allocating and one in BUFN. */
  lemma {:induction false} MidEscalation() returns (a: Adaptor)
    ensures Reached(ContendingFrom([Register(10, 1)] + [Register(11, 2)]) + [AwaitReady(11)]
                    + [Allocate(10, false, true)], a)
    ensures Inv(a) && Quiet(a) && !Stalled(a) && Supported(a.threads)
    ensures a.threads.Keys == {10, 11} && a.threads[10].state.Alloc? && a.threads[11].state.Bufn? && 11 in a.waiters
  {
    hide Inv, Reached, Quiet, Stalled, Supported, BlockLoop, ContendingFrom;
    var acts := ContendingFrom([Register(10, 1)] + [Register(11, 2)]);
    var b := SecondStarts();
    var c := Contending([Register(10, 1)] + [Register(11, 2)], b, SECOND);
    InvValid(c);
    SecondWaits(c);
    var d := Next(acts, c, AwaitReady(11));
    InvValid(d);
    BeginStep(d, 10);
    a := Next(acts + [AwaitReady(11)], d, Allocate(10, false, true));
    FirstTriesAgain(BlockLoop(c, 11).0, a);
  }
}
