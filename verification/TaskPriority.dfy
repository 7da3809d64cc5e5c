/** The tracker that hands out task priorities on first use (TaskPriorityJni.cpp). */
module TaskPriority {

  const MAX_LONG: int := 0x7fff_ffff_ffff_ffff

  /** The priority handed out next, and those already handed out. */
  datatype Tracker = Tracker(next: int, priorities: map<int, int>)

  const FRESH := Tracker(MAX_LONG - 1, map[])

  ghost predicate Valid(t: Tracker) {
    && t.next < MAX_LONG
    && -1 !in t.priorities
    && (forall id :: id in t.priorities ==> t.next < t.priorities[id] < MAX_LONG)
    && (forall x, y :: x in t.priorities && y in t.priorities && x != y ==> t.priorities[x] != t.priorities[y])
  }

  /** Has `id` been given a priority? Attempt -1 always has one. */
  predicate Issued(t: Tracker, id: int) {
    id == -1 || id in t.priorities
  }

  function PriorityOf(t: Tracker, id: int): int
    requires Issued(t, id)
  {
    if id == -1 then MAX_LONG else t.priorities[id]
  }

  /** The tracker after somebody asked for the priority of `id`. */
  function Issue(t: Tracker, id: int): Tracker {
    if Issued(t, id) then t else Tracker(t.next - 1, t.priorities[id := t.next])
  }

  /** `u` knows at least what `t` knows, and agrees with it. */
  ghost predicate Extends(t: Tracker, u: Tracker) {
    forall id :: id in t.priorities ==> id in u.priorities && u.priorities[id] == t.priorities[id]
  }

  /** Asking keeps every earlier answer, and a first answer is below every earlier one. */
  lemma {:induction false} IssueIsLowest(t: Tracker, id: int)
    requires Valid(t)
    ensures var u := Issue(t, id);
            && Valid(u) && Extends(t, u) && Issued(u, id)
            && (!Issued(t, id) ==> forall x :: Issued(t, x) ==> PriorityOf(u, id) < PriorityOf(u, x))
  {
  }

  /** Priorities tell tasks apart. */
  lemma {:induction false} PrioritiesDiffer(t: Tracker, x: int, y: int)
    requires Valid(t) && Issued(t, x) && Issued(t, y)
    ensures PriorityOf(t, x) == PriorityOf(t, y) <==> x == y
  {
  }

  class TaskPriorityTracker {
    var next: int
    var priorities: map<int, int>

    ghost function View(): Tracker
      reads this
    {
      Tracker(next, priorities)
    }

    constructor ()
      ensures View() == FRESH && Valid(View())
    {
      next := MAX_LONG - 1;
      priorities := map[];
    }

    method GetTaskPriority(attemptId: int) returns (priority: int)
      modifies this
      ensures View() == Issue(old(View()), attemptId)
      ensures priority == PriorityOf(View(), attemptId)
    {
      if attemptId == -1 {
        return MAX_LONG;
      }
      if attemptId in priorities {
        return priorities[attemptId];
      }
      priority := next;
      next := next - 1;
      priorities := priorities[attemptId := priority];
    }

    /** A finished attempt is forgotten: asking again puts it behind everybody. */
    method TaskDone(attemptId: int)
      requires Valid(View())
      modifies this
      ensures Valid(View()) && next == old(next)
      ensures priorities == old(priorities) - {attemptId}
    {
      if attemptId == -1 {
        return;
      }
      priorities := priorities - {attemptId};
    }
  }
}
