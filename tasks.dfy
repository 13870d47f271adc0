/**
 * Tasks: the status codes and the completed scope, the `is_delegated`
 * attribute, and the propagation of due dates through the tree of
 * treatment-path schedules (`modifyDependedTaskDueDates`).
 *
 * Due dates are day numbers; a task's `due_date` column is `None` when it
 * holds NULL, which the `due_date` accessor reads as the current time
 * (`now`). A schedule row links to its child schedules and to its task; a
 * task links to its own schedule through `scheduleOf`.
 */
module Tasks {
  import opened Common

  // ---------------------------------------------------------------------------
  // Status and delegation

  const StatusOpen: int := 0
  const StatusCompleted: int := 1
  const StatusOverdue: int := 2

  datatype TaskRow = TaskRow(id: int, status: int, assigneeId: Option<int>, creatorId: int)

  function IsCompletedRow(t: TaskRow): bool {
    t.status == StatusCompleted
  }

  /** `scopeCompleted`: the rows whose status is 1, in order. */
  function Completed(rows: seq<TaskRow>): (r: seq<TaskRow>)
    ensures forall i :: 0 <= i < |r| ==> r[i] in rows && r[i].status == StatusCompleted
    ensures forall t :: t in rows && t.status == StatusCompleted ==> t in r
  {
    Filter(rows, IsCompletedRow)
  }

  /** `is_delegated`: someone is assigned, and it is not the creator. */
  function IsDelegated(assigneeId: Option<int>, creatorId: int): (delegated: bool)
    ensures delegated <==> assigneeId.Some? && assigneeId.value != creatorId
    ensures assigneeId == Some(creatorId) ==> !delegated
  {
    match assigneeId
    case None => false
    case Some(id) => id != creatorId
  }

  // ---------------------------------------------------------------------------
  // Schedules

  /** The two dependency types, and any other code a row may hold. */
  datatype DependencyType = StartEnd | StartStart | OtherType(code: int)

  datatype Schedule = Schedule(dependFrom: int, dependencyType: DependencyType, durationDay: int,
                               children: seq<int>, task: Option<int>)

  datatype Plan = Plan(schedules: map<int, Schedule>, scheduleOf: map<int, int>)

  /** The task has a schedule row (`scheduleCaseTreatmentPath` is not empty). */
  predicate HasSchedule(plan: Plan, t: int) {
    t in plan.scheduleOf && plan.scheduleOf[t] in plan.schedules
  }

  /** The task of the `j`th child of schedule `s`, when that child exists
    * and has a task among `tasks`. */
  function ChildTask(plan: Plan, tasks: set<int>, s: int, j: int): (r: Option<int>)
    requires s in plan.schedules && 0 <= j < |plan.schedules[s].children|
    ensures r.Some? ==> r.value in tasks
  {
    var c := plan.schedules[s].children[j];
    if c in plan.schedules && plan.schedules[c].task.Some? && plan.schedules[c].task.value in tasks
    then plan.schedules[c].task else None
  }

  /** Height of a task in the tree under a ranking of the schedules. */
  ghost function TaskRank(plan: Plan, rank: int -> nat, t: int): nat {
    if HasSchedule(plan, t) then rank(plan.scheduleOf[t]) + 1 else 0
  }

  /** The ranking witnesses that the schedule tree has no cycle: the task of
    * a child always ranks below the parent schedule. */
  ghost predicate Ranked(plan: Plan, rank: int -> nat, tasks: set<int>) {
    forall s, j :: s in plan.schedules && 0 <= j < |plan.schedules[s].children| && ChildTask(plan, tasks, s, j).Some?
      ==> TaskRank(plan, rank, ChildTask(plan, tasks, s, j).value) <= rank(s)
  }

  /** `u` is the task of some child of a schedule ranked below `k`. */
  ghost predicate WrittenBelow(plan: Plan, rank: int -> nat, tasks: set<int>, u: int, k: int) {
    exists s, j :: s in plan.schedules && 0 <= j < |plan.schedules[s].children|
      && ChildTask(plan, tasks, s, j) == Some(u) && rank(s) < k
  }

  /** `u` is the task of a child of `t`'s schedule at position `i` or later. */
  ghost predicate ChildFrom(plan: Plan, tasks: set<int>, t: int, i: int, u: int)
    requires HasSchedule(plan, t)
  {
    var s := plan.scheduleOf[t];
    exists j :: i <= j < |plan.schedules[s].children| && 0 <= j && ChildTask(plan, tasks, s, j) == Some(u)
  }

  /** `$task->due_date`: NULL reads as now. */
  function DueOf(dues: map<int, Option<int>>, t: int, now: int): int
    requires t in dues
  {
    if dues[t].Some? then dues[t].value else now
  }

  /** The `$dueDate` one child gets: for START_START the parent's due date
    * minus the parent's duration plus the child's, for START_END the
    * parent's due date plus the child's duration, and for any other type
    * whatever the variable held from an earlier child. None stands for the
    * variable not yet assigned, which only the other types can read. */
  function ChildDue(parentDue: int, parent: Schedule, child: Schedule, lastDue: Option<int>): (due: Option<int>)
    ensures child.dependencyType == StartEnd ==> due == Some(parentDue + child.durationDay)
    ensures child.dependencyType == StartStart ==> due == Some(parentDue - parent.durationDay + child.durationDay)
    ensures child.dependencyType.OtherType? ==> due == lastDue
  {
    match child.dependencyType
    case StartStart => Some(parentDue - parent.durationDay + child.durationDay)
    case StartEnd => Some(parentDue + child.durationDay)
    case OtherType(_) => lastDue
  }

  /** The outcome of a propagation: the due dates as saved, and whether it
    * stopped on reading the unassigned `$dueDate` (the notice the framework
    * turns into an exception, which leaves every earlier save in place and
    * ends all the loops above it). */
  datatype Run = Run(dues: map<int, Option<int>>, aborted: bool)

  /** The due dates after `modifyDependedTaskDueDates(t)` (not counting the
    * first-iteration update of `t`'s schedule): only tasks of children of
    * schedules ranked below `t` change. */
  ghost function Propagate(plan: Plan, rank: int -> nat, t: int, dues: map<int, Option<int>>, now: int)
    : (r: Run)
    requires t in dues && Ranked(plan, rank, dues.Keys)
    ensures r.dues.Keys == dues.Keys
    ensures forall u :: u in dues && r.dues[u] != dues[u] ==> WrittenBelow(plan, rank, dues.Keys, u, TaskRank(plan, rank, t))
    decreases TaskRank(plan, rank, t), 1, 0
  {
    if !HasSchedule(plan, t) then Run(dues, false)
    else
      var r := Children(plan, rank, t, 0, None, dues, now);
      assert forall u :: u in dues && r.dues[u] != dues[u] ==> WrittenBelow(plan, rank, dues.Keys, u, TaskRank(plan, rank, t)) by {
        forall u | u in dues && r.dues[u] != dues[u]
          ensures WrittenBelow(plan, rank, dues.Keys, u, TaskRank(plan, rank, t))
        {
          var s := plan.scheduleOf[t];
          if ChildFrom(plan, dues.Keys, t, 0, u) {
            var j :| 0 <= j < |plan.schedules[s].children| && ChildTask(plan, dues.Keys, s, j) == Some(u);
          } else {
            var s', j' :| s' in plan.schedules && 0 <= j' < |plan.schedules[s'].children|
              && ChildTask(plan, dues.Keys, s', j') == Some(u) && rank(s') < rank(s);
          }
        }
      }
      r
  }

  /** The loop over `t`'s child schedules from position `i` on, with
    * `$dueDate` holding `lastDue`. */
  ghost function Children(plan: Plan, rank: int -> nat, t: int, i: nat, lastDue: Option<int>,
                          dues: map<int, Option<int>>, now: int): (r: Run)
    requires t in dues && HasSchedule(plan, t) && Ranked(plan, rank, dues.Keys)
    requires i <= |plan.schedules[plan.scheduleOf[t]].children|
    ensures r.dues.Keys == dues.Keys
    ensures forall u :: u in dues && r.dues[u] != dues[u] ==>
      ChildFrom(plan, dues.Keys, t, i, u) || WrittenBelow(plan, rank, dues.Keys, u, rank(plan.scheduleOf[t]))
    decreases TaskRank(plan, rank, t), 0, |plan.schedules[plan.scheduleOf[t]].children| - i
  {
    var sid := plan.scheduleOf[t];
    var s := plan.schedules[sid];
    if i == |s.children| then Run(dues, false)
    else
      var ct := ChildTask(plan, dues.Keys, sid, i);
      if ct.None? then
        var r := Children(plan, rank, t, i + 1, lastDue, dues, now);
        ChildFromLater(plan, dues.Keys, t, i);
        r
      else
        var due := ChildDue(DueOf(dues, t, now), s, plan.schedules[s.children[i]], lastDue);
        if due.None? then Run(dues, true)
        else
          var written := dues[ct.value := due];
          assert written.Keys == dues.Keys;
          assert TaskRank(plan, rank, ct.value) <= rank(sid);
          var after := Propagate(plan, rank, ct.value, written, now);
          ChildFromLater(plan, dues.Keys, t, i);
          assert ChildFrom(plan, dues.Keys, t, i, ct.value) by {
            assert ChildTask(plan, dues.Keys, sid, i) == Some(ct.value);
          }
          assert forall u :: u in dues && after.dues[u] != written[u] ==> WrittenBelow(plan, rank, dues.Keys, u, rank(sid)) by {
            forall u | u in dues && after.dues[u] != written[u]
              ensures WrittenBelow(plan, rank, dues.Keys, u, rank(sid))
            {
              var s', j' :| s' in plan.schedules && 0 <= j' < |plan.schedules[s'].children|
                && ChildTask(plan, dues.Keys, s', j') == Some(u) && rank(s') < TaskRank(plan, rank, ct.value);
            }
          }
          if after.aborted then after
          else Children(plan, rank, t, i + 1, due, after.dues, now)
  }

  lemma ChildFromLater(plan: Plan, tasks: set<int>, t: int, i: int)
    requires HasSchedule(plan, t)
    ensures forall u :: ChildFrom(plan, tasks, t, i + 1, u) ==> ChildFrom(plan, tasks, t, i, u)
  {
  }

  /** A task written by the propagation ranks below the task it started
    * from. */
  lemma WrittenBelowRank(plan: Plan, rank: int -> nat, tasks: set<int>, u: int, k: int)
    requires Ranked(plan, rank, tasks) && WrittenBelow(plan, rank, tasks, u, k)
    ensures TaskRank(plan, rank, u) < k
  {
    var s, j :| s in plan.schedules && 0 <= j < |plan.schedules[s].children|
      && ChildTask(plan, tasks, s, j) == Some(u) && rank(s) < k;
  }

  /** Propagation never touches a task ranked as high as the one it starts
    * from, in particular not that task itself; and a task without a
    * schedule changes nothing. */
  lemma PropagationStaysBelow(plan: Plan, rank: int -> nat, t: int, dues: map<int, Option<int>>, now: int)
    requires t in dues && Ranked(plan, rank, dues.Keys)
    ensures var r := Propagate(plan, rank, t, dues, now);
      forall u :: u in dues && TaskRank(plan, rank, u) >= TaskRank(plan, rank, t) ==> r.dues[u] == dues[u]
    ensures var r := Propagate(plan, rank, t, dues, now); r.dues[t] == dues[t]
    ensures !HasSchedule(plan, t) ==> Propagate(plan, rank, t, dues, now) == Run(dues, false)
  {
    var r := Propagate(plan, rank, t, dues, now);
    forall u | u in dues && TaskRank(plan, rank, u) >= TaskRank(plan, rank, t)
      ensures r.dues[u] == dues[u]
    {
      if r.dues[u] != dues[u] {
        WrittenBelowRank(plan, rank, dues.Keys, u, TaskRank(plan, rank, t));
      }
    }
  }

  /** Every task sits in at most one child position of the whole tree. */
  ghost predicate TreeShaped(plan: Plan, tasks: set<int>) {
    forall s1, j1, s2, j2 ::
      s1 in plan.schedules && 0 <= j1 < |plan.schedules[s1].children|
      && s2 in plan.schedules && 0 <= j2 < |plan.schedules[s2].children|
      && ChildTask(plan, tasks, s1, j1).Some? && ChildTask(plan, tasks, s1, j1) == ChildTask(plan, tasks, s2, j2)
      ==> s1 == s2 && j1 == j2
  }

  /** In a tree, the loop from position `i` on never writes the task of an
    * earlier child of the same schedule. */
  lemma EarlierSlotUntouched(plan: Plan, rank: int -> nat, t: int, i: nat, lastDue: Option<int>,
                             dues: map<int, Option<int>>, now: int, k: int)
    requires t in dues && HasSchedule(plan, t) && Ranked(plan, rank, dues.Keys) && TreeShaped(plan, dues.Keys)
    requires 0 <= k < i <= |plan.schedules[plan.scheduleOf[t]].children|
    requires ChildTask(plan, dues.Keys, plan.scheduleOf[t], k).Some?
    ensures var u := ChildTask(plan, dues.Keys, plan.scheduleOf[t], k).value;
      Children(plan, rank, t, i, lastDue, dues, now).dues[u] == dues[u]
  {
  }

  /** In a tree, the propagation below one child never writes the task of
    * a sibling. */
  lemma StepSparesSibling(plan: Plan, rank: int -> nat, t: int, i: nat, j: nat, due: Option<int>,
                          dues: map<int, Option<int>>, now: int)
    requires t in dues && HasSchedule(plan, t) && Ranked(plan, rank, dues.Keys) && TreeShaped(plan, dues.Keys)
    requires i < |plan.schedules[plan.scheduleOf[t]].children| && j < |plan.schedules[plan.scheduleOf[t]].children|
    requires i != j
    requires ChildTask(plan, dues.Keys, plan.scheduleOf[t], i).Some?
    requires ChildTask(plan, dues.Keys, plan.scheduleOf[t], j).Some?
    ensures var u := ChildTask(plan, dues.Keys, plan.scheduleOf[t], i).value;
      var w := ChildTask(plan, dues.Keys, plan.scheduleOf[t], j).value;
      var written := dues[u := due];
      written.Keys == dues.Keys && Propagate(plan, rank, u, written, now).dues[w] == dues[w]
  {
    var sid := plan.scheduleOf[t];
    var u := ChildTask(plan, dues.Keys, sid, i).value;
    var w := ChildTask(plan, dues.Keys, sid, j).value;
    var written := dues[u := due];
    assert written.Keys == dues.Keys;
    assert w != u;
    assert TaskRank(plan, rank, u) <= rank(sid);
    var after := Propagate(plan, rank, u, written, now);
    // Only `w`'s own position could make it written below `u`, and that
    // position is not below `u`.
    assert after.dues[w] == written[w];
  }

  /** No child of `t`'s schedule from position `i` up to `j` has a task. */
  ghost predicate NoTaskBetween(plan: Plan, tasks: set<int>, t: int, i: int, j: int)
    requires HasSchedule(plan, t)
  {
    forall k :: 0 <= i <= k < j && k < |plan.schedules[plan.scheduleOf[t]].children|
      ==> ChildTask(plan, tasks, plan.scheduleOf[t], k).None?
  }

  /** In `r`, the outcome of the loop from position `i`, the task of child
    * `j` holds the due date its own dependency type gives it from the
    * parent's due date (`ChildDue`), unless the loop stopped before
    * reaching it, which leaves it as it was; for another type this is
    * claimed only when no earlier child in the range has a task. */
  ghost predicate SlotDue(plan: Plan, t: int, i: nat, lastDue: Option<int>, dues: map<int, Option<int>>, now: int,
                          j: int, r: Run)
    requires t in dues && HasSchedule(plan, t) && r.dues.Keys == dues.Keys
    requires i <= j < |plan.schedules[plan.scheduleOf[t]].children|
    requires ChildTask(plan, dues.Keys, plan.scheduleOf[t], j).Some?
  {
    var s := plan.schedules[plan.scheduleOf[t]];
    var child := plan.schedules[s.children[j]];
    var u := ChildTask(plan, dues.Keys, plan.scheduleOf[t], j).value;
    (!child.dependencyType.OtherType? || NoTaskBetween(plan, dues.Keys, t, i, j)) ==>
      (r.dues[u] == ChildDue(DueOf(dues, t, now), s, child, lastDue) || (r.aborted && r.dues[u] == dues[u]))
  }

  /** In a tree, the loop from position `i` leaves each child task with the
    * due date its own dependency type gives it from the parent's due date,
    * or, when the loop stops before it, as it was. */
  lemma {:induction false} ChildrenDueDates(plan: Plan, rank: int -> nat, t: int, i: nat, lastDue: Option<int>,
                                            dues: map<int, Option<int>>, now: int, j: int)
    requires t in dues && HasSchedule(plan, t) && Ranked(plan, rank, dues.Keys) && TreeShaped(plan, dues.Keys)
    requires i <= j < |plan.schedules[plan.scheduleOf[t]].children|
    requires ChildTask(plan, dues.Keys, plan.scheduleOf[t], j).Some?
    ensures SlotDue(plan, t, i, lastDue, dues, now, j, Children(plan, rank, t, i, lastDue, dues, now))
    decreases j - i, 1
  {
    var sid := plan.scheduleOf[t];
    if ChildTask(plan, dues.Keys, sid, i).None? {
      SkippedSlotDue(plan, rank, t, i, lastDue, dues, now, j);
    } else if j == i {
      HereSlotDue(plan, rank, t, i, lastDue, dues, now);
    } else {
      WrittenSlotDue(plan, rank, t, i, lastDue, dues, now, j);
    }
  }

  lemma {:induction false} SkippedSlotDue(plan: Plan, rank: int -> nat, t: int, i: nat, lastDue: Option<int>,
                                          dues: map<int, Option<int>>, now: int, j: int)
    requires t in dues && HasSchedule(plan, t) && Ranked(plan, rank, dues.Keys) && TreeShaped(plan, dues.Keys)
    requires i <= j < |plan.schedules[plan.scheduleOf[t]].children|
    requires ChildTask(plan, dues.Keys, plan.scheduleOf[t], j).Some?
    requires ChildTask(plan, dues.Keys, plan.scheduleOf[t], i).None?
    ensures SlotDue(plan, t, i, lastDue, dues, now, j, Children(plan, rank, t, i, lastDue, dues, now))
    decreases j - i, 0
  {
    ChildrenSkip(plan, rank, t, i, lastDue, dues, now);
    ChildrenDueDates(plan, rank, t, i + 1, lastDue, dues, now, j);
    EmptySlotSkipped(plan, t, i, lastDue, dues, now, j, Children(plan, rank, t, i + 1, lastDue, dues, now));
  }

  /** A child without a task leaves a later child's due date as it is from
    * the next position on. */
  lemma EmptySlotSkipped(plan: Plan, t: int, i: nat, lastDue: Option<int>, dues: map<int, Option<int>>, now: int,
                         j: int, r: Run)
    requires t in dues && HasSchedule(plan, t) && r.dues.Keys == dues.Keys
    requires i < j < |plan.schedules[plan.scheduleOf[t]].children|
    requires ChildTask(plan, dues.Keys, plan.scheduleOf[t], j).Some?
    requires ChildTask(plan, dues.Keys, plan.scheduleOf[t], i).None?
    requires SlotDue(plan, t, i + 1, lastDue, dues, now, j, r)
    ensures SlotDue(plan, t, i, lastDue, dues, now, j, r)
  {
  }

  lemma {:induction false} WrittenSlotDue(plan: Plan, rank: int -> nat, t: int, i: nat, lastDue: Option<int>,
                                          dues: map<int, Option<int>>, now: int, j: int)
    requires t in dues && HasSchedule(plan, t) && Ranked(plan, rank, dues.Keys) && TreeShaped(plan, dues.Keys)
    requires i < j < |plan.schedules[plan.scheduleOf[t]].children|
    requires ChildTask(plan, dues.Keys, plan.scheduleOf[t], j).Some?
    requires ChildTask(plan, dues.Keys, plan.scheduleOf[t], i).Some?
    ensures SlotDue(plan, t, i, lastDue, dues, now, j, Children(plan, rank, t, i, lastDue, dues, now))
    decreases j - i, 0
  {
    var due, after := ChildrenStep(plan, rank, t, i, lastDue, dues, now);
    var w := ChildTask(plan, dues.Keys, plan.scheduleOf[t], j).value;
    if due.Some? {
      StepSparesSibling(plan, rank, t, i, j, due, dues, now);
    }
    assert after.dues[w] == dues[w];
    if !after.aborted {
      ChildrenDueDates(plan, rank, t, i + 1, due, after.dues, now, j);
      LaterSlotDue(plan, t, i, lastDue, dues, now, j, due, after.dues, Children(plan, rank, t, i + 1, due, after.dues, now));
    }
  }

  /** The child just reached gets its due date and keeps it for the rest of
    * the loop, or the loop stops on it and leaves it as it was. */
  lemma HereSlotDue(plan: Plan, rank: int -> nat, t: int, i: nat, lastDue: Option<int>,
                    dues: map<int, Option<int>>, now: int)
    requires t in dues && HasSchedule(plan, t) && Ranked(plan, rank, dues.Keys) && TreeShaped(plan, dues.Keys)
    requires i < |plan.schedules[plan.scheduleOf[t]].children|
    requires ChildTask(plan, dues.Keys, plan.scheduleOf[t], i).Some?
    ensures SlotDue(plan, t, i, lastDue, dues, now, i, Children(plan, rank, t, i, lastDue, dues, now))
  {
    var due, after := ChildrenStep(plan, rank, t, i, lastDue, dues, now);
    if !after.aborted {
      EarlierSlotUntouched(plan, rank, t, i + 1, due, after.dues, now, i);
    }
  }

  /** A later child's due date after the step at `i` is the one it gets
    * from position `i + 1` on. */
  lemma LaterSlotDue(plan: Plan, t: int, i: nat, lastDue: Option<int>, dues: map<int, Option<int>>, now: int,
                     j: int, due: Option<int>, after: map<int, Option<int>>, r: Run)
    requires t in dues && HasSchedule(plan, t) && r.dues.Keys == dues.Keys
    requires i < j < |plan.schedules[plan.scheduleOf[t]].children|
    requires ChildTask(plan, dues.Keys, plan.scheduleOf[t], j).Some?
    requires ChildTask(plan, dues.Keys, plan.scheduleOf[t], i).Some?
    requires after.Keys == dues.Keys && after[t] == dues[t]
    requires var w := ChildTask(plan, dues.Keys, plan.scheduleOf[t], j).value; after[w] == dues[w]
    requires SlotDue(plan, t, i + 1, due, after, now, j, r)
    ensures SlotDue(plan, t, i, lastDue, dues, now, j, r)
  {
    assert !NoTaskBetween(plan, dues.Keys, t, i, j);
  }

  /** With `$dueDate` unassigned, the first task-bearing child, if it is of
    * another type, stops the loop before anything is written. */
  lemma {:induction false} AbortAtUnassigned(plan: Plan, rank: int -> nat, t: int, i: nat,
                                             dues: map<int, Option<int>>, now: int, j: int)
    requires t in dues && HasSchedule(plan, t) && Ranked(plan, rank, dues.Keys)
    requires i <= j < |plan.schedules[plan.scheduleOf[t]].children|
    requires ChildTask(plan, dues.Keys, plan.scheduleOf[t], j).Some?
    requires plan.schedules[plan.schedules[plan.scheduleOf[t]].children[j]].dependencyType.OtherType?
    requires NoTaskBetween(plan, dues.Keys, t, i, j)
    ensures Children(plan, rank, t, i, None, dues, now) == Run(dues, true)
    decreases j - i
  {
    if i < j {
      ChildrenSkip(plan, rank, t, i, None, dues, now);
      AbortAtUnassigned(plan, rank, t, i + 1, dues, now, j);
    } else {
      var due, after := ChildrenStep(plan, rank, t, i, None, dues, now);
    }
  }

  /** What `modifyDependedTaskDueDates` gives the task of each child of a
    * tree-shaped plan: START_END puts it the child's duration after the
    * parent's due date, START_START the child's duration after the
    * parent's start (its due date less its own duration), unless the
    * propagation stopped before reaching it; and a child of any other type
    * with no earlier task-bearing sibling reads the unassigned `$dueDate`,
    * so the call stops at once with no due date changed. */
  lemma PropagatedDueDates(plan: Plan, rank: int -> nat, t: int, dues: map<int, Option<int>>, now: int, j: int)
    requires t in dues && HasSchedule(plan, t) && Ranked(plan, rank, dues.Keys) && TreeShaped(plan, dues.Keys)
    requires 0 <= j < |plan.schedules[plan.scheduleOf[t]].children|
    requires ChildTask(plan, dues.Keys, plan.scheduleOf[t], j).Some?
    ensures var s := plan.schedules[plan.scheduleOf[t]];
      var child := plan.schedules[s.children[j]];
      var u := ChildTask(plan, dues.Keys, plan.scheduleOf[t], j).value;
      var r := Propagate(plan, rank, t, dues, now);
      && (child.dependencyType == StartEnd ==>
            r.dues[u] == Some(DueOf(dues, t, now) + child.durationDay) || (r.aborted && r.dues[u] == dues[u]))
      && (child.dependencyType == StartStart ==>
            r.dues[u] == Some(DueOf(dues, t, now) - s.durationDay + child.durationDay) || (r.aborted && r.dues[u] == dues[u]))
      && (child.dependencyType.OtherType? && NoTaskBetween(plan, dues.Keys, t, 0, j) ==> r == Run(dues, true))
  {
    ChildrenDueDates(plan, rank, t, 0, None, dues, now, j);
    var s := plan.schedules[plan.scheduleOf[t]];
    if plan.schedules[s.children[j]].dependencyType.OtherType? && NoTaskBetween(plan, dues.Keys, t, 0, j) {
      AbortAtUnassigned(plan, rank, t, 0, dues, now, j);
    }
  }

  /** Every schedule row holds one of the two dependency types. */
  ghost predicate KnownTypes(plan: Plan) {
    forall s :: s in plan.schedules ==> !plan.schedules[s].dependencyType.OtherType?
  }

  /** With only the two dependency types, propagation always completes. */
  lemma {:induction false} PropagationCompletes(plan: Plan, rank: int -> nat, t: int, dues: map<int, Option<int>>, now: int)
    requires t in dues && Ranked(plan, rank, dues.Keys) && KnownTypes(plan)
    ensures !Propagate(plan, rank, t, dues, now).aborted
    decreases TaskRank(plan, rank, t), 1, 0
  {
    if HasSchedule(plan, t) {
      ChildrenComplete(plan, rank, t, 0, None, dues, now);
    }
  }

  lemma {:induction false} ChildrenComplete(plan: Plan, rank: int -> nat, t: int, i: nat, lastDue: Option<int>,
                                            dues: map<int, Option<int>>, now: int)
    requires t in dues && HasSchedule(plan, t) && Ranked(plan, rank, dues.Keys) && KnownTypes(plan)
    requires i <= |plan.schedules[plan.scheduleOf[t]].children|
    ensures !Children(plan, rank, t, i, lastDue, dues, now).aborted
    decreases TaskRank(plan, rank, t), 0, |plan.schedules[plan.scheduleOf[t]].children| - i
  {
    var sid := plan.scheduleOf[t];
    if i < |plan.schedules[sid].children| {
      if ChildTask(plan, dues.Keys, sid, i).None? {
        ChildrenSkip(plan, rank, t, i, lastDue, dues, now);
        ChildrenComplete(plan, rank, t, i + 1, lastDue, dues, now);
      } else {
        var u := ChildTask(plan, dues.Keys, sid, i).value;
        var due, after := ChildrenStep(plan, rank, t, i, lastDue, dues, now);
        assert TaskRank(plan, rank, u) <= rank(sid);
        PropagationCompletes(plan, rank, u, dues[u := due], now);
        ChildrenComplete(plan, rank, t, i + 1, due, after.dues, now);
      }
    }
  }

  /** A child without a task is skipped, `$dueDate` and all. */
  lemma ChildrenSkip(plan: Plan, rank: int -> nat, t: int, i: nat, lastDue: Option<int>,
                     dues: map<int, Option<int>>, now: int)
    requires t in dues && HasSchedule(plan, t) && Ranked(plan, rank, dues.Keys)
    requires i < |plan.schedules[plan.scheduleOf[t]].children|
    requires ChildTask(plan, dues.Keys, plan.scheduleOf[t], i).None?
    ensures Children(plan, rank, t, i, lastDue, dues, now) == Children(plan, rank, t, i + 1, lastDue, dues, now)
  {
  }

  /** The loop ends with the due dates it holds. */
  lemma ChildrenDone(plan: Plan, rank: int -> nat, t: int, lastDue: Option<int>, dues: map<int, Option<int>>, now: int)
    requires t in dues && HasSchedule(plan, t) && Ranked(plan, rank, dues.Keys)
    ensures Children(plan, rank, t, |plan.schedules[plan.scheduleOf[t]].children|, lastDue, dues, now) == Run(dues, false)
  {
  }

  /** One pass of the loop over a child with a task: when `$dueDate` has a
    * value, it writes the child's due date and propagates from there,
    * which leaves the parent alone; otherwise it stops the loop. */
  lemma ChildrenStep(plan: Plan, rank: int -> nat, t: int, i: nat, lastDue: Option<int>,
                     dues: map<int, Option<int>>, now: int)
    returns (due: Option<int>, after: Run)
    requires t in dues && HasSchedule(plan, t) && Ranked(plan, rank, dues.Keys)
    requires i < |plan.schedules[plan.scheduleOf[t]].children|
    requires ChildTask(plan, dues.Keys, plan.scheduleOf[t], i).Some?
    ensures var s := plan.schedules[plan.scheduleOf[t]];
      due == ChildDue(DueOf(dues, t, now), s, plan.schedules[s.children[i]], lastDue)
    ensures due.None? ==> after == Run(dues, true)
    ensures var u := ChildTask(plan, dues.Keys, plan.scheduleOf[t], i).value;
      var written := dues[u := due];
      due.Some? ==> written.Keys == dues.Keys && after == Propagate(plan, rank, u, written, now)
    ensures after.dues.Keys == dues.Keys && after.dues[t] == dues[t]
    ensures due.Some? ==> after.dues[ChildTask(plan, dues.Keys, plan.scheduleOf[t], i).value] == due
    ensures Ranked(plan, rank, after.dues.Keys)
    ensures Children(plan, rank, t, i, lastDue, dues, now)
         == if after.aborted then after else Children(plan, rank, t, i + 1, due, after.dues, now)
  {
    var sid := plan.scheduleOf[t];
    var s := plan.schedules[sid];
    var ct := ChildTask(plan, dues.Keys, sid, i).value;
    due := ChildDue(DueOf(dues, t, now), s, plan.schedules[s.children[i]], lastDue);
    if due.None? {
      after := Run(dues, true);
    } else {
      var written := dues[ct := due];
      assert written.Keys == dues.Keys;
      // The parent is above everything the child's subtree writes.
      assert TaskRank(plan, rank, ct) <= rank(sid);
      after := Propagate(plan, rank, ct, written, now);
      PropagationStaysBelow(plan, rank, ct, written, now);
    }
  }

  /** What the first-iteration branch does to the schedules: the task's own
    * schedule loses its dependency (`depend_from` 0) and takes the given
    * type. */
  function FirstIterationUpdate(schedules: map<int, Schedule>, scheduleOf: map<int, int>, t: int,
                                firstIteration: bool, dependencyType: DependencyType): (r: map<int, Schedule>)
    ensures r.Keys == schedules.Keys
    ensures forall s :: s in r ==> r[s].children == schedules[s].children && r[s].task == schedules[s].task
  {
    if firstIteration && t in scheduleOf && scheduleOf[t] in schedules then
      var sid := scheduleOf[t];
      schedules[sid := schedules[sid].(dependFrom := 0, dependencyType := dependencyType)]
    else schedules
  }

  lemma RankedAfterUpdate(plan: Plan, schedules: map<int, Schedule>, rank: int -> nat, tasks: set<int>)
    requires Ranked(plan, rank, tasks)
    requires schedules.Keys == plan.schedules.Keys
    requires forall s :: s in schedules ==> schedules[s].children == plan.schedules[s].children
                                            && schedules[s].task == plan.schedules[s].task
    ensures Ranked(Plan(schedules, plan.scheduleOf), rank, tasks)
    ensures forall t :: TaskRank(Plan(schedules, plan.scheduleOf), rank, t) == TaskRank(plan, rank, t)
  {
    var updated := Plan(schedules, plan.scheduleOf);
    forall s, j | s in schedules && 0 <= j < |schedules[s].children|
      ensures ChildTask(updated, tasks, s, j) == ChildTask(plan, tasks, s, j)
    {
    }
  }

  /** The task table and the schedule rows. */
  class TaskBoard {
    var dueDates: map<int, Option<int>>
    var schedules: map<int, Schedule>
    var scheduleOf: map<int, int>

    constructor (dueDates: map<int, Option<int>>, schedules: map<int, Schedule>, scheduleOf: map<int, int>)
      ensures this.dueDates == dueDates && this.schedules == schedules && this.scheduleOf == scheduleOf
    {
      this.dueDates := dueDates;
      this.schedules := schedules;
      this.scheduleOf := scheduleOf;
    }

    /** `modifyDependedTaskDueDates`; `rank` is the ghost witness that the
      * schedules form a tree, and the recursion descends along it.
      * `aborted` tells that the call stopped on an unassigned `$dueDate`;
      * what was saved before that stays. */
    method ModifyDependedTaskDueDates(t: int, firstIteration: bool, dependencyType: DependencyType, now: int,
                                      ghost rank: int -> nat)
      returns (aborted: bool)
      requires t in dueDates && Ranked(Plan(schedules, scheduleOf), rank, dueDates.Keys)
      modifies this
      ensures scheduleOf == old(scheduleOf)
      ensures schedules == FirstIterationUpdate(old(schedules), scheduleOf, t, firstIteration, dependencyType)
      ensures Ranked(Plan(schedules, scheduleOf), rank, old(dueDates).Keys)
      ensures Run(dueDates, aborted) == Propagate(Plan(schedules, scheduleOf), rank, t, old(dueDates), now)
      decreases TaskRank(Plan(schedules, scheduleOf), rank, t), 2
    {
      if !(t in scheduleOf && scheduleOf[t] in schedules) {
        return false;
      }
      if firstIteration {
        ClearDependency(t, dependencyType, rank);
      }
      aborted := VisitChildren(t, now, rank);
    }

    /** The first-iteration update: `t`'s own schedule no longer depends on
      * another one and takes the given dependency type. */
    method ClearDependency(t: int, dependencyType: DependencyType, ghost rank: int -> nat)
      requires HasSchedule(Plan(schedules, scheduleOf), t) && Ranked(Plan(schedules, scheduleOf), rank, dueDates.Keys)
      modifies this
      ensures scheduleOf == old(scheduleOf) && dueDates == old(dueDates)
      ensures schedules == FirstIterationUpdate(old(schedules), scheduleOf, t, true, dependencyType)
      ensures Ranked(Plan(schedules, scheduleOf), rank, dueDates.Keys)
      ensures TaskRank(Plan(schedules, scheduleOf), rank, t) == TaskRank(Plan(old(schedules), scheduleOf), rank, t)
    {
      ghost var before := Plan(schedules, scheduleOf);
      var sid := scheduleOf[t];
      schedules := schedules[sid := schedules[sid].(dependFrom := 0, dependencyType := dependencyType)];
      RankedAfterUpdate(before, schedules, rank, dueDates.Keys);
    }

    /** The loop over the children of `t`'s schedule, left early when a
      * child stops on an unassigned `$dueDate`. */
    method VisitChildren(t: int, now: int, ghost rank: int -> nat) returns (aborted: bool)
      requires t in dueDates && HasSchedule(Plan(schedules, scheduleOf), t)
      requires Ranked(Plan(schedules, scheduleOf), rank, dueDates.Keys)
      modifies this
      ensures schedules == old(schedules) && scheduleOf == old(scheduleOf)
      ensures Run(dueDates, aborted) == Children(Plan(schedules, scheduleOf), rank, t, 0, None, old(dueDates), now)
      decreases TaskRank(Plan(schedules, scheduleOf), rank, t), 1
    {
      ghost var plan := Plan(schedules, scheduleOf);
      ghost var start := dueDates;
      var children := schedules[scheduleOf[t]].children;
      var lastDue: Option<int> := None;
      var i := 0;
      aborted := false;
      while i < |children| && !aborted
        invariant 0 <= i <= |children|
        invariant schedules == plan.schedules && scheduleOf == plan.scheduleOf
        invariant dueDates.Keys == start.Keys
        invariant !aborted ==> Children(plan, rank, t, i, lastDue, dueDates, now) == Children(plan, rank, t, 0, None, start, now)
        invariant aborted ==> Run(dueDates, true) == Children(plan, rank, t, 0, None, start, now)
        decreases |children| - i
      {
        lastDue, aborted := VisitChild(t, i, lastDue, now, rank);
        i := i + 1;
      }
      if !aborted {
        ChildrenDone(plan, rank, t, lastDue, dueDates, now);
      }
    }

    /** One iteration of the loop over the children of `t`'s schedule: the
      * child's task, if any, gets its due date and passes it on; reading an
      * unassigned `$dueDate` stops the loop before anything is saved. */
    method VisitChild(t: int, i: nat, lastDue: Option<int>, now: int, ghost rank: int -> nat)
      returns (due: Option<int>, aborted: bool)
      requires t in dueDates && HasSchedule(Plan(schedules, scheduleOf), t)
      requires Ranked(Plan(schedules, scheduleOf), rank, dueDates.Keys)
      requires i < |schedules[scheduleOf[t]].children|
      modifies this
      ensures schedules == old(schedules) && scheduleOf == old(scheduleOf)
      ensures dueDates.Keys == old(dueDates).Keys
      ensures Children(Plan(schedules, scheduleOf), rank, t, i, lastDue, old(dueDates), now)
           == if aborted then Run(dueDates, true) else Children(Plan(schedules, scheduleOf), rank, t, i + 1, due, dueDates, now)
      decreases TaskRank(Plan(schedules, scheduleOf), rank, t), 0
    {
      ghost var plan := Plan(schedules, scheduleOf);
      var sid := scheduleOf[t];
      var s := schedules[sid];
      var c := s.children[i];
      due := lastDue;
      aborted := false;
      if c in schedules && schedules[c].task.Some? && schedules[c].task.value in dueDates {
        var ct := schedules[c].task.value;
        var child := schedules[c];
        assert ChildTask(plan, dueDates.Keys, sid, i) == Some(ct);
        ghost var d, after := ChildrenStep(plan, rank, t, i, lastDue, dueDates, now);
        due := ChildDue(DueOf(dueDates, t, now), s, child, lastDue);
        if due.None? {
          aborted := true;
          return;
        }
        dueDates := dueDates[ct := due];
        assert TaskRank(plan, rank, ct) <= rank(sid);
        aborted := ModifyDependedTaskDueDates(ct, false, StartEnd, now, rank);
      } else {
        ChildrenSkip(plan, rank, t, i, lastDue, dueDates, now);
      }
    }
  }
}
