/** The dashboard: its four task sections over the hook's list, the
    completion rate from the statistics, and the item cap of a section. */
module Dashboard {
  import opened Common
  import opened Tasks

  /** Open and either due today or created today. */
  predicate OpenToday(t: Task, today: Day) {
    t.data.status != Completed && (DueOn(t, today) || CreatedOn(t, today))
  }

  function OpenTodayOn(today: Day): Task -> bool {
    (t: Task) => OpenToday(t, today)
  }

  predicate OpenUrgent(t: Task) {
    t.data.priority == Urgent && t.data.status != Completed
  }

  function IsOpenUrgent(): Task -> bool {
    (t: Task) => OpenUrgent(t)
  }

  /** `todaysTasks`: open tasks due or created today, in list order. */
  function TodaysTasks(tasks: seq<Task>, today: Day): (r: seq<Task>)
    ensures IsSubsequence(r, tasks)
    ensures forall t :: t in r <==> t in tasks && t.data.status != Completed && (DueOn(t, today) || CreatedOn(t, today))
  {
    FilterSpec(tasks, OpenTodayOn(today));
    Filter(tasks, OpenTodayOn(today))
  }

  /** `overdueTasks`: a due date in the past and not completed. */
  function OverdueTasks(tasks: seq<Task>, now: int): (r: seq<Task>)
    ensures IsSubsequence(r, tasks)
    ensures forall t :: t in r <==> t in tasks && t.data.dueDate.Some? && t.data.dueDate.value < now &&
                                    t.data.status != Completed
  {
    FilterSpec(tasks, OverdueAt(now));
    Filter(tasks, OverdueAt(now))
  }

  /** `urgentTasks`: urgent and not completed. */
  function UrgentTasks(tasks: seq<Task>): (r: seq<Task>)
    ensures IsSubsequence(r, tasks)
    ensures forall t :: t in r <==> t in tasks && t.data.priority == Urgent && t.data.status != Completed
  {
    FilterSpec(tasks, IsOpenUrgent());
    Filter(tasks, IsOpenUrgent())
  }

  /** `inProgressTasks`: the tasks in progress. */
  function InProgressTasks(tasks: seq<Task>): (r: seq<Task>)
    ensures IsSubsequence(r, tasks)
    ensures forall t :: t in r <==> t in tasks && t.data.status == InProgress
  {
    FilterSpec(tasks, StatusIs(InProgress));
    Filter(tasks, StatusIs(InProgress))
  }

  /** Over the list the service hands out, the overdue section holds the
      same tasks as `getOverdueTasks`, and today's section those of
      `getTodaysTasks` that are still open. */
  lemma SectionsAgreeWithService(s: TaskService, now: int, today: Day)
    ensures forall t :: t in OverdueTasks(s.GetAllTasks(), now) <==> t in s.GetOverdueTasks(now)
    ensures forall t :: t in TodaysTasks(s.GetAllTasks(), today) <==>
                          t in s.GetTodaysTasks(today) && t.data.status != Completed
  {
    var all := s.GetAllTasks();
    assert forall t :: t in all <==> t in s.table.rows by {
      assert forall t :: t in all <==> t in multiset(all);
      assert forall t :: t in s.table.rows <==> t in multiset(s.table.rows);
    }
  }

  /** `Math.round(completed / total * 100)`, with 0 for no tasks; the
      rounding is that of the exact quotient, half up. */
  function CompletionRate(total: nat, completed: nat): (r: int)
    ensures total == 0 ==> r == 0
    ensures total > 0 ==> 2 * total * r <= 200 * completed + total < 2 * total * (r + 1)
  {
    if total > 0 then (200 * completed + total) / (2 * total) else 0
  }

  /** The rate lies in [0, 100] when no more tasks are completed than
      exist, and is 100 when all of at least one task are. */
  lemma CompletionRateBounds(total: nat, completed: nat)
    requires completed <= total
    ensures 0 <= CompletionRate(total, completed) <= 100
    ensures 0 < completed == total ==> CompletionRate(total, completed) == 100
  {
    if total > 0 {
      var r := CompletionRate(total, completed);
      var d := 2 * total;
      var n := 200 * completed + total;
      assert d * r <= n < d * (r + 1);
      assert d * 101 == 202 * total && d * 0 == 0 && d * 100 == 200 * total;
      MulCancel(d, r, 101);
      MulCancel(d, 0, r + 1);
      if completed == total {
        MulCancel(d, 100, r + 1);
      }
    }
  }

  /** `d * x < d * y` with `d > 0` gives `x < y`. */
  lemma MulCancel(d: nat, x: int, y: int)
    requires d > 0 && d * x < d * y
    ensures x < y
  {
  }

  /** With the statistics of the store the rate is a percentage. */
  lemma StatsRateBounds(tasks: seq<Task>, today: Day)
    ensures 0 <= CompletionRate(StatsOf(tasks, today).total, StatsOf(tasks, today).completed) <= 100
  {
    CompletionRateBounds(StatsOf(tasks, today).total, StatsOf(tasks, today).completed);
  }

  /** A section shows its empty message, or its first `maxItems` tasks and
      a `+k meer taken` note for the rest. */
  datatype Section = EmptyMessage | Listing(items: Capped<Task>)

  function TaskSection(tasks: seq<Task>, maxItems: nat): (s: Section)
    ensures s.EmptyMessage? <==> tasks == []
    ensures s.Listing? ==> s.items.shown == tasks[..Min(|tasks|, maxItems)]
    ensures s.Listing? ==> (s.items.more > 0 <==> |tasks| > maxItems) && s.items.more == |tasks| - |s.items.shown|
  {
    if tasks == [] then EmptyMessage else Listing(Cap(tasks, maxItems))
  }

  const DefaultMaxItems: nat := 5

  /** What the dashboard shows: urgent and overdue sections only when they
      have tasks, capped at 3; today's and in-progress always, capped at 4. */
  datatype View = View(urgent: Option<Section>, overdue: Option<Section>, today: Section, inProgress: Section,
                       completionRate: int)

  function DashboardView(tasks: seq<Task>, stats: TaskStats, now: int, today: Day): (v: View)
    ensures v.urgent.None? <==> UrgentTasks(tasks) == []
    ensures v.overdue.None? <==> OverdueTasks(tasks, now) == []
    ensures v.urgent.Some? ==> v.urgent.value == TaskSection(UrgentTasks(tasks), 3) && v.urgent.value.Listing?
    ensures v.overdue.Some? ==> v.overdue.value == TaskSection(OverdueTasks(tasks, now), 3) && v.overdue.value.Listing?
    ensures v.today == TaskSection(TodaysTasks(tasks, today), 4)
    ensures v.inProgress == TaskSection(InProgressTasks(tasks), 4)
    ensures v.completionRate == CompletionRate(stats.total, stats.completed)
  {
    var urgent := UrgentTasks(tasks);
    var overdue := OverdueTasks(tasks, now);
    View(if urgent == [] then None else Some(TaskSection(urgent, 3)),
         if overdue == [] then None else Some(TaskSection(overdue, 3)),
         TaskSection(TodaysTasks(tasks, today), 4), TaskSection(InProgressTasks(tasks), 4),
         CompletionRate(stats.total, stats.completed))
  }

  /** No task is both in today's section and completed, and every shown
      urgent task is open. */
  lemma SectionsShowOpenTasks(tasks: seq<Task>, now: int, today: Day)
    ensures forall i :: 0 <= i < |TodaysTasks(tasks, today)| ==> TodaysTasks(tasks, today)[i].data.status != Completed
    ensures forall i :: 0 <= i < |UrgentTasks(tasks)| ==> UrgentTasks(tasks)[i].data.status != Completed
  {
  }
}
