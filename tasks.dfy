/** The task database and `TaskService`: tasks are rows of the `tasks`
    table, keyed by their identifier. The identifier `crypto.randomUUID`
    draws is supplied by the caller as a number, and the table's key order
    is the order of those numbers. */
module Tasks {
  import opened Common
  import opened Ranking
  import opened Dexie

  datatype TaskType = Consult | ProcedureReport | EchoProcedure | EchoReport | FollowUp
                    | PatientCall | MdoPrep | Callback | General

  datatype TaskStatus = Pending | InProgress | Waiting | Completed

  datatype Priority = Low | Medium | High | Urgent

  /** The string each enumeration value stands for. */
  function TypeName(t: TaskType): string {
    match t
    case Consult => "consult"
    case ProcedureReport => "procedure_report"
    case EchoProcedure => "echo_procedure"
    case EchoReport => "echo_report"
    case FollowUp => "follow_up"
    case PatientCall => "patient_call"
    case MdoPrep => "mdo_prep"
    case Callback => "callback"
    case General => "general"
  }

  function StatusName(s: TaskStatus): string {
    match s
    case Pending => "pending"
    case InProgress => "in_progress"
    case Waiting => "waiting"
    case Completed => "completed"
  }

  function PriorityName(p: Priority): string {
    match p
    case Low => "low"
    case Medium => "medium"
    case High => "high"
    case Urgent => "urgent"
  }

  /** Different values have different names, and none of them is "all",
      the word the filters use for "any". */
  lemma NamesDistinct()
    ensures forall a, b :: TypeName(a) == TypeName(b) ==> a == b
    ensures forall a, b :: StatusName(a) == StatusName(b) ==> a == b
    ensures forall a, b :: PriorityName(a) == PriorityName(b) ==> a == b
    ensures forall a :: TypeName(a) != "all"
    ensures forall a :: StatusName(a) != "all"
    ensures forall a :: PriorityName(a) != "all"
  {
  }

  /** A stored task, without its key. Times are milliseconds. */
  datatype TaskData = TaskData(taskType: TaskType, title: string, description: string, status: TaskStatus,
                               priority: Priority, dueDate: Option<int>, createdAt: int, updatedAt: int,
                               completedAt: Option<int>, patientRef: string, tags: seq<string>)

  type Task = Row<TaskData>

  /** The argument of `createTask`: a missing field, or an empty string
      for the text fields, takes its default. */
  datatype NewTask = NewTask(taskType: Option<TaskType>, title: string, description: string,
                             priority: Option<Priority>, dueDate: Option<int>, patientRef: string,
                             tags: Option<seq<string>>)

  function OrElse<T>(o: Option<T>, d: T): T {
    if o.Some? then o.value else d
  }

  /** The task `createTask` builds: pending, never completed, created and
      updated now, with the defaults for missing fields. */
  function Created(input: NewTask, now: int): (d: TaskData)
    ensures d.status == Pending && d.completedAt == None
    ensures d.createdAt == now && d.updatedAt == now
    ensures d.taskType == (if input.taskType.Some? then input.taskType.value else General)
    ensures d.priority == (if input.priority.Some? then input.priority.value else Medium)
    ensures d.title == input.title && d.description == input.description && d.patientRef == input.patientRef
    ensures d.dueDate == input.dueDate
    ensures d.tags == (if input.tags.Some? then input.tags.value else [])
  {
    TaskData(OrElse(input.taskType, General), input.title, input.description, Pending,
             OrElse(input.priority, Medium), input.dueDate, now, now, None, input.patientRef, OrElse(input.tags, []))
  }

  /** The argument of `updateTask`: the fields to overwrite. A due date or
      completion time can be overwritten with `null`, hence the nested
      option. */
  datatype Patch = Patch(taskType: Option<TaskType>, title: Option<string>, description: Option<string>,
                         status: Option<TaskStatus>, priority: Option<Priority>, dueDate: Option<Option<int>>,
                         completedAt: Option<Option<int>>, patientRef: Option<string>, tags: Option<seq<string>>)

  const NoChange := Patch(None, None, None, None, None, None, None, None, None)

  /** `updateTask` stamps a completion that comes without a time (absent
      or `null`) with the current time. */
  function Stamped(p: Patch, now: int): (q: Patch)
    ensures p.status == Some(Completed) && (p.completedAt.None? || p.completedAt == Some(None)) ==>
              q == p.(completedAt := Some(Some(now)))
    ensures !(p.status == Some(Completed) && (p.completedAt.None? || p.completedAt == Some(None))) ==> q == p
  {
    if p.status == Some(Completed) && (p.completedAt.None? || p.completedAt == Some(None)) then
      p.(completedAt := Some(Some(now)))
    else p
  }

  /** The change `db.tasks.update(id, {...patch, updatedAt: now})` makes to
      the stored task. */
  function ApplyPatch(p: Patch, now: int): TaskData -> TaskData {
    (d: TaskData) => TaskData(OrElse(p.taskType, d.taskType), OrElse(p.title, d.title),
                              OrElse(p.description, d.description), OrElse(p.status, d.status),
                              OrElse(p.priority, d.priority), OrElse(p.dueDate, d.dueDate), d.createdAt, now,
                              OrElse(p.completedAt, d.completedAt), OrElse(p.patientRef, d.patientRef),
                              OrElse(p.tags, d.tags))
  }

  /** Every field the patch names takes the patch's value, the others keep
      theirs, and the task is marked updated now. */
  lemma ApplyPatchSpec(p: Patch, now: int, d: TaskData)
    ensures var e := ApplyPatch(p, now)(d);
            e.updatedAt == now && e.createdAt == d.createdAt &&
            e.status == (if p.status.Some? then p.status.value else d.status) &&
            e.completedAt == (if p.completedAt.Some? then p.completedAt.value else d.completedAt) &&
            e.title == (if p.title.Some? then p.title.value else d.title) &&
            e.dueDate == (if p.dueDate.Some? then p.dueDate.value else d.dueDate) &&
            e.tags == (if p.tags.Some? then p.tags.value else d.tags)
    ensures ApplyPatch(NoChange, now)(d) == d.(updatedAt := now)
  {
  }

  /** Marking complete always leaves the task completed with a time. */
  lemma CompletionStamped(p: Patch, now: int, d: TaskData)
    requires p.status == Some(Completed)
    ensures ApplyPatch(Stamped(p, now), now)(d).status == Completed
    ensures ApplyPatch(Stamped(p, now), now)(d).completedAt.Some?
  {
  }

  /** `getAllTasks` orders by `createdAt`, reversed; equal times fall back on
      the key, also reversed. */
  function NewestFirst(t: Task): Key {
    (-t.data.createdAt, -(t.id as int))
  }

  /** The due date, 0 for a task without one. */
  function DueTime(t: Task): int {
    OrElse(t.data.dueDate, 0)
  }

  function DueKey(t: Task): Key {
    (DueTime(t), t.id)
  }

  /** Due before `now` and not completed; a task without a due date is not
      in the `dueDate` index, so it never qualifies. */
  predicate IsOverdue(t: Task, now: int) {
    t.data.dueDate.Some? && t.data.dueDate.value < now && t.data.status != Completed
  }

  function OverdueAt(now: int): Task -> bool {
    (t: Task) => IsOverdue(t, now)
  }

  /** `query` occurs, ignoring ASCII case, in the title, description,
      patient reference or a tag. */
  predicate MatchesQuery(t: TaskData, lowerQuery: string) {
    Includes(ToLower(t.title), lowerQuery) || Includes(ToLower(t.description), lowerQuery) ||
    Includes(ToLower(t.patientRef), lowerQuery) ||
    exists i :: 0 <= i < |t.tags| && Includes(ToLower(t.tags[i]), lowerQuery)
  }

  function QueryMatcher(lowerQuery: string): Task -> bool {
    (t: Task) => MatchesQuery(t.data, lowerQuery)
  }

  function StatusIs(s: TaskStatus): Task -> bool {
    (t: Task) => t.data.status == s
  }

  /** The local day that `getTaskStats` compares against, as its first and
      its last-plus-one millisecond. */
  datatype Day = Day(start: int, end: int)

  predicate OverdueBefore(t: Task, today: Day) {
    t.data.dueDate.Some? && t.data.dueDate.value < today.start && t.data.status != Completed
  }

  predicate DueOn(t: Task, today: Day) {
    t.data.dueDate.Some? && today.start <= t.data.dueDate.value < today.end
  }

  predicate CreatedOn(t: Task, today: Day) {
    today.start <= t.data.createdAt < today.end
  }

  function TodayOn(today: Day): Task -> bool {
    (t: Task) => DueOn(t, today) || CreatedOn(t, today)
  }

  function OverdueBeforeDay(today: Day): Task -> bool {
    (t: Task) => OverdueBefore(t, today)
  }

  function DueOnDay(today: Day): Task -> bool {
    (t: Task) => DueOn(t, today)
  }

  datatype TaskStats = TaskStats(total: nat, pending: nat, inProgress: nat, completed: nat,
                                 overdue: nat, dueToday: nat)

  /** The counts `getTaskStats` reports for a list of tasks. */
  function StatsOf(tasks: seq<Task>, today: Day): (s: TaskStats)
    ensures s.total == |tasks|
    ensures s.pending + s.inProgress + s.completed <= s.total
    ensures s.overdue <= s.total - s.completed && s.dueToday <= s.total
  {
    StatusPartition(tasks);
    OverdueNotCompleted(tasks, today);
    TaskStats(|tasks|, |Filter(tasks, StatusIs(Pending))|, |Filter(tasks, StatusIs(InProgress))|,
              |Filter(tasks, StatusIs(Completed))|, |Filter(tasks, OverdueBeforeDay(today))|,
              |Filter(tasks, DueOnDay(today))|)
  }

  /** Every task has exactly one of the four statuses; the waiting ones
      are the ones the statistics leave out. */
  lemma {:induction false} StatusPartition(tasks: seq<Task>)
    ensures |Filter(tasks, StatusIs(Pending))| + |Filter(tasks, StatusIs(InProgress))| +
            |Filter(tasks, StatusIs(Waiting))| + |Filter(tasks, StatusIs(Completed))| == |tasks|
    decreases |tasks|
  {
    if tasks != [] {
      StatusPartition(tasks[1..]);
    }
  }

  /** No completed task is overdue, so overdue and completed tasks are
      disjoint. */
  lemma {:induction false} OverdueNotCompleted(tasks: seq<Task>, today: Day)
    ensures |Filter(tasks, OverdueBeforeDay(today))| + |Filter(tasks, StatusIs(Completed))| <= |tasks|
    decreases |tasks|
  {
    if tasks != [] {
      OverdueNotCompleted(tasks[1..], today);
    }
  }

  /** The service over the `tasks` table. */
  class TaskService {
    var table: Table<TaskData>

    ghost predicate Valid()
      reads this
    {
      table.Valid()
    }

    constructor()
      ensures Valid() && table == EmptyTable()
    {
      table := EmptyTable();
    }

    /** `createTask(taskData)` with the fresh identifier `id`: the new task
        is stored and returned; `add` rejects a key that is taken. */
    method CreateTask(input: NewTask, id: nat, now: int) returns (task: Option<Task>)
      requires Valid()
      modifies this
      ensures Valid()
      ensures old(table).HasId(id) <==> task.None?
      ensures task.None? ==> table == old(table)
      ensures task.Some? ==> task.value == Row(id, Created(input, now)) &&
                             table == old(table).AddKeyed(task.value).value
    {
      var data := Created(input, now);
      var added := table.AddKeyed(Row(id, data));
      if added.Some? {
        table := added.value;
        task := Some(Row(id, data));
      } else {
        task := None;
      }
    }

    /** `getAllTasks()`: every task, newest first. */
    function GetAllTasks(): (r: seq<Task>)
      reads this
      ensures multiset(r) == multiset(table.rows)
      ensures forall i, j :: 0 <= i < j < |r| ==> r[i].data.createdAt >= r[j].data.createdAt
      ensures forall i, j :: 0 <= i < j < |r| && r[i].data.createdAt == r[j].data.createdAt ==> r[i].id >= r[j].id
    {
      SortSorted(table.rows, NewestFirst);
      Sort(table.rows, NewestFirst)
    }

    /** `getOverdueTasks(now)`: the overdue tasks, by due date. */
    function GetOverdueTasks(now: int): (r: seq<Task>)
      reads this
      ensures forall t :: t in r <==> t in table.rows && IsOverdue(t, now)
      ensures |r| == |Filter(table.rows, OverdueAt(now))|
      ensures forall i :: 0 <= i < |r| ==> IsOverdue(r[i], now)
      ensures forall i, j :: 0 <= i < j < |r| ==> DueTime(r[i]) <= DueTime(r[j])
    {
      OverdueByDueDate(table.rows, now)
    }

    /** `getTasksByStatus(status)`: the tasks with that status, in key
        order, which is the order of the `status` index among equal
        statuses. */
    function GetTasksByStatus(status: TaskStatus): (r: seq<Task>)
      reads this
      ensures IsSubsequence(r, table.rows)
      ensures forall t :: t in r <==> t in table.rows && t.data.status == status
    {
      FilterSpec(table.rows, StatusIs(status));
      Filter(table.rows, StatusIs(status))
    }

    /** `getTodaysTasks()`: the tasks due today or created today. */
    function GetTodaysTasks(today: Day): (r: seq<Task>)
      reads this
      ensures forall t :: t in r <==> t in table.rows && (DueOn(t, today) || CreatedOn(t, today))
      ensures IsSubsequence(r, table.rows)
    {
      FilterSpec(table.rows, TodayOn(today));
      Filter(table.rows, TodayOn(today))
    }

    /** `updateTask(id, updates)`: the stored task, if any, takes the
        patch (with the completion stamp) and is returned as it now is. */
    method UpdateTask(id: nat, updates: Patch, now: int) returns (r: Option<TaskData>)
      requires Valid()
      modifies this
      ensures Valid()
      ensures table == old(table).Update(id, ApplyPatch(Stamped(updates, now), now))
      ensures r == table.Get(id)
      ensures r.Some? <==> old(table).Get(id).Some?
      ensures r.Some? ==> r.value == ApplyPatch(Stamped(updates, now), now)(old(table).Get(id).value)
      ensures forall k :: k != id ==> table.Get(k) == old(table).Get(k)
    {
      UpdateGet(table, id, ApplyPatch(Stamped(updates, now), now));
      UpdateOthers(table, id, ApplyPatch(Stamped(updates, now), now));
      table := table.Update(id, ApplyPatch(Stamped(updates, now), now));
      r := table.Get(id);
    }

    /** `deleteTask(id)`: only that task is removed. */
    method DeleteTask(id: nat)
      requires Valid()
      modifies this
      ensures Valid()
      ensures table == old(table).Delete(id)
      ensures table.Get(id) == None && forall k :: k != id ==> table.Get(k) == old(table).Get(k)
    {
      table := table.Delete(id);
    }

    /** `completeTask(id)`: an update to COMPLETED, completed now. */
    method CompleteTask(id: nat, now: int) returns (r: Option<TaskData>)
      requires Valid()
      modifies this
      ensures Valid()
      ensures r.Some? <==> old(table).Get(id).Some?
      ensures r.Some? ==> r.value.status == Completed && r.value.completedAt == Some(now) && r.value.updatedAt == now
      ensures forall k :: k != id ==> table.Get(k) == old(table).Get(k)
    {
      r := UpdateTask(id, NoChange.(status := Some(Completed), completedAt := Some(Some(now))), now);
    }

    /** `searchTasks(query)`: the matching tasks, in key order. */
    function SearchTasks(query: string): (r: seq<Task>)
      reads this
      ensures IsSubsequence(r, table.rows)
      ensures forall t :: t in r <==> t in table.rows && MatchesQuery(t.data, ToLower(query))
    {
      FilterSpec(table.rows, QueryMatcher(ToLower(query)));
      Filter(table.rows, QueryMatcher(ToLower(query)))
    }

    /** `getTaskStats(today)`: the counts over all tasks. */
    function GetTaskStats(today: Day): (s: TaskStats)
      reads this
      ensures s.total == table.Count()
      ensures s.pending + s.inProgress + s.completed <= s.total
      ensures s == StatsOf(GetAllTasks(), today)
    {
      StatsOf(GetAllTasks(), today)
    }
  }

  /** The overdue rows, stably sorted by due date. */
  function OverdueByDueDate(rows: seq<Task>, now: int): (r: seq<Task>)
    ensures forall t :: t in r <==> t in rows && IsOverdue(t, now)
    ensures |r| == |Filter(rows, OverdueAt(now))|
    ensures forall i :: 0 <= i < |r| ==> IsOverdue(r[i], now)
    ensures forall i, j :: 0 <= i < j < |r| ==> DueTime(r[i]) <= DueTime(r[j])
  {
    OverdueMembers(rows, now);
    AllOverdue(Sort(Filter(rows, OverdueAt(now)), DueKey), rows, now);
    SortSorted(Filter(rows, OverdueAt(now)), DueKey);
    DueOrder(Sort(Filter(rows, OverdueAt(now)), DueKey));
    Sort(Filter(rows, OverdueAt(now)), DueKey)
  }

  lemma OverdueMembers(rows: seq<Task>, now: int)
    ensures forall t :: t in Sort(Filter(rows, OverdueAt(now)), DueKey) <==> t in rows && IsOverdue(t, now)
  {
    FilterSpec(rows, OverdueAt(now));
    SortMembers(Filter(rows, OverdueAt(now)), DueKey);
  }

  lemma AllOverdue(r: seq<Task>, rows: seq<Task>, now: int)
    requires forall t :: t in r <==> t in rows && IsOverdue(t, now)
    ensures forall i :: 0 <= i < |r| ==> IsOverdue(r[i], now)
  {
    forall i | 0 <= i < |r| ensures IsOverdue(r[i], now) {
      assert r[i] in r;
    }
  }

  /** Rows ordered by the key are ordered by due date. */
  lemma DueOrder(r: seq<Task>)
    requires SortedBy(r, DueKey)
    ensures forall i, j :: 0 <= i < j < |r| ==> DueTime(r[i]) <= DueTime(r[j])
  {
    forall i, j | 0 <= i < j < |r| ensures DueTime(r[i]) <= DueTime(r[j]) {
      assert KeyLe(DueKey(r[i]), DueKey(r[j]));
    }
  }

  /** The statistics count the stored tasks: sorting them first changes
      none of the counts. */
  lemma StatsOfRows(s: TaskService, today: Day)
    ensures var st := s.GetTaskStats(today);
            st.pending == |Filter(s.table.rows, StatusIs(Pending))| &&
            st.inProgress == |Filter(s.table.rows, StatusIs(InProgress))| &&
            st.completed == |Filter(s.table.rows, StatusIs(Completed))| &&
            st.overdue == |Filter(s.table.rows, OverdueBeforeDay(today))| &&
            st.dueToday == |Filter(s.table.rows, DueOnDay(today))|
  {
    var all := s.GetAllTasks();
    FilterCountPermutation(all, s.table.rows, StatusIs(Pending));
    FilterCountPermutation(all, s.table.rows, StatusIs(InProgress));
    FilterCountPermutation(all, s.table.rows, StatusIs(Completed));
    FilterCountPermutation(all, s.table.rows, OverdueBeforeDay(today));
    FilterCountPermutation(all, s.table.rows, DueOnDay(today));
  }

  /** A task counted overdue by the statistics is also returned by
      `getOverdueTasks` at any moment of that day. */
  lemma StatsOverdueIsOverdue(t: Task, today: Day, now: int)
    requires OverdueBefore(t, today) && today.start <= now
    ensures IsOverdue(t, now)
  {
  }

  // ---------------------------------------------------------------------------
  // Templates

  /** A template of `defaultTemplates`. */
  datatype Template = Template(name: string, taskType: TaskType, defaultTitle: string,
                               defaultDescription: string, defaultPriority: Priority, tags: seq<string>)

  const DefaultTemplates: seq<Template> := [
    Template("Cardiologie Consult", Consult, "Cardiologie consult voor [Specialisme]",
             "Consult uitvoeren en verslag opstellen", Medium, ["consult", "cardiologie"]),
    Template("Cathlab Verslag", ProcedureReport, "Cathlab procedure verslag",
             "Procedure verslag voltooien voor vandaag's cathlab", High, ["cathlab", "verslag"]),
    Template("Bedside Echo", EchoProcedure, "Bedside echocardiogram (TTE)",
             "Bedside TTE uitvoeren", Medium, ["echo", "tte", "bedside"]),
    Template("Echo Verslag", EchoReport, "Echocardiogram verslag",
             "Echo verslag voltooien (TTE/TEE)", High, ["echo", "verslag"]),
    Template("Lab Follow-up", FollowUp, "Follow-up lab uitslagen",
             "Lab uitslagen bekijken en follow-up", Medium, ["lab", "follow-up"]),
    Template("Patiënt Gesprek", PatientCall, "Patiënt bellen - uitslagen bespreken",
             "Onderzoeksresultaten en behandelplan bespreken", High, ["patient", "bellen", "uitslagen"]),
    Template("MDO Voorbereiding", MdoPrep, "MDO meeting voorbereiden",
             "Cases en materialen voorbereiden voor multidisciplinair overleg", Medium,
             ["mdo", "meeting", "voorbereiding"])
  ]

  /** Some shipped templates ask for a high priority. */
  lemma SomeTemplateIsHigh()
    ensures DefaultTemplates[1].defaultPriority == High
  {
  }
}
