/** The list state of the `useTasks` hook and the filters of
    `useTaskFilters`. Every change builds a new list from the previous one;
    the service call that precedes it is `Tasks.TaskService`. */
module UseTasks {
  import opened Common
  import opened Dexie
  import opened Tasks

  /** `createTask`: the new task goes in front. */
  function Prepend(tasks: seq<Task>, t: Task): (r: seq<Task>)
    ensures |r| == |tasks| + 1 && r[0] == t && r[1..] == tasks
  {
    [t] + tasks
  }

  /** `updateTask` and `completeTask`: every element with that key is
      replaced by the task the service returned; the rest stay in place. */
  function ReplaceById(tasks: seq<Task>, id: nat, data: TaskData): (r: seq<Task>)
    ensures |r| == |tasks|
    ensures forall i :: 0 <= i < |r| ==> r[i] == if tasks[i].id == id then Row(id, data) else tasks[i]
  {
    seq(|tasks|, i requires 0 <= i < |tasks| => if tasks[i].id == id then Row(id, data) else tasks[i])
  }

  function KeyIsNot(id: nat): Task -> bool {
    (t: Task) => t.id != id
  }

  /** `deleteTask`: the elements with that key are dropped. */
  function RemoveById(tasks: seq<Task>, id: nat): (r: seq<Task>)
    ensures IsSubsequence(r, tasks)
    ensures forall t :: t in r <==> t in tasks && t.id != id
  {
    FilterSpec(tasks, KeyIsNot(id));
    Filter(tasks, KeyIsNot(id))
  }

  /** A list without the key is left as it is by both. */
  lemma AbsentKey(tasks: seq<Task>, id: nat, data: TaskData)
    requires forall i :: 0 <= i < |tasks| ==> tasks[i].id != id
    ensures ReplaceById(tasks, id, data) == tasks
    ensures RemoveById(tasks, id) == tasks
  {
    FilterAll(tasks, KeyIsNot(id));
  }

  /** `tasks.find(t => t.id === id)`. */
  function Find(tasks: seq<Task>, id: nat): (r: Option<Task>)
    ensures r.None? <==> forall i :: 0 <= i < |tasks| ==> tasks[i].id != id
    ensures r.Some? ==> exists i :: 0 <= i < |tasks| && tasks[i] == r.value && r.value.id == id &&
                                    forall j :: 0 <= j < i ==> tasks[j].id != id
  {
    if tasks == [] then None
    else if tasks[0].id == id then Some(tasks[0])
    else
      var r := Find(tasks[1..], id);
      if r.Some? then
        var i :| 0 <= i < |tasks[1..]| && tasks[1..][i] == r.value && r.value.id == id &&
                 forall j :: 0 <= j < i ==> tasks[1..][j].id != id;
        assert tasks[i + 1] == r.value;
        r
      else r
  }

  /** The status `toggleTaskStatus` moves to. */
  function Toggled(s: TaskStatus): (r: TaskStatus)
    ensures s == Pending <==> r == InProgress
    ensures s != Pending <==> r == Pending
  {
    if s == Pending then InProgress else Pending
  }

  /** `toggleTaskStatus(id)`: the update it asks for, or none when no
      listed task has that key. */
  function ToggleRequest(tasks: seq<Task>, id: nat): (r: Option<Patch>)
    ensures r.None? <==> forall i :: 0 <= i < |tasks| ==> tasks[i].id != id
    ensures r.Some? ==> r.value == NoChange.(status := Some(Toggled(Find(tasks, id).value.data.status)))
  {
    var t := Find(tasks, id);
    if t.None? then None else Some(NoChange.(status := Some(Toggled(t.value.data.status))))
  }

  /** Toggling twice brings a pending or in-progress task back; a waiting or
      completed one lands on pending. */
  lemma ToggleTwice(s: TaskStatus)
    ensures s == Pending || s == InProgress ==> Toggled(Toggled(s)) == s
    ensures s == Waiting || s == Completed ==> Toggled(s) == Pending
  {
  }

  /** Toggling never completes a task, so the stamp of `updateTask` never
      applies to it. */
  lemma ToggleNeverStamps(tasks: seq<Task>, id: nat, now: int)
    requires ToggleRequest(tasks, id).Some?
    ensures Stamped(ToggleRequest(tasks, id).value, now) == ToggleRequest(tasks, id).value
    ensures ToggleRequest(tasks, id).value.status != Some(Completed)
  {
  }

  // ---------------------------------------------------------------------------
  // useTaskFilters

  /** The filter state; "all" switches a dimension off, an empty search
      matches everything. */
  datatype Filters = Filters(status: string, taskType: string, priority: string, search: string)

  const InitialFilters := Filters("all", "all", "all", "")

  predicate Passes(t: TaskData, f: Filters) {
    (f.status == "all" || StatusName(t.status) == f.status) &&
    (f.taskType == "all" || TypeName(t.taskType) == f.taskType) &&
    (f.priority == "all" || PriorityName(t.priority) == f.priority) &&
    (f.search == "" || MatchesQuery(t, ToLower(f.search)))
  }

  function PassesFilters(f: Filters): Task -> bool {
    (t: Task) => Passes(t.data, f)
  }

  /** `filteredTasks`: the tasks that pass every active filter, in the
      list's order. */
  function FilteredTasks(tasks: seq<Task>, f: Filters): (r: seq<Task>)
    ensures IsSubsequence(r, tasks)
    ensures forall t :: t in r <==> t in tasks && Passes(t.data, f)
  {
    FilterSpec(tasks, PassesFilters(f));
    Filter(tasks, PassesFilters(f))
  }

  /** A status filter keeps exactly the tasks with that status. */
  lemma StatusFilter(t: TaskData, s: TaskStatus, f: Filters)
    requires f.status == StatusName(s) && f.taskType == "all" && f.priority == "all" && f.search == ""
    ensures Passes(t, f) <==> t.status == s
  {
    NamesDistinct();
  }

  /** The initial filters keep the whole list. */
  lemma InitialKeepsAll(tasks: seq<Task>)
    ensures FilteredTasks(tasks, InitialFilters) == tasks
  {
    FilterAll(tasks, PassesFilters(InitialFilters));
  }

  /** An empty search and a search that matches the task are the same to
      the filter, since every text includes the empty string. */
  lemma EmptySearchMatches(t: TaskData)
    ensures MatchesQuery(t, ToLower(""))
  {
    assert "" <= ToLower(t.title);
  }

  datatype FilterKey = StatusKey | TypeKey | PriorityKey | SearchKey

  /** `updateFilter(key, value)`: that key takes the value, the others keep
      theirs. */
  function UpdateFilter(f: Filters, key: FilterKey, value: string): (g: Filters)
    ensures g.status == (if key == StatusKey then value else f.status)
    ensures g.taskType == (if key == TypeKey then value else f.taskType)
    ensures g.priority == (if key == PriorityKey then value else f.priority)
    ensures g.search == (if key == SearchKey then value else f.search)
  {
    match key
    case StatusKey => f.(status := value)
    case TypeKey => f.(taskType := value)
    case PriorityKey => f.(priority := value)
    case SearchKey => f.(search := value)
  }

  /** `clearFilters()`: back to the initial filters, whatever was set. */
  function ClearFilters(f: Filters): (g: Filters)
    ensures g == InitialFilters
    ensures forall key :: FilterOf(g, key) == (if key == SearchKey then "" else "all")
  {
    InitialFilters
  }

  /** After `clearFilters()` every task is shown again, whatever the filters
      hid before. */
  lemma ClearFiltersShowsAll(f: Filters, tasks: seq<Task>)
    ensures FilteredTasks(tasks, ClearFilters(f)) == tasks
  {
    InitialKeepsAll(tasks);
  }

  /** The value the filters hold for `key`. */
  function FilterOf(f: Filters, key: FilterKey): string {
    match key
    case StatusKey => f.status
    case TypeKey => f.taskType
    case PriorityKey => f.priority
    case SearchKey => f.search
  }

  /** Setting a key back to the value it had undoes any update of it; so
      for a dimension that was "all", setting it to "all" again undoes a
      filter on it. */
  lemma UpdateFilterUndo(f: Filters, key: FilterKey, value: string)
    ensures UpdateFilter(UpdateFilter(f, key, value), key, FilterOf(f, key)) == f
    ensures FilterOf(f, key) == "all" ==> UpdateFilter(UpdateFilter(f, key, value), key, "all") == f
    ensures FilterOf(UpdateFilter(f, key, value), key) == value
  {
  }
}
