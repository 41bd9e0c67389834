/** The display rules of one task card: its overdue and due-today flags,
    border, status icon, badges, description and tag overflow, and the
    callback its status button calls. Time is in milliseconds; `now` is the
    current moment and `today` the local day around it. */
module TaskCard {
  import opened Common
  import opened Tasks
  import opened UseTasks

  predicate IsCompleted(t: Task) {
    t.data.status == Completed
  }

  /** `isPast(dueDate)` for a task that is not completed. */
  predicate CardOverdue(t: Task, now: int) {
    t.data.dueDate.Some? && t.data.dueDate.value < now && !IsCompleted(t)
  }

  /** `isToday(dueDate)`, whatever the status. */
  predicate CardDueToday(t: Task, today: Day) {
    t.data.dueDate.Some? && today.start <= t.data.dueDate.value < today.end
  }

  /** The card's flags are the store's overdue rule and due-on-day rule. */
  lemma FlagsAgreeWithStore(t: Task, now: int, today: Day)
    ensures CardOverdue(t, now) <==> IsOverdue(t, now)
    ensures CardDueToday(t, today) <==> DueOn(t, today)
    ensures CardOverdue(t, now) ==> !IsCompleted(t)
  {
  }

  datatype Border = GreenBorder | RedBorder | OrangeBorder | BlueBorder | GrayBorder

  function BorderClass(b: Border): string {
    match b
    case GreenBorder => "border-green-200"
    case RedBorder => "border-red-300"
    case OrangeBorder => "border-orange-300"
    case BlueBorder => "border-blue-300"
    case GrayBorder => "border-gray-200"
  }

  /** `getCardBorder`: completed, then overdue, then due today, then in
      progress, then the default; each colour is chosen exactly when its
      condition holds and no earlier one does. */
  function CardBorder(t: Task, now: int, today: Day): (b: Border)
    ensures b == GreenBorder <==> IsCompleted(t)
    ensures b == RedBorder <==> !IsCompleted(t) && CardOverdue(t, now)
    ensures b == OrangeBorder <==> !IsCompleted(t) && !CardOverdue(t, now) && CardDueToday(t, today)
    ensures b == BlueBorder <==> (!IsCompleted(t) && !CardOverdue(t, now) && !CardDueToday(t, today) &&
                                  t.data.status == InProgress)
    ensures b == GrayBorder <==> (!IsCompleted(t) && !CardOverdue(t, now) && !CardDueToday(t, today) &&
                                  t.data.status != InProgress)
  {
    if IsCompleted(t) then GreenBorder
    else if CardOverdue(t, now) then RedBorder
    else if CardDueToday(t, today) then OrangeBorder
    else if t.data.status == InProgress then BlueBorder
    else GrayBorder
  }

  datatype Icon = CheckIcon | ClockIcon | AlertIcon | CircleIcon

  /** `getStatusIcon`: completed, then in progress, then overdue, then the
      open circle. */
  function StatusIcon(t: Task, now: int): (i: Icon)
    ensures i == CheckIcon <==> IsCompleted(t)
    ensures i == ClockIcon <==> t.data.status == InProgress
    ensures i == AlertIcon <==> t.data.status != InProgress && CardOverdue(t, now)
    ensures i == CircleIcon <==> (t.data.status == Pending || t.data.status == Waiting) && !CardOverdue(t, now)
  {
    if IsCompleted(t) then CheckIcon
    else if t.data.status == InProgress then ClockIcon
    else if CardOverdue(t, now) then AlertIcon
    else CircleIcon
  }

  /** The two orders differ: an overdue task in progress has a red border
      but the clock icon. */
  lemma OverdueInProgress(t: Task, now: int, today: Day)
    requires t.data.status == InProgress && t.data.dueDate == Some(now - 1)
    ensures CardBorder(t, now, today) == RedBorder && StatusIcon(t, now) == ClockIcon
  {
  }

  /** The badges next to the type: "Overdue", and "Due Today" only when the
      task is not overdue. */
  datatype Badges = Badges(overdue: bool, dueToday: bool)

  function CardBadges(t: Task, now: int, today: Day): (b: Badges)
    ensures b.overdue <==> CardOverdue(t, now)
    ensures b.dueToday <==> CardDueToday(t, today) && !CardOverdue(t, now)
    ensures !(b.overdue && b.dueToday)
  {
    Badges(CardOverdue(t, now), CardDueToday(t, today) && !CardOverdue(t, now))
  }

  /** A description longer than 100 characters shows its first 100 and
      "..."; a shorter one shows whole. */
  function Truncated(d: string): (r: string)
    ensures |d| <= 100 ==> r == d
    ensures |d| > 100 ==> |r| == 103 && r[..100] == d[..100] && r[100..] == "..."
    ensures |r| <= 103 && r[..Min(|d|, 100)] == d[..Min(|d|, 100)]
  {
    if |d| > 100 then d[..100] + "..." else d
  }

  /** The description paragraph: absent for an empty description. */
  function ShownDescription(d: string): (r: Option<string>)
    ensures r.None? <==> d == ""
    ensures r.Some? ==> r.value == Truncated(d) && r.value != ""
  {
    if d == "" then None else Some(Truncated(d))
  }

  /** The tag row: absent without tags, else the first three and a `+k`
      badge for the rest. */
  function ShownTags(tags: seq<string>): (r: Option<Capped<string>>)
    ensures r.None? <==> tags == []
    ensures r.Some? ==> r.value.shown == tags[..Min(|tags|, 3)]
    ensures r.Some? ==> (r.value.more > 0 <==> |tags| > 3) && r.value.more == |tags| - Min(|tags|, 3)
  {
    if tags == [] then None else Some(Cap(tags, 3))
  }

  /** The row accounts for every tag: the shown ones then `more` hidden. */
  lemma ShownTagsCover(tags: seq<string>)
    requires tags != []
    ensures |ShownTags(tags).value.shown| + ShownTags(tags).value.more == |tags|
    ensures |tags| <= 3 ==> ShownTags(tags).value.shown == tags
  {
  }

  /** The callback the status button calls with the task's id. */
  datatype Callback = OnComplete(id: nat) | OnToggleStatus(id: nat)

  function StatusToggle(t: Task): (c: Callback)
    ensures c.id == t.id
    ensures c.OnComplete? <==> IsCompleted(t)
  {
    if IsCompleted(t) then OnComplete(t.id) else OnToggleStatus(t.id)
  }

  /** The "Mark Complete" menu item is offered only on open tasks. */
  predicate OffersComplete(t: Task) {
    !IsCompleted(t)
  }

  /** On a listed open task the button toggles: pending goes to in
      progress, in progress and waiting go to pending, so the button never
      completes a task. */
  lemma ToggleFromCard(tasks: seq<Task>, i: nat)
    requires i < |tasks| && !IsCompleted(tasks[i])
    requires forall j :: 0 <= j < |tasks| && j != i ==> tasks[j].id != tasks[i].id
    ensures StatusToggle(tasks[i]).OnToggleStatus?
    ensures ToggleRequest(tasks, tasks[i].id).Some?
    ensures ToggleRequest(tasks, tasks[i].id).value.status == Some(Toggled(tasks[i].data.status))
    ensures ToggleRequest(tasks, tasks[i].id).value.status != Some(Completed)
  {
    var r := Find(tasks, tasks[i].id);
    assert r.Some?;
    var k :| 0 <= k < |tasks| && tasks[k] == r.value && r.value.id == tasks[i].id &&
             forall j :: 0 <= j < k ==> tasks[j].id != tasks[i].id;
    assert k == i;
  }
}
