/** The decision rules of the task dialog: tags, templates, validity and
    the task the form submits. The full-page form submits and validates
    with the same code, so it uses these too. */
module TaskForm {
  import opened Common
  import opened Tasks

  /** The form state. The date is the text of a date input
      (`yyyy-MM-dd` or empty) and the time that of a time input
      (`HH:mm` or empty). */
  datatype FormData = FormData(taskType: TaskType, title: string, description: string, priority: Priority,
                               dueDate: string, dueTime: string, patientRef: string, tags: seq<string>)

  const EmptyForm := FormData(General, "", "", Medium, "", "", "", [])

  /** The tag list with the text of the tag input. */
  datatype TagEdit = TagEdit(tags: seq<string>, input: string)

  /** `handleAddTag`: the trimmed input is added, and the input cleared,
      when it is non-empty and not a tag yet; otherwise nothing changes. */
  function AddTag(e: TagEdit): (r: TagEdit)
    ensures Trim(e.input) != "" && Trim(e.input) !in e.tags ==> r == TagEdit(e.tags + [Trim(e.input)], "")
    ensures !(Trim(e.input) != "" && Trim(e.input) !in e.tags) ==> r == e
  {
    var t := Trim(e.input);
    if t != "" && t !in e.tags then TagEdit(e.tags + [t], "") else e
  }

  /** Tags without duplicates, each non-empty and trimmed. */
  predicate CleanTags(tags: seq<string>) {
    (forall i, j :: 0 <= i < j < |tags| ==> tags[i] != tags[j]) &&
    (forall i :: 0 <= i < |tags| ==> tags[i] != "" && Trimmed(tags[i]))
  }

  /** Adding a tag keeps the list clean. */
  lemma AddTagKeepsClean(e: TagEdit)
    requires CleanTags(e.tags)
    ensures CleanTags(AddTag(e).tags)
  {
    var t := Trim(e.input);
    TrimShape(e.input);
    if t != "" && t !in e.tags {
      AppendClean(e.tags, t);
    }
  }

  lemma AppendClean(tags: seq<string>, t: string)
    requires CleanTags(tags) && t != "" && Trimmed(t) && t !in tags
    ensures CleanTags(tags + [t])
  {
    var r := tags + [t];
    assert forall i :: 0 <= i < |tags| ==> r[i] == tags[i];
  }

  function IsNot(t: string): string -> bool {
    (s: string) => s != t
  }

  /** `handleRemoveTag(t)`: every copy of `t` goes, the rest stay in order. */
  function RemoveTag(tags: seq<string>, t: string): (r: seq<string>)
    ensures IsSubsequence(r, tags)
    ensures forall s :: s in r <==> s in tags && s != t
  {
    FilterSpec(tags, IsNot(t));
    Filter(tags, IsNot(t))
  }

  /** Removing a tag keeps the list clean. */
  lemma RemoveTagKeepsClean(tags: seq<string>, t: string)
    requires CleanTags(tags)
    ensures CleanTags(RemoveTag(tags, t))
  {
    FilterSpec(tags, IsNot(t));
    SubsequenceDistinct(Filter(tags, IsNot(t)), tags);
  }

  lemma {:induction false} SubsequenceDistinct(a: seq<string>, b: seq<string>)
    requires IsSubsequence(a, b) && CleanTags(b)
    ensures CleanTags(a)
    decreases |b|
  {
    if a != [] && b != [] {
      CleanTail(b);
      if a[0] == b[0] {
        SubsequenceDistinct(a[1..], b[1..]);
        SubsequenceHas(a[1..], b[1..]);
        assert forall j :: 0 < j < |a| ==> a[j] in b[1..] by {
          assert forall j :: 0 < j < |a| ==> a[j] == a[1..][j - 1];
        }
        forall j | 0 < j < |a| ensures a[0] != a[j] {
          var k :| 0 <= k < |b[1..]| && b[1..][k] == a[j];
          assert b[k + 1] == a[j];
        }
        forall i, j | 0 <= i < j < |a| ensures a[i] != a[j] {
          if i > 0 {
            assert a[i] == a[1..][i - 1] && a[j] == a[1..][j - 1];
          }
        }
        forall i | 0 <= i < |a| ensures a[i] != "" && Trimmed(a[i]) {
          if i > 0 {
            assert a[i] == a[1..][i - 1];
          }
        }
      } else {
        SubsequenceDistinct(a, b[1..]);
      }
    }
  }

  lemma CleanTail(b: seq<string>)
    requires CleanTags(b) && b != []
    ensures CleanTags(b[1..])
  {
    assert forall i :: 0 <= i < |b[1..]| ==> b[1..][i] == b[i + 1];
  }

  lemma {:induction false} SubsequenceHas(a: seq<string>, b: seq<string>)
    requires IsSubsequence(a, b)
    ensures forall x :: x in a ==> x in b
    decreases |b|
  {
    if a != [] && b != [] {
      if a[0] == b[0] {
        SubsequenceHas(a[1..], b[1..]);
        assert forall x :: x in a ==> x == a[0] || x in a[1..];
      } else {
        SubsequenceHas(a, b[1..]);
      }
    }
  }

  /** `handleTemplateSelect`: the template's type, title, description,
      priority and a copy of its tags replace the form's; the due date and
      time and the patient reference stay. */
  function SelectTemplate(f: FormData, t: Template): (g: FormData)
    ensures g.taskType == t.taskType && g.title == t.defaultTitle && g.description == t.defaultDescription
    ensures g.priority == t.defaultPriority && g.tags == t.tags
    ensures g.dueDate == f.dueDate && g.dueTime == f.dueTime && g.patientRef == f.patientRef
  {
    f.(taskType := t.taskType, title := t.defaultTitle, description := t.defaultDescription,
       priority := t.defaultPriority, tags := t.tags)
  }

  /** `isFormValid`: a title with something other than whitespace. */
  predicate IsFormValid(f: FormData) {
    Trim(f.title) != ""
  }

  lemma IsFormValidIff(f: FormData)
    ensures IsFormValid(f) <==> exists i :: 0 <= i < |f.title| && !IsSpace(f.title[i])
  {
    TrimEmptyIff(f.title);
  }

  /** Every shipped template fills in a valid form. */
  lemma TemplatesGiveValidForms(f: FormData)
    ensures forall i :: 0 <= i < |DefaultTemplates| ==> IsFormValid(SelectTemplate(f, DefaultTemplates[i]))
  {
    forall i | 0 <= i < |DefaultTemplates| ensures IsFormValid(SelectTemplate(f, DefaultTemplates[i])) {
      var title := DefaultTemplates[i].defaultTitle;
      assert !IsSpace(title[0]);
      IsFormValidIff(SelectTemplate(f, DefaultTemplates[i]));
    }
  }

  /** The due date `handleSubmit` sends: none, a time, or an invalid date
      when the time text does not read as numbers. */
  datatype Due = NoDueDate | DueAt(ms: int) | InvalidDate

  /** The task `handleSubmit` hands to `onSubmit`. */
  datatype Submission = Submission(taskType: TaskType, title: string, description: string, priority: Priority,
                                   dueDate: Due, patientRef: string, tags: seq<string>)

  const DayMs: int := 86400000

  /** The start, in UTC milliseconds, of the local day that holds `moment`
      in a zone `offset` milliseconds ahead of UTC. */
  function LocalDayStart(moment: int, offset: int): (s: int)
    ensures s <= moment < s + DayMs
    ensures (s + offset) % DayMs == 0
  {
    var wall := moment + offset;
    wall - wall % DayMs - offset
  }

  /** The due date as `handleSubmit` computes it. `utcMidnight` is the
      moment `new Date(dueDate)` denotes, which for a `yyyy-MM-dd` text is
      midnight UTC of that day; `setHours` then sets the hours and minutes of
      the local day holding that moment, in a zone `offset` milliseconds
      ahead of UTC. */
  function DueOfAsWritten(dueDate: string, dueTime: string, utcMidnight: int, offset: int): (d: Due)
    ensures dueDate == "" <==> d == NoDueDate
    ensures dueDate != "" && dueTime == "" ==> d == DueAt(utcMidnight)
    ensures dueDate != "" && dueTime != "" ==> d == TimeOn(LocalDayStart(utcMidnight, offset), dueTime)
  {
    if dueDate == "" then NoDueDate
    else if dueTime == "" then DueAt(utcMidnight)
    else TimeOn(LocalDayStart(utcMidnight, offset), dueTime)
  }

  /** The due date on the local day the date text names: its local
      midnight, moved by the time when one is given. */
  function DueOf(dueDate: string, dueTime: string, utcMidnight: int, offset: int): (d: Due)
    ensures dueDate == "" <==> d == NoDueDate
    ensures dueDate != "" && dueTime == "" ==> d == DueAt(utcMidnight - offset)
    ensures dueDate != "" && dueTime != "" ==> d == TimeOn(utcMidnight - offset, dueTime)
  {
    if dueDate == "" then NoDueDate
    else if dueTime == "" then DueAt(utcMidnight - offset)
    else TimeOn(utcMidnight - offset, dueTime)
  }

  /** `const [hours, minutes] = dueTime.split(':')` followed by
      `setHours(parseInt(hours), parseInt(minutes))` on the day starting at
      `dayStart`. */
  function TimeOn(dayStart: int, dueTime: string): Due {
    var parts := Split(dueTime, ':');
    AtTime(dayStart, ParseInt(parts[0]), if |parts| >= 2 then ParseInt(parts[1]) else None)
  }

  /** A missing or unreadable part makes the date invalid. */
  function AtTime(dayStart: int, hours: Option<int>, minutes: Option<int>): Due {
    if hours.None? || minutes.None? then InvalidDate
    else DueAt(TimeOfDay(dayStart, hours.value, minutes.value))
  }

  /** The moment `hours` hours and `minutes` minutes after `dayStart`, in
      milliseconds. */
  function TimeOfDay(dayStart: int, hours: int, minutes: int): int {
    dayStart + hours * 3600000 + minutes * 60000
  }

  /** A time text that reads as `h` hours and `m` minutes. */
  predicate ReadsAs(time: string, h: int, m: int) {
    var parts := Split(time, ':');
    ParseInt(parts[0]) == Some(h) && |parts| >= 2 && ParseInt(parts[1]) == Some(m)
  }

  lemma TimeOnReads(dayStart: int, time: string, h: int, m: int)
    requires ReadsAs(time, h, m)
    ensures TimeOn(dayStart, time) == DueAt(TimeOfDay(dayStart, h, m))
  {
  }

  /** A time `hh:mm` of digits reads as those numbers, and lands that many
      hours and minutes into the day. */
  lemma DueOfTime(time: string, hh: string, mm: string, dayStart: int)
    requires time == hh + ":" + mm
    requires hh != "" && mm != "" && AllDigits(hh) && AllDigits(mm)
    ensures ReadsAs(time, DigitsValue(hh), DigitsValue(mm))
    ensures TimeOn(dayStart, time) == DueAt(TimeOfDay(dayStart, DigitsValue(hh), DigitsValue(mm)))
  {
    SplitTime(hh, mm);
    ParseIntDigits(hh);
    ParseIntDigits(mm);
  }

  /** A clock time of the day stays within the local day it is set on. */
  lemma TimeOfDayWithin(wallMidnight: int, offset: int, h: int, m: int)
    requires wallMidnight % DayMs == 0
    requires 0 <= h < 24 && 0 <= m < 60
    ensures LocalDayStart(TimeOfDay(wallMidnight - offset, h, m), offset) == wallMidnight - offset
  {
    var t := TimeOfDay(wallMidnight - offset, h, m);
    assert 0 <= t + offset - wallMidnight < DayMs;
    ModInDay(wallMidnight, t + offset);
  }

  lemma ModInDay(base: int, x: int)
    requires base % DayMs == 0 && base <= x < base + DayMs
    ensures x - x % DayMs == base
  {
    var q := base / DayMs;
    assert base == q * DayMs;
    assert x == q * DayMs + (x - base);
  }

  /** With a date and a time that reads as `h:m` (hours below 24, minutes
      below 60), the task is due at that clock time on the local day the
      date names. */
  lemma DueOnNamedDay(dueDate: string, time: string, h: int, m: int, utcMidnight: int, offset: int)
    requires dueDate != "" && time != "" && ReadsAs(time, h, m)
    requires utcMidnight % DayMs == 0 && 0 <= h < 24 && 0 <= m < 60
    ensures DueOf(dueDate, time, utcMidnight, offset) == DueAt(TimeOfDay(utcMidnight - offset, h, m))
    ensures LocalDayStart(TimeOfDay(utcMidnight - offset, h, m), offset) == utcMidnight - offset
  {
    TimeOnReads(utcMidnight - offset, time, h, m);
    TimeOfDayWithin(utcMidnight, offset, h, m);
  }

  /** As written, west of UTC the UTC midnight of the date lies on the
      local day before, so a date with a time is due a day early. */
  lemma AsWrittenDayEarlyWest(dueDate: string, time: string, h: int, m: int, utcMidnight: int, offset: int)
    requires dueDate != "" && time != "" && ReadsAs(time, h, m)
    requires utcMidnight % DayMs == 0 && -DayMs < offset < 0
    ensures DueOfAsWritten(dueDate, time, utcMidnight, offset) ==
            DueAt(TimeOfDay(utcMidnight - offset - DayMs, h, m))
    ensures DueOfAsWritten(dueDate, time, utcMidnight, offset).ms ==
            DueOf(dueDate, time, utcMidnight, offset).ms - DayMs
  {
    WestDayStart(utcMidnight, offset);
    TimeOnReads(utcMidnight - offset - DayMs, time, h, m);
    TimeOnReads(utcMidnight - offset, time, h, m);
  }

  lemma WestDayStart(utcMidnight: int, offset: int)
    requires utcMidnight % DayMs == 0 && -DayMs < offset < 0
    ensures LocalDayStart(utcMidnight, offset) == utcMidnight - offset - DayMs
  {
    ModInDay(utcMidnight - DayMs, utcMidnight + offset);
  }

  /** `2025-03-10` at `09:00` in a zone five hours behind UTC: midnight
      UTC of that day is day 20157 of the epoch, and the task is due on
      9 March at 09:00 local time, where the named day gives 10 March. */
  lemma AsWrittenDayEarlyExample(time: string)
    requires time != "" && ReadsAs(time, 9, 0)
    ensures var utcMidnight := 20157 * DayMs;
            var offset := -5 * 3600000;
            DueOfAsWritten("2025-03-10", time, utcMidnight, offset) ==
              DueAt(utcMidnight - offset - DayMs + 9 * 3600000) &&
            DueOf("2025-03-10", time, utcMidnight, offset) == DueAt(utcMidnight - offset + 9 * 3600000)
  {
    var utcMidnight := 20157 * DayMs;
    var offset := -5 * 3600000;
    MidnightOf(20157);
    AsWrittenDayEarlyWest("2025-03-10", time, 9, 0, utcMidnight, offset);
  }

  /** Whole days from the epoch are UTC midnights. */
  lemma MidnightOf(n: int)
    ensures (n * DayMs) % DayMs == 0
  {
  }

  /** East of UTC, or in it, the local day of the UTC midnight is the
      named day, so with a time the two agree. */
  lemma AsWrittenAgreesEast(dueDate: string, time: string, utcMidnight: int, offset: int)
    requires dueDate != "" && time != ""
    requires utcMidnight % DayMs == 0 && 0 <= offset < DayMs
    ensures DueOfAsWritten(dueDate, time, utcMidnight, offset) == DueOf(dueDate, time, utcMidnight, offset)
  {
    EastDayStart(utcMidnight, offset);
  }

  lemma EastDayStart(utcMidnight: int, offset: int)
    requires utcMidnight % DayMs == 0 && 0 <= offset < DayMs
    ensures LocalDayStart(utcMidnight, offset) == utcMidnight - offset
  {
    ModInDay(utcMidnight, utcMidnight + offset);
  }

  /** A time without a colon has no minutes part, and `setHours` with a
      `NaN` minute gives an invalid date. */
  lemma DueOfNoColon(dueDate: string, time: string, utcMidnight: int, offset: int)
    requires dueDate != "" && time != "" && ':' !in time
    ensures DueOf(dueDate, time, utcMidnight, offset) == InvalidDate
    ensures DueOfAsWritten(dueDate, time, utcMidnight, offset) == InvalidDate
  {
    SplitPrefix(time, "", ':');
    assert time + "" == time;
  }

  lemma SplitTime(hh: string, mm: string)
    requires AllDigits(hh) && AllDigits(mm)
    ensures Split(hh + ":" + mm, ':') == [hh, mm]
  {
    assert ':' !in hh && ':' !in mm by {
      assert forall i :: 0 <= i < |hh| ==> IsDigit(hh[i]);
      assert forall i :: 0 <= i < |mm| ==> IsDigit(mm[i]);
    }
    SplitAtSeparator(hh, mm, ':');
    SplitPrefix(mm, "", ':');
    assert mm + "" == mm;
    assert hh + ":" + mm == hh + [':'] + mm;
  }

  /** `handleSubmit`: the text fields trimmed, type, priority and tags as
      they are, and the due date combined from date and time. */
  function Submit(f: FormData, utcMidnight: int, offset: int): (s: Submission)
    ensures s.title == Trim(f.title) && s.description == Trim(f.description) && s.patientRef == Trim(f.patientRef)
    ensures s.taskType == f.taskType && s.priority == f.priority && s.tags == f.tags
    ensures s.dueDate == DueOf(f.dueDate, f.dueTime, utcMidnight, offset)
  {
    Submission(f.taskType, Trim(f.title), Trim(f.description), f.priority, DueOf(f.dueDate, f.dueTime, utcMidnight, offset),
               Trim(f.patientRef), f.tags)
  }

  /** `handleSubmit` as written: the same fields, with the due date of
      `DueOfAsWritten`. */
  function SubmitAsWritten(f: FormData, utcMidnight: int, offset: int): (s: Submission)
    ensures s.title == Trim(f.title) && s.description == Trim(f.description) && s.patientRef == Trim(f.patientRef)
    ensures s.taskType == f.taskType && s.priority == f.priority && s.tags == f.tags
    ensures s.dueDate == DueOfAsWritten(f.dueDate, f.dueTime, utcMidnight, offset)
  {
    Submission(f.taskType, Trim(f.title), Trim(f.description), f.priority,
               DueOfAsWritten(f.dueDate, f.dueTime, utcMidnight, offset), Trim(f.patientRef), f.tags)
  }

  /** The corrected submission differs from the one as written in the due
      date alone, and in UTC the two coincide. */
  lemma SubmitAgreesInUtc(f: FormData, utcMidnight: int)
    requires utcMidnight % DayMs == 0
    ensures Submit(f, utcMidnight, 0) == SubmitAsWritten(f, utcMidnight, 0)
  {
    if f.dueDate != "" && f.dueTime != "" {
      AsWrittenAgreesEast(f.dueDate, f.dueTime, utcMidnight, 0);
    }
  }

  /** West of UTC, a date without a time is due at UTC midnight as
      written, which is the local evening before the named day. */
  lemma SubmitDateOnlyWest(f: FormData, utcMidnight: int, offset: int)
    requires f.dueDate != "" && f.dueTime == ""
    requires utcMidnight % DayMs == 0 && -DayMs < offset < 0
    ensures SubmitAsWritten(f, utcMidnight, offset).dueDate == DueAt(utcMidnight)
    ensures Submit(f, utcMidnight, offset).dueDate == DueAt(utcMidnight - offset)
    ensures LocalDayStart(utcMidnight, offset) == utcMidnight - offset - DayMs
  {
    WestDayStart(utcMidnight, offset);
  }

  /** A valid form submits a non-empty title without surrounding
      whitespace; submitting again what was submitted changes nothing. */
  lemma SubmitTitle(f: FormData, utcMidnight: int, offset: int)
    requires IsFormValid(f)
    ensures Submit(f, utcMidnight, offset).title != "" && Trimmed(Submit(f, utcMidnight, offset).title)
    ensures Trim(Submit(f, utcMidnight, offset).title) == Submit(f, utcMidnight, offset).title
  {
    TrimShape(f.title);
    TrimIdempotent(f.title);
  }
}
