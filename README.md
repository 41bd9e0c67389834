# Cardiology task assistant: a verified model of its core logic

The cardio task assistant is a browser application for cardiology staff.
It keeps a list of clinical tasks in IndexedDB. It learns a medical
vocabulary to correct speech transcriptions, and reads a patient
identifier and a birth date from scanned text. A retention service deletes
data older than a retention period, 72 hours by default. A small Python
server delivers the built application.

This project models the parts of it that are plain sequential logic, one
Dafny module per source file or concern, and proves what each part
promises:

- `Tasks` (`src/lib/database.js`): the task table and `TaskService`.
  This covers creation defaults, the completion stamp of `updateTask`,
  deletion, search, overdue tasks and the statistics.
- `UseTasks` (`src/hooks/useTasks.js`): the list transforms of the hook.
  These are prepend, replace by id, remove by id and the status toggle,
  plus the filters of `useTaskFilters`.
- `TaskForm` and `TaskFormFullPage`: tags, templates, validity and the
  submitted task of the two task forms.
- `TaskCard`, `Dashboard`, `DataRetentionStatus` and `VocabularyManager`:
  the decision rules inside these components.
- `Levenshtein`, `WordMatch`, `VocabularyRules` and `Vocabulary`
  (`src/lib/vocabularyService.js`): the edit distance and the whole-word
  replacement. Also the rules the vocabulary service applies to its
  in-memory indexes, and the service itself as a class over its database.
- `Retention` (`src/lib/dataRetentionService.js`): the retention service
  as a class. It holds its running state, its interval and its period,
  over `localStorage` and the two databases.
- `Ocr`, `Patterns`, `Calendar` (`src/lib/ocrService.js`): candidate
  extraction with the fixed regular expressions, scoring and selection of
  identifiers and birth dates, and the `Date` round trip. Also the
  confidence figure.
- `Wav` (`src/lib/speechService.js`): the two RIFF/WAVE encoders. They
  write into an `array<byte>` with the same `DataView` steps as the
  source.
- `SimpleServer` (`simple_server.py`): the routing decision of the WSGI
  application.
- `Common`, `OrderedMaps`, `Ranking`, `Dexie`: the JavaScript behaviour the
  rest relies on.
  - String `trim`, `toLowerCase`, `split` and `parseInt`.
  - A `Map` that remembers insertion order.
  - The stable `Array.prototype.sort` with a comparator.
  - An IndexedDB object store with auto-incremented keys.

Time is an integer number of milliseconds. The current moment, the local
day, the current year and fresh identifiers are parameters. Files, the
browser's interval handles and the locale date rendering are parameters
too.

## Model

| member | source | states |
|---|---|---|
| Tasks.NamesDistinct | src/lib/database.js:4-30 | the type, status and priority values have pairwise different names, and none is called "all" |
| Tasks.Created | src/lib/database.js:132-147 | a new task is pending, has no completion time, is created and updated now, and takes General, Medium and [] when no type, priority or tags are given |
| Tasks.Stamped | src/lib/database.js:195-197 | an update to COMPLETED without a completion time gets the current time, and any other update is left as it is |
| Tasks.ApplyPatchSpec | src/lib/database.js:189-199 | each field the update names takes its new value, the others keep theirs, createdAt is kept and updatedAt becomes now |
| Tasks.CompletionStamped | src/lib/database.js:195-199 | an update to COMPLETED always leaves the task completed with a completion time |
| Tasks.StatsOf | src/lib/database.js:235-251 | total is the number of tasks, pending + inProgress + completed is at most total, and overdue tasks are never completed ones |
| Tasks.StatusPartition | src/lib/database.js:237-239 | the four status counts add up to the number of tasks, so the statistics leave out exactly the waiting tasks |
| Tasks.OverdueNotCompleted | src/lib/database.js:240-244 | the overdue and the completed tasks are disjoint |
| Tasks.TaskService.CreateTask | src/lib/database.js:132-151 | the created task is stored under the supplied key and returned; a key already in use is rejected and leaves the table alone |
| Tasks.TaskService.GetAllTasks | src/lib/database.js:154-156 | a permutation of the stored tasks, newest createdAt first, and among equal times the larger key first |
| Tasks.TaskService.GetOverdueTasks | src/lib/database.js:179-186 | exactly the stored tasks with a due date before now that are not completed, in due-date order |
| Tasks.TaskService.GetTasksByStatus | src/lib/database.js:159-161 | exactly the stored tasks with that status, in key order |
| Tasks.TaskService.GetTodaysTasks | src/lib/database.js:164-176 | exactly the stored tasks due today or created today, in key order |
| Tasks.TaskService.UpdateTask | src/lib/database.js:189-201 | the stored task takes the update and the completion stamp, is returned as stored, a missing key gives nothing, and every other key keeps its task |
| Tasks.TaskService.DeleteTask | src/lib/database.js:204-206 | the key has no task afterwards and every other key keeps its task |
| Tasks.TaskService.CompleteTask | src/lib/database.js:209-214 | the task, when stored, is COMPLETED with completion and update time now; other tasks are unchanged |
| Tasks.TaskService.SearchTasks | src/lib/database.js:217-227 | exactly the stored tasks whose title, description, patient reference or some tag contains the query, ignoring case, in key order |
| Tasks.TaskService.GetTaskStats | src/lib/database.js:230-254 | total is the number of stored tasks and pending + inProgress + completed is at most total |
| Tasks.OverdueByDueDate | src/lib/database.js:179-186 | the overdue tasks, each once, sorted by due date |
| Tasks.StatsOfRows | src/lib/database.js:230-251 | every count of the statistics is the count over the stored tasks, whatever order getAllTasks puts them in |
| Tasks.StatsOverdueIsOverdue | src/lib/database.js:240-244 | a task overdue before the start of today is also overdue at every moment of today |
| Tasks.SomeTemplateIsHigh | src/lib/database.js:268-275 | the shipped cathlab template asks for high priority |
| Tasks.TaskService.constructor | src/lib/database.js:115-127 | the task table starts empty |
| UseTasks.Prepend | src/hooks/useTasks.js:25-35 | the new task comes first and the previous list follows unchanged |
| UseTasks.ReplaceById | src/hooks/useTasks.js:38-50 | the length is kept, and each element with the key becomes the returned task while every other element stays in place |
| UseTasks.RemoveById | src/hooks/useTasks.js:53-62 | a subsequence of the list holding exactly the elements with another key |
| UseTasks.AbsentKey | src/hooks/useTasks.js:41-43 | a list without the key is unchanged by replace and by remove |
| UseTasks.Find | src/hooks/useTasks.js:81-82 | nothing iff no element has the key; otherwise the first element with it |
| UseTasks.Toggled | src/hooks/useTasks.js:84-86 | PENDING goes to IN_PROGRESS, and every other status goes to PENDING |
| UseTasks.ToggleRequest | src/hooks/useTasks.js:80-89 | no update iff no listed task has the key, otherwise a status-only update to the toggled status of the first such task |
| UseTasks.ToggleTwice | src/hooks/useTasks.js:84-86 | toggling twice restores pending and in-progress tasks, and waiting or completed tasks go to pending |
| UseTasks.ToggleNeverStamps | src/hooks/useTasks.js:88 | the toggle update never completes a task, so updateTask adds no completion time to it |
| UseTasks.FilteredTasks | src/hooks/useTasks.js:151-184 | a subsequence of the tasks, holding exactly those that pass every filter not set to "all" and the search when it is not empty |
| UseTasks.StatusFilter | src/hooks/useTasks.js:154-156 | with only a status filter set, a task passes iff it has that status |
| UseTasks.InitialKeepsAll | src/hooks/useTasks.js:144-149 | the initial filters keep the whole list |
| UseTasks.EmptySearchMatches | src/hooks/useTasks.js:169-175 | every task matches the empty search |
| UseTasks.UpdateFilter | src/hooks/useTasks.js:186-188 | the given key takes the value and the other keys keep theirs |
| UseTasks.ClearFilters | src/hooks/useTasks.js:190-197 | whatever was set, status, type and priority read "all" again and the search is empty |
| UseTasks.ClearFiltersShowsAll | src/hooks/useTasks.js:144-197 | after clearing, every task is shown again, in list order |
| UseTasks.UpdateFilterUndo | src/hooks/useTasks.js:186-188 | for any filters, setting a key back to the value it held undoes any update of it; so a dimension that was "all" is restored by setting it to "all"; and the key reads back as the value set |
| TaskForm.AddTag | src/components/TaskForm.jsx:100-108 | the trimmed input is appended and the input cleared iff it is non-empty and not yet a tag; otherwise nothing changes |
| TaskForm.AddTagKeepsClean | src/components/TaskForm.jsx:100-108 | a tag list without duplicates whose tags are non-empty and trimmed stays so after adding a tag |
| TaskForm.RemoveTag | src/components/TaskForm.jsx:110-115 | a subsequence of the tags holding exactly those different from the removed one |
| TaskForm.RemoveTagKeepsClean | src/components/TaskForm.jsx:110-115 | removing a tag keeps the list free of duplicates, empty and padded tags |
| TaskForm.SelectTemplate | src/components/TaskForm.jsx:88-98 | type, title, description, priority and tags come from the template; due date, time and patient reference stay |
| TaskForm.IsFormValidIff | src/components/TaskForm.jsx:143 | the form is valid iff the title has a character that is not whitespace |
| TaskForm.TemplatesGiveValidForms | src/components/TaskForm.jsx:88-98 | every shipped template fills in a valid form |
| TaskForm.LocalDayStart | src/components/TaskForm.jsx:126 | the start of the local day holding a moment: at or before it, less than a day before, and a local midnight |
| TaskForm.DueOfAsWritten | src/components/TaskForm.jsx:121-128 | no due date iff the date field is empty; a date alone is the UTC midnight `new Date` gives it; with a time, that time is set on the local day holding that UTC midnight |
| TaskForm.DueOf | src/components/TaskForm.jsx:121-128 | the intended half of the due-date finding: no due date iff the date field is empty; a date alone is the local midnight of the day it names; a time is set on that day |
| TaskForm.DueOfTime | src/components/TaskForm.jsx:124-127 | a time hh:mm of digits reads as those numbers and lands that many hours and minutes after the start of the day it is set on |
| TaskForm.TimeOnReads | src/components/TaskForm.jsx:125-126 | a time text that reads as h and m puts the due date h hours and m minutes into the day |
| TaskForm.TimeOfDayWithin | src/components/TaskForm.jsx:126 | a clock time below 24:00 stays within the local day it is set on |
| TaskForm.DueOnNamedDay | src/components/TaskForm.jsx:121-128 | with the correction, a date and a time below 24:00 give that clock time on the local day the date text names |
| TaskForm.AsWrittenDayEarlyWest | src/components/TaskForm.jsx:123-126 | as written, in any zone west of UTC a date with a time is due exactly one day before the named day's clock time |
| TaskForm.AsWrittenDayEarlyExample | src/components/TaskForm.jsx:123-126 | `2025-03-10` with `09:00` five hours behind UTC is due at 09:00 on 9 March, where the intended rule gives 10 March |
| TaskForm.AsWrittenAgreesEast | src/components/TaskForm.jsx:123-126 | in UTC and east of it, a date with a time gives the same moment as written and corrected |
| TaskForm.DueOfNoColon | src/components/TaskForm.jsx:125-126 | a time without a colon has no minutes and gives an invalid date, as written and corrected |
| TaskForm.SubmitAsWritten | src/components/TaskForm.jsx:117-141 | as written: title, description and patient reference trimmed; type, priority and tags unchanged; the due date of `DueOfAsWritten` (UTC midnight for a date alone, the clock time on the local day of that midnight with a time) |
| TaskForm.Submit | src/components/TaskForm.jsx:117-141 | the corrected submission of the due-date finding: the same fields, with the due date of `DueOf` on the local day the date names |
| TaskForm.SubmitAgreesInUtc | src/components/TaskForm.jsx:117-141 | in UTC the corrected and the as-written submissions are the same |
| TaskForm.SubmitDateOnlyWest | src/components/TaskForm.jsx:123-124 | west of UTC a date alone is due at UTC midnight as written, which lies on the local day before; the corrected rule gives the local midnight of the named day |
| TaskForm.SubmitTitle | src/components/TaskForm.jsx:132-143 | a valid form submits a non-empty title that trimming leaves unchanged |
| TaskFormFullPage.ParseTags | src/components/TaskFormFullPage.jsx:270-276 | no parsed tag is empty, padded with whitespace or holds a comma |
| TaskFormFullPage.ParseJoin | src/components/TaskFormFullPage.jsx:270-271 | parsing the field text tags.join(', ') gives back the tags when each is non-empty, trimmed and free of commas |
| TaskFormFullPage.SelectTemplateAsWritten | src/components/TaskFormFullPage.jsx:67-76 | type and title (the template name) come from the template; description is always '' and priority always MEDIUM; tags, dates and patient reference stay |
| TaskFormFullPage.SelectTemplate | src/components/TaskFormFullPage.jsx:67-76 | as the rule as written, but with the template's default description and priority |
| TaskFormFullPage.TemplateDefaultsLost | src/components/TaskFormFullPage.jsx:73-74 | with the shipped templates the rule as written drops every default description and the high priority of the cathlab template |
| TaskFormFullPage.TemplateRulesAgree | src/components/TaskFormFullPage.jsx:73-74 | both rules agree on a template whose defaults are '' and MEDIUM |
| TaskCard.FlagsAgreeWithStore | src/components/TaskCard.jsx:34-36 | the card's overdue flag is the store's overdue rule and implies the task is open; its due-today flag is the store's due-on-day rule |
| TaskCard.CardBorder | src/components/TaskCard.jsx:68-74 | each border colour is chosen exactly when its condition holds and no earlier one does: completed, overdue, due today, in progress, default |
| TaskCard.StatusIcon | src/components/TaskCard.jsx:52-66 | each icon is chosen exactly when its condition holds and no earlier one does: completed, in progress, overdue, open circle |
| TaskCard.OverdueInProgress | src/components/TaskCard.jsx:52-74 | the two orders differ: an overdue task in progress gets the red border but the clock icon |
| TaskCard.CardBadges | src/components/TaskCard.jsx:98-108 | "Overdue" iff overdue, "Due Today" iff due today and not overdue, never both |
| TaskCard.Truncated | src/components/TaskCard.jsx:121-124 | a description of at most 100 characters shows whole, a longer one as its first 100 characters followed by "..." |
| TaskCard.ShownDescription | src/components/TaskCard.jsx:117-126 | no paragraph iff the description is empty, else the truncated description |
| TaskCard.ShownTags | src/components/TaskCard.jsx:178-190 | no tag row iff there are no tags; else the first min(3, n) tags and a "+(n-3)" badge iff n > 3 |
| TaskCard.ShownTagsCover | src/components/TaskCard.jsx:180-188 | the shown tags and the badge count account for every tag |
| TaskCard.StatusToggle | src/components/TaskCard.jsx:38-45 | the button calls onComplete iff the task is completed, else onToggleStatus, with the task's id |
| TaskCard.ToggleFromCard | src/components/TaskCard.jsx:38-45 | on a listed open task the button asks for the toggled status, which is never COMPLETED |
| Dashboard.TodaysTasks | src/components/Dashboard.jsx:28-38 | a subsequence of the list holding exactly the open tasks due today or created today |
| Dashboard.OverdueTasks | src/components/Dashboard.jsx:41-45 | a subsequence of the list holding exactly the tasks with a due date in the past that are not completed |
| Dashboard.UrgentTasks | src/components/Dashboard.jsx:48-51 | a subsequence of the list holding exactly the urgent tasks that are not completed |
| Dashboard.InProgressTasks | src/components/Dashboard.jsx:54-56 | a subsequence of the list holding exactly the tasks in progress |
| Dashboard.SectionsAgreeWithService | src/components/Dashboard.jsx:28-45 | over the service's list the overdue section holds the tasks getOverdueTasks returns, and today's section those of getTodaysTasks that are open |
| Dashboard.CompletionRate | src/components/Dashboard.jsx:59 | 0 without tasks, else 100 * completed / total rounded half up |
| Dashboard.CompletionRateBounds | src/components/Dashboard.jsx:59 | the rate lies in [0, 100] when completed <= total, and is 100 when every one of at least one task is completed |
| Dashboard.StatsRateBounds | src/components/Dashboard.jsx:23-59 | with the statistics of the store the rate is a percentage |
| Dashboard.TaskSection | src/components/Dashboard.jsx:104-136 | the empty message iff there are no tasks, else the first min(n, maxItems) tasks and a "+k" note with k = n - maxItems iff n > maxItems |
| Dashboard.DashboardView | src/components/Dashboard.jsx:230-265 | the urgent and overdue sections appear iff they have tasks and show at most 3; today's and in-progress sections always appear and show at most 4 |
| Dashboard.SectionsShowOpenTasks | src/components/Dashboard.jsx:28-51 | no task in today's or the urgent section is completed |
| DataRetentionStatus.FormatTimeUntil | src/components/DataRetentionStatus.jsx:68-85 | "Onbekend" without a date, "Nu" once the difference is at most 0, and a single word (minutes only) when less than an hour is left |
| DataRetentionStatus.TimeParts | src/components/DataRetentionStatus.jsx:77-78 | the minute part lies in [0, 59], and hours * 60 + minutes is the difference in whole minutes |
| DataRetentionStatus.ReadUnit | src/components/DataRetentionStatus.jsx:81-83 | a word read as a number of units has at least two characters and ends in the unit letter |
| DataRetentionStatus.FormatTimeUntilReadBack | src/components/DataRetentionStatus.jsx:68-85 | for a time ahead, the text "{h}u {m}m" or "{m}m" reads back as the whole minutes left; "Onbekend" and "Nu" read as no duration |
| DataRetentionStatus.FormatDateTime | src/components/DataRetentionStatus.jsx:63-66 | "Onbekend" for a missing or empty value, else the locale rendering |
| DataRetentionStatus.HistoryView | src/components/DataRetentionStatus.jsx:380-387 | the empty message iff the log is empty, else the log entries reversed so the newest comes first |
| DataRetentionStatus.HistoryStartsWithLastResult | src/components/DataRetentionStatus.jsx:387 | the history's first row is the sweep the status reports as the last one, and there is none exactly when the history is empty |
| VocabularyManager.FilteredTerms | src/components/VocabularyManager.jsx:145-149 | a subsequence of the loaded terms holding exactly those whose lower-cased text contains the lower-cased search and whose category is the selected one, when one is selected |
| VocabularyManager.NoFilterShowsAll | src/components/VocabularyManager.jsx:145-149 | an empty search with no category keeps the whole list |
| VocabularyManager.CategoryFilterAgreesWithService | src/components/VocabularyManager.jsx:147 | selecting a category with an empty search shows what getTermsByCategory gives for it |
| VocabularyManager.GetCategoryColor | src/components/VocabularyManager.jsx:151-154 | the colour of the first category with that name, else 'bg-gray-100 text-gray-800' |
| VocabularyManager.AddTermRequest | src/components/VocabularyManager.jsx:68-71 | no service call iff the input is all whitespace; otherwise addTerm gets the input untrimmed with the chosen category |
| VocabularyManager.AddCorrectionRequest | src/components/VocabularyManager.jsx:82-89 | no service call iff either trimmed text is empty; otherwise addCorrection gets the three inputs as typed |
| VocabularyManager.CorrectionRequestNonBlank | src/components/VocabularyManager.jsx:83 | a request that is made has a non-whitespace character in both texts |
| Retention.KeysApart | src/lib/dataRetentionService.js:139 | no sweep touches the log key, and no key is both a recording key and a scan key |
| Retention.SweepStorage | src/lib/dataRetentionService.js:131-171 | the storage left is the old one without the selected expired or unreadable records, and the count is the number of those records |
| Retention.SweptCount | src/lib/dataRetentionService.js:131-171 | a sweep keeps every key except the selected expired ones |
| Retention.AudioSweepKeepsOcr | src/lib/dataRetentionService.js:70-84 | the recording sweep leaves the scan records, so the scan sweep after it removes what it would remove on the original storage |
| Retention.CollectKeys | src/lib/dataRetentionService.js:137-142 | the keys collected are exactly the selected keys, in storage order |
| Retention.RemoveExpired | src/lib/dataRetentionService.js:145-164 | each listed key whose record is unreadable or dated before the cutoff is removed and counted, the others kept |
| Retention.SweptByStep | src/lib/dataRetentionService.js:147-163 | one step of the removal loop removes the key exactly when its record is expired |
| Retention.SweptByAll | src/lib/dataRetentionService.js:137-164 | removing the collected keys one by one gives the sweep of all selected keys |
| Retention.LogAfter | src/lib/dataRetentionService.js:253-271 | a stored list gets the entry appended and is cut to its last ten; a missing or unparsable log restarts with the entry alone; a stored non-list makes the push throw and nothing is written |
| Retention.LastTen | src/lib/dataRetentionService.js:267-269 | at most ten entries, the last ones of the list |
| Retention.LogAfterKeepsTen | src/lib/dataRetentionService.js:264-269 | after logging, the log has one to ten entries, the new one last, and is the tail of the written order |
| Retention.ReplayKeepsLastTen | src/lib/dataRetentionService.js:264-269 | whatever number of sweeps is logged in turn, the log is the last ten of all of them |
| Retention.LastTenAppend | src/lib/dataRetentionService.js:267-269 | cutting the log to ten before appending changes no later cut |
| Retention.History | src/lib/dataRetentionService.js:278-287 | the stored list when there is one, else none |
| Retention.LoggedIsLast | src/lib/dataRetentionService.js:240-287 | after a logged sweep the history has one to ten entries and that sweep's is the newest |
| Retention.Cutoff | src/lib/dataRetentionService.js:60-61 | for a period of at least one hour the cutoff lies before now |
| Retention.AgesBounded | src/lib/dataRetentionService.js:344-368 | old and recent records of a kind together are at most all of that kind |
| Retention.CountAges | src/lib/dataRetentionService.js:340-369 | the totals, old and recent counts of one kind of record, with old plus recent at most the total |
| Retention.CountTaskAges | src/lib/dataRetentionService.js:326-337 | every task counted once, as old when created before the cutoff and as recent otherwise |
| Retention.DataRetentionService.constructor | src/lib/dataRetentionService.js:8-15 | a period of 72 hours, an hourly interval, not running, no interval and no callback |
| Retention.DataRetentionService.SetCallbacks | src/lib/dataRetentionService.js:32-35 | only the callback changes |
| Retention.DataRetentionService.StartPeriodicCleanup | src/lib/dataRetentionService.js:38-46 | the old interval is cleared and the new one is the only one running |
| Retention.DataRetentionService.StopPeriodicCleanup | src/lib/dataRetentionService.js:49-55 | no interval runs and the service is stopped |
| Retention.DataRetentionService.Shutdown | src/lib/dataRetentionService.js:389-392 | the service is stopped; the period, the callback, the results handed to it and storage unchanged |
| Retention.DataRetentionService.CleanupTasks | src/lib/dataRetentionService.js:109-128 | exactly the tasks created before the cutoff are deleted, in order, and their number returned |
| Retention.DataRetentionService.CleanupTasksAsWritten | src/lib/dataRetentionService.js:4-128 | the missing `taskDB` export makes the query throw, so nothing is deleted and 0 returned |
| Retention.DataRetentionService.CleanupAudioFiles | src/lib/dataRetentionService.js:131-171 | the sweep of `audio_` and `speech_` records, returning the number of expired such records, everything else unchanged |
| Retention.DataRetentionService.CleanupOcrData | src/lib/dataRetentionService.js:174-210 | the sweep of `ocr_` and `scan_` records, returning the number of expired such records, everything else unchanged |
| Retention.DataRetentionService.CleanupVocabularyCorrectionsAsWritten | src/lib/dataRetentionService.js:213-237 | the vocabulary is initialised, then reading its missing `vocabularyDB` throws, so no correction is deleted and 0 returned |
| Retention.DataRetentionService.CleanupVocabularyCorrections | src/lib/dataRetentionService.js:213-237 | after initialising, exactly the corrections created before the cutoff are deleted and counted, and the indexes are reloaded when any went |
| Retention.DataRetentionService.LogCleanupActivity | src/lib/dataRetentionService.js:240-275 | the log gets the sweep's entry with the current period, nothing else changes |
| Retention.DataRetentionService.PerformCleanupAsWritten | src/lib/dataRetentionService.js:58-106 | as written: the task and correction steps report 0 and delete nothing, the vocabulary is initialised, `localStorage` is swept with the period's cutoff, the recording and scan counts are the numbers of expired such records in the storage before, the callback fires exactly when one of them was expired, and the entry with those counts is logged |
| Retention.DataRetentionService.RunCleanupStepsAsWritten | src/lib/dataRetentionService.js:70-84 | as written: the task table is unchanged, the two sweeps of `localStorage` run and report the numbers of expired recordings and scans, and the task and correction counts are 0 |
| Retention.DataRetentionService.PerformCleanup | src/lib/dataRetentionService.js:58-106 | the corrected service, composed of the intended halves of the two retention findings: the four sweeps with the period's cutoff, each count the number of old tasks, expired recordings, expired scans and old corrections (after seeding) that went, the callback exactly when one count is positive, and the entry with those counts logged |
| Retention.DataRetentionService.RunCleanupSteps | src/lib/dataRetentionService.js:70-84 | the corrected four steps at one cutoff: the tasks and, after seeding, the corrections created before it are deleted and counted, and `localStorage` is swept with the expired recordings and scans counted |
| Retention.DataRetentionService.TriggerManualCleanup | src/lib/dataRetentionService.js:310-313 | the corrected full sweep: old tasks and corrections deleted and counted, `localStorage` swept with its counts and logged, the callback as in the sweep, and its entry the newest in the history whenever there is one |
| Retention.DataRetentionService.Initialize | src/lib/dataRetentionService.js:18-29 | a no-op while running; otherwise the interval is started, the service is running, and the corrected first sweep has deleted and counted the old tasks and corrections, swept `localStorage` with its counts and logged it, and handed its results to the callback when something went |
| Retention.DataRetentionService.GetNextCleanupTime | src/lib/dataRetentionService.js:290-296 | none exactly when stopped, else one interval after now |
| Retention.DataRetentionService.GetCleanupHistory | src/lib/dataRetentionService.js:278-287 | the stored log, read as the history |
| Retention.DataRetentionService.GetRetentionStatus | src/lib/dataRetentionService.js:299-307 | the settings, a next time exactly when running, and the newest log entry exactly when there is one |
| Retention.DataRetentionService.GetDataAgeStatistics | src/lib/dataRetentionService.js:316-376 | the intended half of the `taskDB` finding: the task, recording and scan counts against the cutoff; every task is old or recent, and old plus recent never exceed the total |
| Retention.DataRetentionService.GetDataAgeStatisticsAsWritten | src/lib/dataRetentionService.js:326 | reading the missing `taskDB` throws and the result is null |
| Retention.DataRetentionService.UpdateRetentionPeriod | src/lib/dataRetentionService.js:379-386 | accepted exactly for 1 to 168 hours, which then become the period; nothing else changes |
| Retention.LoggedNewest | src/lib/dataRetentionService.js:58-106 | the sweeps leave the log alone, so the logged entry is the newest of the history |
| Levenshtein.LevenshteinDistance | src/lib/vocabularyService.js:422-448 | the matrix method returns the edit distance of the full strings, as the cell recurrence defines it |
| Levenshtein.FillRow | src/lib/vocabularyService.js:434-444 | filling one row keeps every filled cell equal to the recurrence and fills that row |
| Levenshtein.LevStep | src/lib/vocabularyService.js:435-443 | one cell: equal characters take the diagonal, otherwise one more than the least of the three neighbours |
| Levenshtein.LevEmptyRight | src/lib/vocabularyService.js:429-431 | the distance from s to "" is the length of s |
| Levenshtein.LevEmptyLeft | src/lib/vocabularyService.js:425-427 | the distance from "" to t is the length of t |
| Levenshtein.LevSelf | src/lib/vocabularyService.js:422-448 | a string is at distance 0 from itself |
| Levenshtein.LevZero | src/lib/vocabularyService.js:422-448 | distance 0 only between equal strings |
| Levenshtein.LevZeroIff | src/lib/vocabularyService.js:247 | distance 0 iff the strings are equal, so the `distance > 0` test leaves out exactly the word itself |
| Levenshtein.LevUpper | src/lib/vocabularyService.js:422-448 | the distance never exceeds the longer length |
| Levenshtein.LevLower | src/lib/vocabularyService.js:422-448 | the distance is at least the difference of the lengths |
| WordMatch.MatchesFromIff | src/lib/vocabularyService.js:194-195 | searching from i succeeds iff the literal occurs as a whole word, ignoring case, at some position from i on |
| WordMatch.MatchesIff | src/lib/vocabularyService.js:194-195 | `regex.test` succeeds iff the literal occurs as a whole word, ignoring case, somewhere in the text |
| WordMatch.ExpandPlain | src/lib/vocabularyService.js:196 | a replacement without `$` is inserted as it is |
| WordMatch.ReplaceFromNoMatch | src/lib/vocabularyService.js:196 | with no match from i on, the rest of the text is copied |
| WordMatch.ReplaceAllNoMatch | src/lib/vocabularyService.js:196 | a text in which the literal does not occur as a word is unchanged |
| WordMatch.ReplaceWhole | src/lib/vocabularyService.js:194-196 | a text that is exactly the literal, starting and ending in word characters, becomes the replacement |
| WordMatch.EscapeRegex | src/lib/vocabularyService.js:418-420 | the escaped text is at least as long as the input |
| WordMatch.EscapeRegexSpec | src/lib/vocabularyService.js:418-420 | every special character of the escaped pattern is preceded by a backslash, and unescaping it gives back the input |
| VocabularyRules.SeedTerms | src/lib/vocabularyService.js:132-137 | one row per seed term, in order, with its category, frequency 0, no corrections, created now and never used |
| VocabularyRules.Seeded | src/lib/vocabularyService.js:123-139 | the categories are seeded iff that store is empty, the terms iff theirs is, and the corrections are never touched |
| VocabularyRules.SeedHasMultiWordTerm | src/lib/vocabularyService.js:60 | the seed term 'angina pectoris' holds a space |
| VocabularyRules.IndexTermsCovers | src/lib/vocabularyService.js:162-164 | every term row is reachable under its lower-cased text |
| VocabularyRules.IndexTermsLastWins | src/lib/vocabularyService.js:162-164 | each key holds the last row whose lower-cased text is that key |
| VocabularyRules.IndexTermsSpec | src/lib/vocabularyService.js:162-164 | after loading, terms are keyed by lower-cased text, and each key holds a stored row with that lower-cased text |
| VocabularyRules.GroupCorrectionsSpec | src/lib/vocabularyService.js:166-172 | each group holds exactly the rows whose lower-cased original is its key, in row order; every row sits in the group of its own lower-cased original; no group is empty |
| VocabularyRules.TotalCorrectionsAfterLoad | src/lib/vocabularyService.js:356-357 | after loading, the group sizes add up to the number of stored corrections |
| VocabularyRules.MostFrequentSpec | src/lib/vocabularyService.js:190-192 | the chosen correction has the highest frequency of its group, and on a tie it is the last one with that frequency |
| VocabularyRules.Rules | src/lib/vocabularyService.js:189-192 | one rule per group, in map order, holding the group's key and its most frequent correction |
| VocabularyRules.Confidence | src/lib/vocabularyService.js:200 | min(frequency / 10, 1): at most 1, not negative for a non-negative frequency, and 1 from frequency 10 on |
| VocabularyRules.ApplyRule | src/lib/vocabularyService.js:194-202 | a text without the original as a whole word is left alone; otherwise every occurrence is replaced and the correction is reported |
| VocabularyRules.AppliedExactly | src/lib/vocabularyService.js:189-203 | the reported corrections are exactly the rules, in order, whose original occurs as a whole word in the text the earlier rules left |
| VocabularyRules.LaterRuleSeesEarlier | src/lib/vocabularyService.js:189-203 | a later rule sees what an earlier one wrote: with a to b and b to c, "a" ends as "c" |
| VocabularyRules.ApplyRulesNotIdempotent | src/lib/vocabularyService.js:189-203 | applying the corrections twice can differ from applying them once |
| VocabularyRules.Bump | src/lib/vocabularyService.js:324-338 | one increment keeps the index's keys and both the index and the store well formed |
| VocabularyRules.BumpAll | src/lib/vocabularyService.js:206-211 | the frequency loop keeps the index's keys |
| VocabularyRules.BumpAllCounts | src/lib/vocabularyService.js:206-211 | each term's frequency goes up by the number of tokens equal to its key, and nothing else of it changes but the time of last use |
| VocabularyRules.MultiWordNeverCounted | src/lib/vocabularyService.js:206-210 | a term whose key holds whitespace is never counted |
| VocabularyRules.SeededMultiWordNeverCounted | src/lib/vocabularyService.js:206-210 | the seeded 'angina pectoris' keeps its frequency whatever text is transcribed |
| VocabularyRules.LowerTokens | src/lib/vocabularyService.js:206 | the tokens of a lower-cased text are lower case |
| VocabularyRules.Candidates | src/lib/vocabularyService.js:245-255 | no more candidates than terms looked at |
| VocabularyRules.CandidatesSpec | src/lib/vocabularyService.js:245-255 | a candidate exists for exactly the terms at distance 1 to maxDistance from the word, carrying the stored text, frequency and category |
| VocabularyRules.SimilarTermsMembers | src/lib/vocabularyService.js:242-256 | findSimilarTerms holds exactly the terms whose key is at distance 1 to maxDistance, with stored text, distance, frequency and category |
| VocabularyRules.SimilarTermsSorted | src/lib/vocabularyService.js:258-263 | the list is sorted by ascending distance and, on equal distance, by descending frequency |
| VocabularyRules.Top3 | src/lib/vocabularyService.js:232 | at most three suggestions, a prefix of the ranked list, and at least one when the list is not empty |
| VocabularyRules.SuggestionsSpec | src/lib/vocabularyService.js:222-239 | one entry for exactly the tokens that are not a term key and have a similar term, each with at most 3 suggestions, the best first |
| VocabularyRules.CategoryCountsSpec | src/lib/vocabularyService.js:359-365 | each category is counted as often as terms carry it, every term's category is listed, and the counts add up to the number of terms |
| VocabularyRules.MostUsed | src/lib/vocabularyService.js:367-369 | min(10, number of terms) entries |
| VocabularyRules.MostUsedSpec | src/lib/vocabularyService.js:367-369 | at most 10 terms, by descending frequency, all of them terms, and any term left out is used no more often than every term listed |
| VocabularyRules.ImportTable | src/lib/vocabularyService.js:399-407 | a missing list leaves its table as it is |
| VocabularyRules.ImportOwnExport | src/lib/vocabularyService.js:380-407 | importing a table's own export gives back the same rows |
| Vocabulary.FindPair | src/lib/vocabularyService.js:299-302 | the row found for a pair matches its original up to case and its corrected text; when none is found, no stored row matches |
| Vocabulary.LoadTerms | src/lib/vocabularyService.js:162-164 | the term loop builds exactly the index of the stored terms, keyed by lower-cased text, the last row winning |
| Vocabulary.LoadCorrections | src/lib/vocabularyService.js:166-172 | the correction loop builds exactly the grouping of the stored corrections by lower-cased original |
| Vocabulary.LoadCategories | src/lib/vocabularyService.js:174-176 | the category loop builds exactly the index of the stored categories by name |
| Vocabulary.ApplyCorrections | src/lib/vocabularyService.js:189-203 | the correction loop applies each original's most frequent rule in index order, exactly as the rule semantics prescribe |
| Vocabulary.FindPairAppended | src/lib/vocabularyService.js:311 | after a matching row is added, the pair is found |
| Vocabulary.FindPairUpdated | src/lib/vocabularyService.js:306-308 | after the found row's frequency is raised, the pair is still found |
| Vocabulary.NewTerm | src/lib/vocabularyService.js:268-275 | a new term is stored trimmed, with frequency 1, no corrections, created and used now |
| Vocabulary.NewCorrection | src/lib/vocabularyService.js:289-295 | a new correction is stored with both texts trimmed, frequency 1, created now, with its context |
| Vocabulary.CountCategories | src/lib/vocabularyService.js:359-365 | the category loop computes exactly the per-category term counts |
| Vocabulary.StoreCorrection | src/lib/vocabularyService.js:298-312 | an existing pair has its frequency raised by one and nothing else changes; otherwise the new row is appended; either way the pair is then stored |
| Vocabulary.AddTermKeyMismatch | src/lib/vocabularyService.js:269-279 | for " x", the in-memory index lacks the key "x" that reloading the store gives it |
| Vocabulary.VocabularyService.constructor | src/lib/vocabularyService.js:111-116 | a new service is not initialised, seeds with the default categories and terms, and its three indexes are empty |
| Vocabulary.VocabularyService.LoadData | src/lib/vocabularyService.js:150-177 | the three indexes are rebuilt from the stored rows; the store is unchanged |
| Vocabulary.VocabularyService.Initialize | src/lib/vocabularyService.js:119-147 | once initialised nothing changes; otherwise the empty stores are seeded, the indexes loaded and the service marked initialised |
| Vocabulary.VocabularyService.FindSimilarTerms | src/lib/vocabularyService.js:242-264 | exactly the terms at distance 1 to maxDistance, ranked by distance, then by descending frequency |
| Vocabulary.VocabularyService.GetSuggestions | src/lib/vocabularyService.js:222-239 | one entry per unknown token with near misses, holding at most its three best |
| Vocabulary.VocabularyService.IncrementTermFrequency | src/lib/vocabularyService.js:324-338 | a known term is counted once more and stamped in memory and store; an unknown term changes nothing |
| Vocabulary.VocabularyService.CountTerms | src/lib/vocabularyService.js:206-211 | every token that is a known term is counted, in order; corrections and categories are untouched |
| Vocabulary.VocabularyService.ProcessTranscription | src/lib/vocabularyService.js:180-219 | initialises if needed, the text returned is the corrections applied to the input, the recognised terms of it are counted and the suggestions are those of the corrected text |
| Vocabulary.VocabularyService.AddTermAsWritten | src/lib/vocabularyService.js:267-285 | the trimmed row is stored, but indexed under the untrimmed lower-cased text |
| Vocabulary.VocabularyService.AddTerm | src/lib/vocabularyService.js:267-285 | the trimmed row is stored and indexed under its trimmed lower-cased text, so an index in step with the store stays in step |
| Vocabulary.VocabularyService.AddCorrectionAsWritten | src/lib/vocabularyService.js:297-320 | the lookup on the undeclared compound index fails, so the call answers false and stores nothing |
| Vocabulary.VocabularyService.AddCorrection | src/lib/vocabularyService.js:288-321 | the correction is stored or counted once more, the other tables are unchanged and the indexes are reloaded |
| Vocabulary.VocabularyService.GetTermsByCategory | src/lib/vocabularyService.js:341-346 | a subsequence of the terms in index order: exactly those of the category when one is given, else all |
| Vocabulary.VocabularyService.GetCategories | src/lib/vocabularyService.js:349-351 | every category of the index exactly once |
| Vocabulary.VocabularyService.GetStatistics | src/lib/vocabularyService.js:354-377 | the counts of terms and corrections, per-category counts that sum to the number of terms and each count its category's terms, and the ten most used terms |
| Vocabulary.VocabularyService.ExportVocabulary | src/lib/vocabularyService.js:380-394 | every stored row of the three tables, the export time and version "1.0" |
| Vocabulary.VocabularyService.ImportVocabulary | src/lib/vocabularyService.js:397-415 | each table present is put row by row into the store, then the indexes are reloaded |
| Ocr.Lines | src/lib/ocrService.js:81 | every line kept is non-empty and trimmed |
| Ocr.LineCandidates | src/lib/ocrService.js:108-117 | every candidate of a line is a substring of that line |
| Ocr.Candidates | src/lib/ocrService.js:107-132 | every candidate is a substring of one of the lines |
| Ocr.CollectCandidates | src/lib/ocrService.js:107-132 | the nested loops push exactly the candidates of each line in turn |
| Ocr.CollectLine | src/lib/ocrService.js:108-117 | the inner loop pushes exactly each pattern's matches on the line, in pattern order |
| Ocr.SplitPointUnique | src/lib/ocrService.js:168-170 | in capitals-then-digits text the capitals end at one place only |
| Ocr.IdShapesExclusive | src/lib/ocrService.js:168-170 | the three identifier formats exclude each other, and each has 8 to 12 characters |
| Ocr.ScorePatientId | src/lib/ocrService.js:160-177 | the score lies in [-2, 10], is positive exactly for 6 to 12 characters, and is 10 exactly for 8 to 10 characters of 2 or 3 capitals then digits |
| Ocr.Dedupe | src/lib/ocrService.js:146 | the same values, each once |
| Ocr.DedupePrefix | src/lib/ocrService.js:146 | removing duplicates keeps the order of first occurrence, so a prefix maps to a prefix |
| Ocr.FirstIndexOf | src/lib/ocrService.js:146 | every value of a list has a first occurrence |
| Ocr.TopIsMax | src/lib/ocrService.js:146-155 | after removing duplicates and sorting by descending score, the first value is a candidate of highest score |
| Ocr.TopIsFirst | src/lib/ocrService.js:146-155 | the stable sort hands ties to the earliest candidate: no candidate before it reaches its score |
| Ocr.SelectBestPatientId | src/lib/ocrService.js:142-157 | none for no candidates; otherwise the earliest candidate of highest score when that score is positive, and none when no candidate scores above 0 |
| Ocr.PatientIdFoundIff | src/lib/ocrService.js:142-177 | an identifier is chosen exactly when some candidate has 6 to 12 characters |
| Ocr.Fields | src/lib/ocrService.js:226-228 | a text splits into at least one separator-free group |
| Ocr.FieldsOfDate | src/lib/ocrService.js:226-228 | three digit groups joined by separators split back into exactly those groups |
| Ocr.FormatsExclusive | src/lib/ocrService.js:226-228 | no text has two of the three date formats |
| Ocr.TwoDigitYear | src/lib/ocrService.js:249 | years 00 to 30 become 2000 to 2030, the others 1931 to 1999, keeping the last two digits |
| Ocr.Candidate | src/lib/ocrService.js:232-260 | a date is given only for a text of that format and only for an existing day of a year from 100 on |
| Ocr.TryFormats | src/lib/ocrService.js:231-263 | any date given is an existing day of a year from 100 on |
| Ocr.BirthDateOf | src/lib/ocrService.js:222-267 | any date read is an existing day of a year from 100 on |
| Ocr.ParseBirthDate | src/lib/ocrService.js:222-267 | the loop over the formats returns the first date that survives the round trip, or none |
| Ocr.BirthDateOfFormat | src/lib/ocrService.js:231-261 | only the format the text has decides its date |
| Ocr.BirthDateOfNoFormat | src/lib/ocrService.js:263 | a text of none of the formats has no date |
| Ocr.BirthDateOfFields | src/lib/ocrService.js:236-259 | a text of a format reads as its numbers exactly when they name an existing day of a year from 100 on |
| Ocr.ParseDayMonthYear | src/lib/ocrService.js:236-239 | `d-m-yyyy` reads as day d of month m of yyyy when that day exists and the year is from 100 on, else none |
| Ocr.ParseYearMonthDay | src/lib/ocrService.js:240-243 | `yyyy-m-d` reads as that day under the same conditions |
| Ocr.ParseTwoDigitYear | src/lib/ocrService.js:244-250 | `dd-mm-yy` reads with the year pivoted at 30, exactly when that day exists |
| Ocr.ScoreBirthDate | src/lib/ocrService.js:200-219 | 0 without a date; within [0, 12]; positive exactly when there is a date and either the age is 0 to 120 or the text is day-month-year with a four-digit year |
| Ocr.SelectBestBirthDate | src/lib/ocrService.js:180-197 | none for no candidates; otherwise the earliest candidate of highest score, with a date, when that score is positive, and none when no candidate scores above 0 |
| Ocr.SortedWithin | src/lib/ocrService.js:194 | no sorted candidate scores above the first |
| Ocr.FindUsable | src/lib/ocrService.js:195 | the search takes the first sorted candidate when its score is positive, and finds nothing otherwise |
| Ocr.ExtractPatientInfo | src/lib/ocrService.js:80-139 | the trimmed non-empty lines, the candidates of every line for both pattern lists, and the best of each, which is one of the candidates |
| Ocr.CalculateConfidence | src/lib/ocrService.js:270-285 | within [0, 100]; 100 when both fields are found, 50 to 70 when one is, at most 20 when none is |
| Wav.U16RoundTrip | src/lib/speechService.js:172-177 | a 16-bit little-endian field reads back as the value modulo 2^16 |
| Wav.U32RoundTrip | src/lib/speechService.js:168-179 | a 32-bit little-endian field reads back as the value modulo 2^32 |
| Wav.I16RoundTrip | src/lib/speechService.js:186 | a 16-bit sample written with `setInt16` reads back as itself |
| Wav.Header | src/lib/speechService.js:167-179 | the header is 44 bytes |
| Wav.HeaderSlices | src/lib/speechService.js:402-414 | each header field sits at its offset: the tags, the two sizes, format 1, channels, rate, byte rate, block align and 16 bits |
| Wav.PcmAt | src/lib/speechService.js:182-189 | sample k occupies bytes 2k and 2k + 1 of the sample area, low byte first |
| Wav.Wav | src/lib/speechService.js:157 | the file image is 44 bytes plus two per sample |
| Wav.WavLayout | src/lib/speechService.js:167-189 | a reader finds the four tags, a RIFF size of the length minus 8 and a data size of the length minus 44 (both modulo 2^32), the format fields, and every sample from offset 44 on |
| Wav.WavSampleAt | src/lib/speechService.js:182-189 | sample k of the image sits at bytes 44 + 2k and 44 + 2k + 1 |
| Wav.Spliced | src/lib/speechService.js:163 | writing over a buffer changes exactly the bytes written |
| Wav.WriteString | src/lib/speechService.js:161-165 | the text's character codes are written from the offset on, nothing else changes |
| Wav.SetUint16 | src/lib/speechService.js:172 | the two little-endian bytes of the value are written at the offset, nothing else changes |
| Wav.SetUint32 | src/lib/speechService.js:168 | the four little-endian bytes of the value are written at the offset, nothing else changes |
| Wav.WriteHeader | src/lib/speechService.js:402-414 | the first 44 bytes become the header, the rest is unchanged |
| Wav.WriteSample | src/lib/speechService.js:421-422 | one sample extends the written prefix of the image by two bytes |
| Wav.TotalLength | src/lib/speechService.js:156 | the sum of the chunk lengths is the number of samples of all chunks |
| Wav.ConcatPrefix | src/lib/speechService.js:183-189 | the samples of the first chunks are a prefix of all samples |
| Wav.ConcatAt | src/lib/speechService.js:183-189 | sample i of chunk c follows the samples of the chunks before it |
| Wav.CreateWavBlob | src/lib/speechService.js:155-192 | a new buffer holding exactly the image of one channel with the chunks one after another |
| Wav.Interleave | src/lib/speechService.js:418-424 | the samples frame by frame: sample i of channel ch at position i * channels + ch |
| Wav.FrameSlotBounds | src/lib/speechService.js:392 | every frame slot lies inside the buffer |
| Wav.AudioBufferToWav | src/lib/speechService.js:388-427 | a new buffer holding exactly the image of the channels interleaved, with the buffer's channel count and rate |
| Wav.WriteFrame | src/lib/speechService.js:419-423 | the inner loop writes one frame, extending the written prefix of the image |
| Wav.CreateWavSampleOrder | src/lib/speechService.js:182-189 | in the image, sample i of chunk c reads back at offset 44 + 2 * (samples before chunk c + i) |
| Wav.AudioBufferSampleOrder | src/lib/speechService.js:416-424 | in the image, sample i of channel ch reads back at offset 44 + 2 * (i * channels + ch) |
| SimpleServer.RequestPath | simple_server.py:8-17 | never empty; the root (``, `/` or `//`) gives `index.html`; otherwise the raw path with at most one leading slash removed |
| SimpleServer.JoinPath | simple_server.py:29 | a relative path goes below the folder, an absolute one replaces it |
| SimpleServer.MimeType | simple_server.py:37-46 | the guessed type when there is one, else the type of the `.js`, `.css` or `.html` extension, else `application/octet-stream` exactly when none of them applies |
| SimpleServer.SuffixesExclusive | simple_server.py:39-46 | no path has two of the three extensions |
| SimpleServer.LastSegment | simple_server.py:64 | the last segment contains no slash |
| SimpleServer.Fallback | simple_server.py:63-85 | either 404, or a successful answer for an application route |
| SimpleServer.AsWrittenEscapesDist | simple_server.py:12-35 | as written, `//etc/passwd` reads `/etc/passwd`, outside `dist`: two file systems that differ only there answer differently |
| SimpleServer.ApplicationAsWritten | simple_server.py:7-85 | `application` as written: `health` gets the health answer; every answer succeeds or is 404; a `Content-Length` header gives the body's length |
| SimpleServer.Application | simple_server.py:12-35 | the corrected server of the dist-escape finding, which looks up only confined paths: `health` gets the health answer; every answer succeeds or is 404; a `Content-Length` header gives the body's length |
| SimpleServer.ConfinedPathsAsWritten | simple_server.py:28-35 | on every relative path without `..` the corrected server answers as the original |
| SimpleServer.OnlyDistMatters | simple_server.py:28-79 | the answer depends only on what lies below `dist` |
| SimpleServer.IndexConfined | simple_server.py:65 | `index.html` is a confined path |
| SimpleServer.SplitNoSlash | simple_server.py:64 | a path without a slash is a single segment |
| SimpleServer.HealthFirst | simple_server.py:20-25 | `health` is answered before any file is looked at, whatever the file system |
| SimpleServer.ServesFile | simple_server.py:28-58 | as written, a readable regular file at the joined path is served with its type and length |
| SimpleServer.ServesConfinedFile | simple_server.py:28-58 | the corrected server serves a readable file at a confined path from below `dist`, with its type and length |
| SimpleServer.FallsBack | simple_server.py:63-85 | as written, without a readable file at the joined path an application route gets `index.html` when it can be read, and anything else 404 |
| SimpleServer.UnconfinedFallsBack | simple_server.py:63-85 | the corrected server sends every unconfined path to the fallback: `index.html` for an application route when it can be read, else 404 |
| SimpleServer.MissingAssetIsNotFound | simple_server.py:63-85 | as written, an asset or a path with an extension, without a readable file at the joined path, gets 404 |
| Patterns.Flatten | src/lib/ocrService.js:91-104 | the ways to go on, concatenated, all lie inside the text |
| Patterns.Extend | src/lib/ocrService.js:91-104 | a match continued by what follows stays inside the text, one continuation per way |
| Patterns.Hits | src/lib/ocrService.js:91-104 | every way a pattern matches from a position ends inside the text, with its group inside the match |
| Patterns.FirstMatch | src/lib/ocrService.js:109 | the leftmost position where the pattern matches, with the first way it matches there, and none exactly when it matches nowhere |
| Patterns.AllMatches | src/lib/ocrService.js:109-112 | every match of a global search is a substring of the text |
| Patterns.Matched | src/lib/ocrService.js:109-115 | every candidate pushed is a substring of the line, and a pattern without the global flag pushes at most one |
| Calendar.DaysIn | src/lib/ocrService.js:252-257 | every month has 28 to 31 days |
| Calendar.Shift | src/lib/ocrService.js:252 | the day counted on from the first of a month is an existing day; a day of that month is itself, a later one falls in a later month, day 0 in the month before |
| Calendar.NewDate | src/lib/ocrService.js:252 | `new Date(year, month, day)` denotes an existing day |
| Calendar.RoundTripsIff | src/lib/ocrService.js:252-259 | the round trip holds exactly for an existing day of a year from 100 on |
| Ranking.SortMembers | src/lib/ocrService.js:155 | sorting keeps exactly the elements |
| Ranking.Insert | src/lib/vocabularyService.js:258-263 | one insertion adds exactly the element |
| Ranking.Sort | src/lib/vocabularyService.js:258-263 | the sort is a permutation of its input |
| Ranking.InsertSorted | src/lib/vocabularyService.js:258-263 | inserting into sorted elements keeps them sorted |
| Ranking.SortSorted | src/lib/vocabularyService.js:258-263 | the result is ordered by the comparator's key |
| Ranking.InsertStable | src/lib/ocrService.js:155 | insertion keeps the order of the elements that share a key |
| Ranking.SortStable | src/lib/ocrService.js:155 | the sort is stable: elements with the same key keep their relative order |
| Ranking.SortFirst | src/lib/ocrService.js:155-156 | the first element after sorting has the lowest key and is the earliest element of that key |
| Ranking.FirstOfFilter | src/lib/ocrService.js:195 | `find` on a list whose head passes returns the head |
| Ranking.FirstOfFilterIndex | src/lib/ocrService.js:195 | `find` returns the first element that passes, none before it does |
| OrderedMaps.OrderedMap.Values | src/lib/vocabularyService.js:343-345 | the values in insertion order of the keys |
| OrderedMaps.OrderedMap.Set | src/lib/vocabularyService.js:163 | `set` maps the key to the value; an existing key keeps its place, a new one goes last |
| OrderedMaps.Empty | src/lib/vocabularyService.js:158-160 | a cleared map has no entries |
| OrderedMaps.SizeIsCardinality | src/lib/vocabularyService.js:355 | `size` is the number of keys |
| Dexie.Table.Add | src/lib/vocabularyService.js:278 | `add` appends the row under the next generated key |
| Dexie.Table.BulkAdd | src/lib/vocabularyService.js:126 | `bulkAdd` appends the items in order under consecutive new keys |
| Dexie.Table.Put | src/lib/vocabularyService.js:400 | `put` makes the key hold the row and leaves every other key alone, adding a row only for a new key |
| Dexie.Table.Update | src/lib/vocabularyService.js:306-308 | `update` changes the row with that key only |
| Dexie.Table.Delete | src/lib/database.js:205 | `delete` removes that key and leaves every other key alone |
| Dexie.Table.BulkDelete | src/lib/dataRetentionService.js:121 | `bulkDelete` removes exactly the rows with the given keys, in order |
| Dexie.DeleteWhere | src/lib/dataRetentionService.js:112-123 | a query followed by the deletion of its keys removes exactly the matching rows and counts them |
| Dexie.PutRowIdempotent | src/lib/vocabularyService.js:397-415 | putting the same row twice is putting it once, so importing an export again changes nothing more |
| Common.TrimShape | src/lib/ocrService.js:81 | `trim` removes exactly a whitespace prefix and suffix and leaves a trimmed string |
| Common.TrimIdempotent | src/lib/vocabularyService.js:269 | trimming twice is trimming once |
| Common.ToLower | src/lib/vocabularyService.js:163 | lower-casing keeps the length and maps every character |
| Common.ToLowerIdempotent | src/lib/vocabularyService.js:325 | lower-casing twice is lower-casing once |
| Common.Split | src/lib/ocrService.js:81 | at least one piece, none containing the separator |
| Common.Cap | src/components/TaskCard.jsx:180 | the first elements up to the bound, and a positive overflow count exactly when the list is longer |
| Common.NatToStringRoundTrip | simple_server.py:55 | a rendered length reads back as that number |
| Common.ParseInt | src/components/TaskForm.jsx:126 | `parseInt` of decimal text gives no number exactly when no digit follows the leading whitespace and one sign |
| Common.ParseIntDigits | src/lib/ocrService.js:237-247 | a string of digits reads as the number it spells |

## Design and code

The design description calls correction application idempotent: a second
pass over corrected text should change nothing. The code applies each
original's correction in turn, in the index's order, so a later correction
sees the text an earlier one produced (src/lib/vocabularyService.js:189-203).
The model follows the code. `VocabularyRules.ApplyRulesNotIdempotent` gives
a correction set for which a second pass changes the text again.

## Left out

- Browser and I/O effects are not modelled:
  - IndexedDB and `localStorage` as such; they are in-memory tables and an ordered map.
  - `JSON.parse`, which is an `Item` saying whether the value is unreadable, a record with a timestamp, or a list.
  - Console logging; `print` in `simple_server.py`.
  - `start_response`, and the file system of `simple_server.py`, which is the `Files` parameter.
- Asynchrony and timers are not modelled: `setInterval`, un-awaited promises, and the refresh loops of the components. A sweep is one method call at a given `now`. `Retention.DataRetentionService.Initialize` sets `isRunning` before the first sweep rather than after, which makes no difference because the sweep does not read it.
- Exceptions from Dexie and `localStorage` (quota, a closed database) are not modelled. Only the failures the code itself causes are, in the as-written members of the findings.
- `Retention.DataRetentionService.PerformCleanup`, `RunCleanupSteps`, `TriggerManualCleanup` and `Initialize` compose the corrected task and correction steps (`CleanupTasks`, `CleanupVocabularyCorrections`). As written, both steps report 0 and delete nothing, which `PerformCleanupAsWritten` and `RunCleanupStepsAsWritten` state; the manual and initial sweeps as written are those.
- `Retention.DataRetentionService.GetDataAgeStatistics` is the corrected statistics. As written the method returns null, which `GetDataAgeStatisticsAsWritten` states.
- `Retention.DataRetentionService.PerformCleanup`: `onError` is not modelled. Every step catches its own errors, so the outer catch, the only caller of `onError`, is not reached by any failure the model has.
- `Retention.Cutoff`: `setHours(getHours() - hours)` is taken as exactly `hours` hours before now. Local time and daylight saving are not modelled.
- `Retention.RemoveExpired`: revoking a recording's blob URL (src/lib/dataRetentionService.js:152-154) is outside the model; the record is removed either way.
- `Retention.History`: a stored log that parses to something other than a list counts as an empty history. In the source, `getCleanupHistory` would return that value as it is.
- `Retention.DataRetentionService.CleanupTasksAsWritten` assumes a bundler that tolerates the missing `taskDB` export, so `taskDB` is `undefined` at run time. Under native module linking, the import itself would fail and the service would never load.
- `localStorage.key(i)` order is the insertion order of the keys.
- Clock and calendar functions are not modelled: JavaScript `Date` internals, date-fns `format`, `isToday` and `isPast`, and time zones, except the fixed zone offset of the due date in `TaskForm`. The local day is given by its first and last moment (or the `Day` of a timestamp), and `Calendar` models only what `new Date(y, m, d)` reads back as.
- `TaskForm.DueOf`, `TaskForm.DueOfAsWritten`: the zone offset is fixed for the day. A daylight-saving change between midnight and the chosen time is not modelled, nor are seconds and milliseconds, which are 0 for these inputs.
- `TaskForm.Submit` is the corrected submission of the due-date finding: a date alone is due at the local midnight of the named day, where the source sends midnight UTC, and a date with a time uses the named local day. `TaskForm.SubmitAsWritten` is the source's submission.
- `Common.ParseInt` reads a `0x` or `0X` prefix after the sign as the decimal 0 followed by a non-digit, where `parseInt` without a radix reads it as hexadecimal (`parseInt("0x1A")` is 26, and `parseInt("0x")` is `NaN`). Its only caller passes the `hh:mm` text of a time input, which never has such a prefix.
- `TaskCard.Truncated` counts Unicode scalar values, while `length` and `substring` count UTF-16 code units. A description with characters outside the Basic Multilingual Plane is cut at a different place, possibly inside a surrogate pair in the source. The strings `Levenshtein` compares are read the same way, where `str.length` and `charAt` count code units.
- `Tasks.ApplyPatchSpec`: the model's updates have no `createdAt` field, so `createdAt` is always kept. The source spreads the updates object, so a caller passing `createdAt` would overwrite it.
- `Common.ToLower`: only ASCII letters are lower-cased. The `i` flag of the vocabulary regular expression is read the same way.
- Whitespace for `trim` and `\s` is ASCII whitespace and the no-break space, not the whole Unicode list.
- `Tasks.TaskService.CreateTask`: `crypto.randomUUID` is a fresh number supplied by the caller. Ties in key order (search results, equal creation times) follow these numbers, not the order of UUID strings.
- `Tasks.TaskService.GetTodaysTasks`: its result is the tasks due or created today, as a subsequence of the table. The order Dexie's `or` query returns them in is not modelled.
- `Tasks.TaskService.UpdateTask`: a field given as `undefined` in the updates is treated as absent. Dexie would write `undefined`.
- A task without a due date counts as due at time 0 when due dates are sorted; it never qualifies as overdue.
- `UseTasks.ReplaceById`: the hook drops in whatever the service returned. A failed update (`undefined`) is not modelled.
- `Dashboard.CompletionRate`: `Math.round(completed / total * 100)` is computed exactly on integers. Floating-point error is not modelled.
- `DataRetentionStatus.FormatDateTime`: `toLocaleString('nl-NL')` is the `render` parameter.
- `VocabularyRules.Confidence`: `Math.min(frequency / 10, 1)` is an exact `real`, not a double.
- `Patterns.Hits`: a repetition round that matches the empty string ends the repetition. None of the fixed patterns has one, since each round consumes a character.
- `Ocr.ScoreBirthDate`: the current year is a parameter, not `new Date().getFullYear()`.
- The Tesseract worker is not modelled: `initialize`, `processImage`, `cleanup` and `getStatus` of `src/lib/ocrService.js`, and the progress callbacks. Text recognition is outside the model.
- `formatExtractedData` (src/lib/ocrService.js:288-306) is left out. It only formats for display, through the locale.
- `Wav.CreateWavBlob` and `Wav.AudioBufferToWav` take samples already quantised to 16 bits. The clamp to [-1, 1] and the scaling by 0x7FFF or 0x8000 are floating point and left out, as is wrapping the buffer in a `Blob`.
- Recording and playback in `src/lib/speechService.js` are media and network APIs, not logic of the model: capture, the Safari recorder, the upload for transcription and decoding.
- `SimpleServer.JoinPath`: `os.path.join` is written with `/`, and `dist` is the folder beside the script. `REQUEST_METHOD` is read but never used, so it is left out.
- UI files beyond the named decision rules are not modelled: `SpeechInput.jsx`, `OCRInput.jsx` and `App.jsx`. Nor are the Flask and Express servers and the build configuration.
- `Vocabulary.VocabularyService.GetTermsByCategory`, `GetCategories`, `ExportVocabulary` and `GetStatistics` are plain functions and queries. `exportDate` is the moment `now`, not its ISO text.

## Findings

| source | as written | input that shows it | evidently intended | confidence | as-written member | corrected member |
|---|---|---|---|---|---|---|
| src/lib/vocabularyService.js:299-302 | the lookup queries the compound index `[original+corrected]`, which the schema (line 11) does not declare. Dexie rejects the query, the catch answers false and nothing is ever stored | any call, e.g. `addCorrection("hartfalen", "hartfalen")` | an existing pair, with the original compared up to case, is counted once more; otherwise a trimmed row with frequency 1 is added; then the indexes are reloaded | not executed | Vocabulary.VocabularyService.AddCorrectionAsWritten | Vocabulary.VocabularyService.AddCorrection |
| src/lib/vocabularyService.js:279 | the new term is indexed under the lower-cased untrimmed text, while the stored row (line 269) and every later `loadData` (line 163) use the trimmed text | `addTerm(" x")` on an empty vocabulary: the index has `" x"` but not `"x"` | index the term under its trimmed lower-cased text, so the index stays in step with the store | not executed | Vocabulary.AddTermKeyMismatch | Vocabulary.VocabularyService.AddTerm |
| src/lib/dataRetentionService.js:218 | `cleanupVocabularyCorrections` reads `vocabularyService.vocabularyDB`, a field the service never defines (src/lib/vocabularyService.js:111-116). The access throws, the catch (lines 233-236) returns 0, and no correction is ever deleted | any sweep with a correction older than the cutoff | delete the corrections created before the cutoff from the vocabulary database, count them and reload the indexes | not executed | Retention.DataRetentionService.CleanupVocabularyCorrectionsAsWritten | Retention.DataRetentionService.CleanupVocabularyCorrections |
| src/lib/dataRetentionService.js:4 | `taskDB` is imported from `database.js`, which exports `db` (src/lib/database.js:127). `taskDB.tasks` throws, so `cleanupTasks` (line 112) returns 0 and `getDataAgeStatistics` (line 326) returns null | any sweep with a task created before the cutoff | use the exported `db`: delete and count the old tasks, and report their ages | not executed | Retention.DataRetentionService.CleanupTasksAsWritten | Retention.DataRetentionService.CleanupTasks |
| src/components/TaskFormFullPage.jsx:73-74 | the template rule reads `template.description` and `template.priority`, fields the shipped templates do not have. The fallbacks `''` and MEDIUM always apply | choosing the cathlab report template (src/lib/database.js:268-275) gives priority MEDIUM instead of HIGH | take the template's own default description and priority | not executed | TaskFormFullPage.TemplateDefaultsLost | TaskFormFullPage.SelectTemplate |
| src/components/TaskForm.jsx:123-126 | `new Date(dueDate)` reads the `yyyy-MM-dd` text as midnight UTC, and `setHours` then sets the clock time on the local day holding that moment. West of UTC that is the day before the one chosen. A date without a time is sent as that UTC midnight, which west of UTC is the evening before the chosen day (`TaskForm.SubmitDateOnlyWest`) | `2025-03-10` with `09:00` in a zone five hours behind UTC is due at 09:00 on 9 March | the chosen clock time on the local day the date names | not executed | TaskForm.AsWrittenDayEarlyWest | TaskForm.DueOnNamedDay |
| simple_server.py:12-35 | only one leading slash is stripped, and `os.path.join(dist, path)` with an absolute `path` discards `dist`. The server then reads files outside its folder | `PATH_INFO` `//etc/passwd` makes it read `/etc/passwd` | look up only relative paths without `..` below `dist`, and send any other path to the fallback | not executed | SimpleServer.AsWrittenEscapesDist | SimpleServer.OnlyDistMatters |
