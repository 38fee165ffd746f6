# Dona task lifecycle in Dafny

Dona is a personal task tracker. Its tasks move between the categories Inbox,
Planned, Later and Done. The app shows them in tabs: Inbox, Today, Plan and
Later, plus an All Tasks list. This project models the rules that decide
where a task goes and where it is shown:

- the unsnooze sweep, which sends Later tasks whose snooze day has come back to the Inbox and counts how often that happened;
- the derived lists: Inbox's three sections, Today, Plan's day sections, Later's Someday and day sections, and All Tasks with search and status filter;
- swipe-to-delete in every list;
- drag-and-drop re-filing onto a tab (`handleDrop`) and the preset each tab opens the form with;
- the create / edit form: snooze dates (tomorrow, next weekend, next month), the preset a task reopens on, and the mapping from preset to category and due date when saving;
- the done toggle of a task row;
- the task record, its initializer defaults and its categories.

SwiftData objects become immutable values. Every mutation returns the new
task or the new store, where a store is a `seq<Task>` and a task's identity
is its `id`. The clock is always a parameter. The modules follow the app's
files:

| module | file |
|---|---|
| `Tasks` (task.dfy) | Dona/Models/Task.swift |
| `Presets` (preset.dfy) | Dona/Utils/TaskInputPreset.swift |
| `Unsnooze` (unsnooze.dfy) | Dona/Batch/ModelContext+Unsnooze.swift |
| `InboxView`, `TodayView`, `PlanView`, `LaterView`, `AllView` | the list views |
| `TaskSheet` (task_sheet.dfy) | Dona/Views/Sheets/TaskSheet.swift |
| `TaskRow` (task_row.dfy) | Dona/Views/TaskRowView.swift |
| `ContentView` (content_view.dfy) | Dona/Views/ContentView.swift |
| `Counters` (counters.dfy) | the snooze counter across Dona/Models/Task.swift, the form and the sweep |

The supporting modules are:

- `Clock`: instants as whole seconds, with fixed 86 400-second days;
- `Gregorian`: the month arithmetic behind "next month";
- `Seqs`: filtering, sorting and grouping, with their lemmas;
- `Text`: case-insensitive substring search;
- `Store`: list orders and deletion by identity;
- `Wrappers`: `Option`.

## Model

| member | source | states |
|---|---|---|
| Tasks.NewTask | Dona/Models/Task.swift:13-24 | A new task carries exactly the given title, notes, category, due date and creation time. It has no snooze date, and its snooze counter is the given starting value. |
| Tasks.NewTaskWithDefaults | Dona/Models/Task.swift:13-17 | Left out, the defaulted arguments make a task in the Inbox with no notes and no due date. |
| Tasks.AllCategories | Dona/Models/Task.swift:27-32 | `allCases` lists four categories, each once, and every category is among them. |
| Tasks.LocalizedTitleInjective | Dona/Models/Task.swift:34-42 | Two categories share a title exactly when they are the same category. |
| Tasks.FreshId | Dona/Models/Task.swift:18 | The identifier given to a new task differs from the identifier of every stored task. |
| Tasks.InsertFreshKeepsUnique | Dona/Models/Task.swift:18 | Appending a task with a fresh identifier keeps all identifiers distinct. |
| Presets.AllPresets | Dona/Utils/TaskInputPreset.swift:11-16 | The four presets are listed in declaration order, each once, and every preset is among them. |
| Clock.StartOfDay | Dona/Batch/ModelContext+Unsnooze.swift:18 | The start of the day is the midnight at or before the instant, less than a day before it. |
| Unsnooze.Sweep | Dona/Batch/ModelContext+Unsnooze.swift:18-35 | Each Later task whose snooze day is today or earlier goes to the Inbox. It loses its snooze date, and its counter goes up by one. Every other task is unchanged. No task changes identity, text, due date or creation time. |
| Unsnooze.UnsnoozeIfNeeded | Dona/Batch/ModelContext+Unsnooze.swift:14-38 | A failed fetch leaves the store as it was. Otherwise the loop produces exactly the swept store. |
| Unsnooze.SweepLeavesSomeday | Dona/Batch/ModelContext+Unsnooze.swift:22-27 | A Later task without a snooze date is never touched. |
| Unsnooze.SweepLeavesOtherCategories | Dona/Batch/ModelContext+Unsnooze.swift:22-27 | A task outside Later is never touched, whatever its snooze date. |
| Unsnooze.SweepLeavesFutureSnoozes | Dona/Batch/ModelContext+Unsnooze.swift:29-30 | A task snoozed to a day after today is never touched. |
| Unsnooze.SweepCountsOnce | Dona/Batch/ModelContext+Unsnooze.swift:31 | The counter never decreases. It rises by exactly one exactly when the task was due. |
| Unsnooze.SweepLeavesNothingDue | Dona/Batch/ModelContext+Unsnooze.swift:29-34 | After a sweep, no task is due at the same instant. |
| Unsnooze.SweepIdempotent | Dona/Batch/ModelContext+Unsnooze.swift:20-35 | A second sweep at the same instant is safe and changes nothing. |
| Unsnooze.SweepKeepsCreationOrder | Dona/Batch/ModelContext+Unsnooze.swift:20-35 | A store ordered newest first stays ordered newest first after the sweep. |
| InboxView.Lists | Dona/Views/Lists/TaskListInboxView.swift:25-48 | The sections read the swept store when the sweep's fetch succeeds and the store as queried when it fails. On that store, "New" holds the Inbox tasks with no counter or a zero counter. "Snoozed" holds those with a counter from 1 to 3. The third section holds those with a counter above 3. All three are exact memberships. |
| InboxView.InboxPartition | Dona/Views/Lists/TaskListInboxView.swift:25-48 | With no negative counter, the three sections are pairwise disjoint. Together they hold each Inbox task of the store they read as often as it occurs, whether or not the sweep's fetch succeeded. |
| InboxView.CongratulationsIffInboxEmpty | Dona/Views/Lists/TaskListInboxView.swift:99-102 | With no negative counter, the congratulations show exactly when the store they read holds no Inbox task. |
| InboxView.NegativeCountIsHidden | Dona/Views/Lists/TaskListInboxView.swift:27-47 | An Inbox task with a negative counter appears in none of the three sections. |
| InboxView.DueTaskReturnsToInbox | Dona/Views/Lists/TaskListInboxView.swift:25-40 | When the sweep's fetch succeeds, the lists read the store after the sweep, so a due Later task shows in "Snoozed" when its new count is at most 3. Otherwise it shows in the "more than 3 times" section. |
| InboxView.FailedFetchLeavesDueTaskOut | Dona/Batch/ModelContext+Unsnooze.swift:16 | When the sweep's fetch fails, a due Later task stays out of all three Inbox sections. |
| InboxView.ListsKeepOrder | Dona/Views/Lists/TaskListInboxView.swift:15-48 | Each section is a subsequence of the store it reads and keeps its newest-first order. |
| InboxView.DeleteFromSection | Dona/Views/Lists/TaskListInboxView.swift:152-155 | Deleting at offsets of a section removes exactly the tasks shown there. Every other task stays, in order. |
| TodayView.TodayTasks | Dona/Views/TaskListTodayView.swift:14-20 | A task is listed exactly when it is planned and due within today's day. |
| TodayView.UndatedNotToday | Dona/Views/TaskListTodayView.swift:16-17 | A task without a due date is never listed. |
| TodayView.OnlyPlannedToday | Dona/Views/TaskListTodayView.swift:16 | A task that is not planned is never listed, even when it is due today. |
| TodayView.TodayKeepsDueOrder | Dona/Views/TaskListTodayView.swift:7-8 | The list keeps the query's ascending due-date order. |
| TodayView.DeleteToday | Dona/Views/TaskListTodayView.swift:49-51 | Deleting at offsets removes exactly the listed tasks there and keeps every other task. |
| PlanView.TomorrowStart | Dona/Views/Lists/TaskListPlanView.swift:18-22 | Tomorrow's start is a midnight, after now and at most one day after it. |
| PlanView.DatedTasks | Dona/Views/Lists/TaskListPlanView.swift:7-11 | The query fetches exactly the tasks that have a due date, in store order. |
| PlanView.FuturePlanned | Dona/Views/Lists/TaskListPlanView.swift:17-26 | A task is listed exactly when it is planned, dated, and due on a day after today. |
| PlanView.PlanGroups | Dona/Views/Lists/TaskListPlanView.swift:29-34 | There is one non-empty section per due day, with days strictly ascending. A section holds exactly the listed tasks of its day, in list order. Every listed task has a section, and the section sizes sum to the list length. |
| PlanView.PlanGroupUnique | Dona/Views/Lists/TaskListPlanView.swift:29-34 | Every listed task is in exactly one section. |
| PlanView.PlanGroupsAddUp | Dona/Views/Lists/TaskListPlanView.swift:36-38 | The section sizes add up to the count in the title bar. |
| PlanView.PlanEmptyIffNoGroups | Dona/Views/Lists/TaskListPlanView.swift:57 | The empty-list message shows exactly when there are no sections. |
| PlanView.PlanGroupsKeepDueOrder | Dona/Views/Lists/TaskListPlanView.swift:7-33 | Within a section, tasks keep the query's ascending due-date order. |
| PlanView.PlanExcludesTodayAndEarlier | Dona/Views/Lists/TaskListPlanView.swift:23-25 | A task that is unplanned, undated, or due today or earlier is never listed. |
| PlanView.TodayAndPlanDisjoint | Dona/Views/Lists/TaskListPlanView.swift:17-25 | No task is listed in both Today and Plan. |
| PlanView.DeleteInGroup | Dona/Views/Lists/TaskListPlanView.swift:111-113 | Deleting at offsets of one section removes exactly those tasks and keeps every other task. |
| LaterView.ActiveLater | Dona/Views/Lists/TaskListLaterView.swift:17-22 | A task is listed exactly when it is in Later and has no snooze date or one strictly after the current instant. |
| LaterView.SomedayTasks | Dona/Views/Lists/TaskListLaterView.swift:34-35 | "Someday" holds exactly the listed tasks without a snooze date, as a permutation, ascending by creation time. |
| LaterView.DayGroups | Dona/Views/Lists/TaskListLaterView.swift:41-55 | There is one non-empty group per snooze day, with days strictly ascending. A group holds exactly the listed dated tasks of its day. The sizes add up to the number of dated tasks. |
| LaterView.DaySections | Dona/Views/Lists/TaskListLaterView.swift:55-68 | Each day group becomes a labelled section holding a permutation of the group, sorted by snooze instant. No task is lost. |
| LaterView.LaterSections | Dona/Views/Lists/TaskListLaterView.swift:29-71 | "Someday" comes first and only when non-empty, followed by the day sections. No other section is a Someday section. |
| LaterView.DatedTaskInOneSection | Dona/Views/Lists/TaskListLaterView.swift:41-48 | A listed dated task is in exactly one day section: the one for its snooze day. |
| LaterView.DaySectionsAscend | Dona/Views/Lists/TaskListLaterView.swift:55 | Day sections come in strictly ascending day order. |
| LaterView.SectionsAddUp | Dona/Views/Lists/TaskListLaterView.swift:24-26 | The section sizes add up to the count in the title bar. |
| LaterView.LabelRelativeIff | Dona/Views/Lists/TaskListLaterView.swift:57-63 | A section gets a relative label exactly when its day is yesterday, today or tomorrow. |
| LaterView.NoSectionBeforeToday | Dona/Views/Lists/TaskListLaterView.swift:58-59 | No section is dated before today, so the "yesterday" test never fires. |
| LaterView.SweptLaterIsFuture | Dona/Views/Lists/TaskListLaterView.swift:17-22 | Right after a sweep, every listed dated task is snoozed to a day after today. |
| LaterView.LaterShowsTaskDueLaterToday | Dona/Views/Lists/TaskListLaterView.swift:20 | Without a sweep, a task snoozed to a later moment of today is listed although the sweep would promote it. |
| LaterView.DeleteInSection | Dona/Views/Lists/TaskListLaterView.swift:123-125 | Deleting at offsets of one section removes exactly those tasks and keeps every other task. |
| AllView.AllFilters | Dona/Views/Sheets/TaskListAllView.swift:15-20 | The picker offers all three filters, with distinct raw values. |
| AllView.FilteredTasks | Dona/Views/Sheets/TaskListAllView.swift:22-36 | A task is listed exactly when its title matches the search and its status passes the filter. The result is a subsequence of the store. |
| AllView.MatchesSearchIff | Dona/Views/Sheets/TaskListAllView.swift:25 | The search matches exactly when the query is empty or its lower-cased form occurs at some position of the lower-cased title. |
| AllView.EmptySearchShowsAll | Dona/Views/Sheets/TaskListAllView.swift:22-36 | An empty search with the All filter lists the whole store in its order. |
| AllView.DoneNotDonePartition | Dona/Views/Sheets/TaskListAllView.swift:27-33 | For a fixed search, Done and Not Done share out the All result. |
| AllView.FilteredKeepsOrder | Dona/Views/Sheets/TaskListAllView.swift:8 | The list keeps the query's newest-first order. |
| AllView.DeleteTasks | Dona/Views/Sheets/TaskListAllView.swift:92-97 | Deleting at offsets removes exactly the listed tasks there and keeps every other task. |
| Text.Lower | Dona/Views/Sheets/TaskListAllView.swift:25 | Lower-casing keeps the length and maps every character on its own. |
| Text.ContainsIffOccurs | Dona/Views/Sheets/TaskListAllView.swift:25 | The substring search succeeds exactly when the query occurs at some position. |
| TaskRow.Toggle | Dona/Views/TaskRowView.swift:9-12 | A done task goes to the Inbox and any other task becomes done. Nothing but the category changes. |
| TaskRow.ToggleFlipsDone | Dona/Views/TaskRowView.swift:11 | After a tap, the task is done exactly when it was not done before. |
| TaskRow.ToggleTwiceRestoresInboxAndDone | Dona/Views/TaskRowView.swift:11 | Two taps give back an Inbox or done task unchanged. |
| TaskRow.ToggleTwiceLandsInInbox | Dona/Views/TaskRowView.swift:11 | Two taps move a planned or Later task to the Inbox, with its dates kept. |
| TaskSheet.SnoozeDate | Dona/Views/Sheets/TaskSheet.swift:35-50 | "Tomorrow" is the base plus one day. "Next weekend" is the calendar's weekend start, or the base plus seven days when there is none. "Next month" is the midnight starting day 1 of the month after the base's month. |
| TaskSheet.TomorrowKeepsTimeOfDay | Dona/Views/Sheets/TaskSheet.swift:38-39 | "Tomorrow" falls on the next day at the base's time of day, not at midnight. |
| Gregorian.NextMonthStart | Dona/Views/Sheets/TaskSheet.swift:43-48 | The result is a midnight after the base. It lies in the month after the base's month, on day 1. No month starts between the base and it. |
| Gregorian.MonthOf | Dona/Views/Sheets/TaskSheet.swift:45 | The month read from a date contains that day. |
| Gregorian.MonthOfUnique | Dona/Views/Sheets/TaskSheet.swift:45 | A day lies in one month only. |
| Gregorian.NextFirstDay | Dona/Views/Sheets/TaskSheet.swift:46-48 | Each month starts exactly its length in days after the month before, December rolling over into January. |
| Gregorian.DayOfMonth | Dona/Views/Sheets/TaskSheet.swift:47 | The day of the month lies between 1 and 31. |
| TaskSheet.Initial | Dona/Views/Sheets/TaskSheet.swift:16-63 | Before it appears, a form has an empty title and notes, the default preset, a due date equal to the opening moment, and a custom snooze date one day later. Its snooze mode is relative "Tomorrow". |
| TaskSheet.PresetFor | Dona/Views/Sheets/TaskSheet.swift:229-237 | Inbox and done tasks reopen as Inbox and Later tasks as Later. A planned task reopens as Today exactly when it is dated today, and as Plan otherwise. |
| TaskSheet.PopulateIfEditing | Dona/Views/Sheets/TaskSheet.swift:211-227 | An edited task's title, notes, preset and due date are copied in. On the Later preset, a snooze date selects "Choose Date" with that date, and no snooze date selects "Someday". A new task leaves the form unchanged. |
| TaskSheet.ComputeSnoozedUntil | Dona/Views/Sheets/TaskSheet.swift:248-259 | A snooze date is saved exactly when the preset is Later and the mode is not Someday. It is the chosen date for Choose Date, and otherwise the relative date counted from the saving moment. |
| TaskSheet.MappingFromPreset | Dona/Views/Sheets/TaskSheet.swift:280-287 | Inbox maps to no date. Today maps to planned at the saving moment. Plan maps to planned at the form's date. Later maps to Later with no date. A placement has a due date exactly when it is planned, and no preset files a task as done. |
| TaskSheet.NotesValue | Dona/Views/Sheets/TaskSheet.swift:274 | Notes are stored as absent exactly when the text is empty. |
| TaskSheet.Update | Dona/Views/Sheets/TaskSheet.swift:271-278 | The edited task takes the form's text, placement and snooze date, and keeps its identity, creation time and counter. |
| TaskSheet.CreateTask | Dona/Views/Sheets/TaskSheet.swift:261-269 | The new task takes the form's text, placement and snooze date, and is created at the saving moment with the given starting counter. |
| TaskSheet.Save | Dona/Views/Sheets/TaskSheet.swift:239-245 | A blank title (the disabled button) changes nothing. Editing overwrites exactly the tasks with the edited identity. Creating appends one task with an unused identifier and the given starting counter. Identifiers stay distinct. |
| TaskSheet.PresetOfMapping | Dona/Views/Sheets/TaskSheet.swift:229-237 | Reopening a task placed by a preset gives that preset back exactly unless the preset was Plan with a date today. |
| TaskSheet.MappingOfPreset | Dona/Views/Sheets/TaskSheet.swift:280-287 | The preset a task reopens on maps back to its own category, except that done becomes Inbox. |
| TaskSheet.LaterEditKeepsSnooze | Dona/Views/Sheets/TaskSheet.swift:219-226 | Saving a Later task without edits gives it back unchanged, snooze date included. |
| TaskSheet.InboxEditUnchanged | Dona/Views/Sheets/TaskSheet.swift:271-278 | Saving an undated Inbox task without edits gives it back unchanged. |
| TaskSheet.PlannedEditKeepsOtherDay | Dona/Views/Sheets/TaskSheet.swift:234 | Saving a planned task dated on another day without edits keeps its date and drops any snooze date. |
| TaskSheet.PlannedTodayEditTakesNow | Dona/Views/Sheets/TaskSheet.swift:283 | Saving a planned task due today without edits moves its due date to the saving moment. |
| TaskSheet.PlannedUndatedEditTakesOpeningTime | Dona/Views/Sheets/TaskSheet.swift:284 | Saving an undated planned task without edits dates it at the moment the form opened. |
| TaskSheet.DoneEditReopens | Dona/Views/Sheets/TaskSheet.swift:235 | Saving a done task without edits moves it to the Inbox with no due date. |
| TaskSheet.CreatedSnoozedTaskBreaksSweep | Dona/Views/Sheets/TaskSheet.swift:261-269 | A task created into Later with a snooze date has no counter. Once its day comes, the store is no longer safe to sweep. |
| TaskSheet.DefaultSnoozeBreaksSweepTomorrow | Dona/Views/Sheets/TaskSheet.swift:54 | With the default "Tomorrow", that happens one day after creation. |
| ContentView.PresetForTabMatchesTitle | Dona/Views/ContentView.swift:203-210 | Each tab opens the form on the preset with its own name, and different tabs use different presets. |
| ContentView.DropOn | Dona/Views/ContentView.swift:158-176 | Inbox and Later clear the due date. Today plans the task for today's midnight. Plan plans it, keeping its date or defaulting to one day ahead. Nothing but category and due date changes. |
| ContentView.FindFirst | Dona/Views/ContentView.swift:181-185 | The lookup returns the first stored task with the identifier, or none when no task has it. |
| ContentView.HandleDrop | Dona/Views/ContentView.swift:154-178 | An empty drop, a failed fetch or an unknown task changes nothing. Otherwise exactly the found task is re-filed. The edit form opens exactly on a Plan drop, on the re-filed task. |
| Counters.SaveKeepsCounted | Dona/Views/Sheets/TaskSheet.swift:239-276 | With new tasks starting at zero, saving the form keeps every counter present and not negative. |
| Counters.SaveKeepsRoom | Dona/Views/Sheets/TaskSheet.swift:239-276 | With new tasks starting at zero, saving the form keeps every counter present and below `Int.max`. |
| Counters.DropKeepsCounted | Dona/Views/ContentView.swift:154-178 | Re-filing a dropped task keeps every counter present and not negative. |
| Counters.ToggleKeepsCounted | Dona/Views/TaskRowView.swift:11 | The done toggle leaves a counter present exactly when it was present. |
| Counters.SweepKeepsCounted | Dona/Batch/ModelContext+Unsnooze.swift:20-35 | A store whose counters are all present and below `Int.max` is safe to sweep, and the sweep keeps every counter present. |
| Counters.UncountedStoreNeverPromotes | Dona/Batch/ModelContext+Unsnooze.swift:20-35 | With no counter in the store, the sweep can run exactly when no task is due, and then changes nothing. |
| Counters.CreatedSnoozedTaskIsDue | Dona/Views/Sheets/TaskSheet.swift:247-269 | A task created into Later with a snooze date is appended with counter zero and is due once its snooze day comes. |
| Counters.ReturnsSnoozed | Dona/Batch/ModelContext+Unsnooze.swift:29-33 | A due task with counter zero comes back to the Inbox with counter one and is listed under "Snoozed". |
| Counters.CreatedSnoozedTaskReturns | Dona/Batch/ModelContext+Unsnooze.swift:29-33 | With new tasks starting at zero, a task created into Later with a snooze date is promoted once its day comes. It then has counter one and is listed under "Snoozed". |
| ContentView.DropKeepsIdentity | Dona/Views/ContentView.swift:158-176 | No drop touches identity, text, creation time, snooze date or counter. |
| ContentView.DropIdempotent | Dona/Views/ContentView.swift:158-176 | Dropping twice on the same tab at the same moment equals dropping once. |
| ContentView.DropOnLaterPlacement | Dona/Views/ContentView.swift:162-164 | A drop on Later sets no snooze date. A never-snoozed task becomes Someday. One with a passed snooze date is hidden from Later and due for the sweep. |
| ContentView.DropOnTodayShowsInToday | Dona/Views/ContentView.swift:165-167 | A task dropped on Today is listed in Today and reopens as Today. |
| ContentView.DropOnPlanPlacement | Dona/Views/ContentView.swift:168-172 | An undated task dropped on Plan is listed in Plan. A task due today keeps its date, so it stays in Today and out of Plan. |

## Behaviour as written

The model follows the code in each of these places, even where a reader
might expect otherwise:

- "Tomorrow" as a snooze choice is the base moment plus one day. It keeps the time of day and is not the start of tomorrow.
- The Today preset saves the raw saving moment as the due date. A drop on Today saves today's midnight instead.
- A drop on Later neither sets nor clears `snoozedUntil`, and a drop on Inbox does not clear it either.
- The sweep reports no count of promoted tasks.
- Saving a done task through the form moves it to the Inbox.
- Saving stores empty notes as absent, so `TaskSheet.NotesValue` never produces an empty note. The round-trip lemmas on editing require `t.notes != Some("")`, which excludes only stores that no modelled operation produces.
- Saving an undated planned task gives it the moment the form opened as due date.
- The Later list compares snooze instants, while the sweep compares days. Without a sweep, a task snoozed to a later moment of today stays listed in Later. The Later view does not run the sweep itself.
- The "yesterday" arm of the Later label test can never fire.
- The three Inbox properties read one store, swept when the sweep's fetch succeeds. `inboxTasks` runs the sweep on every read, but a second sweep at the same instant changes nothing (`Unsnooze.SweepIdempotent`).

## Left out

- Unsnooze.Sweep: the source traps when a due task has no counter (`countSnoozes!`) or its counter is `Int.max`. The model requires that neither happens (`SweepSafe`) instead of modelling the crash. Dona/Models/Task.swift does not declare `snoozedUntil` or `countSnoozes`, so their defaults are unknown. The model starts `snoozedUntil` absent and takes the counter's starting value as a parameter. No modelled operation other than the sweep writes the counter. With an absent start, the promotion path is unreachable: an uncounted store is safe to sweep only when nothing is due, and then the sweep changes nothing (`Counters.UncountedStoreNeverPromotes`, `TaskSheet.CreatedSnoozedTaskBreaksSweep`). With a start of zero, every operation keeps counters present and a snoozed task comes back (`Counters.CreatedSnoozedTaskReturns`).
- Presentation: SwiftUI layout, focus, hover, icons, colours (Dona/Utils/CategoryColors.swift, `tabIcon`, `iconName`, `filledSymbol`) and sheet presentation are not modelled. They decide nothing about where a task goes.
- Persistence: the store is an in-memory sequence. A failed fetch in the sweep and in `handleDrop` is a boolean parameter. `try? save()` failures are ignored, because the source ignores them too.
- Time: `Date` is whole seconds in one fixed time zone with 86 400-second days. Daylight-saving changes, leap seconds and sub-second precision are not modelled.
- `Calendar.nextWeekend(startingAfter:)` depends on locale weekend rules, so it is a function parameter.
- `RelativeDateTimeFormatter` and `DateFormatter` strings: a day section only records whether its label is relative or absolute.
- Text.Lower folds only A–Z. Locale-specific, diacritic and full Unicode case folding of `localizedCaseInsensitiveContains` are not modelled.
- `UUID()`: identifiers are natural numbers, and a new one is one past the largest in use.
- Swift's `sorted(by:)` does not fix the order of ties. `Seqs.SortBy` is one admissible arrangement, and the contracts state only sortedness and permutation.
- The query order is taken as given. Lemmas state that a list keeps an order whenever its input has it. Where the due-date query puts undated tasks is not modelled.
- Integer width: only the sweep's counter increment is bounded (`Unsnooze.IntMax`). Timestamps and the other arithmetic are unbounded.
- The `?? Date()` fallbacks in the Plan view are unreachable after the dated-only query. The model still keys an undated task by the day of `now` (`PlanView.DueDay`).
- The older duplicate views (Dona/Views/TaskSheet.swift, Dona/Views/TaskListInboxView.swift, Dona/Views/TaskListLaterView.swift, Dona/ContentView.swift) and the MinimalistTaskApp directory are not part of this model.
