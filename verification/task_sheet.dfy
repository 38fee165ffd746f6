/**
 * The create / edit form (Dona/Views/Sheets/TaskSheet.swift).  The form's
 * state is a record; opening the form builds it, saving turns it into a new
 * or updated task.  The clock is passed in: `openedAt` is the moment the form
 * was built, `now` the moment Save was tapped.
 */
module TaskSheet {
  import opened Wrappers
  import opened Clock
  import opened Tasks
  import Presets
  import Gregorian
  import Unsnooze

  datatype SnoozeMode = Relative | ChooseDate | Someday

  datatype RelativeSnooze = Tomorrow | NextWeekend | NextMonth

  /** `RelativeSnooze.label`. */
  function RelativeLabel(c: RelativeSnooze): string {
    match c
    case Tomorrow => "Tomorrow"
    case NextWeekend => "Next Weekend"
    case NextMonth => "Next Month"
  }

  /**
   * `Calendar.nextWeekend(startingAfter:)?.start`: the calendar's weekend
   * rules are not modelled, so the caller supplies them.
   */
  type NextWeekendFn = Timestamp -> Option<Timestamp>

  /** `RelativeSnooze.date(from:)`. */
  function SnoozeDate(choice: RelativeSnooze, base: Timestamp, nextWeekend: NextWeekendFn): (r: Timestamp)
    ensures choice == Tomorrow ==> r == base + Day
    ensures choice == NextWeekend && nextWeekend(base).Some? ==> r == nextWeekend(base).value
    ensures choice == NextWeekend && nextWeekend(base) == None ==> r == base + 7 * Day
    ensures choice == NextMonth ==>
      && r % Day == 0 && base < r
      && Gregorian.DayOfMonth(r / Day) == 1
      && Gregorian.MonthOf(r / Day) == Gregorian.Next(Gregorian.MonthOf(base / Day))
      && (forall ym :: Gregorian.Valid(ym) && base < Gregorian.FirstDay(ym) * Day ==> r <= Gregorian.FirstDay(ym) * Day)
  {
    match choice
    case Tomorrow => AddDays(base, 1)
    case NextWeekend =>
      (match nextWeekend(base)
       case Some(start) => start
       case None => AddDays(base, 7))
    case NextMonth => Gregorian.NextMonthStart(base)
  }

  /** "Tomorrow" keeps the time of day: it is not the start of tomorrow. */
  lemma TomorrowKeepsTimeOfDay(base: Timestamp, nextWeekend: NextWeekendFn)
    ensures var r := SnoozeDate(Tomorrow, base, nextWeekend);
      && StartOfDay(r) == StartOfDay(base) + Day
      && r - StartOfDay(r) == base - StartOfDay(base)
  {
    StartOfDayShift(base, 1);
  }

  // ---------------------------------------------------------------------------
  // Form state
  // ---------------------------------------------------------------------------

  /**
   * The form's `@State`.  `snoozedUntil` is left out: it is only ever written
   * by `computeSnoozedUntil` right before it is read, so it is the value
   * `ComputeSnoozedUntil` returns.
   */
  datatype Sheet = Sheet(
    editing: Option<Task>,
    title: string,
    notes: string,
    preset: Presets.Preset,
    dueDate: Timestamp,
    snoozeMode: SnoozeMode,
    relativeChoice: RelativeSnooze,
    customDate: Timestamp)

  /** `init(task:defaultPreset:)` with the property initializers, before `onAppear`. */
  function Initial(task: Option<Task>, defaultPreset: Presets.Preset, openedAt: Timestamp): (s: Sheet)
    ensures s.editing == task && s.preset == defaultPreset
    ensures s.title == "" && s.notes == ""
    ensures s.dueDate == openedAt && s.customDate == openedAt + Day
    ensures s.snoozeMode == Relative && s.relativeChoice == Tomorrow
  {
    Sheet(task, "", "", defaultPreset, openedAt, Relative, Tomorrow, AddDays(openedAt, 1))
  }

  /** `preset(for:)`: the preset the form opens on for an existing task. */
  function PresetFor(t: Task, now: Timestamp): (p: Presets.Preset)
    ensures t.category == Inbox || t.category == Done ==> p == Presets.Inbox
    ensures t.category == Later ==> p == Presets.Later
    ensures t.category == Planned ==>
      (p == Presets.Today <==> t.dueDate.Some? && SameDay(t.dueDate.value, now))
    ensures t.category == Planned ==> p == Presets.Today || p == Presets.Plan
  {
    match t.category
    case Inbox => Presets.Inbox
    case Later => Presets.Later
    case Planned =>
      if t.dueDate.Some? && SameDay(t.dueDate.value, now) then Presets.Today else Presets.Plan
    case Done => Presets.Inbox
  }

  /** `populateIfEditing()`: copy an edited task into the form. */
  function PopulateIfEditing(s: Sheet, now: Timestamp): (r: Sheet)
    ensures s.editing == None ==> r == s
    ensures s.editing.Some? ==>
      var t := s.editing.value;
      && r.editing == s.editing && r.relativeChoice == s.relativeChoice
      && r.title == t.title
      && r.notes == (if t.notes.Some? then t.notes.value else "")
      && r.preset == PresetFor(t, now)
      && r.dueDate == (if t.dueDate.Some? then t.dueDate.value else s.dueDate)
      && (r.preset == Presets.Later && t.snoozedUntil.Some? ==>
            r.snoozeMode == ChooseDate && r.customDate == t.snoozedUntil.value)
      && (r.preset == Presets.Later && t.snoozedUntil == None ==>
            r.snoozeMode == Someday && r.customDate == s.customDate)
      && (r.preset != Presets.Later ==> r.snoozeMode == s.snoozeMode && r.customDate == s.customDate)
  {
    match s.editing
    case None => s
    case Some(t) =>
      var p := PresetFor(t, now);
      var filled := s.(title := t.title, notes := t.notes.GetOr(""), preset := p,
                       dueDate := t.dueDate.GetOr(s.dueDate));
      if p != Presets.Later then filled
      else if t.snoozedUntil.Some? then filled.(snoozeMode := ChooseDate, customDate := t.snoozedUntil.value)
      else filled.(snoozeMode := Someday)
  }

  /** The form as it appears: built, then filled in by `onAppear`. */
  function Open(task: Option<Task>, defaultPreset: Presets.Preset, openedAt: Timestamp): Sheet {
    PopulateIfEditing(Initial(task, defaultPreset, openedAt), openedAt)
  }

  // ---------------------------------------------------------------------------
  // Saving
  // ---------------------------------------------------------------------------

  /** `computeSnoozedUntil()`: the snooze date the saved task gets. */
  function ComputeSnoozedUntil(s: Sheet, now: Timestamp, nextWeekend: NextWeekendFn): (r: Option<Timestamp>)
    ensures s.preset != Presets.Later ==> r == None
    ensures s.preset == Presets.Later && s.snoozeMode == Someday ==> r == None
    ensures s.preset == Presets.Later && s.snoozeMode == ChooseDate ==> r == Some(s.customDate)
    ensures s.preset == Presets.Later && s.snoozeMode == Relative ==>
      r == Some(SnoozeDate(s.relativeChoice, now, nextWeekend))
    ensures r.Some? <==> s.preset == Presets.Later && s.snoozeMode != Someday
  {
    if s.preset != Presets.Later then None
    else match s.snoozeMode
      case Someday => None
      case ChooseDate => Some(s.customDate)
      case Relative => Some(SnoozeDate(s.relativeChoice, now, nextWeekend))
  }

  datatype Placement = Placement(category: Category, dueDate: Option<Timestamp>)

  /** `mappingFromPreset()`: the category and due date a preset stands for. */
  function MappingFromPreset(s: Sheet, now: Timestamp): (m: Placement)
    ensures s.preset == Presets.Inbox ==> m == Placement(Inbox, None)
    ensures s.preset == Presets.Today ==> m == Placement(Planned, Some(now))
    ensures s.preset == Presets.Plan ==> m == Placement(Planned, Some(s.dueDate))
    ensures s.preset == Presets.Later ==> m == Placement(Later, None)
    ensures m.dueDate.Some? <==> m.category == Planned
    ensures m.category != Done
  {
    match s.preset
    case Inbox => Placement(Inbox, None)
    case Today => Placement(Planned, Some(now))
    case Plan => Placement(Planned, Some(s.dueDate))
    case Later => Placement(Later, None)
  }

  /** `notes.isEmpty ? nil : notes`. */
  function NotesValue(notes: string): (r: Option<string>)
    ensures r == None <==> notes == ""
    ensures r.Some? ==> r.value == notes
  {
    if notes == "" then None else Some(notes)
  }

  /** `update(_:)`: overwrite the edited task with the form. */
  function Update(t: Task, s: Sheet, snoozedUntil: Option<Timestamp>, now: Timestamp): (r: Task)
    ensures var m := MappingFromPreset(s, now);
      && r.title == s.title && r.notes == NotesValue(s.notes)
      && r.category == m.category && r.dueDate == m.dueDate && r.snoozedUntil == snoozedUntil
    ensures r.id == t.id && r.createdAt == t.createdAt && r.countSnoozes == t.countSnoozes
  {
    var m := MappingFromPreset(s, now);
    t.(title := s.title, notes := NotesValue(s.notes), category := m.category,
       dueDate := m.dueDate, snoozedUntil := snoozedUntil)
  }

  /** `createTask()`: a new task from the form, with its snooze date set after creation. */
  function CreateTask(s: Sheet, snoozedUntil: Option<Timestamp>, id: TaskId, now: Timestamp,
                      initialCount: Option<int>): (r: Task)
    ensures var m := MappingFromPreset(s, now);
      && r.id == id && r.title == s.title && r.notes == NotesValue(s.notes)
      && r.category == m.category && r.dueDate == m.dueDate && r.createdAt == now
    ensures r.snoozedUntil == snoozedUntil
    ensures r.countSnoozes == initialCount
  {
    var m := MappingFromPreset(s, now);
    NewTask(id, s.title, NotesValue(s.notes), m.category, m.dueDate, now, initialCount).(snoozedUntil := snoozedUntil)
  }

  /** A member of `.whitespacesAndNewlines`. */
  predicate IsWhitespace(c: char) {
    c == ' ' || ('\t' <= c <= '\r') || c == '\U{0085}' || c == '\U{00A0}' || c == '\U{1680}'
    || ('\U{2000}' <= c <= '\U{200A}') || c == '\U{2028}' || c == '\U{2029}'
    || c == '\U{202F}' || c == '\U{205F}' || c == '\U{3000}'
  }

  /** The title trims to nothing, which disables Create / Save. */
  predicate IsBlank(title: string) {
    forall i :: 0 <= i < |title| ==> IsWhitespace(title[i])
  }

  /**
   * `save()` on the store: nothing happens while the button is disabled;
   * otherwise the edited task is overwritten, or a new task with an unused
   * identifier is appended.
   */
  function Save(store: seq<Task>, s: Sheet, now: Timestamp, nextWeekend: NextWeekendFn,
                initialCount: Option<int>): (r: seq<Task>)
    ensures IsBlank(s.title) ==> r == store
    ensures !IsBlank(s.title) && s.editing.Some? ==>
      && |r| == |store|
      && (forall i :: 0 <= i < |store| && store[i].id != s.editing.value.id ==> r[i] == store[i])
      && (forall i :: 0 <= i < |store| && store[i].id == s.editing.value.id ==>
            r[i] == Update(store[i], s, ComputeSnoozedUntil(s, now, nextWeekend), now))
    ensures !IsBlank(s.title) && s.editing == None ==>
      && |r| == |store| + 1 && r[..|store|] == store
      && IsFresh(r[|store|].id, store)
      && r[|store|] == CreateTask(s, ComputeSnoozedUntil(s, now, nextWeekend), r[|store|].id, now, initialCount)
    ensures UniqueIds(store) ==> UniqueIds(r)
  {
    if IsBlank(s.title) then store
    else
      var snoozedUntil := ComputeSnoozedUntil(s, now, nextWeekend);
      match s.editing
      case Some(t) =>
        var r := seq(|store|, i requires 0 <= i < |store| =>
          if store[i].id == t.id then Update(store[i], s, snoozedUntil, now) else store[i]);
        assert forall i :: 0 <= i < |store| ==> r[i].id == store[i].id;
        r
      case None =>
        var created := CreateTask(s, snoozedUntil, FreshId(store), now, initialCount);
        assert UniqueIds(store) ==> UniqueIds(store + [created]) by {
          if UniqueIds(store) {
            InsertFreshKeepsUnique(store, created);
          }
        }
        store + [created]
  }

  // ---------------------------------------------------------------------------
  // Properties
  // ---------------------------------------------------------------------------

  /**
   * Reading back the placement a preset stands for gives that preset, except
   * for Plan with a date today, which the form reopens as Today.
   */
  lemma PresetOfMapping(t: Task, s: Sheet, now: Timestamp)
    ensures var m := MappingFromPreset(s, now);
      PresetFor(t.(category := m.category, dueDate := m.dueDate), now) == s.preset
      <==> !(s.preset == Presets.Plan && SameDay(s.dueDate, now))
  {
  }

  /** The placement of the preset a task opens on: the task's category, a done task going to the Inbox. */
  lemma MappingOfPreset(t: Task, openedAt: Timestamp, now: Timestamp)
    ensures var s := Open(Some(t), Presets.Inbox, openedAt);
      MappingFromPreset(s, now).category == (if t.category == Done then Inbox else t.category)
  {
  }

  /** Opening an existing task and saving it without edits at `now`. */
  function SaveUnchanged(t: Task, openedAt: Timestamp, now: Timestamp, nextWeekend: NextWeekendFn): Task {
    var s := Open(Some(t), Presets.Inbox, openedAt);
    Update(t, s, ComputeSnoozedUntil(s, now, nextWeekend), now)
  }

  /**
   * A Later task survives an edit without changes: a snooze date reloads as
   * "Choose Date" and is saved back, a missing one reloads as "Someday" and
   * stays missing.
   */
  lemma LaterEditKeepsSnooze(t: Task, openedAt: Timestamp, now: Timestamp, nextWeekend: NextWeekendFn)
    requires t.category == Later && t.dueDate == None && t.notes != Some("")
    ensures var s := Open(Some(t), Presets.Inbox, openedAt);
      && (t.snoozedUntil.Some? ==> s.snoozeMode == ChooseDate)
      && (t.snoozedUntil == None ==> s.snoozeMode == Someday)
    ensures SaveUnchanged(t, openedAt, now, nextWeekend) == t
  {
  }

  /** An Inbox task without dates survives an edit without changes. */
  lemma InboxEditUnchanged(t: Task, openedAt: Timestamp, now: Timestamp, nextWeekend: NextWeekendFn)
    requires t.category == Inbox && t.dueDate == None && t.snoozedUntil == None && t.notes != Some("")
    ensures SaveUnchanged(t, openedAt, now, nextWeekend) == t
  {
  }

  /** A planned task dated on another day keeps its date; any snooze date is dropped. */
  lemma PlannedEditKeepsOtherDay(t: Task, openedAt: Timestamp, now: Timestamp, nextWeekend: NextWeekendFn)
    requires t.category == Planned && t.dueDate.Some? && !SameDay(t.dueDate.value, openedAt)
    requires t.notes != Some("")
    ensures SaveUnchanged(t, openedAt, now, nextWeekend) == t.(snoozedUntil := None)
  {
  }

  /**
   * A planned task dated today reopens as Today, and Today saves the raw
   * moment of saving: the date moves to `now`, not to the start of the day.
   */
  lemma PlannedTodayEditTakesNow(t: Task, openedAt: Timestamp, now: Timestamp, nextWeekend: NextWeekendFn)
    requires t.category == Planned && t.dueDate.Some? && SameDay(t.dueDate.value, openedAt)
    ensures SaveUnchanged(t, openedAt, now, nextWeekend).dueDate == Some(now)
    ensures SaveUnchanged(t, openedAt, now, nextWeekend).category == Planned
  {
  }

  /** A planned task without a date reopens as Plan and is saved due at the moment the form opened. */
  lemma PlannedUndatedEditTakesOpeningTime(t: Task, openedAt: Timestamp, now: Timestamp, nextWeekend: NextWeekendFn)
    requires t.category == Planned && t.dueDate == None
    ensures SaveUnchanged(t, openedAt, now, nextWeekend).dueDate == Some(openedAt)
  {
  }

  /** Editing a done task and saving it, even without changes, reopens it in the Inbox. */
  lemma DoneEditReopens(t: Task, openedAt: Timestamp, now: Timestamp, nextWeekend: NextWeekendFn)
    requires t.category == Done
    ensures SaveUnchanged(t, openedAt, now, nextWeekend).category == Inbox
    ensures SaveUnchanged(t, openedAt, now, nextWeekend).dueDate == None
  {
  }

  /**
   * If the counter starts absent, a task created through the form into Later
   * with a snooze date has no counter, so once its day comes the sweep would
   * unwrap an absent counter: the store stops being safe to sweep.
   */
  lemma CreatedSnoozedTaskBreaksSweep(store: seq<Task>, s: Sheet, now: Timestamp,
                                      nextWeekend: NextWeekendFn, later: Timestamp)
    requires !IsBlank(s.title) && s.editing == None
    requires s.preset == Presets.Later && s.snoozeMode != Someday
    requires var d := ComputeSnoozedUntil(s, now, nextWeekend).value;
      StartOfDay(d) <= StartOfDay(later)
    ensures !Unsnooze.SweepSafe(Save(store, s, now, nextWeekend, None), later)
  {
    var r := Save(store, s, now, nextWeekend, None);
    assert r[|store|] in r;
  }

  /** With the default "Tomorrow", the new Later task is due by the sweep one day after it was created. */
  lemma DefaultSnoozeBreaksSweepTomorrow(store: seq<Task>, s: Sheet, now: Timestamp, nextWeekend: NextWeekendFn)
    requires !IsBlank(s.title) && s.editing == None
    requires s.preset == Presets.Later && s.snoozeMode == Relative && s.relativeChoice == Tomorrow
    ensures !Unsnooze.SweepSafe(Save(store, s, now, nextWeekend, None), AddDays(now, 1))
  {
    CreatedSnoozedTaskBreaksSweep(store, s, now, nextWeekend, AddDays(now, 1));
  }
}
