/**
 * The tab bar (Dona/Views/ContentView.swift): four tabs, each a drop target
 * that re-files a dragged task, and the preset the Add button opens the form
 * with.
 */
module ContentView {
  import opened Wrappers
  import opened Clock
  import Tasks
  import Presets
  import TaskSheet
  import TodayView
  import PlanView
  import LaterView
  import Unsnooze

  /** `TaskTab`. */
  datatype TaskTab = Inbox | Today | Plan | Later

  /** `title(for:)`. */
  function TabTitle(tab: TaskTab): string {
    match tab
    case Inbox => "Inbox"
    case Today => "Today"
    case Plan => "Plan"
    case Later => "Later"
  }

  /** `presetForCurrentTab`. */
  function PresetForTab(tab: TaskTab): Presets.Preset {
    match tab
    case Inbox => Presets.Inbox
    case Today => Presets.Today
    case Plan => Presets.Plan
    case Later => Presets.Later
  }

  /** Each tab opens the form on the preset with the same name, and different tabs on different presets. */
  lemma PresetForTabMatchesTitle(tab: TaskTab, other: TaskTab)
    ensures Presets.RawValue(PresetForTab(tab)) == TabTitle(tab)
    ensures PresetForTab(tab) == PresetForTab(other) <==> tab == other
  {
  }

  // ---------------------------------------------------------------------------
  // Drag and drop
  // ---------------------------------------------------------------------------

  /** The `switch target` of `handleDrop`, applied to the stored task. */
  function DropOn(t: Tasks.Task, target: TaskTab, now: Timestamp): (r: Tasks.Task)
    ensures target == Inbox ==> r.category == Tasks.Inbox && r.dueDate == None
    ensures target == Later ==> r.category == Tasks.Later && r.dueDate == None
    ensures target == Today ==> r.category == Tasks.Planned && r.dueDate == Some(StartOfDay(now))
    ensures target == Plan ==>
      r.category == Tasks.Planned && r.dueDate == (if t.dueDate.Some? then t.dueDate else Some(now + Day))
    ensures r.(category := t.category, dueDate := t.dueDate) == t
  {
    match target
    case Inbox => t.(category := Tasks.Inbox, dueDate := None)
    case Later => t.(category := Tasks.Later, dueDate := None)
    case Today => t.(category := Tasks.Planned, dueDate := Some(StartOfDay(now)))
    case Plan =>
      t.(category := Tasks.Planned, dueDate := if t.dueDate == None then Some(AddDays(now, 1)) else t.dueDate)
  }

  /** The first stored task with identifier `id` (`fetchLimit = 1`). */
  function FindFirst(store: seq<Tasks.Task>, id: Tasks.TaskId): (r: Option<nat>)
    ensures r.Some? ==>
      r.value < |store| && store[r.value].id == id && forall j :: 0 <= j < r.value ==> store[j].id != id
    ensures r == None ==> forall t :: t in store ==> t.id != id
  {
    if store == [] then None
    else if store[0].id == id then Some(0)
    else match FindFirst(store[1..], id)
      case None => None
      case Some(k) => Some(k + 1)
  }

  /** The store after a drop, and the task the edit form is opened on, if any. */
  datatype DropOutcome = DropOutcome(store: seq<Tasks.Task>, editing: Option<Tasks.Task>)

  /**
   * `handleDrop(tasks:to:)`: only the first dropped task counts; it is looked
   * up in the store by identifier and re-filed.  A drop on Plan then opens the
   * edit form on the re-filed task.
   */
  function HandleDrop(store: seq<Tasks.Task>, dropped: seq<Tasks.Task>, target: TaskTab,
                      fetchSucceeds: bool, now: Timestamp): (r: DropOutcome)
    ensures |r.store| == |store|
    ensures dropped == [] || !fetchSucceeds || (forall t :: t in store ==> t.id != dropped[0].id)
      ==> r == DropOutcome(store, None)
    ensures dropped != [] && fetchSucceeds ==>
      forall i :: 0 <= i < |store| ==>
        r.store[i] == (if Some(i) == FindFirst(store, dropped[0].id) then DropOn(store[i], target, now) else store[i])
    ensures r.editing.Some? <==>
      target == Plan && dropped != [] && fetchSucceeds && FindFirst(store, dropped[0].id).Some?
    ensures r.editing.Some? ==> r.editing.value == r.store[FindFirst(store, dropped[0].id).value]
  {
    if dropped == [] || !fetchSucceeds then DropOutcome(store, None)
    else match FindFirst(store, dropped[0].id)
      case None => DropOutcome(store, None)
      case Some(i) =>
        var updated := DropOn(store[i], target, now);
        var r := store[i := updated];
        DropOutcome(r, if target == Plan then Some(updated) else None)
  }

  // ---------------------------------------------------------------------------
  // Properties
  // ---------------------------------------------------------------------------

  /** No drop touches identity, text, creation time, snooze date or snooze counter. */
  lemma DropKeepsIdentity(t: Tasks.Task, target: TaskTab, now: Timestamp)
    ensures var r := DropOn(t, target, now);
      && r.id == t.id && r.title == t.title && r.notes == t.notes && r.createdAt == t.createdAt
      && r.countSnoozes == t.countSnoozes && r.snoozedUntil == t.snoozedUntil
  {
  }

  /** Dropping twice on the same tab at the same moment is the same as dropping once. */
  lemma DropIdempotent(t: Tasks.Task, target: TaskTab, now: Timestamp)
    ensures DropOn(DropOn(t, target, now), target, now) == DropOn(t, target, now)
  {
  }

  /**
   * A drop on Later assigns no snooze date.  A task never snoozed becomes a
   * Someday task.  A task that kept a snooze date already passed (one dragged
   * out of Later before its day) is hidden from the Later list and due for
   * the sweep, which sends it straight back to the Inbox.
   */
  lemma DropOnLaterPlacement(store: seq<Tasks.Task>, dropped: seq<Tasks.Task>, now: Timestamp, i: nat)
    requires dropped != [] && FindFirst(store, dropped[0].id) == Some(i)
    ensures var r := HandleDrop(store, dropped, Later, true, now).store;
      && r[i].category == Tasks.Later && r[i].snoozedUntil == store[i].snoozedUntil
      && (store[i].snoozedUntil == None ==> r[i] in LaterView.SomedayTasks(r, now))
      && (store[i].snoozedUntil.Some? && store[i].snoozedUntil.value <= now ==>
            r[i] !in LaterView.ActiveLater(r, now) && Unsnooze.IsDue(r[i], now))
  {
    var r := HandleDrop(store, dropped, Later, true, now).store;
    assert r[i] in r;
    if store[i].snoozedUntil.Some? && store[i].snoozedUntil.value <= now {
      StartOfDayMonotone(store[i].snoozedUntil.value, now);
    }
  }

  /** A task dropped on Today is listed in Today and the form reopens it as Today. */
  lemma DropOnTodayShowsInToday(store: seq<Tasks.Task>, dropped: seq<Tasks.Task>, now: Timestamp, i: nat)
    requires dropped != [] && FindFirst(store, dropped[0].id) == Some(i)
    ensures var r := HandleDrop(store, dropped, Today, true, now).store;
      && r[i] in TodayView.TodayTasks(r, now)
      && TaskSheet.PresetFor(r[i], now) == Presets.Today
  {
    var r := HandleDrop(store, dropped, Today, true, now).store;
    assert r[i] in r;
  }

  /**
   * A task dropped on Plan without a date is listed in Plan; one that already
   * had a date keeps it, so a task due today stays in Today.
   */
  lemma DropOnPlanPlacement(store: seq<Tasks.Task>, dropped: seq<Tasks.Task>, now: Timestamp, i: nat)
    requires dropped != [] && FindFirst(store, dropped[0].id) == Some(i)
    ensures var r := HandleDrop(store, dropped, Plan, true, now).store;
      && (store[i].dueDate == None ==> r[i] in PlanView.FuturePlanned(r, now))
      && (store[i].dueDate.Some? && SameDay(store[i].dueDate.value, now) ==>
            r[i] in TodayView.TodayTasks(r, now) && r[i] !in PlanView.FuturePlanned(r, now))
  {
    var r := HandleDrop(store, dropped, Plan, true, now).store;
    assert r[i] in r;
    StartOfDayShift(now, 1);
    if store[i].dueDate.Some? && SameDay(store[i].dueDate.value, now) {
      PlanView.TodayAndPlanDisjoint(r, now, r[i]);
    }
  }
}
