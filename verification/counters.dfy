/**
 * The snooze counter across operations.  The sweep
 * (Dona/Utils/ModelContext+Unsnooze.swift) unwraps `countSnoozes` of every
 * due Later task, so whether a store can ever be swept depends on the value
 * new tasks start with.  The model leaves that value open; these lemmas show
 * what each choice gives: with an absent counter the promotion path is never
 * taken, with zero every operation keeps the counters present and a snoozed
 * task comes back to the Inbox's "Snoozed" section.
 */
module Counters {
  import opened Wrappers
  import opened Clock
  import opened Tasks
  import opened Unsnooze
  import Presets
  import TaskSheet
  import TaskRow
  import ContentView
  import InboxView

  /** Every counter is present, not negative, and can still be incremented. */
  predicate RoomToCount(store: seq<Task>) {
    forall t :: t in store ==> Counted(t) && t.countSnoozes.value < IntMax
  }

  /** Saving the form, with new tasks starting at zero, keeps every counter present. */
  lemma SaveKeepsCounted(store: seq<Task>, s: TaskSheet.Sheet, now: Timestamp,
                         nextWeekend: TaskSheet.NextWeekendFn)
    requires AllCounted(store)
    ensures AllCounted(TaskSheet.Save(store, s, now, nextWeekend, Some(0)))
  {
    var r := TaskSheet.Save(store, s, now, nextWeekend, Some(0));
    if !TaskSheet.IsBlank(s.title) && s.editing.Some? {
      forall t | t in r ensures Counted(t) {
        var i :| 0 <= i < |r| && r[i] == t;
        assert store[i] in store;
      }
    } else if !TaskSheet.IsBlank(s.title) {
      forall t | t in r ensures Counted(t) {
        var i :| 0 <= i < |r| && r[i] == t;
        if i < |store| {
          assert r[i] == r[..|store|][i];
          assert store[i] in store;
        }
      }
    }
  }

  /** Re-filing a dropped task keeps every counter present. */
  lemma DropKeepsCounted(store: seq<Task>, dropped: seq<Task>, target: ContentView.TaskTab,
                         fetchSucceeds: bool, now: Timestamp)
    requires AllCounted(store)
    ensures AllCounted(ContentView.HandleDrop(store, dropped, target, fetchSucceeds, now).store)
  {
    var r := ContentView.HandleDrop(store, dropped, target, fetchSucceeds, now).store;
    forall t | t in r ensures Counted(t) {
      var i :| 0 <= i < |r| && r[i] == t;
      assert store[i] in store;
    }
  }

  /** The done toggle neither adds nor drops a counter. */
  lemma ToggleKeepsCounted(t: Task)
    ensures Counted(TaskRow.Toggle(t)) <==> Counted(t)
  {
  }

  /**
   * A store whose counters all have room is safe to sweep, and the sweep
   * leaves every counter present.
   */
  lemma SweepKeepsCounted(store: seq<Task>, now: Timestamp)
    requires RoomToCount(store)
    ensures SweepSafe(store, now)
    ensures AllCounted(Sweep(store, now))
  {
    var r := Sweep(store, now);
    forall t | t in r ensures Counted(t) {
      var i :| 0 <= i < |r| && r[i] == t;
      assert store[i] in store;
    }
  }

  /**
   * With no counter anywhere, the sweep can run exactly when no task is due,
   * and then it changes nothing: the promotion path is unreachable.
   */
  lemma UncountedStoreNeverPromotes(store: seq<Task>, now: Timestamp)
    requires forall t :: t in store ==> t.countSnoozes == None
    ensures SweepSafe(store, now) <==> forall t :: t in store ==> !IsDue(t, now)
    ensures SweepSafe(store, now) ==> Sweep(store, now) == store
  {
    if SweepSafe(store, now) {
      var r := Sweep(store, now);
      forall i | 0 <= i < |store| ensures r[i] == store[i] {
        assert store[i] in store;
      }
    }
  }

  /** Saving the form, with new tasks starting at zero, keeps room in every counter. */
  lemma SaveKeepsRoom(store: seq<Task>, s: TaskSheet.Sheet, now: Timestamp,
                      nextWeekend: TaskSheet.NextWeekendFn)
    requires RoomToCount(store)
    ensures RoomToCount(TaskSheet.Save(store, s, now, nextWeekend, Some(0)))
  {
    var r := TaskSheet.Save(store, s, now, nextWeekend, Some(0));
    if !TaskSheet.IsBlank(s.title) && s.editing.Some? {
      forall t | t in r ensures Counted(t) && t.countSnoozes.value < IntMax {
        var i :| 0 <= i < |r| && r[i] == t;
        assert store[i] in store;
      }
    } else if !TaskSheet.IsBlank(s.title) {
      forall t | t in r ensures Counted(t) && t.countSnoozes.value < IntMax {
        var i :| 0 <= i < |r| && r[i] == t;
        if i < |store| {
          assert r[i] == r[..|store|][i];
          assert store[i] in store;
        }
      }
    }
  }

  /** The task the form creates into Later with a snooze date is due once its day comes. */
  lemma CreatedSnoozedTaskIsDue(store: seq<Task>, s: TaskSheet.Sheet, now: Timestamp,
                                nextWeekend: TaskSheet.NextWeekendFn, later: Timestamp)
    requires !TaskSheet.IsBlank(s.title) && s.editing == None
    requires s.preset == Presets.Later && s.snoozeMode != TaskSheet.Someday
    requires var d := TaskSheet.ComputeSnoozedUntil(s, now, nextWeekend).value;
      StartOfDay(d) <= StartOfDay(later)
    ensures var r := TaskSheet.Save(store, s, now, nextWeekend, Some(0));
      |r| == |store| + 1 && IsDue(r[|store|], later) && r[|store|].countSnoozes == Some(0)
  {
  }

  /**
   * With counters starting at zero, a task created into Later with a snooze
   * date is, once its day comes, promoted by the sweep with counter one and
   * listed in the Inbox's "Snoozed" section.
   */
  lemma CreatedSnoozedTaskReturns(store: seq<Task>, s: TaskSheet.Sheet, now: Timestamp,
                                  nextWeekend: TaskSheet.NextWeekendFn, later: Timestamp)
    requires RoomToCount(store)
    requires !TaskSheet.IsBlank(s.title) && s.editing == None
    requires s.preset == Presets.Later && s.snoozeMode != TaskSheet.Someday
    requires var d := TaskSheet.ComputeSnoozedUntil(s, now, nextWeekend).value;
      StartOfDay(d) <= StartOfDay(later)
    ensures var r := TaskSheet.Save(store, s, now, nextWeekend, Some(0));
      && SweepSafe(r, later)
      && Sweep(r, later)[|store|].category == Inbox
      && Sweep(r, later)[|store|].countSnoozes == Some(1)
      && Sweep(r, later)[|store|] in InboxView.Lists(r, true, later).snoozed
  {
    var r := TaskSheet.Save(store, s, now, nextWeekend, Some(0));
    SaveKeepsRoom(store, s, now, nextWeekend);
    CreatedSnoozedTaskIsDue(store, s, now, nextWeekend, later);
    ReturnsSnoozed(r, later, |store|);
  }

  /** A due task with counter zero, in a store with room, comes back as "Snoozed" with counter one. */
  lemma ReturnsSnoozed(r: seq<Task>, later: Timestamp, i: int)
    requires RoomToCount(r)
    requires 0 <= i < |r| && IsDue(r[i], later) && r[i].countSnoozes == Some(0)
    ensures SweepSafe(r, later)
    ensures Sweep(r, later)[i].category == Inbox && Sweep(r, later)[i].countSnoozes == Some(1)
    ensures Sweep(r, later)[i] in InboxView.Lists(r, true, later).snoozed
  {
    SweepKeepsCounted(r, later);
    InboxView.DueTaskReturnsToInbox(r, later, i);
  }
}
