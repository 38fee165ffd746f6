/**
 * The unsnooze sweep (`ModelContext.unsnoozeIfNeeded`,
 * Dona/Batch/ModelContext+Unsnooze.swift): every Later task whose snooze day
 * has arrived goes back to the Inbox, loses its snooze date and has its
 * snooze counter bumped.  Every other task is left as it was.
 */
module Unsnooze {
  import opened Wrappers
  import opened Clock
  import opened Tasks

  /** `Int.max` on the 64-bit targets the app runs on; `+= 1` traps beyond it. */
  const IntMax: int := 0x7FFF_FFFF_FFFF_FFFF

  /** A Later task with a snooze date whose day is today's day or earlier. */
  predicate IsDue(t: Task, now: Timestamp) {
    t.category == Later && t.snoozedUntil.Some?
    && StartOfDay(t.snoozedUntil.value) <= StartOfDay(now)
  }

  /** `task.countSnoozes! += 1` neither unwraps nil nor overflows. */
  predicate CanCount(t: Task) {
    t.countSnoozes.Some? && t.countSnoozes.value < IntMax
  }

  /** No task the sweep would promote makes it trap. */
  predicate SweepSafe(tasks: seq<Task>, now: Timestamp) {
    forall t :: t in tasks && IsDue(t, now) ==> CanCount(t)
  }

  /** The three assignments of the promotion branch. */
  function Promote(t: Task): Task
    requires CanCount(t)
  {
    t.(category := Inbox, snoozedUntil := None, countSnoozes := Some(t.countSnoozes.value + 1))
  }

  /** One iteration of the loop. */
  function SweepTask(t: Task, now: Timestamp): Task
    requires IsDue(t, now) ==> CanCount(t)
  {
    if IsDue(t, now) then Promote(t) else t
  }

  /** The loop over all fetched tasks, as a whole. */
  function Sweep(tasks: seq<Task>, now: Timestamp): (r: seq<Task>)
    requires SweepSafe(tasks, now)
    ensures |r| == |tasks|
    ensures forall i :: 0 <= i < |tasks| && IsDue(tasks[i], now) ==>
      && r[i].category == Inbox
      && r[i].snoozedUntil == None
      && r[i].countSnoozes == Some(tasks[i].countSnoozes.value + 1)
    ensures forall i :: 0 <= i < |tasks| && !IsDue(tasks[i], now) ==> r[i] == tasks[i]
    ensures forall i :: 0 <= i < |tasks| ==>
      && r[i].id == tasks[i].id
      && r[i].title == tasks[i].title
      && r[i].notes == tasks[i].notes
      && r[i].dueDate == tasks[i].dueDate
      && r[i].createdAt == tasks[i].createdAt
  {
    seq(|tasks|, i requires 0 <= i < |tasks| => SweepTask(tasks[i], now))
  }

  /**
   * `unsnoozeIfNeeded()`: when the fetch fails nothing changes; otherwise the
   * tasks are visited in order and each due one is promoted.
   */
  method UnsnoozeIfNeeded(store: seq<Task>, fetchSucceeds: bool, now: Timestamp)
    returns (updated: seq<Task>)
    requires fetchSucceeds ==> SweepSafe(store, now)
    ensures !fetchSucceeds ==> updated == store
    ensures fetchSucceeds ==> updated == Sweep(store, now)
  {
    if !fetchSucceeds {
      return store;
    }
    updated := [];
    var i := 0;
    while i < |store|
      invariant 0 <= i <= |store|
      invariant |updated| == i
      invariant forall k :: 0 <= k < i ==> updated[k] == SweepTask(store[k], now)
    {
      var task := store[i];
      assert task in store;
      if task.category == Later && task.snoozedUntil.Some? {
        var snoozeStart := StartOfDay(task.snoozedUntil.value);
        if snoozeStart <= StartOfDay(now) {
          task := task.(countSnoozes := Some(task.countSnoozes.value + 1));
          task := task.(category := Inbox);
          task := task.(snoozedUntil := None);
        }
      }
      updated := updated + [task];
      i := i + 1;
    }
  }

  // ---------------------------------------------------------------------------
  // Properties
  // ---------------------------------------------------------------------------

  /** A someday task (Later without a date) is never touched. */
  lemma SweepLeavesSomeday(tasks: seq<Task>, now: Timestamp, i: int)
    requires SweepSafe(tasks, now)
    requires 0 <= i < |tasks| && tasks[i].category == Later && tasks[i].snoozedUntil == None
    ensures Sweep(tasks, now)[i] == tasks[i]
  {
  }

  /** A task outside Later is never touched, whatever its snooze date says. */
  lemma SweepLeavesOtherCategories(tasks: seq<Task>, now: Timestamp, i: int)
    requires SweepSafe(tasks, now)
    requires 0 <= i < |tasks| && tasks[i].category != Later
    ensures Sweep(tasks, now)[i] == tasks[i]
  {
  }

  /** A Later task whose snooze day is after today stays snoozed. */
  lemma SweepLeavesFutureSnoozes(tasks: seq<Task>, now: Timestamp, i: int)
    requires SweepSafe(tasks, now)
    requires 0 <= i < |tasks| && tasks[i].snoozedUntil.Some?
    requires StartOfDay(now) < StartOfDay(tasks[i].snoozedUntil.value)
    ensures Sweep(tasks, now)[i] == tasks[i]
  {
  }

  /** The counter never goes down, and goes up by exactly one on each promotion. */
  lemma SweepCountsOnce(tasks: seq<Task>, now: Timestamp, i: int)
    requires SweepSafe(tasks, now)
    requires 0 <= i < |tasks|
    ensures var before, after := tasks[i].countSnoozes, Sweep(tasks, now)[i].countSnoozes;
      && (before.Some? ==> after.Some? && before.value <= after.value)
      && (IsDue(tasks[i], now) <==> after.Some? && before.Some? && after.value == before.value + 1)
  {
  }

  /** After a sweep nothing is left due at the same instant. */
  lemma {:induction false} SweepLeavesNothingDue(tasks: seq<Task>, now: Timestamp)
    requires SweepSafe(tasks, now)
    ensures forall t :: t in Sweep(tasks, now) ==> !IsDue(t, now)
  {
    var r := Sweep(tasks, now);
    forall t | t in r ensures !IsDue(t, now) {
      var i :| 0 <= i < |r| && r[i] == t;
      if IsDue(tasks[i], now) {
        assert r[i].category == Inbox;
      } else {
        assert r[i] == tasks[i];
      }
    }
  }

  /** Sweeping twice at the same instant changes nothing more. */
  lemma SweepIdempotent(tasks: seq<Task>, now: Timestamp)
    requires SweepSafe(tasks, now)
    ensures SweepSafe(Sweep(tasks, now), now)
    ensures Sweep(Sweep(tasks, now), now) == Sweep(tasks, now)
  {
    SweepLeavesNothingDue(tasks, now);
    var r := Sweep(tasks, now);
    assert forall i :: 0 <= i < |r| ==> !IsDue(r[i], now);
  }

  /** Creation time, and so the query's newest-first order, survives the sweep. */
  lemma SweepKeepsCreationOrder(tasks: seq<Task>, now: Timestamp)
    requires SweepSafe(tasks, now)
    requires forall i, j :: 0 <= i < j < |tasks| ==> tasks[i].createdAt >= tasks[j].createdAt
    ensures var r := Sweep(tasks, now);
      forall i, j :: 0 <= i < j < |r| ==> r[i].createdAt >= r[j].createdAt
  {
  }
}
