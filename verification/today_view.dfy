/**
 * The Today list (Dona/Views/TaskListTodayView.swift): planned tasks whose
 * due date falls on the current day, in the query's due-date order.
 */
module TodayView {
  import opened Wrappers
  import opened Clock
  import opened Tasks
  import opened Seqs
  import opened Store

  /** The guard of `todayTasks`: planned, dated, and dated today. */
  predicate IsToday(t: Task, now: Timestamp) {
    t.category == Planned && t.dueDate.Some? && SameDay(t.dueDate.value, now)
  }

  /** `todayTasks`. */
  function TodayTasks(allTasks: seq<Task>, now: Timestamp): (r: seq<Task>)
    ensures forall t :: t in r <==>
      t in allTasks && t.category == Planned && t.dueDate.Some?
      && StartOfDay(now) <= t.dueDate.value < StartOfDay(now) + Day
    ensures IsSubseq(r, allTasks)
  {
    Filter(allTasks, t => IsToday(t, now))
  }

  /** A planned task without a due date never shows in Today. */
  lemma UndatedNotToday(allTasks: seq<Task>, now: Timestamp, t: Task)
    requires t.dueDate == None
    ensures t !in TodayTasks(allTasks, now)
  {
  }

  /** Only planned tasks show in Today, even when another task is due today. */
  lemma OnlyPlannedToday(allTasks: seq<Task>, now: Timestamp, t: Task)
    requires t.category != Planned
    ensures t !in TodayTasks(allTasks, now)
  {
  }

  /** The list keeps the query's ascending due-date order. */
  lemma TodayKeepsDueOrder(allTasks: seq<Task>, now: Timestamp)
    requires Ordered(allTasks, EarlierDue)
    ensures Ordered(TodayTasks(allTasks, now), EarlierDue)
  {
    FilterKeepsOrder(allTasks, t => IsToday(t, now), EarlierDue);
  }

  /** `delete(at:)`: removes the Today tasks at `offsets` and nothing else. */
  function DeleteToday(allTasks: seq<Task>, now: Timestamp, offsets: set<int>): (r: seq<Task>)
    requires forall i :: i in offsets ==> 0 <= i < |TodayTasks(allTasks, now)|
    ensures var shown := TodayTasks(allTasks, now);
      && (forall i, t :: i in offsets && t in r ==> t.id != shown[i].id)
      && (forall t :: t in allTasks && (forall i :: i in offsets ==> t.id != shown[i].id) ==> t in r)
      && IsSubseq(r, allTasks)
  {
    DeleteAt(allTasks, TodayTasks(allTasks, now), offsets)
  }
}
