/**
 * The Inbox list (Dona/Views/Lists/TaskListInboxView.swift): after the
 * unsnooze sweep, Inbox tasks are shown in three sections by how often they
 * came back from a snooze — never ("New"), one to three times ("Snoozed") and
 * more than three times.
 */
module InboxView {
  import opened Wrappers
  import opened Clock
  import opened Tasks
  import opened Seqs
  import opened Store
  import opened Unsnooze

  /** Bounds of the "Snoozed" section. */
  const FewSnoozes: int := 3

  predicate IsNew(t: Task) {
    t.category == Inbox && (t.countSnoozes == None || t.countSnoozes.value == 0)
  }

  predicate IsSnoozedFew(t: Task) {
    t.category == Inbox && t.countSnoozes != None
    && t.countSnoozes.value > 0 && t.countSnoozes.value <= FewSnoozes
  }

  predicate IsSnoozedMany(t: Task) {
    t.category == Inbox && t.countSnoozes != None && t.countSnoozes.value > FewSnoozes
  }

  predicate IsInbox(t: Task) {
    t.category == Inbox
  }

  predicate CountNotNegative(t: Task) {
    t.countSnoozes.Some? ==> t.countSnoozes.value >= 0
  }

  datatype InboxLists = InboxLists(newTasks: seq<Task>, snoozed: seq<Task>, snoozedMany: seq<Task>)

  /**
   * The tasks the three sections are filtered from.  `inboxTasks` first runs
   * `unsnoozeIfNeeded()`, which mutates the very objects the query holds, so
   * after a successful fetch the sections see the swept tasks; when that
   * fetch fails the sweep does nothing and they see the query as it was.
   */
  function Visited(allTasks: seq<Task>, fetchSucceeds: bool, now: Timestamp): (r: seq<Task>)
    requires fetchSucceeds ==> SweepSafe(allTasks, now)
    ensures fetchSucceeds ==> r == Sweep(allTasks, now)
    ensures !fetchSucceeds ==> r == allTasks
    ensures |r| == |allTasks|
  {
    if fetchSucceeds then Sweep(allTasks, now) else allTasks
  }

  /**
   * `inboxTasks`, `snoozedOnceTasks` and `snoozedMoreThan3Tasks`, read
   * together as the view body reads them: the first one runs the sweep, so all
   * three see the same tasks.
   */
  function Lists(allTasks: seq<Task>, fetchSucceeds: bool, now: Timestamp): (r: InboxLists)
    requires fetchSucceeds ==> SweepSafe(allTasks, now)
    ensures var seen := Visited(allTasks, fetchSucceeds, now);
      && (forall t :: t in r.newTasks <==>
            t in seen && t.category == Inbox && (t.countSnoozes == None || t.countSnoozes == Some(0)))
      && (forall t :: t in r.snoozed <==>
            t in seen && t.category == Inbox && t.countSnoozes.Some? && 1 <= t.countSnoozes.value <= 3)
      && (forall t :: t in r.snoozedMany <==>
            t in seen && t.category == Inbox && t.countSnoozes.Some? && t.countSnoozes.value > 3)
  {
    var seen := Visited(allTasks, fetchSucceeds, now);
    InboxLists(Filter(seen, IsNew), Filter(seen, IsSnoozedFew), Filter(seen, IsSnoozedMany))
  }

  /** The congratulations section is shown when all three sections are empty. */
  predicate ShowsCongratulations(lists: InboxLists) {
    lists.newTasks == [] && lists.snoozed == [] && lists.snoozedMany == []
  }

  /** The sweep changes no counter into a negative one. */
  lemma VisitedCountsNotNegative(allTasks: seq<Task>, fetchSucceeds: bool, now: Timestamp)
    requires fetchSucceeds ==> SweepSafe(allTasks, now)
    requires forall t :: t in allTasks ==> CountNotNegative(t)
    ensures forall t :: t in Visited(allTasks, fetchSucceeds, now) ==> CountNotNegative(t)
  {
    var seen := Visited(allTasks, fetchSucceeds, now);
    forall t | t in seen ensures CountNotNegative(t) {
      var i :| 0 <= i < |seen| && seen[i] == t;
      assert allTasks[i] in allTasks;
    }
  }

  /**
   * With no negative counter, the three sections share out the Inbox tasks
   * they are filtered from: together they hold each of them exactly as often
   * as it occurs.
   */
  lemma InboxPartition(allTasks: seq<Task>, fetchSucceeds: bool, now: Timestamp)
    requires fetchSucceeds ==> SweepSafe(allTasks, now)
    requires forall t :: t in allTasks ==> CountNotNegative(t)
    ensures var seen, r := Visited(allTasks, fetchSucceeds, now), Lists(allTasks, fetchSucceeds, now);
      && multiset(r.newTasks) + multiset(r.snoozed) + multiset(r.snoozedMany) == multiset(Filter(seen, IsInbox))
      && (forall t :: !(t in r.newTasks && t in r.snoozed))
      && (forall t :: !(t in r.newTasks && t in r.snoozedMany))
      && (forall t :: !(t in r.snoozed && t in r.snoozedMany))
  {
    var seen := Visited(allTasks, fetchSucceeds, now);
    VisitedCountsNotNegative(allTasks, fetchSucceeds, now);
    var beyondNew := (t: Task) => IsSnoozedFew(t) || IsSnoozedMany(t);
    FilterSplit(seen, IsInbox, IsNew, beyondNew);
    FilterSplit(seen, beyondNew, IsSnoozedFew, IsSnoozedMany);
  }

  /** With no negative counter, the inbox is celebrated exactly when no Inbox task is left to show. */
  lemma CongratulationsIffInboxEmpty(allTasks: seq<Task>, fetchSucceeds: bool, now: Timestamp)
    requires fetchSucceeds ==> SweepSafe(allTasks, now)
    requires forall t :: t in allTasks ==> CountNotNegative(t)
    ensures ShowsCongratulations(Lists(allTasks, fetchSucceeds, now))
        <==> forall t :: t in Visited(allTasks, fetchSucceeds, now) ==> t.category != Inbox
  {
    var seen := Visited(allTasks, fetchSucceeds, now);
    var r := Lists(allTasks, fetchSucceeds, now);
    InboxPartition(allTasks, fetchSucceeds, now);
    if ShowsCongratulations(r) {
      assert multiset(Filter(seen, IsInbox)) == multiset{};
      assert |Filter(seen, IsInbox)| == 0;
    } else if r.newTasks != [] {
      assert r.newTasks[0] in r.newTasks;
    } else if r.snoozed != [] {
      assert r.snoozed[0] in r.snoozed;
    } else {
      assert r.snoozedMany[0] in r.snoozedMany;
    }
  }

  /** A negative counter hides an Inbox task from every section. */
  lemma NegativeCountIsHidden(allTasks: seq<Task>, fetchSucceeds: bool, now: Timestamp, i: int)
    requires fetchSucceeds ==> SweepSafe(allTasks, now)
    requires 0 <= i < |allTasks| && allTasks[i].category == Inbox
    requires allTasks[i].countSnoozes.Some? && allTasks[i].countSnoozes.value < 0
    ensures var r := Lists(allTasks, fetchSucceeds, now);
      allTasks[i] !in r.newTasks && allTasks[i] !in r.snoozed && allTasks[i] !in r.snoozedMany
  {
  }

  /**
   * After a successful fetch the sweep runs before the sections are derived:
   * a Later task due today with counter `c >= 0` shows up, promoted, in
   * "Snoozed" when `c + 1 <= 3` and in "Snoozed more than 3 times" otherwise.
   */
  lemma DueTaskReturnsToInbox(allTasks: seq<Task>, now: Timestamp, i: int)
    requires SweepSafe(allTasks, now)
    requires 0 <= i < |allTasks| && IsDue(allTasks[i], now)
    requires CountNotNegative(allTasks[i])
    ensures var r, promoted := Lists(allTasks, true, now), Sweep(allTasks, now)[i];
      && promoted.category == Inbox
      && (allTasks[i].countSnoozes.value + 1 <= 3 ==> promoted in r.snoozed)
      && (allTasks[i].countSnoozes.value + 1 > 3 ==> promoted in r.snoozedMany)
  {
    assert allTasks[i] in allTasks;
    assert Sweep(allTasks, now)[i] in Sweep(allTasks, now);
  }

  /** When the sweep's fetch fails, a due Later task stays out of the Inbox sections. */
  lemma FailedFetchLeavesDueTaskOut(allTasks: seq<Task>, now: Timestamp, i: int)
    requires 0 <= i < |allTasks| && IsDue(allTasks[i], now)
    ensures var r := Lists(allTasks, false, now);
      allTasks[i] !in r.newTasks && allTasks[i] !in r.snoozed && allTasks[i] !in r.snoozedMany
  {
  }

  /** Each section is a subsequence of the query and keeps its newest-first order. */
  lemma ListsKeepOrder(allTasks: seq<Task>, fetchSucceeds: bool, now: Timestamp)
    requires fetchSucceeds ==> SweepSafe(allTasks, now)
    requires Ordered(allTasks, NewestFirst)
    ensures var seen, r := Visited(allTasks, fetchSucceeds, now), Lists(allTasks, fetchSucceeds, now);
      && IsSubseq(r.newTasks, seen) && Ordered(r.newTasks, NewestFirst)
      && IsSubseq(r.snoozed, seen) && Ordered(r.snoozed, NewestFirst)
      && IsSubseq(r.snoozedMany, seen) && Ordered(r.snoozedMany, NewestFirst)
  {
    var seen := Visited(allTasks, fetchSucceeds, now);
    if fetchSucceeds {
      SweepKeepsCreationOrder(allTasks, now);
    }
    FilterKeepsOrder(seen, IsNew, NewestFirst);
    FilterKeepsOrder(seen, IsSnoozedFew, NewestFirst);
    FilterKeepsOrder(seen, IsSnoozedMany, NewestFirst);
  }

  datatype InboxSection = NewSection | SnoozedSection | SnoozedManySection

  function Shown(lists: InboxLists, section: InboxSection): seq<Task> {
    match section
    case NewSection => lists.newTasks
    case SnoozedSection => lists.snoozed
    case SnoozedManySection => lists.snoozedMany
  }

  /**
   * Swipe-to-delete in one section (`deleteInbox(at:)` for "New", the
   * `onDelete` closures for the other two): the tasks at `offsets` of that
   * section leave the store and every other task stays, in order.
   */
  function DeleteFromSection(allTasks: seq<Task>, fetchSucceeds: bool, now: Timestamp,
                             section: InboxSection, offsets: set<int>): (r: seq<Task>)
    requires fetchSucceeds ==> SweepSafe(allTasks, now)
    requires forall i :: i in offsets ==> 0 <= i < |Shown(Lists(allTasks, fetchSucceeds, now), section)|
    ensures var seen, shown := Visited(allTasks, fetchSucceeds, now), Shown(Lists(allTasks, fetchSucceeds, now), section);
      && (forall i, t :: i in offsets && t in r ==> t.id != shown[i].id)
      && (forall t :: t in seen && (forall i :: i in offsets ==> t.id != shown[i].id) ==> t in r)
      && IsSubseq(r, seen)
  {
    DeleteAt(Visited(allTasks, fetchSucceeds, now), Shown(Lists(allTasks, fetchSucceeds, now), section), offsets)
  }
}
