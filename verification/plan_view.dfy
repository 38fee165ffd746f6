/**
 * The Plan list (Dona/Views/Lists/TaskListPlanView.swift): planned tasks due
 * tomorrow or later, in one section per day, days ascending.
 */
module PlanView {
  import opened Wrappers
  import opened Clock
  import opened Tasks
  import opened Seqs
  import opened Store
  import TodayView

  /** `tomorrow`: the start of today plus one day. */
  function TomorrowStart(now: Timestamp): (r: Timestamp)
    ensures r % Day == 0 && now < r <= now + Day
  {
    AddDays(StartOfDay(now), 1)
  }

  /** The `#Predicate` of the query: only dated tasks are fetched. */
  function DatedTasks(allTasks: seq<Task>): (r: seq<Task>)
    ensures forall t :: t in r <==> t in allTasks && t.dueDate.Some?
    ensures IsSubseq(r, allTasks)
  {
    Filter(allTasks, (t: Task) => t.dueDate.Some?)
  }

  /** The filter of `futurePlanned`, `now` standing in for the `Date()` fallback. */
  predicate IsFuturePlanned(t: Task, now: Timestamp) {
    t.category == Planned && t.dueDate.GetOr(now) >= TomorrowStart(now)
  }

  /** `futurePlanned`. */
  function FuturePlanned(allTasks: seq<Task>, now: Timestamp): (r: seq<Task>)
    ensures forall t :: t in r <==>
      t in allTasks && t.category == Planned && t.dueDate.Some?
      && StartOfDay(now) < StartOfDay(t.dueDate.value)
    ensures IsSubseq(r, allTasks)
  {
    var dated := DatedTasks(allTasks);
    var r := Filter(dated, t => IsFuturePlanned(t, now));
    assert forall t :: t in dated ==>
      (t.dueDate.value >= TomorrowStart(now) <==> StartOfDay(now) < StartOfDay(t.dueDate.value));
    SubseqTransitive(r, dated, allTasks);
    r
  }

  /** The grouping key: the day of the due date, or of `now` for an undated task. */
  function DueDay(t: Task, now: Timestamp): int {
    StartOfDay(t.dueDate.GetOr(now))
  }

  /** `grouped`: one section per due day, days ascending. */
  function PlanGroups(allTasks: seq<Task>, now: Timestamp): (gs: seq<Group<Task>>)
    ensures forall i, j :: 0 <= i < j < |gs| ==> gs[i].key < gs[j].key
    ensures forall i :: 0 <= i < |gs| ==> gs[i].items != []
    ensures forall i, t :: 0 <= i < |gs| ==>
      (t in gs[i].items <==> t in FuturePlanned(allTasks, now) && StartOfDay(t.dueDate.value) == gs[i].key)
    ensures forall i :: 0 <= i < |gs| ==> IsSubseq(gs[i].items, FuturePlanned(allTasks, now))
    ensures forall t :: t in FuturePlanned(allTasks, now) ==>
      exists i :: 0 <= i < |gs| && gs[i].key == StartOfDay(t.dueDate.value)
    ensures TotalSize(gs) == |FuturePlanned(allTasks, now)|
  {
    var future := FuturePlanned(allTasks, now);
    var gs := GroupByKey(future, t => DueDay(t, now));
    assert forall t :: t in future ==> DueDay(t, now) == StartOfDay(t.dueDate.value);
    gs
  }

  /** `totalPlanned`. */
  function TotalPlanned(allTasks: seq<Task>, now: Timestamp): nat {
    |FuturePlanned(allTasks, now)|
  }

  /** Every future planned task is in exactly one section: the one for its day. */
  lemma {:induction false} PlanGroupUnique(allTasks: seq<Task>, now: Timestamp, t: Task)
    requires t in FuturePlanned(allTasks, now)
    ensures var gs := PlanGroups(allTasks, now);
      exists i :: 0 <= i < |gs| && t in gs[i].items
        && (forall j :: 0 <= j < |gs| && t in gs[j].items ==> j == i)
  {
    var gs := PlanGroups(allTasks, now);
    var i :| 0 <= i < |gs| && gs[i].key == StartOfDay(t.dueDate.value);
    assert t in gs[i].items;
    forall j | 0 <= j < |gs| && t in gs[j].items ensures j == i {
      assert gs[j].key == gs[i].key;
    }
  }

  /** The section sizes add up to the count in the title bar. */
  lemma PlanGroupsAddUp(allTasks: seq<Task>, now: Timestamp)
    ensures TotalSize(PlanGroups(allTasks, now)) == TotalPlanned(allTasks, now)
  {
  }

  /** The holiday message shows exactly when there are no sections. */
  lemma PlanEmptyIffNoGroups(allTasks: seq<Task>, now: Timestamp)
    ensures TotalPlanned(allTasks, now) == 0 <==> PlanGroups(allTasks, now) == []
  {
    var gs := PlanGroups(allTasks, now);
    var fp := FuturePlanned(allTasks, now);
    if fp != [] {
      assert fp[0] in fp;
    }
  }

  /** Within a section the tasks keep the query's ascending due-date order. */
  lemma PlanGroupsKeepDueOrder(allTasks: seq<Task>, now: Timestamp)
    requires Ordered(allTasks, EarlierDue)
    ensures var gs := PlanGroups(allTasks, now);
      forall i :: 0 <= i < |gs| ==> Ordered(gs[i].items, EarlierDue)
  {
    var fp := FuturePlanned(allTasks, now);
    SubseqKeepsOrder(fp, allTasks, EarlierDue);
    var gs := PlanGroups(allTasks, now);
    forall i | 0 <= i < |gs| ensures Ordered(gs[i].items, EarlierDue) {
      SubseqKeepsOrder(gs[i].items, fp, EarlierDue);
    }
  }

  /** A task due today or earlier, or not planned, is never in Plan. */
  lemma PlanExcludesTodayAndEarlier(allTasks: seq<Task>, now: Timestamp, t: Task)
    requires t.category != Planned || t.dueDate == None || StartOfDay(t.dueDate.value) <= StartOfDay(now)
    ensures t !in FuturePlanned(allTasks, now)
  {
  }

  /** No task shows in both Today and Plan. */
  lemma TodayAndPlanDisjoint(allTasks: seq<Task>, now: Timestamp, t: Task)
    ensures !(t in TodayView.TodayTasks(allTasks, now) && t in FuturePlanned(allTasks, now))
  {
    if t in TodayView.TodayTasks(allTasks, now) {
      StartOfDayUnique(t.dueDate.value, StartOfDay(now));
    }
  }

  /** Deleting from one day section removes exactly the tasks at `offsets` of that section. */
  function DeleteInGroup(allTasks: seq<Task>, now: Timestamp, group: int, offsets: set<int>): (r: seq<Task>)
    requires 0 <= group < |PlanGroups(allTasks, now)|
    requires forall i :: i in offsets ==> 0 <= i < |PlanGroups(allTasks, now)[group].items|
    ensures var shown := PlanGroups(allTasks, now)[group].items;
      && (forall i, t :: i in offsets && t in r ==> t.id != shown[i].id)
      && (forall t :: t in allTasks && (forall i :: i in offsets ==> t.id != shown[i].id) ==> t in r)
      && IsSubseq(r, allTasks)
  {
    DeleteAt(allTasks, PlanGroups(allTasks, now)[group].items, offsets)
  }
}
