/**
 * The Later list (Dona/Views/Lists/TaskListLaterView.swift): Later tasks
 * whose snooze moment has not passed, shown as a "Someday" section for the
 * undated ones followed by one section per snooze day.
 */
module LaterView {
  import opened Wrappers
  import opened Clock
  import opened Tasks
  import opened Seqs
  import opened Store
  import Unsnooze

  /** `Date.distantFuture` (0001-01-01 plus 4000 years) in seconds since 1970. */
  const DistantFuture: Timestamp := 64092211200

  /** The filter of `activeLater`: raw instants are compared, not days. */
  predicate IsActiveLater(t: Task, now: Timestamp) {
    t.category == Later && !(t.snoozedUntil.Some? && t.snoozedUntil.value <= now)
  }

  /** `activeLater`. */
  function ActiveLater(allTasks: seq<Task>, now: Timestamp): (r: seq<Task>)
    ensures forall t :: t in r <==>
      t in allTasks && t.category == Later && (t.snoozedUntil == None || t.snoozedUntil.value > now)
    ensures IsSubseq(r, allTasks)
  {
    Filter(allTasks, t => IsActiveLater(t, now))
  }

  /** `totalLater`. */
  function TotalLater(allTasks: seq<Task>, now: Timestamp): nat {
    |ActiveLater(allTasks, now)|
  }

  // ---------------------------------------------------------------------------
  // Sections
  // ---------------------------------------------------------------------------

  /** Which formatter names a day section; the strings themselves are not modelled. */
  datatype LabelKind = Relative | Absolute

  datatype Header = Someday | DayHeader(day: Timestamp, kind: LabelKind)

  datatype Section = Section(header: Header, tasks: seq<Task>)

  /** The label test of the loop over `sortedDays`. */
  function LabelFor(day: Timestamp, now: Timestamp): LabelKind {
    if SameDay(day, now) || SameDay(day, AddDays(now, 1)) || SameDay(day, AddDays(now, -1))
    then Relative
    else Absolute
  }

  function CreatedKey(t: Task): int {
    t.createdAt
  }

  /** The day a dated task is filed under. */
  function SnoozeDay(t: Task): int {
    StartOfDay(t.snoozedUntil.GetOr(0))
  }

  /** The sort key inside a day section, `distantFuture` standing in for a missing date. */
  function SnoozeKey(t: Task): int {
    t.snoozedUntil.GetOr(DistantFuture)
  }

  predicate Undated(t: Task) {
    t.snoozedUntil == None
  }

  predicate Dated(t: Task) {
    t.snoozedUntil.Some?
  }

  /** `somedayTasks`: the undated active tasks, oldest first. */
  function SomedayTasks(allTasks: seq<Task>, now: Timestamp): (r: seq<Task>)
    ensures multiset(r) == multiset(Filter(ActiveLater(allTasks, now), Undated))
    ensures forall t :: t in r <==> t in ActiveLater(allTasks, now) && t.snoozedUntil == None
    ensures SortedBy(r, CreatedKey)
  {
    var undated := Filter(ActiveLater(allTasks, now), Undated);
    var r := SortBy(undated, CreatedKey);
    assert forall t :: t in r <==> t in multiset(undated);
    r
  }

  /** `dated` regrouped as `byDay`, days ascending (`byDay.keys.sorted()`). */
  function DayGroups(allTasks: seq<Task>, now: Timestamp): (gs: seq<Group<Task>>)
    ensures forall i, j :: 0 <= i < j < |gs| ==> gs[i].key < gs[j].key
    ensures forall i :: 0 <= i < |gs| ==> gs[i].items != []
    ensures forall i, t :: 0 <= i < |gs| ==>
      (t in gs[i].items <==>
        t in ActiveLater(allTasks, now) && t.snoozedUntil.Some? && StartOfDay(t.snoozedUntil.value) == gs[i].key)
    ensures forall t :: t in ActiveLater(allTasks, now) && t.snoozedUntil.Some? ==>
      exists i :: 0 <= i < |gs| && gs[i].key == StartOfDay(t.snoozedUntil.value)
    ensures TotalSize(gs) == |Filter(ActiveLater(allTasks, now), Dated)|
  {
    var active := ActiveLater(allTasks, now);
    var dated := Filter(active, Dated);
    assert forall t :: t in dated <==> t in active && t.snoozedUntil.Some?;
    assert forall t :: t in dated ==> SnoozeDay(t) == StartOfDay(t.snoozedUntil.value);
    GroupByKey(dated, SnoozeDay)
  }

  /** The number of tasks shown across `sections`. */
  function SectionsSize(sections: seq<Section>): nat {
    if sections == [] then 0 else |sections[0].tasks| + SectionsSize(sections[1..])
  }

  /** One section per day group, each labelled and sorted by snooze moment. */
  function DaySections(groups: seq<Group<Task>>, now: Timestamp): (ss: seq<Section>)
    ensures |ss| == |groups|
    ensures forall i :: 0 <= i < |groups| ==>
      && ss[i].header == DayHeader(groups[i].key, LabelFor(groups[i].key, now))
      && multiset(ss[i].tasks) == multiset(groups[i].items)
      && SortedBy(ss[i].tasks, SnoozeKey)
    ensures forall i :: 0 <= i < |ss| ==> ss[i].header.DayHeader?
    ensures SectionsSize(ss) == TotalSize(groups)
  {
    if groups == [] then []
    else
      var g := groups[0];
      var first := Section(DayHeader(g.key, LabelFor(g.key, now)), SortBy(g.items, SnoozeKey));
      var rest := DaySections(groups[1..], now);
      assert ([first] + rest)[1..] == rest;
      [first] + rest
  }

  /** The Someday section, only when it has tasks, in front of the day sections. */
  function Arrange(someday: seq<Task>, days: seq<Section>): (ss: seq<Section>)
    requires forall i :: 0 <= i < |days| ==> days[i].header.DayHeader?
    ensures |ss| == (if someday == [] then 0 else 1) + |days|
    ensures someday != [] ==> ss[0] == Section(Someday, someday) && ss[1..] == days
    ensures someday == [] ==> ss == days
    ensures forall i :: 0 <= i < |ss| && ss[i].header == Someday ==> i == 0 && ss[i].tasks != []
  {
    if someday == [] then days else [Section(Someday, someday)] + days
  }

  /** `grouped`: the Someday section when it has tasks, then the day sections. */
  function LaterSections(allTasks: seq<Task>, now: Timestamp): (ss: seq<Section>)
    ensures var someday, days := SomedayTasks(allTasks, now), DaySections(DayGroups(allTasks, now), now);
      && |ss| == (if someday == [] then 0 else 1) + |days|
      && (someday != [] ==> ss[0] == Section(Someday, someday) && ss[1..] == days)
      && (someday == [] ==> ss == days)
      && (forall i :: 0 <= i < |ss| && ss[i].header == Someday ==> i == 0 && ss[i].tasks != [])
  {
    Arrange(SomedayTasks(allTasks, now), DaySections(DayGroups(allTasks, now), now))
  }

  // ---------------------------------------------------------------------------
  // Properties
  // ---------------------------------------------------------------------------

  /** A dated active task sits in exactly one day section: the one for its snooze day. */
  lemma DatedTaskInOneSection(allTasks: seq<Task>, now: Timestamp, t: Task)
    requires t in ActiveLater(allTasks, now) && t.snoozedUntil.Some?
    ensures var ds := DaySections(DayGroups(allTasks, now), now);
      exists i :: 0 <= i < |ds| && t in ds[i].tasks && ds[i].header.day == StartOfDay(t.snoozedUntil.value)
        && (forall j :: 0 <= j < |ds| && t in ds[j].tasks ==> j == i)
  {
    var gs := DayGroups(allTasks, now);
    var i := GroupOf(allTasks, now, t);
    InOneSection(gs, now, t, i);
    var ds := DaySections(gs, now);
    assert ds[i].header.day == StartOfDay(t.snoozedUntil.value);
  }

  /** The day group a dated active task is filed in. */
  lemma GroupOf(allTasks: seq<Task>, now: Timestamp, t: Task) returns (i: int)
    requires t in ActiveLater(allTasks, now) && t.snoozedUntil.Some?
    ensures var gs := DayGroups(allTasks, now);
      && 0 <= i < |gs| && t in gs[i].items && gs[i].key == SnoozeDay(t)
      && (forall j :: 0 <= j < |gs| && t in gs[j].items ==> gs[j].key == SnoozeDay(t))
  {
    var gs := DayGroups(allTasks, now);
    i :| 0 <= i < |gs| && gs[i].key == StartOfDay(t.snoozedUntil.value);
  }

  /** Distinct group keys put a task in at most one group, and so in at most one section. */
  lemma InOneSection(gs: seq<Group<Task>>, now: Timestamp, t: Task, i: int)
    requires forall a, b :: 0 <= a < b < |gs| ==> gs[a].key < gs[b].key
    requires forall j :: 0 <= j < |gs| && t in gs[j].items ==> gs[j].key == SnoozeDay(t)
    requires 0 <= i < |gs| && t in gs[i].items
    ensures var ds := DaySections(gs, now);
      && t in ds[i].tasks && ds[i].header.day == gs[i].key
      && (forall j :: 0 <= j < |ds| && t in ds[j].tasks ==> j == i)
  {
    var ds := DaySections(gs, now);
    assert t in multiset(ds[i].tasks);
    forall j | 0 <= j < |ds| && t in ds[j].tasks ensures j == i {
      assert t in multiset(gs[j].items);
    }
  }

  /** Day sections come in strictly ascending day order. */
  lemma DaySectionsAscend(allTasks: seq<Task>, now: Timestamp)
    ensures var ds := DaySections(DayGroups(allTasks, now), now);
      forall i, j :: 0 <= i < j < |ds| ==> ds[i].header.day < ds[j].header.day
  {
  }

  /** Every task shown is counted once: the sections add up to `totalLater`. */
  lemma SectionsAddUp(allTasks: seq<Task>, now: Timestamp)
    ensures SectionsSize(LaterSections(allTasks, now)) == TotalLater(allTasks, now)
  {
    var active := ActiveLater(allTasks, now);
    FilterComplement(active, Undated, Dated);
    var someday := SomedayTasks(allTasks, now);
    var days := DaySections(DayGroups(allTasks, now), now);
    assert |someday| == |multiset(someday)| == |Filter(active, Undated)|;
    if someday != [] {
      assert ([Section(Someday, someday)] + days)[1..] == days;
    }
  }

  /** A day section's label is relative exactly for yesterday, today and tomorrow. */
  lemma LabelRelativeIff(day: Timestamp, now: Timestamp)
    ensures LabelFor(day, now) == Relative
        <==> StartOfDay(now) - Day <= StartOfDay(day) <= StartOfDay(now) + Day
  {
    StartOfDayShift(now, 1);
    StartOfDayShift(now, -1);
    var d, n := StartOfDay(day), StartOfDay(now);
    assert d % Day == 0 && n % Day == 0;
    if n - Day <= d <= n + Day {
      assert d == n - Day || d == n || d == n + Day by {
        assert (d - n) % Day == 0;
      }
    }
  }

  /**
   * Active dated tasks lie strictly after `now`, so no day section is ever
   * yesterday's: the "yesterday" arm of the label test never fires.
   */
  lemma NoSectionBeforeToday(allTasks: seq<Task>, now: Timestamp)
    ensures var ds := DaySections(DayGroups(allTasks, now), now);
      forall i :: 0 <= i < |ds| ==> ds[i].header.day >= StartOfDay(now)
  {
    var gs := DayGroups(allTasks, now);
    forall i | 0 <= i < |gs| ensures gs[i].key >= StartOfDay(now) {
      var t := gs[i].items[0];
      assert t in gs[i].items;
      StartOfDayMonotone(now, t.snoozedUntil.value);
    }
  }

  /**
   * Right after a sweep at `now`, every dated task in Later is snoozed to a
   * day after today: the day-based sweep and the instant-based filter agree
   * once the sweep has run.
   */
  lemma SweptLaterIsFuture(allTasks: seq<Task>, now: Timestamp, t: Task)
    requires Unsnooze.SweepSafe(allTasks, now)
    requires t in ActiveLater(Unsnooze.Sweep(allTasks, now), now) && t.snoozedUntil.Some?
    ensures StartOfDay(t.snoozedUntil.value) > StartOfDay(now)
  {
    Unsnooze.SweepLeavesNothingDue(allTasks, now);
  }

  /**
   * Without the sweep, the two disagree within a day: a task snoozed until a
   * later moment of today is shown in Later although the sweep would promote it.
   */
  lemma LaterShowsTaskDueLaterToday(allTasks: seq<Task>, now: Timestamp, t: Task)
    requires t in allTasks && t.category == Later && t.snoozedUntil.Some?
    requires now < t.snoozedUntil.value && SameDay(t.snoozedUntil.value, now)
    ensures t in ActiveLater(allTasks, now)
    ensures Unsnooze.IsDue(t, now)
  {
  }

  /** Deleting from one section removes exactly the tasks at `offsets` of that section. */
  function DeleteInSection(allTasks: seq<Task>, now: Timestamp, section: int, offsets: set<int>): (r: seq<Task>)
    requires 0 <= section < |LaterSections(allTasks, now)|
    requires forall i :: i in offsets ==> 0 <= i < |LaterSections(allTasks, now)[section].tasks|
    ensures var shown := LaterSections(allTasks, now)[section].tasks;
      && (forall i, t :: i in offsets && t in r ==> t.id != shown[i].id)
      && (forall t :: t in allTasks && (forall i :: i in offsets ==> t.id != shown[i].id) ==> t in r)
      && IsSubseq(r, allTasks)
  {
    DeleteAt(allTasks, LaterSections(allTasks, now)[section].tasks, offsets)
  }
}
