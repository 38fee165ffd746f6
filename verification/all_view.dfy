/**
 * The All Tasks list (Dona/Views/Sheets/TaskListAllView.swift): every task,
 * narrowed by a title search and a done / not-done status filter.
 */
module AllView {
  import Tasks
  import opened Seqs
  import opened Store
  import opened Text

  /** `TaskFilter`, the segmented status picker. */
  datatype TaskFilter = All | Done | NotDone

  function FilterRawValue(f: TaskFilter): string {
    match f
    case All => "All"
    case Done => "Done"
    case NotDone => "Not Done"
  }

  /** `TaskFilter.allCases`, in picker order. */
  function AllFilters(): (fs: seq<TaskFilter>)
    ensures |fs| == 3
    ensures forall f: TaskFilter :: f in fs
    ensures forall i, j :: 0 <= i < j < |fs| ==> FilterRawValue(fs[i]) != FilterRawValue(fs[j])
  {
    var fs := [All, Done, NotDone];
    assert forall f: TaskFilter :: f in fs by {
      forall f: TaskFilter ensures f in fs {
        assert f == fs[0] || f == fs[1] || f == fs[2];
      }
    }
    fs
  }

  /** `matchesSearch`. */
  predicate MatchesSearch(t: Tasks.Task, searchText: string) {
    searchText == [] || ContainsIgnoringCase(t.title, searchText)
  }

  /** `matchesFilter`. */
  predicate MatchesFilter(t: Tasks.Task, filter: TaskFilter) {
    match filter
    case All => true
    case Done => t.category == Tasks.Done
    case NotDone => t.category != Tasks.Done
  }

  predicate Shown(t: Tasks.Task, searchText: string, filter: TaskFilter) {
    MatchesSearch(t, searchText) && MatchesFilter(t, filter)
  }

  /** `filteredTasks`. */
  function FilteredTasks(allTasks: seq<Tasks.Task>, searchText: string, filter: TaskFilter): (r: seq<Tasks.Task>)
    ensures forall t :: t in r <==>
      t in allTasks && MatchesSearch(t, searchText)
      && (filter == Done ==> t.category == Tasks.Done)
      && (filter == NotDone ==> t.category != Tasks.Done)
    ensures IsSubseq(r, allTasks)
  {
    Filter(allTasks, t => Shown(t, searchText, filter))
  }

  /**
   * The search test against an independent statement of it: the empty search
   * matches everything, and otherwise the lower-cased query must occur at
   * some position of the lower-cased title.
   */
  lemma MatchesSearchIff(t: Tasks.Task, searchText: string)
    ensures MatchesSearch(t, searchText) <==>
      searchText == [] || exists i :: OccursAt(Lower(searchText), Lower(t.title), i)
  {
    ContainsIffOccurs(Lower(t.title), Lower(searchText));
    if searchText != [] {
      assert MatchesSearch(t, searchText) == Contains(Lower(t.title), Lower(searchText));
      assert Contains(Lower(t.title), Lower(searchText)) <==> exists i :: OccursAt(Lower(searchText), Lower(t.title), i);
    }
  }

  /** An empty search with the All filter shows the whole store, in its order. */
  lemma EmptySearchShowsAll(allTasks: seq<Tasks.Task>)
    ensures FilteredTasks(allTasks, "", All) == allTasks
  {
    FilterAll(allTasks, t => Shown(t, "", All));
  }

  /** For a fixed search, Done and Not Done share out the All result. */
  lemma DoneNotDonePartition(allTasks: seq<Tasks.Task>, searchText: string)
    ensures multiset(FilteredTasks(allTasks, searchText, Done)) + multiset(FilteredTasks(allTasks, searchText, NotDone))
         == multiset(FilteredTasks(allTasks, searchText, All))
    ensures |FilteredTasks(allTasks, searchText, Done)| + |FilteredTasks(allTasks, searchText, NotDone)|
         == |FilteredTasks(allTasks, searchText, All)|
  {
    var all := FilteredTasks(allTasks, searchText, All);
    var done := FilteredTasks(allTasks, searchText, Done);
    var notDone := FilteredTasks(allTasks, searchText, NotDone);
    FilterSplit(allTasks, t => Shown(t, searchText, All), t => Shown(t, searchText, Done), t => Shown(t, searchText, NotDone));
    assert |multiset(done) + multiset(notDone)| == |multiset(all)|;
  }

  /** The list keeps the query's newest-first order. */
  lemma FilteredKeepsOrder(allTasks: seq<Tasks.Task>, searchText: string, filter: TaskFilter)
    requires Ordered(allTasks, NewestFirst)
    ensures Ordered(FilteredTasks(allTasks, searchText, filter), NewestFirst)
  {
    FilterKeepsOrder(allTasks, t => Shown(t, searchText, filter), NewestFirst);
  }

  /** `deleteTasks(at:)`: removes the listed tasks at `offsets` and nothing else. */
  function DeleteTasks(allTasks: seq<Tasks.Task>, searchText: string, filter: TaskFilter, offsets: set<int>): (r: seq<Tasks.Task>)
    requires forall i :: i in offsets ==> 0 <= i < |FilteredTasks(allTasks, searchText, filter)|
    ensures var shown := FilteredTasks(allTasks, searchText, filter);
      && (forall i, t :: i in offsets && t in r ==> t.id != shown[i].id)
      && (forall t :: t in allTasks && (forall i :: i in offsets ==> t.id != shown[i].id) ==> t in r)
      && IsSubseq(r, allTasks)
  {
    DeleteAt(allTasks, FilteredTasks(allTasks, searchText, filter), offsets)
  }
}
