/**
 * The task store as the views see it: an in-memory snapshot of every task.
 * Deleting from a list (`onDelete` in every list view) hands the tasks at the
 * swiped offsets of that list to `context.delete`, which removes the stored
 * object with the same identity.
 */
module Store {
  import opened Tasks
  import opened Seqs

  /** Orderings the views' queries deliver. */
  predicate NewestFirst(a: Task, b: Task) {
    a.createdAt >= b.createdAt
  }

  /**
   * Ascending by due date.  Where the store puts tasks without a due date is
   * not modelled, so only pairs of dated tasks are constrained.
   */
  predicate EarlierDue(a: Task, b: Task) {
    a.dueDate.Some? && b.dueDate.Some? ==> a.dueDate.value <= b.dueDate.value
  }

  /**
   * Deletes, from `store`, the tasks shown at `offsets` of the list `shown`.
   * Swipe offsets always index the list they were taken from.
   */
  function DeleteAt(store: seq<Task>, shown: seq<Task>, offsets: set<int>): (r: seq<Task>)
    requires forall i :: i in offsets ==> 0 <= i < |shown|
    ensures forall i, t :: i in offsets && t in r ==> t.id != shown[i].id
    ensures forall t :: t in store && (forall i :: i in offsets ==> t.id != shown[i].id) ==> t in r
    ensures forall t :: t in r ==> t in store
    ensures IsSubseq(r, store)
  {
    var doomed := set i | i in offsets :: shown[i].id;
    Filter(store, (t: Task) => t.id !in doomed)
  }
}
