/**
 * The `Task` record and its `TaskCategory` (Dona/Models/Task.swift).
 *
 * The Swift class is a SwiftData model mutated in place; here it is an
 * immutable value and every mutation returns a new record.  The record also
 * carries `snoozedUntil` and `countSnoozes`, which the sweep, the Later list
 * and the edit form read and write although the class declaration does not
 * list them; as Swift optionals they start out absent.
 */
module Tasks {
  import opened Wrappers
  import opened Clock

  datatype Category = Inbox | Planned | Later | Done

  /** Stand-in for the record's `UUID`. */
  type TaskId = nat

  datatype Task = Task(
    id: TaskId,
    title: string,
    notes: Option<string>,
    category: Category,
    dueDate: Option<Timestamp>,
    snoozedUntil: Option<Timestamp>,
    countSnoozes: Option<int>,
    createdAt: Timestamp)

  /** `TaskCategory.allCases`, in declaration order. */
  function AllCategories(): (cs: seq<Category>)
    ensures |cs| == 4
    ensures forall c: Category :: c in cs
    ensures forall i, j :: 0 <= i < j < |cs| ==> cs[i] != cs[j]
  {
    var cs := [Inbox, Planned, Later, Done];
    assert forall c: Category :: c in cs by {
      forall c: Category ensures c in cs {
        assert c == cs[0] || c == cs[1] || c == cs[2] || c == cs[3];
      }
    }
    cs
  }

  /** `TaskCategory.localizedTitle`. */
  function LocalizedTitle(c: Category): string {
    match c
    case Inbox => "Inbox"
    case Planned => "Planned"
    case Later => "Later"
    case Done => "Done"
  }

  /** Different categories are never shown under the same title. */
  lemma LocalizedTitleInjective(a: Category, b: Category)
    ensures LocalizedTitle(a) == LocalizedTitle(b) <==> a == b
  {
  }

  // ---------------------------------------------------------------------------
  // Creation
  // ---------------------------------------------------------------------------

  /**
   * `Task.init(title:notes:category:dueDate:createdAt:)` with the identifier
   * the initializer would draw from `UUID()` passed in as `id`.  The class
   * declaration does not show `countSnoozes`, so its starting value is a
   * parameter: `None` for an optional without a default, `Some(0)` for one
   * declared with `= 0`.
   */
  function NewTask(id: TaskId, title: string, notes: Option<string>, category: Category,
                   dueDate: Option<Timestamp>, createdAt: Timestamp, initialCount: Option<int>): (t: Task)
    ensures t.id == id && t.title == title && t.notes == notes
    ensures t.category == category && t.dueDate == dueDate && t.createdAt == createdAt
    ensures t.snoozedUntil == None && t.countSnoozes == initialCount
  {
    Task(id, title, notes, category, dueDate, None, initialCount, createdAt)
  }

  /** The initializer with every defaulted argument left out. */
  function NewTaskWithDefaults(id: TaskId, title: string, createdAt: Timestamp, initialCount: Option<int>): (t: Task)
    ensures t.category == Inbox && t.dueDate == None && t.notes == None
    ensures t.title == title && t.id == id && t.createdAt == createdAt
  {
    NewTask(id, title, None, Inbox, None, createdAt, initialCount)
  }

  /** A task whose snooze counter is present and not negative. */
  predicate Counted(t: Task) {
    t.countSnoozes.Some? && t.countSnoozes.value >= 0
  }

  predicate AllCounted(store: seq<Task>) {
    forall t :: t in store ==> Counted(t)
  }

  // ---------------------------------------------------------------------------
  // Identity in the store
  // ---------------------------------------------------------------------------

  predicate IsFresh(id: TaskId, store: seq<Task>) {
    forall t :: t in store ==> t.id != id
  }

  predicate UniqueIds(store: seq<Task>) {
    forall i, j :: 0 <= i < j < |store| ==> store[i].id != store[j].id
  }

  /** An identifier no stored task uses: one past the largest in use. */
  function FreshId(store: seq<Task>): (id: TaskId)
    ensures IsFresh(id, store)
    ensures forall t :: t in store ==> t.id < id
  {
    if store == [] then 0
    else
      var rest := FreshId(store[1..]);
      var id := if store[0].id < rest then rest else store[0].id + 1;
      assert forall t :: t in store ==> t == store[0] || t in store[1..];
      id
  }

  /** Inserting a task with a fresh identifier keeps identifiers unique. */
  lemma InsertFreshKeepsUnique(store: seq<Task>, t: Task)
    requires UniqueIds(store)
    requires IsFresh(t.id, store)
    ensures UniqueIds(store + [t])
  {
    var s := store + [t];
    forall i, j | 0 <= i < j < |s| ensures s[i].id != s[j].id {
      if j == |store| {
        assert s[i] in store;
      }
    }
  }
}
