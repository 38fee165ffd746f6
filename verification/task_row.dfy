/**
 * The done toggle of a task row (Dona/Views/TaskRowView.swift): tapping the
 * circle marks an open task done and sends a done task back to the Inbox.
 */
module TaskRow {
  import opened Tasks

  /** The tap handler of the check circle. */
  function Toggle(t: Task): (r: Task)
    ensures t.category == Done ==> r.category == Inbox
    ensures t.category != Done ==> r.category == Done
    ensures r.(category := t.category) == t
  {
    t.(category := if t.category == Done then Inbox else Done)
  }

  /** Toggling decides "done" exactly: the result is done iff the task was not. */
  lemma ToggleFlipsDone(t: Task)
    ensures (Toggle(t).category == Done) <==> (t.category != Done)
  {
  }

  /** Toggling twice gives back an Inbox or done task as it was. */
  lemma ToggleTwiceRestoresInboxAndDone(t: Task)
    requires t.category == Inbox || t.category == Done
    ensures Toggle(Toggle(t)) == t
  {
  }

  /**
   * Toggling twice is not an identity: a planned or Later task comes back
   * in the Inbox, its due and snooze dates still set.
   */
  lemma ToggleTwiceLandsInInbox(t: Task)
    requires t.category == Planned || t.category == Later
    ensures Toggle(Toggle(t)).category == Inbox
    ensures Toggle(Toggle(t)) != t
    ensures Toggle(Toggle(t)).dueDate == t.dueDate && Toggle(Toggle(t)).snoozedUntil == t.snoozedUntil
  {
  }
}
