/**
 * The clock and calendar adapter.  Instants are whole seconds since
 * 1970-01-01T00:00:00 in one fixed time zone with 86 400-second days, so
 * `Calendar.startOfDay(for:)` becomes rounding down to a multiple of `Day`
 * and `Calendar.date(byAdding: .day, value: n, to:)` becomes adding `n * Day`.
 */
module Clock {

  type Timestamp = int

  const Day: int := 86400

  /** Midnight at the start of the day containing `t`. */
  function StartOfDay(t: Timestamp): (r: Timestamp)
    ensures r <= t < r + Day
    ensures r % Day == 0
  {
    t - t % Day
  }

  /** `Calendar.date(byAdding: .day, value: n, to: t)` on fixed-length days. */
  function AddDays(t: Timestamp, n: int): Timestamp {
    t + n * Day
  }

  /** `Calendar.isDate(_:inSameDayAs:)`; with `b == now` it is `isDateInToday`. */
  predicate SameDay(a: Timestamp, b: Timestamp) {
    StartOfDay(a) == StartOfDay(b)
  }

  /** Midnight is the only instant that is a multiple of `Day` within `Day` seconds before `t`. */
  lemma StartOfDayUnique(t: Timestamp, m: Timestamp)
    requires m % Day == 0
    requires m <= t < m + Day
    ensures m == StartOfDay(t)
  {
  }

  /** Rounding down to midnight is monotone. */
  lemma StartOfDayMonotone(a: Timestamp, b: Timestamp)
    requires a <= b
    ensures StartOfDay(a) <= StartOfDay(b)
  {
  }

  /** Moving by whole days moves the day's start by the same amount. */
  lemma StartOfDayShift(t: Timestamp, n: int)
    ensures StartOfDay(AddDays(t, n)) == StartOfDay(t) + n * Day
  {
    var m := StartOfDay(t) + n * Day;
    assert m % Day == 0 by {
      assert m == (StartOfDay(t) / Day + n) * Day;
    }
    StartOfDayUnique(AddDays(t, n), m);
  }

  /** Midnight of a midnight is itself. */
  lemma StartOfDayIdempotent(t: Timestamp)
    ensures StartOfDay(StartOfDay(t)) == StartOfDay(t)
  {
    StartOfDayUnique(StartOfDay(t), StartOfDay(t));
  }
}
