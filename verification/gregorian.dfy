/**
 * The proleptic Gregorian calendar in the clock's time zone, as far as the
 * "next month" snooze needs it: which month a day belongs to, and the first
 * day of a month.  Days are numbered from 1970-01-01 (day 0).
 */
module Gregorian {
  import opened Clock

  /** A calendar month; `month` runs from 1 (January) to 12 (December). */
  datatype YearMonth = YearMonth(year: int, month: int)

  predicate Valid(ym: YearMonth) {
    1 <= ym.month <= 12
  }

  predicate IsLeapYear(y: int) {
    y % 4 == 0 && (y % 100 != 0 || y % 400 == 0)
  }

  function DaysInMonth(y: int, m: int): int
    requires 1 <= m <= 12
  {
    if m == 2 then (if IsLeapYear(y) then 29 else 28)
    else if m == 4 || m == 6 || m == 9 || m == 11 then 30
    else 31
  }

  /** Days of year `y` that precede the first of month `m`. */
  function DaysBeforeMonth(y: int, m: int): int
    requires 1 <= m <= 12
  {
    if m == 1 then 0 else DaysBeforeMonth(y, m - 1) + DaysInMonth(y, m - 1)
  }

  /** Leap years in 1..n (for n < 1 the same formula counts backwards consistently). */
  function LeapsThrough(n: int): int {
    n / 4 - n / 100 + n / 400
  }

  /** Day number of January 1st of year `y`. */
  function DaysBeforeYear(y: int): int {
    365 * (y - 1970) + LeapsThrough(y - 1) - LeapsThrough(1969)
  }

  /** Day number of the first day of `ym`. */
  function FirstDay(ym: YearMonth): int
    requires Valid(ym)
  {
    DaysBeforeYear(ym.year) + DaysBeforeMonth(ym.year, ym.month)
  }

  /** The following month; December rolls over to January of the next year. */
  function Next(ym: YearMonth): (r: YearMonth)
    requires Valid(ym)
    ensures Valid(r)
  {
    if ym.month == 12 then YearMonth(ym.year + 1, 1) else YearMonth(ym.year, ym.month + 1)
  }

  function Prev(ym: YearMonth): (r: YearMonth)
    requires Valid(ym)
    ensures Valid(r) && Next(r) == ym
  {
    if ym.month == 1 then YearMonth(ym.year - 1, 12) else YearMonth(ym.year, ym.month - 1)
  }

  /** Position of a month on the line of all months. */
  function Index(ym: YearMonth): int {
    12 * ym.year + ym.month - 1
  }

  /** Day `d` lies in month `ym`. */
  predicate Contains(ym: YearMonth, d: int) {
    Valid(ym) && FirstDay(ym) <= d < FirstDay(Next(ym))
  }

  // ---------------------------------------------------------------------------
  // Month lengths add up
  // ---------------------------------------------------------------------------

  lemma DivStep4(y: int)
    ensures y / 4 - (y - 1) / 4 == if y % 4 == 0 then 1 else 0
  {
  }

  lemma DivStep100(y: int)
    ensures y / 100 - (y - 1) / 100 == if y % 100 == 0 then 1 else 0
  {
  }

  lemma DivStep400(y: int)
    ensures y / 400 - (y - 1) / 400 == if y % 400 == 0 then 1 else 0
  {
  }

  lemma CenturyIsFourth(y: int)
    requires y % 100 == 0
    ensures y % 4 == 0
  {
    var k := y / 100;
    assert y == 4 * (25 * k);
  }

  lemma QuadricentennialIsCentury(y: int)
    requires y % 400 == 0
    ensures y % 100 == 0
  {
    var k := y / 400;
    assert y == 100 * (4 * k);
  }

  /** Exactly the leap years add one to the leap count. */
  lemma LeapStep(y: int)
    ensures LeapsThrough(y) - LeapsThrough(y - 1) == if IsLeapYear(y) then 1 else 0
  {
    DivStep4(y);
    DivStep100(y);
    DivStep400(y);
    if y % 400 == 0 {
      QuadricentennialIsCentury(y);
      CenturyIsFourth(y);
    } else if y % 100 == 0 {
      CenturyIsFourth(y);
    }
  }

  lemma DaysBeforeDecember(y: int)
    ensures DaysBeforeMonth(y, 12) == 334 + (if IsLeapYear(y) then 1 else 0)
  {
    assert DaysBeforeMonth(y, 2) == 31;
    assert DaysBeforeMonth(y, 3) == 59 + (if IsLeapYear(y) then 1 else 0);
    assert DaysBeforeMonth(y, 4) == 90 + (if IsLeapYear(y) then 1 else 0);
    assert DaysBeforeMonth(y, 5) == 120 + (if IsLeapYear(y) then 1 else 0);
    assert DaysBeforeMonth(y, 6) == 151 + (if IsLeapYear(y) then 1 else 0);
    assert DaysBeforeMonth(y, 7) == 181 + (if IsLeapYear(y) then 1 else 0);
    assert DaysBeforeMonth(y, 8) == 212 + (if IsLeapYear(y) then 1 else 0);
    assert DaysBeforeMonth(y, 9) == 243 + (if IsLeapYear(y) then 1 else 0);
    assert DaysBeforeMonth(y, 10) == 273 + (if IsLeapYear(y) then 1 else 0);
    assert DaysBeforeMonth(y, 11) == 304 + (if IsLeapYear(y) then 1 else 0);
  }

  /** A year is as long as its twelve months. */
  lemma YearIsTwelveMonths(y: int)
    ensures DaysBeforeYear(y + 1) - DaysBeforeYear(y) == DaysBeforeMonth(y, 12) + DaysInMonth(y, 12)
  {
    LeapStep(y);
    DaysBeforeDecember(y);
  }

  /** Each month starts exactly its length after the previous one. */
  lemma NextFirstDay(ym: YearMonth)
    requires Valid(ym)
    ensures FirstDay(Next(ym)) == FirstDay(ym) + DaysInMonth(ym.year, ym.month)
  {
    if ym.month == 12 {
      YearIsTwelveMonths(ym.year);
    }
  }

  /** Months start strictly later the further along the line they are. */
  lemma {:induction false} FirstDayMonotone(a: YearMonth, b: YearMonth)
    requires Valid(a) && Valid(b)
    requires Index(a) < Index(b)
    ensures FirstDay(Next(a)) <= FirstDay(b)
    decreases Index(b) - Index(a)
  {
    if Index(Next(a)) == Index(b) {
      assert Next(a) == b;
    } else {
      var p := Prev(b);
      assert Index(p) == Index(b) - 1;
      FirstDayMonotone(a, p);
      NextFirstDay(p);
    }
  }

  // ---------------------------------------------------------------------------
  // The month containing a day
  // ---------------------------------------------------------------------------

  function WalkUp(d: int, ym: YearMonth): (r: YearMonth)
    requires Valid(ym) && FirstDay(ym) <= d
    ensures Contains(r, d)
    decreases d - FirstDay(ym)
  {
    NextFirstDay(ym);
    if FirstDay(Next(ym)) <= d then WalkUp(d, Next(ym)) else ym
  }

  function WalkDown(d: int, ym: YearMonth): (r: YearMonth)
    requires Valid(ym) && d < FirstDay(Next(ym))
    ensures Contains(r, d)
    decreases FirstDay(ym) - d
  {
    NextFirstDay(Prev(ym));
    if FirstDay(ym) <= d then ym else WalkDown(d, Prev(ym))
  }

  /** The month in which day number `d` falls. */
  function MonthOf(d: int): (r: YearMonth)
    ensures Contains(r, d)
  {
    var epoch := YearMonth(1970, 1);
    assert FirstDay(epoch) == 0;
    NextFirstDay(epoch);
    if d >= 0 then WalkUp(d, epoch) else WalkDown(d, epoch)
  }

  /** A day lies in one month only. */
  lemma MonthOfUnique(ym: YearMonth, d: int)
    requires Contains(ym, d)
    ensures ym == MonthOf(d)
  {
    MonthsDisjoint(ym, MonthOf(d), d);
  }

  /** Two months sharing a day are the same month. */
  lemma MonthsDisjoint(a: YearMonth, b: YearMonth, d: int)
    requires Contains(a, d) && Contains(b, d)
    ensures a == b
  {
    if Index(a) < Index(b) {
      FirstDayOrdered(Next(a), b);
    } else if Index(b) < Index(a) {
      FirstDayOrdered(Next(b), a);
    }
  }

  /** Day of the month (1-based) of day number `d`. */
  function DayOfMonth(d: int): (r: int)
    ensures 1 <= r <= 31
  {
    var m := MonthOf(d);
    NextFirstDay(m);
    d - FirstDay(m) + 1
  }

  /** An instant before midnight of day `k` lies on a day before `k`. */
  lemma DayBefore(base: Timestamp, k: int)
    requires base < k * Day
    ensures base / Day < k
  {
  }

  /** Months further along the line start no earlier. */
  lemma FirstDayOrdered(a: YearMonth, b: YearMonth)
    requires Valid(a) && Valid(b) && Index(a) <= Index(b)
    ensures FirstDay(a) <= FirstDay(b)
  {
    if Index(a) < Index(b) {
      FirstDayMonotone(a, b);
      NextFirstDay(a);
    } else {
      assert a == b;
    }
  }

  /** No month starts strictly between `base` and the start of the month after base's month. */
  lemma NoBoundaryBefore(base: Timestamp, ym: YearMonth)
    requires Valid(ym) && base < FirstDay(ym) * Day
    ensures FirstDay(Next(MonthOf(base / Day))) <= FirstDay(ym)
  {
    var cur := MonthOf(base / Day);
    var nxt := Next(cur);
    DayBefore(base, FirstDay(ym));
    if Index(nxt) <= Index(ym) {
      FirstDayOrdered(nxt, ym);
    } else {
      FirstDayOrdered(ym, cur);
    }
  }

  /**
   * `RelativeSnooze.nextMonth`: read the year and month of `base`, add one to
   * the month, set the day to 1 and build the date at 00:00.  The result is the
   * first month boundary strictly after `base`.
   */
  function NextMonthStart(base: Timestamp): (r: Timestamp)
    ensures r % Day == 0
    ensures base < r
    ensures MonthOf(r / Day) == Next(MonthOf(base / Day))
    ensures DayOfMonth(r / Day) == 1
    ensures forall ym :: Valid(ym) && base < FirstDay(ym) * Day ==> r <= FirstDay(ym) * Day
  {
    var nxt := Next(MonthOf(base / Day));
    var r := FirstDay(nxt) * Day;
    assert r / Day == FirstDay(nxt);
    NextFirstDay(nxt);
    MonthOfUnique(nxt, FirstDay(nxt));
    assert forall ym :: Valid(ym) && base < FirstDay(ym) * Day ==> r <= FirstDay(ym) * Day by {
      forall ym | Valid(ym) && base < FirstDay(ym) * Day
        ensures r <= FirstDay(ym) * Day
      {
        NoBoundaryBefore(base, ym);
      }
    }
    r
  }
}
