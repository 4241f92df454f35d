/** Timestamps as the source's pandas/numpy datetimes: a proleptic Gregorian date plus a time of day
    (whole seconds after midnight), ordered chronologically. */
module Calendar {

  const SecondsPerDay := 86400

  predicate IsLeapYear(y: int) {
    y % 4 == 0 && (y % 100 != 0 || y % 400 == 0)
  }

  function DaysInMonth(y: int, m: int): int
    requires 1 <= m <= 12
  {
    if m == 2 then (if IsLeapYear(y) then 29 else 28)
    else if m == 4 || m == 6 || m == 9 || m == 11 then 30
    else 31
  }

  datatype DateTime = DateTime(year: int, month: int, day: int, second: int)

  predicate ValidDateTime(t: DateTime) {
    && 1 <= t.month <= 12
    && 1 <= t.day <= DaysInMonth(t.year, t.month)
    && 0 <= t.second < SecondsPerDay
  }

  /** A datetime that exists on the calendar, as every numpy `datetime64` value does. */
  type Instant = t: DateTime | ValidDateTime(t) witness DateTime(1970, 1, 1, 0)

  /** Chronological order: `a` is strictly earlier than `b`. */
  predicate Before(a: DateTime, b: DateTime) {
    || a.year < b.year
    || (a.year == b.year && a.month < b.month)
    || (a.year == b.year && a.month == b.month && a.day < b.day)
    || (a.year == b.year && a.month == b.month && a.day == b.day && a.second < b.second)
  }

  predicate AtOrBefore(a: DateTime, b: DateTime) {
    a == b || Before(a, b)
  }

  lemma BeforeIsStrictTotalOrder(a: DateTime, b: DateTime, c: DateTime)
    ensures !Before(a, a)
    ensures Before(a, b) ==> !Before(b, a)
    ensures a == b || Before(a, b) || Before(b, a)
    ensures Before(a, b) && Before(b, c) ==> Before(a, c)
  {
  }

  /** Midnight on 1 January of year `y`: what pandas makes of the string `str(y)`. */
  function YearStart(y: int): Instant {
    DateTime(y, 1, 1, 0)
  }

  /** Midnight on 31 December of year `y`: what pandas makes of the string `f'{y}-12-31'`. */
  function LastDayStart(y: int): Instant {
    DateTime(y, 12, 31, 0)
  }

  /** Midnight at the start of the day holding `t`: the label of its bin in `resample('D')`. */
  function DayOf(t: Instant): (d: Instant)
    ensures d.year == t.year && d.month == t.month && d.day == t.day && d.second == 0
    ensures AtOrBefore(d, t)
  {
    t.(second := 0)
  }

  /** A comparison against `str(y)` keeps exactly the instants of year `y` and later. */
  lemma NotBeforeYearStart(t: Instant, y: int)
    ensures AtOrBefore(YearStart(y), t) <==> y <= t.year
  {
  }

  /** A comparison against `f'{y}-12-31'` keeps every instant of earlier years and of year `y` up to
      midnight on 31 December, but not the rest of that last day. */
  lemma AtOrBeforeLastDayStart(t: Instant, y: int)
    ensures AtOrBefore(t, LastDayStart(y)) <==>
              t.year < y || (t.year == y && !(t.month == 12 && t.day == 31 && t.second > 0))
  {
  }
}
