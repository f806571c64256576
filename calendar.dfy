/**
 * Naive (zone-less) Gregorian date-times as field records, the way Python's
 * datetime and a JavaScript Date read through its field getters present them,
 * together with a timeline (whole seconds since 0001-01-01T00:00:00) that gives
 * the arithmetic "plus 30 minutes" and "minus 24 hours" their meaning.
 */
module Calendar {
  import opened Wrappers

  const MinYear := 1
  const MaxYear := 9999

  /**
   * A date and time of day. `subsecond` is the fraction of the current second
   * in the front end's own unit: microseconds for Python, milliseconds for
   * JavaScript.
   */
  datatype DateTime = DateTime(year: int, month: int, day: int,
                               hour: int, minute: int, second: int, subsecond: nat)

  predicate IsLeapYear(y: int)
  {
    y % 4 == 0 && (y % 100 != 0 || y % 400 == 0)
  }

  function DaysInMonth(y: int, m: int): (n: int)
    requires 1 <= m <= 12
    ensures 28 <= n <= 31
  {
    if m == 2 then (if IsLeapYear(y) then 29 else 28)
    else if m == 4 || m == 6 || m == 9 || m == 11 then 30
    else 31
  }

  /** The fields name an existing instant of years 1 to 9999. */
  predicate Valid(dt: DateTime)
  {
    && MinYear <= dt.year <= MaxYear
    && 1 <= dt.month <= 12
    && 1 <= dt.day <= DaysInMonth(dt.year, dt.month)
    && 0 <= dt.hour < 24
    && 0 <= dt.minute < 60
    && 0 <= dt.second < 60
  }

  /** Days in the years 1 .. y-1. */
  function DaysBeforeYear(y: int): int
    requires y >= 1
  {
    var p := y - 1;
    p * 365 + p / 4 - p / 100 + p / 400
  }

  /** Days in the months 1 .. m-1 of year y. */
  function DaysBeforeMonth(y: int, m: int): int
    requires 1 <= m <= 12
  {
    if m == 1 then 0 else DaysBeforeMonth(y, m - 1) + DaysInMonth(y, m - 1)
  }

  /** Day number of the date, 1 for 0001-01-01. */
  function DayNumber(dt: DateTime): int
    requires Valid(dt)
  {
    DaysBeforeYear(dt.year) + DaysBeforeMonth(dt.year, dt.month) + dt.day
  }

  /** Whole seconds since 0001-01-01T00:00:00; the subsecond is not counted. */
  function Seconds(dt: DateTime): int
    requires Valid(dt)
  {
    ((DayNumber(dt) * 24 + dt.hour) * 60 + dt.minute) * 60 + dt.second
  }

  /** The time is on the 30-minute grid of the carbon-intensity API. */
  predicate OnHalfHourGrid(dt: DateTime)
  {
    (dt.minute == 0 || dt.minute == 30) && dt.second == 0 && dt.subsecond == 0
  }

  lemma {:induction false} YearLength(y: int)
    requires y >= 1
    ensures DaysBeforeMonth(y, 12) + DaysInMonth(y, 12) == if IsLeapYear(y) then 366 else 365
    ensures DaysBeforeYear(y + 1) == DaysBeforeYear(y) + DaysBeforeMonth(y, 12) + DaysInMonth(y, 12)
  {
    var leap := if IsLeapYear(y) then 1 else 0;
    assert DaysBeforeMonth(y, 2) == 31;
    assert DaysBeforeMonth(y, 3) == 59 + leap;
    assert DaysBeforeMonth(y, 4) == 90 + leap;
    assert DaysBeforeMonth(y, 5) == 120 + leap;
    assert DaysBeforeMonth(y, 6) == 151 + leap;
    assert DaysBeforeMonth(y, 7) == 181 + leap;
    assert DaysBeforeMonth(y, 8) == 212 + leap;
    assert DaysBeforeMonth(y, 9) == 243 + leap;
    assert DaysBeforeMonth(y, 10) == 273 + leap;
    assert DaysBeforeMonth(y, 11) == 304 + leap;
    assert DaysBeforeMonth(y, 12) == 334 + leap;
    DivisionStep(y);
  }

  /** Going from y-1 to y adds one multiple of k exactly when k divides y. */
  lemma DivisionStep(y: int)
    requires y >= 1
    ensures y / 4 - (y - 1) / 4 == if y % 4 == 0 then 1 else 0
    ensures y / 100 - (y - 1) / 100 == if y % 100 == 0 then 1 else 0
    ensures y / 400 - (y - 1) / 400 == if y % 400 == 0 then 1 else 0
    ensures y % 400 == 0 ==> y % 100 == 0 && y % 4 == 0
    ensures y % 100 == 0 ==> y % 4 == 0
  {
  }

  /** The same time of day on the following calendar day; None past 9999-12-31. */
  function NextDay(dt: DateTime): (r: Option<DateTime>)
    requires Valid(dt)
    ensures r.None? <==> dt.year == MaxYear && dt.month == 12 && dt.day == 31
    ensures r.Some? ==> Valid(r.value) && DayNumber(r.value) == DayNumber(dt) + 1
    ensures r.Some? ==> r.value.hour == dt.hour && r.value.minute == dt.minute
                        && r.value.second == dt.second && r.value.subsecond == dt.subsecond
  {
    if dt.day < DaysInMonth(dt.year, dt.month) then Some(dt.(day := dt.day + 1))
    else if dt.month < 12 then Some(dt.(month := dt.month + 1, day := 1))
    else if dt.year < MaxYear then
      YearLength(dt.year);
      Some(dt.(year := dt.year + 1, month := 1, day := 1))
    else None
  }

  /** The instant 30 minutes later (a timedelta of 30 minutes); None past year 9999. */
  function AddHalfHour(dt: DateTime): (r: Option<DateTime>)
    requires Valid(dt)
    ensures r.None? <==> dt.year == MaxYear && dt.month == 12 && dt.day == 31
                         && dt.hour == 23 && dt.minute >= 30
    ensures r.Some? ==> Valid(r.value) && Seconds(r.value) == Seconds(dt) + 30 * 60
                        && r.value.second == dt.second && r.value.subsecond == dt.subsecond
  {
    if dt.minute < 30 then Some(dt.(minute := dt.minute + 30))
    else if dt.hour < 23 then Some(dt.(hour := dt.hour + 1, minute := dt.minute - 30))
    else
      match NextDay(dt)
      case None => None
      case Some(next) => Some(next.(hour := 0, minute := dt.minute - 30))
  }

  /** The instant 24 hours earlier: the same time of day on the preceding calendar day; None before year 1. */
  function SubtractDay(dt: DateTime): (r: Option<DateTime>)
    requires Valid(dt)
    ensures r.None? <==> dt.year == MinYear && dt.month == 1 && dt.day == 1
    ensures r.Some? ==> Valid(r.value) && Seconds(r.value) == Seconds(dt) - 24 * 60 * 60
    ensures r.Some? ==> r.value.hour == dt.hour && r.value.minute == dt.minute
                        && r.value.second == dt.second && r.value.subsecond == dt.subsecond
  {
    if dt.day > 1 then Some(dt.(day := dt.day - 1))
    else if dt.month > 1 then Some(dt.(month := dt.month - 1, day := DaysInMonth(dt.year, dt.month - 1)))
    else if dt.year > MinYear then
      YearLength(dt.year - 1);
      Some(dt.(year := dt.year - 1, month := 12, day := 31))
    else None
  }
}
