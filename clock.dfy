/** Calendar moments as Python's `datetime` holds them, and their place on the
    model's clock of whole seconds. */
module Clock {
  import opened Base

  datatype DateTime = DateTime(year: int, month: int, day: int, hour: int, minute: int, second: int)

  predicate IsLeapYear(y: int) {
    y % 4 == 0 && (y % 100 != 0 || y % 400 == 0)
  }

  function DaysInMonth(y: int, m: int): int
    requires 1 <= m <= 12
  {
    if m == 2 then (if IsLeapYear(y) then 29 else 28)
    else if m == 4 || m == 6 || m == 9 || m == 11 then 30
    else 31
  }

  /** The moments `datetime(year, month, day, hour, minute, second)` accepts. */
  predicate Valid(dt: DateTime) {
    && 1 <= dt.year <= 9999
    && 1 <= dt.month <= 12
    && 1 <= dt.day <= DaysInMonth(dt.year, dt.month)
    && 0 <= dt.hour < 24
    && 0 <= dt.minute < 60
    && 0 <= dt.second < 60
  }

  /** A moment `datetime` accepts. */
  type Moment = dt: DateTime | Valid(dt) witness DateTime(1, 1, 1, 0, 0, 0)

  /** Days from 0001-01-01 to the first day of year `y`. */
  function DaysBeforeYear(y: int): nat
    requires 1 <= y
  {
    if y == 1 then 0 else DaysBeforeYear(y - 1) + (if IsLeapYear(y - 1) then 366 else 365)
  }

  function DaysBeforeMonth(y: int, m: int): nat
    requires 1 <= m <= 12
  {
    if m == 1 then 0 else DaysBeforeMonth(y, m - 1) + DaysInMonth(y, m - 1)
  }

  /** Seconds elapsed since the start of the day `dt` falls on. */
  function SecondOfDay(dt: DateTime): (s: int)
    requires Valid(dt)
    ensures 0 <= s < SecondsPerDay
  {
    dt.hour * 3600 + dt.minute * 60 + dt.second
  }

  /** The model's clock reading of a calendar moment. */
  function EpochSeconds(dt: DateTime): Time
    requires Valid(dt)
  {
    (DaysBeforeYear(dt.year) + DaysBeforeMonth(dt.year, dt.month) + dt.day - 1) * SecondsPerDay
      + SecondOfDay(dt)
  }

  /** `timestamp.hour`: the hour of the day a moment falls in. */
  function HourOf(t: Time): (h: int)
    ensures 0 <= h < 24
    ensures h * 3600 <= t % SecondsPerDay < (h + 1) * 3600
  {
    (t % SecondsPerDay) / 3600
  }

  /** Midnight at the start of the day `t` falls on (`datetime.combine(today, time.min)`). */
  function StartOfDay(t: Time): (m: Time)
    ensures m <= t < m + SecondsPerDay
    ensures m % SecondsPerDay == 0
  {
    t - t % SecondsPerDay
  }

  lemma MultipleMod(days: int, s: int)
    requires 0 <= s < SecondsPerDay
    ensures (days * SecondsPerDay + s) % SecondsPerDay == s
  {
  }

  /** The stored `hour` of a parsed moment is the hour written in it. */
  lemma HourOfEpoch(dt: DateTime)
    requires Valid(dt)
    ensures HourOf(EpochSeconds(dt)) == dt.hour
  {
    var days := DaysBeforeYear(dt.year) + DaysBeforeMonth(dt.year, dt.month) + dt.day - 1;
    MultipleMod(days, SecondOfDay(dt));
  }

  /** A parsed moment's day starts at the same moment written with 00:00:00. */
  lemma StartOfDayOfEpoch(dt: DateTime)
    requires Valid(dt)
    ensures StartOfDay(EpochSeconds(dt)) == EpochSeconds(dt.(hour := 0, minute := 0, second := 0))
  {
    var days := DaysBeforeYear(dt.year) + DaysBeforeMonth(dt.year, dt.month) + dt.day - 1;
    MultipleMod(days, SecondOfDay(dt));
  }
}
