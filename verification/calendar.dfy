/** Naive (timezone-free) date-times of the proleptic Gregorian calendar, and
    their numbering as whole seconds since 0001-01-01T00:00:00, the earliest
    value Python's `datetime` can hold. Every timestamp of the model is such a
    second count; this module converts between the two views. */
module Calendar {

  /** Seconds since 0001-01-01T00:00:00. */
  type Time = nat

  const SecondsPerMinute: nat := 60
  const SecondsPerHour: nat := 3600
  const SecondsPerDay: nat := 86400

  predicate IsLeapYear(y: int) {
    y % 4 == 0 && (y % 100 != 0 || y % 400 == 0)
  }

  function DaysInYear(y: int): nat {
    if IsLeapYear(y) then 366 else 365
  }

  /** Days in the months of year `y` before month `m` (`m == 13` gives the whole year). */
  function DaysBeforeMonth(y: int, m: int): (r: nat)
    requires 1 <= m <= 13
    ensures m == 13 ==> r == DaysInYear(y)
  {
    var common :=
      if m == 1 then 0 else if m == 2 then 31 else if m == 3 then 59
      else if m == 4 then 90 else if m == 5 then 120 else if m == 6 then 151
      else if m == 7 then 181 else if m == 8 then 212 else if m == 9 then 243
      else if m == 10 then 273 else if m == 11 then 304 else if m == 12 then 334
      else 365;
    common + if m > 2 && IsLeapYear(y) then 1 else 0
  }

  function DaysInMonth(y: int, m: int): (r: nat)
    requires 1 <= m <= 12
    ensures 28 <= r <= 31
    ensures DaysBeforeMonth(y, m) + r == DaysBeforeMonth(y, m + 1)
  {
    if m == 2 then (if IsLeapYear(y) then 29 else 28)
    else if m == 4 || m == 6 || m == 9 || m == 11 then 30
    else 31
  }

  /** Days from 0001-01-01 to the first day of year `y`. */
  function DaysBeforeYear(y: nat): nat {
    if y <= 1 then 0 else DaysBeforeYear(y - 1) + DaysInYear(y - 1)
  }

  datatype DateTime = DateTime(year: int, month: int, day: int, hour: int, minute: int, second: int)

  /** The fields name a real instant: Python's `datetime` constructor accepts them. */
  predicate Valid(d: DateTime) {
    && 1 <= d.year
    && 1 <= d.month <= 12
    && 1 <= d.day <= DaysInMonth(d.year, d.month)
    && 0 <= d.hour < 24
    && 0 <= d.minute < 60
    && 0 <= d.second < 60
  }

  /** Days from 0001-01-01 to the day of `d`. */
  function DayNumber(d: DateTime): nat
    requires Valid(d)
  {
    DaysBeforeYear(d.year) + DaysBeforeMonth(d.year, d.month) + d.day - 1
  }

  function SecondOfDay(d: DateTime): (r: nat)
    requires Valid(d)
    ensures r < SecondsPerDay
  {
    d.hour * SecondsPerHour + d.minute * SecondsPerMinute + d.second
  }

  function ToSeconds(d: DateTime): Time
    requires Valid(d)
  {
    DayNumber(d) * SecondsPerDay + SecondOfDay(d)
  }

  /** The year holding day `days` counted from the first day of year `y`, and
      the day's offset within that year. */
  function YearOf(days: nat, y: nat): (r: (nat, nat))
    requires 1 <= y
    ensures y <= r.0 && r.1 < DaysInYear(r.0)
    ensures DaysBeforeYear(r.0) + r.1 == DaysBeforeYear(y) + days
    decreases days
  {
    if days < DaysInYear(y) then (y, days)
    else YearOf(days - DaysInYear(y), y + 1)
  }

  /** The month and day of month of offset `offset`, counted from the first day
      of month `m` of year `y`. */
  function MonthOf(y: nat, offset: nat, m: int): (r: (int, int))
    requires 1 <= m <= 12
    requires DaysBeforeMonth(y, m) + offset < DaysInYear(y)
    ensures 1 <= r.0 <= 12 && 1 <= r.1 <= DaysInMonth(y, r.0)
    ensures DaysBeforeMonth(y, r.0) + r.1 - 1 == DaysBeforeMonth(y, m) + offset
    decreases 12 - m
  {
    if offset < DaysInMonth(y, m) then (m, offset + 1)
    else MonthOf(y, offset - DaysInMonth(y, m), m + 1)
  }

  /** The date-time `t` seconds after 0001-01-01T00:00:00. */
  function FromSeconds(t: Time): (d: DateTime)
    ensures Valid(d)
    ensures ToSeconds(d) == t
  {
    var days := t / SecondsPerDay;
    var rest := t % SecondsPerDay;
    var (y, offset) := YearOf(days, 1);
    var (m, day) := MonthOf(y, offset, 1);
    var d := DateTime(y, m, day, rest / SecondsPerHour, rest % SecondsPerHour / SecondsPerMinute, rest % SecondsPerMinute);
    ClockOf(rest);
    assert DayNumber(d) == days;
    assert SecondOfDay(d) == rest;
    d
  }

  /** The seconds field of an instant is its count modulo a minute, and an
      instant on a whole hour has zero minutes and seconds. */
  lemma FieldsOfAligned(t: Time)
    ensures FromSeconds(t).second == t % SecondsPerMinute
    ensures t % SecondsPerHour == 0 ==> FromSeconds(t).minute == 0 && FromSeconds(t).second == 0
  {
    var rest := t % SecondsPerDay;
    var d := FromSeconds(t);
    assert d.second == rest % SecondsPerMinute && d.minute == rest % SecondsPerHour / SecondsPerMinute;
    DayRemainder(t);
  }

  /** A day is a whole number of minutes and of hours. */
  lemma DayRemainder(t: nat)
    ensures t % SecondsPerDay % SecondsPerMinute == t % SecondsPerMinute
    ensures t % SecondsPerDay % SecondsPerHour == t % SecondsPerHour
  {
    var q := t / SecondsPerDay;
    var rest := t % SecondsPerDay;
    assert t == 86400 * q + rest;
    Shift60(1440 * q, rest);
    Shift3600(24 * q, rest);
  }

  lemma Shift60(k: nat, r: nat)
    ensures (60 * k + r) % 60 == r % 60
  {
  }

  lemma Shift3600(k: nat, r: nat)
    ensures (3600 * k + r) % 3600 == r % 3600
  {
  }

  /** Hours, minutes and seconds of a second of the day add back up to it. */
  lemma ClockOf(rest: nat)
    requires rest < SecondsPerDay
    ensures rest / 3600 * 3600 + rest % 3600 / 60 * 60 + rest % 60 == rest
    ensures rest / 3600 < 24 && rest % 3600 / 60 < 60
  {
    var h, r1 := rest / 3600, rest % 3600;
    var mi, s := r1 / 60, r1 % 60;
    assert rest == 3600 * h + r1;
    assert r1 == 60 * mi + s;
    assert rest % 60 == s by {
      assert rest == 60 * (60 * h + mi) + s;
    }
  }

  lemma {:induction false} DaysBeforeYearMonotone(a: nat, b: nat)
    requires 1 <= a <= b
    ensures DaysBeforeYear(a) + (b - a) * 365 <= DaysBeforeYear(b)
    decreases b - a
  {
    if a < b {
      DaysBeforeYearMonotone(a, b - 1);
    }
  }

  lemma SameDayNumberSameDate(a: DateTime, b: DateTime)
    requires Valid(a) && Valid(b)
    requires DayNumber(a) == DayNumber(b)
    ensures a.year == b.year && a.month == b.month && a.day == b.day
  {
    if a.year < b.year {
      DaysBeforeYearMonotone(a.year + 1, b.year);
      assert false;
    } else if b.year < a.year {
      DaysBeforeYearMonotone(b.year + 1, a.year);
      assert false;
    }
  }

  /** Distinct valid date-times have distinct second numbers. */
  lemma ToSecondsInjective(a: DateTime, b: DateTime)
    requires Valid(a) && Valid(b)
    requires ToSeconds(a) == ToSeconds(b)
    ensures a == b
  {
    SameDayNumberSameDate(a, b);
  }

  /** Seconds-then-calendar is the identity on valid date-times; with
      `FromSeconds`'s own contract the two views are in bijection. */
  lemma FromToSeconds(d: DateTime)
    requires Valid(d)
    ensures FromSeconds(ToSeconds(d)) == d
  {
    ToSecondsInjective(FromSeconds(ToSeconds(d)), d);
  }
}
