/** Calendar arithmetic used by the application: instants are whole seconds
    since 0001-01-01 00:00 (the origin of .NET's DateTime), days are whole
    days since that date (a Monday), and calendar dates are (year, month, day)
    triples of the proleptic Gregorian calendar. */
module Calendar {

  const SecondsPerDay: int := 86400

  /** `DateTime.Date`: the day an instant falls on. */
  function DayOf(t: int): int {
    t / SecondsPerDay
  }

  /** `AddDays(n)` on an instant. */
  function AddDays(t: int, n: int): int {
    t + n * SecondsPerDay
  }

  /** `DayOfWeek` as .NET numbers it: Sunday is 0, Monday 1, ... Saturday 6.
      Day 0 (0001-01-01) is a Monday. */
  function DayOfWeek(day: int): (w: int)
    ensures 0 <= w < 7
  {
    (day + 1) % 7
  }

  const WeekdayAbbreviations: seq<string> := ["Sun", "Mon", "Tue", "Wed", "Thu", "Fri", "Sat"]

  /** `ToString("ddd", CultureInfo.InvariantCulture)` of a day. */
  function WeekdayLabel(day: int): (abbrev: string)
    ensures abbrev in WeekdayAbbreviations
  {
    WeekdayAbbreviations[DayOfWeek(day)]
  }

  /** Two days have the same label exactly when they are a whole number of
      weeks apart. */
  lemma SameLabelIffWeeksApart(a: int, b: int)
    ensures WeekdayLabel(a) == WeekdayLabel(b) <==> (a - b) % 7 == 0
  {
    var wa, wb := DayOfWeek(a), DayOfWeek(b);
    assert WeekdayLabel(a) == WeekdayLabel(b) <==> wa == wb by {
      if wa != wb {
        assert WeekdayAbbreviations[wa] != WeekdayAbbreviations[wb];
      }
    }
    assert (a + 1) == ((a + 1) / 7) * 7 + wa;
    assert (b + 1) == ((b + 1) / 7) * 7 + wb;
    assert a - b == ((a + 1) / 7 - (b + 1) / 7) * 7 + (wa - wb);
    if wa == wb {
      assert (a - b) % 7 == 0;
    } else {
      assert -7 < wa - wb < 7;
    }
  }

  datatype Date = Date(year: int, month: int, day: int)

  predicate IsLeapYear(y: int) {
    y % 4 == 0 && (y % 100 != 0 || y % 400 == 0)
  }

  function DaysInMonth(y: int, m: int): (n: int)
    requires 1 <= m <= 12
    ensures 28 <= n <= 31
    ensures m == 2 ==> (n == 29 <==> IsLeapYear(y))
  {
    if m == 2 then (if IsLeapYear(y) then 29 else 28)
    else if m == 4 || m == 6 || m == 9 || m == 11 then 30
    else 31
  }

  /** A date DateTime can represent. */
  predicate ValidDate(d: Date) {
    1 <= d.year <= 9999 && 1 <= d.month <= 12 && 1 <= d.day <= DaysInMonth(d.year, d.month)
  }

  /** Chronological order on dates. */
  predicate Before(a: Date, b: Date) {
    a.year < b.year
    || (a.year == b.year && (a.month < b.month || (a.month == b.month && a.day < b.day)))
  }

  /** `AddYears(n)`: same month and day `n` years later, with 29 February
      becoming 28 February in a year that is not a leap year. */
  function AddYears(d: Date, n: int): (r: Date)
    requires ValidDate(d) && 1 <= d.year + n <= 9999
    ensures ValidDate(r)
    ensures r.year == d.year + n && r.month == d.month
    ensures r.day == d.day || (d.month == 2 && d.day == 29 && r.day == 28 && !IsLeapYear(r.year))
  {
    var y := d.year + n;
    if d.day > DaysInMonth(y, d.month) then Date(y, d.month, DaysInMonth(y, d.month))
    else Date(y, d.month, d.day)
  }
}
