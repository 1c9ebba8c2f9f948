/** Calendar arithmetic in one time zone: civil days, instants within a day,
    the carrying behaviour of JavaScript's `Date` constructor, and the
    `YYYY-MM-DD` day format the client and the list filter exchange. */
module Calendar {
  import opened Wrappers
  import opened Text

  /** Gregorian leap-year rule (proleptic, as JavaScript's `Date` uses). */
  predicate IsLeapYear(y: int) {
    (y % 4 == 0 && y % 100 != 0) || y % 400 == 0
  }

  function DaysInMonth(year: int, month: int): (n: int)
    requires 1 <= month <= 12
    ensures 28 <= n <= 31
    ensures n == 29 <==> month == 2 && IsLeapYear(year)
  {
    if month == 2 then (if IsLeapYear(year) then 29 else 28)
    else if month == 4 || month == 6 || month == 9 || month == 11 then 30
    else 31
  }

  /** A calendar day; `month` is 1-based. */
  datatype Day = Day(year: int, month: int, day: int)

  predicate ValidDay(d: Day) {
    1 <= d.month <= 12 && 1 <= d.day <= DaysInMonth(d.year, d.month)
  }

  const MsPerDay: int := 24 * 60 * 60 * 1000

  /** Milliseconds into the day of 23:59:59.999, the last instant of a day. */
  const EndOfDayMs: int := 23 * 3_600_000 + 59 * 60_000 + 59 * 1000 + 999

  /** A point in time: a day and the milliseconds elapsed since its midnight. */
  datatype Instant = Instant(day: Day, ms: int)

  predicate ValidInstant(t: Instant) {
    ValidDay(t.day) && 0 <= t.ms < MsPerDay
  }

  /** A valid civil instant. Unlike a JavaScript `Date`, whose range is
      about 273,790 years either side of 1970, the year is unbounded. */
  type Time = t: Instant | ValidInstant(t) witness Instant(Day(1970, 1, 1), 0)

  /** Months counted from year 0, so that consecutive months differ by one. */
  function MonthIndex(year: int, month: int): int {
    year * 12 + (month - 1)
  }

  /** `a` is a strictly earlier day than `b`. */
  predicate DayBefore(a: Day, b: Day) {
    || a.year < b.year
    || (a.year == b.year && a.month < b.month)
    || (a.year == b.year && a.month == b.month && a.day < b.day)
  }

  /** `a <= b` on instants, the order `$gte` / `$lte` and `sort` use on dates. */
  predicate AtOrBefore(a: Instant, b: Instant) {
    DayBefore(a.day, b.day) || (a.day == b.day && a.ms <= b.ms)
  }

  /** `AtOrBefore` is a total order on instants. */
  lemma AtOrBeforeIsTotalOrder(a: Instant, b: Instant, c: Instant)
    ensures AtOrBefore(a, a)
    ensures AtOrBefore(a, b) || AtOrBefore(b, a)
    ensures AtOrBefore(a, b) && AtOrBefore(b, a) ==> a == b
    ensures AtOrBefore(a, b) && AtOrBefore(b, c) ==> AtOrBefore(a, c)
  {
  }

  // ---------------------------------------------------------------------
  // Day numbers

  function YearDays(y: int): int {
    if IsLeapYear(y) then 366 else 365
  }

  /** Days from 1 January of year 0 to 1 January of year `y` (negative
      before year 0). */
  function DaysBeforeYear(y: int): int
    decreases if y < 0 then -y else y
  {
    if y == 0 then 0
    else if y > 0 then DaysBeforeYear(y - 1) + YearDays(y - 1)
    else DaysBeforeYear(y + 1) - YearDays(y)
  }

  /** Days from 1 January to the first of `month` in `year`. */
  function DaysBeforeMonth(year: int, month: int): (n: int)
    requires 1 <= month <= 12
    ensures 0 <= n
  {
    if month == 1 then 0 else DaysBeforeMonth(year, month - 1) + DaysInMonth(year, month - 1)
  }

  /** The day's position on a count of days, one apart for consecutive days:
      the reference the `Date` constructor's carrying is measured against. */
  function DayNumber(d: Day): int
    requires 1 <= d.month <= 12
  {
    DaysBeforeYear(d.year) + DaysBeforeMonth(d.year, d.month) + d.day - 1
  }

  /** A year has 366 days exactly when it is a leap year, otherwise 365. */
  lemma {:induction false} YearLength(y: int)
    ensures DaysBeforeYear(y + 1) - DaysBeforeYear(y) == if IsLeapYear(y) then 366 else 365
  {
  }

  /** The twelve months of a year add up to its length. */
  lemma MonthsFillYear(y: int)
    ensures DaysBeforeMonth(y, 12) + DaysInMonth(y, 12) == if IsLeapYear(y) then 366 else 365
  {
    var feb := DaysInMonth(y, 2);
    assert DaysBeforeMonth(y, 1) == 0;
    assert DaysBeforeMonth(y, 2) == 31;
    assert DaysBeforeMonth(y, 3) == 31 + feb;
    assert DaysBeforeMonth(y, 4) == 31 + feb + 31;
    assert DaysBeforeMonth(y, 5) == 31 + feb + 31 + 30;
    assert DaysBeforeMonth(y, 6) == 31 + feb + 31 + 30 + 31;
    assert DaysBeforeMonth(y, 7) == 31 + feb + 31 + 30 + 31 + 30;
    assert DaysBeforeMonth(y, 8) == 31 + feb + 31 + 30 + 31 + 30 + 31;
    assert DaysBeforeMonth(y, 9) == 31 + feb + 31 + 30 + 31 + 30 + 31 + 31;
    assert DaysBeforeMonth(y, 10) == 31 + feb + 31 + 30 + 31 + 30 + 31 + 31 + 30;
    assert DaysBeforeMonth(y, 11) == 31 + feb + 31 + 30 + 31 + 30 + 31 + 31 + 30 + 31;
    assert DaysBeforeMonth(y, 12) == 31 + feb + 31 + 30 + 31 + 30 + 31 + 31 + 30 + 31 + 30;
  }

  /** The first of the following month is the month's length later. */
  lemma {:induction false} NextMonthStart(year: int, month: int)
    requires 1 <= month <= 12
    ensures var ny := if month == 12 then year + 1 else year;
            var nm := if month == 12 then 1 else month + 1;
            DayNumber(Day(ny, nm, 1)) == DayNumber(Day(year, month, 1)) + DaysInMonth(year, month)
  {
    if month == 12 {
      YearLength(year);
      MonthsFillYear(year);
    }
  }

  /** Month starts grow by at least each month's length. */
  lemma {:induction false} MonthStartsIncrease(y: int, m: int, m': int)
    requires 1 <= m < m' <= 12
    ensures DaysBeforeMonth(y, m) + DaysInMonth(y, m) <= DaysBeforeMonth(y, m')
    decreases m'
  {
    if m' > m + 1 {
      MonthStartsIncrease(y, m, m' - 1);
    }
  }

  /** Year starts grow by at least a common year's length. */
  lemma {:induction false} YearStartsIncrease(y: int, y': int)
    requires y < y'
    ensures DaysBeforeYear(y) + 365 <= DaysBeforeYear(y')
    decreases y' - y
  {
    YearLength(y' - 1);
    if y' > y + 1 {
      YearStartsIncrease(y, y' - 1);
    }
  }

  /** A valid day's number lies within its year. */
  lemma DayWithinYear(d: Day)
    requires ValidDay(d)
    ensures DaysBeforeYear(d.year) <= DayNumber(d) < DaysBeforeYear(d.year + 1)
  {
    YearLength(d.year);
    MonthsFillYear(d.year);
    if d.month < 12 {
      MonthStartsIncrease(d.year, d.month, 12);
    }
  }

  /** Later valid days have larger day numbers. */
  lemma DayNumberIncreasing(a: Day, b: Day)
    requires ValidDay(a) && ValidDay(b) && DayBefore(a, b)
    ensures DayNumber(a) < DayNumber(b)
  {
    if a.year < b.year {
      DayWithinYear(a);
      DayWithinYear(b);
      if a.year + 1 < b.year {
        YearStartsIncrease(a.year + 1, b.year);
      }
    } else if a.month < b.month {
      MonthStartsIncrease(a.year, a.month, b.month);
    }
  }

  /** A valid day is determined by its day number. */
  lemma DayNumberInjective(a: Day, b: Day)
    requires ValidDay(a) && ValidDay(b) && DayNumber(a) == DayNumber(b)
    ensures a == b
  {
    if DayBefore(a, b) {
      DayNumberIncreasing(a, b);
    } else if DayBefore(b, a) {
      DayNumberIncreasing(b, a);
    }
  }

  /** Counting `date` days from the previous month's first, shifted by that
      month's length, is counting them from this month's first. */
  lemma CarryBack(year: int, month: int, date: int, r: Day)
    requires 1 <= month <= 12 && 1 <= r.month <= 12
    requires var py := if month == 1 then year - 1 else year;
             var pm := if month == 1 then 12 else month - 1;
             DayNumber(r) == DayNumber(Day(py, pm, 1)) + (date + DaysInMonth(py, pm)) - 1
    ensures DayNumber(r) == DayNumber(Day(year, month, 1)) + date - 1
  {
    var py := if month == 1 then year - 1 else year;
    var pm := if month == 1 then 12 else month - 1;
    NextMonthStart(py, pm);
  }

  /** Counting the surplus from the next month's first is counting `date`
      days from this month's first. */
  lemma CarryForward(year: int, month: int, date: int, r: Day)
    requires 1 <= month <= 12 && 1 <= r.month <= 12
    requires var ny := if month == 12 then year + 1 else year;
             var nm := if month == 12 then 1 else month + 1;
             DayNumber(r) == DayNumber(Day(ny, nm, 1)) + (date - DaysInMonth(year, month)) - 1
    ensures DayNumber(r) == DayNumber(Day(year, month, 1)) + date - 1
  {
    NextMonthStart(year, month);
  }

  // ---------------------------------------------------------------------
  // The JavaScript `Date` constructor

  /** The multi-argument `Date` constructor reads a year of 0..99 as 1900..1999. */
  function ConstructorYear(y: int): (r: int)
    ensures 0 <= y <= 99 ==> r == 1900 + y
    ensures (y < 0 || y > 99) ==> r == y
  {
    if 0 <= y <= 99 then 1900 + y else y
  }

  /** The day `date` of month (`year`, `month`), where `date` may run past
      either end of the month: the surplus is carried into the neighbouring
      months, as the `Date` constructor and `setMonth` do. */
  function CarryDays(year: int, month: int, date: int): (d: Day)
    requires 1 <= month <= 12
    ensures ValidDay(d)
    ensures date < 1 ==> MonthIndex(d.year, d.month) < MonthIndex(year, month)
    ensures date > DaysInMonth(year, month) ==> MonthIndex(d.year, d.month) > MonthIndex(year, month)
    ensures 1 <= date <= DaysInMonth(year, month) ==> d == Day(year, month, date)
    decreases if date < 1 then 1 - date else 0, date
  {
    if date < 1 then
      var py := if month == 1 then year - 1 else year;
      var pm := if month == 1 then 12 else month - 1;
      CarryDays(py, pm, date + DaysInMonth(py, pm))
    else if date > DaysInMonth(year, month) then
      var ny := if month == 12 then year + 1 else year;
      var nm := if month == 12 then 1 else month + 1;
      CarryDays(ny, nm, date - DaysInMonth(year, month))
    else
      Day(year, month, date)
  }

  /** A day number at most 28 past the month's end lands in the next month. */
  lemma CarryOneMonth(year: int, month: int, date: int)
    requires 1 <= month <= 12
    requires DaysInMonth(year, month) < date <= DaysInMonth(year, month) + 28
    ensures var ny := if month == 12 then year + 1 else year;
            var nm := if month == 12 then 1 else month + 1;
            CarryDays(year, month, date) == Day(ny, nm, date - DaysInMonth(year, month))
  {
  }

  /** The carried day is `date - 1` days after the first of the month, on
      the count of days. */
  lemma {:induction false} CarryDaysCounts(year: int, month: int, date: int)
    requires 1 <= month <= 12
    ensures DayNumber(CarryDays(year, month, date)) == DayNumber(Day(year, month, 1)) + date - 1
    decreases if date < 1 then 1 - date else 0, date
  {
    if date < 1 {
      var py := if month == 1 then year - 1 else year;
      var pm := if month == 1 then 12 else month - 1;
      CarryDaysCounts(py, pm, date + DaysInMonth(py, pm));
      CarryBack(year, month, date, CarryDays(year, month, date));
    } else if date > DaysInMonth(year, month) {
      var ny := if month == 12 then year + 1 else year;
      var nm := if month == 12 then 1 else month + 1;
      CarryDaysCounts(ny, nm, date - DaysInMonth(year, month));
      CarryForward(year, month, date, CarryDays(year, month, date));
    }
  }

  /** `CarryDays` is the `Date` constructor's carry, exactly: the day it
      gives is the one valid day that lies `date - 1` days after the first
      of the month. */
  lemma CarryDaysExact(year: int, month: int, date: int, e: Day)
    requires 1 <= month <= 12
    ensures CarryDays(year, month, date) == e
            <==> ValidDay(e) && DayNumber(e) == DayNumber(Day(year, month, 1)) + date - 1
  {
    CarryDaysCounts(year, month, date);
    if ValidDay(e) && DayNumber(e) == DayNumber(Day(year, month, 1)) + date - 1 {
      DayNumberInjective(CarryDays(year, month, date), e);
    }
  }

  /** The day of `new Date(year, monthIndex, date)` (year already adjusted by
      `ConstructorYear`): the 0-based month index is carried into the year
      with floor division, then the day into the neighbouring months. */
  function MakeDay(year: int, monthIndex: int, date: int): (d: Day)
    ensures ValidDay(d)
  {
    CarryDays(year + monthIndex / 12, monthIndex % 12 + 1, date)
  }

  /** `new Date(year, monthIndex, date)` is exactly the valid day `date - 1`
      days after the first of the month with that index, however far
      `monthIndex` and `date` run out of range. */
  lemma MakeDayExact(year: int, monthIndex: int, date: int, first: Day, e: Day)
    requires first.day == 1 && 1 <= first.month <= 12
    requires MonthIndex(first.year, first.month) == year * 12 + monthIndex
    ensures MakeDay(year, monthIndex, date) == e
            <==> ValidDay(e) && DayNumber(e) == DayNumber(first) + date - 1
  {
    assert first == Day(year + monthIndex / 12, monthIndex % 12 + 1, 1);
    CarryDaysExact(year + monthIndex / 12, monthIndex % 12 + 1, date, e);
  }

  /** Day 1 of any month index is the first day of that month. */
  lemma MakeDayFirst(year: int, monthIndex: int)
    ensures MakeDay(year, monthIndex, 1).day == 1
    ensures MonthIndex(MakeDay(year, monthIndex, 1).year, MakeDay(year, monthIndex, 1).month)
            == year * 12 + monthIndex
  {
  }

  /** Day 0 of a month is the last day of the month before it, whatever
      its length (leap-year February included). */
  lemma MakeDayZero(year: int, monthIndex: int)
    ensures var d := MakeDay(year, monthIndex, 0);
      && MonthIndex(d.year, d.month) == year * 12 + monthIndex - 1
      && d.day == DaysInMonth(d.year, d.month)
  {
  }

  /** For valid instants, being on or after the first instant of a month is
      being in that month or a later one. */
  lemma OnOrAfterMonthStart(t: Time, first: Day)
    requires first.day == 1 && 1 <= first.month <= 12
    ensures AtOrBefore(Instant(first, 0), t)
            <==> MonthIndex(t.day.year, t.day.month) >= MonthIndex(first.year, first.month)
  {
  }

  /** For valid instants, being on or before the last instant of a month is
      being in that month or an earlier one. */
  lemma OnOrBeforeMonthEnd(t: Time, last: Day)
    requires ValidDay(last) && last.day == DaysInMonth(last.year, last.month)
    ensures AtOrBefore(t, Instant(last, EndOfDayMs))
            <==> MonthIndex(t.day.year, t.day.month) <= MonthIndex(last.year, last.month)
  {
  }

  /** A one-day range [day 00:00:00.000, day 23:59:59.999] holds exactly the
      instants of that day. */
  lemma WholeDayRange(t: Time, d: Day)
    ensures AtOrBefore(Instant(d, 0), t) && AtOrBefore(t, Instant(d, EndOfDayMs)) <==> t.day == d
  {
  }

  // ---------------------------------------------------------------------
  // `YYYY-MM-DD`

  /** A day whose year `toISOString` writes with four digits. */
  predicate IsoWritable(d: Day) {
    ValidDay(d) && 0 <= d.year <= 9999
  }

  /** `date.toISOString().split('T')[0]`: the `YYYY-MM-DD` spelling of a day. */
  function FormatIsoDay(d: Day): (s: string)
    requires IsoWritable(d)
    ensures |s| == 10 && s[4] == '-' && s[7] == '-'
  {
    FixedDigits(d.year, 4) + "-" + FixedDigits(d.month, 2) + "-" + FixedDigits(d.day, 2)
  }

  /** Reads a `YYYY-MM-DD` string as the day it names; `None` for anything
      else, including a month or day outside the calendar. */
  function ParseIsoDay(s: string): (r: Option<Day>)
    ensures r.Some? ==> IsoWritable(r.value)
  {
    if |s| == 10 && s[4] == '-' && s[7] == '-'
       && AllDigits(s[..4]) && AllDigits(s[5..7]) && AllDigits(s[8..])
    then
      var d := Day(DigitsToNat(s[..4]), DigitsToNat(s[5..7]), DigitsToNat(s[8..]));
      if ValidDay(d) then Some(d) else None
    else
      None
  }

  /** Formatting then parsing a day gives the day back. */
  lemma FormatThenParseIsoDay(d: Day)
    requires IsoWritable(d)
    ensures ParseIsoDay(FormatIsoDay(d)) == Some(d)
  {
    var y, m, dd := FixedDigits(d.year, 4), FixedDigits(d.month, 2), FixedDigits(d.day, 2);
    var s := FormatIsoDay(d);
    assert s[..4] == y && s[5..7] == m && s[8..] == dd;
    FixedDigitsRoundTrip(d.year, 4);
    FixedDigitsRoundTrip(d.month, 2);
    FixedDigitsRoundTrip(d.day, 2);
  }

  /** A string that parses is the canonical spelling of the day it names. */
  lemma ParseThenFormatIsoDay(s: string)
    requires ParseIsoDay(s).Some?
    ensures FormatIsoDay(ParseIsoDay(s).value) == s
  {
    DigitsRoundTrip(s[..4]);
    DigitsRoundTrip(s[5..7]);
    DigitsRoundTrip(s[8..]);
    assert s == s[..4] + "-" + s[5..7] + "-" + s[8..];
  }
}
