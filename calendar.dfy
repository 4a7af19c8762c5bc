/**
  The calendar date of a forecast day and its day of week. The widget reads
  the weekday of each forecast date "YYYY-MM-DD" (`new Date(...).getDay()`,
  src/main.ts:224-225); this module gives that date's proleptic Gregorian
  weekday, and separately what the host's local-time `getDay` yields for it.
*/
module Calendar {
  import opened Wrappers
  import opened Decimal

  datatype Date = Date(year: nat, month: nat, day: nat)

  predicate IsLeapYear(y: int)
  {
    y % 4 == 0 && (y % 100 != 0 || y % 400 == 0)
  }

  function DaysInMonth(y: int, m: nat): nat
    requires 1 <= m <= 12
  {
    if m == 2 then (if IsLeapYear(y) then 29 else 28)
    else if m == 4 || m == 6 || m == 9 || m == 11 then 30
    else 31
  }

  predicate ValidDate(d: Date)
  {
    1 <= d.month <= 12 && 1 <= d.day <= DaysInMonth(d.year, d.month)
  }

  /** The "YYYY-MM-DD" text of a date with a four-digit year. */
  function FormatIsoDate(d: Date): (s: string)
    requires d.year < 10000
    ensures |s| == 10
  {
    FixedDigits(d.year, 4) + "-" + FixedDigits(d.month, 2) + "-" + FixedDigits(d.day, 2)
  }

  /**
    The date-only form "YYYY-MM-DD"; None (an Invalid Date) for any other
    text or for a month or day outside the calendar.
  */
  function ParseIsoDate(s: string): (r: Option<Date>)
    ensures r.Some? ==> ValidDate(r.value) && r.value.year < 10000
  {
    if |s| == 10 && s[4] == '-' && s[7] == '-'
       && AllDigits(s[..4]) && AllDigits(s[5..7]) && AllDigits(s[8..])
    then
      var d := Date(DigitsValue(s[..4]), DigitsValue(s[5..7]), DigitsValue(s[8..]));
      DigitsValueBound(s[..4]);
      if ValidDate(d) then Some(d) else None
    else
      None
  }

  /** A text that parses as a date is exactly that date's "YYYY-MM-DD" form. */
  lemma ParseThenFormat(s: string)
    requires ParseIsoDate(s).Some?
    ensures FormatIsoDate(ParseIsoDate(s).value) == s
  {
    DigitsAreFixed(s[..4]);
    DigitsAreFixed(s[5..7]);
    DigitsAreFixed(s[8..]);
    assert s == s[..4] + "-" + s[5..7] + "-" + s[8..];
  }

  /** Every valid date with a four-digit year is read back from its own text. */
  lemma FormatThenParse(d: Date)
    requires ValidDate(d) && d.year < 10000
    ensures ParseIsoDate(FormatIsoDate(d)) == Some(d)
  {
    var s := FormatIsoDate(d);
    assert s[..4] == FixedDigits(d.year, 4);
    assert s[5..7] == FixedDigits(d.month, 2);
    assert s[8..] == FixedDigits(d.day, 2);
    FixedDigitsRoundTrip(d.year, 4);
    FixedDigitsRoundTrip(d.month, 2);
    FixedDigitsRoundTrip(d.day, 2);
  }

  /** The day after d. */
  function NextDay(d: Date): (e: Date)
    requires ValidDate(d)
    ensures ValidDate(e)
  {
    if d.day < DaysInMonth(d.year, d.month) then Date(d.year, d.month, d.day + 1)
    else if d.month < 12 then Date(d.year, d.month + 1, 1)
    else Date(d.year + 1, 1, 1)
  }

  /** Days in the first yoe years of a 400-year era (years counted from March). */
  function EraYearDays(yoe: int): int
  {
    yoe * 365 + yoe / 4 - yoe / 100
  }

  /** Days from 0000-03-01 to the first of March of year y, for any y. */
  function DaysBeforeMarchYear(y: int): int
  {
    (y / 400) * 146097 + EraYearDays(y % 400)
  }

  /** Months counted from March: March is 0, February is 11. */
  function MarchMonth(m: nat): nat
  {
    if m > 2 then m - 3 else m + 9
  }

  /** January and February belong to the March-based year that began the year before. */
  function MarchYear(d: Date): int
  {
    d.year - (if d.month <= 2 then 1 else 0)
  }

  /** Days from the first of March to the first of the mp-th month after it. */
  function DaysBeforeMonth(mp: nat): nat
  {
    (153 * mp + 2) / 5
  }

  /** Days from 1970-01-01 to d, counting years from March so that leap days come last. */
  function DayNumber(d: Date): int
    requires ValidDate(d)
  {
    DaysBeforeMarchYear(MarchYear(d)) + DaysBeforeMonth(MarchMonth(d.month)) + d.day - 1 - 719468
  }

  lemma EpochIsDayZero()
    ensures DayNumber(Date(1970, 1, 1)) == 0
  {
  }

  /** Every month but February steps the month offset by its own length. */
  lemma MonthOffsetStep(y: int, m: nat)
    requires 1 <= m <= 12 && m != 2
    ensures DaysBeforeMonth(MarchMonth(m) + 1) == DaysBeforeMonth(MarchMonth(m)) + DaysInMonth(y, m)
  {
  }

  /** Within one March-to-February year the day count advances by one per day. */
  lemma DayNumberNextSameYear(d: Date)
    requires ValidDate(d) && !(d.month == 2 && d.day == DaysInMonth(d.year, 2))
    ensures DayNumber(NextDay(d)) == DayNumber(d) + 1
  {
    var e := NextDay(d);
    if d.day == DaysInMonth(d.year, d.month) {
      assert MarchYear(e) == MarchYear(d);
      assert MarchMonth(e.month) == MarchMonth(d.month) + 1;
      MonthOffsetStep(d.year, d.month);
    }
  }

  /** Inside an era, one more year adds 365 days and one more for a leap year. */
  lemma EraYearDaysNext(k: int)
    requires 0 <= k < 399
    ensures EraYearDays(k + 1) == EraYearDays(k) + 365
      + (if (k + 1) % 4 == 0 && (k + 1) % 100 != 0 then 1 else 0)
  {
    assert (k + 1) / 4 == k / 4 + (if (k + 1) % 4 == 0 then 1 else 0);
    assert (k + 1) / 100 == k / 100 + (if (k + 1) % 100 == 0 then 1 else 0);
    assert (k + 1) % 100 == 0 ==> (k + 1) % 4 == 0;
  }

  lemma EraStep(p: int)
    ensures p % 400 == 399 ==> (p + 1) / 400 == p / 400 + 1 && (p + 1) % 400 == 0
    ensures p % 400 != 399 ==> (p + 1) / 400 == p / 400 && (p + 1) % 400 == p % 400 + 1
  {
  }

  lemma LeapWithinEra(y: int)
    ensures y % 400 != 0 ==> (IsLeapYear(y) <==> (y % 400) % 4 == 0 && (y % 400) % 100 != 0)
  {
    var e, k := y / 400, y % 400;
    ModOfEraYear(e, k);
    assert y == e * 400 + k;
  }

  lemma ModOfEraYear(e: int, k: int)
    requires 0 <= k < 400
    ensures (e * 400 + k) % 4 == k % 4 && (e * 400 + k) % 100 == k % 100
  {
    var a := e * 400 + k;
    assert a == (e * 100 + k / 4) * 4 + k % 4;
    assert a == (e * 4 + k / 100) * 100 + k % 100;
  }

  /** A March-based year y - 1 .. y has 366 days exactly when y is a leap year. */
  lemma DaysBeforeMarchYearNext(y: int)
    ensures DaysBeforeMarchYear(y) == DaysBeforeMarchYear(y - 1) + 365 + (if IsLeapYear(y) then 1 else 0)
  {
    EraStep(y - 1);
    if (y - 1) % 400 == 399 {
      NewEra(y);
    } else {
      SameEra(y);
    }
  }

  lemma NewEra(y: int)
    requires (y - 1) % 400 == 399 && y / 400 == (y - 1) / 400 + 1 && y % 400 == 0
    ensures DaysBeforeMarchYear(y) == DaysBeforeMarchYear(y - 1) + 366
    ensures IsLeapYear(y)
  {
    var e := (y - 1) / 400;
    assert DaysBeforeMarchYear(y) == (e + 1) * 146097 + EraYearDays(0);
    assert DaysBeforeMarchYear(y - 1) == e * 146097 + EraYearDays(399);
    EraBoundary(e);
    assert y == (e + 1) * 400;
    ModOfEraYear(e + 1, 0);
  }

  lemma SameEra(y: int)
    requires (y - 1) % 400 != 399 && y / 400 == (y - 1) / 400 && y % 400 == (y - 1) % 400 + 1
    ensures DaysBeforeMarchYear(y) == DaysBeforeMarchYear(y - 1) + 365 + (if IsLeapYear(y) then 1 else 0)
  {
    EraYearDaysNext((y - 1) % 400);
    LeapWithinEra(y);
  }

  lemma EraBoundary(e: int)
    ensures (e + 1) * 146097 + EraYearDays(0) == e * 146097 + EraYearDays(399) + 366
  {
  }

  /** From the last day of February to the first of March, across a leap day or not. */
  lemma DayNumberIntoMarch(y: nat)
    ensures DayNumber(Date(y, 3, 1)) == DayNumber(Date(y, 2, DaysInMonth(y, 2))) + 1
  {
    var feb := Date(y, 2, DaysInMonth(y, 2));
    assert DaysBeforeMonth(11) == 337 && DaysBeforeMonth(0) == 0;
    assert DayNumber(feb) == DaysBeforeMarchYear(y - 1) + 337 + DaysInMonth(y, 2) - 1 - 719468;
    assert DayNumber(Date(y, 3, 1)) == DaysBeforeMarchYear(y) - 719468;
    DaysBeforeMarchYearNext(y);
  }

  /** DayNumber counts consecutive days: the next date is always one day later. */
  lemma DayNumberNext(d: Date)
    requires ValidDate(d)
    ensures DayNumber(NextDay(d)) == DayNumber(d) + 1
  {
    if d.month == 2 && d.day == DaysInMonth(d.year, 2) {
      assert NextDay(d) == Date(d.year, 3, 1);
      DayNumberIntoMarch(d.year);
    } else {
      DayNumberNextSameYear(d);
    }
  }

  /** Day of week of a calendar date, 0 = Sunday; 1970-01-01 was a Thursday. */
  function Weekday(d: Date): (w: nat)
    requires ValidDate(d)
    ensures w < 7
  {
    (DayNumber(d) + 4) % 7
  }

  /** The weekday moves on by one, modulo seven, from each date to the next. */
  lemma WeekdayNext(d: Date)
    requires ValidDate(d)
    ensures Weekday(NextDay(d)) == (Weekday(d) + 1) % 7
  {
    DayNumberNext(d);
    WeekdayStep(DayNumber(d));
  }

  lemma WeekdayStep(n: int)
    ensures (n + 1 + 4) % 7 == ((n + 4) % 7 + 1) % 7
  {
  }

  const MsPerMinute := 60000
  const MsPerDay := 86400000

  /**
    What `new Date("YYYY-MM-DD").getDay()` yields on a host whose local time
    is `offsetMinutes` ahead of UTC: the date-only form is read as UTC
    midnight, and `getDay` takes the weekday of that instant in local time.
  */
  function LocalWeekdayAsWritten(d: Date, offsetMinutes: int): (w: nat)
    requires ValidDate(d)
    ensures w < 7
  {
    var utcMs := DayNumber(d) * MsPerDay;
    var localDay := (utcMs + offsetMinutes * MsPerMinute) / MsPerDay;
    (localDay + 4) % 7
  }

  /** An instant r milliseconds into day n lies on day n. */
  lemma FloorDivDay(n: int, r: int)
    requires 0 <= r < MsPerDay
    ensures (n * MsPerDay + r) / MsPerDay == n
  {
  }

  /** East of UTC (or on it) local midnight falls on the same date: the weekday is right. */
  lemma LocalWeekdayEastOfUtc(d: Date, offsetMinutes: int)
    requires ValidDate(d) && 0 <= offsetMinutes < 1440
    ensures LocalWeekdayAsWritten(d, offsetMinutes) == Weekday(d)
  {
    FloorDivDay(DayNumber(d), offsetMinutes * MsPerMinute);
  }

  /** West of UTC the instant is still the previous local day: the weekday is one too early. */
  lemma LocalWeekdayWestOfUtc(d: Date, offsetMinutes: int)
    requires ValidDate(d) && -1440 < offsetMinutes < 0
    ensures LocalWeekdayAsWritten(d, offsetMinutes) == (Weekday(d) + 6) % 7
    ensures LocalWeekdayAsWritten(d, offsetMinutes) != Weekday(d)
  {
    var n := DayNumber(d);
    var r := offsetMinutes * MsPerMinute + MsPerDay;
    assert n * MsPerDay + offsetMinutes * MsPerMinute == (n - 1) * MsPerDay + r;
    FloorDivDay(n - 1, r);
    WeekdayBack(n);
  }

  lemma WeekdayBack(n: int)
    ensures (n - 1 + 4) % 7 == ((n + 4) % 7 + 6) % 7
    ensures (n - 1 + 4) % 7 != (n + 4) % 7
  {
  }
}
