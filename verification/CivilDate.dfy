/**
 The date that the command line prints for a telemetry timestamp. The arithmetic works on years
 that begin in March and on eras of 400 years; it is proved against a calendar that counts days
 year by year and month by month.
 */
module CivilDate {
  import opened Domain

  const I64_MAX := 0x7fff_ffff_ffff_ffff
  const MILLIS_PER_DAY := 86_400_000

  datatype Date = Date(year: int, month: int, day: int)

  datatype DateTime = DateTime(date: Date, hour: nat, minute: nat, second: nat, millisecond: nat)

  // ---- The calendar ---------------------------------------------------------------------------------

  predicate Leap(year: int) {
    year % 4 == 0 && (year % 100 != 0 || year % 400 == 0)
  }

  function MonthLength(year: int, month: int): nat {
    if month == 2 then (if Leap(year) then 29 else 28)
    else if month == 4 || month == 6 || month == 9 || month == 11 then 30
    else 31
  }

  predicate ValidDate(d: Date) {
    d.year >= 1970 && 1 <= d.month <= 12 && 1 <= d.day <= MonthLength(d.year, d.month)
  }

  /** Days from 1970-01-01 to the first day of a year. */
  function DaysBeforeYear(year: int): nat
    requires year >= 1970
    decreases year
  {
    if year == 1970 then 0 else DaysBeforeYear(year - 1) + if Leap(year - 1) then 366 else 365
  }

  /** Days from the first day of a year to the first day of a month. */
  function DaysBeforeMonth(year: int, month: int): nat
    requires 1 <= month <= 12
    decreases month
  {
    if month == 1 then 0 else DaysBeforeMonth(year, month - 1) + MonthLength(year, month - 1)
  }

  function DayCount(d: Date): nat
    requires ValidDate(d)
  {
    DaysBeforeYear(d.year) + DaysBeforeMonth(d.year, d.month) + d.day - 1
  }

  // ---- The conversion -------------------------------------------------------------------------------

  /** Days before the year that begins in March, counted within its era. */
  function DaysBeforeYearOfEra(yearOfEra: int): int {
    365 * yearOfEra + yearOfEra / 4 - yearOfEra / 100
  }

  function YearOfEra(dayOfEra: int): int {
    (dayOfEra - dayOfEra / 1_460 + dayOfEra / 36_524 - dayOfEra / 146_096) / 365
  }

  /** The date of a day of a year that begins in March. */
  function DateInYear(year: int, dayOfYear: int): Date {
    var monthPrime := (5 * dayOfYear + 2) / 153;
    var day := dayOfYear - (153 * monthPrime + 2) / 5 + 1;
    var month := monthPrime + if monthPrime < 10 then 3 else -9;
    Date(year + (if month <= 2 then 1 else 0), month, day)
  }

  function DateOf(days: nat): Date {
    var shiftedDays := Min(days + 719_468, I64_MAX);
    var era := shiftedDays / 146_097;
    var dayOfEra := shiftedDays - era * 146_097;
    var yearOfEra := YearOfEra(dayOfEra);
    DateInYear(yearOfEra + era * 400, dayOfEra - DaysBeforeYearOfEra(yearOfEra))
  }

  function FromUnixMillis(timestamp: nat): DateTime {
    var seconds := timestamp / 1_000;
    var secondsOfDay := seconds % 86_400;
    DateTime(DateOf(Min(seconds / 86_400, I64_MAX)), secondsOfDay / 3_600, secondsOfDay % 3_600 / 60, secondsOfDay % 60,
             timestamp % 1_000)
  }

  // ---- Years ----------------------------------------------------------------------------------------

  /** Leap days up to and including a year. */
  function LeapDays(year: int): int {
    year / 4 - year / 100 + year / 400
  }

  lemma LeapDaysStep(year: int)
    ensures LeapDays(year) == LeapDays(year - 1) + if Leap(year) then 1 else 0
  {
    var fours, hundreds, eras := year / 4, year / 100, year / 400;
    assert (year - 1) / 4 == if year % 4 == 0 then fours - 1 else fours;
    assert (year - 1) / 100 == if year % 100 == 0 then hundreds - 1 else hundreds;
    assert (year - 1) / 400 == if year % 400 == 0 then eras - 1 else eras;
    CenturiesAreMultiples(year);
  }

  lemma CenturiesAreMultiples(year: int)
    ensures year % 400 == 0 ==> year % 100 == 0
    ensures year % 100 == 0 ==> year % 4 == 0
  {
    if year % 400 == 0 {
      MultipleOf(100, 4 * (year / 400));
    }
    if year % 100 == 0 {
      MultipleOf(4, 25 * (year / 100));
    }
  }

  lemma MultipleOf(n: int, k: int)
    requires n == 4 || n == 100
    ensures n * k % n == 0
  {
    if n == 4 {
      assert 4 * k / 4 == k;
    } else {
      assert 100 * k / 100 == k;
    }
  }

  lemma {:induction false} DaysBeforeYearIs(year: int)
    requires year >= 1970
    ensures DaysBeforeYear(year) == 365 * (year - 1970) + LeapDays(year - 1) - LeapDays(1969)
    decreases year
  {
    if year > 1970 {
      DaysBeforeYearIs(year - 1);
      LeapDaysStep(year - 1);
    }
  }

  /** A day of an era lies in the computed year of the era, whose length depends on the leap rule. */
  lemma YearOfEraIsRight(dayOfEra: int)
    requires 0 <= dayOfEra < 146_097
    ensures 0 <= YearOfEra(dayOfEra) < 400
    ensures var year := YearOfEra(dayOfEra);
      DaysBeforeYearOfEra(year) <= dayOfEra <= DaysBeforeYearOfEra(year) + (if Leap(year + 1) then 365 else 364)
  {
    hide Leap, YearOfEra, DaysBeforeYearOfEra;
    var century, group, r, d := Decomposed(dayOfEra);
    YearFormula(century, group, r, d);
    DaysBeforeParts(century, group, r);
    LeapYearOfEra(century, group, r);
  }

  /** Century, four-year group, year and day, each taken as far as it goes. */
  lemma Decomposed(dayOfEra: int) returns (century: int, group: int, r: int, d: int)
    requires 0 <= dayOfEra < 146_097
    ensures dayOfEra == 36_524 * century + 1_461 * group + 365 * r + d
    ensures 0 <= century <= 3 && 0 <= group <= 24 && 0 <= r <= 3
    ensures 0 <= d <= 365 && (d == 365 ==> r == 3 && (group != 24 || century == 3))
  {
    century := Min(dayOfEra / 36_524, 3);
    var inCentury := dayOfEra - 36_524 * century;
    group := Min(inCentury / 1_461, 24);
    var inGroup := inCentury - 1_461 * group;
    r := Min(inGroup / 365, 3);
    d := inGroup - 365 * r;
  }

  lemma DaysBeforeParts(century: int, group: int, r: int)
    requires 0 <= century <= 3 && 0 <= group <= 24 && 0 <= r <= 3
    ensures DaysBeforeYearOfEra(100 * century + 4 * group + r) == 36_524 * century + 1_461 * group + 365 * r
  {
    var year := 100 * century + 4 * group + r;
    assert year / 100 == century;
    assert year / 4 == 25 * century + group;
  }

  /** The calendar year that ends a year of an era. */
  lemma LeapYearOfEra(century: int, group: int, r: int)
    requires 0 <= century <= 3 && 0 <= group <= 24 && 0 <= r <= 3
    ensures Leap(100 * century + 4 * group + r + 1) <==> r == 3 && (group != 24 || century == 3)
  {
    var next := 100 * century + 4 * group + r + 1;
    assert next == 4 * (25 * century + group) + (r + 1);
    assert next % 4 == 0 <==> r == 3;
    if r == 3 {
      assert next == 100 * century + 4 * (group + 1);
      assert next % 100 == 0 <==> group == 24;
    }
  }

  lemma YearFormula(century: int, group: int, r: int, d: int)
    requires 0 <= century <= 3 && 0 <= group <= 24 && 0 <= r <= 3
    requires 0 <= d <= 365 && (d == 365 ==> r == 3 && (group != 24 || century == 3))
    ensures YearOfEra(36_524 * century + 1_461 * group + 365 * r + d) == 100 * century + 4 * group + r
  {
    var dayOfEra := 36_524 * century + 1_461 * group + 365 * r + d;
    var rest := 24 * century + group + 365 * r + d;
    var extra := if rest >= 1_460 then 1 else 0;
    assert dayOfEra == 1_460 * (25 * century + group) + rest;
    assert dayOfEra / 1_460 == 25 * century + group + extra;
    var last := if dayOfEra == 146_096 then 1 else 0;
    assert dayOfEra / 146_096 == last;
    assert dayOfEra / 36_524 == century + last;
    assert dayOfEra - dayOfEra / 1_460 + dayOfEra / 36_524 - dayOfEra / 146_096
        == 365 * (100 * century + 4 * group + r) + (d - extra);
  }

  // ---- Months ---------------------------------------------------------------------------------------

  /** The first day, from March 1, of the `monthPrime`th month after March. */
  function DaysBeforeMonthPrime(monthPrime: int): int {
    (153 * monthPrime + 2) / 5
  }

  lemma MonthOffsets(year: int)
    ensures DaysBeforeMonth(year, 3) == if Leap(year) then 60 else 59
    ensures forall m :: 3 <= m <= 12 ==>
      DaysBeforeMonth(year, m) == DaysBeforeMonth(year, 3) + DaysBeforeMonthPrime(m - 3)
    ensures forall m :: 1 <= m <= 2 ==> DaysBeforeMonth(year, m) == DaysBeforeMonthPrime(m + 9) - 306
  {
    assert DaysBeforeMonth(year, 1) == 0 && DaysBeforeMonth(year, 2) == 31;
    forall m | 3 <= m <= 12
      ensures DaysBeforeMonth(year, m) == DaysBeforeMonth(year, 3) + DaysBeforeMonthPrime(m - 3)
    {
      MonthOffset(year, m);
    }
  }

  lemma {:induction false} MonthOffset(year: int, month: int)
    requires 3 <= month <= 12
    ensures DaysBeforeMonth(year, month) == DaysBeforeMonth(year, 3) + DaysBeforeMonthPrime(month - 3)
    decreases month
  {
    if month > 3 {
      MonthOffset(year, month - 1);
    }
  }

  /** A day of a year that begins in March falls in the computed month, within that month's length. */
  lemma MonthIsRight(dayOfYear: int, nextLeap: bool)
    requires 0 <= dayOfYear <= if nextLeap then 365 else 364
    ensures var monthPrime := (5 * dayOfYear + 2) / 153;
      && 0 <= monthPrime <= 11
      && DaysBeforeMonthPrime(monthPrime) <= dayOfYear
      && dayOfYear < if monthPrime == 11 then (if nextLeap then 366 else 365) else DaysBeforeMonthPrime(monthPrime + 1)
  {
  }

  // ---- Main results ---------------------------------------------------------------------------------

  /** Every day count is converted to a valid date with exactly that day count. */
  lemma DateOfIsRight(days: nat)
    requires days + 719_468 <= I64_MAX
    ensures ValidDate(DateOf(days)) && DayCount(DateOf(days)) == days
  {
    hide Leap, LeapDays, YearOfEra, DaysBeforeYearOfEra, DateInYear, DayCount, ValidDate;
    var shiftedDays := days + 719_468;
    var era := shiftedDays / 146_097;
    var dayOfEra := shiftedDays - era * 146_097;
    YearOfEraIsRight(dayOfEra);
    var yearOfEra := YearOfEra(dayOfEra);
    MarchOfYear(era, yearOfEra);
    var year, dayOfYear := yearOfEra + era * 400, dayOfEra - DaysBeforeYearOfEra(yearOfEra);
    assert 365 * year + LeapDays(year) + dayOfYear == shiftedDays;
    DateInYearIsRight(year, dayOfYear);
    assert DateOf(days) == DateInYear(year, dayOfYear);
  }

  lemma SinceMarch1969(year: int, dayOfYear: int)
    requires 0 <= dayOfYear <= 365 && 365 * year + LeapDays(year) + dayOfYear >= 719_468
    ensures year >= 1969 && (year == 1969 ==> dayOfYear >= 306)
  {
  }

  lemma LengthOfMonth(year: int, monthPrime: int)
    requires 0 <= monthPrime <= 11
    ensures
      var length := DaysBeforeMonthPrime(monthPrime + 1) - DaysBeforeMonthPrime(monthPrime);
      && (monthPrime < 10 ==> MonthLength(year, monthPrime + 3) == length)
      && (monthPrime == 10 ==> MonthLength(year + 1, 1) == length)
    ensures monthPrime == 11 ==>
      MonthLength(year + 1, 2) == (if Leap(year + 1) then 366 else 365) - DaysBeforeMonthPrime(11)
  {
    hide Leap;
  }

  /** The day that lies `dayOfYear` days after the first of March, in a month that contains it. */
  function DateInMonth(year: int, dayOfYear: int, monthPrime: int): Date {
    var day := dayOfYear - DaysBeforeMonthPrime(monthPrime) + 1;
    if monthPrime < 10 then Date(year, monthPrime + 3, day) else Date(year + 1, monthPrime - 9, day)
  }

  lemma DateInMonthIsRight(year: int, dayOfYear: int, monthPrime: int)
    requires year >= 1969 && (year == 1969 ==> monthPrime >= 10) && 0 <= monthPrime <= 11
    requires DaysBeforeMonthPrime(monthPrime) <= dayOfYear
    requires dayOfYear < if monthPrime == 11 then (if Leap(year + 1) then 366 else 365)
                         else DaysBeforeMonthPrime(monthPrime + 1)
    ensures var d := DateInMonth(year, dayOfYear, monthPrime);
      ValidDate(d) && DayCount(d) == 365 * year + LeapDays(year) + dayOfYear - 719_468
  {
    assert LeapDays(1969) == 477 && DaysBeforeMonthPrime(0) == 0;
    hide Leap, LeapDays, MonthLength, DaysBeforeMonth, DaysBeforeYear, DaysBeforeMonthPrime;
    LengthOfMonth(year, monthPrime);
    if monthPrime < 10 {
      MonthOffsets(year);
      DaysBeforeYearIs(year);
      LeapDaysStep(year);
    } else {
      MonthOffsets(year + 1);
      DaysBeforeYearIs(year + 1);
    }
  }

  lemma DateInYearIsRight(year: int, dayOfYear: int)
    requires 0 <= dayOfYear <= if Leap(year + 1) then 365 else 364
    requires 365 * year + LeapDays(year) + dayOfYear >= 719_468
    ensures var d := DateInYear(year, dayOfYear);
      ValidDate(d) && DayCount(d) == 365 * year + LeapDays(year) + dayOfYear - 719_468
  {
    hide Leap, LeapDays, ValidDate, DayCount;
    MonthIsRight(dayOfYear, Leap(year + 1));
    SinceMarch1969(year, dayOfYear);
    DateInMonthIsRight(year, dayOfYear, (5 * dayOfYear + 2) / 153);
  }

  /** Whole eras change no remainder, and each quotient by its own. */
  lemma ErasDrop(era: int, year: int)
    ensures (year + era * 400) / 4 == 100 * era + year / 4 && (year + era * 400) % 4 == year % 4
    ensures (year + era * 400) / 100 == 4 * era + year / 100 && (year + era * 400) % 100 == year % 100
    ensures (year + era * 400) / 400 == era + year / 400 && (year + era * 400) % 400 == year % 400
  {
  }

  /** The eras' day counts add up to the leap rule. */
  lemma MarchOfYear(era: int, yearOfEra: int)
    requires 0 <= yearOfEra < 400
    ensures var year := yearOfEra + era * 400;
      && 146_097 * era + DaysBeforeYearOfEra(yearOfEra) == 365 * year + LeapDays(year)
      && Leap(year + 1) == Leap(yearOfEra + 1)
  {
    ErasDrop(era, yearOfEra);
    ErasDrop(era, yearOfEra + 1);
  }

  /** The calendar's order on dates. */
  predicate Earlier(a: Date, b: Date) {
    a.year < b.year || (a.year == b.year && (a.month < b.month || (a.month == b.month && a.day < b.day)))
  }

  lemma {:induction false} YearsAscend(year: int, later: int)
    requires 1970 <= year < later
    ensures DaysBeforeYear(year) + (if Leap(year) then 366 else 365) <= DaysBeforeYear(later)
    decreases later
  {
    if year + 1 < later {
      YearsAscend(year, later - 1);
    }
  }

  lemma {:induction false} MonthsAscend(year: int, month: int, later: int)
    requires 1 <= month < later <= 12
    ensures DaysBeforeMonth(year, month) + MonthLength(year, month) <= DaysBeforeMonth(year, later)
    decreases later
  {
    if month + 1 < later {
      MonthsAscend(year, month, later - 1);
    }
  }

  /** Day counts tell dates apart and keep their order. */
  lemma DayCountAscends(a: Date, b: Date)
    requires ValidDate(a) && ValidDate(b) && Earlier(a, b)
    ensures DayCount(a) < DayCount(b)
  {
    if a.year < b.year {
      YearsAscend(a.year, b.year);
      MonthOffsets(a.year);
      if a.month < 12 {
        MonthsAscend(a.year, a.month, 12);
      }
      assert DaysBeforeMonth(a.year, 12) + 31 == if Leap(a.year) then 366 else 365;
    } else if a.month < b.month {
      MonthsAscend(a.year, a.month, b.month);
    }
  }

  /** Converting a date's day count gives the date back. */
  lemma DateRoundTrip(d: Date)
    requires ValidDate(d) && DayCount(d) + 719_468 <= I64_MAX
    ensures DateOf(DayCount(d)) == d
  {
    var e := DateOf(DayCount(d));
    DateOfIsRight(DayCount(d));
    if Earlier(d, e) {
      DayCountAscends(d, e);
    } else if Earlier(e, d) {
      DayCountAscends(e, d);
    }
  }

  predicate ValidDateTime(t: DateTime) {
    ValidDate(t.date) && t.hour < 24 && t.minute < 60 && t.second < 60 && t.millisecond < 1_000
  }

  function UnixMillis(t: DateTime): nat
    requires ValidDateTime(t)
  {
    (((DayCount(t.date) * 24 + t.hour) * 60 + t.minute) * 60 + t.second) * 1_000 + t.millisecond
  }

  /** Every 64-bit timestamp is printed as a valid moment, which is exactly that timestamp. */
  lemma FromUnixMillisIsRight(timestamp: nat)
    requires timestamp <= U64_MAX
    ensures ValidDateTime(FromUnixMillis(timestamp)) && UnixMillis(FromUnixMillis(timestamp)) == timestamp
  {
    var seconds := timestamp / 1_000;
    DateOfIsRight(seconds / 86_400);
    TimeOfDay(seconds % 86_400);
  }

  lemma TimeOfDay(seconds: nat)
    ensures (seconds / 3_600 * 60 + seconds % 3_600 / 60) * 60 + seconds % 60 == seconds
  {
    var rest := seconds % 3_600;
    assert seconds == 60 * (60 * (seconds / 3_600)) + rest;
    assert rest % 60 == seconds % 60;
  }

  predicate EarlierMoment(a: DateTime, b: DateTime) {
    Earlier(a.date, b.date)
    || (a.date == b.date && (a.hour < b.hour || (a.hour == b.hour && (a.minute < b.minute || (a.minute == b.minute
        && (a.second < b.second || (a.second == b.second && a.millisecond < b.millisecond)))))))
  }

  /** The conversion keeps the order of timestamps, so no two print alike. */
  lemma FromUnixMillisAscends(a: nat, b: nat)
    requires a < b <= U64_MAX
    ensures EarlierMoment(FromUnixMillis(a), FromUnixMillis(b)) && FromUnixMillis(a) != FromUnixMillis(b)
  {
    FromUnixMillisIsRight(a);
    FromUnixMillisIsRight(b);
    var x, y := FromUnixMillis(a), FromUnixMillis(b);
    if Earlier(y.date, x.date) {
      DayCountAscends(y.date, x.date);
    }
  }
}
