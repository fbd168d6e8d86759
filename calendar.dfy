/** The calendar behind the `MM` of a `YYYY-MM-DD` date (pkg/trade/forecast.go reads it with
    `date[5:7]` to decide the monthly top-up): `MonthOf` computes the month of a day ordinal with
    era arithmetic (March-based years of 400-year eras), and `DaysFromCivil` counts the days of a
    date of the proleptic Gregorian calendar from 1970-01-01 month by month, as an independent
    reference. The two agree on every date, and every day ordinal is a date. */
module Calendar {
  import opened Timeseries

  /** The year of a 400-year era (March-based: year 0 of an era starts on March 1 of a year
      divisible by 400) that day `dayOfEra` of the era lies in. */
  function EraYearOf(dayOfEra: int): int {
    (dayOfEra - dayOfEra / 1_460 + dayOfEra / 36_524 - dayOfEra / 146_096) / 365
  }

  /** The days of an era before its year `yearOfEra`: 365 a year, and a leap day every fourth
      year except in the last year of each of the first three centuries. */
  function EraYearStart(yearOfEra: int): int {
    365 * yearOfEra + yearOfEra / 4 - yearOfEra / 100
  }

  /** The month of a March-based day of the year (0 is March 1). */
  function MarchMonth(dayOfYear: int): int {
    var shiftedMonth := (5 * dayOfYear + 2) / 153;
    if shiftedMonth < 10 then shiftedMonth + 3 else shiftedMonth - 9
  }

  /** The month (1 to 12) of a day ordinal in the proleptic Gregorian calendar: the `MM` of its
      `YYYY-MM-DD` formatting. Day 0 is 1970-01-01, 719,468 days after 0000-03-01. */
  function MonthOf(day: Day): (m: int)
    ensures 1 <= m <= 12
  {
    var dayOfEra := (day + 719_468) % 146_097;
    MarchMonth(dayOfEra - EraYearStart(EraYearOf(dayOfEra)))
  }

  // The reference calendar.

  /** A date of the proleptic Gregorian calendar. */
  datatype CivilDate = CivilDate(year: int, month: int, day: int)

  predicate LeapYear(y: int) {
    y % 4 == 0 && (y % 100 != 0 || y % 400 == 0)
  }

  function DaysInMonth(y: int, m: int): int
    requires 1 <= m <= 12
  {
    if m == 2 then (if LeapYear(y) then 29 else 28)
    else if m == 4 || m == 6 || m == 9 || m == 11 then 30
    else 31
  }

  predicate ValidDate(c: CivilDate) {
    1 <= c.month <= 12 && 1 <= c.day <= DaysInMonth(c.year, c.month)
  }

  /** The number of leap years from year 1 to year `y - 1` (negative before year 1). */
  function LeapYearsBefore(y: int): int {
    (y - 1) / 4 - (y - 1) / 100 + (y - 1) / 400
  }

  /** The days of the months of year `y` before month `m`. */
  function DaysBeforeMonth(y: int, m: int): int
    requires 1 <= m <= 12
  {
    if m == 1 then 0 else DaysBeforeMonth(y, m - 1) + DaysInMonth(y, m - 1)
  }

  /** The day ordinal of a date: 365 days per year since 1970, one more per leap year, then the
      months of the year and the days of the month before it. */
  function DaysFromCivil(c: CivilDate): Day
    requires ValidDate(c)
  {
    365 * (c.year - 1970) + LeapYearsBefore(c.year) - LeapYearsBefore(1970) + DaysBeforeMonth(c.year, c.month) + c.day - 1
  }

  /** The date after a date. */
  function NextDate(c: CivilDate): (n: CivilDate)
    requires ValidDate(c)
    ensures ValidDate(n)
  {
    if c.day < DaysInMonth(c.year, c.month) then c.(day := c.day + 1)
    else if c.month < 12 then CivilDate(c.year, c.month + 1, 1)
    else CivilDate(c.year + 1, 1, 1)
  }

  /** The date before a date. */
  function PreviousDate(c: CivilDate): (p: CivilDate)
    requires ValidDate(c)
    ensures ValidDate(p) && NextDate(p) == c
  {
    if c.day > 1 then c.(day := c.day - 1)
    else if c.month > 1 then CivilDate(c.year, c.month - 1, DaysInMonth(c.year, c.month - 1))
    else CivilDate(c.year - 1, 12, 31)
  }

  // The reference counts days one by one.

  /** Floor division by 4, 100 and 400 steps up by one exactly at the multiples. */
  lemma DivStep4(y: int)
    ensures y / 4 - (y - 1) / 4 == if y % 4 == 0 then 1 else 0
  {
    var q, r := (y - 1) / 4, (y - 1) % 4;
    if r == 3 {
      DivFrom4(y, q + 1, 0);
      ModFrom4(y, q + 1, 0);
    } else {
      DivFrom4(y, q, r + 1);
      ModFrom4(y, q, r + 1);
    }
  }

  lemma DivStep100(y: int)
    ensures y / 100 - (y - 1) / 100 == if y % 100 == 0 then 1 else 0
  {
    var q, r := (y - 1) / 100, (y - 1) % 100;
    if r == 99 {
      DivFrom100(y, q + 1, 0);
      ModFrom100(y, q + 1, 0);
    } else {
      DivFrom100(y, q, r + 1);
      ModFrom100(y, q, r + 1);
    }
  }

  lemma DivStep400(y: int)
    ensures y / 400 - (y - 1) / 400 == if y % 400 == 0 then 1 else 0
  {
    var q, r := (y - 1) / 400, (y - 1) % 400;
    if r == 399 {
      DivFrom400(y, q + 1, 0);
      ModFrom400(y, q + 1, 0);
    } else {
      DivFrom400(y, q, r + 1);
      ModFrom400(y, q, r + 1);
    }
  }

  /** The leap years before `y + 1` are those before `y`, and `y` itself if it is a leap year. */
  lemma LeapYearsStep(y: int)
    ensures LeapYearsBefore(y + 1) == LeapYearsBefore(y) + (if LeapYear(y) then 1 else 0)
  {
    DivStep4(y);
    DivStep100(y);
    DivStep400(y);
    if y % 400 == 0 {
      ModFrom100(y, 4 * (y / 400), 0);
    }
    if y % 100 == 0 {
      ModFrom4(y, 25 * (y / 100), 0);
    }
  }

  /** January and February come first; from March on the months repeat the 153-day pattern of
      five months (31, 30, 31, 30, 31). */
  lemma {:induction false} DaysBeforeMonthIs(y: int, m: int)
    requires 1 <= m <= 12
    ensures DaysBeforeMonth(y, m) ==
              if m <= 2 then 31 * (m - 1)
              else 59 + (if LeapYear(y) then 1 else 0) + (153 * (m - 3) + 2) / 5
  {
    if m > 1 {
      DaysBeforeMonthIs(y, m - 1);
    }
  }

  /** 1970-01-01 is day 0, and the day after a date is the next day ordinal. */
  lemma NextDateIsNextDay(c: CivilDate)
    requires ValidDate(c)
    ensures DaysFromCivil(CivilDate(1970, 1, 1)) == 0
    ensures DaysFromCivil(NextDate(c)) == DaysFromCivil(c) + 1
  {
    if c.day == DaysInMonth(c.year, c.month) && c.month == 12 {
      LeapYearsStep(c.year);
      DaysBeforeMonthIs(c.year, 12);
    }
  }

  /** The day before a date is the previous day ordinal. */
  lemma PreviousDateIsPreviousDay(c: CivilDate)
    requires ValidDate(c)
    ensures DaysFromCivil(PreviousDate(c)) == DaysFromCivil(c) - 1
  {
    NextDateIsNextDay(PreviousDate(c));
  }

  /** The date of a day ordinal, counted from 1970-01-01 one day at a time: every day ordinal is
      the ordinal of a date. */
  function CivilOf(day: Day): (c: CivilDate)
    ensures ValidDate(c) && DaysFromCivil(c) == day
    decreases if day < 0 then -day else day
  {
    if day == 0 then
      NextDateIsNextDay(CivilDate(1970, 1, 1));
      CivilDate(1970, 1, 1)
    else if day > 0 then
      var p := CivilOf(day - 1);
      NextDateIsNextDay(p);
      NextDate(p)
    else
      var n := CivilOf(day + 1);
      PreviousDateIsPreviousDay(n);
      PreviousDate(n)
  }

  // MonthOf against the reference.

  /** The March-based day of the year of a month and a day: March 1 is 0, February 29 is 365. */
  function MarchDayOfYear(m: int, d: int): int
    requires 1 <= m <= 12
  {
    var shifted := if m > 2 then m - 3 else m + 9;
    (153 * shifted + 2) / 5 + d - 1
  }

  /** That month is the month of the date. */
  lemma MarchMonthOf(m: int, d: int, leap: bool)
    requires 1 <= m <= 12
    requires 1 <= d <= (if m == 2 then (if leap then 29 else 28) else if m == 4 || m == 6 || m == 9 || m == 11 then 30 else 31)
    ensures 0 <= MarchDayOfYear(m, d) <= (if leap then 365 else 364)
    ensures MarchMonth(MarchDayOfYear(m, d)) == m
  {
  }

  /** The March-based year `y'` in 400-year eras: the leap years before `y' + 1` are 97 per era
      plus those of the era's years up to `y'`. */
  lemma EraSplit(y': int)
    ensures var era := y' / 400;
            var yoe := y' - era * 400;
            0 <= yoe < 400 && LeapYearsBefore(y' + 1) == 97 * era + yoe / 4 - yoe / 100
  {
    var era := y' / 400;
    var yoe := y' - era * 400;
    assert y' / 4 == 100 * era + yoe / 4;
    assert y' / 100 == 4 * era + yoe / 100;
  }

  /** Year `yoe` of an era as centuries, four-year cycles and years, and the days before it. */
  lemma EraYearParts(yoe: int)
    requires 0 <= yoe < 400
    ensures yoe == 100 * (yoe / 100) + 4 * ((yoe % 100) / 4) + yoe % 4
    ensures EraYearStart(yoe) == 36_524 * (yoe / 100) + 1_461 * ((yoe % 100) / 4) + 365 * (yoe % 4)
  {
  }

  /** Remainders from a quotient and a remainder. */
  lemma ModFrom4(n: int, q: int, r: int)
    requires n == 4 * q + r && 0 <= r < 4
    ensures n % 4 == r
  {
  }

  lemma ModFrom100(n: int, q: int, r: int)
    requires n == 100 * q + r && 0 <= r < 100
    ensures n % 100 == r
  {
  }

  lemma ModFrom400(n: int, q: int, r: int)
    requires n == 400 * q + r && 0 <= r < 400
    ensures n % 400 == r
  {
  }

  lemma ModFromEra(n: int, q: int, r: int)
    requires n == 146_097 * q + r && 0 <= r < 146_097
    ensures n % 146_097 == r
  {
  }

  /** Whether a year is a leap year depends only on its place in its 400-year era. */
  lemma LeapYearInEra(era: int, x: int)
    requires 0 <= x <= 400
    ensures LeapYear(400 * era + x) == LeapYear(x)
  {
    ModFrom4(x, x / 4, x % 4);
    ModFrom4(400 * era + x, 100 * era + x / 4, x % 4);
    ModFrom100(x, x / 100, x % 100);
    ModFrom100(400 * era + x, 4 * era + x / 100, x % 100);
    ModFrom400(x, x / 400, x % 400);
    ModFrom400(400 * era + x, era + x / 400, x % 400);
  }

  /** A leap February ends the year of an era (March-based) given by its century `c`, its
      four-year cycle `b` and its year `a` only when that is the last year of a cycle, and not the
      last year of a century unless it is the last of the era. */
  lemma LeapEraYear(c: int, b: int, a: int)
    requires 0 <= c <= 3 && 0 <= b <= 24 && 0 <= a <= 3
    requires LeapYear(100 * c + 4 * b + a + 1)
    ensures a == 3 && (b != 24 || c == 3)
  {
    var n := 100 * c + 4 * b + a + 1;
    if a < 3 {
      ModFrom4(n, 25 * c + b, a + 1);
    } else if b == 24 && c < 3 {
      ModFrom100(n, c + 1, 0);
      ModFrom400(n, 0, n);
    }
  }

  /** Quotients from a quotient and a remainder. */
  lemma DivFrom4(n: int, q: int, r: int)
    requires n == 4 * q + r && 0 <= r < 4
    ensures n / 4 == q
  {
  }

  lemma DivFrom100(n: int, q: int, r: int)
    requires n == 100 * q + r && 0 <= r < 100
    ensures n / 100 == q
  {
  }

  lemma DivFrom400(n: int, q: int, r: int)
    requires n == 400 * q + r && 0 <= r < 400
    ensures n / 400 == q
  {
  }

  /** The days of an era before the year of the given century, four-year cycle and year. */
  lemma EraYearStartOfParts(c: int, b: int, a: int)
    requires 0 <= c <= 3 && 0 <= b <= 24 && 0 <= a <= 3
    ensures EraYearStart(100 * c + 4 * b + a) == 36_524 * c + 1_461 * b + 365 * a
  {
    DivFrom4(100 * c + 4 * b + a, 25 * c + b, a);
    DivFrom100(100 * c + 4 * b + a, c, 4 * b + a);
  }

  /** The year of the era that `MonthOf` computes from a day of the era is the year it lies in. */
  lemma EraYearOfDay(c: int, b: int, a: int, doy: int)
    requires 0 <= c <= 3 && 0 <= b <= 24 && 0 <= a <= 3
    requires 0 <= doy <= (if a == 3 && (b != 24 || c == 3) then 365 else 364)
    ensures EraYearOf(36_524 * c + 1_461 * b + 365 * a + doy) == 100 * c + 4 * b + a
  {
    var doe := 36_524 * c + 1_461 * b + 365 * a + doy;
    // Four-year cycles hold 1,460 days plus a leap day, centuries 36,524 days: the three
    // quotients count whole cycles, with one more where the day is at or past a cycle's end.
    var r := 24 * c + b + 365 * a + doy;
    assert doe == 1_460 * (25 * c + b) + r;
    var e1 := if r >= 1_460 then 1 else 0;
    assert doe / 1_460 == 25 * c + b + e1;
    var e2 := if doe == 146_096 then 1 else 0;
    assert doe / 36_524 == c + e2;
    assert doe / 146_096 == e2;
    assert doe - doe / 1_460 + doe / 36_524 - doe / 146_096 == 365 * (100 * c + 4 * b + a) + doy - e1;
  }

  /** The ordinal of a date, counted from the start of the era that holds it. */
  lemma CivilInEra(c: CivilDate)
    requires ValidDate(c)
    ensures var y' := if c.month <= 2 then c.year - 1 else c.year;
            var era := y' / 400;
            var yoe := y' - era * 400;
            DaysFromCivil(c) + 719_468 == era * 146_097 + EraYearStart(yoe) + MarchDayOfYear(c.month, c.day)
  {
    var y' := if c.month <= 2 then c.year - 1 else c.year;
    EraSplit(y');
    DaysBeforeMonthIs(c.year, c.month);
    LeapYearsStep(c.year);
    assert LeapYearsBefore(1970) == 477;
  }

  /** `MonthOf` of a day given by its era, its year of the era (as parts) and its March-based day
      of the year. */
  lemma MonthOfParts(day: Day, era: int, cc: int, b: int, a: int, doy: int)
    requires 0 <= cc <= 3 && 0 <= b <= 24 && 0 <= a <= 3
    requires 0 <= doy <= (if a == 3 && (b != 24 || cc == 3) then 365 else 364)
    requires day + 719_468 == era * 146_097 + 36_524 * cc + 1_461 * b + 365 * a + doy
    ensures MonthOf(day) == MarchMonth(doy)
  {
    var doe := 36_524 * cc + 1_461 * b + 365 * a + doy;
    var yoe := 100 * cc + 4 * b + a;
    ModFromEra(day + 719_468, era, doe);
    EraYearOfDay(cc, b, a, doy);
    EraYearStartOfParts(cc, b, a);
  }

  /** `MonthOf` gives the month of every date of the calendar. */
  lemma MonthOfCivil(c: CivilDate)
    requires ValidDate(c)
    ensures MonthOf(DaysFromCivil(c)) == c.month
  {
    var y' := if c.month <= 2 then c.year - 1 else c.year;
    var era := y' / 400;
    var yoe := y' - era * 400;
    EraSplit(y');
    EraYearParts(yoe);
    var cc, b, a := yoe / 100, (yoe % 100) / 4, yoe % 4;
    var leap := LeapYear(c.year);
    MarchMonthOf(c.month, c.day, leap);
    if c.month == 2 && leap {
      LeapYearInEra(era, yoe + 1);
      assert c.year == 400 * era + (yoe + 1);
      LeapEraYear(cc, b, a);
    }
    CivilInEra(c);
    MonthOfParts(DaysFromCivil(c), era, cc, b, a, MarchDayOfYear(c.month, c.day));
  }

  /** The month changes from one day to the next exactly when the next day is the first of a
      month. */
  lemma MonthChangesOnFirst(c: CivilDate)
    requires ValidDate(c)
    ensures MonthOf(DaysFromCivil(c) - 1) != MonthOf(DaysFromCivil(c)) <==> c.day == 1
  {
    var p := PreviousDate(c);
    NextDateIsNextDay(p);
    MonthOfCivil(p);
    MonthOfCivil(c);
  }

  /** 1970-03-01 (day 59) is in March, the day before in February. */
  lemma MarchFirst1970()
    ensures MonthOf(58) == 2 && MonthOf(59) == 3
  {
    assert 719_526 / 146_097 == 4 && 719_527 / 146_097 == 4;
    assert 135_138 / 1_460 == 92 && 135_138 / 36_524 == 3 && 135_138 / 146_096 == 0;
    assert 135_139 / 1_460 == 92 && 135_139 / 36_524 == 3 && 135_139 / 146_096 == 0;
    assert 135_049 / 365 == 369 && 135_050 / 365 == 370;
    assert 369 / 4 == 92 && 369 / 100 == 3 && 370 / 4 == 92 && 370 / 100 == 3;
    assert 1_827 / 153 == 11 && 2 / 153 == 0;
  }

  /** A leap day: 2024-02-29 is day 19,782, in February, and the next day is in March. */
  lemma LeapDay2024()
    ensures DaysFromCivil(CivilDate(2024, 2, 29)) == 19_782
    ensures MonthOf(19_782) == 2 && MonthOf(19_783) == 3
  {
    var c := CivilDate(2024, 2, 29);
    assert LeapYearsBefore(2024) == 490 && LeapYearsBefore(1970) == 477;
    DaysBeforeMonthIs(2024, 2);
    MonthOfCivil(c);
    NextDateIsNextDay(c);
    MonthOfCivil(NextDate(c));
  }
}
