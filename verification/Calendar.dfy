/** The build stamp's date: days since the Unix epoch to a Gregorian civil date (cmd/build.rs). */
module Calendar {

  datatype Date = Date(year: int, month: int, day: int)

  /** Hinnant's days-to-civil conversion, the same chain of floor divisions as the build script. */
  function Ymd(days: nat): Date {
    var z := days + 719_468;
    var era := z / 146_097;
    var doe := z - era * 146_097;
    var yoe := YearOfEra(doe);
    var doy := doe - (365 * yoe + yoe / 4 - yoe / 100);
    var mp := (5 * doy + 2) / 153;
    var d := doy - (153 * mp + 2) / 5 + 1;
    var m := if mp < 10 then mp + 3 else mp - 9;
    var y := yoe + era * 400 + if m <= 2 then 1 else 0;
    Date(y, m, d)
  }

  function YearOfEra(doe: nat): nat
    requires doe < 146_097
  {
    (doe - doe / 1_460 + doe / 36_524 - doe / 146_096) / 365
  }

  // ----- The Gregorian calendar, stated without the algorithm -----

  predicate IsLeap(year: int) {
    year % 4 == 0 && (year % 100 != 0 || year % 400 == 0)
  }

  function DaysInMonth(year: int, month: int): int {
    if month == 2 then (if IsLeap(year) then 29 else 28)
    else if month in {4, 6, 9, 11} then 30
    else 31
  }

  predicate Valid(date: Date) {
    1 <= date.month <= 12 && 1 <= date.day <= DaysInMonth(date.year, date.month)
  }

  function Successor(date: Date): Date {
    if date.day < DaysInMonth(date.year, date.month) then date.(day := date.day + 1)
    else if date.month < 12 then Date(date.year, date.month + 1, 1)
    else Date(date.year + 1, 1, 1)
  }

  /** The days from 0000-01-01 to the first of January of `year`, one year at a time. */
  function DaysBeforeYear(year: nat): nat {
    if year == 0 then 0
    else DaysBeforeYear(year - 1) + if IsLeap(year - 1) then 366 else 365
  }

  function DaysBeforeMonth(year: int, month: int): int
    requires 1 <= month <= 12
    decreases month
  {
    if month == 1 then 0 else DaysBeforeMonth(year, month - 1) + DaysInMonth(year, month - 1)
  }

  /** Days since 1970-01-01, by adding up whole years, whole months and the day. */
  function DayNumber(date: Date): int
    requires date.year >= 0 && 1 <= date.month <= 12
  {
    DaysBeforeYear(date.year) + DaysBeforeMonth(date.year, date.month) + date.day - 1 - 719_528
  }

  // ----- The year within a 400-year era -----

  function EraYearStart(yoe: nat): nat {
    365 * yoe + yoe / 4 - yoe / 100
  }

  /** A day of an era, split into its century, four-year cycle and year the way the leap rule nests them. */
  lemma YearOfEraDigits(century: nat, cycle: nat, r: nat)
    requires century < 4 && cycle < 25 && r <= 1_460
    requires 1_461 * cycle + r < 36_524
    ensures YearOfEra(36_524 * century + 1_461 * cycle + r)
         == 100 * century + 4 * cycle + (if r == 1_460 then 3 else r / 365)
  {
    var doe := 36_524 * century + 1_461 * cycle + r;
    var carry := if 24 * century + cycle + r >= 1_460 then 1 else 0;
    assert doe == 1_460 * (25 * century + cycle) + (24 * century + cycle + r);
    assert doe / 1_460 == 25 * century + cycle + carry;
    assert doe / 36_524 == century;
    assert doe / 146_096 == 0;
    assert doe - doe / 1_460 + doe / 36_524 - doe / 146_096
        == 365 * (100 * century + 4 * cycle) + (r - carry);
  }

  lemma EraYearStartDigits(century: nat, cycle: nat, year: nat)
    requires century < 4 && cycle < 25 && year < 4
    ensures EraYearStart(100 * century + 4 * cycle + year) == 36_524 * century + 1_461 * cycle + 365 * year
    ensures EraYearStart(100 * century + 4 * cycle + year + 1)
         == 36_524 * century + 1_461 * cycle + 365 * (year + 1)
          + (if year == 3 && (cycle < 24 || century == 3) then 1 else 0)
          - (if year == 3 && cycle == 24 && century == 3 then 1 else 0)
  {
    var yoe := 100 * century + 4 * cycle + year;
    assert yoe / 4 == 25 * century + cycle;
    assert yoe / 100 == century;
    assert (yoe + 1) / 4 == 25 * century + cycle + (if year == 3 then 1 else 0);
    assert (yoe + 1) / 100 == century + (if year == 3 && cycle == 24 then 1 else 0);
  }

  lemma YearOfEraBrackets(doe: nat)
    requires doe < 146_097
    ensures YearOfEra(doe) < 400
    ensures EraYearStart(YearOfEra(doe)) <= doe
    ensures doe < if YearOfEra(doe) == 399 then 146_097 else EraYearStart(YearOfEra(doe) + 1)
  {
    if doe == 146_096 {
      assert YearOfEra(146_096) == 399;
      assert EraYearStart(399) == 145_731;
    } else {
      var century := doe / 36_524;
      var k := doe % 36_524;
      var cycle := k / 1_461;
      var r := k % 1_461;
      var year := if r == 1_460 then 3 else r / 365;
      assert doe == 36_524 * century + 1_461 * cycle + r;
      YearOfEraDigits(century, cycle, r);
      EraYearStartDigits(century, cycle, year);
    }
  }

  // ----- March years against the calendar -----

  lemma {:induction false} DaysBeforeYearClosed(year: nat)
    requires year > 0
    ensures DaysBeforeYear(year) == 365 * year + 1 + (year - 1) / 4 - (year - 1) / 100 + (year - 1) / 400
  {
    if year == 1 {
      assert DaysBeforeYear(1) == DaysBeforeYear(0) + 366;
    } else {
      DaysBeforeYearClosed(year - 1);
      LeapStep(year - 1);
    }
  }

  /** The floor divisions step exactly at the leap years. */
  lemma LeapStep(y: nat)
    requires y > 0
    ensures y / 4 - y / 100 + y / 400 - ((y - 1) / 4 - (y - 1) / 100 + (y - 1) / 400) == if IsLeap(y) then 1 else 0
  {
    FloorStep(y, 4);
    FloorStep(y, 100);
    FloorStep(y, 400);
    assert y % 400 == 0 ==> y % 100 == 0;
    assert y % 100 == 0 ==> y % 4 == 0;
  }

  lemma FloorStep(y: nat, n: nat)
    requires y > 0 && n in {4, 100, 400}
    ensures y / n - (y - 1) / n == if y % n == 0 then 1 else 0
  {
  }

  /** The era's own day count reaches the first of March of the same year. */
  lemma MarchYearStart(era: nat, yoe: nat)
    requires yoe < 400
    ensures DaysBeforeYear(400 * era + yoe + 1) == 146_097 * era + EraYearStart(yoe) + 366
  {
    var y := 400 * era + yoe;
    DaysBeforeYearClosed(y + 1);
    assert y / 4 == 100 * era + yoe / 4;
    assert y / 100 == 4 * era + yoe / 100;
    assert y / 400 == era;
  }

  lemma MonthOfMarchYear(doy: nat)
    requires doy < 366
    ensures var mp := (5 * doy + 2) / 153;
            && mp <= 11
            && (153 * mp + 2) / 5 <= doy
            && (mp < 11 ==> doy < (153 * (mp + 1) + 2) / 5)
  {
  }

  /** A month's offset in a March year is the calendar's count less January and February. */
  lemma MarchMonthOffset(year: int, mp: nat)
    requires mp < 10
    ensures DaysBeforeMonth(year, mp + 3) == 31 + DaysInMonth(year, 2) + (153 * mp + 2) / 5
    ensures DaysInMonth(year, mp + 3) == (153 * (mp + 1) + 2) / 5 - (153 * mp + 2) / 5
  {
    assert DaysBeforeMonth(year, 3) == 31 + DaysInMonth(year, 2);
    if mp > 0 {
      MarchMonthOffset(year, mp - 1);
    }
  }

  lemma EraEndsInALeapYear(era: nat)
    ensures IsLeap(400 * era + 400)
  {
    assert (400 * era + 400) % 400 == 0;
    assert 400 * era + 400 == 4 * (100 * era + 100);
  }

  lemma MarchYearLength(era: nat, yoe: nat, doe: nat)
    requires yoe < 400 && EraYearStart(yoe) <= doe
    requires doe < if yoe == 399 then 146_097 else EraYearStart(yoe + 1)
    ensures doe - EraYearStart(yoe) < if IsLeap(400 * era + yoe + 1) then 366 else 365
  {
    if yoe == 399 {
      EraEndsInALeapYear(era);
      assert EraYearStart(399) == 145_731;
    } else {
      hide IsLeap, EraYearStart;
      MarchYearStart(era, yoe);
      MarchYearStart(era, yoe + 1);
      assert 400 * era + yoe + 2 == 400 * era + (yoe + 1) + 1;
      assert DaysBeforeYear(400 * era + yoe + 2)
          == DaysBeforeYear(400 * era + yoe + 1) + if IsLeap(400 * era + yoe + 1) then 366 else 365;
    }
  }

  // ----- The conversion is right, everywhere -----

  /** The date `doy` days after the first of March of `year`. */
  function MarchDate(year: nat, doy: nat): Date {
    var mp := (5 * doy + 2) / 153;
    Date(if mp < 10 then year else year + 1, if mp < 10 then mp + 3 else mp - 9, doy - (153 * mp + 2) / 5 + 1)
  }

  lemma MarchDayIsTheDate(year: nat, doy: nat)
    requires doy < if IsLeap(year + 1) then 366 else 365
    ensures var date := MarchDate(year, doy);
            && date.year >= 0 && Valid(date)
            && DayNumber(date) == DaysBeforeYear(year + 1) - 306 + doy - 719_528
  {
    var date := MarchDate(year, doy);
    MonthOfMarchYear(doy);
    var mp := (5 * doy + 2) / 153;
    assert DaysBeforeYear(year + 1) == DaysBeforeYear(year) + if IsLeap(year) then 366 else 365;
    if mp < 10 {
      MarchMonthOffset(year, mp);
    } else {
      assert DaysBeforeMonth(year + 1, 1) == 0;
      assert DaysBeforeMonth(year + 1, 2) == 31;
    }
  }

  lemma YmdIsAMarchDate(days: nat)
    ensures var z := days + 719_468;
            var era := z / 146_097;
            var doe := z % 146_097;
            && doe < 146_097
            && EraYearStart(YearOfEra(doe)) <= doe
            && Ymd(days) == MarchDate(400 * era + YearOfEra(doe), doe - EraYearStart(YearOfEra(doe)))
  {
    hide YearOfEra;
    var z := days + 719_468;
    var doe := z - z / 146_097 * 146_097;
    assert doe == z % 146_097;
    YearOfEraBrackets(doe);
    MonthOfMarchYear(doe - EraYearStart(YearOfEra(doe)));
  }

  /** Every day count becomes a real calendar date, and counting that date's days gives the count back. */
  lemma YmdIsTheDate(days: nat)
    ensures Ymd(days).year >= 0 && Valid(Ymd(days))
    ensures DayNumber(Ymd(days)) == days
  {
    hide *;
    var z := days + 719_468;
    var era, doe := z / 146_097, z % 146_097;
    var yoe := YearOfEra(doe);
    YmdIsAMarchDate(days);
    YearOfEraBrackets(doe);
    MarchYearLength(era, yoe, doe);
    MarchYearStart(era, yoe);
    MarchDayIsTheDate(400 * era + yoe, doe - EraYearStart(yoe));
  }

  lemma YearLength(year: nat)
    ensures DaysBeforeMonth(year, 12) + 31 == DaysBeforeYear(year + 1) - DaysBeforeYear(year)
  {
    MarchMonthOffset(year, 9);
  }

  lemma {:induction false} MonthsOrdered(year: int, m: int, n: int)
    requires 1 <= m < n <= 12
    ensures DaysBeforeMonth(year, m) + DaysInMonth(year, m) <= DaysBeforeMonth(year, n)
    decreases n
  {
    if m < n - 1 {
      MonthsOrdered(year, m, n - 1);
    }
  }

  lemma {:induction false} YearsOrdered(a: nat, b: nat)
    requires a <= b
    ensures DaysBeforeYear(a) <= DaysBeforeYear(b)
    decreases b
  {
    if a < b {
      YearsOrdered(a, b - 1);
    }
  }

  /** A valid date's count lies inside its own year. */
  lemma InsideYear(date: Date)
    requires date.year >= 0 && Valid(date)
    ensures 0 <= DayNumber(date) + 719_528 - DaysBeforeYear(date.year)
    ensures DayNumber(date) + 719_528 < DaysBeforeYear(date.year + 1)
  {
    YearLength(date.year);
    if date.month < 12 {
      MonthsOrdered(date.year, date.month, 12);
    }
    if date.month > 1 {
      MonthsOrdered(date.year, 1, date.month);
    }
  }

  lemma DayNumberOrdersDates(a: Date, b: Date)
    requires a.year >= 0 && Valid(a) && b.year >= 0 && Valid(b)
    requires a.year < b.year || (a.year == b.year && a.month < b.month)
          || (a.year == b.year && a.month == b.month && a.day < b.day)
    ensures DayNumber(a) < DayNumber(b)
  {
    if a.year < b.year {
      InsideYear(a);
      InsideYear(b);
      YearsOrdered(a.year + 1, b.year);
    } else if a.month < b.month {
      MonthsOrdered(a.year, a.month, b.month);
    }
  }

  /** No two dates share a day number, so `Ymd` is the only valid answer. */
  lemma DayNumberIsInjective(a: Date, b: Date)
    requires a.year >= 0 && Valid(a) && b.year >= 0 && Valid(b)
    requires DayNumber(a) == DayNumber(b)
    ensures a == b
  {
    if a != b {
      if a.year < b.year || (a.year == b.year && a.month < b.month)
         || (a.year == b.year && a.month == b.month && a.day < b.day) {
        DayNumberOrdersDates(a, b);
      } else {
        DayNumberOrdersDates(b, a);
      }
    }
  }

  /** Converting a date's own day number gives the date back. */
  lemma YmdInvertsDayNumber(date: Date)
    requires date.year >= 0 && Valid(date) && DayNumber(date) >= 0
    ensures Ymd(DayNumber(date)) == date
  {
    YmdIsTheDate(DayNumber(date));
    DayNumberIsInjective(Ymd(DayNumber(date)), date);
  }

  lemma SuccessorIsNextDay(date: Date)
    requires date.year >= 0 && Valid(date)
    ensures Successor(date).year >= 0 && Valid(Successor(date))
    ensures DayNumber(Successor(date)) == DayNumber(date) + 1
  {
    if date.day == DaysInMonth(date.year, date.month) && date.month == 12 {
      YearLength(date.year);
      assert DaysBeforeMonth(date.year + 1, 1) == 0;
    }
  }

  /** One more day is always the next date on the calendar. */
  lemma NextDayIsSuccessor(days: nat)
    ensures Ymd(days + 1) == Successor(Ymd(days))
  {
    YmdIsTheDate(days);
    YmdIsTheDate(days + 1);
    SuccessorIsNextDay(Ymd(days));
    DayNumberIsInjective(Ymd(days + 1), Successor(Ymd(days)));
  }

  lemma EpochIsTheFirstDay()
    ensures Ymd(0) == Date(1970, 1, 1)
  {
  }
}
