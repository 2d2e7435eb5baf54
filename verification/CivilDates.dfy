/**
 Textbook formulas for civil dates, on which nothing else is built: the number of days since 1 March of the year 0,
 and Zeller's congruence for the day of the week. The calendar of the scheduler is proved to agree with them, and
 stored seconds are tied to dates through them.
 */
module CivilDates {
  import opened Calendar
  import opened Scheduler

  function YearFromMarch(date: Date): (year: int) {
    if date.month <= 2 then date.year - 1 else date.year
  }

  /** Days from 1 March of the year 0; the year is taken to begin in March, so that leap days come last. */
  function MarchDays(date: Date): (n: int) {
    var y, m := YearFromMarch(date), (date.month + 9) % 12;
    365 * y + y / 4 - y / 100 + y / 400 + (153 * m + 2) / 5 + date.day - 1
  }

  /** Zeller's congruence: 0 is Saturday, 1 Sunday, and so on to 6, Friday. */
  function Zeller(date: Date): (h: int) {
    var y, m := YearFromMarch(date), if date.month <= 2 then date.month + 12 else date.month;
    (date.day + 13 * (m + 1) / 5 + y + y / 4 - y / 100 + y / 400) % 7
  }

  lemma DaysSinceMarch(year: int, month: int)
    requires 1 <= month <= 12
    ensures var days := (153 * ((month + 9) % 12) + 2) / 5;
            DaysBeforeMonth(year, month)
            == if month <= 2 then days - 306 else days + 59 + (if IsLeap(year) then 1 else 0)
  {
    hide IsLeap;
  }

  /** The scheduler's day 0 is 1 January of the year 1, 306 days after 1 March of the year 0. */
  lemma DayNumberIsMarchDays(date: Date)
    requires 1 <= date.month <= 12
    ensures DayNumber(date.year, date.month, date.day) == MarchDays(date) - 306
  {
    DaysSinceMarch(date.year, date.month);
    YearStartNext(date.year);
    assert YearStart(date.year + 1)
        == 365 * date.year + date.year / 4 - date.year / 100 + date.year / 400;
    hide DaysBeforeMonth, IsLeap;
  }

  lemma SameRemainder(x: int, z: int, t: int)
    requires x == z + 7 * t
    ensures x % 7 == z % 7
  {
  }

  /** What the two formulas make of the months differs by three days and whole weeks, four more every month. */
  lemma MonthTermsAgree(month: int)
    requires 1 <= month <= 12
    ensures var m, z := (month + 9) % 12, if month <= 2 then month + 12 else month;
            (153 * m + 2) / 5 + 3 == 13 * (z + 1) / 5 + 7 * (4 * m - 1)
  {
    var m := (month + 9) % 12;
    var z := if month <= 2 then month + 12 else month;
    assert z == m + 3;
    if m < 6 {
      assert m == 0 || m == 1 || m == 2 || m == 3 || m == 4 || m == 5;
    } else {
      assert m == 6 || m == 7 || m == 8 || m == 9 || m == 10 || m == 11;
    }
  }

  lemma ZellerOfMarchDays(date: Date)
    requires 1 <= date.month <= 12
    ensures Zeller(date) == (MarchDays(date) + 4) % 7
  {
    var y, m := YearFromMarch(date), (date.month + 9) % 12;
    var z := if date.month <= 2 then date.month + 12 else date.month;
    MonthTermsAgree(date.month);
    SameRemainder(MarchDays(date) + 4, date.day + 13 * (z + 1) / 5 + y + y / 4 - y / 100 + y / 400,
                  52 * y + 4 * m - 1);
  }

  lemma WeekdayNext(n: int)
    ensures (Weekday(n) + 1) % 7 == (n + 2) % 7
  {
  }

  /** Every valid date falls on the day of the week that the congruence gives. */
  lemma WeekdayIsZeller(date: Date)
    requires 1 <= date.month <= 12
    ensures (Weekday(DayNumber(date.year, date.month, date.day)) + 1) % 7 == Zeller(date)
  {
    DayNumberIsMarchDays(date);
    ZellerOfMarchDays(date);
    WeekdayNext(MarchDays(date) - 306);
    hide DayNumber, MarchDays, Zeller, Weekday;
    SameRemainder(MarchDays(date) + 4, MarchDays(date) - 304, 44);
  }

  // ---- seconds ----

  /** The date that a stored second falls on in a zone. */
  function LocalDate(unix: int, offset: int): (date: Date) {
    DateOf(InZone(unix, offset).day)
  }

  /** The stored second at which a date has this second of the day in a zone. */
  function UnixAt(date: Date, second: int, offset: int): (unix: int) {
    86400 * (MarchDays(date) - MarchDays(Date(1970, 1, 1))) + second - offset
  }

  /** A date stands for a day. */
  lemma DateIff(n: int, date: Date)
    requires date.Valid()
    ensures DateOf(n) == date <==> n == DayNumber(date.year, date.month, date.day)
  {
    DayNumberOfDate(n);
    DateOfDayNumber(date);
    hide DateOf, DayNumber;
  }

  lemma MomentIff(unix: int, offset: int, day: int, second: int)
    requires 0 <= second < 86400
    ensures unix == 86400 * (day - 719162) + second - offset <==> InZone(unix, offset) == Moment(day, second)
  {
  }

  /** A stored second and the local date and second of the day determine each other. */
  lemma LocalTimeIff(unix: int, offset: int, date: Date, second: int)
    requires date.Valid() && 0 <= second < 86400
    ensures unix == UnixAt(date, second, offset)
            <==> LocalDate(unix, offset) == date && InZone(unix, offset).second == second
  {
    assert MarchDays(Date(1970, 1, 1)) == 719468;
    DayNumberIsMarchDays(date);
    DateIff(InZone(unix, offset).day, date);
    MomentIff(unix, offset, DayNumber(date.year, date.month, date.day), second);
    hide MarchDays, DayNumber, DateOf, InZone;
  }

  /** The epoch: the first day of 1970 in Greenwich begins at second 0. */
  lemma EpochIff(unix: int)
    ensures LocalDate(unix, 0) == Date(1970, 1, 1) <==> 0 <= unix < 86400
  {
    var date := Date(1970, 1, 1);
    var second := unix % 86400;
    assert InZone(unix, 0).second == second;
    assert UnixAt(date, second, 0) == second;
    hide LocalDate, UnixAt, InZone;
    LocalTimeIff(unix, 0, date, second);
  }

  /** The weekday of a day, by its date. */
  lemma WeekdayOfDate(n: int)
    ensures DateOf(n).Valid() && (Weekday(n) + 1) % 7 == Zeller(DateOf(n))
  {
    DayNumberOfDate(n);
    WeekdayIsZeller(DateOf(n));
    hide DateOf, DayNumber, Zeller;
  }
}
