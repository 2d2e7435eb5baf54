/**
 The proleptic Gregorian calendar, twice. First by counting: a month starts where the one before it ends. Then as
 Go's time package computes it, in cycles of 400, 100, 4 and 1 years. The two are proved to agree, and with them
 AddDate, on which the recurrence scheduler is built, with plain counting of days and months.

 A day is an integer: day 0 is Monday 1 January of the year 1, and days before it are negative. A month is an
 integer too: month 12 * year + m - 1 is the m-th month of the year.
 */
module Calendar {

  const UNIX_EPOCH_DAY := 719162
  const SATURDAY := 6
  const SUNDAY := 0

  predicate IsLeap(year: int) {
    year % 4 == 0 && (year % 100 != 0 || year % 400 == 0)
  }

  function YearLength(year: int): (days: int) {
    if IsLeap(year) then 366 else 365
  }

  function MonthLength(year: int, month: int): (days: int) {
    if month == 2 then (if IsLeap(year) then 29 else 28)
    else if month == 4 || month == 6 || month == 9 || month == 11 then 30
    else 31
  }

  function Weekday(n: int): (weekday: int)
    ensures 0 <= weekday <= 6
  {
    (n + 1) % 7
  }

  // ---- the calendar by counting ----

  const FIRST_MONTH := 12

  function LengthOfMonth(i: int): (length: int)
    ensures 28 <= length <= 31
  {
    MonthLength(i / 12, i % 12 + 1)
  }

  /** The first day of month i. */
  function MonthStart(i: int): (day: int)
    decreases if i >= FIRST_MONTH then i - FIRST_MONTH else FIRST_MONTH - i
  {
    if i == FIRST_MONTH then 0
    else if i > FIRST_MONTH then MonthStart(i - 1) + LengthOfMonth(i - 1)
    else MonthStart(i + 1) - LengthOfMonth(i)
  }

  lemma MonthStartNext(i: int)
    ensures MonthStart(i + 1) == MonthStart(i) + LengthOfMonth(i)
  {
    hide LengthOfMonth;
  }

  lemma {:induction false} MonthStartSpread(i: int, k: nat)
    ensures 28 * k <= MonthStart(i + k) - MonthStart(i) <= 31 * k
    decreases k
  {
    hide *;
    if k > 0 {
      MonthStartSpread(i, k - 1);
      MonthStartNext(i + k - 1);
    }
  }

  /** The month that day n lies in, searched for from month i on. */
  function MonthFrom(i: int, n: int): (month: int)
    ensures MonthStart(month) <= n < MonthStart(month + 1)
    decreases if n < MonthStart(i) then MonthStart(i) - n else n - MonthStart(i)
  {
    MonthStartNext(i);
    MonthStartNext(i - 1);
    if n < MonthStart(i) then
      (if n >= MonthStart(i - 1) then i - 1 else MonthFrom(i - 1, n))
    else if n >= MonthStart(i + 1) then MonthFrom(i + 1, n)
    else i
  }

  function MonthIndex(n: int): (month: int)
    ensures MonthStart(month) <= n < MonthStart(month + 1)
  {
    MonthFrom(FIRST_MONTH, n)
  }

  function DayOfMonth(n: int): (day: int)
    ensures day >= 1
  {
    n - MonthStart(MonthIndex(n)) + 1
  }

  /** The same day of the month, some months later; past the end of a month that is too short. */
  function MonthsLater(n: int, months: int): (later: int) {
    MonthStart(MonthIndex(n) + months) + DayOfMonth(n) - 1
  }

  lemma DayFits(n: int)
    ensures 1 <= DayOfMonth(n) <= LengthOfMonth(MonthIndex(n)) <= 31
  {
    MonthStartNext(MonthIndex(n));
    hide MonthStart, MonthIndex, LengthOfMonth;
  }

  /** A day lies in one month only. */
  lemma MonthIsUnique(n: int, i: int)
    requires MonthStart(i) <= n < MonthStart(i + 1)
    ensures MonthIndex(n) == i && DayOfMonth(n) == n - MonthStart(i) + 1
  {
    hide MonthStart, MonthIndex;
    var j := MonthIndex(n);
    if j < i {
      MonthStartSpread(j + 1, i - j - 1);
    } else if i < j {
      MonthStartSpread(i + 1, j - i - 1);
    }
  }

  /** Month and day of the month number the days: the counterpart of the two functions above. */
  lemma {:induction false} DateInMonth(i: int, day: int)
    requires 1 <= day <= LengthOfMonth(i)
    ensures MonthIndex(MonthStart(i) + day - 1) == i && DayOfMonth(MonthStart(i) + day - 1) == day
  {
    hide *;
    MonthStartNext(i);
    MonthIsUnique(MonthStart(i) + day - 1, i);
  }

  /** One month later is exactly the length of the month being left. */
  lemma OneMonthIsItsLength(n: int)
    ensures MonthsLater(n, 1) == n + LengthOfMonth(MonthIndex(n))
  {
    MonthStartNext(MonthIndex(n));
    hide MonthStart, MonthIndex, LengthOfMonth;
  }

  /** Months move forward by 28 to 31 days each, and never forward when there are none to add. */
  lemma MonthsAdvance(n: int, months: int)
    ensures months >= 0 ==> 28 * months <= MonthsLater(n, months) - n <= 31 * months
    ensures months <= 0 ==> MonthsLater(n, months) <= n
  {
    var i := MonthIndex(n);
    hide MonthStart, MonthIndex;
    if months >= 0 {
      MonthStartSpread(i, months);
    } else {
      MonthStartSpread(i + months, -months);
    }
  }

  // ---- the calendar as Go computes it ----

  datatype Date = Date(year: int, month: int, day: int) {
    predicate Valid() {
      1 <= month <= 12 && 1 <= day <= MonthLength(year, month)
    }
  }

  /** The day number of 1 January. */
  function YearStart(year: int): (day: int) {
    var y := year - 1;
    365 * y + y / 4 - y / 100 + y / 400
  }

  /** How many days of the year come before the first of the month; 13 stands for the year's end. */
  function DaysBeforeMonth(year: int, month: int): (days: int)
    requires 1 <= month <= 13
  {
    (match month
     case 1 => 0 case 2 => 31 case 3 => 59 case 4 => 90 case 5 => 120 case 6 => 151 case 7 => 181
     case 8 => 212 case 9 => 243 case 10 => 273 case 11 => 304 case 12 => 334 case _ => 365)
    + (if month > 2 && IsLeap(year) then 1 else 0)
  }

  /** The day number of a date; the day may lie outside the month, as in Go's time.Date. */
  function DayNumber(year: int, month: int, day: int): (n: int)
    requires 1 <= month <= 12
  {
    YearStart(year) + DaysBeforeMonth(year, month) + day - 1
  }

  /** The 400, 100, 4 and 1-year cycles that Go peels off a day number, and the day of the year left. */
  function SplitDay(n: int): (parts: (int, int, int, int, int)) {
    var n400, d400 := n / 146097, n % 146097;
    var n100 := if d400 / 36524 == 4 then 3 else d400 / 36524;
    var d100 := d400 - 36524 * n100;
    var n4, d4 := d100 / 1461, d100 % 1461;
    var n1 := if d4 / 365 == 4 then 3 else d4 / 365;
    (n400, n100, n4, n1, d4 - 365 * n1)
  }

  function YearOf(n: int): (year: int) {
    var (n400, n100, n4, n1, _) := SplitDay(n);
    400 * n400 + 100 * n100 + 4 * n4 + n1 + 1
  }

  /** The month that holds the given day of the year. */
  function MonthOf(year: int, yearDay: int): (month: int)
    requires 0 <= yearDay < YearLength(year)
    ensures 1 <= month <= 12
  {
    var leap := if IsLeap(year) then 1 else 0;
    if yearDay < 31 then 1
    else if yearDay < 59 + leap then 2
    else if yearDay < 90 + leap then 3
    else if yearDay < 120 + leap then 4
    else if yearDay < 151 + leap then 5
    else if yearDay < 181 + leap then 6
    else if yearDay < 212 + leap then 7
    else if yearDay < 243 + leap then 8
    else if yearDay < 273 + leap then 9
    else if yearDay < 304 + leap then 10
    else if yearDay < 334 + leap then 11
    else 12
  }

  /** The civil date of a day number. */
  function DateOf(n: int): (date: Date) {
    YearFrame(n);
    var year, yearDay := YearOf(n), SplitDay(n).4;
    var month := MonthOf(year, yearDay);
    Date(year, month, yearDay - DaysBeforeMonth(year, month) + 1)
  }

  /** Go's AddDate with no years: months and days are added to the civil date, which is then normalised. */
  function AddDate(n: int, months: int, days: int): (later: int) {
    var date := DateOf(n);
    var month := date.month - 1 + months;
    DayNumber(date.year + month / 12, month % 12 + 1, date.day + days)
  }

  // ---- years ----

  lemma YearStartOfSplit(n400: int, n100: int, n4: int, n1: int)
    requires 0 <= n100 <= 3 && 0 <= n4 <= 24 && 0 <= n1 <= 3
    ensures YearStart(400 * n400 + 100 * n100 + 4 * n4 + n1 + 1)
         == 146097 * n400 + 36524 * n100 + 1461 * n4 + 365 * n1
  {
    var y := 400 * n400 + 100 * n100 + 4 * n4 + n1;
    assert y / 4 == 100 * n400 + 25 * n100 + n4;
    assert y / 100 == 4 * n400 + n100;
    assert y / 400 == n400;
  }

  lemma {:induction false} LeapOfSplit(n400: int, n100: int, n4: int, n1: int)
    requires 0 <= n100 <= 3 && 0 <= n4 <= 24 && 0 <= n1 <= 3
    ensures IsLeap(400 * n400 + 100 * n100 + 4 * n4 + n1 + 1) <==> n1 == 3 && (n4 != 24 || n100 == 3)
  {
    Remainders(100 * n400 + 25 * n100 + n4, n1 + 1, 4 * n400 + n100, 4 * n4 + n1 + 1,
               n400, 100 * n100 + 4 * n4 + n1 + 1);
  }

  lemma Remainders(q4: int, r4: int, q100: int, r100: int, q400: int, r400: int)
    requires 0 < r4 <= 4 && 0 < r100 <= 100 && 0 < r400 <= 400
    ensures (4 * q4 + r4) % 4 == 0 <==> r4 == 4
    ensures (100 * q100 + r100) % 100 == 0 <==> r100 == 100
    ensures (400 * q400 + r400) % 400 == 0 <==> r400 == 400
  {
  }

  /** The year that Go's cycle arithmetic finds is the one the day falls in. */
  lemma YearFrame(n: int)
    ensures n == YearStart(YearOf(n)) + SplitDay(n).4
    ensures YearStart(YearOf(n)) <= n < YearStart(YearOf(n)) + YearLength(YearOf(n))
  {
    var (n400, n100, n4, n1, yearDay) := SplitDay(n);
    YearStartOfSplit(n400, n100, n4, n1);
    LeapOfSplit(n400, n100, n4, n1);
  }

  lemma YearStartNext(year: int)
    ensures YearStart(year + 1) == YearStart(year) + YearLength(year)
  {
    CycleNext4(year);
    CycleNext100(year);
    CycleNext400(year);
  }

  lemma CycleNext4(year: int)
    ensures year / 4 == (year - 1) / 4 + (if year % 4 == 0 then 1 else 0)
  {
  }

  lemma CycleNext100(year: int)
    ensures year / 100 == (year - 1) / 100 + (if year % 100 == 0 then 1 else 0)
  {
  }

  lemma CycleNext400(year: int)
    ensures year / 400 == (year - 1) / 400 + (if year % 400 == 0 then 1 else 0)
    ensures year % 400 == 0 ==> year % 100 == 0
    ensures year % 100 == 0 ==> year % 4 == 0
  {
  }

  lemma {:induction false} YearStartMonotone(a: int, b: int)
    requires a <= b
    ensures YearStart(a) + 365 * (b - a) <= YearStart(b)
    decreases b - a
  {
    if a < b {
      YearStartMonotone(a, b - 1);
      YearStartNext(b - 1);
    }
  }

  lemma YearIsUnique(n: int, year: int)
    requires YearStart(year) <= n < YearStart(year) + YearLength(year)
    ensures YearOf(n) == year
  {
    YearFrame(n);
    YearStartNext(year);
    YearStartNext(YearOf(n));
    if YearOf(n) < year {
      YearStartMonotone(YearOf(n) + 1, year);
    } else if year < YearOf(n) {
      YearStartMonotone(year + 1, YearOf(n));
    }
  }

  // ---- the two conversions are inverse ----

  lemma {:induction false} DayNumberOfDate(n: int)
    ensures DateOf(n).Valid()
    ensures DayNumber(DateOf(n).year, DateOf(n).month, DateOf(n).day) == n
  {
    YearFrame(n);
    MonthSpan(DateOf(n).year, DateOf(n).month);
  }

  lemma MonthSpan(year: int, month: int)
    requires 1 <= month <= 12
    ensures DaysBeforeMonth(year, month + 1) == DaysBeforeMonth(year, month) + MonthLength(year, month)
    ensures DaysBeforeMonth(year, 13) == YearLength(year)
  {
  }

  lemma MonthOfIs(year: int, yearDay: int, month: int)
    requires 1 <= month <= 12
    requires DaysBeforeMonth(year, month) <= yearDay < DaysBeforeMonth(year, month + 1)
    ensures 0 <= yearDay < YearLength(year) && MonthOf(year, yearDay) == month
  {
  }

  lemma DateOfDayNumber(date: Date)
    requires date.Valid()
    ensures DateOf(DayNumber(date.year, date.month, date.day)) == date
  {
    var n := DayNumber(date.year, date.month, date.day);
    hide SplitDay, YearOf, YearStart, DaysBeforeMonth, MonthOf, MonthLength, YearLength;
    MonthSpan(date.year, date.month);
    MonthOfIs(date.year, n - YearStart(date.year), date.month);
    YearIsUnique(n, date.year);
    YearFrame(n);
  }

  // ---- Go's calendar agrees with counting ----

  /** The first day of month i, by Go's arithmetic. */
  function GoMonthStart(i: int): (day: int) {
    DayNumber(i / 12, i % 12 + 1, 1)
  }

  lemma GoMonthStartNext(i: int)
    ensures GoMonthStart(i + 1) == GoMonthStart(i) + LengthOfMonth(i)
  {
    var year, month := i / 12, i % 12 + 1;
    MonthSpan(year, month);
    if month == 12 {
      assert (i + 1) / 12 == year + 1 && (i + 1) % 12 == 0;
      YearStartNext(year);
    } else {
      assert (i + 1) / 12 == year && (i + 1) % 12 == month;
    }
  }

  lemma {:induction false} MonthStartsAgree(i: int)
    ensures GoMonthStart(i) == MonthStart(i)
    decreases if i >= FIRST_MONTH then i - FIRST_MONTH else FIRST_MONTH - i
  {
    if i == FIRST_MONTH {
      assert GoMonthStart(12) == 0;
    } else {
      hide GoMonthStart, LengthOfMonth;
      if i > FIRST_MONTH {
        MonthStartsAgree(i - 1);
        GoMonthStartNext(i - 1);
      } else {
        MonthStartsAgree(i + 1);
        GoMonthStartNext(i);
      }
    }
  }

  lemma MonthCarry(year: int, month: int)
    ensures (12 * year + month) / 12 == year + month / 12
    ensures (12 * year + month) % 12 == month % 12
  {
  }

  /** Go's day number of year, month and day, the month between 1 and 12. */
  lemma {:induction false} DayNumbersAgree(year: int, month: int, day: int)
    requires 1 <= month <= 12
    ensures DayNumber(year, month, day) == MonthStart(12 * year + month - 1) + day - 1
  {
    MonthCarry(year, month - 1);
    MonthStartsAgree(12 * year + month - 1);
    hide MonthStart, YearStart, DaysBeforeMonth;
  }

  /** Go's date of a day is the month that the day lies in and its day of that month. */
  lemma DatesAgree(n: int)
    ensures var date := DateOf(n);
            1 <= date.month <= 12 && 12 * date.year + date.month - 1 == MonthIndex(n) && date.day == DayOfMonth(n)
  {
    hide DateOf, MonthStart, MonthIndex, DayOfMonth, DayNumber, MonthLength, LengthOfMonth;
    var date := DateOf(n);
    var i := 12 * date.year + date.month - 1;
    DayNumberOfDate(n);
    DayNumbersAgree(date.year, date.month, date.day);
    MonthCarry(date.year, date.month - 1);
    MonthStartNext(i);
    assert LengthOfMonth(i) == MonthLength(date.year, date.month) by {
      LengthsAgree(date.year, date.month);
    }
    MonthIsUnique(n, i);
  }

  lemma LengthsAgree(year: int, month: int)
    requires 1 <= month <= 12
    ensures LengthOfMonth(12 * year + month - 1) == MonthLength(year, month)
  {
    MonthCarry(year, month - 1);
  }

  /**
   AddDate, with its detour through the civil date and its normalisation, is counting: so many months later, and then
   so many days later.
   */
  lemma AddDateCounts(n: int, months: int, days: int)
    ensures AddDate(n, months, days) == MonthsLater(n, months) + days
  {
    hide DateOf, MonthStart, MonthIndex, DayOfMonth, DayNumber;
    DatesAgree(n);
    var date := DateOf(n);
    var month := date.month - 1 + months;
    MonthCarry(date.year, month);
    DayNumbersAgree(date.year + month / 12, month % 12 + 1, date.day + days);
    assert 12 * (date.year + month / 12) + month % 12 == 12 * date.year + month;
  }

  lemma AddDays(n: int, days: int)
    ensures AddDate(n, 0, days) == n + days
  {
    AddDateCounts(n, 0, days);
    hide AddDate, MonthStart, MonthIndex;
  }
}
