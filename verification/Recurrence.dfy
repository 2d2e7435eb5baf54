/**
 What the scheduler's answers mean: a refinement to "the least occurrence after now", closed forms for the
 regular kinds, what the Monthly and Custom orbits look like, and how answers move as the clock advances.
 */
module Recurrence {
  import opened Arithmetic
  import opened Options
  import opened Calendar
  import opened Scheduler
  import opened CivilDates

  // ---- orbits ----

  lemma InZoneUnix(unix: int, offset: int)
    ensures UnixOf(InZone(unix, offset), offset) == unix
  {
  }

  lemma {:induction false} OrbitDefined(rule: Rule, k: nat)
    requires rule.zone.FixedZone? && Repeats(rule.repeatType) && WellFounded(rule)
    ensures Orbit(rule, k).Some?
    ensures Orbit(rule, k).value.second == InZone(rule.scheduledTime, rule.zone.offset).second
    ensures k > 0 ==> Orbit(rule, k - 1).Some? && Orbit(rule, k).value.day > Orbit(rule, k - 1).value.day
  {
    hide Round;
    if k > 0 {
      OrbitDefined(rule, k - 1);
      RoundMovesForward(rule, Orbit(rule, k - 1).value);
    }
  }

  /** The orbit is strictly increasing: a later round looks at a later time, by a day at least. */
  lemma {:induction false} OrbitIncreases(rule: Rule, j: nat, k: nat)
    requires rule.zone.FixedZone? && Repeats(rule.repeatType) && WellFounded(rule) && j <= k
    ensures Orbit(rule, j).Some? && Orbit(rule, k).Some?
    ensures OrbitTime(rule, j) + (k - j) * SECONDS_PER_DAY <= OrbitTime(rule, k)
    decreases k - j
  {
    hide Round, Orbit, InZone;
    OrbitDefined(rule, k);
    if j < k {
      OrbitDefined(rule, k - 1);
      OrbitIncreases(rule, j, k - 1);
    }
  }

  lemma {:induction false} OrbitStarts(rule: Rule)
    requires rule.zone.FixedZone?
    ensures OrbitTime(rule, 0) == rule.scheduledTime
  {
    InZoneUnix(rule.scheduledTime, rule.zone.offset);
  }

  lemma StopIsUnique(rule: Rule, now: int, j: nat, k: nat)
    requires rule.zone.FixedZone? && StopsAfter(rule, now, j) && StopsAfter(rule, now, k)
    ensures j == k
  {
  }

  /** The answer is a function of the rule and the clock. */
  lemma {:induction false} NextIsUnique(rule: Rule, now: int, r: int, q: int)
    requires NextIs(rule, now, r) && NextIs(rule, now, q)
    ensures r == q
  {
    if EntersLoop(rule, now) {
      var j: nat :| StopsAfter(rule, now, j) && r == Cut(rule, OrbitTime(rule, j));
      var k: nat :| StopsAfter(rule, now, k) && q == Cut(rule, OrbitTime(rule, k));
      StopIsUnique(rule, now, j, k);
    }
  }

  // ---- the least occurrence after now ----

  /** A repeating rule takes place at t: the orbit passes t, and on a working day if the rule is for working days. */
  ghost predicate Occurs(rule: Rule, t: int)
    requires rule.zone.FixedZone?
  {
    exists k: nat :: OccursAt(rule, t, k)
  }

  ghost predicate OccursAt(rule: Rule, t: int, k: nat)
    requires rule.zone.FixedZone?
  {
    && Orbit(rule, k).Some? && OrbitTime(rule, k) == t
    && (rule.repeatType.WeekDay? ==> !IsWeekend(Orbit(rule, k).value.day))
  }

  predicate WithinEnd(rule: Rule, t: int) {
    rule.endDate > 0 ==> t <= rule.endDate
  }

  /** The loop leaves at the least occurrence after now. */
  lemma LoopFindsLeast(rule: Rule, now: int, k: nat)
    requires rule.zone.FixedZone? && Repeats(rule.repeatType) && WellFounded(rule) && StopsAfter(rule, now, k)
    ensures Occurs(rule, OrbitTime(rule, k)) && Before(now, OrbitTime(rule, k))
    ensures forall t :: Occurs(rule, t) && Before(now, t) ==> OrbitTime(rule, k) <= t
  {
    assert OccursAt(rule, OrbitTime(rule, k), k);
    forall t | Occurs(rule, t) && Before(now, t) ensures OrbitTime(rule, k) <= t {
      var j: nat :| OccursAt(rule, t, j);
      assert Exits(rule, now, Orbit(rule, j).value);
      OrbitIncreases(rule, k, j);
    }
  }

  /**
   Once a repeating meeting's first date has passed, the answer is its least occurrence after now that the end
   date allows, and it is 0 exactly when there is none.
   */
  lemma NextIsLeastOccurrence(rule: Rule, now: int, r: int)
    requires now > 0 && rule.zone.FixedZone? && WellFounded(rule)
    requires rule.repeatType in {Daily, Weekly, WeekDay, Monthly, Custom}
    requires now > rule.scheduledTime * 1_000_000_000 && NextIs(rule, now, r)
    ensures r != 0 ==> Occurs(rule, r) && now < r * 1_000_000_000 && WithinEnd(rule, r)
    ensures r != 0 ==> forall t :: Occurs(rule, t) && now < t * 1_000_000_000 ==> r <= t
    ensures r == 0 <==> !exists t :: Occurs(rule, t) && now < t * 1_000_000_000 && WithinEnd(rule, t)
  {
    if EntersLoop(rule, now) {
      var k: nat :| StopsAfter(rule, now, k) && r == Cut(rule, OrbitTime(rule, k));
      LoopFindsLeast(rule, now, k);
    }
  }

  /**
   Every other answer, written out in nanoseconds. As long as the clock has not passed the first date, that date is
   the answer, unless the end date comes before it; without repetition there is no other.
   */
  lemma AnswerWrittenOut(rule: Rule, now: int, r: int)
    requires NextIs(rule, now, r)
    ensures rule.zone.UnknownZone? ==> r == 0
    ensures rule.zone.FixedZone? && rule.repeatType.NoneRepeat? ==>
              r == if now < rule.scheduledTime * 1_000_000_000 then rule.scheduledTime else 0
    ensures rule.zone.FixedZone? && !rule.repeatType.NoneRepeat? && now <= rule.scheduledTime * 1_000_000_000 ==>
              r == if 0 < rule.endDate < rule.scheduledTime then 0 else rule.scheduledTime
    ensures rule.zone.FixedZone? && rule.repeatType !in {NoneRepeat, Daily, Weekly, WeekDay, Monthly, Custom}
            && now > rule.scheduledTime * 1_000_000_000 ==>
              r == if rule.endDate > 0 && now > rule.endDate * 1_000_000_000 then 0
                   else UnixAt(Date(1, 1, 1), 0, 0)
  {
    assert UnixAt(Date(1, 1, 1), 0, 0) == ZERO_TIME;
    hide UnixAt;
  }

  /** Unless the first date is still ahead, an answer other than "never" lies strictly after now. */
  lemma NextIsAhead(rule: Rule, now: int, r: int)
    requires now > 0 && (Repeats(rule.repeatType) || rule.repeatType.NoneRepeat?)
    requires NextIs(rule, now, r) && r != 0
    ensures if After(now, rule.scheduledTime) then Before(now, r) else r == rule.scheduledTime
    ensures !After(now, r)
    ensures Repeats(rule.repeatType) ==> WithinEnd(rule, r)
  {
  }

  // ---- the clock moves on ----

  /** Whatever the interval and the day list: the loop never leaves earlier when the clock is later. */
  lemma {:induction false} StopsLater(rule: Rule, now: int, later: int, j: nat, k: nat)
    requires rule.zone.FixedZone? && now <= later
    requires StopsAfter(rule, now, j) && StopsAfter(rule, later, k)
    ensures j <= k
    ensures OrbitTime(rule, j) <= OrbitTime(rule, k)
    ensures Before(later, OrbitTime(rule, j)) ==> j == k
  {
    if j < k {
      assert !Exits(rule, later, Orbit(rule, j).value);
    }
  }

  /**
   Monotonicity, for every known repeat type and without asking that the rule be well founded: a later clock
   never brings an earlier occurrence, and "never" is for ever.
   */
  lemma NextIsMonotone(rule: Rule, now: int, later: int, r: int, q: int)
    requires 0 < now <= later && (Repeats(rule.repeatType) || rule.repeatType.NoneRepeat?)
    requires NextIs(rule, now, r) && NextIs(rule, later, q)
    ensures r == 0 ==> q == 0
    ensures q != 0 ==> r <= q
  {
    if q != 0 {
      NextIsAhead(rule, later, q);
      if EntersLoop(rule, now) {
        assert EntersLoop(rule, later);
        var j: nat :| StopsAfter(rule, now, j) && r == Cut(rule, OrbitTime(rule, j));
        var k: nat :| StopsAfter(rule, later, k) && q == Cut(rule, OrbitTime(rule, k));
        StopsLater(rule, now, later, j, k);
      }
    }
  }

  /**
   The same for every repeat type, known or not, for the one thing EndMeeting asks: once the answer is not
   positive, it never becomes positive again.
   */
  lemma NotPositiveStays(rule: Rule, now: int, later: int, r: int, q: int)
    requires 0 < now <= later && NextIs(rule, now, r) && NextIs(rule, later, q)
    requires r <= 0
    ensures q <= 0
  {
    if Repeats(rule.repeatType) || rule.repeatType.NoneRepeat? {
      if r != 0 {
        NextIsAhead(rule, now, r);
      }
      NextIsMonotone(rule, now, later, r, q);
    }
  }

  // ---- Daily, Weekly and Custom rules in days or weeks: a closed form ----

  /** The period in days of a rule that moves by a fixed number of days; 0 when it does not. */
  function Period(rule: Rule): (days: int) {
    match rule.repeatType
    case Daily => 1
    case Weekly => 7
    case Custom =>
      if |rule.days| > 0 then 0
      else if rule.unit.DayUnit? then rule.interval
      else if rule.unit.WeekUnit? then rule.interval * 7
      else 0
    case _ => 0
  }

  lemma {:induction false} RegularOrbit(rule: Rule, k: nat)
    requires rule.zone.FixedZone? && Period(rule) >= 1
    ensures var t := InZone(rule.scheduledTime, rule.zone.offset);
            Orbit(rule, k) == Some(Moment(t.day + k * Period(rule), t.second))
  {
    hide InZone;
    if k > 0 {
      RegularOrbit(rule, k - 1);
      assert k * Period(rule) == (k - 1) * Period(rule) + Period(rule);
    }
  }

  lemma {:induction false} RegularOrbitTime(rule: Rule, k: nat)
    requires rule.zone.FixedZone? && Period(rule) >= 1
    ensures Orbit(rule, k).Some?
    ensures OrbitTime(rule, k) == rule.scheduledTime + k * (Period(rule) * SECONDS_PER_DAY)
  {
    hide Orbit, InZone, Period, Round;
    RegularOrbit(rule, k);
    InZoneUnix(rule.scheduledTime, rule.zone.offset);
    assert k * Period(rule) * SECONDS_PER_DAY == k * (Period(rule) * SECONDS_PER_DAY);
  }

  /** The least of start, start + p, start + 2p, ... above x, when start is not above x itself. */
  function FirstAbove(start: int, x: int, p: int): (t: int)
    requires p > 0
  {
    start + ((x - start) / p + 1) * p
  }

  lemma FirstAboveIs(start: int, x: int, p: int, k: int, last: int, next: int)
    requires p > 0 && last == start + (k - 1) * p && next == start + k * p && last <= x < next
    ensures next == FirstAbove(start, x, p)
  {
    assert k * p == (k - 1) * p + p;
    QuotientIs(x - start, p, k - 1);
  }

  lemma BeforeInSeconds(now: int, unix: int)
    ensures Before(now, unix) <==> Seconds(now) < unix
  {
  }

  lemma AfterIsNotBefore(now: int, unix: int)
    ensures After(now, unix) ==> !Before(now, unix)
  {
  }

  /** Except for working days, the clock lies between the last two times that the loop looked at. */
  lemma {:induction false} LoopBrackets(rule: Rule, now: int, k: nat)
    requires rule.zone.FixedZone? && !rule.repeatType.WeekDay?
    requires After(now, rule.scheduledTime) && StopsAfter(rule, now, k)
    ensures k > 0 && Orbit(rule, k - 1).Some?
    ensures OrbitTime(rule, k - 1) <= Seconds(now) < OrbitTime(rule, k)
  {
    hide Orbit, InZone, Before, After, Seconds, UnixOf;
    OrbitStarts(rule);
    AfterIsNotBefore(now, rule.scheduledTime);
    assert k > 0;
    assert Orbit(rule, k - 1).Some? && !Exits(rule, now, Orbit(rule, k - 1).value);
    BeforeInSeconds(now, OrbitTime(rule, k - 1));
    BeforeInSeconds(now, OrbitTime(rule, k));
  }

  lemma PeriodOfWeekDay(rule: Rule)
    ensures rule.repeatType.WeekDay? ==> Period(rule) == 0
  {
  }

  /** The loop of a regular rule computes s + (floor((now - s) / P) + 1) * P. */
  lemma RegularClosedForm(rule: Rule, now: int, k: nat)
    requires rule.zone.FixedZone? && Period(rule) >= 1
    requires After(now, rule.scheduledTime) && StopsAfter(rule, now, k)
    ensures OrbitTime(rule, k)
         == FirstAbove(rule.scheduledTime, now / 1_000_000_000, Period(rule) * 86400)
  {
    assert Seconds(now) == now / 1_000_000_000;
    hide *;
    PeriodOfWeekDay(rule);
    LoopBrackets(rule, now, k);
    RegularOrbitTime(rule, k);
    RegularOrbitTime(rule, k - 1);
    FirstAboveIs(rule.scheduledTime, Seconds(now), Period(rule) * SECONDS_PER_DAY, k,
                 OrbitTime(rule, k - 1), OrbitTime(rule, k));
  }

  /** So a regular meeting past its first date is next held at that time, or never if the end date forbids it. */
  lemma RegularAnswer(rule: Rule, now: int, r: int)
    requires EntersLoop(rule, now) && Period(rule) >= 1 && NextIs(rule, now, r)
    ensures r == Cut(rule, FirstAbove(rule.scheduledTime, now / 1_000_000_000, Period(rule) * 86400))
  {
    var k: nat :| StopsAfter(rule, now, k) && r == Cut(rule, OrbitTime(rule, k));
    RegularClosedForm(rule, now, k);
  }

  // ---- WeekDay ----

  lemma {:induction false} DailyOrbit(rule: Rule, k: nat)
    requires rule.zone.FixedZone? && rule.repeatType in {Daily, WeekDay}
    ensures var t := InZone(rule.scheduledTime, rule.zone.offset);
            Orbit(rule, k) == Some(Moment(t.day + k, t.second))
  {
    hide InZone;
    if k > 0 {
      DailyOrbit(rule, k - 1);
    }
  }

  /** Of any three days in a row one is not on the weekend. */
  lemma WeekendIsShort(day: int)
    ensures !IsWeekend(day) || !IsWeekend(day + 1) || !IsWeekend(day + 2)
  {
  }

  /**
   The weekday loop finds the least working day strictly after now at the scheduled wall-clock time, whichever
   day that wall-clock time is tried on.
   */
  lemma {:induction false} WeekdayLoop(rule: Rule, now: int, k: nat)
    requires rule.zone.FixedZone? && rule.repeatType.WeekDay?
    requires After(now, rule.scheduledTime) && StopsAfter(rule, now, k)
    ensures !IsWeekend(Orbit(rule, k).value.day) && Before(now, OrbitTime(rule, k))
    ensures forall day ::
              var t := UnixOf(Moment(day, InZone(rule.scheduledTime, rule.zone.offset).second), rule.zone.offset);
              Before(now, t) && !IsWeekend(day) ==> OrbitTime(rule, k) <= t
  {
    hide Orbit, InZone, IsWeekend, Round;
    var start, offset := InZone(rule.scheduledTime, rule.zone.offset), rule.zone.offset;
    InZoneUnix(rule.scheduledTime, offset);
    DailyOrbit(rule, k);
    forall day | Before(now, UnixOf(Moment(day, start.second), offset)) && !IsWeekend(day)
      ensures OrbitTime(rule, k) <= UnixOf(Moment(day, start.second), offset)
    {
      var j := day - start.day;
      assert j >= 0;
      DailyOrbit(rule, j);
    }
  }

  lemma UnixInZone(t: Moment, offset: int)
    requires 0 <= t.second < 86400
    ensures InZone(UnixOf(t, offset), offset) == t
  {
  }

  /** Every round keeps the wall-clock time, whether the rule is well founded or not. */
  lemma {:induction false} OrbitKeepsTime(rule: Rule, k: nat)
    requires rule.zone.FixedZone? && Orbit(rule, k).Some?
    ensures Orbit(rule, k).value.second == InZone(rule.scheduledTime, rule.zone.offset).second
    ensures InZone(OrbitTime(rule, k), rule.zone.offset) == Orbit(rule, k).value
  {
    hide MonthsLater, FirstListed, Listed;
    if k > 0 {
      OrbitKeepsTime(rule, k - 1);
    }
    UnixInZone(Orbit(rule, k).value, rule.zone.offset);
  }

  /** Past the first date, an answer other than "never" is where the loop has stopped. */
  lemma AnswerIsStop(rule: Rule, now: int, r: int) returns (k: nat)
    requires rule.zone.FixedZone? && Repeats(rule.repeatType) && now > rule.scheduledTime * 1_000_000_000
    requires NextIs(rule, now, r) && r != 0
    ensures After(now, rule.scheduledTime) && StopsAfter(rule, now, k)
    ensures r == OrbitTime(rule, k) && now < r * 1_000_000_000
  {
    k :| StopsAfter(rule, now, k) && r == Cut(rule, OrbitTime(rule, k));
  }

  /** The date and the wall-clock time of a time that the loop looks at. */
  lemma {:induction false} OrbitDate(rule: Rule, k: nat)
    requires rule.zone.FixedZone? && Orbit(rule, k).Some?
    ensures var r, offset := OrbitTime(rule, k), rule.zone.offset;
            LocalDate(r, offset) == DateOf(Orbit(rule, k).value.day)
            && r == UnixAt(LocalDate(r, offset), (rule.scheduledTime + offset) % 86400, offset)
  {
    var r, offset := OrbitTime(rule, k), rule.zone.offset;
    var second := (rule.scheduledTime + offset) % 86400;
    assert InZone(rule.scheduledTime, offset).second == second;
    hide DateOf, UnixAt, Orbit, InZone, UnixOf;
    OrbitKeepsTime(rule, k);
    DayNumberOfDate(Orbit(rule, k).value.day);
    LocalTimeIff(r, offset, LocalDate(r, offset), second);
  }

  /** Neither a Saturday nor a Sunday. */
  predicate IsWorkingDay(date: Date) {
    Zeller(date) != 0 && Zeller(date) != 1
  }

  lemma WeekendByDate(n: int)
    ensures IsWeekend(n) <==> !IsWorkingDay(DateOf(n))
  {
    WeekdayOfDate(n);
    hide DateOf, Zeller;
  }

  lemma WeekendOfDate(date: Date)
    requires date.Valid()
    ensures IsWeekend(DayNumber(date.year, date.month, date.day)) <==> !IsWorkingDay(date)
  {
    DateOfDayNumber(date);
    WeekendByDate(DayNumber(date.year, date.month, date.day));
    hide DateOf, DayNumber, Zeller, IsWeekend;
  }

  lemma UnixOfDate(date: Date, second: int, offset: int)
    requires date.Valid()
    ensures UnixOf(Moment(DayNumber(date.year, date.month, date.day), second), offset) == UnixAt(date, second, offset)
  {
    assert MarchDays(Date(1970, 1, 1)) == 719468;
    hide DayNumber, MarchDays;
    DayNumberIsMarchDays(date);
  }

  /**
   The same in civil dates: past its first date, a meeting on working days next takes place on the first date after now
   that is neither a Saturday nor a Sunday, at the wall-clock time of the first one.
   */
  lemma WeekdayAnswer(rule: Rule, now: int, r: int)
    requires rule.zone.FixedZone? && rule.repeatType.WeekDay? && now > rule.scheduledTime * 1_000_000_000
    requires NextIs(rule, now, r) && r != 0
    ensures var offset, second := rule.zone.offset, (rule.scheduledTime + rule.zone.offset) % 86400;
            && now < r * 1_000_000_000
            && IsWorkingDay(LocalDate(r, offset)) && r == UnixAt(LocalDate(r, offset), second, offset)
            && forall date: Date ::
                 date.Valid() && IsWorkingDay(date) && now < UnixAt(date, second, offset) * 1_000_000_000
                 ==> r <= UnixAt(date, second, offset)
  {
    var offset, second := rule.zone.offset, (rule.scheduledTime + rule.zone.offset) % 86400;
    var k := AnswerIsStop(rule, now, r);
    assert InZone(rule.scheduledTime, offset).second == second;
    hide DateOf, DayNumber, UnixAt, Zeller, IsWeekend, Orbit, InZone, IsWorkingDay, LocalDate;
    OrbitDate(rule, k);
    WeekdayLoop(rule, now, k);
    WeekendByDate(Orbit(rule, k).value.day);
    forall date: Date | date.Valid() && IsWorkingDay(date) && now < UnixAt(date, second, offset) * 1_000_000_000
      ensures r <= UnixAt(date, second, offset)
    {
      UnixOfDate(date, second, offset);
      WeekendOfDate(date);
      assert Before(now, UnixOf(Moment(DayNumber(date.year, date.month, date.day), second), offset));
    }
  }

  /** A day after now that the weekday loop passed over was on the weekend. */
  lemma {:induction false} WeekdayLoopSkips(rule: Rule, now: int, k: nat, i: nat)
    requires rule.zone.FixedZone? && rule.repeatType.WeekDay?
    requires After(now, rule.scheduledTime) && StopsAfter(rule, now, k) && i >= 1
    requires Before(now, OrbitTime(rule, k) - i * SECONDS_PER_DAY)
    ensures IsWeekend(Orbit(rule, k).value.day - i)
  {
    hide Orbit, InZone, IsWeekend, Round;
    InZoneUnix(rule.scheduledTime, rule.zone.offset);
    DailyOrbit(rule, k);
    assert k - i >= 0;
    DailyOrbit(rule, k - i);
    assert !Exits(rule, now, Orbit(rule, k - i).value);
  }

  /** The weekend makes it wait, but never more than three days. */
  lemma WeekdayLoopIsPrompt(rule: Rule, now: int, k: nat)
    requires rule.zone.FixedZone? && rule.repeatType.WeekDay?
    requires After(now, rule.scheduledTime) && StopsAfter(rule, now, k)
    ensures OrbitTime(rule, k) <= Seconds(now) + 3 * SECONDS_PER_DAY
  {
    hide Orbit, InZone, IsWeekend, Round, UnixOf, Before, Seconds;
    var t := OrbitTime(rule, k);
    BeforeInSeconds(now, t - SECONDS_PER_DAY);
    BeforeInSeconds(now, t - 2 * SECONDS_PER_DAY);
    BeforeInSeconds(now, t - 3 * SECONDS_PER_DAY);
    WeekendIsShort(Orbit(rule, k).value.day - 3);
    if t > Seconds(now) + 3 * SECONDS_PER_DAY {
      WeekdayLoopSkips(rule, now, k, 1);
      WeekdayLoopSkips(rule, now, k, 2);
      WeekdayLoopSkips(rule, now, k, 3);
      assert false;
    }
  }

  // ---- Monthly, and Custom rules in months ----

  /** The stride in months of a rule that moves by a fixed number of months; 0 when it does not. */
  function MonthStride(rule: Rule): (months: int) {
    match rule.repeatType
    case Monthly => 1
    case Custom => if |rule.days| == 0 && rule.unit.MonthUnit? then rule.interval else 0
    case _ => 0
  }

  predicate ByMonths(rule: Rule) {
    rule.zone.FixedZone? && MonthStride(rule) >= 1
  }

  /** Where some months further lands: on the same day, or past the end of that month if it is too short. */
  lemma SomeMonthsLater(n: int, months: int)
    ensures var i, day, later := MonthIndex(n) + months, DayOfMonth(n), MonthsLater(n, months);
            if day <= LengthOfMonth(i)
            then MonthIndex(later) == i && DayOfMonth(later) == day
            else MonthIndex(later) == i + 1 && DayOfMonth(later) == day - LengthOfMonth(i)
                 && 1 <= DayOfMonth(later) <= 3
  {
    var i, day := MonthIndex(n) + months, DayOfMonth(n);
    DayFits(n);
    MonthStartNext(i);
    hide DayOfMonth, MonthIndex, MonthStart;
    if day <= LengthOfMonth(i) {
      DateInMonth(i, day);
    } else {
      DateInMonth(i + 1, day - LengthOfMonth(i));
    }
  }

  /** The month that the loop stands in after k rounds, and the day of that month. */
  function MonthAt(rule: Rule, k: nat): (i: int)
    requires rule.zone.FixedZone? && Orbit(rule, k).Some?
  {
    MonthIndex(Orbit(rule, k).value.day)
  }

  function DayAt(rule: Rule, k: nat): (day: int)
    requires rule.zone.FixedZone? && Orbit(rule, k).Some?
  {
    DayOfMonth(Orbit(rule, k).value.day)
  }

  lemma MonthlyRound(rule: Rule, k: nat)
    requires ByMonths(rule)
    ensures Orbit(rule, k).Some? && Orbit(rule, k + 1).Some?
    ensures Orbit(rule, k + 1).value.day == MonthsLater(Orbit(rule, k).value.day, MonthStride(rule))
  {
    OrbitDefined(rule, k);
    hide MonthsLater;
  }

  /** A round of the monthly loop advances by exactly the length of the month it leaves. */
  lemma MonthlyRoundIsItsMonth(rule: Rule, k: nat)
    requires ByMonths(rule) && MonthStride(rule) == 1
    ensures Orbit(rule, k).Some? && Orbit(rule, k + 1).Some?
    ensures Orbit(rule, k + 1).value.day == Orbit(rule, k).value.day + LengthOfMonth(MonthAt(rule, k))
  {
    assert Orbit(rule, 0).Some?;
    hide Orbit, MonthsLater, MonthIndex, LengthOfMonth;
    MonthlyRound(rule, k);
    OneMonthIsItsLength(Orbit(rule, k).value.day);
  }

  /** The month that k rounds aim at. */
  function Aim(rule: Rule, k: nat): (i: int)
    requires rule.zone.FixedZone?
  {
    MonthAt(rule, 0) + k * MonthStride(rule)
  }

  lemma AimNext(rule: Rule, k: nat)
    requires rule.zone.FixedZone? && k > 0
    ensures Aim(rule, k) == Aim(rule, k - 1) + MonthStride(rule)
  {
    assert k * MonthStride(rule) == (k - 1) * MonthStride(rule) + MonthStride(rule);
  }

  /** The day of the first date is kept through k rounds. */
  ghost predicate KeptUpTo(rule: Rule, k: nat)
    requires ByMonths(rule)
  {
    forall j: nat :: j <= k ==> Orbit(rule, j).Some? && DayAt(rule, j) == DayAt(rule, 0)
  }

  /** The months that these rounds aim at all have that day. */
  predicate FitsUpTo(rule: Rule, k: nat)
    requires rule.zone.FixedZone?
  {
    forall j: nat :: j <= k ==> DayAt(rule, 0) <= LengthOfMonth(Aim(rule, j))
  }

  lemma FirstDayFits(rule: Rule)
    requires rule.zone.FixedZone?
    ensures DayAt(rule, 0) <= LengthOfMonth(MonthAt(rule, 0))
  {
    DayFits(Orbit(rule, 0).value.day);
  }

  /** From a month that was aimed at, the next round keeps the day exactly if it fits, and then hits its month. */
  lemma KeptOneMore(rule: Rule, k: nat)
    requires ByMonths(rule) && k > 0 && Orbit(rule, k - 1).Some?
    requires DayAt(rule, k - 1) == DayAt(rule, 0) && MonthAt(rule, k - 1) == Aim(rule, k - 1)
    ensures Orbit(rule, k).Some?
    ensures DayAt(rule, k) == DayAt(rule, 0) <==> DayAt(rule, 0) <= LengthOfMonth(Aim(rule, k))
    ensures DayAt(rule, k) == DayAt(rule, 0) ==> MonthAt(rule, k) == Aim(rule, k)
  {
    hide MonthsLater, MonthIndex, DayOfMonth, Orbit, LengthOfMonth;
    MonthlyRound(rule, k - 1);
    AimNext(rule, k);
    hide Aim, MonthStride;
    SomeMonthsLater(Orbit(rule, k - 1).value.day, MonthStride(rule));
  }

  lemma UpToOneMore(rule: Rule, k: nat)
    requires ByMonths(rule) && k > 0
    ensures KeptUpTo(rule, k)
            <==> KeptUpTo(rule, k - 1) && Orbit(rule, k).Some? && DayAt(rule, k) == DayAt(rule, 0)
    ensures FitsUpTo(rule, k) <==> FitsUpTo(rule, k - 1) && DayAt(rule, 0) <= LengthOfMonth(Aim(rule, k))
    ensures KeptUpTo(rule, k - 1) ==> Orbit(rule, k - 1).Some? && DayAt(rule, k - 1) == DayAt(rule, 0)
  {
    assert Orbit(rule, 0).Some?;
    hide Orbit, DayAt, Aim, LengthOfMonth, ByMonths;
  }

  lemma {:induction false} KeptAtStart(rule: Rule)
    requires ByMonths(rule)
    ensures KeptUpTo(rule, 0) && FitsUpTo(rule, 0) && Orbit(rule, 0).Some? && MonthAt(rule, 0) == Aim(rule, 0)
  {
    assert Orbit(rule, 0).Some?;
    FirstDayFits(rule);
    hide MonthIndex, DayOfMonth, InZone, LengthOfMonth;
  }

  /** The day is kept exactly as long as it fits, and then k rounds are k strides of whole months. */
  lemma {:induction false} KeptIffFits(rule: Rule, k: nat)
    requires ByMonths(rule)
    ensures KeptUpTo(rule, k) <==> FitsUpTo(rule, k)
    ensures KeptUpTo(rule, k) ==> Orbit(rule, k).Some? && MonthAt(rule, k) == Aim(rule, k)
  {
    KeptAtStart(rule);
    hide Orbit, DayAt, MonthAt, Aim, LengthOfMonth, ByMonths, KeptUpTo, FitsUpTo;
    if k > 0 {
      KeptIffFits(rule, k - 1);
      UpToOneMore(rule, k);
      if KeptUpTo(rule, k - 1) {
        KeptOneMore(rule, k);
      }
    }
  }

  /** A start on the 28th or before is the same day k strides of months later, for every k. */
  lemma {:induction false} MonthlyKeepsDay(rule: Rule, k: nat)
    requires ByMonths(rule) && Orbit(rule, 0).Some? && DayAt(rule, 0) <= 28
    ensures Orbit(rule, k).Some?
    ensures DayAt(rule, k) == DayAt(rule, 0)
    ensures MonthAt(rule, k) == MonthAt(rule, 0) + k * MonthStride(rule)
  {
    assert Orbit(rule, 0).Some?;
    hide Orbit, DayAt, MonthAt, MonthStride;
    assert FitsUpTo(rule, k);
    KeptIffFits(rule, k);
  }

  /** The day of the month changes at most once, from one of 29, 30 and 31 to one of 1, 2 and 3. */
  lemma {:induction false} MonthlyDriftsOnce(rule: Rule, j: nat, k: nat)
    requires ByMonths(rule) && j <= k
    ensures Orbit(rule, j).Some? && Orbit(rule, k).Some?
    ensures DayAt(rule, k) == DayAt(rule, j) || (DayAt(rule, j) >= 29 && 1 <= DayAt(rule, k) <= 3)
    decreases k - j
  {
    assert Orbit(rule, 0).Some?;
    hide MonthsLater, MonthIndex, DayOfMonth, Orbit;
    OrbitDefined(rule, j);
    if j < k {
      MonthlyDriftsOnce(rule, j, k - 1);
      MonthlyRound(rule, k - 1);
      SomeMonthsLater(Orbit(rule, k - 1).value.day, MonthStride(rule));
    }
  }

  // ---- for ever ----

  const CYCLE := 4800  // months, after which the calendar repeats

  lemma RemainderRepeats(x: int, p: int, d: int)
    requires p > 0
    ensures (x + d * p) / p == x / p + d && (x + d * p) % p == x % p
  {
    var q, r := x / p, x % p;
    assert x == q * p + r && (q + d) * p == q * p + d * p;
    RemainderIs(x + d * p, p, q + d, r);
  }

  lemma LeapYearsRepeat(year: int, n: int)
    ensures IsLeap(year + 400 * n) == IsLeap(year)
  {
    RemainderRepeats(year, 4, 100 * n);
    RemainderRepeats(year, 100, 4 * n);
    RemainderRepeats(year, 400, n);
  }

  lemma LengthsRepeat(i: int, n: int)
    ensures LengthOfMonth(i + n * CYCLE) == LengthOfMonth(i)
  {
    RemainderRepeats(i, 12, 400 * n);
    LeapYearsRepeat(i / 12, n);
    hide IsLeap;
  }

  lemma AimRepeats(rule: Rule, k: nat)
    requires rule.zone.FixedZone?
    ensures LengthOfMonth(Aim(rule, k)) == LengthOfMonth(Aim(rule, k % CYCLE))
  {
    var m, q := MonthStride(rule), k / CYCLE;
    assert k * m == (k % CYCLE) * m + (q * m) * CYCLE;
    hide LengthOfMonth, MonthStride, MonthAt;
    LengthsRepeat(Aim(rule, k % CYCLE), q * m);
  }

  /** Within one cycle of the calendar, every month aimed at has the day of the first date. */
  predicate FitsForACycle(rule: Rule)
    requires rule.zone.FixedZone?
  {
    forall k :: 0 <= k < CYCLE ==> DayAt(rule, 0) <= LengthOfMonth(Aim(rule, k))
  }

  ghost predicate KeptForEver(rule: Rule)
    requires rule.zone.FixedZone?
  {
    forall k: nat :: Orbit(rule, k).Some? ==> DayAt(rule, k) == DayAt(rule, 0)
  }

  /**
   "Every so many months on the same day": the loop keeps that promise for ever exactly when every month that it aims
   at within one cycle of the calendar has the day.
   */
  lemma KeptForEverIff(rule: Rule)
    requires ByMonths(rule)
    ensures KeptForEver(rule) <==> FitsForACycle(rule)
  {
    assert Orbit(rule, 0).Some?;
    hide Orbit, DayAt, Aim, LengthOfMonth, MonthStride;
    if KeptForEver(rule) {
      forall k: nat ensures Orbit(rule, k).Some? {
        OrbitDefined(rule, k);
      }
      assert KeptUpTo(rule, CYCLE);
      KeptIffFits(rule, CYCLE);
    }
    if FitsForACycle(rule) {
      forall k: nat | Orbit(rule, k).Some? ensures DayAt(rule, k) == DayAt(rule, 0) {
        forall j: nat | j <= k ensures DayAt(rule, 0) <= LengthOfMonth(Aim(rule, j)) {
          AimRepeats(rule, j);
        }
        KeptIffFits(rule, k);
      }
    }
  }

  /** February of an odd year has 28 days. */
  lemma OddFebruary(year: int)
    requires year % 2 == 1
    ensures LengthOfMonth(12 * year + 1) == 28
  {
    MonthCarry(year, 1);
    assert year % 4 != 0;
  }

  /**
   "Every month on the same day" is what a monthly meeting promises. The loop keeps that promise for ever
   exactly when the first date is not after the 28th.
   */
  lemma MonthlyKeepsDayIff(rule: Rule)
    requires ByMonths(rule) && MonthStride(rule) == 1
    ensures KeptForEver(rule) <==> DayAt(rule, 0) <= 28
  {
    assert Orbit(rule, 0).Some?;
    hide Orbit, DayAt, MonthAt, MonthStride, LengthOfMonth;
    KeptForEverIff(rule);
    if FitsForACycle(rule) {
      var year := MonthAt(rule, 0) / 12;
      var odd := year + 1 + year % 2;
      OddFebruary(odd);
      var k: nat := 12 * odd + 1 - MonthAt(rule, 0);
      assert k < CYCLE && Aim(rule, k) == 12 * odd + 1;
    }
  }

  /** Every year, or every few years, any day but one in February is kept: the month aimed at is always the same. */
  lemma YearlyKeepsDay(rule: Rule)
    requires ByMonths(rule) && MonthStride(rule) % 12 == 0 && MonthAt(rule, 0) % 12 != 1
    ensures KeptForEver(rule)
  {
    assert Orbit(rule, 0).Some?;
    hide Orbit, MonthAt, DayAt;
    forall k | 0 <= k < CYCLE ensures DayAt(rule, 0) <= LengthOfMonth(Aim(rule, k)) {
      FirstDayFits(rule);
      SameMonthOfYear(MonthAt(rule, 0), k * (MonthStride(rule) / 12));
      assert k * MonthStride(rule) == 12 * (k * (MonthStride(rule) / 12));
    }
    KeptForEverIff(rule);
  }

  lemma SameMonthOfYear(i: int, years: int)
    requires i % 12 != 1
    ensures LengthOfMonth(i + 12 * years) == LengthOfMonth(i)
  {
  }

  // ---- Custom ----

  lemma CustomRoundBounds(rule: Rule, t: Moment)
    requires rule.repeatType.Custom? && WellFounded(rule)
    ensures Round(rule, t).Some?
    ensures |rule.days| > 0 ==> Listed(Round(rule, t).value.day, rule.days)
    ensures rule.unit.DayUnit? ==>
              rule.interval <= Round(rule, t).value.day - t.day <= rule.interval + 6
    ensures rule.unit.WeekUnit? ==>
              rule.interval * 7 <= Round(rule, t).value.day - t.day <= rule.interval * 7 + 6
    ensures rule.unit.MonthUnit? ==>
              28 * rule.interval <= Round(rule, t).value.day - t.day <= 31 * rule.interval + 6
  {
    MonthsAdvance(t.day, rule.interval);
    hide MonthsLater;
    var u := Stride(rule, t);
    if |rule.days| > 0 {
      SixTriesSuffice(u.day, rule.days);
      ListedWithin(u.day, rule.days, 6);
    }
  }

  /** Well founded or not: a round that ends at all ends on a listed weekday and keeps the wall-clock time. */
  lemma CustomRoundLands(rule: Rule, t: Moment)
    requires rule.repeatType.Custom? && Round(rule, t).Some?
    ensures |rule.days| > 0 ==> Listed(Round(rule, t).value.day, rule.days)
    ensures Round(rule, t).value.second == t.second
  {
    hide MonthsLater, Weekday;
    ListedWithin(Stride(rule, t).day, rule.days, 6);
  }

  /** A custom meeting past its first date next takes place strictly after now and on a listed weekday. */
  lemma CustomLoop(rule: Rule, now: int, k: nat)
    requires rule.zone.FixedZone? && rule.repeatType.Custom?
    requires After(now, rule.scheduledTime) && StopsAfter(rule, now, k)
    ensures Before(now, OrbitTime(rule, k))
    ensures |rule.days| > 0 ==> Listed(Orbit(rule, k).value.day, rule.days)
    ensures k > 0 && Orbit(rule, k - 1).Some? && !Before(now, OrbitTime(rule, k - 1))
  {
    OrbitStarts(rule);
    assert k > 0;
    CustomRoundLands(rule, Orbit(rule, k - 1).value);
    hide Round, InZone;
  }

  /** In civil dates: on a listed day of the week, Sunday counting as 0, at the wall-clock time of the first date. */
  lemma CustomAnswer(rule: Rule, now: int, r: int)
    requires rule.zone.FixedZone? && rule.repeatType.Custom? && now > rule.scheduledTime * 1_000_000_000
    requires NextIs(rule, now, r) && r != 0
    ensures var offset, second := rule.zone.offset, (rule.scheduledTime + rule.zone.offset) % 86400;
            && now < r * 1_000_000_000
            && r == UnixAt(LocalDate(r, offset), second, offset)
            && (|rule.days| > 0 ==> (Zeller(LocalDate(r, offset)) + 6) % 7 in rule.days)
  {
    hide *;
    var k := AnswerIsStop(rule, now, r);
    OrbitDate(rule, k);
    CustomLoop(rule, now, k);
    ListedByDate(Orbit(rule, k).value.day, rule.days);
  }

  lemma ListedByDate(n: int, days: seq<int>)
    ensures Listed(n, days) <==> (Zeller(DateOf(n)) + 6) % 7 in days
  {
    WeekdayOfDate(n);
    hide DateOf, Zeller, Weekday;
    assert Weekday(n) == (Zeller(DateOf(n)) + 6) % 7;
  }

  // ---- which loops end ----

  lemma {:induction false} StopsWithin(rule: Rule, now: int, k: nat)
    requires rule.zone.FixedZone? && Orbit(rule, k).Some? && Exits(rule, now, Orbit(rule, k).value)
    ensures exists j: nat :: j <= k && StopsAfter(rule, now, j)
  {
    if !StopsAfter(rule, now, k) {
      var j: nat :| j < k && !(Orbit(rule, j).Some? && !Exits(rule, now, Orbit(rule, j).value));
      OrbitPrefix(rule, j, k);
      StopsWithin(rule, now, j);
    }
  }

  lemma {:induction false} OrbitPrefix(rule: Rule, j: nat, k: nat)
    requires rule.zone.FixedZone? && Orbit(rule, k).Some? && j <= k
    ensures Orbit(rule, j).Some?
    decreases k
  {
    hide Round;
    if j < k {
      OrbitPrefix(rule, j, k - 1);
    }
  }

  /** Far enough out every orbit lies after now, and on one of three days in a row it is not the weekend. */
  lemma WellFoundedEnds(rule: Rule, now: int)
    requires rule.zone.FixedZone? && Repeats(rule.repeatType) && WellFounded(rule)
    ensures LoopEnds(rule, now)
  {
    OrbitStarts(rule);
    var k: nat := Behind(now, rule.scheduledTime);
    OrbitIncreases(rule, 0, k);
    if rule.repeatType.WeekDay? {
      DailyOrbit(rule, k);
      DailyOrbit(rule, k + 1);
      DailyOrbit(rule, k + 2);
      WeekendIsShort(Orbit(rule, k).value.day);
      k := if !IsWeekend(Orbit(rule, k).value.day) then k
           else if !IsWeekend(Orbit(rule, k + 1).value.day) then k + 1 else k + 2;
    }
    hide Orbit, Round, InZone, IsWeekend;
    assert Exits(rule, now, Orbit(rule, k).value);
    StopsWithin(rule, now, k);
  }

  /** A round of an ill-founded rule does not move forward from a listed day, or at all without a day list. */
  lemma StuckRound(rule: Rule, t: Moment)
    requires rule.repeatType.Custom? && !WellFounded(rule) && Round(rule, t).Some?
    requires |rule.days| > 0 ==> Listed(t.day, rule.days)
    ensures Round(rule, t).value.day <= t.day
  {
    MonthsAdvance(t.day, rule.interval);
    hide MonthsLater, Weekday;
    var u := Stride(rule, t);
    SixTriesSuffice(u.day, rule.days);
    ListedWithin(u.day, rule.days, 6);
  }

  /** So its orbit never passes its first round. */
  lemma {:induction false} StuckOrbit(rule: Rule, k: nat)
    requires rule.zone.FixedZone? && rule.repeatType.Custom? && !WellFounded(rule)
    requires k > 0 && Orbit(rule, k).Some?
    ensures Orbit(rule, 1).Some? && OrbitTime(rule, k) <= OrbitTime(rule, 1)
    ensures |rule.days| > 0 ==> Listed(Orbit(rule, k).value.day, rule.days)
  {
    hide Round, Listed, InZone;
    CustomRoundLands(rule, Orbit(rule, k - 1).value);
    if k > 1 {
      StuckOrbit(rule, k - 1);
      StuckRound(rule, Orbit(rule, k - 1).value);
    }
  }

  /**
   Nothing checks a custom rule before it is stored. Entered at this clock, its loop ends exactly when the rule is
   well founded or the first round already lies after now.
   */
  lemma {:induction false} CustomLoopEndsIff(rule: Rule, now: int)
    requires rule.zone.FixedZone? && rule.repeatType.Custom? && After(now, rule.scheduledTime)
    ensures LoopEnds(rule, now)
            <==> WellFounded(rule) || (Orbit(rule, 1).Some? && Before(now, OrbitTime(rule, 1)))
  {
    OrbitStarts(rule);
    hide Orbit, Round, InZone;
    if WellFounded(rule) {
      WellFoundedEnds(rule, now);
    } else if Orbit(rule, 1).Some? && Before(now, OrbitTime(rule, 1)) {
      StopsWithin(rule, now, 1);
    } else if LoopEnds(rule, now) {
      var k: nat :| StopsAfter(rule, now, k);
      StuckOrbit(rule, k);
      assert false;
    }
  }

  /** The scheduler has an answer exactly when its loop, if it is entered, ends. */
  lemma AnswersIff(rule: Rule, now: int)
    ensures Answers(rule, now) <==> exists r :: NextIs(rule, now, r)
  {
    hide Orbit, OrbitTime, Exits, RunsFor;
    if EntersLoop(rule, now) {
      if Answers(rule, now) {
        if !rule.repeatType.Custom? {
          WellFoundedEnds(rule, now);
        }
        var k: nat :| StopsAfter(rule, now, k);
        assert NextIs(rule, now, Cut(rule, OrbitTime(rule, k)));
      }
    } else {
      var r := if rule.repeatType.NoneRepeat? && Before(now, rule.scheduledTime) then rule.scheduledTime
               else if !After(now, rule.scheduledTime) then Cut(rule, rule.scheduledTime)
               else Cut(rule, ZERO_TIME);
      assert NextIs(rule, now, r) || NextIs(rule, now, 0);
    }
  }

  /** The end date keeps the loop from being entered, or the first round lies beyond it. */
  predicate EndsInOneRound(rule: Rule)
    requires rule.zone.FixedZone?
  {
    && rule.endDate > 0
    && (rule.endDate <= rule.scheduledTime || (Orbit(rule, 1).Some? && OrbitTime(rule, 1) > rule.endDate))
  }

  /**
   Which stored rules the scheduler can always be asked about: every rule but a custom one that is not well founded,
   and of those the ones that need no second round before their end date.
   */
  lemma AlwaysAnswersIff(rule: Rule)
    ensures (forall now :: Answers(rule, now))
            <==> rule.zone.UnknownZone? || !rule.repeatType.Custom? || WellFounded(rule) || EndsInOneRound(rule)
  {
    hide Orbit, Round, InZone, OrbitTime, LoopEnds;
    if rule.zone.FixedZone? && rule.repeatType.Custom? {
      forall now | EntersLoop(rule, now)
        ensures Answers(rule, now)
                <==> WellFounded(rule) || (Orbit(rule, 1).Some? && Before(now, OrbitTime(rule, 1)))
      {
        CustomLoopEndsIff(rule, now);
      }
      var last := if rule.endDate > 0 then rule.endDate
                  else if Orbit(rule, 1).Some? && OrbitTime(rule, 1) > rule.scheduledTime then OrbitTime(rule, 1)
                  else rule.scheduledTime + 1;
      var now := last * NANOS_PER_SECOND;
      assert !WellFounded(rule) && !EndsInOneRound(rule) ==> EntersLoop(rule, now) && !Answers(rule, now);
    }
  }
}
