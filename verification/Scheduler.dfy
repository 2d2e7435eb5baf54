/**
 Recurrence: when does a meeting take place next?

 Stored times are whole Unix seconds. The clock is read with a finer grain than that, and the scheduler
 compares the raw reading, so `now` counts nanoseconds since the Unix epoch. A time zone is a fixed offset
 from UTC, or unknown when it cannot be loaded.
 */
module Scheduler {
  import opened Options
  import opened Calendar

  const NANOS_PER_SECOND := 1_000_000_000
  const SECONDS_PER_DAY := 86400

  // What the zero value of Go's time.Time answers for Unix().
  const ZERO_TIME := -62135596800

  datatype Zone = UnknownZone | FixedZone(offset: int)

  datatype RepeatType =
    | Unset  // the empty string
    | NoneRepeat | Daily | Weekly | WeekDay | Monthly | Custom
    | OtherRepeat(name: string)

  datatype UnitType = NoUnit | DayUnit | WeekUnit | MonthUnit | OtherUnit(name: string)

  /** The fields of a meeting that decide when it takes place. */
  datatype Rule = Rule(
    zone: Zone,
    scheduledTime: int,
    repeatType: RepeatType,
    endDate: int,
    unit: UnitType,
    interval: int,
    days: seq<int>)

  /** A wall-clock time: a calendar day and the second of that day. */
  datatype Moment = Moment(day: int, second: int)

  function InZone(unix: int, offset: int): (t: Moment) {
    Moment(UNIX_EPOCH_DAY + (unix + offset) / SECONDS_PER_DAY, (unix + offset) % SECONDS_PER_DAY)
  }

  function UnixOf(t: Moment, offset: int): (unix: int) {
    (t.day - UNIX_EPOCH_DAY) * SECONDS_PER_DAY + t.second - offset
  }

  /** Go's AddDate(0, months, days) on a wall-clock time. */
  function Later(t: Moment, months: int, days: int): (t': Moment) {
    t.(day := AddDate(t.day, months, days))
  }

  function DaysOn(t: Moment, days: int): (t': Moment) {
    t.(day := t.day + days)
  }

  function MonthsOn(t: Moment, months: int): (t': Moment) {
    t.(day := MonthsLater(t.day, months))
  }

  predicate Before(now: int, unix: int) {
    now < unix * NANOS_PER_SECOND
  }

  predicate After(now: int, unix: int) {
    now > unix * NANOS_PER_SECOND
  }

  function Seconds(now: int): (s: int) {
    now / NANOS_PER_SECOND
  }

  predicate IsWeekend(day: int) {
    Weekday(day) == SATURDAY || Weekday(day) == SUNDAY
  }

  predicate Listed(day: int, days: seq<int>) {
    Weekday(day) in days
  }

  predicate Repeats(repeatType: RepeatType) {
    repeatType in {Daily, Weekly, WeekDay, Monthly, Custom}
  }

  // ---- the specification: first element of an orbit that satisfies the exit condition ----

  /** The first listed day from `day` on, looking at most `tries` days further. */
  function FirstListed(day: int, days: seq<int>, tries: nat): (found: Option<int>)
    decreases tries
  {
    if Listed(day, days) then Some(day)
    else if tries == 0 then None
    else FirstListed(day + 1, days, tries - 1)
  }

  /** Where one round of a Custom rule moves to before it looks for a listed day; nowhere for an unknown unit. */
  function Stride(rule: Rule, t: Moment): (t': Moment) {
    match rule.unit
    case DayUnit => DaysOn(t, rule.interval)
    case WeekUnit => DaysOn(t, rule.interval * 7)
    case MonthUnit => MonthsOn(t, rule.interval)
    case _ => t
  }

  /** The moves of one round of the loop for the rule's repeat type; None when the round itself never ends. */
  function Round(rule: Rule, t: Moment): (t': Option<Moment>) {
    match rule.repeatType
    case Weekly => Some(DaysOn(t, 7))
    case Monthly => Some(MonthsOn(t, 1))
    case Custom =>
      var u := Stride(rule, t);
      if |rule.days| == 0 then Some(u)
      else (match FirstListed(u.day, rule.days, 6)
            case None => None
            case Some(day) => Some(u.(day := day)))
    case _ => Some(DaysOn(t, 1))
  }

  function Orbit(rule: Rule, k: nat): (t: Option<Moment>)
    requires rule.zone.FixedZone?
  {
    if k == 0 then Some(InZone(rule.scheduledTime, rule.zone.offset))
    else match Orbit(rule, k - 1)
         case None => None
         case Some(t) => Round(rule, t)
  }

  /** The k-th time the loop looks at, in Unix seconds. It does not depend on the clock. */
  function OrbitTime(rule: Rule, k: nat): (unix: int)
    requires rule.zone.FixedZone? && Orbit(rule, k).Some?
  {
    UnixOf(Orbit(rule, k).value, rule.zone.offset)
  }

  /** The negation of the loop's guard. */
  predicate Exits(rule: Rule, now: int, t: Moment)
    requires rule.zone.FixedZone?
  {
    Before(now, UnixOf(t, rule.zone.offset)) && (rule.repeatType.WeekDay? ==> !IsWeekend(t.day))
  }

  /** The loop stops after exactly k rounds. */
  ghost predicate StopsAfter(rule: Rule, now: int, k: nat)
    requires rule.zone.FixedZone?
  {
    Orbit(rule, k).Some? && Exits(rule, now, Orbit(rule, k).value) && RunsFor(rule, now, k)
  }

  ghost predicate LoopEnds(rule: Rule, now: int)
    requires rule.zone.FixedZone?
  {
    exists k: nat :: StopsAfter(rule, now, k)
  }

  ghost predicate RunsFor(rule: Rule, now: int, k: nat)
    requires rule.zone.FixedZone?
  {
    forall j: nat :: j < k ==> Orbit(rule, j).Some? && !Exits(rule, now, Orbit(rule, j).value)
  }

  /** What a candidate becomes once the end date, if one is set, has had its say. */
  function Cut(rule: Rule, t: int): (r: int) {
    if rule.endDate > 0 && t > rule.endDate then 0 else t
  }

  /** `r` is the scheduler's answer for the rule at the given clock; 0 stands for "never". */
  ghost predicate NextIs(rule: Rule, now: int, r: int) {
    if rule.zone.UnknownZone? then r == 0
    else if rule.repeatType.NoneRepeat? then
      r == if Before(now, rule.scheduledTime) then rule.scheduledTime else 0
    else if rule.endDate > 0 && After(now, rule.endDate) then r == 0
    else if !After(now, rule.scheduledTime) then r == Cut(rule, rule.scheduledTime)
    else if !Repeats(rule.repeatType) then r == Cut(rule, ZERO_TIME)
    else exists k: nat :: StopsAfter(rule, now, k) && r == Cut(rule, OrbitTime(rule, k))
  }

  // ---- when the loops end ----

  /** The interval moves forward, the unit is known and a day list, if given, names some weekday. */
  predicate WellFounded(rule: Rule) {
    rule.repeatType.Custom? ==>
      && rule.interval >= 1
      && rule.unit in {DayUnit, WeekUnit, MonthUnit}
      && (|rule.days| > 0 ==> NamesAWeekday(rule.days))
  }

  predicate NamesAWeekday(days: seq<int>) {
    exists d :: d in days && 0 <= d <= 6
  }

  lemma {:induction false} ListedWithin(day: int, days: seq<int>, tries: nat)
    ensures FirstListed(day, days, tries).Some? <==> exists i :: day <= i <= day + tries && Listed(i, days)
    ensures FirstListed(day, days, tries).Some? ==>
              var found := FirstListed(day, days, tries).value;
              && day <= found <= day + tries && Listed(found, days)
              && forall i :: day <= i < found ==> !Listed(i, days)
    decreases tries
  {
    if !Listed(day, days) && tries > 0 {
      ListedWithin(day + 1, days, tries - 1);
    }
  }

  lemma WithinAWeek(day: int, weekday: int) returns (i: int)
    requires 0 <= weekday <= 6
    ensures day <= i <= day + 6 && Weekday(i) == weekday
  {
    i := day + (weekday - Weekday(day)) % 7;
  }

  /** Seven days in a row meet every weekday, so six tries settle whether there is a listed day at all. */
  lemma {:induction false} SixTriesSuffice(day: int, days: seq<int>)
    ensures NamesAWeekday(days) <==> FirstListed(day, days, 6).Some?
    ensures !NamesAWeekday(days) ==> forall i :: !Listed(i, days)
  {
    ListedWithin(day, days, 6);
    if NamesAWeekday(days) {
      var d :| d in days && 0 <= d <= 6;
      var i := WithinAWeek(day, d);
      assert Listed(i, days);
    }
    forall i | Listed(i, days) ensures NamesAWeekday(days) {
      assert Weekday(i) in days;
    }
  }

  /** Go's date arithmetic in the loops is plain counting of days and months. */
  lemma LaterCounts(t: Moment, n: int)
    ensures Later(t, 0, n) == DaysOn(t, n)
    ensures Later(t, n, 0) == MonthsOn(t, n)
  {
    AddDays(t.day, n);
    AddDateCounts(t.day, n, 0);
    hide AddDate, MonthsLater;
  }

  /** Every round of every loop ends, moves at least one day forward and keeps the wall-clock time. */
  lemma RoundMovesForward(rule: Rule, t: Moment)
    requires Repeats(rule.repeatType) && WellFounded(rule)
    ensures Round(rule, t).Some?
    ensures Round(rule, t).value.second == t.second
    ensures Round(rule, t).value.day >= t.day + 1
  {
    MonthsAdvance(t.day, 1);
    if rule.repeatType.Custom? {
      MonthsAdvance(t.day, rule.interval);
      var u := Stride(rule, t);
      if |rule.days| > 0 {
        SixTriesSuffice(u.day, rule.days);
        ListedWithin(u.day, rule.days, 6);
      }
    }
  }

  // ---- the implementation ----

  method IsValidDay(weekday: int, days: seq<int>) returns (found: bool)
    ensures found <==> weekday in days
  {
    for i := 0 to |days|
      invariant weekday !in days[..i]
    {
      if weekday == days[i] {
        return true;
      }
    }
    return false;
  }

  /** The loop has gone k rounds without leaving and stands at t. */
  ghost predicate Reached(rule: Rule, now: int, k: nat, t: Moment)
    requires rule.zone.FixedZone?
  {
    Orbit(rule, k) == Some(t) && RunsFor(rule, now, k)
  }

  /** How many seconds the loop is still behind the clock. */
  function Behind(now: int, unix: int): (s: nat) {
    if Before(now, unix) then 0 else Seconds(now) - unix + 1
  }

  lemma BehindShrinks(now: int, unix: int, days: int)
    requires !Before(now, unix) && days >= 1
    ensures Behind(now, unix + days * SECONDS_PER_DAY) < Behind(now, unix)
  {
  }

  predicate EntersLoop(rule: Rule, now: int) {
    && rule.zone.FixedZone? && Repeats(rule.repeatType)
    && !(rule.endDate > 0 && After(now, rule.endDate))
    && After(now, rule.scheduledTime)
  }

  /** The scheduler comes back with an answer: it is not in a custom loop that never leaves at this clock. */
  ghost predicate Answers(rule: Rule, now: int) {
    EntersLoop(rule, now) && rule.repeatType.Custom? ==> LoopEnds(rule, now)
  }

  method NextMeetingTimestamp(rule: Rule, now: int) returns (r: int)
    requires Answers(rule, now)
    ensures NextIs(rule, now, r)
  {
    if rule.zone.UnknownZone? {
      return 0;
    }
    var offset := rule.zone.offset;
    if rule.repeatType.NoneRepeat? {
      if Before(now, rule.scheduledTime) {
        return rule.scheduledTime;
      }
      return 0;
    }
    if rule.endDate > 0 && After(now, rule.endDate) {
      return 0;
    }
    var next := rule.scheduledTime;
    if After(now, rule.scheduledTime) {
      if Repeats(rule.repeatType) {
        var nextTime := RunLoop(rule, now);
        next := UnixOf(nextTime, offset);
      } else {
        next := ZERO_TIME;
      }
    }
    if rule.endDate > 0 && next > rule.endDate {
      return 0;
    }
    return next;
  }

  /** The loop of the rule's repeat type. */
  method RunLoop(rule: Rule, now: int) returns (nextTime: Moment)
    requires EntersLoop(rule, now) && Answers(rule, now)
    ensures exists k: nat :: StopsAfter(rule, now, k) && nextTime == Orbit(rule, k).value
  {
    hide Later, MonthsLater;
    var offset := rule.zone.offset;
    nextTime := InZone(rule.scheduledTime, offset);
    ghost var k: nat := 0;
    match rule.repeatType {
      case Daily =>
        while !Before(now, UnixOf(nextTime, offset))
          invariant Reached(rule, now, k, nextTime)
          decreases Behind(now, UnixOf(nextTime, offset))
        {
          RoundMovesForward(rule, nextTime);
          BehindShrinks(now, UnixOf(nextTime, offset), Round(rule, nextTime).value.day - nextTime.day);
          LaterCounts(nextTime, 1);
          nextTime := Later(nextTime, 0, 1);
          k := k + 1;
        }
      case Weekly =>
        while !Before(now, UnixOf(nextTime, offset))
          invariant Reached(rule, now, k, nextTime)
          decreases Behind(now, UnixOf(nextTime, offset))
        {
          RoundMovesForward(rule, nextTime);
          BehindShrinks(now, UnixOf(nextTime, offset), Round(rule, nextTime).value.day - nextTime.day);
          LaterCounts(nextTime, 7);
          nextTime := Later(nextTime, 0, 7);
          k := k + 1;
        }
      case WeekDay =>
        while || !Before(now, UnixOf(nextTime, offset))
              || Weekday(nextTime.day) == SATURDAY || Weekday(nextTime.day) == SUNDAY
          invariant Reached(rule, now, k, nextTime)
          decreases Behind(now, UnixOf(nextTime, offset)), DaysToMonday(nextTime.day)
        {
          LaterCounts(nextTime, 1);
          if !Before(now, UnixOf(nextTime, offset)) {
            BehindShrinks(now, UnixOf(nextTime, offset), 1);
          }
          nextTime := Later(nextTime, 0, 1);
          k := k + 1;
        }
      case Monthly =>
        while !Before(now, UnixOf(nextTime, offset))
          invariant Reached(rule, now, k, nextTime)
          decreases Behind(now, UnixOf(nextTime, offset))
        {
          RoundMovesForward(rule, nextTime);
          BehindShrinks(now, UnixOf(nextTime, offset), Round(rule, nextTime).value.day - nextTime.day);
          LaterCounts(nextTime, 1);
          nextTime := Later(nextTime, 1, 0);
          k := k + 1;
        }
      case Custom =>
        ghost var stop: nat :| StopsAfter(rule, now, stop);
        while !Before(now, UnixOf(nextTime, offset))
          invariant k <= stop && Reached(rule, now, k, nextTime)
          decreases stop - k
        {
          assert Orbit(rule, k + 1).Some?;
          nextTime := CustomRound(rule, nextTime);
          k := k + 1;
        }
    }
  }

  /** Days until the weekend is over. */
  function DaysToMonday(day: int): (n: nat) {
    if Weekday(day) == SATURDAY then 2 else if Weekday(day) == SUNDAY then 1 else 0
  }

  /** One round of the Custom loop, with its inner search for a listed weekday. */
  method CustomRound(rule: Rule, t: Moment) returns (nextTime: Moment)
    requires rule.repeatType.Custom? && Round(rule, t).Some?
    ensures Round(rule, t) == Some(nextTime)
  {
    hide Later, Weekday, MonthsLater, AddDate;
    LaterCounts(t, rule.interval);
    LaterCounts(t, rule.interval * 7);
    nextTime := t;
    match rule.unit {
      case DayUnit => nextTime := Later(nextTime, 0, rule.interval);
      case WeekUnit => nextTime := Later(nextTime, 0, rule.interval * 7);
      case MonthUnit => nextTime := Later(nextTime, rule.interval, 0);
      case _ =>
    }
    if |rule.days| > 0 {
      ghost var tries: nat := 6;
      ghost var first := FirstListed(nextTime.day, rule.days, 6);
      var valid := IsValidDay(Weekday(nextTime.day), rule.days);
      while !valid
        invariant valid <==> Listed(nextTime.day, rule.days)
        invariant nextTime.second == t.second
        invariant FirstListed(nextTime.day, rule.days, tries) == first
        decreases tries
      {
        LaterCounts(nextTime, 1);
        nextTime := Later(nextTime, 0, 1);
        tries := tries - 1;
        valid := IsValidDay(Weekday(nextTime.day), rule.days);
      }
    }
  }
}
