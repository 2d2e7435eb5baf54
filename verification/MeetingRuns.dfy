/**
 What holds over whole runs of the meeting service: which statuses can follow which, which fields never change,
 and under exactly which condition Completed is final.
 */
module MeetingRuns {
  import opened Options
  import opened Scheduler
  import opened Meetings
  import opened Identifiers
  import opened Recurrence
  import opened Lifecycle

  /** Handlers one after the other, each at its own reading of a clock that never goes back. */
  datatype Run = Run(stores: seq<Store>, events: seq<Event>, clocks: seq<int>)

  ghost predicate IsRun(run: Run) {
    && |run.stores| == |run.events| + 1 && |run.clocks| == |run.events|
    && run.stores[0] == Store(map[], 0)
    && (forall i :: 0 <= i < |run.events| ==> 0 < run.clocks[i])
    && (forall i, j :: 0 <= i < j < |run.events| ==> run.clocks[i] <= run.clocks[j])
    && forall i :: 0 <= i < |run.events| ==> StepAt(run, i)
  }

  ghost predicate StepAt(run: Run, i: nat)
    requires |run.stores| == |run.events| + 1 && |run.clocks| == |run.events| && i < |run.events|
  {
    Step(run.stores[i], run.events[i], run.clocks[i], run.stores[i + 1])
  }

  // ---- identifiers are issued once ----

  predicate Issued(s: Store, id: string) {
    exists n: nat :: n <= s.counter && id == MeetingID(n)
  }

  predicate AllIssued(s: Store) {
    forall id :: id in s.meetings ==> Issued(s, id)
  }

  lemma NextIDIsFresh(s: Store)
    requires AllIssued(s)
    ensures MeetingID(s.counter + 1) !in s.meetings && !Issued(s, MeetingID(s.counter + 1))
  {
    forall n: nat | n <= s.counter ensures MeetingID(n) != MeetingID(s.counter + 1) {
      MeetingIDInjective(n, s.counter + 1);
    }
  }

  lemma NextIDIsIssued(s: Store)
    ensures Issued(Counted(s), MeetingID(s.counter + 1))
  {
  }

  /** Of the identifiers in use a step adds at most the next one, and then the counter says so. */
  lemma StepAddsNext(s: Store, e: Event, now: int, s': Store)
    requires Step(s, e, now, s')
    ensures s'.meetings.Keys <= s.meetings.Keys
            || (s'.meetings.Keys == s.meetings.Keys + {MeetingID(s.counter + 1)} && s'.counter == s.counter + 1)
    ensures s.counter <= s'.counter
  {
    hide MeetingID, RefreshedTo, NextIs, UpdatedThrough, BookedMeeting, ImmediateMeeting;
  }

  lemma IssuedGrows(s: Store, s': Store, id: string)
    requires s.counter <= s'.counter && Issued(s, id)
    ensures Issued(s', id)
  {
    var n: nat :| n <= s.counter && id == MeetingID(n);
    assert n <= s'.counter;
  }

  /** What a step can do to one identifier: nothing new appears under an identifier that has been issued. */
  lemma StepIssues(s: Store, e: Event, now: int, s': Store, id: string)
    requires AllIssued(s) && Step(s, e, now, s')
    ensures AllIssued(s')
    ensures Issued(s, id) ==> Issued(s', id)
    ensures Issued(s, id) && id in s'.meetings ==> id in s.meetings
  {
    NextIDIsFresh(s);
    StepAddsNext(s, e, now, s');
    NextIDIsIssued(s);
    hide Step, Issued;
    forall i | Issued(s, i) ensures Issued(s', i) {
      IssuedGrows(s, s', i);
    }
    if s'.counter == s.counter + 1 {
      IssuedGrows(Counted(s), s', MeetingID(s.counter + 1));
    }
    forall i | i in s'.meetings ensures Issued(s', i) {
      assert i in s'.meetings.Keys;
    }
  }

  lemma {:induction false} RunIssues(run: Run, i: nat)
    requires IsRun(run) && i < |run.stores|
    ensures AllIssued(run.stores[i])
  {
    if i > 0 {
      RunIssues(run, i - 1);
      assert StepAt(run, i - 1);
      StepIssues(run.stores[i - 1], run.events[i - 1], run.clocks[i - 1], run.stores[i], "");
    }
  }

  /** A deleted meeting never comes back. */
  lemma {:induction false} DeletedIsFinal(run: Run, i: nat, j: nat, id: string)
    requires IsRun(run) && i <= j < |run.stores|
    requires Issued(run.stores[i], id) && id !in run.stores[i].meetings
    ensures id !in run.stores[j].meetings
    ensures Issued(run.stores[j], id)
    decreases j
  {
    if i < j {
      DeletedIsFinal(run, i, j - 1, id);
      RunIssues(run, j - 1);
      assert StepAt(run, j - 1);
      StepIssues(run.stores[j - 1], run.events[j - 1], run.clocks[j - 1], run.stores[j], id);
    }
  }

  // ---- what never changes about a record, and what every record looks like ----

  predicate WellKept(id: string, info: MeetingInfo) {
    info.meetingID == id && TidyRule(info.rule)
  }

  lemma {:induction false} StepKeepsRecord(s: Store, e: Event, now: int, s': Store, id: string)
    requires Step(s, e, now, s') && id in s.meetings && id in s'.meetings
    ensures SameIdentity(s.meetings[id], s'.meetings[id])
    ensures WellKept(id, s.meetings[id]) ==> WellKept(id, s'.meetings[id])
    ensures s'.meetings[id].status.InProgress? ==> s.meetings[id].status.InProgress?
  {
    if e.UpdateInfo? && e.read.Some? {
      UpdateKeeps(s.meetings[id], e.read.value, e.update);
    }
    hide NextIs, UpdatedThrough, SortDays, MeetingID;
  }

  lemma {:induction false} StepAddsTidyRecord(s: Store, e: Event, now: int, s': Store, id: string)
    requires Step(s, e, now, s') && id !in s.meetings && id in s'.meetings
    ensures WellKept(id, s'.meetings[id])
    ensures e.Book? || e.CreateImmediate?
    ensures s'.meetings[id].status == if e.Book? then Scheduled else InProgress
  {
    hide NextIs, MeetingID, RefreshedTo;
  }

  /**
   In every reachable store a record is filed under its own identifier, its days are sorted, and unless it
   repeats by a custom rule it has no unit, no interval and no days.
   */
  lemma {:induction false} RecordsAreTidy(run: Run, i: nat, id: string)
    requires IsRun(run) && i < |run.stores| && id in run.stores[i].meetings
    ensures WellKept(id, run.stores[i].meetings[id])
  {
    if i > 0 {
      assert StepAt(run, i - 1);
      if id in run.stores[i - 1].meetings {
        RecordsAreTidy(run, i - 1, id);
        StepKeepsRecord(run.stores[i - 1], run.events[i - 1], run.clocks[i - 1], run.stores[i], id);
      } else {
        StepAddsTidyRecord(run.stores[i - 1], run.events[i - 1], run.clocks[i - 1], run.stores[i], id);
      }
    }
  }

  lemma PresentBetween(run: Run, i: nat, j: nat, id: string)
    requires IsRun(run) && i < j < |run.stores|
    requires id in run.stores[i].meetings && id in run.stores[j].meetings
    ensures id in run.stores[j - 1].meetings
  {
    RunIssues(run, i);
    if id !in run.stores[j - 1].meetings {
      IssuedStays(run, i, j - 1, id);
      DeletedIsFinal(run, j - 1, j, id);
      assert false;
    }
  }

  lemma {:induction false} IssuedStays(run: Run, i: nat, j: nat, id: string)
    requires IsRun(run) && i <= j < |run.stores| && Issued(run.stores[i], id)
    ensures Issued(run.stores[j], id)
    decreases j
  {
    hide Step, Issued, MeetingID;
    if i < j {
      IssuedStays(run, i, j - 1, id);
      RunIssues(run, j - 1);
      assert StepAt(run, j - 1);
      StepIssues(run.stores[j - 1], run.events[j - 1], run.clocks[j - 1], run.stores[j], id);
    }
  }

  /**
   Over any run a meeting keeps its identifier, its creator and its start time; and it is In-Progress only as
   long as it has been since it was created, because no handler ever sets that status on an existing record.
   */
  lemma {:induction false} IdentityIsKept(run: Run, i: nat, j: nat, id: string)
    requires IsRun(run) && i <= j < |run.stores|
    requires id in run.stores[i].meetings && id in run.stores[j].meetings
    ensures SameIdentity(run.stores[i].meetings[id], run.stores[j].meetings[id])
    ensures run.stores[j].meetings[id].status.InProgress? ==> run.stores[i].meetings[id].status.InProgress?
    decreases j
  {
    if i < j {
      PresentBetween(run, i, j, id);
      IdentityIsKept(run, i, j - 1, id);
      assert StepAt(run, j - 1);
      StepKeepsRecord(run.stores[j - 1], run.events[j - 1], run.clocks[j - 1], run.stores[j], id);
    }
  }

  // ---- Completed ----

  /** From now on the scheduler never names a positive time for this rule. */
  ghost predicate DeadFrom(rule: Rule, now: int) {
    forall later, r :: now <= later && NextIs(rule, later, r) ==> r <= 0
  }

  /**
   The guard: the scheduled time of a meeting that does not repeat must not lie beyond the end of the meeting,
   which is counted from its start time. As long as the handlers read the record as it is stored, nothing else can
   bring a completed meeting back.
   */
  predicate SafeSchedule(info: MeetingInfo) {
    var s, end := info.rule.scheduledTime, info.startTime + info.meetingDuration;
    match info.rule.repeatType
    case NoneRepeat =>
      info.rule.zone.UnknownZone? || s <= 0 || s <= end + 1
    case Unset =>
      info.rule.zone.UnknownZone? || s <= 0 || s <= end || 0 < info.rule.endDate < s
    case _ => true
  }

  lemma {:induction false} DeadAfterAnswer(rule: Rule, now: int, r: int)
    requires 0 < now && NextIs(rule, now, r) && r <= 0
    ensures DeadFrom(rule, now)
  {
    forall later, q | now <= later && NextIs(rule, later, q) ensures q <= 0 {
      NotPositiveStays(rule, now, later, r, q);
    }
  }

  lemma {:induction false} DeadAfterEndDate(rule: Rule, now: int)
    requires 0 < rule.endDate < Seconds(now) && !rule.repeatType.NoneRepeat?
    ensures DeadFrom(rule, now)
  {
    forall later, q | now <= later && NextIs(rule, later, q) ensures q <= 0 {
      assert After(later, rule.endDate);
    }
  }

  lemma {:induction false} DeadAfterNonRepeat(info: MeetingInfo, now: int)
    requires 0 < now && IsNonRepeat(info.rule) && SafeSchedule(info)
    requires info.startTime + info.meetingDuration < Seconds(now)
    ensures DeadFrom(info.rule, now)
  {
    forall later, q | now <= later && NextIs(info.rule, later, q) ensures q <= 0 {
      assert Seconds(now) <= Seconds(later);
    }
  }

  predicate IsCompleted(s: Store, id: string) {
    id in s.meetings && s.meetings[id].status.Completed?
  }

  /** A completed meeting that satisfies the guard is never scheduled again. */
  ghost predicate CompletedIsDead(s: Store, now: int, id: string) {
    IsCompleted(s, id) && SafeSchedule(s.meetings[id]) ==> DeadFrom(s.meetings[id].rule, now)
  }

  /** If the event acts on this meeting, it acts on the record as it is stored. */
  predicate ReadsStored(s: Store, e: Event, id: string) {
    var stored := if id in s.meetings then Some(s.meetings[id]) else None;
    match e
    case End(req, read, _, _) => req.meetingID == id ==> read == stored
    case UpdateInfo(meetingID, read, _) => meetingID == id ==> read == stored
    case _ => true
  }

  /** The refresh rewrites the status and nothing else. */
  lemma RefreshKeepsRest(info: MeetingInfo, now: int, isToday: bool, info': MeetingInfo)
    requires RefreshedTo(info, now, isToday, info')
    ensures info' == info.(status := info'.status)
    ensures !IsOpen(info.status) ==> info' == info
  {
    hide NextIs;
  }

  lemma RefreshMakesDead(info: MeetingInfo, now: int, isToday: bool, info': MeetingInfo)
    requires 0 < now && SafeSchedule(info) && !info.status.Completed?
    requires RefreshedTo(info, now, isToday, info') && info'.status.Completed?
    ensures DeadFrom(info.rule, now)
  {
    hide DeadFrom, NextIs, Seconds, SafeSchedule;
    if IsNonRepeat(info.rule) {
      DeadAfterNonRepeat(info, now);
    } else if info.rule.endDate > 0 && info.rule.endDate < Seconds(now) {
      DeadAfterEndDate(info.rule, now);
    } else {
      DeadAfterAnswer(info.rule, now, 0);
    }
  }

  lemma EndMakesDead(s: Store, e: Event, now: int, s': Store, id: string)
    requires 0 < now && e.End? && Step(s, e, now, s') && CompletedIsDead(s, now, id) && ReadsStored(s, e, id)
    ensures CompletedIsDead(s', now, id)
  {
    hide DeadFrom, NextIs, SafeSchedule;
    if id == e.end.meetingID && s' != s && IsCompleted(s', id) {
      var info := s.meetings[id];
      var next :| NextIs(info.rule, now, next) && s' == Ended(s, e.end, e.roomCloses, next);
      DeadAfterAnswer(info.rule, now, next);
    }
  }

  lemma RefreshKeepsDead(s: Store, e: Event, now: int, s': Store, id: string)
    requires 0 < now && e.Refresh? && Step(s, e, now, s') && CompletedIsDead(s, now, id)
    ensures CompletedIsDead(s', now, id)
  {
    hide DeadFrom, NextIs, RefreshedTo;
    if id in s.meetings && id in e.stored {
      var info, info' := s.meetings[id], s'.meetings[id];
      assert RefreshedIf(id in e.stored, info, now, id in e.today, info');
      RefreshKeepsRest(info, now, id in e.today, info');
      assert SafeSchedule(info') == SafeSchedule(info);
      if info'.status.Completed? && !info.status.Completed? && SafeSchedule(info) {
        RefreshMakesDead(info, now, id in e.today, info');
      }
    }
  }

  /** A step keeps the invariant if what it leaves completed, it has read as it was stored. */
  lemma StepKeepsDead(s: Store, e: Event, now: int, s': Store, id: string)
    requires 0 < now && Step(s, e, now, s') && CompletedIsDead(s, now, id)
    requires IsCompleted(s', id) ==> ReadsStored(s, e, id)
    ensures CompletedIsDead(s', now, id)
  {
    hide DeadFrom, NextIs, MeetingID, SafeSchedule, RefreshedTo, UpdatedThrough, BookedMeeting, ImmediateMeeting;
    if IsCompleted(s', id) {
      match e {
        case End(_, _, _, _) => EndMakesDead(s, e, now, s', id);
        case UpdateInfo(_, read, req) =>
          if id in s.meetings && read.Some? {
            UpdateKeeps(s.meetings[id], read.value, req);
          }
        case Refresh(_, _, _) => RefreshKeepsDead(s, e, now, s', id);
        case _ =>
          if id !in s.meetings {
            StepAddsTidyRecord(s, e, now, s', id);
          }
      }
    }
  }

  /** Up to the j-th store, the meeting is read as it is stored by every handler that finds or leaves it completed. */
  ghost predicate WellReadUpTo(run: Run, j: nat, id: string)
    requires |run.stores| == |run.events| + 1 && j <= |run.events|
  {
    forall k :: 0 <= k < j ==> WellReadAt(run, k, id)
  }

  ghost predicate WellReadAt(run: Run, k: nat, id: string)
    requires |run.stores| == |run.events| + 1 && k < |run.events|
  {
    (IsCompleted(run.stores[k], id) || IsCompleted(run.stores[k + 1], id))
    ==> ReadsStored(run.stores[k], run.events[k], id)
  }

  lemma {:induction false} CompletedStaysDead(run: Run, i: nat, id: string)
    requires IsRun(run) && i < |run.events| && WellReadUpTo(run, i, id)
    ensures CompletedIsDead(run.stores[i], run.clocks[i], id)
  {
    if i > 0 {
      hide Step, NextIs, SafeSchedule, ReadsStored;
      CompletedStaysDead(run, i - 1, id);
      assert StepAt(run, i - 1) && WellReadAt(run, i - 1, id);
      StepKeepsDead(run.stores[i - 1], run.events[i - 1], run.clocks[i - 1], run.stores[i], id);
    }
  }

  /** A dead completed record that is read as it is stored is left as it is by every handler, or deleted. */
  lemma StepKeepsCompleted(s: Store, e: Event, now: int, s': Store, id: string)
    requires Step(s, e, now, s') && IsCompleted(s, id) && DeadFrom(s.meetings[id].rule, now)
    requires ReadsStored(s, e, id) && id in s'.meetings
    ensures s'.meetings[id] == s.meetings[id]
  {
    hide NextIs, MeetingID, UpdatedThrough, BookedMeeting, ImmediateMeeting, RefreshedTo;
    if e.Refresh? {
      assert RefreshedIf(id in e.stored, s.meetings[id], now, id in e.today, s'.meetings[id]);
      if id in e.stored {
        RefreshKeepsRest(s.meetings[id], now, id in e.today, s'.meetings[id]);
      }
    }
  }

  /**
   Completed is final: a record that is Completed and satisfies the guard is, at every later point of the run, still
   the same record, or deleted for good. EndMeeting rewrites the status without looking at it, and this holds all the
   same, as long as the handlers that find or leave this meeting completed have read it as it was stored.
   */
  lemma {:induction false} CompletedIsFinal(run: Run, i: nat, j: nat, id: string)
    requires IsRun(run) && i <= j < |run.stores| && WellReadUpTo(run, j, id)
    requires IsCompleted(run.stores[i], id) && SafeSchedule(run.stores[i].meetings[id])
    ensures id in run.stores[j].meetings ==> run.stores[j].meetings[id] == run.stores[i].meetings[id]
    decreases j
  {
    if i < j && id in run.stores[j].meetings {
      hide Step, NextIs, SafeSchedule, ReadsStored, DeadFrom;
      PresentBetween(run, i, j, id);
      CompletedIsFinal(run, i, j - 1, id);
      CompletedStaysDead(run, j - 1, id);
      assert StepAt(run, j - 1) && WellReadAt(run, j - 1, id);
      StepKeepsCompleted(run.stores[j - 1], run.events[j - 1], run.clocks[j - 1], run.stores[j], id);
    }
  }

  /**
   And the reads matter: given a completed record that will not be scheduled again, an update request can make it one
   that ending the meeting schedules again exactly when the record that was read is not completed.
   */
  lemma UpdateRevivesIff(s: Store, id: string, read: MeetingInfo, now: int)
    requires IsCompleted(s, id) && DeadFrom(s.meetings[id].rule, now)
    ensures (exists req, next :: NextIs(UpdateStep(s, id, Some(read), req).meetings[id].rule, now, next) && next > 0)
            <==> !read.status.Completed?
  {
    if !read.status.Completed? {
      var time := if now > 0 then now + 1 else 1;
      var repeat := RepeatInfo(0, 0, NoneRepeat, NoUnit, 0, []);
      var req := UpdateReq(None, Some(time), None, None, Some(FixedZone(0)), Some(repeat), NO_PATCH);
      hide DeadFrom;
      assert NextIs(UpdateStep(s, id, Some(read), req).meetings[id].rule, now, time);
    }
  }

  // ---- the guard is exact ----

  /** A refresh completes the record at some clock, and ending the meeting later schedules it again. */
  ghost predicate CanBeRevived(info: MeetingInfo) {
    exists now, later, next ::
      && 0 < now <= later
      && RefreshedTo(info, now, false, info.(status := Completed))
      && NextIs(info.rule, later, next) && next > 0
  }

  /**
   A record that is scheduled or in progress can be completed by a refresh and brought back by ending it, exactly when
   it violates the guard.
   */
  lemma RevivedIffUnsafe(info: MeetingInfo)
    requires IsOpen(info.status)
    ensures CanBeRevived(info) <==> !SafeSchedule(info)
  {
    if !SafeSchedule(info) {
      UnsafeIsRevived(info);
    } else if CanBeRevived(info) {
      var now, later, next :|
        0 < now <= later && RefreshedTo(info, now, false, info.(status := Completed))
        && NextIs(info.rule, later, next) && next > 0;
      RefreshMakesDead(info, now, false, info.(status := Completed));
      assert false;
    }
  }

  lemma UnsafeIsRevived(info: MeetingInfo)
    requires IsOpen(info.status) && !SafeSchedule(info)
    ensures CanBeRevived(info)
  {
    var s, end := info.rule.scheduledTime, info.startTime + info.meetingDuration;
    var now := if end + 1 > 0 then (end + 1) * NANOS_PER_SECOND else 1;
    assert Seconds(now) > end;
    if info.rule.repeatType.NoneRepeat? {
      assert NextIs(info.rule, now, s);
    } else {
      assert now <= s * NANOS_PER_SECOND;
      assert NextIs(info.rule, now, s);
    }
    assert RefreshedTo(info, now, false, info.(status := Completed));
  }

  /** The guard follows from what a careful client would keep: no negative duration, no scheduling past the start. */
  lemma ScheduledByStartIsSafe(info: MeetingInfo)
    requires info.meetingDuration >= 0 && info.rule.scheduledTime <= info.startTime
    ensures SafeSchedule(info)
  {
  }

  const SETTING := MeetingSetting(true, true, true, false, false, true, false, false, false)
  const BOOKING := BookReq("alice", "sync", 36000, 3600, "", FixedZone(0), SETTING, None)
  const MOVE := UpdateReq(None, Some(640800), None, None, None, None, NO_PATCH)

  /** Book for 10:00, move the meeting by a week, refresh after the old end, and end the meeting. */
  function RevivalRun(): (run: Run) {
    var id := MeetingID(1);
    var booked := BookedMeeting(id, BOOKING);
    var moved := booked.(rule := booked.rule.(scheduledTime := 640800));
    Run([Store(map[], 0), Store(map[id := booked], 1), Store(map[id := moved], 1),
         Store(map[id := moved.(status := Completed)], 1), Store(map[id := moved.(status := Scheduled)], 1)],
        [Book(BOOKING, true), UpdateInfo(id, Some(booked), MOVE), Refresh({}, 0, {id}),
         End(EndReq(id, "alice", EndType), Some(moved.(status := Completed)), None, true)],
        [NANOS_PER_SECOND, 2 * NANOS_PER_SECOND, 40000 * NANOS_PER_SECOND, 41000 * NANOS_PER_SECOND])
  }

  lemma RevivalBegins()
    ensures StepAt(RevivalRun(), 0) && StepAt(RevivalRun(), 1)
  {
    var run := RevivalRun();
    PatchNothing(SETTING);
    hide MeetingID, Patched;
    assert StepAt(run, 0);
    assert StepAt(run, 1);
  }

  lemma RevivalEnds()
    ensures StepAt(RevivalRun(), 2) && StepAt(RevivalRun(), 3)
  {
    hide MeetingID, Patched;
    var run, id := RevivalRun(), MeetingID(1);
    assert StepAt(run, 2);
    assert NextIs(run.stores[3].meetings[id].rule, run.clocks[3], 640800);
    assert run.stores[4] == Ended(run.stores[3], run.events[3].end, true, 640800);
  }

  lemma RevivalRunIsRun()
    ensures IsRun(RevivalRun())
  {
    RevivalBegins();
    RevivalEnds();
    hide MeetingID, Patched, Step;
  }

  /** Without the guard the property fails: there is a run in which Completed is followed by Scheduled. */
  lemma CompletedCanBeRevived()
    ensures exists run, i, id ::
              && IsRun(run) && 0 <= i && i + 1 < |run.stores|
              && id in run.stores[i].meetings && run.stores[i].meetings[id].status.Completed?
              && id in run.stores[i + 1].meetings && run.stores[i + 1].meetings[id].status.Scheduled?
  {
    RevivalRunIsRun();
    hide IsRun, MeetingID;
    var run, i, id := RevivalRun(), 3, MeetingID(1);
    assert run.stores[i].meetings[id].status.Completed? && run.stores[i + 1].meetings[id].status.Scheduled?;
  }
}
