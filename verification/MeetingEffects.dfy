/**
 What each handler does to a meeting, said without the functions that the handlers are proved against: the outcome
 is written out field by field, in seconds of the clock, or through the scheduler's answers.
 */
module MeetingEffects {
  import opened Options
  import opened Calendar
  import opened Scheduler
  import opened Meetings
  import opened Identifiers
  import opened Recurrence
  import opened Lifecycle
  import opened MeetingRuns

  // ---- ending ----

  /**
   The creator, and the host of the room if there is one, may end a meeting. Ending completes it exactly when the
   scheduler has nothing more to offer for it, whatever its status was, and schedules it again otherwise.
   */
  lemma EndMeans(
    s: Store, req: EndReq, read: MeetingInfo, roomHost: Option<string>, roomCloses: bool, now: int, s': Store)
    requires 0 < now && Step(s, End(req, Some(read), roomHost, roomCloses), now, s')
    ensures var id := req.meetingID;
            var allowed := req.userID == read.creatorUserID || roomHost == Some(req.userID);
            if !allowed || !roomCloses || req.endType.OtherEndType? then s' == s
            else if req.endType.CancelType? then s' == s.(meetings := s.meetings - {id})
            else if id !in s.meetings then s' == s
            else s' == s.(meetings := s.meetings[id :=
                   s.meetings[id].(status := if DeadFrom(read.rule, now) then Completed else Scheduled)])
  {
    if s' != s {
      var next :| NextIs(read.rule, now, next) && s' == Ended(s, req, roomCloses, next);
      hide NextIs;
      if next <= 0 {
        DeadAfterAnswer(read.rule, now, next);
      }
    }
  }

  // ---- refreshing ----

  /**
   The refresh looks at meetings that are Scheduled or In-Progress, and rewrites nothing but their status. One that
   does not repeat is completed exactly when it is over. One that repeats is completed when its end date has passed,
   also on a meeting day, or, on another day, when there is no next occurrence; otherwise it is scheduled again, on a
   meeting day only once it is over.
   */
  lemma RefreshMeans(s: Store, today: set<string>, midnight: int, stored: set<string>, now: int, s': Store, id: string)
    requires Step(s, Refresh(today, midnight, stored), now, s')
    ensures s'.counter == s.counter && s'.meetings.Keys == s.meetings.Keys
    ensures id in s.meetings ==>
      var info, info', time := s.meetings[id], s'.meetings[id], now / 1_000_000_000;
      && info' == info.(status := info'.status)
      && (id !in stored || info.status.Completed? || info.status.NoStatus? ==> info' == info)
      && (id in stored && (info.status.Scheduled? || info.status.InProgress?) ==>
            if info.rule.repeatType == NoneRepeat || info.rule.repeatType == Unset then
              info'.status == if info.rule.zone != UnknownZone && info.startTime + info.meetingDuration < time
                              then Completed else info.status
            else if 0 < info.rule.endDate < time then info'.status == Completed
            else if id !in today then info'.status == if NextIs(info.rule, now, 0) then Completed else Scheduled
            else info'.status == if info.rule.scheduledTime + info.meetingDuration < time
                                 then Scheduled else info.status)
  {
    if id in s.meetings {
      var info, info' := s.meetings[id], s'.meetings[id];
      assert RefreshedIf(id in stored, info, now, id in today, info');
      if next :| NextIs(info.rule, now, next) {
        if NextIs(info.rule, now, 0) {
          NextIsUnique(info.rule, now, next, 0);
        }
      }
      hide NextIs;
    }
  }

  // ---- what a rule means ----

  /** The repeat information of a request, taken as it is. */
  function Requested(zone: Zone, scheduledTime: int, repeatInfo: Option<RepeatInfo>): (rule: Rule) {
    match repeatInfo
    case None => Rule(zone, scheduledTime, Unset, 0, NoUnit, 0, [])
    case Some(r) => Rule(zone, scheduledTime, r.repeatType, r.endDate, r.unit, r.interval, r.days)
  }

  /** The rules differ at most in the order and number of their days, or in what only a custom rule looks at. */
  ghost predicate Alike(a: Rule, b: Rule) {
    && a.zone == b.zone && a.scheduledTime == b.scheduledTime && a.repeatType == b.repeatType && a.endDate == b.endDate
    && (a.repeatType == Custom ==>
          a.unit == b.unit && a.interval == b.interval && forall d :: d in a.days <==> d in b.days)
  }

  lemma {:induction false} FirstListedAlike(day: int, a: seq<int>, b: seq<int>, tries: nat)
    requires forall d :: d in a <==> d in b
    ensures FirstListed(day, a, tries) == FirstListed(day, b, tries)
    decreases tries
  {
    hide Weekday;
    if tries > 0 {
      FirstListedAlike(day + 1, a, b, tries - 1);
    }
  }

  lemma RoundAlike(a: Rule, b: Rule, t: Moment)
    requires Alike(a, b)
    ensures Round(a, t) == Round(b, t)
  {
    if a.repeatType.Custom? {
      if |a.days| > 0 {
        assert a.days[0] in a.days;
      }
      if |b.days| > 0 {
        assert b.days[0] in b.days;
      }
      FirstListedAlike(Stride(a, t).day, a.days, b.days, 6);
    }
    hide MonthsLater, FirstListed;
  }

  lemma {:induction false} OrbitAlike(a: Rule, b: Rule, k: nat)
    requires Alike(a, b) && a.zone.FixedZone?
    ensures Orbit(a, k) == Orbit(b, k)
  {
    hide Round;
    if k > 0 {
      OrbitAlike(a, b, k - 1);
      if Orbit(a, k - 1).Some? {
        RoundAlike(a, b, Orbit(a, k - 1).value);
      }
    }
  }

  /** Such rules have the same answers at every clock. */
  lemma SameAnswers(a: Rule, b: Rule, now: int, r: int)
    requires Alike(a, b) && NextIs(a, now, r)
    ensures NextIs(b, now, r)
  {
    hide Orbit;
    if EntersLoop(a, now) {
      var k: nat :| StopsAfter(a, now, k) && r == Cut(a, OrbitTime(a, k));
      forall j: nat | j <= k ensures Orbit(a, j) == Orbit(b, j) {
        OrbitAlike(a, b, j);
      }
      assert StopsAfter(b, now, k);
    }
  }

  /** The stored rule answers as the requested one would. */
  ghost predicate AnswersAs(rule: Rule, requested: Rule) {
    forall now, r :: NextIs(rule, now, r) <==> NextIs(requested, now, r)
  }

  lemma AlikeAnswers(rule: Rule, requested: Rule)
    requires Alike(rule, requested)
    ensures AnswersAs(rule, requested)
  {
    hide NextIs;
    forall now, r ensures NextIs(rule, now, r) <==> NextIs(requested, now, r) {
      if NextIs(rule, now, r) {
        SameAnswers(rule, requested, now, r);
      }
      if NextIs(requested, now, r) {
        SameAnswers(requested, rule, now, r);
      }
    }
  }

  lemma RepeatRuleIsAlike(zone: Zone, scheduledTime: int, repeatInfo: Option<RepeatInfo>)
    ensures Alike(RepeatRule(zone, scheduledTime, repeatInfo), Requested(zone, scheduledTime, repeatInfo))
  {
    if repeatInfo.Some? {
      var days := repeatInfo.value.days;
      SortPermutes(days);
      hide SortDays;
      forall d ensures d in SortDays(days) <==> d in days {
        assert d in SortDays(days) <==> d in multiset(SortDays(days));
        assert d in days <==> d in multiset(days);
      }
    }
  }

  // ---- booking ----

  /** A booking adds one record, under a new identifier, with what was asked for; it starts when it is scheduled. */
  lemma BookMeans(s: Store, req: BookReq, now: int, s': Store)
    requires AllIssued(s) && Step(s, Book(req, true), now, s')
    ensures var id := MeetingID(s.counter + 1);
            && id !in s.meetings && id in s'.meetings
            && s' == Store(s.meetings[id := s'.meetings[id]], s.counter + 1)
            && var info := s'.meetings[id];
               && info.meetingID == id && info.status == Scheduled && info.creatorUserID == req.creatorUserID
               && info.title == req.title && info.password == req.password && info.setting == req.setting
               && info.startTime == req.scheduledTime && info.meetingDuration == req.meetingDuration
               && info.repeatTimes == (match req.repeatInfo case None => 0 case Some(r) => r.repeatTimes)
               && info.rule.zone == req.zone && info.rule.scheduledTime == req.scheduledTime
               && AnswersAs(info.rule, Requested(req.zone, req.scheduledTime, req.repeatInfo))
  {
    NextIDIsFresh(s);
    RepeatRuleIsAlike(req.zone, req.scheduledTime, req.repeatInfo);
    AlikeAnswers(RepeatRule(req.zone, req.scheduledTime, req.repeatInfo),
                 Requested(req.zone, req.scheduledTime, req.repeatInfo));
    hide MeetingID, AnswersAs, SortDays;
  }

  /** An immediate meeting starts in the second that it is created in. */
  lemma CreateMeans(s: Store, req: CreateReq, now: int, s': Store)
    requires AllIssued(s) && Step(s, CreateImmediate(req, false, true), now, s')
    ensures var id := MeetingID(s.counter + 1);
            && id !in s.meetings && id in s'.meetings
            && s' == Store(s.meetings[id := s'.meetings[id]], s.counter + 1)
            && var info := s'.meetings[id];
               && info.meetingID == id && info.status == InProgress && info.creatorUserID == req.creatorUserID
               && info.title == req.title && info.password == req.password && info.setting == req.setting
               && info.startTime == now / 1_000_000_000 && info.meetingDuration == req.meetingDuration
               && info.repeatTimes == 0 && info.rule == Rule(FixedZone(0), req.scheduledTime, Unset, 0, NoUnit, 0, [])
  {
    NextIDIsFresh(s);
    hide MeetingID;
  }

  /** A booking without repetition is completed by a refresh exactly when the booked time is over. */
  lemma BookThenRefresh(
    s: Store, req: BookReq, now: int, s1: Store, today: set<string>, midnight: int, stored: set<string>, later: int,
    s2: Store)
    requires AllIssued(s) && Step(s, Book(req, true), now, s1)
    requires Step(s1, Refresh(today, midnight, stored), later, s2) && MeetingID(s.counter + 1) in stored
    requires req.repeatInfo.None? && req.zone.FixedZone?
    ensures var id := MeetingID(s.counter + 1);
            && id in s2.meetings
            && s2.meetings[id].status == if req.scheduledTime + req.meetingDuration < later / 1_000_000_000
                                         then Completed else Scheduled
  {
    var id := MeetingID(s.counter + 1);
    BookMeans(s, req, now, s1);
    RefreshMeans(s1, today, midnight, stored, later, s2, id);
    assert s1.meetings[id].rule.repeatType == Unset;
    hide MeetingID, NextIs, AnswersAs, Step;
  }

  /** An immediate meeting is completed by a refresh exactly when it has lasted longer than its duration. */
  lemma CreateThenRefresh(
    s: Store, req: CreateReq, now: int, s1: Store, today: set<string>, midnight: int, stored: set<string>, later: int,
    s2: Store)
    requires AllIssued(s) && Step(s, CreateImmediate(req, false, true), now, s1)
    requires Step(s1, Refresh(today, midnight, stored), later, s2) && MeetingID(s.counter + 1) in stored
    ensures var id := MeetingID(s.counter + 1);
            && id in s2.meetings
            && s2.meetings[id].status == if now / 1_000_000_000 + req.meetingDuration < later / 1_000_000_000
                                         then Completed else InProgress
  {
    var id := MeetingID(s.counter + 1);
    CreateMeans(s, req, now, s1);
    RefreshMeans(s1, today, midnight, stored, later, s2, id);
    hide MeetingID, NextIs, Step;
  }

  // ---- updating ----

  datatype Switch =
    | EnableCamera | UnmuteMicrophone | ShareScreen | CameraOffOnJoin | MicrophoneOffOnJoin | JoinEarly
    | Encouragement | Lock | Mirroring

  predicate IsOn(setting: MeetingSetting, switch: Switch) {
    match switch
    case EnableCamera => setting.canEnableCamera
    case UnmuteMicrophone => setting.canUnmuteMicrophone
    case ShareScreen => setting.canShareScreen
    case CameraOffOnJoin => setting.disableCameraOnJoin
    case MicrophoneOffOnJoin => setting.disableMicrophoneOnJoin
    case JoinEarly => setting.canJoinEarly
    case Encouragement => setting.audioEncouragement
    case Lock => setting.lockMeeting
    case Mirroring => setting.videoMirroring
  }

  function Named(patch: SettingPatch, switch: Switch): (value: Option<bool>) {
    match switch
    case EnableCamera => patch.canEnableCamera
    case UnmuteMicrophone => patch.canUnmuteMicrophone
    case ShareScreen => patch.canShareScreen
    case CameraOffOnJoin => patch.disableCameraOnJoin
    case MicrophoneOffOnJoin => patch.disableMicrophoneOnJoin
    case JoinEarly => patch.canJoinEarly
    case Encouragement => patch.audioEncouragement
    case Lock => patch.lockMeeting
    case Mirroring => patch.videoMirroring
  }

  /** A patch sets the switches that it names, each to the value that it names for it. */
  lemma PatchMeans(setting: MeetingSetting, patch: SettingPatch, switch: Switch)
    ensures IsOn(Patched(setting, patch), switch)
            <==> if Named(patch, switch).Some? then Named(patch, switch).value else IsOn(setting, switch)
  {
  }

  /** The record after an update of the record before it: every field that the request names, and only those. */
  ghost predicate IsUpdateOf(info': MeetingInfo, info: MeetingInfo, req: UpdateReq) {
    && info'.meetingID == info.meetingID && info'.creatorUserID == info.creatorUserID
    && info'.status == info.status && info'.startTime == info.startTime
    && info'.title == (if req.title.Some? then req.title.value else info.title)
    && info'.meetingDuration == (if req.meetingDuration.Some? then req.meetingDuration.value else info.meetingDuration)
    && info'.password == (if req.password.Some? then req.password.value else info.password)
    && info'.repeatTimes == (if req.repeatInfo.Some? then req.repeatInfo.value.repeatTimes else info.repeatTimes)
    && info'.rule.zone == (if req.zone.Some? then req.zone.value else info.rule.zone)
    && info'.rule.scheduledTime
       == (if req.scheduledTime.Some? then req.scheduledTime.value else info.rule.scheduledTime)
    && AnswersAs(info'.rule,
         if req.repeatInfo.Some? then Requested(info'.rule.zone, info'.rule.scheduledTime, req.repeatInfo)
         else info.rule.(zone := info'.rule.zone, scheduledTime := info'.rule.scheduledTime))
    && forall switch ::
         IsOn(info'.setting, switch)
         <==> if Named(req.setting, switch).Some? then Named(req.setting, switch).value else IsOn(info.setting, switch)
  }

  lemma UpdatedIsUpdate(info: MeetingInfo, req: UpdateReq)
    ensures IsUpdateOf(Updated(info, req), info, req)
  {
    var info' := Updated(info, req);
    forall switch ensures
      IsOn(info'.setting, switch)
      <==> if Named(req.setting, switch).Some? then Named(req.setting, switch).value else IsOn(info.setting, switch)
    {
      PatchMeans(info.setting, req.setting, switch);
    }
    RepeatRuleIsAlike(info'.rule.zone, info'.rule.scheduledTime, req.repeatInfo);
    hide Patched, SortDays, NextIs, IsOn, Named;
    if req.repeatInfo.Some? {
      AlikeAnswers(info'.rule, Requested(info'.rule.zone, info'.rule.scheduledTime, req.repeatInfo));
    }
  }

  /** UpdateMeeting on a record read as it is stored: refused if it is completed, and otherwise exactly the request. */
  lemma UpdateMeans(s: Store, id: string, req: UpdateReq, now: int, s': Store)
    requires id in s.meetings && Step(s, UpdateInfo(id, Some(s.meetings[id]), req), now, s')
    ensures id in s'.meetings && s' == s.(meetings := s.meetings[id := s'.meetings[id]])
    ensures if s.meetings[id].status.Completed? then s'.meetings[id] == s.meetings[id]
            else IsUpdateOf(s'.meetings[id], s.meetings[id], req)
  {
    UpdatedThroughItself(s.meetings[id], req);
    UpdatedIsUpdate(s.meetings[id], req);
    hide Updated, UpdatedThrough, IsUpdateOf;
  }

  /**
   Read through a cache that disagrees with the collection, the record brings its settings along: with one switch named,
   all the others become what they were in the record that was read. Nothing else depends on that record.
   */
  lemma UpdateOfOtherRead(s: Store, id: string, read: MeetingInfo, req: UpdateReq, now: int, s': Store, switch: Switch)
    requires id in s.meetings && !read.status.Completed? && Step(s, UpdateInfo(id, Some(read), req), now, s')
    ensures id in s'.meetings && s' == s.(meetings := s.meetings[id := s'.meetings[id]])
    ensures var info, setting := s.meetings[id], s'.meetings[id].setting;
            && IsUpdateOf(s'.meetings[id].(setting := Patched(info.setting, req.setting)), info, req)
            && (IsOn(setting, switch) <==>
                  if Named(req.setting, switch).Some? then Named(req.setting, switch).value
                  else if exists other :: Named(req.setting, other).Some? then IsOn(read.setting, switch)
                  else IsOn(info.setting, switch))
  {
    var info := s.meetings[id];
    UpdatedIsUpdate(info, req);
    PatchMeans(read.setting, req.setting, switch);
    PatchNamesNothing(req.setting);
    assert s'.meetings[id].(setting := Patched(info.setting, req.setting)) == Updated(info, req);
    hide IsUpdateOf, IsOn, Named, Patched, Updated;
  }

  lemma PatchNamesNothing(patch: SettingPatch)
    ensures patch == NO_PATCH <==> forall switch :: Named(patch, switch).None?
  {
    if forall switch :: Named(patch, switch).None? {
      assert Named(patch, EnableCamera).None? && Named(patch, UnmuteMicrophone).None?;
      assert Named(patch, ShareScreen).None? && Named(patch, CameraOffOnJoin).None?;
      assert Named(patch, MicrophoneOffOnJoin).None? && Named(patch, JoinEarly).None?;
      assert Named(patch, Encouragement).None? && Named(patch, Lock).None? && Named(patch, Mirroring).None?;
    }
  }

  // ---- refusals ----

  /** What does not go through leaves all records as they are; at most an identifier is used up. */
  lemma RefusedMeans(s: Store, e: Event, now: int, s': Store)
    requires Step(s, e, now, s')
    ensures e.Book? && !e.proceeds ==> s' == s.(counter := s.counter + 1)
    ensures e.CreateImmediate? && e.inMeeting ==> s' == s
    ensures e.CreateImmediate? && !e.inMeeting && !e.proceeds ==> s' == s.(counter := s.counter + 1)
    ensures (e.End? || e.UpdateInfo?) && e.read.None? ==> s' == s
    ensures e.UpdateInfo? && e.read.Some? && e.read.value.status.Completed? ==> s' == s
    ensures e.UpdateInfo? && e.meetingID !in s.meetings ==> s' == s
  {
    hide NextIs, RefreshedTo, BookedMeeting, ImmediateMeeting, MeetingID, UpdatedThrough;
  }

  // ---- settings as a function of the requests ----

  /** A meeting and what a sequence of update requests makes of it, each read as it was stored then. */
  ghost predicate AreUpdates(infos: seq<MeetingInfo>, reqs: seq<UpdateReq>) {
    |infos| == |reqs| + 1 && forall i :: 0 <= i < |reqs| ==> IsUpdateOf(infos[i + 1], infos[i], reqs[i])
  }

  /** The last value that a request names for the switch. */
  predicate LastNamed(reqs: seq<UpdateReq>, switch: Switch, default: bool) {
    if |reqs| == 0 then default
    else
      var named := Named(reqs[|reqs| - 1].setting, switch);
      if named.Some? then named.value else LastNamed(reqs[..|reqs| - 1], switch, default)
  }

  /** Over any run of updates, each of the nine switches is what a request last set it to, or what it was at first. */
  lemma {:induction false} SwitchesFollowRequests(infos: seq<MeetingInfo>, reqs: seq<UpdateReq>, switch: Switch)
    requires AreUpdates(infos, reqs)
    ensures IsOn(infos[|reqs|].setting, switch) <==> LastNamed(reqs, switch, IsOn(infos[0].setting, switch))
  {
    hide IsOn, Named, AnswersAs;
    if |reqs| > 0 {
      var last := |reqs| - 1;
      SwitchesFollowRequests(infos[..last + 1], reqs[..last], switch);
      assert IsUpdateOf(infos[last + 1], infos[last], reqs[last]);
    }
  }

  /** The last password that a request names. */
  function LastPassword(reqs: seq<UpdateReq>, default: string): (password: string) {
    if |reqs| == 0 then default
    else if reqs[|reqs| - 1].password.Some? then reqs[|reqs| - 1].password.value
    else LastPassword(reqs[..|reqs| - 1], default)
  }

  lemma {:induction false} PasswordFollowsRequests(infos: seq<MeetingInfo>, reqs: seq<UpdateReq>)
    requires AreUpdates(infos, reqs)
    ensures infos[|reqs|].password == LastPassword(reqs, infos[0].password)
    ensures infos[|reqs|].meetingID == infos[0].meetingID && infos[|reqs|].creatorUserID == infos[0].creatorUserID
  {
    hide IsOn, Named, AnswersAs;
    if |reqs| > 0 {
      var last := |reqs| - 1;
      PasswordFollowsRequests(infos[..last + 1], reqs[..last]);
      assert IsUpdateOf(infos[last + 1], infos[last], reqs[last]);
    }
  }
}
