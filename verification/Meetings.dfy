/** Meeting records, the requests that build them, and the partial updates that the database applies. */
module Meetings {
  import opened Options
  import opened Scheduler

  /** NoStatus is the empty string; no handler stores it. */
  datatype Status = Scheduled | InProgress | Completed | NoStatus

  datatype MeetingSetting = MeetingSetting(
    canEnableCamera: bool, canUnmuteMicrophone: bool, canShareScreen: bool,
    disableCameraOnJoin: bool, disableMicrophoneOnJoin: bool, canJoinEarly: bool,
    audioEncouragement: bool, lockMeeting: bool, videoMirroring: bool)

  datatype MeetingInfo = MeetingInfo(
    meetingID: string,
    title: string,
    startTime: int,
    meetingDuration: int,
    password: string,
    creatorUserID: string,
    status: Status,
    repeatTimes: int,
    rule: Rule,
    setting: MeetingSetting)

  datatype RepeatInfo = RepeatInfo(
    endDate: int, repeatTimes: int, repeatType: RepeatType, unit: UnitType, interval: int, days: seq<int>)

  datatype BookReq = BookReq(
    creatorUserID: string, title: string, scheduledTime: int, meetingDuration: int, password: string,
    zone: Zone, setting: MeetingSetting, repeatInfo: Option<RepeatInfo>)

  datatype CreateReq = CreateReq(
    creatorUserID: string, title: string, scheduledTime: int, meetingDuration: int, password: string,
    setting: MeetingSetting)

  datatype SettingPatch = SettingPatch(
    canEnableCamera: Option<bool>, canUnmuteMicrophone: Option<bool>, canShareScreen: Option<bool>,
    disableCameraOnJoin: Option<bool>, disableMicrophoneOnJoin: Option<bool>, canJoinEarly: Option<bool>,
    audioEncouragement: Option<bool>, lockMeeting: Option<bool>, videoMirroring: Option<bool>)

  datatype UpdateReq = UpdateReq(
    title: Option<string>, scheduledTime: Option<int>, meetingDuration: Option<int>, password: Option<string>,
    zone: Option<Zone>, repeatInfo: Option<RepeatInfo>, setting: SettingPatch)

  // ---- days of the week are stored sorted ----

  predicate IsSorted(s: seq<int>) {
    forall i, j :: 0 <= i < j < |s| ==> s[i] <= s[j]
  }

  function Insert(x: int, s: seq<int>): (r: seq<int>)
    requires IsSorted(s)
    ensures |r| > 0 && (r[0] == x || (|s| > 0 && r[0] == s[0]))
    ensures IsSorted(r)
  {
    if |s| == 0 || x <= s[0] then [x] + s else [s[0]] + Insert(x, s[1..])
  }

  /** sort.Sort on the day list. */
  function SortDays(s: seq<int>): (r: seq<int>)
    ensures IsSorted(r)
  {
    if |s| == 0 then [] else Insert(s[0], SortDays(s[1..]))
  }

  lemma {:induction false} InsertPermutes(x: int, s: seq<int>)
    requires IsSorted(s)
    ensures multiset(Insert(x, s)) == multiset(s) + multiset{x}
  {
    if |s| > 0 && x > s[0] {
      InsertPermutes(x, s[1..]);
      assert s == [s[0]] + s[1..];
    }
  }

  lemma {:induction false} SortPermutes(s: seq<int>)
    ensures multiset(SortDays(s)) == multiset(s)
  {
    hide Insert, IsSorted;
    if |s| > 0 {
      SortPermutes(s[1..]);
      InsertPermutes(s[0], SortDays(s[1..]));
      assert s == [s[0]] + s[1..];
    }
  }

  method GetDBRepeatDayOfWeek(weeks: seq<int>) returns (dayOfWeek: seq<int>)
    ensures IsSorted(dayOfWeek) && multiset(dayOfWeek) == multiset(weeks)
    ensures dayOfWeek == SortDays(weeks)
  {
    dayOfWeek := [];
    for i := 0 to |weeks|
      invariant dayOfWeek == weeks[..i]
    {
      dayOfWeek := dayOfWeek + [weeks[i]];
    }
    assert dayOfWeek == weeks;
    SortPermutes(weeks);
    dayOfWeek := SortDays(dayOfWeek);
  }

  // ---- new records ----

  /** The repeat fields as booking stores them: the last three only for a custom rule. */
  function RepeatRule(zone: Zone, scheduledTime: int, repeatInfo: Option<RepeatInfo>): (rule: Rule) {
    match repeatInfo
    case None => Rule(zone, scheduledTime, Unset, 0, NoUnit, 0, [])
    case Some(info) =>
      if info.repeatType.Custom?
      then Rule(zone, scheduledTime, Custom, info.endDate, info.unit, info.interval, SortDays(info.days))
      else Rule(zone, scheduledTime, info.repeatType, info.endDate, NoUnit, 0, [])
  }

  function BookedMeeting(meetingID: string, req: BookReq): (info: MeetingInfo) {
    MeetingInfo(meetingID, req.title, req.scheduledTime, req.meetingDuration, req.password, req.creatorUserID,
                Scheduled, if req.repeatInfo.Some? then req.repeatInfo.value.repeatTimes else 0,
                RepeatRule(req.zone, req.scheduledTime, req.repeatInfo), req.setting)
  }

  /** An immediate meeting starts now, but keeps the scheduled time that the request names; its zone is UTC. */
  function ImmediateMeeting(meetingID: string, req: CreateReq, now: int): (info: MeetingInfo) {
    MeetingInfo(meetingID, req.title, Seconds(now), req.meetingDuration, req.password, req.creatorUserID,
                InProgress, 0, RepeatRule(FixedZone(0), req.scheduledTime, None), req.setting)
  }

  method GenerateMeetingDBData4Booking(meetingID: string, req: BookReq) returns (dbInfo: MeetingInfo)
    ensures dbInfo == BookedMeeting(meetingID, req)
  {
    var rule := Rule(req.zone, req.scheduledTime, Unset, 0, NoUnit, 0, []);
    dbInfo := MeetingInfo(meetingID, req.title, req.scheduledTime, req.meetingDuration, req.password,
                          req.creatorUserID, Scheduled, 0, rule, req.setting);
    if req.repeatInfo.Some? {
      var info := req.repeatInfo.value;
      rule := rule.(endDate := info.endDate, repeatType := info.repeatType);
      if info.repeatType.Custom? {
        var days := GetDBRepeatDayOfWeek(info.days);
        rule := rule.(unit := info.unit, interval := info.interval, days := days);
      }
      dbInfo := dbInfo.(repeatTimes := info.repeatTimes, rule := rule);
    }
  }

  // ---- partial updates ----

  /** The document of a $set: a key is in the map exactly when its field here is not None. */
  datatype Update = Update(
    title: Option<string>, scheduledTime: Option<int>, meetingDuration: Option<int>, password: Option<string>,
    zone: Option<Zone>, endDate: Option<int>, repeatTimes: Option<int>, repeatType: Option<RepeatType>,
    unit: Option<UnitType>, interval: Option<int>, days: Option<seq<int>>, setting: Option<MeetingSetting>,
    status: Option<Status>)

  const EMPTY_UPDATE :=
    Update(None, None, None, None, None, None, None, None, None, None, None, None, None)

  function Over<T>(a: Option<T>, b: Option<T>): (value: Option<T>) {
    if b.Some? then b else a
  }

  /** $set on one record. */
  function ApplySet(info: MeetingInfo, u: Update): (info': MeetingInfo) {
    info.(
      title := Or(u.title, info.title), meetingDuration := Or(u.meetingDuration, info.meetingDuration),
      password := Or(u.password, info.password), status := Or(u.status, info.status),
      repeatTimes := Or(u.repeatTimes, info.repeatTimes), setting := Or(u.setting, info.setting),
      rule := Rule(
        Or(u.zone, info.rule.zone), Or(u.scheduledTime, info.rule.scheduledTime),
        Or(u.repeatType, info.rule.repeatType), Or(u.endDate, info.rule.endDate), Or(u.unit, info.rule.unit),
        Or(u.interval, info.rule.interval), Or(u.days, info.rule.days)))
  }

  lemma ApplyNothing(info: MeetingInfo)
    ensures ApplySet(info, EMPTY_UPDATE) == info
  {
  }

  /** The right-biased union of two documents. */
  function Union(u: Update, w: Update): (union: Update) {
    Update(
      Over(u.title, w.title), Over(u.scheduledTime, w.scheduledTime), Over(u.meetingDuration, w.meetingDuration),
      Over(u.password, w.password), Over(u.zone, w.zone), Over(u.endDate, w.endDate),
      Over(u.repeatTimes, w.repeatTimes), Over(u.repeatType, w.repeatType), Over(u.unit, w.unit),
      Over(u.interval, w.interval), Over(u.days, w.days), Over(u.setting, w.setting), Over(u.status, w.status))
  }

  /** Two updates in turn are the right-biased union of the two. */
  lemma SetsCompose(info: MeetingInfo, u: Update, w: Update)
    ensures ApplySet(ApplySet(info, u), w) == ApplySet(info, Union(u, w))
  {
  }

  function Patched(setting: MeetingSetting, p: SettingPatch): (patched: MeetingSetting) {
    MeetingSetting(
      Or(p.canEnableCamera, setting.canEnableCamera), Or(p.canUnmuteMicrophone, setting.canUnmuteMicrophone),
      Or(p.canShareScreen, setting.canShareScreen), Or(p.disableCameraOnJoin, setting.disableCameraOnJoin),
      Or(p.disableMicrophoneOnJoin, setting.disableMicrophoneOnJoin), Or(p.canJoinEarly, setting.canJoinEarly),
      Or(p.audioEncouragement, setting.audioEncouragement), Or(p.lockMeeting, setting.lockMeeting),
      Or(p.videoMirroring, setting.videoMirroring))
  }

  const NO_PATCH := SettingPatch(None, None, None, None, None, None, None, None, None)

  /** What an update request means for a record: every field that the request names, and nothing else. */
  function Updated(info: MeetingInfo, req: UpdateReq): (info': MeetingInfo) {
    info.(
      title := Or(req.title, info.title),
      meetingDuration := Or(req.meetingDuration, info.meetingDuration),
      password := Or(req.password, info.password),
      repeatTimes := if req.repeatInfo.Some? then req.repeatInfo.value.repeatTimes else info.repeatTimes,
      setting := Patched(info.setting, req.setting),
      rule :=
        var zone, time := Or(req.zone, info.rule.zone), Or(req.scheduledTime, info.rule.scheduledTime);
        if req.repeatInfo.Some? then RepeatRule(zone, time, req.repeatInfo)
        else info.rule.(zone := zone, scheduledTime := time))
  }

  /**
   What an update request makes of the stored record when the handler has read `read` for it: the settings, which are
   stored as one document, are patched as they were read.
   */
  function UpdatedThrough(stored: MeetingInfo, read: MeetingInfo, req: UpdateReq): (info': MeetingInfo) {
    Updated(stored, req).(
      setting := if req.setting == NO_PATCH then stored.setting else Patched(read.setting, req.setting))
  }

  /** The map that the three update helpers fill. */
  class UpdateData {
    var fields: Update

    constructor ()
      ensures fields == EMPTY_UPDATE
    {
      fields := EMPTY_UPDATE;
    }

    method UpdateMainFields(req: UpdateReq)
      modifies this
      ensures fields == old(fields).(
                title := Over(old(fields).title, req.title),
                scheduledTime := Over(old(fields).scheduledTime, req.scheduledTime),
                meetingDuration := Over(old(fields).meetingDuration, req.meetingDuration),
                password := Over(old(fields).password, req.password),
                zone := Over(old(fields).zone, req.zone))
    {
      if req.title.Some? { fields := fields.(title := req.title); }
      if req.scheduledTime.Some? { fields := fields.(scheduledTime := req.scheduledTime); }
      if req.meetingDuration.Some? { fields := fields.(meetingDuration := req.meetingDuration); }
      if req.password.Some? { fields := fields.(password := req.password); }
      if req.zone.Some? { fields := fields.(zone := req.zone); }
    }

    method UpdateRepeatInfo(req: UpdateReq)
      modifies this
      ensures req.repeatInfo.None? ==> fields == old(fields)
      ensures req.repeatInfo.Some? ==>
                var info := req.repeatInfo.value;
                var rule := RepeatRule(UnknownZone, 0, req.repeatInfo);
                fields == old(fields).(
                  endDate := Some(rule.endDate), repeatTimes := Some(info.repeatTimes),
                  repeatType := Some(rule.repeatType), unit := Some(rule.unit),
                  interval := Some(rule.interval), days := Some(rule.days))
    {
      if req.repeatInfo.Some? {
        var repeatInfo := req.repeatInfo.value;
        fields := fields.(endDate := Some(repeatInfo.endDate));
        fields := fields.(repeatTimes := Some(repeatInfo.repeatTimes));
        fields := fields.(repeatType := Some(repeatInfo.repeatType));
        if repeatInfo.repeatType.Custom? {
          var days := GetDBRepeatDayOfWeek(repeatInfo.days);
          fields := fields.(unit := Some(repeatInfo.unit), interval := Some(repeatInfo.interval), days := Some(days));
        } else {
          fields := fields.(unit := Some(NoUnit), interval := Some(0), days := Some([]));
        }
      }
    }

    method UpdateSettings(info: MeetingInfo, req: UpdateReq)
      modifies this
      ensures fields == if req.setting == NO_PATCH then old(fields)
                        else old(fields).(setting := Some(Patched(info.setting, req.setting)))
    {
      if req.setting != NO_PATCH {
        fields := fields.(setting := Some(Patched(info.setting, req.setting)));
      }
    }
  }

  /** The document that an update request becomes, and what it makes of any record. */
  method GetDBUpdateData(info: MeetingInfo, req: UpdateReq) returns (data: Update)
    ensures forall stored :: ApplySet(stored, data) == UpdatedThrough(stored, info, req)
    ensures data.status.None?
  {
    var updateData := new UpdateData();
    updateData.UpdateMainFields(req);
    updateData.UpdateRepeatInfo(req);
    updateData.UpdateSettings(info, req);
    data := updateData.fields;
    hide Patched, SortDays;
    forall stored ensures ApplySet(stored, data) == UpdatedThrough(stored, info, req) {
    }
  }

  /** Read as it is stored, the record becomes what the request means. */
  lemma UpdatedThroughItself(info: MeetingInfo, req: UpdateReq)
    ensures UpdatedThrough(info, info, req) == Updated(info, req)
  {
    PatchNothing(info.setting);
    hide Patched, SortDays;
  }

  lemma PatchNothing(setting: MeetingSetting)
    ensures Patched(setting, NO_PATCH) == setting
  {
  }

  // ---- laws of updates ----

  function ThenPatch(a: SettingPatch, b: SettingPatch): (both: SettingPatch) {
    SettingPatch(
      Over(a.canEnableCamera, b.canEnableCamera), Over(a.canUnmuteMicrophone, b.canUnmuteMicrophone),
      Over(a.canShareScreen, b.canShareScreen), Over(a.disableCameraOnJoin, b.disableCameraOnJoin),
      Over(a.disableMicrophoneOnJoin, b.disableMicrophoneOnJoin), Over(a.canJoinEarly, b.canJoinEarly),
      Over(a.audioEncouragement, b.audioEncouragement), Over(a.lockMeeting, b.lockMeeting),
      Over(a.videoMirroring, b.videoMirroring))
  }

  /** The later of two requests wins, field by field; its repeat information replaces the earlier one's whole. */
  function Then(a: UpdateReq, b: UpdateReq): (both: UpdateReq) {
    UpdateReq(
      Over(a.title, b.title), Over(a.scheduledTime, b.scheduledTime), Over(a.meetingDuration, b.meetingDuration),
      Over(a.password, b.password), Over(a.zone, b.zone), Over(a.repeatInfo, b.repeatInfo),
      ThenPatch(a.setting, b.setting))
  }

  lemma OverWins<T>(a: Option<T>, b: Option<T>, default: T)
    ensures Or(b, Or(a, default)) == Or(Over(a, b), default)
  {
  }

  lemma PatchesCompose(setting: MeetingSetting, a: SettingPatch, b: SettingPatch)
    ensures Patched(Patched(setting, a), b) == Patched(setting, ThenPatch(a, b))
  {
    OverWins(a.canEnableCamera, b.canEnableCamera, setting.canEnableCamera);
    OverWins(a.canUnmuteMicrophone, b.canUnmuteMicrophone, setting.canUnmuteMicrophone);
    OverWins(a.canShareScreen, b.canShareScreen, setting.canShareScreen);
    OverWins(a.disableCameraOnJoin, b.disableCameraOnJoin, setting.disableCameraOnJoin);
    OverWins(a.disableMicrophoneOnJoin, b.disableMicrophoneOnJoin, setting.disableMicrophoneOnJoin);
    OverWins(a.canJoinEarly, b.canJoinEarly, setting.canJoinEarly);
    OverWins(a.audioEncouragement, b.audioEncouragement, setting.audioEncouragement);
    OverWins(a.lockMeeting, b.lockMeeting, setting.lockMeeting);
    OverWins(a.videoMirroring, b.videoMirroring, setting.videoMirroring);
    hide Or, Over;
  }

  /** Two update requests in turn amount to the one request that merges them. */
  lemma UpdatesCompose(info: MeetingInfo, a: UpdateReq, b: UpdateReq)
    ensures Updated(Updated(info, a), b) == Updated(info, Then(a, b))
  {
    PatchesCompose(info.setting, a.setting, b.setting);
    hide Patched, ThenPatch, SortDays;
  }

  /** The fields that no update request reaches. */
  predicate SameIdentity(a: MeetingInfo, b: MeetingInfo) {
    a.meetingID == b.meetingID && a.creatorUserID == b.creatorUserID && a.startTime == b.startTime
  }

  /** Days are sorted, and a rule that is not custom has no unit, no interval and no days. */
  predicate TidyRule(rule: Rule) {
    && IsSorted(rule.days)
    && (!rule.repeatType.Custom? ==> rule.unit == NoUnit && rule.interval == 0 && rule.days == [])
  }

  lemma UpdateKeeps(info: MeetingInfo, read: MeetingInfo, req: UpdateReq)
    ensures var info' := UpdatedThrough(info, read, req);
            SameIdentity(info, info') && info'.status == info.status && (TidyRule(info.rule) ==> TidyRule(info'.rule))
  {
  }
}
