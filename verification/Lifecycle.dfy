/**
 The life of a meeting record: Scheduled, In-Progress, Completed. Handlers are atomic; what they ask of the
 outside world (who is in the room, whether closing it worked, whether today is a meeting day) is a parameter.
 So is the record that EndMeeting and UpdateMeeting act on: they read it through the cache, which need not agree
 with the collection. Module CachedRuns says when it does.
 */
module Lifecycle {
  import opened Options
  import opened Scheduler
  import opened Meetings
  import opened Identifiers
  import opened Recurrence

  /** The meeting collection, and the Redis counter that identifiers come from. */
  datatype Store = Store(meetings: map<string, MeetingInfo>, counter: nat)

  datatype EndType = EndType | CancelType | OtherEndType

  datatype Outcome =
    | Done | NotFound | NoPermission | AlreadyCompleted | AlreadyInMeeting | RoomNotClosed | UnsupportedEndType
    | DuplicateID | Failed

  datatype EndReq = EndReq(meetingID: string, userID: string, endType: EndType)

  predicate CheckAuthPermission(creatorUserID: string, hostUserID: string, requestUserID: string) {
    hostUserID == requestUserID || creatorUserID == requestUserID
  }

  // ---- one step of each handler, as a relation between stores ----

  datatype Event =
    | Book(book: BookReq, proceeds: bool)
    | CreateImmediate(create: CreateReq, inMeeting: bool, proceeds: bool)
    | End(end: EndReq, read: Option<MeetingInfo>, roomHost: Option<string>, roomCloses: bool)
    | UpdateInfo(meetingID: string, read: Option<MeetingInfo>, update: UpdateReq)
    | Refresh(today: set<string>, midnight: int, stored: set<string>)

  function Inserted(s: Store, id: string, info: MeetingInfo): (after: Store) {
    if id in s.meetings then s else s.(meetings := s.meetings[id := info])
  }

  function Counted(s: Store): (after: Store) {
    s.(counter := s.counter + 1)
  }

  ghost predicate EndStep(
    s: Store, req: EndReq, read: Option<MeetingInfo>, roomHost: Option<string>, roomCloses: bool, now: int, s': Store)
  {
    if read.None? then s' == s
    else
      var info := read.value;
      if !CheckAuthPermission(info.creatorUserID, Or(roomHost, info.creatorUserID), req.userID) then s' == s
      else exists next :: NextIs(info.rule, now, next) && s' == Ended(s, req, roomCloses, next)
  }

  /** $set on the record with this identifier, if there is one. */
  function WithStatus(s: Store, id: string, status: Status): (after: Store) {
    if id in s.meetings then s.(meetings := s.meetings[id := s.meetings[id].(status := status)]) else s
  }

  function Ended(s: Store, req: EndReq, roomCloses: bool, next: int): (after: Store) {
    if !roomCloses || req.endType.OtherEndType? then s
    else if req.endType.CancelType? then s.(meetings := s.meetings - {req.meetingID})
    else WithStatus(s, req.meetingID, if next > 0 then Scheduled else Completed)
  }

  function UpdateStep(s: Store, id: string, read: Option<MeetingInfo>, req: UpdateReq): (after: Store) {
    if read.None? || read.value.status.Completed? || id !in s.meetings then s
    else s.(meetings := s.meetings[id := UpdatedThrough(s.meetings[id], read.value, req)])
  }

  /** The refresh asks the collection for the records with these statuses. */
  predicate IsOpen(status: Status) {
    status in {InProgress, Scheduled}
  }

  predicate IsNonRepeat(rule: Rule) {
    rule.repeatType.NoneRepeat? || rule.repeatType.Unset?
  }

  /** What the periodic refresh makes of one record. */
  ghost predicate RefreshedTo(info: MeetingInfo, now: int, isToday: bool, info': MeetingInfo) {
    var time := Seconds(now);
    if !IsOpen(info.status) then info' == info
    else if IsNonRepeat(info.rule) then
      info' == if info.rule.zone.FixedZone? && info.startTime + info.meetingDuration < time
               then info.(status := Completed) else info
    else if info.rule.endDate > 0 && info.rule.endDate < time then info' == info.(status := Completed)
    else if !isToday then
      exists next :: NextIs(info.rule, now, next)
                     && info' == info.(status := if next == 0 then Completed else Scheduled)
    else info' == if info.rule.scheduledTime + info.meetingDuration < time
                  then info.(status := Scheduled) else info
  }

  /** The refresh writes record by record: it changes those whose update is stored, and leaves the others. */
  ghost predicate RefreshStep(s: Store, today: set<string>, stored: set<string>, now: int, s': Store) {
    && s'.counter == s.counter && s'.meetings.Keys == s.meetings.Keys
    && forall id :: id in s.meetings ==>
         RefreshedIf(id in stored, s.meetings[id], now, id in today, s'.meetings[id])
  }

  ghost predicate RefreshedIf(stored: bool, info: MeetingInfo, now: int, isToday: bool, info': MeetingInfo) {
    if stored then RefreshedTo(info, now, isToday, info') else info' == info
  }

  ghost predicate Step(s: Store, e: Event, now: int, s': Store) {
    match e
    case Book(req, proceeds) =>
      var id := MeetingID(s.counter + 1);
      s' == if proceeds then Inserted(Counted(s), id, BookedMeeting(id, req)) else Counted(s)
    case CreateImmediate(req, inMeeting, proceeds) =>
      var id := MeetingID(s.counter + 1);
      s' == if inMeeting then s
            else if proceeds then Inserted(Counted(s), id, ImmediateMeeting(id, req, now)) else Counted(s)
    case End(req, read, roomHost, roomCloses) => EndStep(s, req, read, roomHost, roomCloses, now, s')
    case UpdateInfo(id, read, req) => s' == UpdateStep(s, id, read, req)
    case Refresh(today, _, stored) => RefreshStep(s, today, stored, now, s')
  }

  // ---- the handlers ----

  /** Ending a meeting asks for its next occurrence once the user has been found to be allowed to. */
  ghost predicate EndAnswers(req: EndReq, read: Option<MeetingInfo>, roomHost: Option<string>, now: int) {
    read.Some? ==>
      var info := read.value;
      CheckAuthPermission(info.creatorUserID, Or(roomHost, info.creatorUserID), req.userID) ==> Answers(info.rule, now)
  }

  /** That is all it takes: exactly then the handler comes to an end. */
  lemma EndAnswersIff(
    s: Store, req: EndReq, read: Option<MeetingInfo>, roomHost: Option<string>, roomCloses: bool, now: int)
    ensures EndAnswers(req, read, roomHost, now)
            <==> exists s' :: EndStep(s, req, read, roomHost, roomCloses, now, s')
  {
    hide NextIs, Answers;
    if read.None? {
      assert EndStep(s, req, read, roomHost, roomCloses, now, s);
    } else {
      var info := read.value;
      AnswersIff(info.rule, now);
      if !CheckAuthPermission(info.creatorUserID, Or(roomHost, info.creatorUserID), req.userID) {
        assert EndStep(s, req, read, roomHost, roomCloses, now, s);
      } else if Answers(info.rule, now) {
        var next :| NextIs(info.rule, now, next);
        assert EndStep(s, req, read, roomHost, roomCloses, now, Ended(s, req, roomCloses, next));
      }
    }
  }

  /** The refresh asks only about repeating meetings that are not over and have no meeting today. */
  ghost predicate RefreshAnswers(info: MeetingInfo, now: int, isToday: bool) {
    || !IsOpen(info.status) || IsNonRepeat(info.rule) || isToday
    || (info.rule.endDate > 0 && info.rule.endDate < Seconds(now))
    || Answers(info.rule, now)
  }

  lemma RefreshAnswersIff(info: MeetingInfo, now: int, isToday: bool)
    ensures RefreshAnswers(info, now, isToday) <==> exists info' :: RefreshedTo(info, now, isToday, info')
  {
    hide NextIs, Answers;
    AnswersIff(info.rule, now);
    if next :| NextIs(info.rule, now, next) {
      assert RefreshedTo(info, now, isToday, info.(status := if next == 0 then Completed else Scheduled))
          || RefreshedTo(info, now, isToday, info.(status := Completed))
          || RefreshedTo(info, now, isToday, info.(status := Scheduled))
          || RefreshedTo(info, now, isToday, info);
    } else {
      assert RefreshedTo(info, now, isToday, info.(status := Completed))
          || RefreshedTo(info, now, isToday, info.(status := Scheduled))
          || RefreshedTo(info, now, isToday, info) || !RefreshAnswers(info, now, isToday);
    }
  }

  class MeetingServer {
    var meetings: map<string, MeetingInfo>
    var counter: nat

    ghost function State(): (store: Store)
      reads this
    {
      Store(meetings, counter)
    }

    constructor ()
      ensures State() == Store(map[], 0)
    {
      meetings, counter := map[], 0;
    }

    method GenerateMeetingID() returns (id: string)
      modifies this
      ensures State() == Counted(old(State())) && id == MeetingID(counter)
    {
      counter := counter + 1;
      id := MeetingID(counter);
    }

    /** Insertion into a collection with a unique index on the meeting identifier. */
    method Create(info: MeetingInfo) returns (outcome: Outcome)
      modifies this
      ensures State() == Inserted(old(State()), info.meetingID, info)
      ensures outcome == if info.meetingID in old(meetings) then DuplicateID else Done
    {
      if info.meetingID in meetings {
        return DuplicateID;
      }
      meetings := meetings[info.meetingID := info];
      return Done;
    }

    /** `proceeds` says whether what follows the drawing of the identifier gets as far as the collection. */
    method BookMeeting(req: BookReq, proceeds: bool, now: int) returns (outcome: Outcome)
      modifies this
      ensures Step(old(State()), Book(req, proceeds), now, State())
      ensures outcome == if !proceeds then Failed
                         else if MeetingID(old(counter) + 1) in old(meetings) then DuplicateID else Done
    {
      var id := GenerateMeetingID();
      var dbInfo := GenerateMeetingDBData4Booking(id, req);
      if !proceeds {
        return Failed;
      }
      outcome := Create(dbInfo);
    }

    /** `proceeds` covers the room, too: it is created before the record. */
    method CreateImmediateMeeting(req: CreateReq, inMeeting: bool, proceeds: bool, now: int) returns (outcome: Outcome)
      modifies this
      ensures Step(old(State()), CreateImmediate(req, inMeeting, proceeds), now, State())
      ensures outcome == if inMeeting then AlreadyInMeeting else if !proceeds then Failed
                         else if MeetingID(old(counter) + 1) in old(meetings) then DuplicateID else Done
    {
      if inMeeting {
        return AlreadyInMeeting;
      }
      var id := GenerateMeetingID();
      if !proceeds {
        return Failed;
      }
      outcome := Create(ImmediateMeeting(id, req, now));
    }

    /** `read` is the record that the cached read answers, or None if it finds nothing. */
    method EndMeeting(
      req: EndReq, read: Option<MeetingInfo>, roomHost: Option<string>, roomCloses: bool, now: int)
      returns (outcome: Outcome)
      requires EndAnswers(req, read, roomHost, now)
      modifies this
      ensures Step(old(State()), End(req, read, roomHost, roomCloses), now, State())
      ensures outcome != Done ==> State() == old(State())
      ensures outcome == if read.None? then NotFound
                         else if req.userID != read.value.creatorUserID && Some(req.userID) != roomHost
                         then NoPermission
                         else if !roomCloses then RoomNotClosed
                         else if req.endType.OtherEndType? then UnsupportedEndType else Done
    {
      if read.None? {
        return NotFound;
      }
      var dbInfo := read.value;
      var hostUserID := dbInfo.creatorUserID;
      if roomHost.Some? {
        hostUserID := roomHost.value;
      }
      if !CheckAuthPermission(dbInfo.creatorUserID, hostUserID, req.userID) {
        return NoPermission;
      }
      var status := Completed;
      var next := NextMeetingTimestamp(dbInfo.rule, now);
      if next > 0 {
        status := Scheduled;
      }
      assert EndStep(State(), req, read, roomHost, roomCloses, now, Ended(State(), req, roomCloses, next));
      if !roomCloses {
        return RoomNotClosed;
      }
      match req.endType {
        case EndType =>
          Update(req.meetingID, EMPTY_UPDATE.(status := Some(status)));
        case CancelType =>
          meetings := meetings - {req.meetingID};
        case OtherEndType =>
          return UnsupportedEndType;
      }
      return Done;
    }

    /** $set on the record with this identifier; the collection takes an unknown one for done. */
    method Update(id: string, data: Update)
      modifies this
      ensures counter == old(counter)
      ensures meetings == if id in old(meetings) then old(meetings)[id := ApplySet(old(meetings)[id], data)]
                          else old(meetings)
    {
      if id in meetings {
        ApplyNothing(meetings[id]);
        if data != EMPTY_UPDATE {
          meetings := meetings[id := ApplySet(meetings[id], data)];
        }
      }
    }

    method UpdateMeeting(id: string, read: Option<MeetingInfo>, req: UpdateReq, now: int) returns (outcome: Outcome)
      modifies this
      ensures Step(old(State()), UpdateInfo(id, read, req), now, State())
      ensures outcome == if read.None? then NotFound
                         else if read.value.status.Completed? then AlreadyCompleted else Done
    {
      if read.None? {
        return NotFound;
      }
      var info := read.value;
      if info.status.Completed? {
        return AlreadyCompleted;
      }
      var updateData := GetDBUpdateData(info, req);
      hide ApplySet, UpdatedThrough;
      Update(id, updateData);
      return Done;
    }

    method RefreshNonRepeatMeeting(info: MeetingInfo, now: int) returns (updateData: Update)
      requires IsNonRepeat(info.rule) && IsOpen(info.status)
      ensures RefreshedTo(info, now, false, ApplySet(info, updateData))
      ensures RefreshedTo(info, now, true, ApplySet(info, updateData))
    {
      updateData := EMPTY_UPDATE;
      if info.rule.zone.UnknownZone? {
        return;
      }
      var nowTimestamp := Seconds(now);
      if info.startTime + info.meetingDuration < nowTimestamp {
        updateData := updateData.(status := Some(Completed));
      } else if info.startTime + info.meetingDuration < nowTimestamp && info.startTime > nowTimestamp {
        // Never reached: the first half of the guard is what the branch above has just refused.
        updateData := updateData.(status := Some(InProgress));
      }
    }

    method RefreshRepeatMeeting(info: MeetingInfo, now: int, isToday: bool, midnight: int)
      returns (updateData: Update)
      requires !IsNonRepeat(info.rule) && IsOpen(info.status) && RefreshAnswers(info, now, isToday)
      ensures RefreshedTo(info, now, isToday, ApplySet(info, updateData))
    {
      updateData := EMPTY_UPDATE;
      var nowTimestamp := Seconds(now);
      if info.rule.endDate > 0 && info.rule.endDate < nowTimestamp {
        updateData := updateData.(status := Some(Completed));
        return;
      }
      if !isToday {
        updateData := updateData.(status := Some(Scheduled));
        var nextTime := NextMeetingTimestamp(info.rule, now);
        if nextTime == 0 {
          updateData := updateData.(status := Some(Completed));
        }
        return;
      }
      var startTime := info.rule.scheduledTime - midnight;
      var nowOfDay := nowTimestamp - midnight;
      if startTime + info.meetingDuration < nowOfDay {
        updateData := updateData.(status := Some(Scheduled));
      } else if startTime + info.meetingDuration < nowOfDay && startTime > nowOfDay {
        updateData := updateData.(status := Some(InProgress));
      }
    }

    /** One turn of the refresh loop, up to the update that it asks the storage for. */
    method RefreshOne(one: MeetingInfo, now: int, isToday: bool, midnight: int) returns (updateData: Update)
      requires IsOpen(one.status) && RefreshAnswers(one, now, isToday)
      ensures RefreshedTo(one, now, isToday, ApplySet(one, updateData))
    {
      hide RefreshedTo, NextIs, ApplySet;
      if one.rule.repeatType.NoneRepeat? || one.rule.repeatType.Unset? {
        updateData := RefreshNonRepeatMeeting(one, now);
      } else {
        updateData := RefreshRepeatMeeting(one, now, isToday, midnight);
      }
    }

    /** `stored` are the meetings whose update reaches the collection; a failure is only logged. */
    method RefreshMeetingStatus(today: set<string>, midnight: int, stored: set<string>, now: int)
      requires forall id :: id in meetings ==> RefreshAnswers(meetings[id], now, id in today)
      modifies this
      ensures Step(old(State()), Refresh(today, midnight, stored), now, State())
    {
      hide ApplySet, NextIs, RefreshAnswers;
      var todo := set id | id in meetings && IsOpen(meetings[id].status);
      assert forall id :: id in meetings && id !in todo ==>
        RefreshedIf(id in stored, meetings[id], now, id in today, meetings[id]);
      hide RefreshedTo;
      while todo != {}
        invariant counter == old(counter) && meetings.Keys == old(meetings).Keys && todo <= meetings.Keys
        invariant forall id :: id in todo ==> meetings[id] == old(meetings)[id] && IsOpen(meetings[id].status)
        invariant forall id :: id in meetings && id !in todo
                    ==> RefreshedIf(id in stored, old(meetings)[id], now, id in today, meetings[id])
        decreases |todo|
      {
        var id :| id in todo;
        var one := meetings[id];
        var updateData := RefreshOne(one, now, id in today, midnight);
        if id in stored {
          Update(id, updateData);
        }
        todo := todo - {id};
      }
    }
  }
}
