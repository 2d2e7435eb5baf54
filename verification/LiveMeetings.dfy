/**
 A live meeting: its record and its room together. Updates change the record and rebuild the room's detail part from
 it; the other handlers edit the room. What anybody may do in the room is a function of the requests made so far.
 */
module LiveMeetings {
  import opened Options
  import opened Meetings
  import opened Lifecycle
  import opened RoomMetadata
  import opened MeetingEffects

  datatype Request =
    | Ask(edit: Edit)          // JoinMeeting, SetMeetingHostInfo, SetPersonalMeetingSettings
    | Update(req: UpdateReq)   // UpdateMeeting, with the record read as it is stored

  datatype Live = Live(info: MeetingInfo, meta: Metadata)

  /** The room has just been opened for the record. */
  predicate Opens(live: Live) {
    live.meta == FreshMetadata(live.info)
  }

  /** One request, with the meeting to itself. */
  ghost predicate Serves(live: Live, r: Request, live': Live) {
    match r
    case Ask(edit) => live' == Live(live.info, Edited(live.meta, edit))
    case Update(req) =>
      && IsUpdateOf(live'.info, live.info, req)
      && live'.meta == WithDetail(live.meta, live'.info, Some(live.meta))
  }

  ghost predicate IsServed(lives: seq<Live>, requests: seq<Request>) {
    && |lives| == |requests| + 1 && Opens(lives[0])
    && forall i :: 0 <= i < |requests| ==> ServesAt(lives, requests, i)
  }

  ghost predicate ServesAt(lives: seq<Live>, requests: seq<Request>, i: nat)
    requires |lives| == |requests| + 1 && i < |requests|
  {
    Serves(lives[i], requests[i], lives[i + 1])
  }

  // ---- the history of the record, and that of the room ----

  function UpdatesOf(requests: seq<Request>): (reqs: seq<UpdateReq>) {
    if |requests| == 0 then []
    else
      var before, last := UpdatesOf(requests[..|requests| - 1]), requests[|requests| - 1];
      if last.Update? then before + [last.req] else before
  }

  /** What happens to the room: the edits, and a rebuild from the new record for every update. */
  function ActionsOf(lives: seq<Live>, requests: seq<Request>): (actions: seq<Action>)
    requires |lives| == |requests| + 1
  {
    if |requests| == 0 then []
    else
      var n := |requests| - 1;
      ActionsOf(lives[..n + 1], requests[..n])
      + [if requests[n].Ask? then Do(requests[n].edit) else Rebuild(lives[n + 1].info)]
  }

  lemma ServedBefore(lives: seq<Live>, requests: seq<Request>)
    requires IsServed(lives, requests) && |requests| > 0
    ensures var n := |requests| - 1;
            IsServed(lives[..n + 1], requests[..n]) && Serves(lives[n], requests[n], lives[n + 1])
  {
    hide Serves, Opens;
    var n := |requests| - 1;
    var lives', requests' := lives[..n + 1], requests[..n];
    assert ServesAt(lives, requests, n);
    forall i | 0 <= i < n ensures ServesAt(lives', requests', i) {
      assert ServesAt(lives, requests, i);
    }
  }

  lemma {:induction false} RoomFollowsActions(lives: seq<Live>, requests: seq<Request>)
    requires IsServed(lives, requests)
    ensures lives[|requests|].meta == AfterAll(FreshMetadata(lives[0].info), ActionsOf(lives, requests))
  {
    hide Edited, IsUpdateOf, FreshMetadata;
    if |requests| > 0 {
      var n := |requests| - 1;
      ServedBefore(lives, requests);
      RoomFollowsActions(lives[..n + 1], requests[..n]);
      var actions, before := ActionsOf(lives, requests), ActionsOf(lives[..n + 1], requests[..n]);
      assert actions[..|actions| - 1] == before;
    }
  }

  /** The part of the room that comes from the record is always the record's. */
  lemma {:induction false} RoomAgreesWithRecord(lives: seq<Live>, requests: seq<Request>)
    requires IsServed(lives, requests)
    ensures var live := lives[|requests|];
            && live.meta.setting == live.info.setting && live.meta.password == live.info.password
            && live.meta.meetingID == live.info.meetingID && live.meta.creatorUserID == live.info.creatorUserID
  {
    hide Dedup, Put, DataOf, IsUpdateOf;
    if |requests| > 0 {
      ServedBefore(lives, requests);
      RoomAgreesWithRecord(lives[..|requests|], requests[..|requests| - 1]);
    }
  }

  lemma RecordOneMore(
    live: Live, r: Request, live': Live, switch: Switch, reqs: seq<UpdateReq>, first: MeetingInfo)
    requires Serves(live, r, live')
    requires IsOn(live.info.setting, switch) <==> LastNamed(reqs, switch, IsOn(first.setting, switch))
    requires live.info.password == LastPassword(reqs, first.password)
    ensures var more := if r.Update? then reqs + [r.req] else reqs;
            && (IsOn(live'.info.setting, switch) <==> LastNamed(more, switch, IsOn(first.setting, switch)))
            && live'.info.password == LastPassword(more, first.password)
    ensures live'.info.meetingID == live.info.meetingID && live'.info.creatorUserID == live.info.creatorUserID
  {
    hide IsOn, Named, AnswersAs, Edited, WithDetail;
    if r.Update? {
      assert (reqs + [r.req])[..|reqs|] == reqs;
    }
  }

  /** The record is what the updates among the requests have made of it. */
  lemma {:induction false} RecordFollowsUpdates(lives: seq<Live>, requests: seq<Request>, switch: Switch)
    requires IsServed(lives, requests)
    ensures var info, first, reqs := lives[|requests|].info, lives[0].info, UpdatesOf(requests);
            && (IsOn(info.setting, switch) <==> LastNamed(reqs, switch, IsOn(first.setting, switch)))
            && info.password == LastPassword(reqs, first.password)
            && info.meetingID == first.meetingID && info.creatorUserID == first.creatorUserID
  {
    hide IsOn, Serves, Opens;
    if |requests| > 0 {
      hide LastNamed, LastPassword;
      var n := |requests| - 1;
      ServedBefore(lives, requests);
      RecordFollowsUpdates(lives[..n + 1], requests[..n], switch);
      RecordOneMore(lives[n], requests[n], lives[n + 1], switch, UpdatesOf(requests[..n]), lives[0].info);
    }
  }

  // ---- what anybody may do ----

  /**
   A user may switch the camera on exactly when the updates last left it allowed (or it was booked so), the user last
   chose it on entry, and the host did not last forbid it; and so for the microphone.
   */
  lemma {:induction false} DeviceCheckFollowsRequests(lives: seq<Live>, requests: seq<Request>, userID: string)
    requires IsServed(lives, requests)
    ensures var meta, first := lives[|requests|].meta, lives[0].info;
            var reqs, actions := UpdatesOf(requests), ActionsOf(lives, requests);
            && (CheckUserEnableCamera(meta.setting, Of(meta, userID))
                <==> LastNamed(reqs, EnableCamera, first.setting.canEnableCamera)
                     && LastGiven(actions, userID, true, Camera, false)
                     && LastGiven(actions, userID, false, Camera, true))
            && (CheckUserEnableMicrophone(meta.setting, Of(meta, userID))
                <==> LastNamed(reqs, UnmuteMicrophone, first.setting.canUnmuteMicrophone)
                     && LastGiven(actions, userID, true, Microphone, false)
                     && LastGiven(actions, userID, false, Microphone, true))
  {
    RoomFollowsActions(lives, requests);
    RoomAgreesWithRecord(lives, requests);
    RecordFollowsUpdates(lives, requests, EnableCamera);
    RecordFollowsUpdates(lives, requests, UnmuteMicrophone);
    DeviceCheckFollowsHistory(lives[0].info, ActionsOf(lives, requests), userID);
    hide IsServed, AfterAll, LastGiven, LastNamed, Of, FreshMetadata, ActionsOf, UpdatesOf;
  }

  /** Entering takes being the creator or the host last appointed, or knowing the password last set. */
  lemma {:induction false} EntryFollowsRequests(
    lives: seq<Live>, requests: seq<Request>, userID: string, password: string)
    requires IsServed(lives, requests)
    ensures var meta, first := lives[|requests|].meta, lives[0].info;
            MayEnter(meta, userID, password)
            <==> || userID == first.creatorUserID
                 || userID == LastHost(ActionsOf(lives, requests), first.creatorUserID)
                 || password == LastPassword(UpdatesOf(requests), first.password)
  {
    RoomFollowsActions(lives, requests);
    RoomAgreesWithRecord(lives, requests);
    RecordFollowsUpdates(lives, requests, Lock);
    HostFollowsHistory(lives[0].info, ActionsOf(lives, requests));
    hide IsServed, AfterAll, LastHost, LastPassword, FreshMetadata, ActionsOf, UpdatesOf;
  }

  /** The permission check lets through the creator and the host last appointed, and nobody else. */
  lemma {:induction false} PermissionFollowsRequests(lives: seq<Live>, requests: seq<Request>, userID: string)
    requires IsServed(lives, requests)
    ensures var meta, first := lives[|requests|].meta, lives[0].info;
            CheckAuthPermission(meta.creatorUserID, meta.hostUserID, userID)
            <==> || userID == first.creatorUserID
                 || userID == LastHost(ActionsOf(lives, requests), first.creatorUserID)
  {
    RoomFollowsActions(lives, requests);
    RoomAgreesWithRecord(lives, requests);
    RecordFollowsUpdates(lives, requests, Lock);
    HostFollowsHistory(lives[0].info, ActionsOf(lives, requests));
    hide IsServed, AfterAll, LastHost, FreshMetadata, ActionsOf, UpdatesOf;
  }

  // ---- an update request, served ----

  /** UpdateMeeting and its rebuild of the room are one served request, as long as the meeting is not completed. */
  lemma UpdateIsServed(s: Store, id: string, req: UpdateReq, now: int, s': Store, meta: Metadata)
    requires id in s.meetings && !s.meetings[id].status.Completed?
    requires Step(s, UpdateInfo(id, Some(s.meetings[id]), req), now, s')
    ensures id in s'.meetings
    ensures Serves(Live(s.meetings[id], meta), Request.Update(req),
                   Live(s'.meetings[id], AfterAction(meta, Rebuild(s'.meetings[id]))))
  {
    UpdateMeans(s, id, req, now, s');
    hide Step, IsUpdateOf;
  }
}
