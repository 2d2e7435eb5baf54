/**
 The metadata of a live room. Handlers read the whole value, edit a private copy, and write the whole copy back.
 The first part says what each handler makes of its copy; module RoomRuns interleaves them.
 */
module RoomMetadata {
  import opened Options
  import opened Meetings
  import opened Lifecycle

  datatype Entry = Entry(camera: bool, microphone: bool)

  datatype PersonalData = PersonalData(userID: string, personal: Entry, limit: Entry)

  datatype Metadata = Metadata(
    meetingID: string, creatorUserID: string, hostUserID: string, coHostUserIDs: seq<string>,
    password: string, setting: MeetingSetting, personalData: seq<PersonalData>)

  function DefaultPersonalData(userID: string): (data: PersonalData) {
    PersonalData(userID, Entry(false, false), Entry(true, true))
  }

  /** generateMeetingMetaData: the metadata of a room that has just been created for a stored meeting. */
  function FreshMetadata(info: MeetingInfo): (meta: Metadata) {
    Metadata(info.meetingID, info.creatorUserID, info.creatorUserID, [], info.password, info.setting,
             [DefaultPersonalData(info.creatorUserID)])
  }

  /** getMeetingDetailSetting: everything but the personal data, from the record and the room as it is now. */
  function WithDetail(meta: Metadata, info: MeetingInfo, room: Option<Metadata>): (meta': Metadata) {
    Metadata(info.meetingID, info.creatorUserID,
             if room.Some? then room.value.hostUserID else info.creatorUserID,
             if room.Some? then room.value.coHostUserIDs else [],
             info.password, info.setting, meta.personalData)
  }

  // ---- co-hosts: concatenate and keep first occurrences ----

  function Dedup(s: seq<string>): (r: seq<string>)
  {
    if |s| == 0 then []
    else
      var r := Dedup(s[..|s| - 1]);
      if s[|s| - 1] in r then r else r + [s[|s| - 1]]
  }

  predicate Distinct(s: seq<string>) {
    forall i, j :: 0 <= i < j < |s| ==> s[i] != s[j]
  }

  method MergeAndUnique(first: seq<string>, second: seq<string>) returns (result: seq<string>)
    ensures result == Dedup(first + second)
  {
    var seen: set<string> := {};
    result := [];
    for i := 0 to |first|
      invariant result == Dedup(first[..i])
      invariant forall v :: v in seen <==> v in result
    {
      var v := first[i];
      assert first[..i + 1][..i] == first[..i];
      if v !in seen {
        seen := seen + {v};
        result := result + [v];
      }
    }
    assert first[..|first|] == first == (first + second)[..|first|];
    for i := 0 to |second|
      invariant result == Dedup((first + second)[..|first| + i])
      invariant forall v :: v in seen <==> v in result
    {
      var v := second[i];
      assert (first + second)[..|first| + i + 1][..|first| + i] == (first + second)[..|first| + i];
      if v !in seen {
        seen := seen + {v};
        result := result + [v];
      }
    }
    assert (first + second)[..|first| + |second|] == first + second;
  }

  /** Dedup keeps exactly the elements that were there, each once, in the order of their first occurrence. */
  lemma {:induction false} DedupMeans(s: seq<string>)
    ensures Distinct(Dedup(s))
    ensures forall v :: v in Dedup(s) <==> v in s
  {
    if |s| > 0 {
      DedupMeans(s[..|s| - 1]);
      assert s == s[..|s| - 1] + [s[|s| - 1]];
    }
  }

  /** What is deduplicated already can stay, or be deduplicated again, in front of more. */
  lemma {:induction false} DedupTwice(a: seq<string>, b: seq<string>)
    ensures Dedup(Dedup(a) + b) == Dedup(a + b)
    ensures Dedup(a) <= Dedup(a + b)
    decreases |b|
  {
    if |b| == 0 {
      assert a + b == a && Dedup(a) + b == Dedup(a);
      DedupMeans(a);
      DedupOfDistinct(Dedup(a));
    } else {
      var last := |b| - 1;
      DedupTwice(a, b[..last]);
      assert (a + b)[..|a + b| - 1] == a + b[..last];
      assert (Dedup(a) + b)[..|Dedup(a) + b| - 1] == Dedup(a) + b[..last];
    }
  }

  lemma {:induction false} DedupOfDistinct(s: seq<string>)
    requires Distinct(s)
    ensures Dedup(s) == s
  {
    if |s| > 0 {
      DedupOfDistinct(s[..|s| - 1]);
      assert s == s[..|s| - 1] + [s[|s| - 1]];
    }
  }

  /** Repeating a request adds nothing. */
  lemma {:induction false} MergeAgain(a: seq<string>, b: seq<string>)
    ensures Dedup(Dedup(a + b) + b) == Dedup(a + b)
  {
    DedupMeans(a + b);
    DedupOfDistinct(Dedup(a + b));
    AlreadyThere(Dedup(a + b), b);
  }

  lemma {:induction false} AlreadyThere(r: seq<string>, b: seq<string>)
    requires Dedup(r) == r && forall v :: v in b ==> v in r
    ensures Dedup(r + b) == r
    decreases |b|
  {
    if |b| == 0 {
      assert r + b == r;
    } else {
      AlreadyThere(r, b[..|b| - 1]);
      assert (r + b)[..|r + b| - 1] == r + b[..|b| - 1];
    }
  }

  // ---- personal data ----

  function UserIDs(data: seq<PersonalData>): (ids: seq<string>) {
    seq(|data|, i requires 0 <= i < |data| => data[i].userID)
  }

  /** The position of the user's first entry, or the length when there is none. */
  function Find(data: seq<PersonalData>, userID: string): (n: nat)
    ensures n <= |data|
    ensures n < |data| ==> data[n].userID == userID
    ensures forall i :: 0 <= i < n ==> data[i].userID != userID
  {
    if |data| == 0 || data[0].userID == userID then 0 else 1 + Find(data[1..], userID)
  }

  /** The user's entry, which is the default as long as there is none. */
  function DataOf(data: seq<PersonalData>, userID: string): (one: PersonalData) {
    var n := Find(data, userID);
    if n < |data| then data[n] else DefaultPersonalData(userID)
  }

  function Overwritten(e: Entry, camera: Option<bool>, microphone: Option<bool>): (e': Entry) {
    Entry(Or(camera, e.camera), Or(microphone, e.microphone))
  }

  /** Replaces the user's entry, or appends one. */
  function Put(data: seq<PersonalData>, one: PersonalData): (data': seq<PersonalData>) {
    var n := Find(data, one.userID);
    if n < |data| then data[n := one] else data + [one]
  }

  // ---- what each handler makes of the copy it has read ----

  datatype Edit =
    | JoinEdit(userID: string)
    | HostEdit(host: Option<string>, coHosts: Option<seq<string>>)
    | SelfEdit(userID: string, camera: Option<bool>, microphone: Option<bool>)
    | LimitEdit(userID: string, camera: Option<bool>, microphone: Option<bool>)

  function Edited(meta: Metadata, e: Edit): (meta': Metadata) {
    match e
    case JoinEdit(userID) =>
      meta.(personalData := Put(meta.personalData, DataOf(meta.personalData, userID)))
    case HostEdit(host, coHosts) =>
      meta.(hostUserID := Or(host, meta.hostUserID),
            coHostUserIDs := if coHosts.Some? then Dedup(meta.coHostUserIDs + coHosts.value) else meta.coHostUserIDs)
    case SelfEdit(userID, camera, microphone) =>
      var one := DataOf(meta.personalData, userID);
      meta.(personalData := Put(meta.personalData, one.(personal := Overwritten(one.personal, camera, microphone))))
    case LimitEdit(userID, camera, microphone) =>
      var one := DataOf(meta.personalData, userID);
      meta.(personalData := Put(meta.personalData, one.(limit := Overwritten(one.limit, camera, microphone))))
  }

  predicate MayEnter(meta: Metadata, userID: string, password: string) {
    userID == meta.hostUserID || userID == meta.creatorUserID || password == meta.password
  }

  /** A room, seen by handlers that have it to themselves. `writes` counts the calls of UpdateMetaData. */
  class Room {
    var metadata: Metadata
    var writes: nat

    constructor (info: MeetingInfo)
      ensures metadata == FreshMetadata(info) && writes == 0
    {
      metadata := FreshMetadata(info);
      writes := 0;
    }

    method UpdateMetaData(meta: Metadata)
      modifies this
      ensures metadata == meta && writes == old(writes) + 1
    {
      metadata := meta;
      writes := writes + 1;
    }

    method FindPersonalData(meta: Metadata, userID: string) returns (found: bool, n: nat)
      ensures n == Find(meta.personalData, userID) && (found <==> n < |meta.personalData|)
    {
      n := 0;
      while n < |meta.personalData|
        invariant n <= |meta.personalData|
        invariant Find(meta.personalData, userID) == n + Find(meta.personalData[n..], userID)
      {
        if meta.personalData[n].userID == userID {
          return true, n;
        }
        n := n + 1;
      }
      return false, n;
    }

    /** A join; anyone but the host and the creator needs the password. */
    method JoinMeeting(meetingID: string, userID: string, password: string) returns (ok: bool)
      modifies this
      ensures ok <==> MayEnter(old(metadata), userID, password)
      ensures metadata == if ok then Edited(old(metadata), JoinEdit(userID)).(meetingID := meetingID)
                          else old(metadata)
    {
      var meta := metadata;
      if userID != meta.hostUserID && userID != meta.creatorUserID && password != meta.password {
        return false;
      }
      meta := meta.(meetingID := meetingID);
      var found, n := FindPersonalData(meta, userID);
      if !found {
        meta := meta.(personalData := meta.personalData + [DefaultPersonalData(userID)]);
      }
      UpdateMetaData(meta);
      return true;
    }

    method SetMeetingHostInfo(userID: string, host: Option<string>, coHosts: Option<seq<string>>)
      returns (ok: bool)
      modifies this
      ensures ok <==> CheckAuthPermission(old(metadata).creatorUserID, old(metadata).hostUserID, userID)
      ensures metadata == if ok then Edited(old(metadata), HostEdit(host, coHosts)) else old(metadata)
    {
      var meta := metadata;
      if !CheckAuthPermission(meta.creatorUserID, meta.hostUserID, userID) {
        return false;
      }
      if host.Some? {
        meta := meta.(hostUserID := host.value);
      }
      if coHosts.Some? {
        var merged := MergeAndUnique(meta.coHostUserIDs, coHosts.value);
        meta := meta.(coHostUserIDs := merged);
      }
      UpdateMetaData(meta);
      return true;
    }

    /** The operator sets their own entry, or, as the host, another user's limit. */
    method SetPersonalMeetingSettings(operator: string, userID: string, camera: Option<bool>, microphone: Option<bool>)
      returns (ok: bool)
      modifies this
      ensures ok <==> operator == old(metadata).hostUserID || operator == userID
      ensures metadata == if !ok then old(metadata)
                          else if operator == userID then Edited(old(metadata), SelfEdit(userID, camera, microphone))
                          else Edited(old(metadata), LimitEdit(userID, camera, microphone))
    {
      var meta := metadata;
      if operator != meta.hostUserID && operator != userID {
        return false;
      }
      if operator == userID {
        SetSelfPersonalSetting(meta, userID, camera, microphone);
      } else {
        SetParticipantPersonalSetting(meta, userID, camera, microphone);
      }
      return true;
    }

    method SetSelfPersonalSetting(meta: Metadata, userID: string, camera: Option<bool>, microphone: Option<bool>)
      requires meta == metadata
      modifies this
      ensures metadata == Edited(meta, SelfEdit(userID, camera, microphone))
      ensures writes == old(writes) + 1
              || (writes == old(writes) && metadata == old(metadata) && camera.None? && microphone.None?)
    {
      var found, n := FindPersonalData(meta, userID);
      var needUpdate := true;
      if found && camera.None? && microphone.None? {
        needUpdate := false;
      }
      var one := if found then meta.personalData[n] else DefaultPersonalData(userID);
      if camera.Some? {
        one := one.(personal := one.personal.(camera := camera.value));
      }
      if microphone.Some? {
        one := one.(personal := one.personal.(microphone := microphone.value));
      }
      var copy := meta.(personalData :=
        if found then meta.personalData[n := one] else meta.personalData + [one]);
      if !needUpdate {
        return;
      }
      UpdateMetaData(copy);
    }

    method SetParticipantPersonalSetting(meta: Metadata, userID: string, camera: Option<bool>, microphone: Option<bool>)
      requires meta == metadata
      modifies this
      ensures metadata == Edited(meta, LimitEdit(userID, camera, microphone))
      ensures writes == old(writes) + 1
              || (writes == old(writes) && metadata == old(metadata) && camera.None? && microphone.None?)
    {
      var found, n := FindPersonalData(meta, userID);
      var needUpdate := true;
      if found && camera.None? && microphone.None? {
        needUpdate := false;
      }
      var one := if found then meta.personalData[n] else DefaultPersonalData(userID);
      if camera.Some? {
        one := one.(limit := one.limit.(camera := camera.value));
      }
      if microphone.Some? {
        one := one.(limit := one.limit.(microphone := microphone.value));
      }
      var copy := meta.(personalData :=
        if found then meta.personalData[n := one] else meta.personalData + [one]);
      if !needUpdate {
        return;
      }
      UpdateMetaData(copy);
    }
  }

  // ---- an edit touches one user's entry, and in it one field ----

  lemma {:induction false} FindFirst(data: seq<PersonalData>, userID: string, n: nat)
    requires n <= |data| && (n < |data| ==> data[n].userID == userID)
    requires forall i :: 0 <= i < n ==> data[i].userID != userID
    ensures Find(data, userID) == n
  {
  }

  lemma PutThenGet(data: seq<PersonalData>, one: PersonalData, userID: string)
    ensures DataOf(Put(data, one), userID) == if userID == one.userID then one else DataOf(data, userID)
  {
    var n := Find(data, one.userID);
    FindFirst(Put(data, one), one.userID, n);
    if userID != one.userID {
      var m := Find(data, userID);
      if m < |data| {
        FindFirst(Put(data, one), userID, m);
      } else {
        FindFirst(Put(data, one), userID, |Put(data, one)|);
      }
    }
  }

  /** What a metadata value says about one user. */
  function Of(meta: Metadata, userID: string): (one: PersonalData) {
    DataOf(meta.personalData, userID)
  }

  lemma EditedEntry(meta: Metadata, e: Edit, userID: string)
    ensures var before, after := Of(meta, userID), Of(Edited(meta, e), userID);
            match e
            case SelfEdit(u, camera, microphone) =>
              after == if u != userID then before
                       else before.(personal := Overwritten(before.personal, camera, microphone))
            case LimitEdit(u, camera, microphone) =>
              after == if u != userID then before
                       else before.(limit := Overwritten(before.limit, camera, microphone))
            case _ => after == before
  {
    match e {
      case JoinEdit(u) => PutThenGet(meta.personalData, DataOf(meta.personalData, u), userID);
      case SelfEdit(u, camera, microphone) =>
        var one := DataOf(meta.personalData, u);
        PutThenGet(meta.personalData, one.(personal := Overwritten(one.personal, camera, microphone)), userID);
      case LimitEdit(u, camera, microphone) =>
        var one := DataOf(meta.personalData, u);
        PutThenGet(meta.personalData, one.(limit := Overwritten(one.limit, camera, microphone)), userID);
      case HostEdit(_, _) =>
    }
  }

  // ---- settings as a function of their history ----

  /** What happens to a room that one handler at a time works on; the last kind rewrites the detail part. */
  datatype Action = Do(edit: Edit) | Rebuild(info: MeetingInfo)

  function AfterAction(meta: Metadata, a: Action): (meta': Metadata) {
    match a
    case Do(e) => Edited(meta, e)
    case Rebuild(info) => WithDetail(meta, info, Some(meta))
  }

  function AfterAll(meta: Metadata, actions: seq<Action>): (r: Metadata) {
    if |actions| == 0 then meta
    else AfterAction(AfterAll(meta, actions[..|actions| - 1]), actions[|actions| - 1])
  }

  datatype Device = Camera | Microphone

  function Given(a: Action, userID: string, self: bool, device: Device): (value: Option<bool>) {
    match a
    case Do(SelfEdit(u, camera, microphone)) =>
      if self && u == userID then (if device.Camera? then camera else microphone) else None
    case Do(LimitEdit(u, camera, microphone)) =>
      if !self && u == userID then (if device.Camera? then camera else microphone) else None
    case _ => None
  }

  /** The last value that the history gives to this user's own setting, or to the limit set for them. */
  predicate LastGiven(actions: seq<Action>, userID: string, self: bool, device: Device, default: bool) {
    if |actions| == 0 then default
    else
      var last := Given(actions[|actions| - 1], userID, self, device);
      if last.Some? then last.value
      else LastGiven(actions[..|actions| - 1], userID, self, device, default)
  }

  predicate Reading(e: Entry, device: Device) {
    if device.Camera? then e.camera else e.microphone
  }

  /** Starting from a fresh room, both entries of every user are what their history last said. */
  lemma {:induction false} SettingsFollowHistory(
    info: MeetingInfo, actions: seq<Action>, userID: string, device: Device)
    ensures var data := Of(AfterAll(FreshMetadata(info), actions), userID);
            && Reading(data.personal, device) == LastGiven(actions, userID, true, device, false)
            && Reading(data.limit, device) == LastGiven(actions, userID, false, device, true)
            && data.userID == userID
  {
    if |actions| > 0 {
      var before, last := actions[..|actions| - 1], actions[|actions| - 1];
      SettingsFollowHistory(info, before, userID, device);
      if last.Do? {
        EditedEntry(AfterAll(FreshMetadata(info), before), last.edit, userID);
      }
      hide Edited, DataOf;
    }
  }

  predicate CheckUserEnableCamera(setting: MeetingSetting, data: PersonalData) {
    setting.canEnableCamera && data.personal.camera && data.limit.camera
  }

  predicate CheckUserEnableMicrophone(setting: MeetingSetting, data: PersonalData) {
    setting.canUnmuteMicrophone && data.personal.microphone && data.limit.microphone
  }

  /** So a user may switch a device on iff the meeting allows it, they last said so, and the host last allowed it. */
  lemma {:induction false} DeviceCheckFollowsHistory(info: MeetingInfo, actions: seq<Action>, userID: string)
    ensures var meta := AfterAll(FreshMetadata(info), actions);
            && (CheckUserEnableCamera(meta.setting, Of(meta, userID))
                <==> meta.setting.canEnableCamera && LastGiven(actions, userID, true, Camera, false)
                     && LastGiven(actions, userID, false, Camera, true))
            && (CheckUserEnableMicrophone(meta.setting, Of(meta, userID))
                <==> meta.setting.canUnmuteMicrophone && LastGiven(actions, userID, true, Microphone, false)
                     && LastGiven(actions, userID, false, Microphone, true))
  {
    SettingsFollowHistory(info, actions, userID, Camera);
    SettingsFollowHistory(info, actions, userID, Microphone);
    hide Of, AfterAll, LastGiven;
  }

  /** The host that the history appointed last. */
  function LastHost(actions: seq<Action>, default: string): (host: string) {
    if |actions| == 0 then default
    else
      var last := actions[|actions| - 1];
      if last.Do? && last.edit.HostEdit? && last.edit.host.Some? then last.edit.host.value
      else LastHost(actions[..|actions| - 1], default)
  }

  /** The host is the creator until another one is appointed; a rewrite of the detail part keeps the appointment. */
  lemma {:induction false} HostFollowsHistory(info: MeetingInfo, actions: seq<Action>)
    ensures AfterAll(FreshMetadata(info), actions).hostUserID == LastHost(actions, info.creatorUserID)
  {
    if |actions| > 0 {
      HostFollowsHistory(info, actions[..|actions| - 1]);
      hide Dedup, Put, DataOf;
    }
  }

  /** Every co-host list requested so far, one after the other. */
  function Requested(actions: seq<Action>): (coHosts: seq<string>) {
    if |actions| == 0 then []
    else
      var last := actions[|actions| - 1];
      Requested(actions[..|actions| - 1])
      + (if last.Do? && last.edit.HostEdit? && last.edit.coHosts.Some? then last.edit.coHosts.value else [])
  }

  /** The co-hosts are the first occurrences in the concatenation of all requested lists. */
  lemma {:induction false} CoHostsFollowHistory(info: MeetingInfo, actions: seq<Action>)
    ensures AfterAll(FreshMetadata(info), actions).coHostUserIDs == Dedup(Requested(actions))
  {
    if |actions| > 0 {
      var before, last := actions[..|actions| - 1], actions[|actions| - 1];
      CoHostsFollowHistory(info, before);
      if last.Do? && last.edit.HostEdit? && last.edit.coHosts.Some? {
        DedupTwice(Requested(before), last.edit.coHosts.value);
      } else {
        assert Requested(before) + [] == Requested(before);
      }
      hide Dedup, Put, DataOf;
    }
  }

  /** Earlier requests keep their places: the list only ever grows at the end. */
  lemma {:induction false} CoHostsGrow(info: MeetingInfo, actions: seq<Action>, more: seq<Action>)
    ensures AfterAll(FreshMetadata(info), actions).coHostUserIDs
         <= AfterAll(FreshMetadata(info), actions + more).coHostUserIDs
  {
    hide *;
    CoHostsFollowHistory(info, actions);
    CoHostsFollowHistory(info, actions + more);
    RequestedPrefix(actions, more);
    var all, n := Requested(actions + more), |Requested(actions)|;
    assert Requested(actions) + all[n..] == all;
    DedupTwice(Requested(actions), all[n..]);
  }

  lemma {:induction false} RequestedPrefix(actions: seq<Action>, more: seq<Action>)
    ensures Requested(actions) <= Requested(actions + more)
    decreases |more|
  {
    if |more| == 0 {
      assert actions + more == actions;
    } else {
      RequestedPrefix(actions, more[..|more| - 1]);
      assert (actions + more)[..|actions + more| - 1] == actions + more[..|more| - 1];
    }
  }
}
