/**
 The meeting service on top of its storage. EndMeeting and UpdateMeeting act on what a cached read answers; here the
 runs of the service are seen together with the runs of the storage below it.
 */
module CachedRuns {
  import opened Options
  import opened Scheduler
  import opened Meetings
  import opened Identifiers
  import opened Lifecycle
  import opened MeetingRuns
  import CacheAside
  import CacheLaws

  const NOTHING_SET := MeetingSetting(false, false, false, false, false, false, false, false, false)

  /** The record that a handler gets. The document of a user decodes as a meeting with nothing but a password. */
  function Decoded(read: CacheAside.Read): (info: Option<MeetingInfo>) {
    match read
    case Found(m) => Some(m)
    case Foreign(password) =>
      Some(MeetingInfo("", "", 0, 0, password, "", NoStatus, 0, Rule(FixedZone(0), 0, Unset, 0, NoUnit, 0, []),
                       NOTHING_SET))
    case NotFound => None
  }

  /** The event acts on what a cached read answers in this state of the storage. */
  predicate ReadsThrough(s: CacheAside.State, e: Event) {
    match e
    case End(req, read, _, _) => read == Decoded(CacheAside.Taken(s, req.meetingID).0)
    case UpdateInfo(id, read, _) => read == Decoded(CacheAside.Taken(s, id).0)
    case _ => true
  }

  /** The storage of the service: the i-th event finds it in the state `at[i]` of its own run. */
  ghost predicate Served(run: Run, below: CacheLaws.Run, at: seq<nat>) {
    && IsRun(run) && CacheLaws.IsRun(below)
    && |at| == |run.stores|
    && (forall i, j :: 0 <= i <= j < |at| ==> at[i] <= at[j])
    && (forall i :: 0 <= i < |at| ==> at[i] < |below.states|)
    && forall i :: 0 <= i < |at| ==> ServedAt(run, below, at, i)
  }

  ghost predicate ServedAt(run: Run, below: CacheLaws.Run, at: seq<nat>, i: nat)
    requires |at| == |run.stores| == |run.events| + 1 && i < |at| && at[i] < |below.states|
  {
    && below.states[at[i]].meetings == run.stores[i].meetings
    && (i < |run.events| ==> ReadsThrough(below.states[at[i]], run.events[i]))
  }

  /** As long as the storage takes harmless steps only and no user is named like the meeting, it is read as stored. */
  lemma ReadIsStored(run: Run, below: CacheLaws.Run, at: seq<nat>, i: nat, id: string)
    requires Served(run, below, at) && i < |run.events|
    requires CacheLaws.HarmlessUpTo(below, at[i]) && CacheLaws.NoUserNamed(below.states[at[i]], id)
    ensures ReadsStored(run.stores[i], run.events[i], id)
  {
    assert ServedAt(run, below, at, i);
    CacheLaws.TakeRefinesPlainRead(below, at[i], id);
  }

  /**
   Completed is final on top of the cache: a completed record that satisfies the guard stays as it is, or is deleted
   for good, as long as the storage takes harmless steps and no user has the meeting's identifier as a name.
   */
  lemma CompletedIsFinalThroughCache(
    run: Run, below: CacheLaws.Run, at: seq<nat>, i: nat, j: nat, id: string)
    requires Served(run, below, at) && i <= j < |run.stores|
    requires CacheLaws.HarmlessUpTo(below, at[j]) && CacheLaws.NoUserNamed(below.states[at[j]], id)
    requires IsCompleted(run.stores[i], id) && SafeSchedule(run.stores[i].meetings[id])
    ensures id in run.stores[j].meetings ==> run.stores[j].meetings[id] == run.stores[i].meetings[id]
  {
    forall k | 0 <= k < j ensures WellReadAt(run, k, id) {
      assert at[k] <= at[j] && ServedAt(run, below, at, k) && ServedAt(run, below, at, j);
      CacheLaws.NamesAccumulate(below, at[k], at[j], id);
      ReadIsStored(run, below, at, k, id);
    }
    CompletedIsFinal(run, i, j, id);
  }

  // ---- a user named like the meeting ----

  const NO_ENTRIES: CacheAside.Entries := map[]
  const ALWAYS: CacheAside.Attempts := (i, t) => true
  const ENDED_RULE := Rule(FixedZone(0), 36000, Daily, 50000, NoUnit, 0, [])
  const DAILY := BookReq("alice", "sync", 36000, 3600, "", FixedZone(0), NOTHING_SET,
                         Some(RepeatInfo(50000, 0, Daily, NoUnit, 0, [])))
  const EXTEND := UpdateReq(None, None, None, None, None, Some(RepeatInfo(200000, 0, Daily, NoUnit, 0, [])), NO_PATCH)
  const EXTENSION := EMPTY_UPDATE.(endDate := Some(200000), repeatTimes := Some(0), repeatType := Some(Daily),
                                   unit := Some(NoUnit), interval := Some(0), days := Some([]))

  /** A daily meeting, whose end date is either the one it was booked with or the extended one. */
  function Meeting(id: string, endDate: int, status: Status): (info: MeetingInfo) {
    BookedMeeting(id, DAILY).(status := status, rule := ENDED_RULE.(endDate := endDate))
  }

  function Namesake(id: string): (user: CacheAside.User) {
    CacheAside.User("bob", id, "bob", "secret", "salt")
  }

  /** Book a daily meeting, refresh after its end date, extend the end date, and end the meeting. */
  function ForeignReadRun(id: string): (run: Run) {
    var foreign := Decoded(CacheAside.Foreign("secret"));
    Run([Store(map[], 0),
         Store(map[id := Meeting(id, 50000, Scheduled)], 1),
         Store(map[id := Meeting(id, 50000, Completed)], 1),
         Store(map[id := Meeting(id, 200000, Completed)], 1),
         Store(map[id := Meeting(id, 200000, Scheduled)], 1)],
        [Book(DAILY, true), Refresh({}, 0, {id}), UpdateInfo(id, foreign, EXTEND),
         End(EndReq(id, "alice", EndType), Some(Meeting(id, 200000, Completed)), None, true)],
        [NANOS_PER_SECOND, 60000 * NANOS_PER_SECOND, 61000 * NANOS_PER_SECOND, 62000 * NANOS_PER_SECOND])
  }

  function InStorage(info: MeetingInfo, users: map<string, CacheAside.User>, entries: CacheAside.Entries)
    : (s: CacheAside.State)
  {
    CacheAside.State(map[info.meetingID := info], users, entries)
  }

  /** Meanwhile a user is registered whose account is the identifier, and looked up by it. */
  function ForeignStorageRun(id: string): (below: CacheLaws.Run) {
    var key, users := InfoKey(id), map["bob" := Namesake(id)];
    CacheLaws.Run(
      [CacheAside.State(map[], map[], map[]),
       InStorage(Meeting(id, 50000, Scheduled), map[], map[]),
       InStorage(Meeting(id, 50000, Completed), map[], map[]),
       InStorage(Meeting(id, 50000, Completed), users, map[]),
       InStorage(Meeting(id, 50000, Completed), users, map[key := CacheAside.UserEntry(Namesake(id))]),
       InStorage(Meeting(id, 200000, Completed), users, map[]),
       InStorage(Meeting(id, 200000, Scheduled), users, map[])],
      [CacheLaws.Event.Create([Meeting(id, 50000, Scheduled)], ALWAYS),
       CacheLaws.Event.Update(id, EMPTY_UPDATE.(status := Some(Completed)), ALWAYS),
       CacheLaws.Event.Register([Namesake(id)], ALWAYS),
       CacheLaws.Event.LookUp(id, Some(Namesake(id))),
       CacheLaws.Event.Update(id, EXTENSION, ALWAYS),
       CacheLaws.Event.Update(id, EMPTY_UPDATE.(status := Some(Scheduled)), ALWAYS)])
  }

  const ARRIVALS: seq<nat> := [0, 1, 4, 5, 6]

  lemma ForeignRunBegins()
    ensures StepAt(ForeignReadRun(MeetingID(1)), 0) && StepAt(ForeignReadRun(MeetingID(1)), 1)
  {
    hide MeetingID;
    var run := ForeignReadRun(MeetingID(1));
    assert StepAt(run, 0);
    assert StepAt(run, 1);
  }

  lemma ForeignRunEnds(id: string)
    ensures StepAt(ForeignReadRun(id), 2) && StepAt(ForeignReadRun(id), 3)
  {
    var run := ForeignReadRun(id);
    var rule := ENDED_RULE.(endDate := 200000);
    PatchNothing(NOTHING_SET);
    hide Patched;
    assert StepAt(run, 2);
    assert NextIs(rule, run.clocks[3], 122400) by {
      assert Orbit(rule, 0).Some? && OrbitTime(rule, 0) == 36000;
      assert Orbit(rule, 1).Some? && OrbitTime(rule, 1) == 122400;
      assert StopsAfter(rule, run.clocks[3], 1);
    }
    assert run.stores[4] == Ended(run.stores[3], run.events[3].end, true, 122400);
  }

  lemma ForeignReadRunIsRun()
    ensures IsRun(ForeignReadRun(MeetingID(1)))
  {
    hide MeetingID, Step, Meeting, NextIs, Decoded, BookedMeeting;
    ForeignRunBegins();
    ForeignRunEnds(MeetingID(1));
  }

  /** A harmless step with a removal that succeeds at once. */
  lemma UpdateStores(info: MeetingInfo, u: Update, users: map<string, CacheAside.User>, entries: CacheAside.Entries)
    ensures CacheLaws.Next(InStorage(info, users, entries), CacheLaws.Event.Update(info.meetingID, u, ALWAYS))
         == InStorage(ApplySet(info, u), users, entries - {InfoKey(info.meetingID)})
    ensures CacheLaws.Harmless(InStorage(info, users, entries), CacheLaws.Event.Update(info.meetingID, u, ALWAYS))
  {
    CacheLaws.OneKeyRemoved(entries, info.meetingID, ALWAYS);
    assert ALWAYS(0, 0);
    assert CacheAside.Succeeds(ALWAYS, 0);
    hide InfoKey;
  }

  lemma {:induction false} OneInserted<T>(none: map<string, T>, id: string, doc: T)
    requires none == map[]
    ensures CacheAside.Insertable(none, [id]) && CacheAside.WithAll(none, [id], [doc]) == map[id := doc]
  {
    assert CacheAside.WithAll(none, [id][..0], [doc][..0]) == none;
  }

  lemma StorageBooks(id: string)
    ensures CacheLaws.StepAt(ForeignStorageRun(id), 0) && CacheLaws.StepAt(ForeignStorageRun(id), 1)
  {
    var below, info := ForeignStorageRun(id), Meeting(id, 50000, Scheduled);
    UpdateStores(info, EMPTY_UPDATE.(status := Some(Completed)), map[], map[]);
    assert NO_ENTRIES - {InfoKey(id)} == NO_ENTRIES;
    assert ApplySet(info, EMPTY_UPDATE.(status := Some(Completed))) == Meeting(id, 50000, Completed);
    assert CacheAside.IDsOf([info]) == [id];
    OneInserted(map[], id, info);
    assert CacheAside.Removed(NO_ENTRIES, CacheAside.KeysOf([id]), ALWAYS) == NO_ENTRIES;
    hide InfoKey, Meeting, ApplySet;
  }

  lemma StorageReads(id: string)
    ensures CacheLaws.StepAt(ForeignStorageRun(id), 2) && CacheLaws.StepAt(ForeignStorageRun(id), 3)
  {
    var user := Namesake(id);
    assert CacheAside.UserIDsOf([user]) == ["bob"];
    OneInserted(map[], "bob", user);
    assert CacheAside.Removed(NO_ENTRIES, CacheAside.KeysOf(["bob"]), ALWAYS) == NO_ENTRIES;
    hide InfoKey, Meeting;
  }

  lemma StorageEnds(id: string)
    ensures CacheLaws.StepAt(ForeignStorageRun(id), 4) && CacheLaws.StepAt(ForeignStorageRun(id), 5)
  {
    var users, entry := map["bob" := Namesake(id)], map[InfoKey(id) := CacheAside.UserEntry(Namesake(id))];
    UpdateStores(Meeting(id, 50000, Completed), EXTENSION, users, entry);
    UpdateStores(Meeting(id, 200000, Completed), EMPTY_UPDATE.(status := Some(Scheduled)), users, map[]);
    assert entry - {InfoKey(id)} == NO_ENTRIES == NO_ENTRIES - {InfoKey(id)};
    assert ApplySet(Meeting(id, 50000, Completed), EXTENSION) == Meeting(id, 200000, Completed);
    assert ApplySet(Meeting(id, 200000, Completed), EMPTY_UPDATE.(status := Some(Scheduled)))
        == Meeting(id, 200000, Scheduled);
    hide InfoKey, Meeting, ApplySet;
  }

  lemma StorageRunIsHarmless(id: string)
    ensures CacheLaws.IsRun(ForeignStorageRun(id)) && CacheLaws.HarmlessUpTo(ForeignStorageRun(id), 6)
  {
    assert ALWAYS(0, 0) && CacheAside.Succeeds(ALWAYS, 0);
    hide CacheLaws.Next, InfoKey, Meeting, InStorage, CacheAside.Succeeds, ApplySet;
    StorageBooks(id);
    StorageReads(id);
    StorageEnds(id);
  }

  lemma ForeignRunArrivals(id: string, i: nat)
    requires i < 5
    ensures ServedAt(ForeignReadRun(id), ForeignStorageRun(id), ARRIVALS, i)
  {
    assert Meeting(id, 200000, Completed).meetingID == Meeting(id, 200000, Scheduled).meetingID == id;
    assert Meeting(id, 50000, Completed).meetingID == Meeting(id, 50000, Scheduled).meetingID == id;
    hide Meeting, InfoKey;
    if i == 2 {
      assert CacheAside.Taken(ForeignStorageRun(id).states[4], id).0 == CacheAside.Foreign("secret");
    } else if i == 3 {
      assert CacheAside.Taken(ForeignStorageRun(id).states[5], id).0
          == CacheAside.Found(Meeting(id, 200000, Completed));
    }
  }

  lemma ForeignRunIsServed()
    ensures Served(ForeignReadRun(MeetingID(1)), ForeignStorageRun(MeetingID(1)), ARRIVALS)
  {
    hide MeetingID, IsRun, CacheLaws.IsRun, CacheLaws.HarmlessUpTo, ServedAt, Meeting, InStorage;
    ForeignReadRunIsRun();
    StorageRunIsHarmless(MeetingID(1));
    forall i | 0 <= i < |ARRIVALS|
      ensures ServedAt(ForeignReadRun(MeetingID(1)), ForeignStorageRun(MeetingID(1)), ARRIVALS, i)
    {
      ForeignRunArrivals(MeetingID(1), i);
    }
  }

  /**
   The hypothesis on names is needed. In this run every record satisfies the guard, every step of the storage is
   harmless, and yet Completed is followed by Scheduled: an update has read the document of a user in place of the
   completed record, and has moved its end date.
   */
  lemma ForeignReadRevives()
    ensures var run, below, id := ForeignReadRun(MeetingID(1)), ForeignStorageRun(MeetingID(1)), MeetingID(1);
            && Served(run, below, ARRIVALS) && CacheLaws.HarmlessUpTo(below, 6)
            && (forall i :: 1 <= i < 5 ==> id in run.stores[i].meetings && SafeSchedule(run.stores[i].meetings[id]))
            && IsCompleted(run.stores[2], id) && run.stores[4].meetings[id].status.Scheduled?
  {
    ForeignRunIsServed();
    StorageRunIsHarmless(MeetingID(1));
    hide Served, CacheLaws.HarmlessUpTo, MeetingID;
  }
}
