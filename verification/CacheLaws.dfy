/** When the caches agree with the collections behind them, over whole runs and with the exact conditions. */
module CacheLaws {
  import opened Options
  import opened Meetings
  import opened Identifiers
  import opened CacheAside

  /** Every cached document is the stored one, under a key that one of its own names gives. */
  predicate Coherent(s: State) {
    forall key :: key in s.entries ==> EntryAgrees(s, key, s.entries[key])
  }

  predicate EntryAgrees(s: State, key: string, e: Entry) {
    match e
    case MeetingEntry(m) =>
      && key == InfoKey(m.meetingID) && m.meetingID in s.meetings && s.meetings[m.meetingID] == m
    case UserEntry(u) =>
      && u.userID in s.users && s.users[u.userID] == u && (key == InfoKey(u.userID) || key == InfoKey(u.account))
  }

  /** Every record is filed under its own identifier. */
  predicate Filed(s: State) {
    && (forall id :: id in s.meetings ==> s.meetings[id].meetingID == id)
    && (forall id :: id in s.users ==> s.users[id].userID == id)
  }

  predicate IsNameOf(name: string, u: User) {
    name == u.userID || name == u.account
  }

  /** No user's identifier or account is `id`. */
  predicate NoUserNamed(s: State, id: string) {
    forall u :: u in s.users ==> !IsNameOf(id, s.users[u])
  }

  /** What a collection can answer when a user is looked up by this name. */
  predicate CanAnswer(s: State, name: string, stored: Option<User>) {
    match stored
    case None => true
    case Some(u) => u.userID in s.users && s.users[u.userID] == u && IsNameOf(name, u)
  }

  // ---- runs ----

  datatype Event =
    | Create(infos: seq<MeetingInfo>, works: Attempts)
    | Update(id: string, update: Meetings.Update, works: Attempts)
    | Delete(id: string, works: Attempts)
    | Take(id: string)
    | LookUp(name: string, stored: Option<User>)
    | Register(users: seq<User>, works: Attempts)

  function Next(s: State, e: Event): (next: State) {
    match e
    case Create(infos, works) => Created(s, infos, works)
    case Update(id, u, works) => UpdatedState(s, id, u, works)
    case Delete(id, works) => Deleted(s, id, works)
    case Take(id) => Taken(s, id).1
    case LookUp(name, stored) => LookedUp(s, name, stored).1
    case Register(users, works) => Registered(s, users, works)
  }

  /** A look-up answers from the collection; nothing else about an event depends on the state. */
  predicate IsLegal(s: State, e: Event) {
    e.LookUp? ==> CanAnswer(s, e.name, e.stored)
  }

  datatype Run = Run(states: seq<State>, events: seq<Event>)

  ghost predicate IsRun(run: Run) {
    && |run.states| == |run.events| + 1
    && run.states[0] == State(map[], map[], map[])
    && forall i :: 0 <= i < |run.events| ==> StepAt(run, i)
  }

  ghost predicate StepAt(run: Run, i: nat)
    requires |run.states| == |run.events| + 1 && i < |run.events|
  {
    IsLegal(run.states[i], run.events[i]) && run.states[i + 1] == Next(run.states[i], run.events[i])
  }

  // ---- every step keeps the cache coherent ----

  lemma {:induction false} OneKeyRemoved(entries: Entries, id: string, works: Attempts)
    ensures Removed(entries, KeysOf([id]), works) == if Succeeds(works, 0) then entries - {InfoKey(id)} else entries
  {
    assert KeysOf([id]) == [InfoKey(id)];
  }

  lemma {:induction false} WithAllHas<T>(stored: map<string, T>, ids: seq<string>, docs: seq<T>, id: string)
    requires |ids| == |docs| && Insertable(stored, ids)
    ensures var all := WithAll(stored, ids, docs);
            && (id in stored ==> id in all && all[id] == stored[id])
            && (id in all && id !in stored ==> exists i :: 0 <= i < |ids| && ids[i] == id && all[id] == docs[i])
  {
    if |ids| > 0 {
      var last := |ids| - 1;
      WithAllHas(stored, ids[..last], docs[..last], id);
      assert ids[last] == id ==> WithAll(stored, ids, docs)[id] == docs[last];
    }
  }

  /** InsertMany under the unique index: every document under its identifier, and what was there before. */
  lemma {:induction false} WithAllIs<T>(stored: map<string, T>, ids: seq<string>, docs: seq<T>)
    requires |ids| == |docs| && Insertable(stored, ids)
    ensures var all := WithAll(stored, ids, docs);
            && (forall id :: id in all <==> id in stored || id in ids)
            && (forall i :: 0 <= i < |ids| ==> all[ids[i]] == docs[i])
            && (forall id :: id in stored ==> all[id] == stored[id])
  {
    if |ids| > 0 {
      var last := |ids| - 1;
      WithAllIs(stored, ids[..last], docs[..last]);
      assert ids == ids[..last] + [ids[last]];
    }
  }

  /** One of the identifiers is in use, or comes twice. */
  predicate Clash<T>(stored: map<string, T>, ids: seq<string>) {
    (exists i :: 0 <= i < |ids| && ids[i] in stored) || (exists i, j :: 0 <= i < j < |ids| && ids[i] == ids[j])
  }

  lemma ClashIff<T>(stored: map<string, T>, ids: seq<string>)
    ensures Clash(stored, ids) <==> !Insertable(stored, ids)
  {
  }

  /** Create stores all of the given meetings and loses none, or, if identifiers clash, changes nothing. */
  lemma CreateMeans(s: State, infos: seq<MeetingInfo>, works: Attempts)
    ensures var s', ids := Created(s, infos, works), IDsOf(infos);
            if Clash(s.meetings, ids) then s' == s
            else && s'.users == s.users
                 && (forall id :: id in s'.meetings <==> id in s.meetings || id in ids)
                 && (forall i :: 0 <= i < |infos| ==>
                       ids[i] == infos[i].meetingID && s'.meetings[ids[i]] == infos[i])
                 && (forall id :: id in s.meetings ==> s'.meetings[id] == s.meetings[id])
  {
    var ids := IDsOf(infos);
    ClashIff(s.meetings, ids);
    if Insertable(s.meetings, ids) {
      WithAllIs(s.meetings, ids, infos);
    }
    hide WithAll, Removed, Clash, Insertable;
  }

  /** The same for users. */
  lemma RegisterMeans(s: State, users: seq<User>, works: Attempts)
    ensures var s', ids := Registered(s, users, works), UserIDsOf(users);
            if Clash(s.users, ids) then s' == s
            else && s'.meetings == s.meetings
                 && (forall id :: id in s'.users <==> id in s.users || id in ids)
                 && (forall i :: 0 <= i < |users| ==> ids[i] == users[i].userID && s'.users[ids[i]] == users[i])
                 && (forall id :: id in s.users ==> s'.users[id] == s.users[id])
  {
    var ids := UserIDsOf(users);
    ClashIff(s.users, ids);
    if Insertable(s.users, ids) {
      WithAllIs(s.users, ids, users);
    }
    hide WithAll, Removed, Clash, Insertable;
  }

  /** What is left in the cache: everything but the keys of these identifiers for which an attempt succeeds. */
  lemma {:induction false} RemovedMeans(entries: Entries, ids: seq<string>, works: Attempts, key: string)
    ensures var left := Removed(entries, KeysOf(ids), works);
            && (key in left <==>
                  key in entries && forall i :: 0 <= i < |ids| && InfoKey(ids[i]) == key ==> !Succeeds(works, i))
            && (key in left ==> left[key] == entries[key])
  {
    hide InfoKey, Succeeds;
  }

  /** Every write that is not refused removes the keys of what it wrote, and no read removes any. */
  lemma WritesInvalidate(s: State, e: Event)
    ensures var left := Next(s, e).entries;
            match e
            case Create(infos, works) =>
              left == if Clash(s.meetings, IDsOf(infos)) then s.entries
                      else Removed(s.entries, KeysOf(IDsOf(infos)), works)
            case Register(users, works) =>
              left == if Clash(s.users, UserIDsOf(users)) then s.entries
                      else Removed(s.entries, KeysOf(UserIDsOf(users)), works)
            case Update(id, _, works) => left == Removed(s.entries, KeysOf([id]), works)
            case Delete(id, works) => left == Removed(s.entries, KeysOf([id]), works)
            case _ => forall key :: key in s.entries ==> key in left && left[key] == s.entries[key]
  {
    match e {
      case Create(infos, _) => ClashIff(s.meetings, IDsOf(infos));
      case Register(users, _) => ClashIff(s.users, UserIDsOf(users));
      case _ =>
    }
    hide Clash, Insertable, Removed, WithAll;
  }

  /** A key is given up after five attempts. */
  lemma FiveAttempts(works: Attempts, i: nat)
    ensures Succeeds(works, i) <==> works(i, 0) || works(i, 1) || works(i, 2) || works(i, 3) || works(i, 4)
  {
    if Succeeds(works, i) {
      var t :| 0 <= t < MAX_RETRY_TIMES && works(i, t);
      assert t == 0 || t == 1 || t == 2 || t == 3 || t == 4;
    }
  }

  lemma CreateKeepsCoherent(s: State, infos: seq<MeetingInfo>, works: Attempts)
    requires Coherent(s) && Filed(s)
    ensures Coherent(Created(s, infos, works)) && Filed(Created(s, infos, works))
  {
    var ids := IDsOf(infos);
    if Insertable(s.meetings, ids) {
      var all := WithAll(s.meetings, ids, infos);
      forall id
        ensures id in s.meetings ==> id in all && all[id] == s.meetings[id]
        ensures id in all && id !in s.meetings ==> all[id].meetingID == id
      {
        WithAllHas(s.meetings, ids, infos, id);
      }
      hide WithAll, Insertable, IDsOf, InfoKey;
    }
  }

  lemma RegisterKeepsCoherent(s: State, users: seq<User>, works: Attempts)
    requires Coherent(s) && Filed(s)
    ensures Coherent(Registered(s, users, works)) && Filed(Registered(s, users, works))
  {
    var ids := UserIDsOf(users);
    if Insertable(s.users, ids) {
      var all := WithAll(s.users, ids, users);
      forall id
        ensures id in s.users ==> id in all && all[id] == s.users[id]
        ensures id in all && id !in s.users ==> all[id].userID == id
      {
        WithAllHas(s.users, ids, users, id);
      }
      hide WithAll, Insertable, UserIDsOf, InfoKey;
    }
  }

  lemma TakeKeepsCoherent(s: State, id: string)
    requires Coherent(s) && Filed(s)
    ensures Coherent(Taken(s, id).1) && Filed(Taken(s, id).1)
  {
  }

  lemma LookUpKeepsCoherent(s: State, name: string, stored: Option<User>)
    requires Coherent(s) && Filed(s) && CanAnswer(s, name, stored)
    ensures Coherent(LookedUp(s, name, stored).1) && Filed(LookedUp(s, name, stored).1)
  {
  }

  /** The removal of the key matters: a document of this meeting is cached, and all attempts to remove it fail. */
  ghost predicate Survives(s: State, id: string, works: Attempts) {
    InfoKey(id) in s.entries && s.entries[InfoKey(id)].MeetingEntry? && !Succeeds(works, 0)
  }

  /**
   An update leaves the cache coherent exactly when one of the five attempts to remove the key succeeds, or there
   was nothing stale to remove: no document of this meeting was cached, or the update did not change it. A failure
   is only logged, so nothing else stands between a failed removal and a stale read.
   */
  lemma UpdateCoherentIff(s: State, id: string, u: Meetings.Update, works: Attempts)
    requires Coherent(s) && Filed(s)
    ensures Coherent(UpdatedState(s, id, u, works))
            <==> (Survives(s, id, works) ==> id in s.meetings && ApplySet(s.meetings[id], u) == s.meetings[id])
    ensures Filed(UpdatedState(s, id, u, works))
  {
    OneKeyRemoved(s.entries, id, works);
    var s', key := UpdatedState(s, id, u, works), InfoKey(id);
    assert id in s.meetings ==> ApplySet(s.meetings[id], u).meetingID == id;
    hide ApplySet;
    OthersAgree(s, s', id);
    if Survives(s, id, works) {
      assert EntryAgrees(s, key, s.entries[key]);
      InfoKeyInjective(s.entries[key].meeting.meetingID, id);
    }
  }

  /** A deletion, too, leaves the cache coherent exactly when the meeting's document does not survive in it. */
  lemma DeleteCoherentIff(s: State, id: string, works: Attempts)
    requires Coherent(s) && Filed(s)
    ensures Coherent(Deleted(s, id, works)) <==> !Survives(s, id, works)
    ensures Filed(Deleted(s, id, works))
  {
    OneKeyRemoved(s.entries, id, works);
    var s', key := Deleted(s, id, works), InfoKey(id);
    OthersAgree(s, s', id);
    if Survives(s, id, works) {
      assert EntryAgrees(s, key, s.entries[key]);
      InfoKeyInjective(s.entries[key].meeting.meetingID, id);
    }
  }

  /** A write to one meeting can only spoil what is cached of that meeting. */
  lemma OthersAgree(s: State, s': State, id: string)
    requires Coherent(s) && s'.users == s.users && s'.meetings - {id} == s.meetings - {id}
    requires s'.entries == s.entries || s'.entries == s.entries - {InfoKey(id)}
    ensures Coherent(s')
            <==> (InfoKey(id) in s'.entries && s'.entries[InfoKey(id)].MeetingEntry?
                  ==> EntryAgrees(s', InfoKey(id), s'.entries[InfoKey(id)]))
  {
    var key := InfoKey(id);
    forall k | k in s'.entries && (k != key || s'.entries[k].UserEntry?) ensures EntryAgrees(s', k, s'.entries[k]) {
      assert EntryAgrees(s, k, s.entries[k]);
      if s.entries[k].MeetingEntry? {
        var other := s.entries[k].meeting.meetingID;
        assert other in s.meetings - {id};
        assert (s'.meetings - {id})[other] == (s.meetings - {id})[other];
      }
    }
  }

  /** What a step must not do: change or delete a meeting whose document survives in the cache. */
  ghost predicate Harmless(s: State, e: Event) {
    match e
    case Update(id, u, works) =>
      Survives(s, id, works) ==> id in s.meetings && ApplySet(s.meetings[id], u) == s.meetings[id]
    case Delete(id, works) => !Survives(s, id, works)
    case _ => true
  }

  /** Exactly the harmless steps keep the cache coherent. */
  lemma StepCoherentIff(s: State, e: Event)
    requires Coherent(s) && Filed(s) && IsLegal(s, e)
    ensures Coherent(Next(s, e)) <==> Harmless(s, e)
    ensures Filed(Next(s, e))
  {
    hide Coherent, Filed, EntryAgrees, ApplySet, Survives;
    match e {
      case Create(infos, works) => CreateKeepsCoherent(s, infos, works);
      case Update(id, u, works) => UpdateCoherentIff(s, id, u, works);
      case Delete(id, works) => DeleteCoherentIff(s, id, works);
      case Take(id) => TakeKeepsCoherent(s, id);
      case LookUp(name, stored) => LookUpKeepsCoherent(s, name, stored);
      case Register(users, works) => RegisterKeepsCoherent(s, users, works);
    }
  }

  /** All steps of the run up to the i-th state are harmless. */
  ghost predicate HarmlessUpTo(run: Run, i: nat)
    requires |run.states| == |run.events| + 1 && i <= |run.events|
  {
    forall k :: 0 <= k < i ==> Harmless(run.states[k], run.events[k])
  }

  /**
   In a run of reads, creations, updates and deletions every document that is ever cached equals the stored one
   exactly when every step is harmless.
   */
  lemma {:induction false} EveryStateIsCoherent(run: Run, i: nat)
    requires IsRun(run) && i < |run.states|
    ensures HarmlessUpTo(run, i) <==> forall k :: 0 <= k <= i ==> Coherent(run.states[k])
    ensures HarmlessUpTo(run, i) ==> Filed(run.states[i])
  {
    hide Coherent, Harmless, Next, Filed;
    if i == 0 {
      EmptyIsCoherent();
    } else {
      EveryStateIsCoherent(run, i - 1);
      assert StepAt(run, i - 1);
      if HarmlessUpTo(run, i - 1) {
        StepCoherentIff(run.states[i - 1], run.events[i - 1]);
      }
    }
  }

  lemma EmptyIsCoherent()
    ensures Coherent(State(map[], map[], map[])) && Filed(State(map[], map[], map[]))
  {
  }

  // ---- a cached read refines a plain one ----

  /** The plain read of the collection. */
  function PlainRead(s: State, id: string): (read: Read) {
    if id in s.meetings then Found(s.meetings[id]) else NotFound
  }

  lemma CoherentReadIsPlain(s: State, id: string)
    requires Coherent(s) && Filed(s) && NoUserNamed(s, id)
    ensures Taken(s, id).0 == PlainRead(s, id)
  {
    var key := InfoKey(id);
    if key in s.entries {
      assert EntryAgrees(s, key, s.entries[key]);
      match s.entries[key] {
        case MeetingEntry(m) => InfoKeyInjective(m.meetingID, id);
        case UserEntry(u) =>
          InfoKeyInjective(u.userID, id);
          InfoKeyInjective(u.account, id);
      }
    }
  }

  /** In every run of harmless steps, taking a meeting through the cache answers what the collection holds. */
  lemma TakeRefinesPlainRead(run: Run, i: nat, id: string)
    requires IsRun(run) && i < |run.states| && HarmlessUpTo(run, i) && NoUserNamed(run.states[i], id)
    ensures Taken(run.states[i], id).0 == PlainRead(run.states[i], id)
  {
    EveryStateIsCoherent(run, i);
    CoherentReadIsPlain(run.states[i], id);
  }

  // ---- what holds of cached reads even when they are stale ----

  /** Some creation before the i-th state has made a meeting with this identifier and creator. */
  ghost predicate WasCreated(run: Run, i: nat, info: MeetingInfo)
    requires i <= |run.events|
  {
    exists k, n :: 0 <= k < i && run.events[k].Create? && 0 <= n < |run.events[k].infos|
                   && run.events[k].infos[n].meetingID == info.meetingID
                   && run.events[k].infos[n].creatorUserID == info.creatorUserID
  }

  /** So it is with every stored meeting, and with every meeting that is cached, under its own key. */
  ghost predicate AllWereCreated(run: Run, i: nat)
    requires i < |run.states| == |run.events| + 1
  {
    var s := run.states[i];
    && (forall id :: id in s.meetings ==> s.meetings[id].meetingID == id && WasCreated(run, i, s.meetings[id]))
    && forall key :: key in s.entries && s.entries[key].MeetingEntry? ==>
         key == InfoKey(s.entries[key].meeting.meetingID) && WasCreated(run, i, s.entries[key].meeting)
  }

  lemma WasCreatedStays(run: Run, i: nat, info: MeetingInfo)
    requires i < |run.events| && WasCreated(run, i, info)
    ensures WasCreated(run, i + 1, info)
  {
    var k, n :| 0 <= k < i && run.events[k].Create? && 0 <= n < |run.events[k].infos|
                && run.events[k].infos[n].meetingID == info.meetingID
                && run.events[k].infos[n].creatorUserID == info.creatorUserID;
    assert 0 <= k < i + 1;
  }

  /** Where a step takes its documents from: those that were there, under the same names, or a creation. */
  lemma StepSources(s: State, e: Event, id: string)
    requires id in Next(s, e).meetings
    requires id in s.meetings ==> s.meetings[id].meetingID == id
    ensures var m := Next(s, e).meetings[id];
            || (id in s.meetings && m.meetingID == id && m.creatorUserID == s.meetings[id].creatorUserID)
            || (e.Create? && exists n :: 0 <= n < |e.infos| && e.infos[n] == m && m.meetingID == id)
  {
    if e.Create? && Insertable(s.meetings, IDsOf(e.infos)) {
      WithAllHas(s.meetings, IDsOf(e.infos), e.infos, id);
    }
  }

  lemma StepCaches(s: State, e: Event, key: string)
    requires key in Next(s, e).entries && Next(s, e).entries[key].MeetingEntry?
    ensures var m := Next(s, e).entries[key].meeting;
            || (key in s.entries && s.entries[key] == MeetingEntry(m))
            || exists id :: id in s.meetings && s.meetings[id] == m && key == InfoKey(id)
  {
  }

  lemma {:induction false} EveryDocumentWasCreated(run: Run, i: nat)
    requires IsRun(run) && i < |run.states|
    ensures AllWereCreated(run, i)
  {
    if i > 0 {
      EveryDocumentWasCreated(run, i - 1);
      assert StepAt(run, i - 1);
      var s, e, s' := run.states[i - 1], run.events[i - 1], run.states[i];
      hide Next, InfoKey;
      forall id | id in s'.meetings ensures s'.meetings[id].meetingID == id && WasCreated(run, i, s'.meetings[id]) {
        StepSources(s, e, id);
        if id in s.meetings && s'.meetings[id].creatorUserID == s.meetings[id].creatorUserID {
          WasCreatedStays(run, i - 1, s.meetings[id]);
        }
      }
      forall key | key in s'.entries && s'.entries[key].MeetingEntry?
        ensures key == InfoKey(s'.entries[key].meeting.meetingID) && WasCreated(run, i, s'.entries[key].meeting)
      {
        StepCaches(s, e, key);
        WasCreatedStays(run, i - 1, s'.entries[key].meeting);
      }
    }
  }

  /**
   However many removals have failed: a meeting that a cached read answers has the identifier that was asked for, and
   was created with the creator that it names.
   */
  lemma ReadNamesItsMeeting(run: Run, i: nat, id: string)
    requires IsRun(run) && i < |run.states| && Taken(run.states[i], id).0.Found?
    ensures var info := Taken(run.states[i], id).0.meeting;
            info.meetingID == id && WasCreated(run, i, info)
  {
    EveryDocumentWasCreated(run, i);
    InfoKeyInjective(Taken(run.states[i], id).0.meeting.meetingID, id);
  }

  /** Users stay: whom no user is named like at the end, no user has been named like before. */
  lemma {:induction false} NamesAccumulate(run: Run, i: nat, j: nat, id: string)
    requires IsRun(run) && i <= j < |run.states| && NoUserNamed(run.states[j], id)
    ensures NoUserNamed(run.states[i], id)
    decreases j
  {
    if i < j {
      assert StepAt(run, j - 1);
      StepKeepsUsers(run.states[j - 1], run.events[j - 1]);
      NamesAccumulate(run, i, j - 1, id);
    }
  }

  lemma StepKeepsUsers(s: State, e: Event)
    ensures forall u :: u in s.users ==> u in Next(s, e).users && Next(s, e).users[u] == s.users[u]
  {
    forall u | u in s.users ensures u in Next(s, e).users && Next(s, e).users[u] == s.users[u] {
      if e.Register? && Insertable(s.users, UserIDsOf(e.users)) {
        WithAllHas(s.users, UserIDsOf(e.users), e.users, u);
      }
    }
  }

  const NEVER: Attempts := (i, t) => false

  /** A meeting is created, read and updated, and the five attempts to remove its key fail. */
  function StaleRun(info: MeetingInfo, u: Meetings.Update): (run: Run) {
    var id := info.meetingID;
    var cached := map[InfoKey(id) := MeetingEntry(info)];
    Run([State(map[], map[], map[]), State(map[id := info], map[], map[]), State(map[id := info], map[], cached),
         State(map[id := ApplySet(info, u)], map[], cached)],
        [Create([info], NEVER), Take(id), Event.Update(id, u, NEVER)])
  }

  /** Whatever the update changes, the next read of the meeting does not see it. */
  lemma ReadCanBeStale(info: MeetingInfo, u: Meetings.Update)
    ensures var run, id := StaleRun(info, u), info.meetingID;
            && IsRun(run)
            && Taken(run.states[3], id).0 == Found(info) && PlainRead(run.states[3], id) == Found(ApplySet(info, u))
  {
    var run, id := StaleRun(info, u), info.meetingID;
    hide ApplySet, InfoKey;
    assert StepAt(run, 0) by {
      assert IDsOf([info]) == [id];
      assert WithAll(map[], [id][..0], [info][..0]) == map[];
    }
    assert StepAt(run, 1);
    assert StepAt(run, 2) by {
      OneKeyRemoved(run.states[2].entries, id, NEVER);
    }
  }

  /**
   The shared prefix makes the names matter. For a stored meeting that is not cached, no look-up of a user can spoil
   the next read of the meeting exactly when no user has the meeting's identifier as an identifier or account.
   */
  lemma NamesApartIff(s: State, id: string)
    requires Coherent(s) && Filed(s) && id in s.meetings && InfoKey(id) !in s.entries
    ensures NoUserNamed(s, id)
            <==> forall name, stored :: CanAnswer(s, name, stored)
                   ==> Taken(LookedUp(s, name, stored).1, id).0 == Found(s.meetings[id])
  {
    if NoUserNamed(s, id) {
      forall name, stored | CanAnswer(s, name, stored)
        ensures Taken(LookedUp(s, name, stored).1, id).0 == Found(s.meetings[id])
      {
        LookUpKeepsCoherent(s, name, stored);
        CoherentReadIsPlain(LookedUp(s, name, stored).1, id);
      }
    } else {
      var u :| u in s.users && IsNameOf(id, s.users[u]);
      var stored := Some(s.users[u]);
      assert CanAnswer(s, id, stored);
      assert Taken(LookedUp(s, id, stored).1, id).0 == Foreign(s.users[u].password);
    }
  }

  /** What is then read in place of the meeting has the user's password and nothing else. */
  lemma UserShadowsMeeting(s: State, id: string, user: User)
    requires InfoKey(id) !in s.entries
    ensures Taken(LookedUp(s, id, Some(user)).1, id).0 == Foreign(user.password)
  {
  }

  // ---- batches of users ----

  /** The name belongs to nobody else: no other user has it as an account, and no meeting as an identifier. */
  predicate OwnName(s: State, id: string) {
    && (forall u :: u in s.users && s.users[u].account == id ==> u == id)
    && id !in s.meetings
  }

  lemma CoherentLookUpIsPlain(s: State, id: string)
    requires Coherent(s) && Filed(s) && OwnName(s, id)
    ensures LookedUp(s, id, ByID(s, id)).0 == ByID(s, id)
  {
    var key := InfoKey(id);
    if key in s.entries {
      assert EntryAgrees(s, key, s.entries[key]);
      match s.entries[key] {
        case MeetingEntry(m) => InfoKeyInjective(m.meetingID, id);
        case UserEntry(u) =>
          InfoKeyInjective(u.userID, id);
          InfoKeyInjective(u.account, id);
      }
    }
  }

  /** The plain batch: what the collection holds for these identifiers, in their order. */
  function PlainBatch(s: State, ids: seq<string>): (users: seq<User>)
    ensures |users| <= |ids|
  {
    if |ids| == 0 then []
    else
      var one := ByID(s, ids[|ids| - 1]);
      PlainBatch(s, ids[..|ids| - 1]) + (if one.Some? then [one.value] else [])
  }

  lemma {:induction false} BatchIsPlain(s: State, ids: seq<string>)
    requires Coherent(s) && Filed(s) && forall i :: 0 <= i < |ids| ==> OwnName(s, ids[i])
    ensures Batch(s, ids).0 == PlainBatch(s, ids)
    ensures var s' := Batch(s, ids).1;
            s'.meetings == s.meetings && s'.users == s.users && Coherent(s')
  {
    if |ids| > 0 {
      var before, id := ids[..|ids| - 1], ids[|ids| - 1];
      BatchIsPlain(s, before);
      var s1 := Batch(s, before).1;
      assert OwnName(s, id) && OwnName(s1, id);
      CoherentLookUpIsPlain(s1, id);
      LookUpKeepsCoherent(s1, id, ByID(s1, id));
    }
  }

  /** A batch leaves every stored user that it asked for in the cache, and takes nothing out of it. */
  lemma {:induction false} BatchFillsCache(s: State, ids: seq<string>)
    ensures var s' := Batch(s, ids).1;
            && s'.meetings == s.meetings && s'.users == s.users
            && (forall key :: key in s.entries ==> key in s'.entries && s'.entries[key] == s.entries[key])
            && (forall i :: 0 <= i < |ids| && ids[i] in s.users ==> InfoKey(ids[i]) in s'.entries)
  {
    hide InfoKey;
    if |ids| > 0 {
      BatchFillsCache(s, ids[..|ids| - 1]);
    }
  }

  lemma {:induction false} PlainBatchAligned(s: State, ids: seq<string>)
    ensures |PlainBatch(s, ids)| == |ids| <==> forall i :: 0 <= i < |ids| ==> ids[i] in s.users
    ensures |PlainBatch(s, ids)| == |ids| ==>
              forall i :: 0 <= i < |ids| ==> ids[i] in s.users && PlainBatch(s, ids)[i] == s.users[ids[i]]
  {
    if |ids| > 0 {
      PlainBatchAligned(s, ids[..|ids| - 1]);
    }
  }

  /**
   FindWithError reports no error exactly when every requested identifier is stored, and then its i-th record is the
   one stored under the i-th identifier, duplicates included.
   */
  lemma {:induction false} BatchAligned(s: State, ids: seq<string>)
    requires Coherent(s) && Filed(s) && forall i :: 0 <= i < |ids| ==> OwnName(s, ids[i])
    ensures var found := Batch(s, ids).0;
            && (|found| == |ids| <==> forall i :: 0 <= i < |ids| ==> ids[i] in s.users)
            && (|found| == |ids| ==> forall i :: 0 <= i < |ids| ==> ids[i] in s.users && found[i] == s.users[ids[i]])
  {
    BatchIsPlain(s, ids);
    PlainBatchAligned(s, ids);
  }

  /** The names matter here too: an account that is somebody else's identifier makes the batch answer the wrong user. */
  lemma {:induction false} AccountShadowsIdentifier(s: State, a: User, b: User)
    requires Coherent(s) && Filed(s) && a.userID != b.userID && a.account == b.userID
    requires a.userID in s.users && s.users[a.userID] == a && b.userID in s.users && s.users[b.userID] == b
    requires InfoKey(b.userID) !in s.entries
    ensures var s' := LookedUp(s, a.account, Some(a)).1;
            Coherent(s') && Batch(s', [b.userID]).0 == [a]
  {
    LookUpKeepsCoherent(s, a.account, Some(a));
    var s' := LookedUp(s, a.account, Some(a)).1;
    assert [b.userID][..0] == [];
    assert Batch(s', [b.userID][..0]) == ([], s');
  }

  lemma {:induction false} OneInBatch(s: State, id: string)
    ensures Batch(s, [id]).0 == (var one := LookedUp(s, id, ByID(s, id)).0; if one.Some? then [one.value] else [])
    ensures PlainBatch(s, [id]) == if id in s.users then [s.users[id]] else []
  {
    assert [id][..0] == [];
    assert Batch(s, [id][..0]) == ([], s);
  }

  /**
   The exact condition: for an identifier that is not cached, no cached read of a user or a meeting can make the batch
   answer anything but the stored user exactly when the name belongs to nobody else.
   */
  lemma {:induction false} OwnNameIff(s: State, id: string)
    requires Coherent(s) && Filed(s) && InfoKey(id) !in s.entries && id != ""
    ensures OwnName(s, id)
            <==> forall e: Event :: (e.LookUp? || e.Take?) && IsLegal(s, e)
                   ==> Batch(Next(s, e), [id]).0 == PlainBatch(s, [id])
  {
    if OwnName(s, id) {
      forall e: Event | (e.LookUp? || e.Take?) && IsLegal(s, e)
        ensures Batch(Next(s, e), [id]).0 == PlainBatch(s, [id])
      {
        ReadLeavesOwnName(s, e, id);
      }
    } else {
      var e := ReadSpoilsSharedName(s, id);
    }
    hide OwnName, Coherent, Filed, Batch, PlainBatch, Next, IsLegal;
  }

  /** A read that makes the batch answer something else: of the meeting, or of the user who has the account. */
  lemma ReadSpoilsSharedName(s: State, id: string) returns (e: Event)
    requires Filed(s) && !OwnName(s, id) && InfoKey(id) !in s.entries && id != ""
    ensures (e.LookUp? || e.Take?) && IsLegal(s, e) && Batch(Next(s, e), [id]).0 != PlainBatch(s, [id])
  {
    OneInBatch(s, id);
    hide Batch, PlainBatch;
    if id in s.meetings {
      e := Take(id);
      MeetingShadowsIdentifier(s, id);
    } else {
      var u :| u in s.users && s.users[u].account == id && u != id;
      e := LookUp(id, Some(s.users[u]));
      OneInBatch(Next(s, e), id);
    }
  }

  lemma ReadOnlyCaches(s: State, e: Event)
    requires e.LookUp? || e.Take?
    ensures Next(s, e).users == s.users && Next(s, e).meetings == s.meetings && Harmless(s, e)
  {
  }

  lemma {:induction false} ReadLeavesOwnName(s: State, e: Event, id: string)
    requires Coherent(s) && Filed(s) && OwnName(s, id) && (e.LookUp? || e.Take?) && IsLegal(s, e)
    ensures Batch(Next(s, e), [id]).0 == PlainBatch(s, [id])
  {
    ReadOnlyCaches(s, e);
    StepCoherentIff(s, e);
    OneInBatch(s, id);
    OneInBatch(Next(s, e), id);
    CoherentLookUpIsPlain(Next(s, e), id);
    hide Next, Coherent, Filed, Batch, PlainBatch, InfoKey, LookedUp, Taken;
  }

  /** A meeting with the name of a user: once it has been read, the batch answers a user without a name. */
  lemma MeetingShadowsIdentifier(s: State, id: string)
    requires id in s.meetings && InfoKey(id) !in s.entries
    ensures Batch(Next(s, Take(id)), [id]).0 == [User("", "", "", s.meetings[id].password, "")]
  {
    OneInBatch(Next(s, Take(id)), id);
  }
}
