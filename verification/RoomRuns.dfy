/**
 Handlers on live rooms, interleaved. Every handler reads a room's metadata into a private copy, and later edits the
 copy and writes the whole of it to the room that the copy names. Between the two, any other handler may run, the
 room may close and open again, and the handler itself may fail and drop its copy.
 */
module RoomRuns {
  import opened Options
  import opened Meetings
  import opened Lifecycle
  import opened RoomMetadata

  /** A room may exist and have no metadata yet. */
  datatype World = World(
    rooms: map<string, Option<Metadata>>,
    copies: map<nat, Copy>,
    creators: map<string, string>)  // who created each meeting; this is never forgotten

  /** A handler's private copy, and the room that it was read for. */
  datatype Copy = Copy(room: string, meta: Metadata)

  datatype Event =
    | MeetingCreated(room: string, creatorUserID: string)
    | RoomOpened(info: MeetingInfo)                        // CreateRoom, by the first to join
    | RoomOpenedBare(room: string)                         // a room without metadata
    | RoomClosed(room: string)
    | Read(handler: nat, room: string)                     // GetRoomData
    | ReadOrGenerate(handler: nat, info: MeetingInfo)      // JoinMeeting: a fresh value when there is none yet
    | Generate(handler: nat, info: MeetingInfo)            // CreateImmediateMeeting: a fresh value, to be written
    | Change(handler: nat, edit: Edit)
    | Rebuild(handler: nat, info: MeetingInfo)             // UpdateMeeting: a new detail part, from a second read
    | Write(handler: nat)                                  // UpdateMetaData
    | Drop(handler: nat)

  function MetadataOf(w: World, room: string): (meta: Option<Metadata>) {
    if room in w.rooms then w.rooms[room] else None
  }

  /**
   The record is one of a meeting: its creator is the one who created that meeting. What a cached read answers is such a
   record of the meeting asked for, stale or not (CacheLaws.ReadNamesItsMeeting), unless it is the document of a user.
   */
  predicate IsRecord(w: World, info: MeetingInfo) {
    info.meetingID in w.creators && w.creators[info.meetingID] == info.creatorUserID
  }

  predicate Enabled(w: World, e: Event) {
    match e
    case MeetingCreated(room, _) => room !in w.creators
    case RoomOpened(info) => IsRecord(w, info)
    case RoomOpenedBare(_) => true
    case RoomClosed(_) => true
    case Read(handler, room) => handler !in w.copies && MetadataOf(w, room).Some?
    case ReadOrGenerate(handler, info) => handler !in w.copies && IsRecord(w, info) && info.meetingID in w.rooms
    case Generate(handler, info) => handler !in w.copies && IsRecord(w, info)
    case Change(handler, _) => handler in w.copies
    case Rebuild(handler, info) => handler in w.copies && IsRecord(w, info) && info.meetingID == w.copies[handler].room
    case Write(handler) => handler in w.copies
    case Drop(handler) => handler in w.copies
  }

  function Next(w: World, e: Event): (next: World)
    requires Enabled(w, e)
  {
    match e
    case MeetingCreated(room, creatorUserID) => w.(creators := w.creators[room := creatorUserID])
    case RoomOpened(info) =>
      if info.meetingID in w.rooms then w
      else w.(rooms := w.rooms[info.meetingID := Some(FreshMetadata(info))])
    case RoomOpenedBare(room) => if room in w.rooms then w else w.(rooms := w.rooms[room := None])
    case RoomClosed(room) => w.(rooms := w.rooms - {room})
    case Read(handler, room) => w.(copies := w.copies[handler := Copy(room, MetadataOf(w, room).value)])
    case ReadOrGenerate(handler, info) =>
      var room := MetadataOf(w, info.meetingID);
      var meta := if room.Some? then room.value else FreshMetadata(info);
      w.(copies := w.copies[handler := Copy(info.meetingID, meta.(meetingID := info.meetingID))])
    case Generate(handler, info) => w.(copies := w.copies[handler := Copy(info.meetingID, FreshMetadata(info))])
    case Change(handler, edit) =>
      var copy := w.copies[handler];
      w.(copies := w.copies[handler := copy.(meta := Edited(copy.meta, edit))])
    case Rebuild(handler, info) =>
      var copy := w.copies[handler];
      w.(copies := w.copies[handler := copy.(meta := WithDetail(copy.meta, info, MetadataOf(w, copy.room)))])
    case Write(handler) =>
      // The value names the room it is written to; writing to a room that is not open fails.
      var meta := w.copies[handler].meta;
      var w' := w.(copies := w.copies - {handler});
      if meta.meetingID in w.rooms then w'.(rooms := w.rooms[meta.meetingID := Some(meta)]) else w'
    case Drop(handler) => w.(copies := w.copies - {handler})
  }

  datatype Run = Run(worlds: seq<World>, events: seq<Event>)

  ghost predicate IsRun(run: Run) {
    && |run.worlds| == |run.events| + 1
    && run.worlds[0] == World(map[], map[], map[])
    && forall i :: 0 <= i < |run.events| ==>
         Enabled(run.worlds[i], run.events[i]) && run.worlds[i + 1] == Next(run.worlds[i], run.events[i])
  }

  // ---- the invariant ----

  /** A metadata value that belongs to the room: no user twice, the creator among them, no co-host twice. */
  predicate Sound(w: World, room: string, meta: Metadata) {
    && room in w.creators
    && meta.meetingID == room
    && meta.creatorUserID == w.creators[room]
    && Distinct(UserIDs(meta.personalData))
    && meta.creatorUserID in UserIDs(meta.personalData)
    && Distinct(meta.coHostUserIDs)
  }

  predicate AllSound(w: World) {
    && (forall room :: room in w.rooms && w.rooms[room].Some? ==> Sound(w, room, w.rooms[room].value))
    && (forall h :: h in w.copies ==> Sound(w, w.copies[h].room, w.copies[h].meta))
  }

  lemma PutKeepsDistinct(data: seq<PersonalData>, one: PersonalData)
    requires Distinct(UserIDs(data))
    ensures Distinct(UserIDs(Put(data, one)))
    ensures forall u :: u in UserIDs(data) ==> u in UserIDs(Put(data, one))
  {
    var n := Find(data, one.userID);
    if n < |data| {
      assert UserIDs(Put(data, one)) == UserIDs(data);
    } else {
      assert UserIDs(Put(data, one)) == UserIDs(data) + [one.userID];
      assert forall i :: 0 <= i < |data| ==> UserIDs(data)[i] == data[i].userID;
    }
  }

  lemma EditKeepsSound(w: World, room: string, meta: Metadata, e: Edit)
    requires Sound(w, room, meta)
    ensures Sound(w, room, Edited(meta, e))
  {
    hide Dedup, Put, Find, UserIDs;
    match e {
      case JoinEdit(u) => PutKeepsDistinct(meta.personalData, DataOf(meta.personalData, u));
      case HostEdit(_, coHosts) =>
        if coHosts.Some? {
          DedupMeans(meta.coHostUserIDs + coHosts.value);
        }
      case SelfEdit(u, camera, microphone) =>
        var one := DataOf(meta.personalData, u);
        PutKeepsDistinct(meta.personalData, one.(personal := Overwritten(one.personal, camera, microphone)));
      case LimitEdit(u, camera, microphone) =>
        var one := DataOf(meta.personalData, u);
        PutKeepsDistinct(meta.personalData, one.(limit := Overwritten(one.limit, camera, microphone)));
    }
  }

  /** Metadata made from a record is sound for a room exactly when the record is the meeting's. */
  lemma FreshIsSoundIff(w: World, room: string, info: MeetingInfo)
    ensures Sound(w, room, FreshMetadata(info)) <==> info.meetingID == room && IsRecord(w, info)
  {
    assert UserIDs(FreshMetadata(info).personalData) == [info.creatorUserID];
  }

  lemma RebuildIsSoundIff(w: World, copy: Copy, info: MeetingInfo)
    requires AllSound(w) && Sound(w, copy.room, copy.meta)
    ensures Sound(w, copy.room, WithDetail(copy.meta, info, MetadataOf(w, copy.room)))
            <==> info.meetingID == copy.room && IsRecord(w, info)
  {
  }

  /** The new metadata value of an event, if it makes one, is sound. */
  lemma StepMakesSound(w: World, e: Event)
    requires AllSound(w) && Enabled(w, e)
    ensures e.RoomOpened? ==> Sound(w, e.info.meetingID, FreshMetadata(e.info))
    ensures (e.ReadOrGenerate? || e.Generate? || e.Change? || e.Rebuild?) ==>
              var copy := Next(w, e).copies[e.handler];
              Sound(w, copy.room, copy.meta)
  {
    hide Distinct, UserIDs, Edited, FreshMetadata, WithDetail;
    match e {
      case RoomOpened(info) => FreshIsSoundIff(w, info.meetingID, info);
      case ReadOrGenerate(_, info) => FreshIsSoundIff(w, info.meetingID, info);
      case Generate(_, info) => FreshIsSoundIff(w, info.meetingID, info);
      case Change(handler, edit) => EditKeepsSound(w, w.copies[handler].room, w.copies[handler].meta, edit);
      case Rebuild(handler, info) => RebuildIsSoundIff(w, w.copies[handler], info);
      case _ =>
    }
  }

  lemma StepKeepsSound(w: World, e: Event)
    requires AllSound(w) && Enabled(w, e)
    ensures AllSound(Next(w, e))
  {
    StepMakesSound(w, e);
    StepKeepsCreators(w, e);
    hide Distinct, UserIDs, Edited, FreshMetadata, WithDetail;
  }

  lemma StepKeepsCreators(w: World, e: Event)
    requires Enabled(w, e)
    ensures forall room :: room in w.creators ==>
              room in Next(w, e).creators && Next(w, e).creators[room] == w.creators[room]
  {
  }

  /**
   Whatever the interleaving, every metadata value that a room holds or a handler is working on has no user twice,
   includes the creator, has no co-host twice, names the room it was read for, and names the original creator.
   */
  lemma {:induction false} EveryValueIsSound(run: Run, i: nat)
    requires IsRun(run) && i < |run.worlds|
    ensures AllSound(run.worlds[i])
  {
    if i > 0 {
      EveryValueIsSound(run, i - 1);
      StepKeepsSound(run.worlds[i - 1], run.events[i - 1]);
    }
  }

  lemma {:induction false} CreatorsAreKept(run: Run, i: nat, j: nat, room: string)
    requires IsRun(run) && i <= j < |run.worlds| && room in run.worlds[i].creators
    ensures room in run.worlds[j].creators && run.worlds[j].creators[room] == run.worlds[i].creators[room]
    decreases j
  {
    if i < j {
      CreatorsAreKept(run, i, j - 1, room);
      StepKeepsCreators(run.worlds[j - 1], run.events[j - 1]);
      hide AllSound;
    }
  }

  /** So the user who created a meeting passes the permission check in its room at every moment of every run. */
  lemma CreatorIsAlwaysAllowed(run: Run, i: nat, j: nat, room: string)
    requires IsRun(run) && i <= j < |run.worlds| && room in run.worlds[i].creators
    requires MetadataOf(run.worlds[j], room).Some?
    ensures var meta := MetadataOf(run.worlds[j], room).value;
            CheckAuthPermission(meta.creatorUserID, meta.hostUserID, run.worlds[i].creators[room])
  {
    EveryValueIsSound(run, j);
    CreatorsAreKept(run, i, j, room);
  }

  /** A write reaches the room that the copy was read from, and no other. */
  lemma WriteReachesItsRoom(run: Run, i: nat, handler: nat, room: string)
    requires IsRun(run) && i < |run.events| && run.events[i] == Write(handler)
    ensures var w, w' := run.worlds[i], run.worlds[i + 1];
            var copy := w.copies[handler];
            MetadataOf(w', room) ==
              if room == copy.room && room in w.rooms then Some(copy.meta) else MetadataOf(w, room)
  {
    EveryValueIsSound(run, i);
    assert handler in run.worlds[i].copies;
    assert Sound(run.worlds[i], run.worlds[i].copies[handler].room, run.worlds[i].copies[handler].meta);
  }

  /** A room that has been closed and opened again starts from its record alone. */
  lemma ReopenedIsFresh(w: World, info: MeetingInfo)
    requires IsRecord(w, info)
    ensures var closed := Next(w, RoomClosed(info.meetingID));
            && MetadataOf(closed, info.meetingID) == None
            && Enabled(closed, RoomOpened(info))
            && MetadataOf(Next(closed, RoomOpened(info)), info.meetingID) == Some(FreshMetadata(info))
            && forall room :: room != info.meetingID ==>
                 MetadataOf(Next(closed, RoomOpened(info)), room) == MetadataOf(w, room)
  {
    hide FreshMetadata;
  }

  /** Whoever joins a room that was opened without metadata finds a fresh value. */
  lemma BareRoomIsJoinedFresh(w: World, handler: nat, info: MeetingInfo)
    requires IsRecord(w, info) && info.meetingID !in w.rooms && handler !in w.copies
    ensures var bare := Next(w, RoomOpenedBare(info.meetingID));
            && Enabled(bare, ReadOrGenerate(handler, info))
            && Next(bare, ReadOrGenerate(handler, info)).copies[handler] == Copy(info.meetingID, FreshMetadata(info))
  {
    assert FreshMetadata(info).(meetingID := info.meetingID) == FreshMetadata(info);
    hide FreshMetadata;
  }

  /** A copy that has been dropped cannot be written any more. */
  lemma DroppedIsGone(w: World, handler: nat)
    requires handler in w.copies
    ensures !Enabled(Next(w, Drop(handler)), Write(handler)) && Next(w, Drop(handler)).rooms == w.rooms
  {
  }

  // ---- what interleaving costs ----

  predicate IsBy(e: Event, handler: nat) {
    match e
    case Read(h, _) => h == handler
    case ReadOrGenerate(h, _) => h == handler
    case Generate(h, _) => h == handler
    case Change(h, _) => h == handler
    case Rebuild(h, _) => h == handler
    case Write(h) => h == handler
    case Drop(h) => h == handler
    case _ => false
  }

  lemma {:induction false} CopyIsPrivate(run: Run, i: nat, j: nat, handler: nat)
    requires IsRun(run) && i <= j < |run.worlds| && handler in run.worlds[i].copies
    requires forall k :: i <= k < j ==> !IsBy(run.events[k], handler)
    ensures handler in run.worlds[j].copies
    ensures run.worlds[j].copies[handler] == run.worlds[i].copies[handler]
    decreases j
  {
    if i < j {
      CopyIsPrivate(run, i, j - 1, handler);
      hide AllSound, Edited, WithDetail, FreshMetadata;
      assert !IsBy(run.events[j - 1], handler);
    }
  }

  /** What a handler that starts like this finds in the room: the metadata there, or a fresh value if it has none. */
  predicate CanStart(w: World, start: Event) {
    match start
    case Read(_, room) => MetadataOf(w, room).Some?
    case ReadOrGenerate(_, info) => info.meetingID in w.rooms
    case _ => false
  }

  function RoomOf(start: Event): (room: string)
    requires start.Read? || start.ReadOrGenerate?
  {
    if start.Read? then start.room else start.info.meetingID
  }

  function Seen(w: World, start: Event): (meta: Metadata)
    requires CanStart(w, start)
  {
    match start
    case Read(_, room) => MetadataOf(w, room).value
    case ReadOrGenerate(_, info) =>
      var room := MetadataOf(w, info.meetingID);
      (if room.Some? then room.value else FreshMetadata(info)).(meetingID := info.meetingID)
  }

  /** The handler's one action, on the value it has seen and the room as it finds it then. */
  function Acted(meta: Metadata, a: Action, room: Option<Metadata>): (meta': Metadata) {
    match a
    case Do(edit) => Edited(meta, edit)
    case Rebuild(info) => WithDetail(meta, info, room)
  }

  predicate IsAction(e: Event, handler: nat, room: string, a: Action) {
    match a
    case Do(edit) => e == Change(handler, edit)
    case Rebuild(info) => e == Event.Rebuild(handler, info) && info.meetingID == room
  }

  /** Every handler of a live room in one shape: it reads at i, acts once at j and writes at k, with the room open. */
  ghost predicate Handles(run: Run, i: nat, j: nat, k: nat, handler: nat, a: Action) {
    && IsRun(run) && i < j < k < |run.events|
    && (run.events[i].Read? || run.events[i].ReadOrGenerate?) && run.events[i].handler == handler
    && IsAction(run.events[j], handler, RoomOf(run.events[i]), a)
    && run.events[k] == Write(handler)
    && (forall l :: i < l < k && l != j ==> !IsBy(run.events[l], handler))
    && RoomOf(run.events[i]) in run.worlds[k].rooms
  }

  /** What the handler would leave in the room if it ran at once, in this world. */
  function Atomically(w: World, start: Event, a: Action): (meta: Metadata)
    requires CanStart(w, start)
  {
    Acted(Seen(w, start), a, MetadataOf(w, RoomOf(start)))
  }

  /**
   A handler leaves in the room its action on what it saw at i. Everything that other handlers wrote to that room
   between i and k is gone, except that a rebuilt detail part is from j.
   */
  lemma LateWriteWins(run: Run, i: nat, j: nat, k: nat, handler: nat, a: Action)
    requires Handles(run, i, j, k, handler, a)
    ensures var start, room := run.events[i], RoomOf(run.events[i]);
            && CanStart(run.worlds[i], start)
            && MetadataOf(run.worlds[k + 1], room)
               == Some(Acted(Seen(run.worlds[i], start), a, MetadataOf(run.worlds[j], room)))
  {
    hide AllSound, Edited, FreshMetadata, WithDetail;
    assert Enabled(run.worlds[i], run.events[i]);
    CopyIsPrivate(run, i + 1, j, handler);
    assert Enabled(run.worlds[j], run.events[j]);
    CopyIsPrivate(run, j + 1, k, handler);
    WriteReachesItsRoom(run, k, handler, RoomOf(run.events[i]));
  }

  /** Nobody writes to the room, or closes it, from i up to k. */
  ghost predicate LeftAlone(run: Run, i: nat, k: nat, room: string)
    requires IsRun(run) && k < |run.worlds|
  {
    forall l :: i <= l < k ==>
      && run.events[l] != RoomClosed(room)
      && (run.events[l].Write? ==> run.worlds[l].copies[run.events[l].handler].room != room)
  }

  lemma {:induction false} RoomIsKept(run: Run, i: nat, k: nat, room: string)
    requires IsRun(run) && i <= k < |run.worlds| && room in run.worlds[i].rooms && LeftAlone(run, i, k, room)
    ensures room in run.worlds[k].rooms && run.worlds[k].rooms[room] == run.worlds[i].rooms[room]
    decreases k
  {
    if i < k {
      RoomIsKept(run, i, k - 1, room);
      hide AllSound, Edited, FreshMetadata, WithDetail;
      var w, e := run.worlds[k - 1], run.events[k - 1];
      if e.Write? {
        assert e == Write(e.handler);
        WriteReachesItsRoom(run, k - 1, e.handler, room);
        EveryValueIsSound(run, k - 1);
        assert w.copies[e.handler].meta.meetingID == w.copies[e.handler].room by {
          assert AllSound(w);
        }
      }
    }
  }

  /** If nobody else wrote to the room or closed it, the handler might as well have run at once when it wrote. */
  lemma NothingLostIfLeftAlone(run: Run, i: nat, j: nat, k: nat, handler: nat, a: Action)
    requires Handles(run, i, j, k, handler, a) && LeftAlone(run, i, k, RoomOf(run.events[i]))
    ensures var start := run.events[i];
            && CanStart(run.worlds[k], start)
            && MetadataOf(run.worlds[k + 1], RoomOf(start)) == Some(Atomically(run.worlds[k], start, a))
  {
    LateWriteWins(run, i, j, k, handler, a);
    assert Enabled(run.worlds[i], run.events[i]);
    RoomIsKept(run, i, j, RoomOf(run.events[i]));
    RoomIsKept(run, i, k, RoomOf(run.events[i]));
    hide IsRun, LeftAlone, Acted;
  }

  // ---- exactly when something is lost ----

  /** The data with an entry for the user: a default one at the end if there was none. */
  function WithEntry(data: seq<PersonalData>, userID: string): (all: seq<PersonalData>)
    ensures Find(all, userID) < |all| && all[Find(all, userID)] == DataOf(data, userID)
  {
    if Find(data, userID) < |data| then data
    else
      var all := data + [DefaultPersonalData(userID)];
      FindFirst(all, userID, |data|);
      all
  }

  /** The two agree but for the user's own entry. */
  predicate OthersEqual(p: seq<PersonalData>, q: seq<PersonalData>, userID: string) {
    && |p| == |q| && Find(p, userID) == Find(q, userID)
    && forall n :: 0 <= n < |p| && n != Find(p, userID) ==> p[n] == q[n]
  }

  /** Two entries agree on the devices that the edit does not set. */
  predicate UnsetEqual(p: Entry, q: Entry, camera: Option<bool>, microphone: Option<bool>) {
    (camera.None? ==> p.camera == q.camera) && (microphone.None? ==> p.microphone == q.microphone)
  }

  /** All that happened from the first to the second is that this user has joined. */
  predicate HasJoined(before: seq<PersonalData>, after: seq<PersonalData>, userID: string) {
    Find(before, userID) == |before| && after == before + [DefaultPersonalData(userID)]
  }

  /** The two values differ at most in what the edit is about to set. */
  predicate EqualBut(x: Metadata, y: Metadata, e: Edit) {
    match e
    case JoinEdit(u) =>
      && x.(personalData := []) == y.(personalData := [])
      && (|| x.personalData == y.personalData
          || HasJoined(x.personalData, y.personalData, u) || HasJoined(y.personalData, x.personalData, u))
    case HostEdit(host, coHosts) =>
      && x.(hostUserID := "", coHostUserIDs := []) == y.(hostUserID := "", coHostUserIDs := [])
      && (host.None? ==> x.hostUserID == y.hostUserID)
      && (match coHosts
          case None => x.coHostUserIDs == y.coHostUserIDs
          case Some(more) =>
            // Each list has grown, if at all, by what the edit would have put there.
            && x.coHostUserIDs <= Dedup(y.coHostUserIDs + more)
            && y.coHostUserIDs <= Dedup(x.coHostUserIDs + more))
    case SelfEdit(u, camera, microphone) =>
      && x.(personalData := []) == y.(personalData := [])
      && OthersEqual(WithEntry(x.personalData, u), WithEntry(y.personalData, u), u)
      && Of(x, u).limit == Of(y, u).limit
      && UnsetEqual(Of(x, u).personal, Of(y, u).personal, camera, microphone)
    case LimitEdit(u, camera, microphone) =>
      && x.(personalData := []) == y.(personalData := [])
      && OthersEqual(WithEntry(x.personalData, u), WithEntry(y.personalData, u), u)
      && Of(x, u).personal == Of(y, u).personal
      && UnsetEqual(Of(x, u).limit, Of(y, u).limit, camera, microphone)
  }

  lemma PutIntoWithEntry(data: seq<PersonalData>, one: PersonalData)
    ensures var all := WithEntry(data, one.userID);
            Put(data, one) == all[Find(all, one.userID) := one]
  {
    if Find(data, one.userID) == |data| {
      FindFirst(data + [DefaultPersonalData(one.userID)], one.userID, |data|);
    }
  }

  lemma PutsEqualIff(p: seq<PersonalData>, q: seq<PersonalData>, x: PersonalData, y: PersonalData)
    requires x.userID == y.userID
    ensures Put(p, x) == Put(q, y) <==> x == y && OthersEqual(WithEntry(p, x.userID), WithEntry(q, x.userID), x.userID)
  {
    var u := x.userID;
    var p', q' := WithEntry(p, u), WithEntry(q, u);
    PutIntoWithEntry(p, x);
    PutIntoWithEntry(q, y);
    FindFirst(Put(p, x), u, Find(p', u));
    FindFirst(Put(q, y), u, Find(q', u));
    hide Put, WithEntry, Find;
    if Put(p, x) == Put(q, y) {
      assert forall n :: 0 <= n < |p'| && n != Find(p', u) ==> p'[n] == Put(p, x)[n] && q'[n] == Put(q, y)[n];
    }
  }

  lemma JoinAddsEntry(data: seq<PersonalData>, userID: string)
    ensures Put(data, DataOf(data, userID)) == WithEntry(data, userID)
  {
    PutIntoWithEntry(data, DataOf(data, userID));
  }

  /** A step of the next lemma: what the merge of x does with one more element, the merge of y does as well. */
  lemma MergedOneMore(y: seq<string>, d: seq<string>, v: string, all: seq<string>)
    requires y <= all && d <= all && (v in d || d + [v] <= all)
    ensures var e, d' := if |d| <= |y| then y else d, if v in d then d else d + [v];
            (if v in e then e else e + [v]) == if |d'| <= |y| then y else d'
  {
    assert y == all[..|y|] && d == all[..|d|];
    if |d| < |y| {
      assert d == y[..|d|];
      assert v !in d ==> y[|d|] == (d + [v])[|d|];
    }
  }

  lemma WithEntriesEqualIff(p: seq<PersonalData>, q: seq<PersonalData>, userID: string)
    ensures WithEntry(p, userID) == WithEntry(q, userID)
            <==> p == q || HasJoined(p, q, userID) || HasJoined(q, p, userID)
  {
    hide Find, DataOf;
    if HasJoined(p, q, userID) {
      assert WithEntry(p, userID) == q == WithEntry(q, userID);
    }
    if HasJoined(q, p, userID) {
      assert WithEntry(q, userID) == p == WithEntry(p, userID);
    }
  }

  /** If y is a stage of merging into x, merging into y gives what merging into x has reached, or y if that is more. */
  lemma {:induction false} MergedFromBetween(x: seq<string>, y: seq<string>, more: seq<string>, all: seq<string>)
    requires Distinct(x) && Distinct(y) && x <= y <= all && Dedup(x + more) <= all
    ensures var d := Dedup(x + more);
            Dedup(y + more) == if |d| <= |y| then y else d
    decreases |more|
  {
    if |more| == 0 {
      assert x + more == x && y + more == y;
      DedupOfDistinct(x);
      DedupOfDistinct(y);
    } else {
      var last := |more| - 1;
      assert (x + more)[..|x + more| - 1] == x + more[..last];
      assert (y + more)[..|y + more| - 1] == y + more[..last];
      var d := Dedup(x + more[..last]);
      assert Dedup(x + more) == if more[last] in d then d else d + [more[last]];
      var e := Dedup(y + more[..last]);
      assert Dedup(y + more) == if more[last] in e then e else e + [more[last]];
      hide Dedup, Distinct;
      assert d <= all;
      MergedFromBetween(x, y, more[..last], all);
      MergedOneMore(y, d, more[last], all);
    }
  }

  /** A merge makes two lists of co-hosts the same exactly when each is a prefix of what it makes of the other. */
  lemma {:induction false} MergesEqualIff(x: seq<string>, y: seq<string>, more: seq<string>)
    requires Distinct(x) && Distinct(y)
    ensures Dedup(x + more) == Dedup(y + more) <==> x <= Dedup(y + more) && y <= Dedup(x + more)
  {
    DedupOfDistinct(x);
    DedupOfDistinct(y);
    DedupTwice(x, more);
    DedupTwice(y, more);
    if x <= Dedup(y + more) && y <= Dedup(x + more) {
      if |x| <= |y| {
        MergedFromBetween(x, y, more, Dedup(x + more));
      } else {
        MergedFromBetween(y, x, more, Dedup(y + more));
      }
    }
  }

  lemma EditsEqualIff(x: Metadata, y: Metadata, e: Edit)
    requires Distinct(x.coHostUserIDs) && Distinct(y.coHostUserIDs)
    ensures Edited(x, e) == Edited(y, e) <==> EqualBut(x, y, e)
  {
    hide Put, WithEntry, HasJoined, Dedup, Distinct;
    match e {
      case JoinEdit(u) =>
        JoinAddsEntry(x.personalData, u);
        JoinAddsEntry(y.personalData, u);
        WithEntriesEqualIff(x.personalData, y.personalData, u);
      case HostEdit(_, coHosts) =>
        if coHosts.Some? {
          MergesEqualIff(x.coHostUserIDs, y.coHostUserIDs, coHosts.value);
        }
      case SelfEdit(u, camera, microphone) =>
        var a, b := Of(x, u), Of(y, u);
        PutsEqualIff(x.personalData, y.personalData,
                     a.(personal := Overwritten(a.personal, camera, microphone)),
                     b.(personal := Overwritten(b.personal, camera, microphone)));
      case LimitEdit(u, camera, microphone) =>
        var a, b := Of(x, u), Of(y, u);
        PutsEqualIff(x.personalData, y.personalData,
                     a.(limit := Overwritten(a.limit, camera, microphone)),
                     b.(limit := Overwritten(b.limit, camera, microphone)));
    }
  }

  /** The host and the co-hosts as a rebuild finds them. */
  function HostsOf(room: Option<Metadata>, creatorUserID: string): (hosts: (string, seq<string>)) {
    if room.Some? then (room.value.hostUserID, room.value.coHostUserIDs) else (creatorUserID, [])
  }

  /**
   The exact condition. What stands in the room after k is what the handler would have made of the room at k exactly
   when the value it saw at i differs from the one it overwrites at most in what its edit sets; a rebuild of the detail
   part needs the personal data unchanged since i, and the hosts since j.
   */
  lemma NothingLostIff(run: Run, i: nat, j: nat, k: nat, handler: nat, a: Action)
    requires Handles(run, i, j, k, handler, a) && CanStart(run.worlds[k], run.events[i])
    ensures CanStart(run.worlds[i], run.events[i])
    ensures var start, room := run.events[i], RoomOf(run.events[i]);
            var seen, overwritten := Seen(run.worlds[i], start), Seen(run.worlds[k], start);
            MetadataOf(run.worlds[k + 1], room) == Some(Atomically(run.worlds[k], start, a)) <==>
              match a
              case Do(edit) => EqualBut(seen, overwritten, edit)
              case Rebuild(info) =>
                && seen.personalData == overwritten.personalData
                && HostsOf(MetadataOf(run.worlds[j], room), info.creatorUserID)
                   == HostsOf(MetadataOf(run.worlds[k], room), info.creatorUserID)
  {
    LateWriteWins(run, i, j, k, handler, a);
    if a.Do? {
      SeenIsDistinct(run, i, run.events[i]);
      SeenIsDistinct(run, k, run.events[i]);
      EditsEqualIff(Seen(run.worlds[i], run.events[i]), Seen(run.worlds[k], run.events[i]), a.edit);
    }
    hide Handles, IsRun, EqualBut, Edited, Distinct;
  }

  lemma SeenIsDistinct(run: Run, i: nat, start: Event)
    requires IsRun(run) && i < |run.worlds| && CanStart(run.worlds[i], start)
    ensures Distinct(Seen(run.worlds[i], start).coHostUserIDs)
  {
    EveryValueIsSound(run, i);
  }

  // ---- a run in which an update is lost ----

  /** A world with one meeting, whose room is open. */
  function Scene(info: MeetingInfo, value: Metadata, copies: map<nat, Copy>): (w: World) {
    World(map[info.meetingID := Some(value)], copies, map[info.meetingID := info.creatorUserID])
  }

  predicate Leads(w: World, e: Event, w': World) {
    Enabled(w, e) && w' == Next(w, e)
  }

  lemma SceneOpens(info: MeetingInfo)
    ensures var created := World(map[], map[], map[info.meetingID := info.creatorUserID]);
            && Leads(World(map[], map[], map[]), MeetingCreated(info.meetingID, info.creatorUserID), created)
            && Leads(created, RoomOpened(info), Scene(info, FreshMetadata(info), map[]))
  {
  }

  lemma SceneRead(info: MeetingInfo, value: Metadata, copies: map<nat, Copy>, h: nat)
    requires h !in copies && value.meetingID == info.meetingID
    ensures var after := Scene(info, value, copies[h := Copy(info.meetingID, value)]);
            && Leads(Scene(info, value, copies), Read(h, info.meetingID), after)
            && Leads(Scene(info, value, copies), ReadOrGenerate(h, info), after)
  {
    assert value.(meetingID := info.meetingID) == value;
  }

  lemma SceneEdit(info: MeetingInfo, value: Metadata, copies: map<nat, Copy>, h: nat, edit: Edit)
    requires h in copies && copies[h].room == copies[h].meta.meetingID == info.meetingID
    ensures var copy := Copy(info.meetingID, Edited(copies[h].meta, edit));
            && Leads(Scene(info, value, copies), Change(h, edit), Scene(info, value, copies[h := copy]))
            && Leads(Scene(info, value, copies[h := copy]), Write(h), Scene(info, copy.meta, copies[h := copy] - {h}))
  {
    assert Edited(copies[h].meta, edit).meetingID == info.meetingID;
    hide Edited;
  }

  /** Two handlers read the room that has just been opened; the second writes its edit before the first does. */
  function OverlappingRun(info: MeetingInfo, late: Edit, early: Edit): (run: Run) {
    Run(seq(9, k requires 0 <= k < 9 => OverlappingWorld(info, late, early, k)),
        seq(8, k requires 0 <= k < 8 => OverlappingEvent(info, late, early, k)))
  }

  function OverlappingEvent(info: MeetingInfo, late: Edit, early: Edit, k: nat): (e: Event)
    requires k < 8
  {
    match k
    case 0 => MeetingCreated(info.meetingID, info.creatorUserID)
    case 1 => RoomOpened(info)
    case 2 => ReadOrGenerate(1, info)
    case 3 => Read(2, info.meetingID)
    case 4 => Change(2, early)
    case 5 => Write(2)
    case 6 => Change(1, late)
    case _ => Write(1)
  }

  function OverlappingWorld(info: MeetingInfo, late: Edit, early: Edit, k: nat): (w: World)
    requires k < 9
  {
    var start := FreshMetadata(info);
    var one := map[1 := Copy(info.meetingID, start)];
    var two := one[2 := Copy(info.meetingID, start)];
    var edited := two[2 := Copy(info.meetingID, Edited(start, early))];
    var left := edited - {2};
    var joined := left[1 := Copy(info.meetingID, Edited(start, late))];
    match k
    case 0 => World(map[], map[], map[])
    case 1 => World(map[], map[], map[info.meetingID := info.creatorUserID])
    case 2 => Scene(info, start, map[])
    case 3 => Scene(info, start, one)
    case 4 => Scene(info, start, two)
    case 5 => Scene(info, start, edited)
    case 6 => Scene(info, Edited(start, early), left)
    case 7 => Scene(info, Edited(start, early), joined)
    case _ => Scene(info, Edited(start, late), joined - {1})
  }

  lemma OverlappingStep(info: MeetingInfo, late: Edit, early: Edit, k: nat)
    requires k < 8
    ensures Leads(OverlappingWorld(info, late, early, k), OverlappingEvent(info, late, early, k),
                  OverlappingWorld(info, late, early, k + 1))
  {
    var room, start := info.meetingID, FreshMetadata(info);
    assert start.meetingID == room;
    hide Edited, FreshMetadata, Leads, Scene;
    var one := map[1 := Copy(room, start)];
    var two := one[2 := Copy(room, start)];
    if k < 2 {
      SceneOpens(info);
    } else if k == 2 {
      SceneRead(info, start, map[], 1);
      assert map[][1 := Copy(room, start)] == one;
    } else if k == 3 {
      SceneRead(info, start, one, 2);
    } else if k < 6 {
      SceneEdit(info, start, two, 2, early);
    } else {
      SceneEdit(info, Edited(start, early), two[2 := Copy(room, Edited(start, early))] - {2}, 1, late);
    }
  }

  lemma OverlappingRunIsRun(info: MeetingInfo, late: Edit, early: Edit)
    ensures IsRun(OverlappingRun(info, late, early))
  {
    var run := OverlappingRun(info, late, early);
    assert run.worlds[0] == World(map[], map[], map[]);
    hide OverlappingWorld, OverlappingEvent, Enabled, Next;
    forall i | 0 <= i < |run.events|
      ensures Enabled(run.worlds[i], run.events[i]) && run.worlds[i + 1] == Next(run.worlds[i], run.events[i])
    {
      OverlappingStep(info, late, early, i);
    }
  }

  lemma OthersOverlap(info: MeetingInfo, late: Edit, early: Edit, k: nat)
    requires 2 < k < 6
    ensures !IsBy(OverlappingEvent(info, late, early, k), 1)
  {
  }

  lemma OverlappingRoomIsOpen(info: MeetingInfo, late: Edit, early: Edit)
    ensures info.meetingID in OverlappingWorld(info, late, early, 7).rooms
  {
    hide Edited, FreshMetadata;
  }

  /** In it the first handler fits the shape that the results above are about. */
  lemma FirstOverlapperHandles(info: MeetingInfo, late: Edit, early: Edit)
    ensures Handles(OverlappingRun(info, late, early), 2, 6, 7, 1, Do(late))
  {
    OverlappingRunIsRun(info, late, early);
    OverlappingRoomIsOpen(info, late, early);
    hide OverlappingWorld, IsRun, IsBy;
    var run := OverlappingRun(info, late, early);
    forall l | 2 < l < 7 && l != 6 ensures !IsBy(run.events[l], 1) {
      OthersOverlap(info, late, early, l);
    }
  }

  /**
   In every meeting: if the host forbids a user the camera between the read and the write of that user's join, the
   limit is stored, and gone once the join has been written.
   */
  lemma UpdateCanBeLost(info: MeetingInfo, userID: string)
    ensures var run := OverlappingRun(info, JoinEdit(userID), LimitEdit(userID, Some(false), None));
            && IsRun(run) && |run.worlds| == 9
            && run.worlds[6].rooms.Keys == run.worlds[8].rooms.Keys == {info.meetingID}
            && run.worlds[6].rooms[info.meetingID].Some? && run.worlds[8].rooms[info.meetingID].Some?
            && !Of(run.worlds[6].rooms[info.meetingID].value, userID).limit.camera
            && Of(run.worlds[8].rooms[info.meetingID].value, userID).limit.camera
  {
    var start := FreshMetadata(info);
    OverlappingRunIsRun(info, JoinEdit(userID), LimitEdit(userID, Some(false), None));
    EditedEntry(start, LimitEdit(userID, Some(false), None), userID);
    EditedEntry(start, JoinEdit(userID), userID);
    assert Of(start, userID).limit.camera;
    hide Edited, FreshMetadata, Of, IsRun;
  }
}
