/**
 The meeting and user caches over their collections: reads fill the cache, writes go to the collection and then
 remove cache entries. Meetings, users by identifier and users by account all live under one key prefix.
 */
module CacheAside {
  import opened Options
  import opened Meetings
  import opened Identifiers

  const MAX_RETRY_TIMES := 5

  datatype User = User(userID: string, account: string, nickname: string, password: string, saltValue: string)

  /** A cached JSON document remembers nothing of its type, but it was written as one of these. */
  datatype Entry = MeetingEntry(meeting: MeetingInfo) | UserEntry(user: User)

  /**
   What reading a meeting answers. Foreign is the document of a user, decoded without complaint: of all its fields
   only the password is one that a meeting has too.
   */
  datatype Read = Found(meeting: MeetingInfo) | Foreign(password: string) | NotFound

  type Entries = map<string, Entry>

  function KeysOf(ids: seq<string>): (keys: seq<string>)
    ensures |keys| == |ids| && forall i :: 0 <= i < |ids| ==> keys[i] == InfoKey(ids[i])
  {
    if |ids| == 0 then [] else [InfoKey(ids[0])] + KeysOf(ids[1..])
  }

  // ---- the two collections and the cache in front of them ----

  datatype State = State(meetings: map<string, MeetingInfo>, users: map<string, User>, entries: Entries)

  /** getCache for a meeting: answer from the cache, or from the collection and fill the cache. */
  function Taken(s: State, id: string): (answer: (Read, State)) {
    var key := InfoKey(id);
    if key in s.entries then
      match s.entries[key] {
        case MeetingEntry(m) => (Found(m), s)
        case UserEntry(u) => (Foreign(u.password), s)
      }
    else if id in s.meetings then
      (Found(s.meetings[id]), s.(entries := s.entries[key := MeetingEntry(s.meetings[id])]))
    else (NotFound, s)
  }

  /** A user document decodes as itself; a meeting document as a user with nothing but a password. */
  function UserOf(e: Entry): (user: User) {
    match e
    case UserEntry(u) => u
    case MeetingEntry(m) => User("", "", "", m.password, "")
  }

  /** getCache for a user, by identifier or by account; `stored` is what the collection answers. */
  function LookedUp(s: State, name: string, stored: Option<User>): (answer: (Option<User>, State)) {
    var key := InfoKey(name);
    if key in s.entries then (Some(UserOf(s.entries[key])), s)
    else if stored.Some? then (stored, s.(entries := s.entries[key := UserEntry(stored.value)]))
    else (None, s)
  }

  /** What FindOne by account may answer: some user who has the account, or nothing if nobody has it. */
  predicate AnswersAccount(users: map<string, User>, account: string, stored: Option<User>) {
    match stored
    case None => forall u :: u in users ==> users[u].account != account
    case Some(user) => user.account == account && exists u :: u in users && users[u] == user
  }

  function ByID(s: State, id: string): (stored: Option<User>) {
    if id in s.users then Some(s.users[id]) else None
  }

  /** batchGetCache2 over user identifiers: records that are not found are skipped. */
  function Batch(s: State, ids: seq<string>): (answers: (seq<User>, State)) {
    if |ids| == 0 then ([], s)
    else
      var (res, s1) := Batch(s, ids[..|ids| - 1]);
      var id := ids[|ids| - 1];
      var (one, s2) := LookedUp(s1, id, ByID(s1, id));
      (if one.Some? then res + [one.value] else res, s2)
  }

  function IDsOf(infos: seq<MeetingInfo>): (ids: seq<string>) {
    seq(|infos|, i requires 0 <= i < |infos| => infos[i].meetingID)
  }

  function UserIDsOf(users: seq<User>): (ids: seq<string>) {
    seq(|users|, i requires 0 <= i < |users| => users[i].userID)
  }

  /** InsertMany: every document under its identifier. */
  function WithAll<T>(stored: map<string, T>, ids: seq<string>, docs: seq<T>): (all: map<string, T>)
    requires |ids| == |docs|
  {
    if |ids| == 0 then stored
    else
      var last := |ids| - 1;
      WithAll(stored, ids[..last], docs[..last])[ids[last] := docs[last]]
  }

  /** The unique index accepts these identifiers: each of them is new, and none comes twice. */
  predicate Insertable<T>(stored: map<string, T>, ids: seq<string>) {
    && (forall i :: 0 <= i < |ids| ==> ids[i] !in stored)
    && forall i, j :: 0 <= i < j < |ids| ==> ids[i] != ids[j]
  }

  // ---- removing entries ----

  /** `works(i, t)` says whether the t-th attempt to remove the i-th key succeeds. */
  type Attempts = (nat, nat) -> bool

  predicate Succeeds(works: Attempts, i: nat) {
    exists t :: 0 <= t < MAX_RETRY_TIMES && works(i, t)
  }

  /** The entries that survive removing these keys, each with five attempts. */
  function Removed(entries: Entries, keys: seq<string>, works: Attempts): (left: Entries) {
    map k | k in entries && !(exists i :: 0 <= i < |keys| && keys[i] == k && Succeeds(works, i)) :: entries[k]
  }

  function Created(s: State, infos: seq<MeetingInfo>, works: Attempts): (after: State) {
    var ids := IDsOf(infos);
    if !Insertable(s.meetings, ids) then s
    else s.(meetings := WithAll(s.meetings, ids, infos), entries := Removed(s.entries, KeysOf(ids), works))
  }

  /** The collection takes an update of an unknown meeting for done, and the cache entry is removed all the same. */
  function UpdatedState(s: State, id: string, u: Update, works: Attempts): (after: State) {
    s.(meetings := if id in s.meetings then s.meetings[id := ApplySet(s.meetings[id], u)] else s.meetings,
       entries := Removed(s.entries, KeysOf([id]), works))
  }

  function Deleted(s: State, id: string, works: Attempts): (after: State) {
    s.(meetings := s.meetings - {id}, entries := Removed(s.entries, KeysOf([id]), works))
  }

  function Registered(s: State, users: seq<User>, works: Attempts): (after: State) {
    var ids := UserIDsOf(users);
    if !Insertable(s.users, ids) then s
    else s.(users := WithAll(s.users, ids, users), entries := Removed(s.entries, KeysOf(ids), works))
  }

  class Redis {
    var entries: Entries

    constructor ()
      ensures entries == map[]
    {
      entries := map[];
    }
  }

  /** The keys that one write wants removed. */
  class MetaCache {
    const redis: Redis
    var keys: seq<string>

    constructor (redis: Redis, keys: seq<string>)
      ensures this.redis == redis && this.keys == keys
    {
      this.redis, this.keys := redis, keys;
    }

    method Copy() returns (copy: MetaCache)
      ensures fresh(copy) && copy.redis == redis && copy.keys == keys
    {
      copy := new MetaCache(redis, keys);
    }

    method AddKeys(more: seq<string>)
      modifies this`keys
      ensures keys == old(keys) + more
    {
      keys := keys + more;
    }

    /** Never reports a failure: a key whose five attempts all fail is left in the cache. */
    method ExecDel(works: Attempts)
      modifies redis`entries
      ensures redis.entries == Removed(old(redis.entries), keys, works)
    {
      for i := 0 to |keys|
        invariant redis.entries == Removed(old(redis.entries), keys[..i], works)
      {
        ghost var before := redis.entries;
        var t := 0;
        var gone := false;
        while t < MAX_RETRY_TIMES && !gone
          invariant t <= MAX_RETRY_TIMES
          invariant gone <==> exists s :: 0 <= s < t && works(i, s)
          invariant redis.entries == if gone then before - {keys[i]} else before
        {
          if works(i, t) {
            redis.entries := redis.entries - {keys[i]};
            gone := true;
          }
          t := t + 1;
        }
        RemovedOneMore(old(redis.entries), keys, i, works);
        assert gone <==> Succeeds(works, i);
      }
      assert keys[..|keys|] == keys;
    }
  }

  lemma {:induction false} RemovedOneMore(entries: Entries, keys: seq<string>, i: nat, works: Attempts)
    requires i < |keys|
    ensures Removed(entries, keys[..i + 1], works)
         == if Succeeds(works, i) then Removed(entries, keys[..i], works) - {keys[i]}
            else Removed(entries, keys[..i], works)
  {
    var before, after := keys[..i], keys[..i + 1];
    assert forall j :: 0 <= j < i ==> after[j] == before[j];
    assert after[i] == keys[i];
    forall k | k in entries
      ensures (exists j :: 0 <= j < |after| && after[j] == k && Succeeds(works, j))
              <==> ((exists j :: 0 <= j < |before| && before[j] == k && Succeeds(works, j))
                    || (keys[i] == k && Succeeds(works, i)))
    {
      if j :| 0 <= j < |before| && before[j] == k && Succeeds(works, j) {
        assert after[j] == k;
      }
      if j :| 0 <= j < |after| && after[j] == k && Succeeds(works, j) {
        if j < i {
          assert before[j] == k;
        }
      }
      if keys[i] == k && Succeeds(works, i) {
        assert after[i] == k;
      }
    }
  }

  /** The unique index refuses an identifier that is there already, or twice in the list. */
  method CanInsert<T>(stored: map<string, T>, ids: seq<string>) returns (ok: bool)
    ensures ok == Insertable(stored, ids)
  {
    for i := 0 to |ids|
      invariant Insertable(stored, ids[..i])
    {
      for j := 0 to i
        invariant forall l :: 0 <= l < j ==> ids[l] != ids[i]
      {
        if ids[j] == ids[i] {
          return false;
        }
      }
      if ids[i] in stored {
        return false;
      }
    }
    assert ids[..|ids|] == ids;
    return true;
  }

  method InsertAll<T>(stored: map<string, T>, ids: seq<string>, docs: seq<T>) returns (all: map<string, T>)
    requires |ids| == |docs|
    ensures all == WithAll(stored, ids, docs)
  {
    all := stored;
    for i := 0 to |ids|
      invariant all == WithAll(stored, ids[..i], docs[..i])
    {
      assert ids[..i + 1][..i] == ids[..i] && docs[..i + 1][..i] == docs[..i];
      all := all[ids[i] := docs[i]];
    }
    assert ids[..|ids|] == ids && docs[..|docs|] == docs;
  }

  class Storage {
    const redis: Redis
    const base: MetaCache
    var meetings: map<string, MeetingInfo>
    var users: map<string, User>

    ghost predicate Valid()
      reads this, base
    {
      base.redis == redis && base.keys == []
    }

    ghost function St(): (state: State)
      reads this, redis
    {
      State(meetings, users, redis.entries)
    }

    constructor ()
      ensures Valid() && St() == State(map[], map[], map[]) && fresh(redis) && fresh(base)
    {
      var store := new Redis();
      redis := store;
      base := new MetaCache(store, []);
      meetings, users := map[], map[];
    }

    /** A fresh object with the keys to remove; the shared one keeps none of them. */
    method DelMeeting(ids: seq<string>) returns (cache: MetaCache)
      requires Valid()
      ensures Valid() && fresh(cache) && cache.redis == redis && cache.keys == KeysOf(ids)
    {
      var keys: seq<string> := [];
      for i := 0 to |ids|
        invariant |keys| == i && forall j :: 0 <= j < i ==> keys[j] == InfoKey(ids[j])
      {
        keys := keys + [InfoKey(ids[i])];
      }
      assert keys == KeysOf(ids);
      cache := base.Copy();
      cache.AddKeys(keys);
    }

    method TakeWithError(id: string) returns (r: Read)
      requires Valid()
      modifies redis`entries
      ensures Valid() && r == Taken(old(St()), id).0 && St() == Taken(old(St()), id).1
    {
      var key := InfoKey(id);
      if key in redis.entries {
        match redis.entries[key] {
          case MeetingEntry(m) => return Found(m);
          case UserEntry(u) => return Foreign(u.password);
        }
      }
      if id in meetings {
        redis.entries := redis.entries[key := MeetingEntry(meetings[id])];
        return Found(meetings[id]);
      }
      return NotFound;
    }

    method Create(infos: seq<MeetingInfo>, works: Attempts) returns (ok: bool)
      requires Valid()
      modifies this, redis`entries
      ensures Valid() && ok == Insertable(old(meetings), IDsOf(infos)) && St() == Created(old(St()), infos, works)
    {
      var ids := IDsOf(infos);
      ok := CanInsert(meetings, ids);
      if !ok {
        return;
      }
      meetings := InsertAll(meetings, ids, infos);
      var cache := DelMeeting(ids);
      cache.ExecDel(works);
    }

    method Update(id: string, u: Update, works: Attempts)
      requires Valid()
      modifies this, redis`entries
      ensures Valid() && St() == UpdatedState(old(St()), id, u, works)
    {
      ghost var before := meetings;
      if u != EMPTY_UPDATE && id in meetings {
        meetings := meetings[id := ApplySet(meetings[id], u)];
      }
      assert meetings == if id in before then before[id := ApplySet(before[id], u)] else before by {
        if id in before {
          ApplyNothing(before[id]);
        }
        hide ApplySet;
      }
      var cache := DelMeeting([id]);
      cache.ExecDel(works);
    }

    method Delete(id: string, works: Attempts)
      requires Valid()
      modifies this, redis`entries
      ensures Valid() && St() == Deleted(old(St()), id, works)
    {
      meetings := meetings - {id};
      var cache := DelMeeting([id]);
      cache.ExecDel(works);
    }

    /** Create of the user storage: the index is on the identifier, and there is none on the account. */
    method CreateUsers(infos: seq<User>, works: Attempts) returns (ok: bool)
      requires Valid()
      modifies this, redis`entries
      ensures Valid() && ok == Insertable(old(users), UserIDsOf(infos)) && St() == Registered(old(St()), infos, works)
    {
      var ids := UserIDsOf(infos);
      ok := CanInsert(users, ids);
      if !ok {
        return;
      }
      users := InsertAll(users, ids, infos);
      var cache := DelMeeting(ids);
      cache.ExecDel(works);
    }

    /** GetByAccount: the collection answers with some user who has the account, if there is one. */
    method GetByAccount(account: string) returns (r: Option<User>)
      requires Valid()
      modifies redis`entries
      ensures Valid()
      ensures exists stored :: AnswersAccount(old(users), account, stored)
                && r == LookedUp(old(St()), account, stored).0 && St() == LookedUp(old(St()), account, stored).1
    {
      var stored: Option<User> := None;
      var candidates := set u | u in users && users[u].account == account;
      assert forall u :: u in users && users[u].account == account ==> u in candidates;
      if candidates != {} {
        var u :| u in candidates;
        stored := Some(users[u]);
      }
      var key := InfoKey(account);
      if key in redis.entries {
        r := Some(UserOf(redis.entries[key]));
      } else {
        if stored.Some? {
          redis.entries := redis.entries[key := UserEntry(stored.value)];
        }
        r := stored;
      }
      assert AnswersAccount(old(users), account, stored);
      assert St() == LookedUp(old(St()), account, stored).1;
    }

    method GetUsersInfo(ids: seq<string>) returns (res: seq<User>)
      requires Valid()
      modifies redis`entries
      ensures Valid() && res == Batch(old(St()), ids).0 && St() == Batch(old(St()), ids).1
    {
      res := [];
      for i := 0 to |ids|
        invariant Valid() && res == Batch(old(St()), ids[..i]).0 && St() == Batch(old(St()), ids[..i]).1
      {
        assert ids[..i + 1][..i] == ids[..i];
        var key, id := InfoKey(ids[i]), ids[i];
        if key in redis.entries {
          res := res + [UserOf(redis.entries[key])];
        } else if id in users {
          redis.entries := redis.entries[key := UserEntry(users[id])];
          res := res + [users[id]];
        }
      }
      assert ids[..|ids|] == ids;
    }

    method FindWithError(ids: seq<string>) returns (ok: bool, found: seq<User>)
      requires Valid()
      modifies redis`entries
      ensures Valid() && found == Batch(old(St()), ids).0 && St() == Batch(old(St()), ids).1
      ensures ok <==> |found| == |ids|
    {
      found := GetUsersInfo(ids);
      ok := |found| == |ids|;
    }
  }
}
