/**
 Single sessions: one token a user, kept in Redis for twelve hours. Login stores a token, logout deletes it, and
 clearing overwrites it with a marker. CheckToken guards the API and ParseToken answers other services.

 Times are seconds. A token is opaque; what its signature vouches for is the user, the second it was issued in, and
 the second it expires.
 */
module Sessions {
  import opened Options

  const KEY_LIFETIME := 43200
  const NOT_BEFORE_SLACK := 60
  const SECONDS_IN_A_DAY := 86400

  /** A token string: one signed with the server's secret, or any other string. */
  datatype Token =
    | Signed(userID: string, issuedAt: int, expiresAt: int, notBefore: int)
    | Plain(text: string)

  const KICK_OFF := Plain("KickOffMeetingMsg")
  const EMPTY := Plain("")

  datatype Error =
    | ArgsError | TokenMalformed | TokenExpired | TokenNotValidYet | TokenUnknown | TokenNotFound | KickedOff

  datatype Result<+T> = Ok(value: T) | Err(error: Error)

  /** CreateToken, with a lifetime in days. */
  function Issue(userID: string, now: int, days: nat): (token: Token) {
    Signed(userID, now, now + days * SECONDS_IN_A_DAY, now - NOT_BEFORE_SLACK)
  }

  /** getToken: which of several failures is reported depends on their order. */
  function GetToken(token: Token, now: int): (r: Result<string>) {
    match token
    case Plain(_) => Err(TokenMalformed)
    case Signed(userID, issuedAt, expiresAt, notBefore) =>
      if now >= expiresAt then Err(TokenExpired)
      else if now < notBefore then Err(TokenNotValidYet)
      else if now < issuedAt then Err(TokenUnknown)
      else Ok(userID)
  }

  /**
   A token answers for its user from the second it is issued in until its lifetime is over, and not after. Of two
   clocks that disagree, one up to a minute behind gets another error than one that is further behind.
   */
  lemma TokenWindow(userID: string, issued: int, days: nat, now: int)
    ensures GetToken(Issue(userID, issued, days), now) == Ok(userID) <==> issued <= now < issued + days * 24 * 3600
    ensures GetToken(Issue(userID, issued, days), now) == Err(TokenExpired) <==> now >= issued + days * 24 * 3600
    ensures days > 0 ==>
              (GetToken(Issue(userID, issued, days), now) == Err(TokenUnknown) <==> issued - 60 <= now < issued)
    ensures days > 0 ==>
              (GetToken(Issue(userID, issued, days), now) == Err(TokenNotValidYet) <==> now < issued - 60)
  {
  }

  /** The value of a Redis key, and the second from which it is gone. */
  datatype Stored = Stored(token: Token, until: int)

  type Store = map<string, Stored>

  function Lookup(store: Store, userID: string, now: int): (found: Option<Token>) {
    if userID in store && now < store[userID].until then Some(store[userID].token) else None
  }

  // ---- the steps of the user service ----

  datatype Event =
    | StoreToken(userID: string, token: Token)  // the second half of UserLogin
    | ClearToken(userID: string)                // ClearUserToken: overwrite with the marker
    | Logout(userID: string)                    // UserLogout: delete the key

  function After(store: Store, e: Event, now: int): (store': Store) {
    match e
    case StoreToken(userID, token) => store[userID := Stored(token, now + KEY_LIFETIME)]
    case ClearToken(userID) => store[userID := Stored(KICK_OFF, now + KEY_LIFETIME)]
    case Logout(userID) => store - {userID}
  }

  class UserServer {
    var tokens: Store
    const days: nat

    constructor (days: nat)
      ensures tokens == map[] && this.days == days
    {
      tokens, this.days := map[], days;
    }

    /** The password has been checked; the token was made at `issued`, and reaches Redis at `now`. */
    method UserLogin(userID: string, issued: int, now: int) returns (token: Token)
      requires issued <= now
      modifies this
      ensures token == Issue(userID, issued, days)
      ensures tokens == After(old(tokens), StoreToken(userID, token), now)
    {
      token := Issue(userID, issued, days);
      tokens := tokens[userID := Stored(token, now + KEY_LIFETIME)];
    }

    method ClearUserToken(userID: string, now: int)
      modifies this
      ensures tokens == After(old(tokens), ClearToken(userID), now)
    {
      tokens := tokens[userID := Stored(KICK_OFF, now + KEY_LIFETIME)];
    }

    method UserLogout(userID: string, now: int)
      modifies this
      ensures tokens == After(old(tokens), Logout(userID), now)
    {
      tokens := tokens - {userID};
    }

    method GetUserToken(userID: string, now: int) returns (r: Result<Token>)
      ensures r == match Lookup(tokens, userID, now)
                   case Some(t) => Ok(t)
                   case None => Err(TokenNotFound)
    {
      if userID in tokens && now < tokens[userID].until {
        return Ok(tokens[userID].token);
      }
      return Err(TokenNotFound);
    }

    method ParseToken(token: Token, now: int) returns (r: Result<string>)
      ensures r == Parsed(tokens, token, now)
    {
      var parsed := GetToken(token, now);
      if parsed.Err? {
        return parsed;
      }
      var stored := GetUserToken(parsed.value, now);
      if stored.Err? {
        return Err(stored.error);
      }
      if stored.value == KICK_OFF {
        return Err(KickedOff);
      }
      if token != stored.value {
        return Err(KickedOff);
      }
      return parsed;
    }

    /** The user identifier that CheckToken puts into the request's context, or the error it aborts with. */
    method CheckToken(header: Token, now: int) returns (r: Result<string>)
      ensures r == Checked(tokens, header, now)
    {
      if header == EMPTY {
        return Err(ArgsError);
      }
      var parsed := GetToken(header, now);
      if parsed.Err? {
        return parsed;
      }
      var valid := IsValidToken(parsed.value, header, now);
      if valid.Err? {
        return Err(valid.error);
      }
      return parsed;
    }

    method IsValidToken(userID: string, token: Token, now: int) returns (r: Result<()>)
      ensures r == Validated(tokens, userID, token, now)
    {
      var stored := GetUserToken(userID, now);
      if stored.Err? {
        return Err(stored.error);
      }
      if stored.value == KICK_OFF {
        return Err(KickedOff);
      }
      if stored.value != EMPTY && stored.value != token {
        return Err(KickedOff);
      }
      if stored.value == EMPTY || stored.value != token {
        return Err(TokenExpired);
      }
      return Ok(());
    }
  }

  function Parsed(tokens: Store, token: Token, now: int): (r: Result<string>) {
    var parsed := GetToken(token, now);
    if parsed.Err? then parsed
    else match Lookup(tokens, parsed.value, now)
         case None => Err(TokenNotFound)
         case Some(stored) => if stored == token && stored != KICK_OFF then parsed else Err(KickedOff)
  }

  function Validated(tokens: Store, userID: string, token: Token, now: int): (r: Result<()>) {
    match Lookup(tokens, userID, now)
    case None => Err(TokenNotFound)
    case Some(stored) =>
      if stored == KICK_OFF then Err(KickedOff)
      else if stored == EMPTY then Err(TokenExpired)
      else if stored != token then Err(KickedOff)
      else Ok(())
  }

  function Checked(tokens: Store, header: Token, now: int): (r: Result<string>) {
    if header == EMPTY then Err(ArgsError)
    else
      var parsed := GetToken(header, now);
      if parsed.Err? then parsed
      else
        var valid := Validated(tokens, parsed.value, header, now);
        if valid.Err? then Err(valid.error) else parsed
  }

  /** The two acceptors accept the same tokens, for the same users, in every state. */
  lemma AcceptorsAgree(tokens: Store, token: Token, now: int)
    ensures Checked(tokens, token, now).Ok? <==> Parsed(tokens, token, now).Ok?
    ensures Checked(tokens, token, now).Ok? ==> Checked(tokens, token, now) == Parsed(tokens, token, now)
  {
  }

  // ---- histories ----

  datatype Timed = Timed(event: Event, at: int)

  ghost predicate IsHistory(history: seq<Timed>, days: nat) {
    && (forall i, j :: 0 <= i < j < |history| ==> history[i].at <= history[j].at)
    && forall i :: 0 <= i < |history| ==> IsLogin(history[i], days)
  }

  /** A stored token is one that the server issued to that user, at or before the time it was stored. */
  ghost predicate IsLogin(t: Timed, days: nat) {
    t.event.StoreToken? ==> exists issued :: issued <= t.at && t.event.token == Issue(t.event.userID, issued, days)
  }

  function AfterAll(history: seq<Timed>): (r: Store) {
    if |history| == 0 then map[]
    else
      var last := history[|history| - 1];
      After(AfterAll(history[..|history| - 1]), last.event, last.at)
  }

  /** The user's last event; a negative answer says that there is none. */
  function LastOf(history: seq<Timed>, userID: string): (i: int)
    ensures -1 <= i < |history|
    ensures i >= 0 ==> history[i].event.userID == userID
    ensures forall j :: i < j < |history| ==> history[j].event.userID != userID
  {
    if |history| == 0 then -1
    else if history[|history| - 1].event.userID == userID then |history| - 1
    else LastOf(history[..|history| - 1], userID)
  }

  lemma {:induction false} StoreIsLast(history: seq<Timed>, userID: string)
    ensures var i := LastOf(history, userID);
            if i < 0 || history[i].event.Logout? then userID !in AfterAll(history)
            else
              && userID in AfterAll(history)
              && AfterAll(history)[userID]
                 == Stored(if history[i].event.StoreToken? then history[i].event.token else KICK_OFF,
                           history[i].at + KEY_LIFETIME)
  {
    if |history| > 0 {
      var before := history[..|history| - 1];
      StoreIsLast(before, userID);
      assert LastOf(before, userID) >= 0 ==> before[LastOf(before, userID)] == history[LastOf(before, userID)];
    }
  }

  /** This token is the one that the user's last event stored, less than twelve hours ago. */
  ghost predicate IsCurrent(history: seq<Timed>, userID: string, token: Token, now: int) {
    var i := LastOf(history, userID);
    i >= 0 && history[i].event == StoreToken(userID, token) && now < history[i].at + 12 * 3600
  }

  /**
   In every reachable state, and for every string that a client may send: it is accepted, and as this user's, exactly
   when the user's last event is a login that stored it, less than twelve hours ago, and it has not itself expired.
   */
  lemma {:induction false} AcceptedIff(history: seq<Timed>, days: nat, userID: string, token: Token, now: int)
    requires IsHistory(history, days)
    requires |history| > 0 ==> history[|history| - 1].at <= now
    ensures Checked(AfterAll(history), token, now) == Ok(userID)
            <==> IsCurrent(history, userID, token, now) && token.Signed? && now < token.expiresAt
  {
    StoreIsLast(history, userID);
    var i := LastOf(history, userID);
    if i >= 0 {
      assert IsLogin(history[i], days);
      assert history[i].at <= now;
    }
  }

  /** The user has no key: no event yet, a logout as the last one, or twelve hours since. */
  predicate IsGone(history: seq<Timed>, userID: string, now: int) {
    var i := LastOf(history, userID);
    i < 0 || history[i].event.Logout? || now >= history[i].at + 12 * 3600
  }

  /**
   What a client is told, by either acceptor. A token that is not valid in itself is refused for that, and only the
   empty one is told apart; a valid one is unknown once the key is gone, and kicked off by clearing or a later login.
   */
  lemma {:induction false} WhyRefused(history: seq<Timed>, days: nat, token: Token, now: int)
    requires IsHistory(history, days)
    ensures var tokens, claimed := AfterAll(history), GetToken(token, now);
            match claimed
            case Err(e) => Parsed(tokens, token, now) == claimed
                           && Checked(tokens, token, now) == if token == Plain("") then Err(ArgsError) else claimed
            case Ok(userID) =>
              && Checked(tokens, token, now) == Parsed(tokens, token, now)
              && Parsed(tokens, token, now) ==
                   if IsGone(history, userID, now) then Err(TokenNotFound)
                   else if history[LastOf(history, userID)].event == StoreToken(userID, token) then Ok(userID)
                   else Err(KickedOff)
  {
    var claimed := GetToken(token, now);
    if claimed.Ok? {
      StoreIsLast(history, claimed.value);
      var i := LastOf(history, claimed.value);
      if i >= 0 {
        assert IsLogin(history[i], days);
      }
    }
  }

  /** Two different tokens of one user are never both accepted. */
  lemma {:induction false} OneSession(history: seq<Timed>, days: nat, userID: string, a: Token, b: Token, now: int)
    requires IsHistory(history, days)
    requires |history| > 0 ==> history[|history| - 1].at <= now
    requires Checked(AfterAll(history), a, now) == Ok(userID) && Checked(AfterAll(history), b, now) == Ok(userID)
    ensures a == b
  {
    AcceptedIff(history, days, userID, a, now);
    AcceptedIff(history, days, userID, b, now);
  }

  /**
   A login ends every earlier session of the user, unless it is so quick that it issues the same token: the claims
   count whole seconds.
   */
  lemma {:induction false} LoginEndsSessions(
    history: seq<Timed>, days: nat, userID: string, old_: Token, issued: int, at: int, now: int)
    requires IsHistory(history + [Timed(StoreToken(userID, Issue(userID, issued, days)), at)], days) && at <= now
    requires old_ != Issue(userID, issued, days)
    ensures Checked(AfterAll(history + [Timed(StoreToken(userID, Issue(userID, issued, days)), at)]), old_, now)
            != Ok(userID)
  {
    var all := history + [Timed(StoreToken(userID, Issue(userID, issued, days)), at)];
    AcceptedIff(all, days, userID, old_, now);
  }
}
