/** The services themselves, over mutable tables and a Redis connection: each method goes through the statements of its
    source in order and is proved to take the whole state where the operation level says. */
module AuthServices {
  import opened Wrappers
  import opened SessionData
  import opened SessionRevocation
  import opened Redis
  import opened SessionOps
  import opened LoginHistory
  import opened SessionDevices
  import opened SessionCalls

  /** `refresh_tokens`, `user_devices` and `user_login_history`. */
  class SessionTables {
    var tokens: seq<Token>
    var devices: map<DeviceKey, Device>
    var history: seq<SignIn>

    constructor ()
      ensures Snapshot() == Tables([], map[], [])
    {
      tokens, devices, history := [], map[], [];
    }

    function Snapshot(): Tables
      reads this
    {
      Tables(tokens, devices, history)
    }

    /** `revokeUserSessions` with `closeEndedSessions`: three UPDATEs, each seeing what the one before it left. */
    method RevokeUserSessions(owner: Principal, scope: Scope, now: int)
      modifies this
      ensures Snapshot() == SessionRevocation.RevokeUserSessions(old(Snapshot()), owner, scope, now)
      ensures NothingHalfEnded(Snapshot(), owner, now)
    {
      RevocationContract(Snapshot(), owner, scope, now);
      if scope.only != Some([]) {
        tokens := RevokeTokens(tokens, owner, scope, now);
      }
      devices := CloseDevices(devices, tokens, owner, now);
      history := CloseHistory(history, tokens, owner, now);
    }

    /** `UPDATE ... SET revoked_at = now WHERE id = ? AND revoked_at IS NULL`. */
    method FlipIfUnrevoked(row: nat, now: int) returns (affected: bool)
      requires row < |tokens|
      modifies this
      ensures affected == old(tokens[row].Unrevoked())
      ensures Snapshot() == if affected then FlipRow(old(Snapshot()), row, now) else old(Snapshot())
    {
      affected := tokens[row].revokedAt.None?;
      if affected {
        tokens := tokens[row := tokens[row].(revokedAt := Some(now))];
      }
    }
  }

  /** `src/auth/session-liveness.service.ts`. */
  class SessionLivenessService {
    const tables: SessionTables
    const redis: RedisService

    constructor (tables: SessionTables, redis: RedisService)
      ensures this.tables == tables && this.redis == redis
    {
      this.tables, this.redis := tables, redis;
    }

    function Snapshot(): State
      reads tables, redis
    {
      State(tables.Snapshot(), redis.store)
    }

    method IsLive(owner: Principal, sid: Family, now: int, getReached: bool, setReached: bool) returns (live: bool)
      modifies redis
      ensures live <==> SessionOps.IsLive(old(Snapshot()), owner, sid, now, getReached)
      ensures Snapshot() == AfterIsLive(old(Snapshot()), owner, sid, now, getReached, setReached)
      ensures tables.Snapshot() == old(tables.Snapshot())
      ensures FamilyLive(tables.tokens, owner, sid, now) ==> live
    {
      var key := SessionLive(owner, sid);
      var cached := redis.Get(key, now, getReached);
      if cached.Some? {
        return true;
      }
      if !FamilyLive(tables.tokens, owner, sid, now) {
        return false;
      }
      redis.Set(key, LIVE_MARKER, LIVENESS_TTL, now, setReached);
      live := true;
    }

    method Forget(owner: Principal, families: set<Family>, lost: set<Family>)
      modifies redis
      ensures redis.store == SessionOps.Forget(old(redis.store), owner, families, lost)
    {
      var left := families;
      while left != {}
        invariant left <= families
        invariant redis.store == SessionOps.Forget(old(redis.store), owner, families - left, lost)
        decreases left
      {
        var family :| family in left;
        redis.Del(SessionLive(owner, family), family !in lost);
        left := left - {family};
      }
      assert families - left == families;
    }
  }

  /** The `sid` claim of an access token: absent, not a non-empty string, or a session id. */
  datatype SidClaim = NoSid | NotASid | Sid(family: Family)

  class AuthService {
    const tables: SessionTables
    const redis: RedisService
    const sessions: SessionLivenessService

    constructor (tables: SessionTables, redis: RedisService)
      ensures this.tables == tables && this.redis == redis && Wired()
    {
      this.tables, this.redis := tables, redis;
      sessions := new SessionLivenessService(tables, redis);
    }

    predicate Wired() { sessions.tables == tables && sessions.redis == redis }

    function Snapshot(): State
      reads tables, redis
    {
      State(tables.Snapshot(), redis.store)
    }

    /** `assertSessionIsLive` of `JwtStrategy.validate`. */
    method SessionAccepted(owner: Principal, claim: SidClaim, now: int, getReached: bool, setReached: bool)
      returns (accepted: bool)
      requires Wired()
      modifies redis
      ensures tables.Snapshot() == old(tables.Snapshot())
      ensures accepted
         <==> claim.NoSid? || (claim.Sid? && SessionOps.IsLive(old(Snapshot()), owner, claim.family, now, getReached))
    {
      match claim
      case NoSid => accepted := true;
      case NotASid => accepted := false;
      case Sid(family) => accepted := sessions.IsLive(owner, family, now, getReached, setReached);
    }

    /** The one way a session is ended; returns the sessions that were live. */
    method EndSessions(owner: Principal, scope: Scope, now: int, lost: set<Family>) returns (families: set<Family>)
      requires Wired()
      modifies tables, redis
      ensures Snapshot() == SessionOps.EndSessions(old(Snapshot()), owner, scope, now, lost)
      ensures families == LiveFamilies(old(tables.tokens), owner, scope, now)
      ensures NothingHalfEnded(tables.Snapshot(), owner, now)
    {
      families := LiveFamilies(tables.tokens, owner, scope, now);
      tables.RevokeUserSessions(owner, scope, now);
      sessions.Forget(owner, families, lost);
    }

    method UpsertDevice(token: Token, now: int, isSignIn: bool)
      requires token.device.Some?
      modifies tables
      ensures tables.Snapshot()
           == old(tables.Snapshot()).(devices := SessionOps.UpsertDevice(old(tables.devices), token, now, isSignIn))
    {
      var key := DeviceKey(token.owner, token.device.value);
      if key in tables.devices {
        var existing := tables.devices[key];
        if !isSignIn && !existing.isActive {
          return;
        }
        var lastLoginAt := if isSignIn then now else existing.lastLoginAt;
        tables.devices := tables.devices[key := Device(true, token.hash, lastLoginAt, now, token.expiresAt,
                                                       token.rememberMe)];
      } else {
        tables.devices := tables.devices[key := Device(true, token.hash, now, now, token.expiresAt, token.rememberMe)];
      }
    }

    method IssueTokenPair(token: Token, now: int, isSignIn: bool)
      modifies tables
      ensures tables.Snapshot() == IssueToken(old(tables.Snapshot()), token, now, isSignIn)
    {
      tables.tokens := tables.tokens + [token];
      if token.device.Some? {
        UpsertDevice(token, now, isSignIn);
      }
    }

    method InsertLoginHistory(owner: Principal, device: Option<DeviceId>, now: int)
      modifies tables
      ensures tables.Snapshot()
           == old(tables.Snapshot()).(history := RecordSignIn(old(tables.history), owner, device, now))
    {
      if device.Some? {
        var rows := tables.history;
        for i := 0 to |rows|
          invariant |rows| == |tables.history|
          invariant forall k | 0 <= k < |rows| ::
              rows[k] == if k < i && tables.history[k].owner == owner && tables.history[k].device == device
                            && tables.history[k].logoutAt.None?
              then tables.history[k].(logoutAt := Some(now)) else tables.history[k]
        {
          if rows[i].owner == owner && rows[i].device == device && rows[i].logoutAt.None? {
            rows := rows[i := rows[i].(logoutAt := Some(now))];
          }
        }
        tables.history := rows;
      }
      tables.history := tables.history + [SignIn(owner, device, now, None)];
    }

    /** `login`, once the credentials and the account are accepted. */
    method Login(e: Event)
      requires e.op.Login? && DrawsFresh(tables.Snapshot(), e.op)
      modifies tables
      ensures Snapshot() == Apply(old(Snapshot()), e)
      ensures tables.tokens
           == old(tables.tokens) + [Token(e.op.hash, e.op.owner, e.op.family, e.op.device,
                                          e.now + e.lifetimes.For(e.op.rememberMe), None, e.op.rememberMe)]
    {
      InsertLoginHistory(e.op.owner, e.op.device, e.now);
      IssueTokenPair(LoginToken(e), e.now, true);
    }

    /** `refresh` from its conditional UPDATE on, over tables that may have changed since the row was read, though a
        row is only ever revoked. Whoever finds the row revoked has lost the race and ends the family. */
    method Rotate(row: nat, stored: Token, device: Option<DeviceId>, e: Event) returns (outcome: RefreshOutcome)
      requires Wired() && e.op.Refresh? && row < |tables.tokens|
      requires tables.tokens[row].(revokedAt := stored.revokedAt) == stored
      modifies tables, redis
      ensures !old(tables.tokens[row].Unrevoked())
              ==> outcome == AlreadyUsed
                  && Snapshot()
                     == SessionOps.EndSessions(old(Snapshot()), stored.owner, Only([stored.family]), e.now, e.lost)
      ensures old(tables.tokens[row].Unrevoked()) && !e.op.identityOk
              ==> outcome == IdentityRefused
                  && Snapshot() == State(FlipRow(old(tables.Snapshot()), row, e.now), old(redis.store))
      ensures old(tables.tokens[row].Unrevoked()) && e.op.identityOk
              ==> var token := RotationProtocol.Successor(
                                 stored, device, e.op.hash, e.now + e.lifetimes.For(stored.rememberMe));
                  && outcome == Rotated(token)
                  && Snapshot() == State(IssueToken(FlipRow(old(tables.Snapshot()), row, e.now), token, e.now, false),
                                         old(redis.store))
    {
      var affected := tables.FlipIfUnrevoked(row, e.now);
      if !affected {
        var _ := EndSessions(stored.owner, Only([stored.family]), e.now, e.lost);
        return AlreadyUsed;
      }
      if !e.op.identityOk {
        return IdentityRefused;
      }
      var expiresAt := e.now + e.lifetimes.For(stored.rememberMe);
      var token := Token(e.op.hash, stored.owner, stored.family, device, expiresAt, None, stored.rememberMe);
      IssueTokenPair(token, e.now, false);
      outcome := Rotated(token);
    }

    /** `refresh` with nothing else running between its read and its conditional UPDATE. Token hashes being unique, a
        token that was used up, ran out or is on a signed-out device has its session ended; any other that is
        refreshable is spent and, where the account stands, succeeded. */
    method Refresh(e: Event) returns (outcome: RefreshOutcome)
      requires Wired() && e.op.Refresh? && DrawsFresh(tables.Snapshot(), e.op)
      modifies tables, redis
      ensures Snapshot() == Apply(old(Snapshot()), e)
      ensures HashesUnique(old(tables.tokens))
              ==> forall row: nat | Presents(old(Snapshot()), e, row) && EndsOnRefresh(old(Snapshot()), e, row) ::
                  EndsExactly(old(Snapshot()), Snapshot(), old(tables.tokens)[row].owner,
                              {old(tables.tokens)[row].family}, e.now, e.lost)
      ensures HashesUnique(old(tables.tokens))
              ==> forall row: nat | Presents(old(Snapshot()), e, row) ::
                  outcome.Rotated? <==> Refreshable(old(Snapshot()), e, row) && e.op.identityOk
      ensures outcome
           == RefreshVerdict(old(tables.Snapshot()), e.op.presented, e.op.claimed, e.op.identityOk, e.op.hash, e.now,
                             e.lifetimes)
    {
      hide EndsExactly, EndsOnRefresh, Refreshable, HashesUnique, IssueToken, CloseDevices, CloseHistory, RevokeTokens;
      RefreshContract(Snapshot(), e);
      var row := FindRow(tables.tokens, e.op.presented);
      if row.None? {
        return InvalidToken;
      }
      var stored := tables.tokens[row.value];
      if stored.revokedAt.Some? {
        var _ := EndSessions(stored.owner, Only([stored.family]), e.now, e.lost);
        return AlreadyUsed;
      }
      if stored.expiresAt < e.now {
        var _ := EndSessions(stored.owner, Only([stored.family]), e.now, e.lost);
        return ExpiredToken;
      }
      if e.op.claimed.Some? && stored.device.Some? && stored.device != e.op.claimed {
        return DeviceMismatch;
      }
      var device := if stored.device.Some? then stored.device else e.op.claimed;
      if DeviceSignedOut(tables.devices, stored.owner, device) {
        var _ := EndSessions(stored.owner, Only([stored.family]), e.now, e.lost);
        return SignedOutDevice;
      }
      outcome := Rotate(row.value, stored, device, e);
    }

    /** `logout`: an unknown token is a no-op, and with any token of a session that session ends. */
    method Logout(e: Event)
      requires Wired() && e.op.Logout?
      modifies tables, redis
      ensures Snapshot() == Apply(old(Snapshot()), e)
      ensures (forall t | t in old(tables.tokens) :: t.hash != e.op.presented) ==> Snapshot() == old(Snapshot())
      ensures HashesUnique(old(tables.tokens))
              ==> forall row | 0 <= row < |old(tables.tokens)| && old(tables.tokens)[row].hash == e.op.presented ::
                  EndsExactly(old(Snapshot()), Snapshot(), old(tables.tokens)[row].owner,
                              {old(tables.tokens)[row].family}, e.now, e.lost)
    {
      LogoutContract(Snapshot(), e);
      var row := FindRow(tables.tokens, e.op.presented);
      if row.None? {
        return;
      }
      var stored := tables.tokens[row.value];
      var _ := EndSessions(stored.owner, Only([stored.family]), e.now, e.lost);
    }

    /** `logoutDevice`; false when the principal has no such device. */
    method LogoutDevice(e: Event) returns (found: bool)
      requires Wired() && e.op.LogoutDevice?
      modifies tables, redis
      ensures Snapshot() == Apply(old(Snapshot()), e)
      ensures found <==> DeviceKey(e.op.owner, e.op.on) in old(tables.devices)
      ensures if found
              then EndsExactly(old(Snapshot()), Snapshot(), e.op.owner,
                               SeenOn(old(tables.tokens), e.op.owner, e.op.on), e.now, e.lost)
              else Snapshot() == old(Snapshot())
    {
      LogoutDeviceEndsWhatItSaw(Snapshot(), e);
      if DeviceKey(e.op.owner, e.op.on) !in tables.devices {
        return false;
      }
      var families := FamiliesOnDevice(tables.tokens, e.op.owner, e.op.on);
      var _ := EndSessions(e.op.owner, Only(families), e.now, e.lost);
      found := true;
    }

    /** `logoutAll`, and `logoutOtherSessions` with the request's own `sid` as the exception. */
    method LogoutAll(e: Event)
      requires Wired() && e.op.LogoutAll?
      modifies tables, redis
      ensures Snapshot() == Apply(old(Snapshot()), e)
      ensures EndsExactly(old(Snapshot()), Snapshot(), e.op.owner,
                          Others(old(tables.tokens), e.op.owner, e.op.except), e.now, e.lost)
    {
      LogoutAllEndsTheRest(Snapshot(), e);
      var _ := EndSessions(e.op.owner, Except(e.op.except), e.now, e.lost);
    }

    /** `getLoginHistory` over the principal's newest rows. */
    method GetLoginHistory(owner: Principal, limit: nat, now: int) returns (rows: seq<SignIn>, statuses: seq<Status>)
      ensures rows == NewestFirst(tables.history, owner, limit)
      ensures |statuses| == |rows|
      ensures forall i | 0 <= i < |rows| ::
                StatusRight(rows, LiveDevices(tables.tokens, owner, now),
                            DevicelessSessions(LiveSessions(tables.tokens, owner, now)), i, statuses[i])
      ensures ActiveCount(statuses) <= |LiveSessions(tables.tokens, owner, now)|
    {
      rows := NewestFirst(tables.history, owner, limit);
      var live := LiveSessions(tables.tokens, owner, now);
      LiveSessionsAre(tables.tokens, owner, now);
      assert DevicesOf(live) == LiveDevices(tables.tokens, owner, now);
      statuses := StatusesOf(rows, live);
    }
  }

  /** `find` with `order: loginAt DESC` and `take: limit`, over a table in insertion order. */
  function NewestFirst(history: seq<SignIn>, owner: Principal, limit: nat): (rows: seq<SignIn>)
    ensures |rows| <= limit
    ensures forall r | r in rows :: r in history && r.owner == owner
  {
    if history == [] || limit == 0 then []
    else
      var last, before := history[|history| - 1], history[..|history| - 1];
      if last.owner == owner then [last] + NewestFirst(before, owner, limit - 1) else NewestFirst(before, owner, limit)
  }

  function Own(history: seq<SignIn>, owner: Principal): seq<SignIn> {
    if history == [] then []
    else
      var last := history[|history| - 1];
      Own(history[..|history| - 1], owner) + if last.owner == owner then [last] else []
  }

  /** The rows listed are the last ones of the principal, as many as asked for or as there are, latest first. */
  lemma {:induction false} NewestFirstAre(history: seq<SignIn>, owner: Principal, limit: nat)
    ensures var rows, own := NewestFirst(history, owner, limit), Own(history, owner);
            && |rows| == (if limit < |own| then limit else |own|)
            && forall i | 0 <= i < |rows| :: rows[i] == own[|own| - 1 - i]
  {
    if history != [] && limit != 0 {
      var last, before := history[|history| - 1], history[..|history| - 1];
      NewestFirstAre(before, owner, if last.owner == owner then limit - 1 else limit);
    }
  }

  lemma {:induction false} OwnIsSorted(history: seq<SignIn>, owner: Principal)
    requires SortedByLogin(history)
    ensures SortedByLogin(Own(history, owner)) && forall row | row in Own(history, owner) :: row in history
  {
    if history != [] {
      var before, last := history[..|history| - 1], history[|history| - 1];
      OwnIsSorted(before, owner);
      forall row | row in before ensures row in history && row.loginAt <= last.loginAt {
        var i :| 0 <= i < |before| && before[i] == row;
        assert history[i] == row;
      }
    }
  }

  /** In every reachable state the listed sign-ins run from later to earlier, and none that is left out is later than
      one listed. */
  lemma ListedAreTheNewest(events: seq<Event>, now: int, owner: Principal, limit: nat)
    requires UpTo(events, now)
    ensures var history := Exec(EMPTY, events).db.history;
            var rows, own := NewestFirst(history, owner, limit), Own(history, owner);
            && |rows| <= |own|
            && (forall i, j | 0 <= i < j < |rows| :: rows[j].loginAt <= rows[i].loginAt)
            && (forall i, k | 0 <= i < |rows| && 0 <= k < |own| - |rows| :: own[k].loginAt <= rows[i].loginAt)
  {
    var history := Exec(EMPTY, events).db.history;
    HistoryIsSorted(events, now);
    OwnIsSorted(history, owner);
    NewestFirstAre(history, owner, limit);
  }

  /** `findLiveSessions`. */
  function LiveSessions(tokens: seq<Token>, owner: Principal, now: int): seq<Token> {
    if tokens == [] then []
    else
      (if tokens[0].owner == owner && tokens[0].Live(now) then [tokens[0]] else [])
      + LiveSessions(tokens[1..], owner, now)
  }

  lemma {:induction false} LiveSessionsAre(tokens: seq<Token>, owner: Principal, now: int)
    ensures forall t :: t in LiveSessions(tokens, owner, now) <==> t in tokens && t.owner == owner && t.Live(now)
  {
    if tokens != [] {
      LiveSessionsAre(tokens[1..], owner, now);
      assert tokens == [tokens[0]] + tokens[1..];
    }
  }
}
