/** `src/auth/session-revocation.ts`: the UPDATE statements that end sessions, each as one function over its table. */
module SessionRevocation {
  import opened Wrappers
  import opened SessionData

  /** `findLiveFamilies`: the sessions in scope with an unrevoked, unexpired token. */
  function LiveFamilies(tokens: seq<Token>, owner: Principal, scope: Scope, now: int): set<Family> {
    if scope.only == Some([]) then {}
    else set t | t in tokens && t.owner == owner && t.Live(now) && scope.Covers(t.family) :: t.family
  }

  /** The revoking UPDATE, skipped outright for an empty `only`. */
  function RevokeTokens(tokens: seq<Token>, owner: Principal, scope: Scope, now: int): (revoked: seq<Token>)
    ensures |revoked| == |tokens|
  {
    if scope.only == Some([]) then tokens
    else
      seq(|tokens|, i requires 0 <= i < |tokens| =>
        if tokens[i].owner == owner && tokens[i].Unrevoked() && scope.Covers(tokens[i].family)
        then tokens[i].(revokedAt := Some(now))
        else tokens[i])
  }

  function LiveDevices(tokens: seq<Token>, owner: Principal, now: int): set<DeviceId> {
    set t | t in tokens && t.owner == owner && t.device.Some? && t.Live(now) :: t.device.value
  }

  predicate LiveWithoutDevice(tokens: seq<Token>, owner: Principal, now: int) {
    exists t :: t in tokens && t.owner == owner && t.device.None? && t.Live(now)
  }

  function CloseDevices(devices: map<DeviceKey, Device>, tokens: seq<Token>, owner: Principal, now: int)
    : map<DeviceKey, Device>
  {
    var live := LiveDevices(tokens, owner, now);
    map key | key in devices ::
      if key.owner == owner && devices[key].isActive && key.device !in live
      then devices[key].(isActive := false)
      else devices[key]
  }

  /** Whether a login-history row still has a live session behind it. */
  predicate Backed(tokens: seq<Token>, owner: Principal, device: Option<DeviceId>, now: int) {
    match device
    case Some(d) => d in LiveDevices(tokens, owner, now)
    case None => LiveWithoutDevice(tokens, owner, now)
  }

  function CloseHistory(history: seq<SignIn>, tokens: seq<Token>, owner: Principal, now: int): (closed: seq<SignIn>)
    ensures |closed| == |history|
  {
    seq(|history|, i requires 0 <= i < |history| =>
      if history[i].owner == owner && history[i].logoutAt.None? && !Backed(tokens, owner, history[i].device, now)
      then history[i].(logoutAt := Some(now))
      else history[i])
  }

  /** `revokeUserSessions` followed by `closeEndedSessions`. */
  function RevokeUserSessions(db: Tables, owner: Principal, scope: Scope, now: int): Tables {
    var tokens := RevokeTokens(db.tokens, owner, scope, now);
    Tables(tokens, CloseDevices(db.devices, tokens, owner, now), CloseHistory(db.history, tokens, owner, now))
  }

  // ---------------------------------------------------------------------------------------------------------------
  // The contract of a revocation
  // ---------------------------------------------------------------------------------------------------------------

  /** Every active device has a live token, and every open login-history row a live session, as of `now`. */
  ghost predicate NothingHalfEnded(db: Tables, owner: Principal, now: int) {
    && (forall key | key in db.devices && key.owner == owner && db.devices[key].isActive ::
          key.device in LiveDevices(db.tokens, owner, now))
    && (forall row | row in db.history && row.owner == owner && row.logoutAt.None? ::
          Backed(db.tokens, owner, row.device, now))
  }

  /** No row of any other principal differs, and no row appeared or vanished. */
  ghost predicate OthersUntouched(before: Tables, after: Tables, owner: Principal) {
    && |after.tokens| == |before.tokens|
    && (forall i | 0 <= i < |before.tokens| && before.tokens[i].owner != owner :: after.tokens[i] == before.tokens[i])
    && after.devices.Keys == before.devices.Keys
    && (forall key | key in before.devices && key.owner != owner :: after.devices[key] == before.devices[key])
    && |after.history| == |before.history|
    && (forall i | 0 <= i < |before.history| && before.history[i].owner != owner ::
          after.history[i] == before.history[i])
  }

  /** Exactly the principal's unrevoked tokens in scope are revoked, stamped `now`, and nothing else of a token
      changes. An empty `only` covers nothing and an absent one everything, so the special branch of the source is no
      exception. */
  lemma RevokesExactlyTheScope(tokens: seq<Token>, owner: Principal, scope: Scope, now: int, i: nat)
    requires i < |tokens|
    ensures var hit := tokens[i].Unrevoked() && tokens[i].owner == owner && scope.Covers(tokens[i].family);
            RevokeTokens(tokens, owner, scope, now)[i] == if hit then tokens[i].(revokedAt := Some(now)) else tokens[i]
  {
    if scope.only == Some([]) {
      assert !scope.Covers(tokens[i].family);
    }
  }

  /** After a revocation nothing of the principal is left half-ended and nobody else is affected. */
  lemma RevocationContract(db: Tables, owner: Principal, scope: Scope, now: int)
    ensures var after := RevokeUserSessions(db, owner, scope, now);
            NothingHalfEnded(after, owner, now) && OthersUntouched(db, after, owner)
  {
    var after := RevokeUserSessions(db, owner, scope, now);
    forall i | 0 <= i < |db.tokens| && db.tokens[i].owner != owner
      ensures after.tokens[i] == db.tokens[i]
    {
      RevokesExactlyTheScope(db.tokens, owner, scope, now, i);
    }
  }

  /** A second revocation of the same scope at the same instant changes nothing. */
  lemma RevocationIdempotent(db: Tables, owner: Principal, scope: Scope, now: int)
    ensures var once := RevokeUserSessions(db, owner, scope, now);
            RevokeUserSessions(once, owner, scope, now) == once
  {
    var once := RevokeUserSessions(db, owner, scope, now);
    var twice := RevokeUserSessions(once, owner, scope, now);
    assert twice.tokens == once.tokens;
    assert twice.devices == once.devices;
    assert twice.history == once.history;
  }

  /** `findLiveFamilies` names exactly the sessions of the scope that the revocation takes from live to ended. */
  lemma LiveFamiliesAreTheOnesEnded(tokens: seq<Token>, owner: Principal, scope: Scope, now: int, family: Family)
    ensures family in LiveFamilies(tokens, owner, scope, now)
       <==> FamilyLive(tokens, owner, family, now)
            && !FamilyLive(RevokeTokens(tokens, owner, scope, now), owner, family, now)
  {
    var after := RevokeTokens(tokens, owner, scope, now);
    if scope.Covers(family) {
      forall u | u in after && u.owner == owner && u.family == family ensures !u.Live(now) {
        var j :| 0 <= j < |after| && after[j] == u;
        RevokesExactlyTheScope(tokens, owner, scope, now, j);
      }
    } else {
      forall t | t in tokens && t.family == family ensures t in after {
        var i :| 0 <= i < |tokens| && tokens[i] == t;
        RevokesExactlyTheScope(tokens, owner, scope, now, i);
        assert after[i] == t;
      }
    }
  }
}
