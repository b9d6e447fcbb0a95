/** What each call does, row by row: stated over the columns of the three tables and the cache alone, in every reachable
    state, whatever functions the operation level is put together from. */
module SessionCalls {
  import opened Wrappers
  import opened SessionData
  import opened SessionRevocation
  import opened Redis
  import opened SessionOps
  import opened SessionTheorems
  import opened SessionRefusal

  predicate HasLiveToken(tokens: seq<Token>, owner: Principal, family: Family, now: int) {
    exists t :: t in tokens && t.owner == owner && t.family == family && t.revokedAt.None? && now < t.expiresAt
  }

  /** The principal has a live session with this device label, or without one. */
  predicate HasLiveTokenOn(tokens: seq<Token>, owner: Principal, device: Option<DeviceId>, now: int) {
    exists t :: t in tokens && t.owner == owner && t.device == device && t.revokedAt.None? && now < t.expiresAt
  }

  // ---------------------------------------------------------------------------------------------------------------
  // Ending sessions
  // ---------------------------------------------------------------------------------------------------------------

  /** The unrevoked tokens of these sessions of the principal are revoked at `now`, and no other row differs. */
  ghost predicate RevokesExactly(
    before: seq<Token>, after: seq<Token>, owner: Principal, families: set<Family>, now: int)
  {
    && |after| == |before|
    && forall i | 0 <= i < |before| ::
         after[i] == if before[i].owner == owner && before[i].family in families && before[i].revokedAt.None?
         then before[i].(revokedAt := Some(now)) else before[i]
  }

  /** Of the principal, every device and every open history row without a live token is closed; nothing else of the two
      tables differs. */
  ghost predicate ClosesExactly(before: Tables, after: Tables, owner: Principal, now: int) {
    && after.devices.Keys == before.devices.Keys
    && (forall key | key in before.devices ::
          var closed := key.owner == owner && !HasLiveTokenOn(after.tokens, owner, Some(key.device), now);
          after.devices[key] == before.devices[key].(isActive := before.devices[key].isActive && !closed))
    && |after.history| == |before.history|
    && (forall i | 0 <= i < |before.history| ::
          var row := before.history[i];
          var backed := HasLiveTokenOn(after.tokens, owner, row.device, now);
          var closed := row.owner == owner && row.logoutAt.None? && !backed;
          after.history[i] == if closed then row.(logoutAt := Some(now)) else row)
  }

  /** The markers of those of the sessions that were live go, where the delete reached Redis; no other entry differs. */
  ghost predicate ForgetsExactly(before: State, after: State, owner: Principal, families: set<Family>, now: int,
                                 lost: set<Family>)
  {
    && (forall key | key in before.redis ::
          var forgotten := key.SessionLive? && key.owner == owner && key.sid in families && key.sid !in lost
                           && HasLiveToken(before.db.tokens, owner, key.sid, now);
          key in after.redis <==> !forgotten)
    && (forall key | key in after.redis :: key in before.redis && after.redis[key] == before.redis[key])
  }

  /** These sessions of the principal, and nothing else of anyone, end at `now`. */
  ghost predicate EndsExactly(
    before: State, after: State, owner: Principal, families: set<Family>, now: int, lost: set<Family>)
  {
    && RevokesExactly(before.db.tokens, after.db.tokens, owner, families, now)
    && ClosesExactly(before.db, after.db, owner, now)
    && ForgetsExactly(before, after, owner, families, now, lost)
  }

  lemma EndSessionsEndsExactly(
    s: State, owner: Principal, scope: Scope, families: set<Family>, now: int, lost: set<Family>)
    requires forall t | t in s.db.tokens && t.owner == owner :: scope.Covers(t.family) <==> t.family in families
    ensures EndsExactly(s, EndSessions(s, owner, scope, now, lost), owner, families, now, lost)
  {
    var after := EndSessions(s, owner, scope, now, lost);
    forall i | 0 <= i < |s.db.tokens|
      ensures after.db.tokens[i]
           == if s.db.tokens[i].owner == owner && s.db.tokens[i].family in families && s.db.tokens[i].revokedAt.None?
              then s.db.tokens[i].(revokedAt := Some(now)) else s.db.tokens[i]
    {
      RevokesExactlyTheScope(s.db.tokens, owner, scope, now, i);
    }
    EndSessionsForgetsExactly(s, owner, scope, families, now, lost);
  }

  lemma EndSessionsForgetsExactly(
    s: State, owner: Principal, scope: Scope, families: set<Family>, now: int, lost: set<Family>)
    requires forall t | t in s.db.tokens && t.owner == owner :: scope.Covers(t.family) <==> t.family in families
    ensures ForgetsExactly(s, EndSessions(s, owner, scope, now, lost), owner, families, now, lost)
  {
    hide RevokeUserSessions;
    var live := LiveFamilies(s.db.tokens, owner, scope, now);
    forall f ensures f in live <==> f in families && HasLiveToken(s.db.tokens, owner, f, now) {
      if f in live {
        var t :| t in s.db.tokens && t.owner == owner && t.Live(now) && t.family == f;
      }
    }
  }

  /** In a reachable state a session has one principal, so ending it leaves none of its tokens unrevoked, closes what it
      left half-ended and touches no row of another session's. */
  lemma EndedSession(events: seq<Event>, after: State, row: nat, now: int, lost: set<Family>)
    requires row < |Exec(EMPTY, events).db.tokens|
    requires var s := Exec(EMPTY, events);
             EndsExactly(s, after, s.db.tokens[row].owner, {s.db.tokens[row].family}, now, lost)
    ensures var s := Exec(EMPTY, events);
            var stored := s.db.tokens[row];
            && (forall t | t in after.db.tokens && t.family == stored.family :: t.revokedAt.Some?)
            && (forall i | 0 <= i < |s.db.tokens| && s.db.tokens[i].family != stored.family ::
                  after.db.tokens[i] == s.db.tokens[i])
            && NothingHalfEnded(after.db, stored.owner, now) && OthersUntouched(s.db, after.db, stored.owner)
  {
    hide Exec, ForgetsExactly, ClosesExactly, NothingHalfEnded, OthersUntouched, RevokesExactly;
    var s := Exec(EMPTY, events);
    var stored := s.db.tokens[row];
    RunIsLinear(events);
    RevokedOnlyThat(s.db.tokens, after.db.tokens, row, now);
    EndedLeavesNothingHalf(s.db, after.db, stored.owner, now);
    EndedTouchesNobodyElse(s.db, after.db, stored.owner, {stored.family}, now);
  }

  lemma RevokedOnlyThat(before: seq<Token>, after: seq<Token>, row: nat, now: int)
    requires row < |before| && Linear(before)
    requires RevokesExactly(before, after, before[row].owner, {before[row].family}, now)
    ensures |after| == |before|
    ensures forall t | t in after && t.family == before[row].family :: t.revokedAt.Some?
    ensures forall i | 0 <= i < |before| && before[i].family != before[row].family :: after[i] == before[i]
  {
    NothingUnrevoked(before, after, before[row].owner, {before[row].family}, row, now);
  }

  lemma NothingUnrevoked(
    before: seq<Token>, after: seq<Token>, owner: Principal, families: set<Family>, row: nat, now: int)
    requires row < |before| && Linear(before) && before[row].owner == owner && before[row].family in families
    requires RevokesExactly(before, after, owner, families, now)
    ensures after[row] in after && forall t | t in after && t.family == before[row].family :: t.revokedAt.Some?
  {
    forall i | 0 <= i < |before| && before[i].family == before[row].family ensures after[i].revokedAt.Some? {
      OneOwner(before, i, row);
    }
  }

  lemma OneOwner(tokens: seq<Token>, i: nat, j: nat)
    requires Linear(tokens) && i < |tokens| && j < |tokens| && tokens[i].family == tokens[j].family
    ensures tokens[i].owner == tokens[j].owner
  {
  }

  lemma EndedTouchesNobodyElse(before: Tables, after: Tables, owner: Principal, families: set<Family>, now: int)
    requires RevokesExactly(before.tokens, after.tokens, owner, families, now)
    requires ClosesExactly(before, after, owner, now)
    ensures OthersUntouched(before, after, owner)
  {
  }

  lemma EndedLeavesNothingHalf(before: Tables, after: Tables, owner: Principal, now: int)
    requires ClosesExactly(before, after, owner, now)
    ensures NothingHalfEnded(after, owner, now)
  {
    forall key | key in after.devices && key.owner == owner && after.devices[key].isActive
      ensures key.device in LiveDevices(after.tokens, owner, now)
    {
      var t :| t in after.tokens && t.owner == owner && t.device == Some(key.device) && t.revokedAt.None?
               && now < t.expiresAt;
    }
    forall row | row in after.history && row.owner == owner && row.logoutAt.None?
      ensures Backed(after.tokens, owner, row.device, now)
    {
      var i :| 0 <= i < |after.history| && after.history[i] == row;
      assert before.history[i] == row;
      var t :| t in after.tokens && t.owner == owner && t.device == row.device && t.revokedAt.None?
               && now < t.expiresAt;
      assert t.device.Some? ==> t.device.value in LiveDevices(after.tokens, owner, now);
    }
  }

  /** A session that ends while it is live, with its delete reaching Redis, is refused by every later call. */
  lemma EndedWhileLiveIsRefused(
    past: seq<Event>, ended: State, owner: Principal, families: set<Family>, family: Family, at: int,
    lost: set<Family>, later: seq<Event>, now: int)
    requires EndsExactly(Exec(EMPTY, past), ended, owner, families, at, lost)
    requires family in families && family !in lost && HasLiveToken(Exec(EMPTY, past).db.tokens, owner, family, at)
    requires at <= now && UpTo(later, now) && forall e | e in later :: at <= e.now
    ensures RefusedEverywhere(Exec(ended, later), family, now)
  {
    hide Exec, ClosesExactly, RefusedEverywhere;
    var s := Exec(EMPTY, past);
    EndedLiveIsGone(past, s, ended, owner, families, family, at, lost);
    GoneForGood(ended, later, family, at, now);
    GoneIsRefused(Exec(ended, later), family, now);
  }

  lemma EndedLiveIsGone(
    past: seq<Event>, s: State, ended: State, owner: Principal, families: set<Family>, family: Family, at: int,
    lost: set<Family>)
    requires s == Exec(EMPTY, past)
    requires RevokesExactly(s.db.tokens, ended.db.tokens, owner, families, at)
    requires ForgetsExactly(s, ended, owner, families, at, lost)
    requires family in families && family !in lost && HasLiveToken(s.db.tokens, owner, family, at)
    ensures Gone(ended, family, at)
  {
    hide Exec, Linear;
    RunIsLinear(past);
    var u :| u in s.db.tokens && u.owner == owner && u.family == family && u.revokedAt.None? && at < u.expiresAt;
    var k :| 0 <= k < |s.db.tokens| && s.db.tokens[k] == u;
    NothingUnrevoked(s.db.tokens, ended.db.tokens, owner, families, k, at);
    forall other | SessionLive(other, family) in s.redis ensures other == owner {
      MarkersAreBacked(past, SessionLive(other, family));
      var t :| t in s.db.tokens && t.family == family && t.owner == other;
      var i :| 0 <= i < |s.db.tokens| && s.db.tokens[i] == t;
      OneOwner(s.db.tokens, i, k);
    }
  }

  /** A session all of whose tokens are revoked is never refreshed again. */
  lemma RevokedStaysDead(s: State, family: Family, at: int, later: seq<Event>, now: int)
    requires FamilyKnown(s.db.tokens, family) && forall t | t in s.db.tokens && t.family == family :: t.revokedAt.Some?
    requires at <= now && UpTo(later, now) && forall e | e in later :: at <= e.now
    ensures !FamilyUsable(Exec(s, later).db.tokens, family, now)
  {
    assert Dead(s, family, at);
    DeadStaysDead(s, later, family, at, now);
  }

  // ---------------------------------------------------------------------------------------------------------------
  // Sign-out
  // ---------------------------------------------------------------------------------------------------------------

  lemma RowOfHash(tokens: seq<Token>, row: nat)
    requires row < |tokens| && HashesUnique(tokens)
    ensures FindRow(tokens, tokens[row].hash) == Some(row)
  {
    assert tokens[row] in tokens;
  }

  lemma LogoutEndsExactly(s: State, e: Event, row: nat)
    requires e.op.Logout? && row < |s.db.tokens| && HashesUnique(s.db.tokens)
    requires e.op.presented == s.db.tokens[row].hash
    ensures EndsExactly(s, Apply(s, e), s.db.tokens[row].owner, {s.db.tokens[row].family}, e.now, e.lost)
  {
    hide EndSessions, EndsExactly;
    var stored := s.db.tokens[row];
    RowOfHash(s.db.tokens, row);
    EndSessionsEndsExactly(s, stored.owner, Only([stored.family]), {stored.family}, e.now, e.lost);
  }

  /** Signing out with any token of a session, an already rotated one included, ends that session and only it; with an
      unknown one it changes nothing. */
  lemma LogoutEndsTheSession(events: seq<Event>, e: Event, row: nat)
    requires e.op.Logout? && row < |Exec(EMPTY, events).db.tokens|
    requires e.op.presented == Exec(EMPTY, events).db.tokens[row].hash
    ensures var s, after := Exec(EMPTY, events), Apply(Exec(EMPTY, events), e);
            var stored := s.db.tokens[row];
            && EndsExactly(s, after, stored.owner, {stored.family}, e.now, e.lost)
            && (forall t | t in after.db.tokens && t.family == stored.family :: t.revokedAt.Some?)
            && (forall i | 0 <= i < |s.db.tokens| && s.db.tokens[i].family != stored.family ::
                  after.db.tokens[i] == s.db.tokens[i])
            && NothingHalfEnded(after.db, stored.owner, e.now) && OthersUntouched(s.db, after.db, stored.owner)
  {
    hide Apply, EndsExactly;
    RunHashesUnique(events);
    LogoutEndsExactly(Exec(EMPTY, events), e, row);
    EndedSession(events, Apply(Exec(EMPTY, events), e), row, e.now, e.lost);
  }

  lemma UnknownLogoutDoesNothing(s: State, e: Event)
    requires e.op.Logout? && forall t | t in s.db.tokens :: t.hash != e.op.presented
    ensures Apply(s, e) == s
  {
  }

  lemma LogoutContract(s: State, e: Event)
    requires e.op.Logout?
    ensures (forall t | t in s.db.tokens :: t.hash != e.op.presented) ==> Apply(s, e) == s
    ensures HashesUnique(s.db.tokens)
            ==> forall row | 0 <= row < |s.db.tokens| && s.db.tokens[row].hash == e.op.presented ::
                EndsExactly(s, Apply(s, e), s.db.tokens[row].owner, {s.db.tokens[row].family}, e.now, e.lost)
  {
    hide Apply, EndsExactly;
    if forall t | t in s.db.tokens :: t.hash != e.op.presented {
      UnknownLogoutDoesNothing(s, e);
    }
    forall row | HashesUnique(s.db.tokens) && 0 <= row < |s.db.tokens| && s.db.tokens[row].hash == e.op.presented
      ensures EndsExactly(s, Apply(s, e), s.db.tokens[row].owner, {s.db.tokens[row].family}, e.now, e.lost)
    {
      LogoutEndsExactly(s, e, row);
    }
  }

  /** From then on, through any run of later calls and Redis faults, no refresh of the session succeeds; and where it
      was live and its delete reached Redis no request with its `sid` is let in either. */
  lemma LoggedOutForGood(events: seq<Event>, e: Event, row: nat, later: seq<Event>, now: int)
    requires e.op.Logout? && row < |Exec(EMPTY, events).db.tokens|
    requires e.op.presented == Exec(EMPTY, events).db.tokens[row].hash
    requires e.now <= now && UpTo(later, now) && forall a | a in later :: e.now <= a.now
    ensures var s, stored := Exec(EMPTY, events), Exec(EMPTY, events).db.tokens[row];
            var end := Exec(Apply(s, e), later);
            && !FamilyUsable(end.db.tokens, stored.family, now)
            && (HasLiveToken(s.db.tokens, stored.owner, stored.family, e.now) && stored.family !in e.lost
                ==> RefusedEverywhere(end, stored.family, now))
  {
    hide Apply, EndsExactly, RefusedEverywhere;
    var s := Exec(EMPTY, events);
    var stored := s.db.tokens[row];
    LogoutEndsTheSession(events, e, row);
    var kept := RowsStay(s, e, stored);
    RevokedStaysDead(Apply(s, e), stored.family, e.now, later, now);
    if HasLiveToken(s.db.tokens, stored.owner, stored.family, e.now) && stored.family !in e.lost {
      EndedWhileLiveIsRefused(
        events, Apply(s, e), stored.owner, {stored.family}, stored.family, e.now, e.lost, later, now);
    }
  }

  /** The sessions that have or had a token on the device. */
  function SeenOn(tokens: seq<Token>, owner: Principal, device: DeviceId): set<Family> {
    set t | t in tokens && t.owner == owner && t.device == Some(device) :: t.family
  }

  lemma {:induction false} FamiliesOnDeviceAreAll(
    tokens: seq<Token>, owner: Principal, device: DeviceId, family: Family)
    ensures family in FamiliesOnDevice(tokens, owner, device)
       <==> exists t :: t in tokens && t.owner == owner && t.device == Some(device) && t.family == family
  {
    if tokens != [] {
      var before, t := tokens[..|tokens| - 1], tokens[|tokens| - 1];
      FamiliesOnDeviceAreAll(before, owner, device, family);
      assert tokens == before + [t];
    }
  }

  /** Signing out a device ends exactly the sessions ever seen on it; an unknown device changes nothing. */
  lemma LogoutDeviceEndsWhatItSaw(s: State, e: Event)
    requires e.op.LogoutDevice?
    ensures DeviceKey(e.op.owner, e.op.on) !in s.db.devices ==> Apply(s, e) == s
    ensures DeviceKey(e.op.owner, e.op.on) in s.db.devices
            ==> EndsExactly(s, Apply(s, e), e.op.owner, SeenOn(s.db.tokens, e.op.owner, e.op.on), e.now, e.lost)
  {
    hide EndSessions, EndsExactly;
    var owner, families := e.op.owner, SeenOn(s.db.tokens, e.op.owner, e.op.on);
    forall f ensures f in FamiliesOnDevice(s.db.tokens, owner, e.op.on) <==> f in families {
      FamiliesOnDeviceAreAll(s.db.tokens, owner, e.op.on, f);
    }
    EndSessionsEndsExactly(s, owner, Only(FamiliesOnDevice(s.db.tokens, owner, e.op.on)), families, e.now, e.lost);
  }

  /** The principal's sessions but for those excepted. */
  function Others(tokens: seq<Token>, owner: Principal, except: seq<Family>): set<Family> {
    set t | t in tokens && t.owner == owner && t.family !in except :: t.family
  }

  /** Signing out everywhere, or everywhere else, ends exactly the principal's sessions that are not excepted. */
  lemma LogoutAllEndsTheRest(s: State, e: Event)
    requires e.op.LogoutAll?
    ensures EndsExactly(s, Apply(s, e), e.op.owner, Others(s.db.tokens, e.op.owner, e.op.except), e.now, e.lost)
  {
    hide EndSessions, EndsExactly;
    EndSessionsEndsExactly(
      s, e.op.owner, Except(e.op.except), Others(s.db.tokens, e.op.owner, e.op.except), e.now, e.lost);
  }

  /** Removing a staff user revokes every token of that user and changes nothing else. */
  lemma RemovingRevokesTheUser(s: State, e: Event)
    requires e.op.RemoveUser?
    ensures var after := Apply(s, e);
            && |after.db.tokens| == |s.db.tokens|
            && (forall i | 0 <= i < |s.db.tokens| ::
                  var t := s.db.tokens[i];
                  after.db.tokens[i]
                  == if t.owner == Principal(Staff, e.op.userId) && t.revokedAt.None? then t.(revokedAt := Some(e.now))
                  else t)
            && after == s.(db := s.db.(tokens := after.db.tokens))
  {
    forall i | 0 <= i < |s.db.tokens|
      ensures Apply(s, e).db.tokens[i]
           == if s.db.tokens[i].owner == Principal(Staff, e.op.userId) && s.db.tokens[i].revokedAt.None?
              then s.db.tokens[i].(revokedAt := Some(e.now)) else s.db.tokens[i]
    {
      RevokesExactlyTheScope(s.db.tokens, Principal(Staff, e.op.userId), EVERYTHING, e.now, i);
    }
  }

  // ---------------------------------------------------------------------------------------------------------------
  // Refresh
  // ---------------------------------------------------------------------------------------------------------------

  /** The device the refreshed session is on: its own, else the one the request claims. */
  function DeviceOf(stored: Token, claimed: Option<DeviceId>): Option<DeviceId> {
    match stored.device case Some(d) => Some(d) case None => claimed
  }

  /** The request claims a device other than the session's. */
  predicate ClaimsAnother(stored: Token, claimed: Option<DeviceId>) {
    stored.device.Some? && claimed.Some? && stored.device.value != claimed.value
  }

  predicate OnInactiveDevice(db: Tables, stored: Token, claimed: Option<DeviceId>) {
    match DeviceOf(stored, claimed)
    case None => false
    case Some(d) => DeviceKey(stored.owner, d) in db.devices && !db.devices[DeviceKey(stored.owner, d)].isActive
  }

  /** The refresh `e` presents the token of this row and draws a new one. */
  predicate Presents(s: State, e: Event, row: nat) {
    && e.op.Refresh? && row < |s.db.tokens| && s.db.tokens[row].hash == e.op.presented
    && forall t | t in s.db.tokens :: t.hash != e.op.hash
  }

  /** The refresh is refused in a way that ends the session: the token was used up or ran out, or its device was signed
      out. */
  predicate EndsOnRefresh(s: State, e: Event, row: nat)
    requires Presents(s, e, row)
  {
    var stored := s.db.tokens[row];
    || stored.revokedAt.Some?
    || stored.expiresAt < e.now
    || (!ClaimsAnother(stored, e.op.claimed) && OnInactiveDevice(s.db, stored, e.op.claimed))
  }

  lemma RefusedRefreshEndsExactly(s: State, e: Event, row: nat)
    requires Presents(s, e, row) && EndsOnRefresh(s, e, row) && HashesUnique(s.db.tokens)
    ensures EndsExactly(s, Apply(s, e), s.db.tokens[row].owner, {s.db.tokens[row].family}, e.now, e.lost)
  {
    hide EndSessions, EndsExactly;
    var stored := s.db.tokens[row];
    RowOfHash(s.db.tokens, row);
    EndSessionsEndsExactly(s, stored.owner, Only([stored.family]), {stored.family}, e.now, e.lost);
  }

  /** A refresh with a token that was used up, ran out, or belongs to a device that was signed out ends the session and
      only it. */
  lemma RefusedRefreshEndsTheSession(events: seq<Event>, e: Event, row: nat)
    requires Presents(Exec(EMPTY, events), e, row) && EndsOnRefresh(Exec(EMPTY, events), e, row)
    ensures var s, after := Exec(EMPTY, events), Apply(Exec(EMPTY, events), e);
            var stored := s.db.tokens[row];
            && EndsExactly(s, after, stored.owner, {stored.family}, e.now, e.lost)
            && (forall t | t in after.db.tokens && t.family == stored.family :: t.revokedAt.Some?)
            && (forall i | 0 <= i < |s.db.tokens| && s.db.tokens[i].family != stored.family ::
                  after.db.tokens[i] == s.db.tokens[i])
            && NothingHalfEnded(after.db, stored.owner, e.now) && OthersUntouched(s.db, after.db, stored.owner)
  {
    hide Apply, EndsExactly;
    RunHashesUnique(events);
    RefusedRefreshEndsExactly(Exec(EMPTY, events), e, row);
    EndedSession(events, Apply(Exec(EMPTY, events), e), row, e.now, e.lost);
  }

  /** And for good: no later refresh of it succeeds, and where it was live and its delete reached Redis, no request. */
  lemma RefusedRefreshIsFinal(events: seq<Event>, e: Event, row: nat, later: seq<Event>, now: int)
    requires Presents(Exec(EMPTY, events), e, row) && EndsOnRefresh(Exec(EMPTY, events), e, row)
    requires e.now <= now && UpTo(later, now) && forall a | a in later :: e.now <= a.now
    ensures var s, stored := Exec(EMPTY, events), Exec(EMPTY, events).db.tokens[row];
            var end := Exec(Apply(s, e), later);
            && !FamilyUsable(end.db.tokens, stored.family, now)
            && (HasLiveToken(s.db.tokens, stored.owner, stored.family, e.now) && stored.family !in e.lost
                ==> RefusedEverywhere(end, stored.family, now))
  {
    hide Apply, EndsExactly, RefusedEverywhere;
    var s := Exec(EMPTY, events);
    var stored := s.db.tokens[row];
    RefusedRefreshEndsTheSession(events, e, row);
    var kept := RowsStay(s, e, stored);
    RevokedStaysDead(Apply(s, e), stored.family, e.now, later, now);
    if HasLiveToken(s.db.tokens, stored.owner, stored.family, e.now) && stored.family !in e.lost {
      EndedWhileLiveIsRefused(
        events, Apply(s, e), stored.owner, {stored.family}, stored.family, e.now, e.lost, later, now);
    }
  }

  /** An unknown token changes nothing, and neither does a usable one presented on another device. */
  lemma RefreshLeavesAlone(s: State, e: Event)
    requires e.op.Refresh?
    requires forall t | t in s.db.tokens && t.hash == e.op.presented ::
               t.revokedAt.None? && e.now <= t.expiresAt && ClaimsAnother(t, e.op.claimed)
    ensures Apply(s, e) == s
  {
    hide EndSessions, IssueToken, FlipRow;
    var row := FindRow(s.db.tokens, e.op.presented);
    if row.Some? {
      assert s.db.tokens[row.value] in s.db.tokens;
    }
  }

  /** The token passes every check but that of the account. */
  predicate Refreshable(s: State, e: Event, row: nat)
    requires Presents(s, e, row)
  {
    var stored := s.db.tokens[row];
    && stored.revokedAt.None? && e.now <= stored.expiresAt
    && !ClaimsAnother(stored, e.op.claimed) && !OnInactiveDevice(s.db, stored, e.op.claimed)
  }

  /** What a rotation leaves of the devices: the session's own, if it has one, mirrors the new token and is active, and
      keeps its last sign-in. */
  function Mirrored(devices: map<DeviceKey, Device>, token: Token, now: int): map<DeviceKey, Device> {
    match token.device
    case None => devices
    case Some(d) =>
      var key := DeviceKey(token.owner, d);
      var lastLoginAt := if key in devices then devices[key].lastLoginAt else now;
      devices[key := Device(true, token.hash, lastLoginAt, now, token.expiresAt, token.rememberMe)]
  }

  lemma RefreshedDevices(db: Tables, token: Token, now: int)
    requires token.device.Some? && DeviceKey(token.owner, token.device.value) in db.devices
             ==> db.devices[DeviceKey(token.owner, token.device.value)].isActive
    ensures IssueToken(db, token, now, false)
         == Tables(db.tokens + [token], Mirrored(db.devices, token, now), db.history)
  {
  }

  lemma RefreshableVerdict(s: State, e: Event, row: nat)
    requires Presents(s, e, row) && Refreshable(s, e, row) && FindRow(s.db.tokens, e.op.presented) == Some(row)
    ensures var stored := s.db.tokens[row];
            var successor := Token(e.op.hash, stored.owner, stored.family, DeviceOf(stored, e.op.claimed),
                                   e.now + e.lifetimes.For(stored.rememberMe), None, stored.rememberMe);
            RefreshVerdict(s.db, e.op.presented, e.op.claimed, e.op.identityOk, e.op.hash, e.now, e.lifetimes)
            == if e.op.identityOk then Rotated(successor) else IdentityRefused
  {
  }

  lemma RotationInPlace(s: State, e: Event, row: nat)
    requires Presents(s, e, row) && Refreshable(s, e, row) && FindRow(s.db.tokens, e.op.presented) == Some(row)
    ensures var stored := s.db.tokens[row];
            var spent := s.db.tokens[row := stored.(revokedAt := Some(e.now))];
            var successor := Token(e.op.hash, stored.owner, stored.family, DeviceOf(stored, e.op.claimed),
                                   e.now + e.lifetimes.For(stored.rememberMe), None, stored.rememberMe);
            var rotated := Tables(spent + [successor], Mirrored(s.db.devices, successor, e.now), s.db.history);
            Apply(s, e) == State(if e.op.identityOk then rotated else s.db.(tokens := spent), s.redis)
  {
    hide RefreshVerdict, EndSessions, IssueToken, Mirrored;
    var stored := s.db.tokens[row];
    var successor := Token(e.op.hash, stored.owner, stored.family, DeviceOf(stored, e.op.claimed),
                           e.now + e.lifetimes.For(stored.rememberMe), None, stored.rememberMe);
    RefreshableVerdict(s, e, row);
    RefreshedDevices(FlipRow(s.db, row, e.now), successor, e.now);
  }

  /** A refreshable token of an account that stands always gets its successor: the same session, principal and
      Remember-me choice, on the same device or the one now claimed, with the configured lifetime. The old token is
      revoked and nothing else changes but the device row. When the account no longer stands the old token is spent all
      the same. */
  lemma RefreshRotates(s: State, e: Event, row: nat)
    requires Presents(s, e, row) && Refreshable(s, e, row) && HashesUnique(s.db.tokens)
    ensures var stored := s.db.tokens[row];
            var spent := s.db.tokens[row := stored.(revokedAt := Some(e.now))];
            var successor := Token(e.op.hash, stored.owner, stored.family, DeviceOf(stored, e.op.claimed),
                                   e.now + e.lifetimes.For(stored.rememberMe), None, stored.rememberMe);
            var rotated := Tables(spent + [successor], Mirrored(s.db.devices, successor, e.now), s.db.history);
            Apply(s, e) == State(if e.op.identityOk then rotated else s.db.(tokens := spent), s.redis)
  {
    hide Apply, EndSessions;
    RowOfHash(s.db.tokens, row);
    RotationInPlace(s, e, row);
  }

  /** What the caller is told, by what is stored. */
  lemma RefreshAnswers(s: State, e: Event, row: nat)
    requires Presents(s, e, row) && HashesUnique(s.db.tokens)
    ensures var stored := s.db.tokens[row];
            var told := RefreshVerdict(s.db, e.op.presented, e.op.claimed, e.op.identityOk, e.op.hash, e.now,
                                       e.lifetimes);
            && (told.AlreadyUsed? <==> stored.revokedAt.Some?)
            && (told.ExpiredToken? <==> stored.revokedAt.None? && stored.expiresAt < e.now)
            && (told.DeviceMismatch? <==> stored.revokedAt.None? && e.now <= stored.expiresAt
                                          && ClaimsAnother(stored, e.op.claimed))
            && (told.Rotated? <==> Refreshable(s, e, row) && e.op.identityOk)
            && (told.IdentityRefused? <==> Refreshable(s, e, row) && !e.op.identityOk)
            && !told.InvalidToken?
  {
    RowOfHash(s.db.tokens, row);
  }

  lemma RefreshContract(s: State, e: Event)
    requires e.op.Refresh? && DrawsFresh(s.db, e.op)
    ensures HashesUnique(s.db.tokens)
            ==> forall row: nat | Presents(s, e, row) && EndsOnRefresh(s, e, row) ::
                EndsExactly(s, Apply(s, e), s.db.tokens[row].owner, {s.db.tokens[row].family}, e.now, e.lost)
    ensures var told := RefreshVerdict(s.db, e.op.presented, e.op.claimed, e.op.identityOk, e.op.hash, e.now,
                                       e.lifetimes);
            HashesUnique(s.db.tokens)
            ==> forall row: nat | Presents(s, e, row) :: told.Rotated? <==> Refreshable(s, e, row) && e.op.identityOk
  {
    hide Apply, EndsExactly, RefreshVerdict, EndsOnRefresh, Refreshable;
    forall row: nat | HashesUnique(s.db.tokens) && Presents(s, e, row) && EndsOnRefresh(s, e, row)
      ensures EndsExactly(s, Apply(s, e), s.db.tokens[row].owner, {s.db.tokens[row].family}, e.now, e.lost)
    {
      RefusedRefreshEndsExactly(s, e, row);
    }
    forall row: nat | HashesUnique(s.db.tokens) && Presents(s, e, row)
      ensures var told := RefreshVerdict(s.db, e.op.presented, e.op.claimed, e.op.identityOk, e.op.hash, e.now,
                                         e.lifetimes);
              told.Rotated? <==> Refreshable(s, e, row) && e.op.identityOk
    {
      RefreshAnswers(s, e, row);
    }
  }

  // ---------------------------------------------------------------------------------------------------------------
  // Sign-in and the liveness check
  // ---------------------------------------------------------------------------------------------------------------

  /** A sign-in opens one new session with the configured lifetime, revives its device or creates it, closes the
      device's open history rows and adds its own; nothing else changes. */
  lemma LoginOpensASession(s: State, e: Event)
    requires e.op.Login? && forall t | t in s.db.tokens :: t.hash != e.op.hash && t.family != e.op.family
    ensures var after := Apply(s, e);
            var expiresAt := e.now + e.lifetimes.For(e.op.rememberMe);
            var token := Token(e.op.hash, e.op.owner, e.op.family, e.op.device, expiresAt, None, e.op.rememberMe);
            && after.db.tokens == s.db.tokens + [token]
            && after.db.devices
               == (match e.op.device
                   case None => s.db.devices
                   case Some(d) => s.db.devices[DeviceKey(e.op.owner, d) :=
                   Device(true, e.op.hash, e.now, e.now, token.expiresAt, e.op.rememberMe)])
            && |after.db.history| == |s.db.history| + 1
            && after.db.history[|s.db.history|] == SignIn(e.op.owner, e.op.device, e.now, None)
            && (forall i | 0 <= i < |s.db.history| ::
                  var row := s.db.history[i];
                  var closed := row.owner == e.op.owner && row.device == e.op.device && row.device.Some?
                                && row.logoutAt.None?;
                  after.db.history[i] == if closed then row.(logoutAt := Some(e.now)) else row)
            && after.redis == s.redis
  {
    assert FindRow(s.db.tokens, e.op.hash).None? && !FamilyKnown(s.db.tokens, e.op.family);
  }

  /** A request is let in exactly when Redis answers with an unexpired marker or the session has a live token. The check
      caches a marker for five seconds exactly when it found none, the session has a live token and Redis takes it, and
      changes nothing else. */
  lemma LivenessCheckCaches(s: State, e: Event)
    requires e.op.CheckLive?
    ensures var key := SessionLive(e.op.owner, e.op.sid);
            var cached := e.getReached && key in s.redis
                          && (s.redis[key].expiresAt.None? || e.now < s.redis[key].expiresAt.value);
            var live := HasLiveToken(s.db.tokens, e.op.owner, e.op.sid, e.now);
            && (IsLive(s, e.op.owner, e.op.sid, e.now, e.getReached) <==> cached || live)
            && Apply(s, e) == if !cached && live && e.setReached
                              then s.(redis := s.redis[key := Entry(1, Some(e.now + 5000))]) else s
  {
    assert FamilyLive(s.db.tokens, e.op.owner, e.op.sid, e.now)
      <==> HasLiveToken(s.db.tokens, e.op.owner, e.op.sid, e.now) by {
      if HasLiveToken(s.db.tokens, e.op.owner, e.op.sid, e.now) {
        var t :| t in s.db.tokens && t.owner == e.op.owner && t.family == e.op.sid && t.revokedAt.None?
                 && e.now < t.expiresAt;
        assert t.Live(e.now);
      }
    }
  }
}
