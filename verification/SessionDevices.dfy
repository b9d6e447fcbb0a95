/** Devices, the Active Sessions list, login history and scoped sign-out over whole runs. */
module SessionDevices {
  import opened Wrappers
  import opened SessionData
  import opened SessionRevocation
  import opened RotationProtocol
  import opened SessionOps
  import opened SessionTheorems
  import opened SessionRefusal
  import opened SessionCalls

  predicate DeviceActive(db: Tables, owner: Principal, device: DeviceId) {
    DeviceKey(owner, device) in db.devices && db.devices[DeviceKey(owner, device)].isActive
  }

  /** Every live token that carries a device has an active row for it. */
  ghost predicate LiveTokensOnActiveDevices(db: Tables, now: int) {
    forall t | t in db.tokens && t.device.Some? && t.Live(now) :: DeviceActive(db, t.owner, t.device.value)
  }

  lemma DevicesAfterOne(s: State, e: Event, now: int)
    requires LiveTokensOnActiveDevices(s.db, now) && now <= e.now
    ensures LiveTokensOnActiveDevices(Apply(s, e).db, e.now)
  {
    var s' := Apply(s, e);
    forall t | t in s'.db.tokens && t.device.Some? && t.Live(e.now)
      ensures DeviceActive(s'.db, t.owner, t.device.value)
    {
      if Issued(s, e) != Some(t) {
        var u := RowsComeFromBefore(s, e, t);
        assert DeviceActive(s.db, t.owner, t.device.value);
        var ends := Ends(s.db, e);
        if DrawsFresh(s.db, e.op) && ends.Some? && t.owner == ends.value.0 {
          assert t.device.value in LiveDevices(s'.db.tokens, t.owner, e.now);
        }
      }
    }
  }

  /** In every reachable state each live token labelled with a device has an existing, active row for it. */
  lemma {:induction false} DeviceInvariant(events: seq<Event>, now: int)
    requires UpTo(events, now)
    ensures LiveTokensOnActiveDevices(Exec(EMPTY, events).db, now)
    decreases |events|
  {
    if events != [] {
      var before, last := events[..|events| - 1], events[|events| - 1];
      assert last in events;
      DeviceInvariant(before, last.now);
      DevicesAfterOne(Exec(EMPTY, before), last, last.now);
    }
  }

  /** Only a sign-in on that very device brings a signed-out device back; a refresh never does. */
  lemma OnlySignInRevives(s: State, e: Event, key: DeviceKey)
    requires key in s.db.devices && !s.db.devices[key].isActive
    ensures DeviceActive(Apply(s, e).db, key.owner, key.device)
       <==> e.op.Login? && DrawsFresh(s.db, e.op) && e.op.owner == key.owner && e.op.device == Some(key.device)
  {
    assert key == DeviceKey(key.owner, key.device);
  }

  /** The last sign-in instant of a device moves only at a sign-in on it; refreshes and revocations leave it. */
  lemma OnlySignInStampsLastLogin(s: State, e: Event, key: DeviceKey)
    requires key in s.db.devices
    ensures var devices := Apply(s, e).db.devices;
            key in devices
            && devices[key].lastLoginAt
               == if e.op.Login? && DrawsFresh(s.db, e.op) && e.op.owner == key.owner && e.op.device == Some(key.device)
                  then e.now else s.db.devices[key].lastLoginAt
  {
    assert key == DeviceKey(key.owner, key.device);
  }

  predicate IssuedOn(t: Token, key: DeviceKey) { t.owner == key.owner && t.device == Some(key.device) }

  /** The device row carries the hash, the expiry and the "Remember me" choice of the newest token issued on the
      device. */
  ghost predicate MirrorsNewest(db: Tables, key: DeviceKey)
    requires key in db.devices
  {
    exists i: nat :: i < |db.tokens| && IssuedOn(db.tokens[i], key) && MirroredBy(db.devices[key], db.tokens[i])
                     && forall j | i < j < |db.tokens| :: !IssuedOn(db.tokens[j], key)
  }

  predicate MirroredBy(device: Device, t: Token) {
    device.tokenHash == t.hash && device.expiresAt == t.expiresAt && device.rememberMe == t.rememberMe
  }

  lemma IssuingMirrors(s: State, e: Event, key: DeviceKey)
    requires Issued(s, e).Some? && IssuedOn(Issued(s, e).value, key)
    ensures var after := Apply(s, e).db; key in after.devices && MirrorsNewest(after, key)
  {
    TokenTableStep(s, e);
    var after, token := Apply(s, e).db, Issued(s, e).value;
    assert key == DeviceKey(token.owner, token.device.value);
    assert after.tokens[|s.db.tokens|] == token && MirroredBy(after.devices[key], token);
  }

  lemma OtherDevicesStay(s: State, e: Event, key: DeviceKey)
    requires key in Apply(s, e).db.devices && !(Issued(s, e).Some? && IssuedOn(Issued(s, e).value, key))
    ensures key in s.db.devices
    ensures Apply(s, e).db.devices[key] == s.db.devices[key].(isActive := Apply(s, e).db.devices[key].isActive)
  {
    assert key == DeviceKey(key.owner, key.device);
  }

  lemma OthersKeepTheirMirror(s: State, e: Event, key: DeviceKey)
    requires key in Apply(s, e).db.devices && !(Issued(s, e).Some? && IssuedOn(Issued(s, e).value, key))
    requires key in s.db.devices ==> MirrorsNewest(s.db, key)
    ensures MirrorsNewest(Apply(s, e).db, key)
  {
    TokenTableStep(s, e);
    var before, after := s.db, Apply(s, e).db;
    OtherDevicesStay(s, e, key);
    var i: nat :| i < |before.tokens| && IssuedOn(before.tokens[i], key)
                  && MirroredBy(before.devices[key], before.tokens[i])
                  && forall j | i < j < |before.tokens| :: !IssuedOn(before.tokens[j], key);
    forall j | 0 <= j < |before.tokens|
      ensures after.tokens[j].(revokedAt := before.tokens[j].revokedAt) == before.tokens[j]
    {
      assert after.tokens[..|before.tokens|][j] == after.tokens[j];
    }
    assert IssuedOn(after.tokens[i], key) && MirroredBy(after.devices[key], after.tokens[i]);
  }

  /** In every reachable state each device row mirrors the newest token issued on the device, live or not. */
  lemma {:induction false} DeviceMirrorsNewestToken(events: seq<Event>, key: DeviceKey)
    requires key in Exec(EMPTY, events).db.devices
    ensures MirrorsNewest(Exec(EMPTY, events).db, key)
    decreases |events|
  {
    if events != [] {
      var before, last := events[..|events| - 1], events[|events| - 1];
      var s := Exec(EMPTY, before);
      if Issued(s, last).Some? && IssuedOn(Issued(s, last).value, key) {
        IssuingMirrors(s, last, key);
      } else {
        if key in s.db.devices {
          DeviceMirrorsNewestToken(before, key);
        }
        OthersKeepTheirMirror(s, last, key);
      }
    }
  }

  // ---------------------------------------------------------------------------------------------------------------
  // Login history
  // ---------------------------------------------------------------------------------------------------------------

  /** A device has at most one sign-in that was never closed. */
  ghost predicate OneOpenRowPerDevice(history: seq<SignIn>) {
    forall i, j | 0 <= i < j < |history| && history[i].owner == history[j].owner
                  && history[i].device == history[j].device
                  && history[i].device.Some? :: history[i].logoutAt.Some? || history[j].logoutAt.Some?
  }

  /** A login-history row is written once and closed at most once: only a sign-in adds one, and an open row closes,
      at that instant, only because its own device is signed in on anew or no live session stands behind it any more. */
  lemma HistoryOnlyGrowsAndCloses(s: State, e: Event, i: nat)
    requires i < |s.db.history|
    ensures var before, after, signedIn := s.db.history, Apply(s, e).db, e.op.Login? && DrawsFresh(s.db, e.op);
            && |after.history| == |before| + (if signedIn then 1 else 0)
            && (signedIn ==> after.history[|before|] == SignIn(e.op.owner, e.op.device, e.now, None))
            && (after.history[i] != before[i]
                ==> before[i].logoutAt.None? && after.history[i] == before[i].(logoutAt := Some(e.now))
                    && ((signedIn && e.op.device.Some? && before[i].owner == e.op.owner
                         && before[i].device == e.op.device)
                        || !Backed(after.tokens, before[i].owner, before[i].device, e.now)))
  {
  }

  /** Login history is in the order of its sign-ins. */
  ghost predicate SortedByLogin(history: seq<SignIn>) {
    forall i, j | 0 <= i < j < |history| :: history[i].loginAt <= history[j].loginAt
  }

  lemma {:induction false} HistoryIsSorted(events: seq<Event>, now: int)
    requires UpTo(events, now)
    ensures SortedByLogin(Exec(EMPTY, events).db.history)
    ensures forall row | row in Exec(EMPTY, events).db.history :: row.loginAt <= now
    decreases |events|
  {
    if events != [] {
      var before, last := events[..|events| - 1], events[|events| - 1];
      assert last in events;
      HistoryIsSorted(before, last.now);
      HistoryStaysSorted(Exec(EMPTY, before), last);
    }
  }

  lemma HistoryStaysSorted(s: State, e: Event)
    requires SortedByLogin(s.db.history) && forall row | row in s.db.history :: row.loginAt <= e.now
    ensures var after := Apply(s, e).db.history;
            SortedByLogin(after) && forall row | row in after :: row.loginAt <= e.now
  {
    var before, after := s.db.history, Apply(s, e).db.history;
    forall i | 0 <= i < |before| ensures i < |after| && after[i].loginAt == before[i].loginAt && before[i] in before {
      HistoryOnlyGrowsAndCloses(s, e, i);
    }
    assert |after| <= |before| + 1 && (|after| > |before| ==> after[|before|].loginAt == e.now);
  }

  lemma HistoryAfterOne(s: State, e: Event)
    requires OneOpenRowPerDevice(s.db.history)
    ensures OneOpenRowPerDevice(Apply(s, e).db.history)
  {
  }

  lemma {:induction false} HistoryInvariant(events: seq<Event>)
    ensures OneOpenRowPerDevice(Exec(EMPTY, events).db.history)
  {
    if events != [] {
      HistoryInvariant(events[..|events| - 1]);
      HistoryAfterOne(Exec(EMPTY, events[..|events| - 1]), events[|events| - 1]);
    }
  }

  // ---------------------------------------------------------------------------------------------------------------
  // Scoped sign-out
  // ---------------------------------------------------------------------------------------------------------------

  /** Signing out a device ends every session that ever had a token on it, whatever label its latest token carries, and
      leaves the device inactive. */
  lemma DeviceSignOutEndsEverySessionOnIt(events: seq<Event>, e: Event, family: Family)
    requires e.op.LogoutDevice? && DeviceKey(e.op.owner, e.op.on) in Exec(EMPTY, events).db.devices
    requires exists t :: t in Exec(EMPTY, events).db.tokens && t.owner == e.op.owner && t.device == Some(e.op.on)
                         && t.family == family
    ensures var after := Apply(Exec(EMPTY, events), e).db;
            && (forall t | t in after.tokens && t.family == family :: !t.Unrevoked())
            && !DeviceActive(after, e.op.owner, e.op.on)
  {
    var s := Exec(EMPTY, events);
    var owner, device := e.op.owner, e.op.on;
    var scope := Only(FamiliesOnDevice(s.db.tokens, owner, device));
    RunIsLinear(events);
    FamiliesOnDeviceAreAll(s.db.tokens, owner, device, family);
    ScopeLeavesNothing(s.db.tokens, owner, scope, e.now, family);
    var after := Apply(s, e).db;
    if device in LiveDevices(after.tokens, owner, e.now) {
      var t :| t in after.tokens && t.owner == owner && t.device == Some(device) && t.Live(e.now);
      var u := RowsComeFromBefore(s, e, t);
      FamiliesOnDeviceAreAll(s.db.tokens, owner, device, t.family);
      ScopeLeavesNothing(s.db.tokens, owner, scope, e.now, t.family);
      assert false;
    }
  }

  /** Signing out the others leaves the principal exactly the sessions kept, whose own tokens are untouched and whose
      live devices stay as they were. */
  lemma SigningOutOthersKeepsOnlyThisSession(s: State, e: Event, sid: Family)
    requires e.op.LogoutAll? && e.op.except == [sid]
    ensures var before, after, owner := s.db, Apply(s, e).db, e.op.owner;
            && |after.tokens| == |before.tokens|
            && (forall t | t in after.tokens && t.owner == owner && t.Unrevoked() :: t.family == sid)
            && (forall i | 0 <= i < |before.tokens|
                           && (before.tokens[i].family == sid || before.tokens[i].owner != owner) ::
                  after.tokens[i] == before.tokens[i])
            && (forall t | t in before.tokens && t.owner == owner && t.family == sid && t.Live(e.now) && t.device.Some?
                           && DeviceKey(owner, t.device.value) in before.devices ::
                  DeviceKey(owner, t.device.value) in after.devices
                  && after.devices[DeviceKey(owner, t.device.value)]
                     == before.devices[DeviceKey(owner, t.device.value)])
            && OthersUntouched(before, after, owner)
            && NothingHalfEnded(after, owner, e.now)
  {
    var before, after, owner := s.db, Apply(s, e).db, e.op.owner;
    var scope := Except([sid]);
    RevocationContract(before, owner, scope, e.now);
    forall i | 0 <= i < |before.tokens|
      ensures after.tokens[i].owner == owner && after.tokens[i].Unrevoked() ==> after.tokens[i].family == sid
      ensures before.tokens[i].family == sid || before.tokens[i].owner != owner ==> after.tokens[i] == before.tokens[i]
    {
      RevokesExactlyTheScope(before.tokens, owner, scope, e.now, i);
    }
    forall t | t in before.tokens && t.owner == owner && t.family == sid && t.Live(e.now) && t.device.Some?
      ensures t.device.value in LiveDevices(after.tokens, owner, e.now)
    {
      var i :| 0 <= i < |before.tokens| && before.tokens[i] == t;
      assert after.tokens[i] == t && t in after.tokens;
    }
  }

  // ---------------------------------------------------------------------------------------------------------------
  // The Active Sessions list
  // ---------------------------------------------------------------------------------------------------------------

  /** The device rows `getDevices` lists. */
  function Listed(db: Tables, owner: Principal, now: int): set<DeviceKey> {
    set key | key in db.devices && key.owner == owner && db.devices[key].isActive
              && key.device in LiveDevices(db.tokens, owner, now) && db.devices[key].expiresAt > now
  }

  /** The devices of the live session that makes the request. */
  function CurrentDevices(tokens: seq<Token>, owner: Principal, sid: Family, now: int): set<Option<DeviceId>> {
    set t | t in tokens && t.owner == owner && t.family == sid && t.Live(now) :: t.device
  }

  function MarkedCurrent(db: Tables, owner: Principal, sid: Family, now: int): set<DeviceKey> {
    set key | key in Listed(db, owner, now) && Some(key.device) in CurrentDevices(db.tokens, owner, sid, now)
  }

  /** A session has one unrevoked token, so the list marks at most one row as the current device. */
  lemma AtMostOneCurrentDevice(events: seq<Event>, owner: Principal, sid: Family, now: int)
    ensures |MarkedCurrent(Exec(EMPTY, events).db, owner, sid, now)| <= 1
  {
    var db := Exec(EMPTY, events).db;
    RunIsLinear(events);
    var marked := MarkedCurrent(db, owner, sid, now);
    forall k, l | k in marked && l in marked ensures k == l {
      var t :| t in db.tokens && t.family == sid && t.Live(now) && t.device == Some(k.device);
      var u :| u in db.tokens && u.family == sid && u.Live(now) && u.device == Some(l.device);
      var i :| 0 <= i < |db.tokens| && db.tokens[i] == t;
      var j :| 0 <= j < |db.tokens| && db.tokens[j] == u;
      assert i == j;
    }
    AllEqualHasAtMostOne(marked);
  }

  /** In every reachable state the list has exactly the principal's devices that some live session is on and whose row
      has not passed its expiry. */
  lemma ListedExactly(events: seq<Event>, owner: Principal, key: DeviceKey, now: int)
    requires UpTo(events, now)
    ensures var db := Exec(EMPTY, events).db;
            var shown := key.owner == owner && HasLiveTokenOn(db.tokens, owner, Some(key.device), now)
                         && key in db.devices && now < db.devices[key].expiresAt;
            key in Listed(db, owner, now) <==> shown
  {
    hide Exec;
    DeviceInvariant(events, now);
    var db := Exec(EMPTY, events).db;
    if key.owner == owner && HasLiveTokenOn(db.tokens, owner, Some(key.device), now) {
      var t :| t in db.tokens && t.owner == owner && t.device == Some(key.device) && t.revokedAt.None?
               && now < t.expiresAt;
      assert DeviceActive(db, t.owner, t.device.value) && key == DeviceKey(owner, key.device);
      assert key.device in LiveDevices(db.tokens, owner, now);
    }
  }

  /** And marks as current exactly the one that the session making the request is live on, if it is listed at all. */
  lemma MarkedCurrentExactly(events: seq<Event>, owner: Principal, sid: Family, key: DeviceKey, now: int)
    requires UpTo(events, now)
    ensures var db := Exec(EMPTY, events).db;
            var here := exists t :: && t in db.tokens && t.owner == owner && t.family == sid && t.revokedAt.None?
                                    && t.device == Some(key.device) && now < t.expiresAt;
            var shown := key.owner == owner && key in db.devices && now < db.devices[key].expiresAt;
            key in MarkedCurrent(db, owner, sid, now) <==> shown && here
  {
    hide Exec, Listed;
    ListedExactly(events, owner, key, now);
    var db := Exec(EMPTY, events).db;
    if t :| t in db.tokens && t.owner == owner && t.family == sid && t.device == Some(key.device)
            && t.revokedAt.None? && now < t.expiresAt {
      assert HasLiveTokenOn(db.tokens, owner, Some(key.device), now);
      assert t.Live(now) && t.device in CurrentDevices(db.tokens, owner, sid, now);
    }
  }

  /** A live session on a device is in the list exactly when the device row, which mirrors the latest token issued on
      the device and not the longest-lived one, has not passed its expiry. */
  lemma LiveSessionListedIff(events: seq<Event>, t: Token, now: int)
    requires UpTo(events, now)
    requires t in Exec(EMPTY, events).db.tokens && t.Live(now) && t.device.Some?
    ensures var db, key := Exec(EMPTY, events).db, DeviceKey(t.owner, t.device.value);
            key in db.devices && (key in Listed(db, t.owner, now) <==> db.devices[key].expiresAt > now)
  {
    DeviceInvariant(events, now);
    assert DeviceActive(Exec(EMPTY, events).db, t.owner, t.device.value);
  }

  function OnDevice(owner: Principal, device: DeviceId, remember: bool, hash: Hash, now: int): Event {
    Event(Login(owner, Some(device), remember, hash, hash), now, Lifetimes(10, 100), true, true, {})
  }

  lemma AfterRememberedSignIn(owner: Principal, device: DeviceId)
    ensures var db := Apply(EMPTY, OnDevice(owner, device, true, 0, 0)).db;
            && db.tokens == [Token(0, owner, 0, Some(device), 100, None, true)]
            && db.devices.Keys == {DeviceKey(owner, device)}
  {
  }

  lemma AfterOrdinarySignIn(s: State, owner: Principal, device: DeviceId)
    requires s.db.tokens == [Token(0, owner, 0, Some(device), 100, None, true)]
    requires s.db.devices.Keys == {DeviceKey(owner, device)}
    ensures var db := Apply(s, OnDevice(owner, device, false, 1, 1)).db;
            && db.tokens == s.db.tokens + [Token(1, owner, 1, Some(device), 11, None, false)]
            && db.devices.Keys == {DeviceKey(owner, device)} && db.devices[DeviceKey(owner, device)].expiresAt == 11
  {
    assert !FamilyKnown(s.db.tokens, 1) && FindRow(s.db.tokens, 1).None?;
  }

  /** A remembered session drops out of the list, while it lives on, once a later ordinary sign-in on its device
      lapses. */
  lemma RememberedSessionVanishesFromTheList(owner: Principal, device: DeviceId, now: int)
    requires 11 < now < 100
    ensures var events := [OnDevice(owner, device, true, 0, 0), OnDevice(owner, device, false, 1, 1)];
            var s := Exec(EMPTY, events);
            UpTo(events, now) && IsLive(s, owner, 0, now, true) && Listed(s.db, owner, now) == {}
  {
    hide Apply;
    var first, second := OnDevice(owner, device, true, 0, 0), OnDevice(owner, device, false, 1, 1);
    assert [] + [first] == [first] && [first] + [second] == [first, second];
    ExecLast(EMPTY, [], first);
    ExecLast(EMPTY, [first], second);
    AfterRememberedSignIn(owner, device);
    AfterOrdinarySignIn(Exec(EMPTY, [first]), owner, device);
    var s := Exec(EMPTY, [first, second]);
    assert s.db.tokens[0] in s.db.tokens && s.db.tokens[0].Live(now);
  }

  // ---------------------------------------------------------------------------------------------------------------
  // Two edges
  // ---------------------------------------------------------------------------------------------------------------

  /** `refresh` and every other query disagree at one instant: a session that is not live can be brought back by a
      refresh, exactly at the expiry of its unrevoked token. */
  lemma RevivedOnlyAtTheExpiryInstant(s: State, e: Event)
    requires e.op.Refresh? && Issued(s, e).Some?
    requires e.lifetimes.For(Issued(s, e).value.rememberMe) > 0
    requires Linear(s.db.tokens)
    ensures var row := FindRow(s.db.tokens, e.op.presented).value;
            var issued := Issued(s, e).value;
            && FamilyLive(Apply(s, e).db.tokens, issued.owner, issued.family, e.now)
            && (!FamilyLive(s.db.tokens, issued.owner, issued.family, e.now) <==> s.db.tokens[row].expiresAt == e.now)
  {
    var row := FindRow(s.db.tokens, e.op.presented).value;
    var stored, issued := s.db.tokens[row], Issued(s, e).value;
    TokenTableStep(s, e);
    assert issued in Apply(s, e).db.tokens && issued.Live(e.now);
    assert stored in s.db.tokens;
    forall t | t in s.db.tokens && t.family == issued.family && t.Live(e.now) ensures t == stored {
      var i :| 0 <= i < |s.db.tokens| && s.db.tokens[i] == t;
    }
  }

  /** `UserService.remove` revokes tokens without `revokeUserSessions`: afterwards nothing is left half-ended exactly
      when the user had no active device and no open login-history row to begin with. */
  lemma RemovedUserIsHalfEndedIff(db: Tables, userId: nat, now: int)
    ensures var owner := Principal(Staff, userId);
            NothingHalfEnded(AfterRemoveUser(db, userId, now), owner, now)
            <==> (forall key | key in db.devices && key.owner == owner :: !db.devices[key].isActive)
                 && (forall row | row in db.history && row.owner == owner :: row.logoutAt.Some?)
  {
    var owner, after := Principal(Staff, userId), AfterRemoveUser(db, userId, now);
    forall t | t in after.tokens && t.owner == owner ensures !t.Unrevoked() {
      var i :| 0 <= i < |after.tokens| && after.tokens[i] == t;
      RevokesExactlyTheScope(db.tokens, owner, EVERYTHING, now, i);
    }
    assert LiveDevices(after.tokens, owner, now) == {};
    assert !LiveWithoutDevice(after.tokens, owner, now);
    assert forall device :: !Backed(after.tokens, owner, device, now);
  }

  // -- runs in which they are met

  /** One sign-in, refreshed at the very instant its token expires: no query called it live, and the refresh brings
      it back. */
  lemma RefreshAtTheExpiryInstantRevives(owner: Principal, life: nat)
    requires life > 0
    ensures var events := [Signed(owner, None, life)];
            var refresh := Event(Refresh(0, None, true, 1), life, Lifetimes(life, life), true, true, {});
            var s := Exec(EMPTY, events);
            && UpTo(events, life) && !FamilyLive(s.db.tokens, owner, 0, life)
            && FamilyLive(Apply(s, refresh).db.tokens, owner, 0, life)
  {
    AfterSigningIn(owner, None, life);
    var s := Exec(EMPTY, [Signed(owner, None, life)]);
    var refresh := Event(Refresh(0, None, true, 1), life, Lifetimes(life, life), true, true, {});
    assert FindRow(s.db.tokens, 0) == Some(0) && FindRow(s.db.tokens, 1).None?;
    var issued := Apply(s, refresh).db.tokens[1];
    assert issued in Apply(s, refresh).db.tokens && issued.Live(life);
  }

  /** A staff user who is signed in on a device and then removed keeps an active device. */
  lemma RemovedUserKeepsTheirDevice(userId: nat, device: DeviceId, life: nat, now: int)
    requires now >= 0
    ensures var owner := Principal(Staff, userId);
            var events := [Signed(owner, Some(device), life),
                           Event(RemoveUser(userId), now, Lifetimes(0, 0), true, true, {})];
            var s := Exec(EMPTY, events);
            UpTo(events, now) && DeviceActive(s.db, owner, device) && !NothingHalfEnded(s.db, owner, now)
  {
    var owner := Principal(Staff, userId);
    var first, second := Signed(owner, Some(device), life),
                         Event(RemoveUser(userId), now, Lifetimes(0, 0), true, true, {});
    AfterSigningIn(owner, Some(device), life);
    assert [first] + [second] == [first, second];
    ExecLast(EMPTY, [first], second);
    var s1, key := Exec(EMPTY, [first]), DeviceKey(owner, device);
    assert Exec(EMPTY, [first, second]).db == AfterRemoveUser(s1.db, userId, now);
    assert key in s1.db.devices && key.owner == owner && s1.db.devices[key].isActive;
    RemovedUserIsHalfEndedIff(s1.db, userId, now);
  }
}
