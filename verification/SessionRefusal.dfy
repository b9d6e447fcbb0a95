/** An ended session is refused everywhere, at once and for good; and how stale the liveness cache can be. */
module SessionRefusal {
  import opened Wrappers
  import opened SessionData
  import opened SessionRevocation
  import opened Redis
  import opened SessionOps
  import opened SessionTheorems

  /** The state before an event, at the instant of that event; or the final state at `now`. */
  predicate WasLiveAt(events: seq<Event>, j: nat, owner: Principal, sid: Family, at: int, now: int)
    requires j <= |events|
  {
    && at == (if j < |events| then events[j].now else now)
    && FamilyLive(Exec(EMPTY, events[..j]).db.tokens, owner, sid, at)
  }

  ghost predicate WasLiveDuring(events: seq<Event>, owner: Principal, sid: Family, from: int, now: int) {
    exists j: nat, at :: j <= |events| && from <= at <= now && WasLiveAt(events, j, owner, sid, at, now)
  }

  lemma PrefixOfPrefix(events: seq<Event>, e: Event, j: nat)
    requires j <= |events|
    ensures (events + [e])[..j] == events[..j] && (events + [e])[..|events|] == events
  {
  }

  /** Some event of the run happened at `at`, with the session live just then. */
  ghost predicate LiveAtAnEvent(events: seq<Event>, owner: Principal, sid: Family, at: int) {
    exists j: nat :: j < |events| && WasLiveAt(events, j, owner, sid, at, at)
  }

  predicate OwnsSession(s: State, owner: Principal, sid: Family) {
    exists t :: t in s.db.tokens && t.family == sid && t.owner == owner
  }

  /** What stands behind a cached marker: a live token at the instant it was set, and a principal that owns the
      session. */
  ghost predicate MarkerBacked(events: seq<Event>, key: Key)
    requires key in Exec(EMPTY, events).redis && key.SessionLive?
  {
    var s := Exec(EMPTY, events);
    && OwnsSession(s, key.owner, key.sid)
    && s.redis[key].expiresAt.Some?
    && LiveAtAnEvent(events, key.owner, key.sid, s.redis[key].expiresAt.value - 5000)
  }

  /** A cached marker after an operation was there before with the same expiry, or was just set from the database. */
  lemma MarkerOrigin(s: State, e: Event, key: Key)
    requires key in Apply(s, e).redis && key.SessionLive?
    ensures || (key in s.redis && Apply(s, e).redis[key] == s.redis[key])
            || (Apply(s, e).redis[key].expiresAt == Some(e.now + LIVENESS_TTL)
                && FamilyLive(s.db.tokens, key.owner, key.sid, e.now))
  {
  }

  lemma OwnershipStays(s: State, e: Event, owner: Principal, sid: Family)
    requires OwnsSession(s, owner, sid)
    ensures OwnsSession(Apply(s, e), owner, sid)
  {
    var u :| u in s.db.tokens && u.family == sid && u.owner == owner;
    var t := RowsStay(s, e, u);
  }

  lemma LiveAtAnEventStays(events: seq<Event>, e: Event, owner: Principal, sid: Family, at: int)
    requires LiveAtAnEvent(events, owner, sid, at)
    ensures LiveAtAnEvent(events + [e], owner, sid, at)
  {
    var j: nat :| j < |events| && WasLiveAt(events, j, owner, sid, at, at);
    PrefixOfPrefix(events, e, j);
    assert WasLiveAt(events + [e], j, owner, sid, at, at);
  }

  lemma LiveAtTheLastEvent(events: seq<Event>, e: Event, owner: Principal, sid: Family)
    requires FamilyLive(Exec(EMPTY, events).db.tokens, owner, sid, e.now)
    ensures LiveAtAnEvent(events + [e], owner, sid, e.now)
  {
    PrefixOfPrefix(events, e, |events|);
    assert events[..|events|] == events;
    assert WasLiveAt(events + [e], |events|, owner, sid, e.now, e.now);
  }

  lemma ExecLast(s: State, events: seq<Event>, e: Event)
    ensures Exec(s, events + [e]) == Apply(Exec(s, events), e)
  {
    assert (events + [e])[..|events|] == events;
  }

  lemma {:induction false} MarkersAreBacked(events: seq<Event>, key: Key)
    requires key in Exec(EMPTY, events).redis && key.SessionLive?
    ensures MarkerBacked(events, key)
    decreases |events|
  {
    if events != [] {
      var before, last := events[..|events| - 1], events[|events| - 1];
      assert events == before + [last];
      var s := Exec(EMPTY, before);
      ExecLast(EMPTY, before, last);
      MarkerOrigin(s, last, key);
      if key in s.redis && Exec(EMPTY, events).redis[key] == s.redis[key] {
        MarkersAreBacked(before, key);
        OwnershipStays(s, last, key.owner, key.sid);
        LiveAtAnEventStays(before, last, key.owner, key.sid, s.redis[key].expiresAt.value - LIVENESS_TTL);
      } else {
        LiveAtTheLastEvent(before, last, key.owner, key.sid);
        assert OwnsSession(s, key.owner, key.sid);
        OwnershipStays(s, last, key.owner, key.sid);
      }
    }
  }

  /** Bounded staleness. Whatever gets, sets and deletes Redis lost on the way, a session the check calls live had a
      live token at some instant of the last five seconds; and a session with a live token is never called ended. */
  lemma LivenessIsAtMostFiveSecondsStale(events: seq<Event>, owner: Principal, sid: Family, now: int, getReached: bool)
    requires UpTo(events, now)
    ensures IsLive(Exec(EMPTY, events), owner, sid, now, getReached)
            ==> WasLiveDuring(events, owner, sid, now - 5000, now)
    ensures FamilyLive(Exec(EMPTY, events).db.tokens, owner, sid, now)
            ==> IsLive(Exec(EMPTY, events), owner, sid, now, getReached)
  {
    var s := Exec(EMPTY, events);
    if FamilyLive(s.db.tokens, owner, sid, now) {
      assert events[..|events|] == events;
      assert WasLiveAt(events, |events|, owner, sid, now, now);
    } else if IsLive(s, owner, sid, now, getReached) {
      var key := SessionLive(owner, sid);
      MarkersAreBacked(events, key);
      var at := s.redis[key].expiresAt.value - LIVENESS_TTL;
      var j: nat :| j < |events| && WasLiveAt(events, j, owner, sid, at, at);
      assert events[j] in events;
      assert WasLiveAt(events, j, owner, sid, at, now);
    }
  }

  // ---------------------------------------------------------------------------------------------------------------
  // End-to-end refusal
  // ---------------------------------------------------------------------------------------------------------------

  /** A session that exists, has no unrevoked token, and is vouched for by no unexpired marker. */
  ghost predicate Gone(s: State, family: Family, now: int) {
    && FamilyKnown(s.db.tokens, family)
    && (forall t | t in s.db.tokens && t.family == family :: !t.Unrevoked())
    && (forall owner :: !Holds(s.redis, SessionLive(owner, family), now))
  }

  lemma GoneAfterOne(s: State, e: Event, family: Family, now: int)
    requires Gone(s, family, now) && now <= e.now
    ensures Gone(Apply(s, e), family, e.now)
  {
    var s' := Apply(s, e);
    TokenTableStep(s, e);
    var u :| u in s.db.tokens && u.family == family;
    var kept := RowsStay(s, e, u);
    forall t | t in s'.db.tokens && t.family == family ensures !t.Unrevoked() {
      if Issued(s, e) != Some(t) {
        var v := RowsComeFromBefore(s, e, t);
      }
    }
    forall owner ensures !Holds(s'.redis, SessionLive(owner, family), e.now) {
      if SessionLive(owner, family) in s'.redis {
        MarkerOrigin(s, e, SessionLive(owner, family));
        assert !Holds(s.redis, SessionLive(owner, family), now);
      }
    }
  }

  lemma {:induction false} GoneForGood(s: State, events: seq<Event>, family: Family, now: int, later: int)
    requires Gone(s, family, now) && now <= later
    requires UpTo(events, later) && forall e | e in events :: now <= e.now
    ensures Gone(Exec(s, events), family, later)
    decreases |events|
  {
    if events != [] {
      var before, last := events[..|events| - 1], events[|events| - 1];
      assert last in events;
      GoneForGood(s, before, family, now, last.now);
      GoneAfterOne(Exec(s, before), last, family, last.now);
      assert Gone(Exec(s, events), family, last.now);
    }
  }

  /** Ending a family's only principal's sessions leaves no unrevoked token in it. */
  lemma ScopeLeavesNothing(tokens: seq<Token>, owner: Principal, scope: Scope, now: int, family: Family)
    requires Linear(tokens) && scope.Covers(family)
    requires exists t :: t in tokens && t.owner == owner && t.family == family
    ensures forall t | t in RevokeTokens(tokens, owner, scope, now) && t.family == family :: !t.Unrevoked()
  {
    var after := RevokeTokens(tokens, owner, scope, now);
    var t :| t in tokens && t.owner == owner && t.family == family;
    var i :| 0 <= i < |tokens| && tokens[i] == t;
    forall j | 0 <= j < |after| && after[j].family == family ensures !after[j].Unrevoked() {
      RevokesExactlyTheScope(tokens, owner, scope, now, j);
      assert tokens[j].owner == owner;
    }
  }

  /** One operation that ends a live session and whose delete reaches Redis leaves it gone. */
  lemma EndingLeavesItGone(events: seq<Event>, e: Event, family: Family)
    requires UpTo(events, e.now) && DrawsFresh(Exec(EMPTY, events).db, e.op)
    requires var s := Exec(EMPTY, events);
             Ends(s.db, e).Some? && family !in e.lost
             && family in LiveFamilies(s.db.tokens, Ends(s.db, e).value.0, Ends(s.db, e).value.1, e.now)
    ensures Gone(Apply(Exec(EMPTY, events), e), family, e.now)
  {
    var s := Exec(EMPTY, events);
    var (owner, scope) := Ends(s.db, e).value;
    var s' := Apply(s, e);
    RunIsLinear(events);
    var u :| u in s.db.tokens && u.owner == owner && u.Live(e.now) && scope.Covers(u.family) && u.family == family;
    var kept := RowsStay(s, e, u);
    ScopeLeavesNothing(s.db.tokens, owner, scope, e.now, family);
    forall other ensures !Holds(s'.redis, SessionLive(other, family), e.now) {
      if SessionLive(other, family) in s.redis {
        MarkersAreBacked(events, SessionLive(other, family));
        var t :| t in s.db.tokens && t.family == family && t.owner == other;
        assert other == owner;
        assert family in set f | f in LiveFamilies(s.db.tokens, owner, scope, e.now) && f !in e.lost;
      }
    }
  }

  /** No refresh of the session is accepted and no request with its `sid`, whoever it claims to be for. */
  ghost predicate RefusedEverywhere(s: State, family: Family, now: int) {
    && (forall owner, getReached :: !IsLive(s, owner, family, now, getReached))
    && (forall presented, claimed, identityOk, hash, lifetimes ::
          var row := FindRow(s.db.tokens, presented);
          row.Some? && s.db.tokens[row.value].family == family
          ==> RefreshVerdict(s.db, presented, claimed, identityOk, hash, now, lifetimes) == AlreadyUsed)
  }

  lemma GoneIsRefused(s: State, family: Family, now: int)
    requires Gone(s, family, now)
    ensures RefusedEverywhere(s, family, now)
  {
    forall owner, getReached ensures !IsLive(s, owner, family, now, getReached) {
      assert !Holds(s.redis, SessionLive(owner, family), now);
    }
  }

  /** End-to-end refusal: for every session that a sign-out, a device revoke, a sign-out of the others, an admin
      action or a replayed token ends while it is live, with its cache delete reaching Redis, every later refresh and
      every later request is refused, from that instant on and through any run of later operations and Redis faults. */
  lemma EndedSessionIsRefusedForever(before: seq<Event>, e: Event, after: seq<Event>, family: Family, now: int)
    requires UpTo(before, e.now) && DrawsFresh(Exec(EMPTY, before).db, e.op)
    requires var s := Exec(EMPTY, before);
             Ends(s.db, e).Some? && family !in e.lost
             && family in LiveFamilies(s.db.tokens, Ends(s.db, e).value.0, Ends(s.db, e).value.1, e.now)
    requires e.now <= now && UpTo(after, now) && forall a | a in after :: e.now <= a.now
    ensures RefusedEverywhere(Exec(Apply(Exec(EMPTY, before), e), after), family, now)
  {
    EndingLeavesItGone(before, e, family);
    GoneForGood(Apply(Exec(EMPTY, before), e), after, family, e.now, now);
    GoneIsRefused(Exec(Apply(Exec(EMPTY, before), e), after), family, now);
  }

  /** Presenting a token that was already rotated or revoked ends its whole session for the rest of the run. */
  lemma ReplayEndsTheSession(before: seq<Event>, e: Event, after: seq<Event>, row: nat, now: int)
    requires var s := Exec(EMPTY, before);
             row < |s.db.tokens| && e.op.Refresh? && e.op.presented == s.db.tokens[row].hash
             && !s.db.tokens[row].Unrevoked() && DrawsFresh(s.db, e.op)
    requires e.now <= now && UpTo(after, now) && forall a | a in after :: e.now <= a.now
    ensures Dead(Exec(Apply(Exec(EMPTY, before), e), after), Exec(EMPTY, before).db.tokens[row].family, now)
  {
    var s := Exec(EMPTY, before);
    RunHashesUnique(before);
    RunIsLinear(before);
    var stored := s.db.tokens[row];
    assert stored in s.db.tokens && FindRow(s.db.tokens, stored.hash) == Some(row);
    ScopeLeavesNothing(s.db.tokens, stored.owner, Only([stored.family]), e.now, stored.family);
    var kept := RowsStay(s, e, stored);
    assert Dead(Apply(s, e), stored.family, e.now);
    DeadStaysDead(Apply(s, e), after, stored.family, e.now, now);
  }

  lemma {:induction false} RunHashesUnique(events: seq<Event>)
    ensures HashesUnique(Exec(EMPTY, events).db.tokens)
  {
    if events != [] {
      RunHashesUnique(events[..|events| - 1]);
      HashesStayUnique(Exec(EMPTY, events[..|events| - 1]), events[|events| - 1]);
    }
  }

  // ---------------------------------------------------------------------------------------------------------------
  // Where the refusal stops
  // ---------------------------------------------------------------------------------------------------------------

  /** `endSessions` forgets only sessions that are live at that instant. A session in scope that has just lapsed
      keeps its marker, so after its sign-out a request is still let in exactly when the session was not live and a
      marker still stands. */
  lemma SignedOutYetAcceptedIff(events: seq<Event>, owner: Principal, scope: Scope, family: Family, now: int)
    requires UpTo(events, now) && scope.Covers(family)
    requires exists t :: t in Exec(EMPTY, events).db.tokens && t.owner == owner && t.family == family
    ensures var s := Exec(EMPTY, events);
            IsLive(EndSessions(s, owner, scope, now, {}), owner, family, now, true)
            <==> !FamilyLive(s.db.tokens, owner, family, now) && Holds(s.redis, SessionLive(owner, family), now)
  {
    var s := Exec(EMPTY, events);
    var ended := EndSessions(s, owner, scope, now, {});
    RunIsLinear(events);
    ScopeLeavesNothing(s.db.tokens, owner, scope, now, family);
    assert !FamilyLive(ended.db.tokens, owner, family, now);
    var families := LiveFamilies(s.db.tokens, owner, scope, now);
    if FamilyLive(s.db.tokens, owner, family, now) {
      assert scope.only != Some([]);
      assert family in families && family in set f | f in families && f !in {};
    } else {
      assert family !in families;
    }
  }

  function Signed(owner: Principal, device: Option<DeviceId>, life: nat): Event {
    Event(Login(owner, device, false, 0, 0), 0, Lifetimes(life, life), true, true, {})
  }

  function Checked(owner: Principal, now: int): Event {
    Event(CheckLive(owner, 0), now, Lifetimes(0, 0), true, true, {})
  }

  function SignedOut(owner: Principal, now: int): Event {
    Event(LogoutAll(owner, []), now, Lifetimes(0, 0), true, true, {})
  }

  lemma SigningInFirst(s: State, owner: Principal, device: Option<DeviceId>, life: nat)
    requires s.db.tokens == []
    ensures var after := Apply(s, Signed(owner, device, life));
            && after.db.tokens == [Token(0, owner, 0, device, life, None, false)] && after.redis == s.redis
            && (device.Some? ==> DeviceKey(owner, device.value) in after.db.devices
                                 && after.db.devices[DeviceKey(owner, device.value)].isActive)
  {
    assert FindRow(s.db.tokens, 0).None? && !FamilyKnown(s.db.tokens, 0);
  }

  lemma AfterSigningIn(owner: Principal, device: Option<DeviceId>, life: nat)
    ensures var s := Exec(EMPTY, [Signed(owner, device, life)]);
            && s.db.tokens == [Token(0, owner, 0, device, life, None, false)] && s.redis == map[]
            && (device.Some? ==> DeviceKey(owner, device.value) in s.db.devices
                                 && s.db.devices[DeviceKey(owner, device.value)].isActive)
  {
    hide Apply;
    assert [] + [Signed(owner, device, life)] == [Signed(owner, device, life)];
    ExecLast(EMPTY, [], Signed(owner, device, life));
    SigningInFirst(EMPTY, owner, device, life);
  }

  /** The run in which that happens: a request caches the answer just before the session's token runs out, the
      principal signs out everywhere just after, with every delete reaching Redis, and the next request is accepted. */
  lemma LapsedSessionOutlivesItsSignOut(owner: Principal, life: nat, checked: int, out: int, now: int)
    requires 0 <= checked < life <= out <= now < checked + 5000
    ensures var events := [Signed(owner, None, life), Checked(owner, checked), SignedOut(owner, out)];
            && UpTo(events, now) && IsLive(Exec(EMPTY, events), owner, 0, now, true)
            && forall t | t in Exec(EMPTY, events).db.tokens :: !t.Unrevoked()
  {
    hide Apply;
    var first, second, third := Signed(owner, None, life), Checked(owner, checked), SignedOut(owner, out);
    AfterSigningIn(owner, None, life);
    var s1 := Exec(EMPTY, [first]);
    assert s1.db.tokens[0].Live(checked);
    CheckingALiveSession(s1, owner, checked);
    assert [first] + [second] == [first, second] && [first, second] + [third] == [first, second, third];
    ExecLast(EMPTY, [first], second);
    ExecLast(EMPTY, [first, second], third);
    var s2 := Exec(EMPTY, [first, second]);
    assert s2 == Apply(s1, second);
    assert Holds(s2.redis, SessionLive(owner, 0), now);
    SigningOutALapsedSession(s2, owner, out);
  }

  lemma CheckingALiveSession(s: State, owner: Principal, now: int)
    requires FamilyLive(s.db.tokens, owner, 0, now) && s.redis == map[]
    ensures Apply(s, Checked(owner, now))
         == s.(redis := map[SessionLive(owner, 0) := Entry(LIVE_MARKER, Some(now + LIVENESS_TTL))])
  {
  }

  lemma SigningOutALapsedSession(s: State, owner: Principal, out: int)
    requires forall t | t in s.db.tokens :: t.owner == owner && t.expiresAt <= out
    ensures Apply(s, SignedOut(owner, out)).redis == s.redis
    ensures forall t | t in Apply(s, SignedOut(owner, out)).db.tokens :: !t.Unrevoked()
  {
    assert LiveFamilies(s.db.tokens, owner, Except([]), out) == {};
  }
}
