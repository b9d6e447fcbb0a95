/** Step level of refusal. `isLive` reads the database and sets its marker in two steps, `refresh` checks, updates and
    inserts in three, `endSessions` finds the live sessions, revokes and forgets in three. They interleave with each
    other and with every other service call, under one clock that never goes back. */
module LivenessRace {
  import opened Wrappers
  import opened SessionData
  import opened SessionRevocation
  import opened Redis
  import opened SessionOps
  import opened SessionTheorems
  import opened SessionRefusal
  import C = SessionCalls
  import R = RotationProtocol

  /** A liveness check whose SELECT found a live token and whose SET is still to come. */
  datatype Lookup = Lookup(owner: Principal, sid: Family)

  /** An `endSessions` under way: the live sessions it found, and whether its transaction has committed. */
  datatype Ending = Ending(owner: Principal, scope: Scope, families: set<Family>, committed: bool)

  /** The state, the latest instant, and the calls under way by request. */
  datatype World = World(
    s: State,
    clock: int,
    lookups: map<nat, Lookup>,
    flights: map<nat, R.Flight>,
    endings: map<nat, Ending>)

  function Beginning(clock: int): World { World(EMPTY, clock, map[], map[], map[]) }

  datatype Step =
    | Operation(e: Event)  // any other call, or one of these three run without interruption
    | Select(request: nat, owner: Principal, sid: Family, now: int)
    | Mark(request: nat, reached: bool, now: int)
    | Check(request: nat, row: nat, claimed: Option<DeviceId>, now: int)
    | Flip(request: nat, now: int)
    | Insert(request: nat, hash: Hash, lifetimes: Lifetimes, now: int)
    | Abandon(request: nat, now: int)
    | Find(request: nat, owner: Principal, scope: Scope, now: int)
    | Commit(request: nat, now: int)
    | Drop(request: nat, lost: set<Family>, now: int)
  {
    function Instant(): int { if Operation? then e.now else now }
  }

  predicate Enabled(w: World, step: Step) {
    && w.clock <= step.Instant()
    && match step
       case Operation(_) => true
       case Select(request, owner, sid, now) => request !in w.lookups && FamilyLive(w.s.db.tokens, owner, sid, now)
       case Mark(request, _, _) => request in w.lookups
       case Check(request, row, claimed, now) =>
         && request !in w.flights
         && R.PassesChecks(w.s.db.tokens, row, claimed, now)
         && !DeviceSignedOut(w.s.db.devices, w.s.db.tokens[row].owner, R.CarriedDevice(w.s.db.tokens[row], claimed))
       case Flip(request, _) =>
         request in w.flights && w.flights[request].Checked? && w.flights[request].row < |w.s.db.tokens|
       case Insert(request, hash, _, _) =>
         && request in w.flights && w.flights[request].Flipped? && w.flights[request].row < |w.s.db.tokens|
         && R.HashFree(w.s.db.tokens, hash)
       case Abandon(request, _) => request in w.flights
       case Find(request, _, _, _) => request !in w.endings
       case Commit(request, _) => request in w.endings && !w.endings[request].committed
       case Drop(request, _, _) => request in w.endings && w.endings[request].committed
  }

  /** One step, but for the clock. */
  function Effect(w: World, step: Step): World
    requires Enabled(w, step)
  {
    match step
    case Operation(e) => w.(s := Apply(w.s, e))
    case Select(request, owner, sid, _) => w.(lookups := w.lookups[request := Lookup(owner, sid)])
    case Mark(request, reached, now) =>
      var key := SessionLive(w.lookups[request].owner, w.lookups[request].sid);
      var redis := if reached then SetWithTtl(w.s.redis, key, LIVE_MARKER, LIVENESS_TTL, now) else w.s.redis;
      w.(s := w.s.(redis := redis), lookups := w.lookups - {request})
    case Check(request, row, claimed, _) =>
      w.(flights := w.flights[request := R.Checked(row, R.CarriedDevice(w.s.db.tokens[row], claimed))])
    case Flip(request, now) =>
      var flight := w.flights[request];
      if w.s.db.tokens[flight.row].Unrevoked()
      then w.(s := w.s.(db := FlipRow(w.s.db, flight.row, now)),
              flights := w.flights[request := R.Flipped(flight.row, flight.device)])
      else w.(flights := w.flights - {request})
    case Insert(request, hash, lifetimes, now) =>
      w.(s := w.s.(db := IssueToken(w.s.db, SuccessorOf(w, request, hash, lifetimes, now), now, false)),
      flights := w.flights - {request})
    case Abandon(request, _) => w.(flights := w.flights - {request})
    case Find(request, owner, scope, now) =>
      w.(endings := w.endings[request := Ending(owner, scope, LiveFamilies(w.s.db.tokens, owner, scope, now), false)])
    case Commit(request, now) =>
      var ending := w.endings[request];
      w.(s := w.s.(db := RevokeUserSessions(w.s.db, ending.owner, ending.scope, now)),
      endings := w.endings[request := ending.(committed := true)])
    case Drop(request, lost, _) =>
      var ending := w.endings[request];
      w.(s := w.s.(redis := Forget(w.s.redis, ending.owner, ending.families, lost)), endings := w.endings - {request})
  }

  function SuccessorOf(w: World, request: nat, hash: Hash, lifetimes: Lifetimes, now: int): Token
    requires request in w.flights && w.flights[request].row < |w.s.db.tokens|
  {
    var stored := w.s.db.tokens[w.flights[request].row];
    R.Successor(stored, w.flights[request].device, hash, now + lifetimes.For(stored.rememberMe))
  }

  /** A step that is not enabled leaves the world as it is. */
  function Take(w: World, step: Step): World {
    if Enabled(w, step) then Effect(w, step).(clock := step.Instant()) else w
  }

  function Run(w: World, steps: seq<Step>): World {
    if steps == [] then w else Take(Run(w, steps[..|steps| - 1]), steps[|steps| - 1])
  }

  // ---------------------------------------------------------------------------------------------------------------
  // Taken without interruption the steps are the calls of the operation level
  // ---------------------------------------------------------------------------------------------------------------

  lemma EndingInARow(w: World, request: nat, owner: Principal, scope: Scope, lost: set<Family>, now: int)
    requires request !in w.endings && w.clock <= now
    ensures Take(Take(Take(w, Find(request, owner, scope, now)), Commit(request, now)), Drop(request, lost, now)).s
         == EndSessions(w.s, owner, scope, now, lost)
  {
  }

  lemma CheckingInARow(w: World, request: nat, owner: Principal, sid: Family, reached: bool, now: int)
    requires request !in w.lookups && w.clock <= now && !Holds(w.s.redis, SessionLive(owner, sid), now)
    ensures Take(Take(w, Select(request, owner, sid, now)), Mark(request, reached, now)).s
         == AfterIsLive(w.s, owner, sid, now, true, reached)
  {
  }

  lemma CheckingAndFlippingInARow(w: World, request: nat, row: nat, claimed: Option<DeviceId>, now: int)
    requires request !in w.flights && Enabled(w, Check(request, row, claimed, now))
    ensures Take(Take(w, Check(request, row, claimed, now)), Flip(request, now))
         == var flight := R.Flipped(row, R.CarriedDevice(w.s.db.tokens[row], claimed));
            w.(s := w.s.(db := FlipRow(w.s.db, row, now)), clock := now, flights := w.flights[request := flight])
  {
    var checked := Take(w, Check(request, row, claimed, now));
    assert checked.s == w.s && checked.clock == now;
    assert checked.flights[request := R.Flipped(row, R.CarriedDevice(w.s.db.tokens[row], claimed))]
        == w.flights[request := R.Flipped(row, R.CarriedDevice(w.s.db.tokens[row], claimed))];
  }

  lemma RefreshPassesTheChecks(w: World, request: nat, e: Event)
    requires request !in w.flights && w.clock <= e.now && e.op.Refresh?
    requires RefreshVerdict(w.s.db, e.op.presented, e.op.claimed, true, e.op.hash, e.now, e.lifetimes).Rotated?
    ensures FindRow(w.s.db.tokens, e.op.presented).Some?
    ensures Enabled(w, Check(request, FindRow(w.s.db.tokens, e.op.presented).value, e.op.claimed, e.now))
  {
  }

  /** A refresh that could be under way passes its checks exactly when the whole call, uninterrupted, would reach its
      UPDATE. */
  lemma CheckEnabledIff(w: World, request: nat, row: nat, e: Event)
    requires request !in w.flights && w.clock <= e.now && C.Presents(w.s, e, row)
    ensures Enabled(w, Check(request, row, e.op.claimed, e.now)) <==> C.Refreshable(w.s, e, row)
  {
  }

  lemma RefreshAtOnce(s: State, e: Event)
    requires e.op.Refresh? && DrawsFresh(s.db, e.op)
    requires RefreshVerdict(s.db, e.op.presented, e.op.claimed, true, e.op.hash, e.now, e.lifetimes).Rotated?
    ensures var row := FindRow(s.db.tokens, e.op.presented).value;
            var stored := s.db.tokens[row];
            var successor := R.Successor(stored, R.CarriedDevice(stored, e.op.claimed), e.op.hash,
                                         e.now + e.lifetimes.For(stored.rememberMe));
            var flipped := FlipRow(s.db, row, e.now);
            Apply(s, e) == s.(db := if e.op.identityOk then IssueToken(flipped, successor, e.now, false) else flipped)
  {
    hide IssueToken;
  }

  lemma RefreshingInARow(w: World, request: nat, e: Event)
    requires request !in w.flights && w.clock <= e.now && e.op.Refresh? && DrawsFresh(w.s.db, e.op)
    requires RefreshVerdict(w.s.db, e.op.presented, e.op.claimed, true, e.op.hash, e.now, e.lifetimes).Rotated?
    ensures var row := FindRow(w.s.db.tokens, e.op.presented).value;
            var flipped := Take(Take(w, Check(request, row, e.op.claimed, e.now)), Flip(request, e.now));
            var last := if e.op.identityOk then Insert(request, e.op.hash, e.lifetimes, e.now)
                        else Abandon(request, e.now);
            Take(flipped, last).s == Apply(w.s, e) && Take(flipped, last).flights == w.flights
  {
    var row := FindRow(w.s.db.tokens, e.op.presented).value;
    hide IssueToken, Apply, RefreshVerdict;
    RefreshPassesTheChecks(w, request, e);
    RefreshAtOnce(w.s, e);
    CheckingAndFlippingInARow(w, request, row, e.op.claimed, e.now);
    var flipped := Take(Take(w, Check(request, row, e.op.claimed, e.now)), Flip(request, e.now));
    assert R.HashFree(flipped.s.db.tokens, e.op.hash);
    assert flipped.flights - {request} == w.flights;
  }

  // ---------------------------------------------------------------------------------------------------------------
  // What every step keeps
  // ---------------------------------------------------------------------------------------------------------------

  /** Refreshes are of rows that exist, and endings found sessions their principal owns. */
  ghost predicate Ok(w: World) {
    && (forall r | r in w.flights :: w.flights[r].row < |w.s.db.tokens|)
    && (forall r, f | r in w.endings && f in w.endings[r].families :: OwnsSession(w.s, w.endings[r].owner, f))
  }

  /** Rows keep their place and everything but `revokedAt`, which is only ever set; at most one row is appended. */
  ghost predicate Grows(before: seq<Token>, after: seq<Token>) {
    && |before| <= |after| <= |before| + 1
    && forall i | 0 <= i < |before| ::
         && after[i].(revokedAt := before[i].revokedAt) == before[i]
         && (after[i].Unrevoked() ==> before[i].Unrevoked())
  }

  lemma OperationGrows(s: State, e: Event)
    ensures Grows(s.db.tokens, Apply(s, e).db.tokens)
  {
    hide Apply;
    TokenTableStep(s, e);
    var before, after := s.db.tokens, Apply(s, e).db.tokens;
    forall i | 0 <= i < |before|
      ensures after[i].(revokedAt := before[i].revokedAt) == before[i]
      ensures after[i].Unrevoked() ==> before[i].Unrevoked()
    {
      assert after[..|before|][i] == after[i];
    }
  }

  lemma RevocationGrows(db: Tables, owner: Principal, scope: Scope, now: int)
    ensures Grows(db.tokens, RevokeUserSessions(db, owner, scope, now).tokens)
  {
    forall i | 0 <= i < |db.tokens|
      ensures var t := RevokeTokens(db.tokens, owner, scope, now)[i];
              t.(revokedAt := db.tokens[i].revokedAt) == db.tokens[i] && (t.Unrevoked() ==> db.tokens[i].Unrevoked())
    {
      RevokesExactlyTheScope(db.tokens, owner, scope, now, i);
    }
  }

  lemma StepGrows(w: World, step: Step)
    ensures Grows(w.s.db.tokens, Take(w, step).s.db.tokens)
  {
    hide Apply, RevokeUserSessions;
    match step
    case Operation(e) => OperationGrows(w.s, e);
    case Commit(request, now) =>
      if Enabled(w, step) {
        RevocationGrows(w.s.db, w.endings[request].owner, w.endings[request].scope, now);
      }
    case _ =>
  }

  lemma GrowthKeepsOwnership(before: State, after: State, owner: Principal, sid: Family)
    requires Grows(before.db.tokens, after.db.tokens) && OwnsSession(before, owner, sid)
    ensures OwnsSession(after, owner, sid)
  {
    var t :| t in before.db.tokens && t.family == sid && t.owner == owner;
    var i :| 0 <= i < |before.db.tokens| && before.db.tokens[i] == t;
    assert after.db.tokens[i] in after.db.tokens;
  }

  lemma StepKeepsOk(w: World, step: Step)
    requires Ok(w)
    ensures Ok(Take(w, step))
  {
    hide Apply, RevokeUserSessions, OwnsSession, Grows;
    var w' := Take(w, step);
    StepGrows(w, step);
    assert |w.s.db.tokens| <= |w'.s.db.tokens| by {
      LongerByGrowth(w.s.db.tokens, w'.s.db.tokens);
    }
    forall r, f | r in w'.endings && f in w'.endings[r].families ensures OwnsSession(w'.s, w'.endings[r].owner, f) {
      if Enabled(w, step) && step.Find? && r == step.request {
        FoundSessionsAreOwned(w.s, step.owner, step.scope, step.now, f);
      } else {
        assert r in w.endings && w'.endings[r].families == w.endings[r].families;
        GrowthKeepsOwnership(w.s, w'.s, w.endings[r].owner, f);
      }
    }
  }

  lemma LongerByGrowth(before: seq<Token>, after: seq<Token>)
    requires Grows(before, after)
    ensures |before| <= |after|
  {
  }

  lemma FoundSessionsAreOwned(s: State, owner: Principal, scope: Scope, now: int, sid: Family)
    requires sid in LiveFamilies(s.db.tokens, owner, scope, now)
    ensures OwnsSession(s, owner, sid)
  {
  }

  lemma {:induction false} RunKeepsOk(start: int, steps: seq<Step>)
    ensures Ok(Run(Beginning(start), steps))
  {
    hide Take;
    if steps != [] {
      RunKeepsOk(start, steps[..|steps| - 1]);
      StepKeepsOk(Run(Beginning(start), steps[..|steps| - 1]), steps[|steps| - 1]);
    }
  }

  // ---------------------------------------------------------------------------------------------------------------
  // The three ways back
  // ---------------------------------------------------------------------------------------------------------------

  /** A check of the session is between its SELECT and its SET. */
  predicate LookupInTheGap(w: World, owner: Principal, sid: Family) {
    exists r :: r in w.lookups && w.lookups[r] == Lookup(owner, sid)
  }

  predicate Leads(w: World, flight: R.Flight, owner: Principal, sid: Family) {
    && flight.row < |w.s.db.tokens|
    && w.s.db.tokens[flight.row].owner == owner && w.s.db.tokens[flight.row].family == sid
    && (flight.Flipped? || w.s.db.tokens[flight.row].Unrevoked())
  }

  /** A refresh of the session is between its UPDATE and its INSERT, or past its checks with its token unrevoked. */
  predicate RefreshUnderWay(w: World, owner: Principal, sid: Family) {
    exists r :: r in w.flights && Leads(w, w.flights[r], owner, sid)
  }

  /** The session has a token a refresh would accept, an unrevoked one that has not passed its expiry. */
  predicate HasUsable(tokens: seq<Token>, owner: Principal, sid: Family, now: int) {
    exists t :: t in tokens && t.owner == owner && t.family == sid && t.Usable(now)
  }

  predicate WayBack(w: World, owner: Principal, sid: Family) {
    LookupInTheGap(w, owner, sid) || RefreshUnderWay(w, owner, sid) || HasUsable(w.s.db.tokens, owner, sid, w.clock)
  }

  /** The session exists, no marker vouches for it and no way leads back to it. */
  ghost predicate Quiet(w: World, owner: Principal, sid: Family) {
    && Ok(w) && OwnsSession(w.s, owner, sid)
    && SessionLive(owner, sid) !in w.s.redis
    && !WayBack(w, owner, sid)
  }

  // -- no step opens one

  lemma IssuedFromAUsableToken(s: State, e: Event)
    requires Issued(s, e).Some? && e.op.Refresh?
    ensures HasUsable(s.db.tokens, Issued(s, e).value.owner, Issued(s, e).value.family, e.now)
  {
    var stored := s.db.tokens[FindRow(s.db.tokens, e.op.presented).value];
    assert stored in s.db.tokens && stored.Usable(e.now);
  }

  lemma OperationLeavesItUnusable(s: State, e: Event, owner: Principal, sid: Family)
    requires OwnsSession(s, owner, sid) && !HasUsable(s.db.tokens, owner, sid, e.now)
    ensures !HasUsable(Apply(s, e).db.tokens, owner, sid, e.now)
    ensures SessionLive(owner, sid) !in s.redis ==> SessionLive(owner, sid) !in Apply(s, e).redis
  {
    hide Apply, Issued;
    if t :| t in Apply(s, e).db.tokens && t.owner == owner && t.family == sid && t.Usable(e.now) {
      if Issued(s, e) == Some(t) {
        TokenTableStep(s, e);
        IssuedElsewhere(s, e, owner, sid);
      } else {
        var u := RowsComeFromBefore(s, e, t);
      }
    }
    if SessionLive(owner, sid) in Apply(s, e).redis {
      MarkerOrigin(s, e, SessionLive(owner, sid));
    }
  }

  lemma IssuedElsewhere(s: State, e: Event, owner: Principal, sid: Family)
    requires OwnsSession(s, owner, sid) && !HasUsable(s.db.tokens, owner, sid, e.now) && Issued(s, e).Some?
    ensures Issued(s, e).value.owner != owner || Issued(s, e).value.family != sid
  {
    if e.op.Refresh? {
      IssuedFromAUsableToken(s, e);
    } else {
      TokenTableStep(s, e);
    }
  }

  /** A table that only revoked, or appended a token of another session, has no usable token it had not. */
  lemma GrowthLeavesItUnusable(
    before: seq<Token>, after: seq<Token>, owner: Principal, sid: Family, now: int, later: int)
    requires Grows(before, after) && !HasUsable(before, owner, sid, now) && now <= later
    requires |after| > |before| ==> after[|before|].owner != owner || after[|before|].family != sid
    ensures !HasUsable(after, owner, sid, later)
  {
    if t :| t in after && t.owner == owner && t.family == sid && t.Usable(later) {
      var i :| 0 <= i < |after| && after[i] == t;
      assert before[i] in before;
    }
  }

  lemma QuietTokensStay(w: World, step: Step, owner: Principal, sid: Family)
    requires Quiet(w, owner, sid) && Enabled(w, step)
    ensures !HasUsable(Take(w, step).s.db.tokens, owner, sid, step.Instant())
  {
    hide Apply, RevokeUserSessions, Grows;
    var before, after := w.s.db.tokens, Take(w, step).s.db.tokens;
    UnusableStays(before, owner, sid, w.clock, step.Instant());
    if step.Operation? {
      OperationLeavesItUnusable(w.s, step.e, owner, sid);
    } else {
      StepGrows(w, step);
      assert |after| > |before| ==> after[|before|].owner != owner || after[|before|].family != sid by {
        if step.Insert? {
          assert !Leads(w, w.flights[step.request], owner, sid);
        } else {
          OnlyInsertsAppend(w, step);
        }
      }
      GrowthLeavesItUnusable(before, after, owner, sid, w.clock, step.Instant());
    }
  }

  lemma OnlyInsertsAppend(w: World, step: Step)
    requires Enabled(w, step) && !step.Operation? && !step.Insert?
    ensures |Take(w, step).s.db.tokens| == |w.s.db.tokens|
  {
  }

  lemma UnusableStays(tokens: seq<Token>, owner: Principal, sid: Family, now: int, later: int)
    requires !HasUsable(tokens, owner, sid, now) && now <= later
    ensures !HasUsable(tokens, owner, sid, later)
  {
  }

  lemma LeadsOnlyFromBefore(w: World, w': World, flight: R.Flight, owner: Principal, sid: Family)
    requires Grows(w.s.db.tokens, w'.s.db.tokens) && flight.row < |w.s.db.tokens| && Leads(w', flight, owner, sid)
    ensures Leads(w, flight, owner, sid)
  {
  }

  lemma QuietFlightsStay(w: World, step: Step, owner: Principal, sid: Family)
    requires Quiet(w, owner, sid) && Enabled(w, step)
    ensures !RefreshUnderWay(Take(w, step), owner, sid)
  {
    hide Apply, RevokeUserSessions, Grows, Leads, HasUsable;
    var w' := Take(w, step);
    StepGrows(w, step);
    if r :| r in w'.flights && Leads(w', w'.flights[r], owner, sid) {
      if step.Check? && r == step.request {
        CheckedRowIsUsable(w, step, owner, sid);
      } else if step.Flip? && r == step.request {
        FlippedRowLed(w, step, owner, sid);
      } else {
        LeadsOnlyFromBefore(w, w', w.flights[r], owner, sid);
      }
    }
  }

  lemma CheckedRowIsUsable(w: World, step: Step, owner: Principal, sid: Family)
    requires Enabled(w, step) && step.Check? && Leads(Take(w, step), Take(w, step).flights[step.request], owner, sid)
    ensures HasUsable(w.s.db.tokens, owner, sid, w.clock)
  {
    assert w.s.db.tokens[step.row] in w.s.db.tokens;
  }

  lemma FlippedRowLed(w: World, step: Step, owner: Principal, sid: Family)
    requires Enabled(w, step) && step.Flip? && step.request in Take(w, step).flights
    requires Leads(Take(w, step), Take(w, step).flights[step.request], owner, sid)
    ensures Leads(w, w.flights[step.request], owner, sid)
  {
  }

  lemma QuietStays(w: World, step: Step, owner: Principal, sid: Family)
    requires Quiet(w, owner, sid)
    ensures Quiet(Take(w, step), owner, sid)
  {
    hide Apply, RevokeUserSessions, OwnsSession, HasUsable, RefreshUnderWay;
    if Enabled(w, step) {
      StepKeepsOk(w, step);
      StepGrows(w, step);
      GrowthKeepsOwnership(w.s, Take(w, step).s, owner, sid);
      QuietTokensStay(w, step, owner, sid);
      QuietFlightsStay(w, step, owner, sid);
      QuietCacheStays(w, step, owner, sid);
    }
  }

  lemma QuietCacheStays(w: World, step: Step, owner: Principal, sid: Family)
    requires Quiet(w, owner, sid) && Enabled(w, step)
    ensures SessionLive(owner, sid) !in Take(w, step).s.redis && !LookupInTheGap(Take(w, step), owner, sid)
  {
    hide Apply, RevokeUserSessions;
    if step.Operation? {
      UnusableStays(w.s.db.tokens, owner, sid, w.clock, step.e.now);
      OperationLeavesItUnusable(w.s, step.e, owner, sid);
    }
  }

  lemma {:induction false} QuietForever(w: World, steps: seq<Step>, owner: Principal, sid: Family)
    requires Quiet(w, owner, sid)
    ensures Quiet(Run(w, steps), owner, sid)
  {
    hide Quiet, Take;
    if steps != [] {
      QuietForever(w, steps[..|steps| - 1], owner, sid);
      QuietStays(Run(w, steps[..|steps| - 1]), steps[|steps| - 1], owner, sid);
    }
  }

  // ---------------------------------------------------------------------------------------------------------------
  // When an ended session is refused for good
  // ---------------------------------------------------------------------------------------------------------------

  predicate AcceptedAfter(w: World, steps: seq<Step>, owner: Principal, sid: Family, now: int) {
    Run(w, steps).clock <= now && IsLive(Run(w, steps).s, owner, sid, now, true)
  }

  /** Whatever happens from here on, no request with this `sid` is accepted, now or later. */
  ghost predicate RefusedForGood(w: World, owner: Principal, sid: Family) {
    forall steps: seq<Step>, now: int :: !AcceptedAfter(w, steps, owner, sid, now)
  }

  lemma QuietIsRefusedForGood(w: World, owner: Principal, sid: Family)
    requires Quiet(w, owner, sid)
    ensures RefusedForGood(w, owner, sid)
  {
    hide Run;
    forall steps: seq<Step>, now: int ensures !AcceptedAfter(w, steps, owner, sid, now) {
      QuietForever(w, steps, owner, sid);
    }
  }

  lemma {:induction false} RunFrom(w: World, step: Step, steps: seq<Step>)
    ensures Run(w, [step] + steps) == Run(Take(w, step), steps)
  {
    hide Take;
    if steps == [] {
      assert [step] + steps == [step] && [step][..0] == [];
    } else {
      var front := steps[..|steps| - 1];
      RunFrom(w, step, front);
      assert ([step] + steps)[..|steps|] == [step] + front;
    }
  }

  lemma AcceptedOneStepOn(w: World, step: Step, owner: Principal, sid: Family)
    requires !RefusedForGood(Take(w, step), owner, sid)
    ensures !RefusedForGood(w, owner, sid)
  {
    hide Run, Take;
    var steps: seq<Step>, now: int :| AcceptedAfter(Take(w, step), steps, owner, sid, now);
    RunFrom(w, step, steps);
    assert AcceptedAfter(w, [step] + steps, owner, sid, now);
  }

  lemma AcceptedNow(w: World, owner: Principal, sid: Family)
    requires IsLive(w.s, owner, sid, w.clock, true)
    ensures !RefusedForGood(w, owner, sid)
  {
    assert Run(w, []) == w;
    assert AcceptedAfter(w, [], owner, sid, w.clock);
  }

  /** A marker set after the session died lets it in for exactly the five seconds it lasts. */
  lemma LateMarkLetsInForFiveSeconds(w: World, request: nat, now: int, later: int)
    requires request in w.lookups && w.clock <= now <= later
    requires !FamilyLive(w.s.db.tokens, w.lookups[request].owner, w.lookups[request].sid, later)
    ensures var lookup := w.lookups[request];
            IsLive(Take(w, Mark(request, true, now)).s, lookup.owner, lookup.sid, later, true)
            <==> later < now + 5000
  {
  }

  lemma LookupLetsIn(w: World, owner: Principal, sid: Family)
    requires LookupInTheGap(w, owner, sid)
    ensures !RefusedForGood(w, owner, sid)
  {
    hide RefusedForGood;
    var r :| r in w.lookups && w.lookups[r] == Lookup(owner, sid);
    var step := Mark(r, true, w.clock);
    AcceptedNow(Take(w, step), owner, sid);
    AcceptedOneStepOn(w, step, owner, sid);
  }

  /** A successor inserted after the session was ended lets it in for the whole of its own lifetime. */
  lemma LateInsertLetsInForItsLifetime(w: World, request: nat, hash: Hash, lifetimes: Lifetimes, now: int, later: int)
    requires Enabled(w, Insert(request, hash, lifetimes, now)) && now <= later
    ensures var token := SuccessorOf(w, request, hash, lifetimes, now);
            later < token.expiresAt
            ==> IsLive(Take(w, Insert(request, hash, lifetimes, now)).s, token.owner, token.family, later, true)
  {
    var token := SuccessorOf(w, request, hash, lifetimes, now);
    assert token in Take(w, Insert(request, hash, lifetimes, now)).s.db.tokens;
  }

  lemma FlippedRefreshLetsIn(w: World, r: nat, owner: Principal, sid: Family)
    requires r in w.flights && w.flights[r].Flipped? && Leads(w, w.flights[r], owner, sid)
    ensures !RefusedForGood(w, owner, sid)
  {
    hide RefusedForGood, IsLive;
    var hash := R.FreeHashExists(w.s.db.tokens);
    var step := Insert(r, hash, Lifetimes(1, 1), w.clock);
    LateInsertLetsInForItsLifetime(w, r, hash, Lifetimes(1, 1), w.clock, w.clock);
    AcceptedNow(Take(w, step), owner, sid);
    AcceptedOneStepOn(w, step, owner, sid);
  }

  lemma RefreshLetsIn(w: World, owner: Principal, sid: Family)
    requires RefreshUnderWay(w, owner, sid)
    ensures !RefusedForGood(w, owner, sid)
  {
    hide RefusedForGood, IsLive;
    var r :| r in w.flights && Leads(w, w.flights[r], owner, sid);
    if w.flights[r].Flipped? {
      FlippedRefreshLetsIn(w, r, owner, sid);
    } else {
      var step := Flip(r, w.clock);
      FlippedRefreshLetsIn(Take(w, step), r, owner, sid);
      AcceptedOneStepOn(w, step, owner, sid);
    }
  }

  // -- a usable token can always be refreshed, if need be after a sign-in that brings its device back

  lemma CheckableLetsIn(w: World, row: nat, owner: Principal, sid: Family)
    requires row < |w.s.db.tokens| && w.s.db.tokens[row].Usable(w.clock)
    requires w.s.db.tokens[row].owner == owner && w.s.db.tokens[row].family == sid
    requires !DeviceSignedOut(w.s.db.devices, owner, w.s.db.tokens[row].device)
    ensures !RefusedForGood(w, owner, sid)
  {
    hide RefusedForGood, IsLive;
    var request := R.NumberAbove(w.flights.Keys);
    var step := Check(request, row, None, w.clock);
    assert request !in w.flights.Keys;
    assert Enabled(w, step);
    var checked := Take(w, step);
    assert Leads(checked, checked.flights[request], owner, sid);
    RefreshLetsIn(checked, owner, sid);
    AcceptedOneStepOn(w, step, owner, sid);
  }

  lemma SigningInBringsTheDeviceBack(s: State, e: Event, row: nat)
    requires row < |s.db.tokens| && e.op.Login? && DrawsFresh(s.db, e.op)
    requires e.op.owner == s.db.tokens[row].owner && e.op.device == s.db.tokens[row].device
    ensures row < |Apply(s, e).db.tokens| && Apply(s, e).db.tokens[row] == s.db.tokens[row]
    ensures !DeviceSignedOut(Apply(s, e).db.devices, s.db.tokens[row].owner, s.db.tokens[row].device)
  {
  }

  lemma FreshLoginExists(db: Tables, owner: Principal, device: Option<DeviceId>, now: int) returns (e: Event)
    ensures e.op.Login? && e.op.owner == owner && e.op.device == device && e.now == now && DrawsFresh(db, e.op)
  {
    var hash := R.FreeHashExists(db.tokens);
    var used := set t | t in db.tokens :: t.family;
    var family := R.NumberAbove(used);
    forall t | t in db.tokens ensures t.family != family {
      assert t.family in used;
    }
    e := Event(Login(owner, device, false, hash, family), now, Lifetimes(1, 1), true, true, {});
  }

  lemma UsableTokenLetsIn(w: World, owner: Principal, sid: Family)
    requires HasUsable(w.s.db.tokens, owner, sid, w.clock)
    ensures !RefusedForGood(w, owner, sid)
  {
    hide RefusedForGood, IsLive, Apply;
    var t :| t in w.s.db.tokens && t.owner == owner && t.family == sid && t.Usable(w.clock);
    var row :| 0 <= row < |w.s.db.tokens| && w.s.db.tokens[row] == t;
    var e := FreshLoginExists(w.s.db, owner, t.device, w.clock);
    SigningInBringsTheDeviceBack(w.s, e, row);
    CheckableLetsIn(Take(w, Operation(e)), row, owner, sid);
    AcceptedOneStepOn(w, Operation(e), owner, sid);
  }

  lemma RefusedForGoodIff(w: World, owner: Principal, sid: Family)
    requires Ok(w) && OwnsSession(w.s, owner, sid) && SessionLive(owner, sid) !in w.s.redis
    ensures RefusedForGood(w, owner, sid) <==> !WayBack(w, owner, sid)
  {
    hide RefusedForGood, LookupInTheGap, RefreshUnderWay, HasUsable;
    if LookupInTheGap(w, owner, sid) {
      LookupLetsIn(w, owner, sid);
    } else if RefreshUnderWay(w, owner, sid) {
      RefreshLetsIn(w, owner, sid);
    } else if HasUsable(w.s.db.tokens, owner, sid, w.clock) {
      UsableTokenLetsIn(w, owner, sid);
    } else {
      QuietIsRefusedForGood(w, owner, sid);
    }
  }

  /** The step level of end-to-end refusal. In every reachable state, let an `endSessions` that has committed forget a
      session it found, with the delete reaching Redis. From then on the session is refused, whenever it is asked for
      and through any interleaving, if and only if no liveness check of it is between its SELECT and its SET, no refresh
      of it is between its UPDATE and its INSERT or past its checks with its token unrevoked, and it has no usable
      token. */
  lemma ForgettingIsFinalIffNoWayBack(
    start: int, before: seq<Step>, request: nat, lost: set<Family>, sid: Family, now: int)
    requires var w := Run(Beginning(start), before);
             && Enabled(w, Drop(request, lost, now))
             && sid in w.endings[request].families && sid !in lost
    ensures var w := Run(Beginning(start), before);
            var owner := w.endings[request].owner;
            RefusedForGood(Take(w, Drop(request, lost, now)), owner, sid)
            <==> !LookupInTheGap(w, owner, sid) && !RefreshUnderWay(w, owner, sid)
                 && !HasUsable(w.s.db.tokens, owner, sid, now)
  {
    hide Run, RefusedForGood, HasUsable, OwnsSession;
    var w := Run(Beginning(start), before);
    var owner, after := w.endings[request].owner, Take(w, Drop(request, lost, now));
    RunKeepsOk(start, before);
    StepKeepsOk(w, Drop(request, lost, now));
    StepGrows(w, Drop(request, lost, now));
    assert OwnsSession(w.s, owner, sid);
    GrowthKeepsOwnership(w.s, after.s, owner, sid);
    assert SessionLive(owner, sid) !in after.s.redis by {
      assert sid in set f | f in w.endings[request].families && f !in lost;
    }
    assert LookupInTheGap(after, owner, sid) <==> LookupInTheGap(w, owner, sid);
    assert RefreshUnderWay(after, owner, sid) <==> RefreshUnderWay(w, owner, sid) by {
      assert forall flight :: Leads(after, flight, owner, sid) <==> Leads(w, flight, owner, sid);
    }
    RefusedForGoodIff(after, owner, sid);
  }

  // ---------------------------------------------------------------------------------------------------------------
  // The ways back are met
  // ---------------------------------------------------------------------------------------------------------------

  lemma RunPush(w: World, steps: seq<Step>, step: Step)
    ensures Run(w, steps + [step]) == Take(Run(w, steps), step)
  {
    assert (steps + [step])[..|steps|] == steps;
  }

  /** The world after one sign-in at 0, with one session 0 and its token in row 0. */
  predicate SignedInOnce(w: World, owner: Principal, life: nat) {
    && w.clock == 0 && w.s.redis == map[] && w.lookups == map[] && w.flights == map[] && w.endings == map[]
    && w.s.db.tokens == [Token(0, owner, 0, None, life, None, false)]
  }

  lemma AfterOneSignIn(owner: Principal, life: nat)
    ensures SignedInOnce(Run(Beginning(0), [Operation(Signed(owner, None, life))]), owner, life)
  {
    hide Apply;
    var step := Operation(Signed(owner, None, life));
    assert [] + [step] == [step] && Run(Beginning(0), []) == Beginning(0);
    RunPush(Beginning(0), [], step);
    SigningInFirst(EMPTY, owner, None, life);
  }

  lemma RunFour(w: World, a: Step, b: Step, c: Step, d: Step)
    ensures Run(w, [a, b, c, d]) == Take(Take(Take(Take(w, a), b), c), d)
  {
    hide Take;
    assert Run(w, []) == w && [] + [a] == [a] && [a] + [b] == [a, b];
    assert [a, b] + [c] == [a, b, c] && [a, b, c] + [d] == [a, b, c, d];
    RunPush(w, [], a);
    RunPush(w, [a], b);
    RunPush(w, [a, b], c);
    RunPush(w, [a, b, c], d);
  }

  lemma {:induction false} RunConcat(w: World, a: seq<Step>, b: seq<Step>)
    ensures Run(w, a + b) == Run(Run(w, a), b)
  {
    hide Take;
    if b == [] {
      assert a + b == a;
    } else {
      RunConcat(w, a, b[..|b| - 1]);
      assert (a + b)[..|a + b| - 1] == a + b[..|b| - 1];
    }
  }

  lemma EverythingIsFound(tokens: seq<Token>, owner: Principal, life: nat, now: int)
    requires tokens == [Token(0, owner, 0, None, life, None, false)] && now < life
    ensures LiveFamilies(tokens, owner, EVERYTHING, now) == {0} && FamilyLive(tokens, owner, 0, now)
  {
    assert tokens[0] in tokens && tokens[0].Live(now);
  }

  /** One step each of the calls that race, up to the sign-out's commit. */
  function CheckRace(owner: Principal, life: nat, now: int): seq<Step> {
    [Operation(Signed(owner, None, life)), Select(0, owner, 0, now), Find(1, owner, EVERYTHING, now), Commit(1, now)]
  }

  function RefreshRace(owner: Principal, life: nat, now: int): seq<Step> {
    [Operation(Signed(owner, None, life))]
    + [Check(0, 0, None, now), Find(1, owner, EVERYTHING, now), Flip(0, now), Commit(1, now)]
  }

  /** The session is found and every token is revoked, so its sign-out can finish. */
  predicate CanFinish(w: World, owner: Principal, now: int) {
    && Enabled(w, Drop(1, {}, now)) && 0 in w.endings[1].families && w.endings[1].owner == owner
    && forall t | t in w.s.db.tokens :: !t.Unrevoked()
  }

  /** A request is checked while its principal signs out everywhere: no refresh is under way, and the session is let in
      after the sign-out once the late marker is set. */
  lemma CheckedWhileSigningOut(owner: Principal, life: nat, now: int)
    requires 0 <= now < life
    ensures var w := Run(Beginning(0), CheckRace(owner, life, now));
            && CanFinish(w, owner, now) && !RefreshUnderWay(w, owner, 0)
            && IsLive(Take(Take(w, Drop(1, {}, now)), Mark(0, true, now)).s, owner, 0, now, true)
  {
    var first := Operation(Signed(owner, None, life));
    var w0 := Run(Beginning(0), [first]);
    AfterOneSignIn(owner, life);
    assert Run(Beginning(0), []) == Beginning(0) && [] + [first] == [first];
    RunPush(Beginning(0), [], first);
    EverythingIsFound(w0.s.db.tokens, owner, life, now);
    RunFour(Beginning(0), first, Select(0, owner, 0, now), Find(1, owner, EVERYTHING, now), Commit(1, now));
    CheckRaceFrom(w0, owner, life, now);
  }

  lemma CheckRaceFrom(w0: World, owner: Principal, life: nat, now: int)
    requires SignedInOnce(w0, owner, life) && 0 <= now < life
    ensures var w := Take(Take(Take(w0, Select(0, owner, 0, now)), Find(1, owner, EVERYTHING, now)), Commit(1, now));
            && CanFinish(w, owner, now) && !RefreshUnderWay(w, owner, 0)
            && IsLive(Take(Take(w, Drop(1, {}, now)), Mark(0, true, now)).s, owner, 0, now, true)
  {
    EverythingIsFound(w0.s.db.tokens, owner, life, now);
    var w2 := Take(Take(w0, Select(0, owner, 0, now)), Find(1, owner, EVERYTHING, now));
    assert w2 == w0.(clock := now, lookups := map[0 := Lookup(owner, 0)],
                 endings := map[1 := Ending(owner, EVERYTHING, {0}, false)]);
    CommittedThenMarked(w2, owner, life, now);
  }

  lemma CommittedThenMarked(w2: World, owner: Principal, life: nat, now: int)
    requires w2.clock == now && w2.lookups == map[0 := Lookup(owner, 0)] && w2.flights == map[]
    requires w2.endings == map[1 := Ending(owner, EVERYTHING, {0}, false)]
    requires w2.s.db.tokens == [Token(0, owner, 0, None, life, None, false)]
    ensures var w := Take(w2, Commit(1, now));
            && CanFinish(w, owner, now) && !RefreshUnderWay(w, owner, 0)
            && IsLive(Take(Take(w, Drop(1, {}, now)), Mark(0, true, now)).s, owner, 0, now, true)
  {
    hide IsLive;
    var w := Take(w2, Commit(1, now));
    assert w.s.db.tokens == [w2.s.db.tokens[0].(revokedAt := Some(now))];
    var dropped := Take(w, Drop(1, {}, now));
    assert dropped.s.db == w.s.db && dropped.lookups == w.lookups && dropped.clock == now;
    assert !FamilyLive(dropped.s.db.tokens, owner, 0, now);
    LateMarkLetsInForFiveSeconds(dropped, 0, now, now);
  }

  /** A session is refreshed while its principal signs out everywhere. The refresh has updated its row by the time the
      sign-out looks for something to revoke: no check is under way, and once the successor is inserted the session is
      let in for the whole of its new lifetime. */
  lemma RefreshedWhileSigningOut(owner: Principal, life: nat, now: int, lifetimes: Lifetimes, later: int)
    requires 0 <= now < life && now <= later < now + lifetimes.For(false)
    ensures var w := Run(Beginning(0), RefreshRace(owner, life, now));
            && CanFinish(w, owner, now) && !LookupInTheGap(w, owner, 0)
            && IsLive(Take(Take(w, Drop(1, {}, now)), Insert(0, 1, lifetimes, now)).s, owner, 0, later, true)
  {
    var first := Operation(Signed(owner, None, life));
    var w0 := Run(Beginning(0), [first]);
    AfterOneSignIn(owner, life);
    var rest := [Check(0, 0, None, now), Find(1, owner, EVERYTHING, now), Flip(0, now), Commit(1, now)];
    RunConcat(Beginning(0), [first], rest);
    RunFour(w0, rest[0], rest[1], rest[2], rest[3]);
    RefreshRaceFrom(w0, owner, life, now, lifetimes, later);
  }

  lemma RefreshRaceFrom(w0: World, owner: Principal, life: nat, now: int, lifetimes: Lifetimes, later: int)
    requires SignedInOnce(w0, owner, life) && 0 <= now < life && now <= later < now + lifetimes.For(false)
    ensures var checked := Take(Take(w0, Check(0, 0, None, now)), Find(1, owner, EVERYTHING, now));
            var w := Take(Take(checked, Flip(0, now)), Commit(1, now));
            && CanFinish(w, owner, now) && !LookupInTheGap(w, owner, 0)
            && IsLive(Take(Take(w, Drop(1, {}, now)), Insert(0, 1, lifetimes, now)).s, owner, 0, later, true)
  {
    hide IsLive, Take;
    var w2 := Take(Take(w0, Check(0, 0, None, now)), Find(1, owner, EVERYTHING, now));
    CheckedAndFound(w0, owner, life, now);
    FlippedAndCommitted(w2, owner, life, now);
    var w4 := Take(Take(w2, Flip(0, now)), Commit(1, now));
    DroppedAndInserted(w4, owner, now, lifetimes, later);
  }

  lemma CheckedAndFound(w0: World, owner: Principal, life: nat, now: int)
    requires SignedInOnce(w0, owner, life) && 0 <= now < life
    ensures Take(Take(w0, Check(0, 0, None, now)), Find(1, owner, EVERYTHING, now))
         == w0.(clock := now, flights := map[0 := R.Checked(0, None)],
            endings := map[1 := Ending(owner, EVERYTHING, {0}, false)])
  {
    EverythingIsFound(w0.s.db.tokens, owner, life, now);
    assert Take(w0, Check(0, 0, None, now)) == w0.(clock := now, flights := map[0 := R.Checked(0, None)]);
  }

  /** The refresh has its token spent, the sign-out has committed, and nothing else is under way. */
  predicate SpentAndRevoked(w: World, owner: Principal, now: int) {
    && w.clock == now && w.lookups == map[]
    && w.flights == map[0 := R.Flipped(0, None)] && w.endings == map[1 := Ending(owner, EVERYTHING, {0}, true)]
    && |w.s.db.tokens| == 1 && w.s.db.tokens[0].hash == 0 && w.s.db.tokens[0].owner == owner
    && w.s.db.tokens[0].family == 0 && !w.s.db.tokens[0].rememberMe && !w.s.db.tokens[0].Unrevoked()
  }

  lemma FlippedAndCommitted(w2: World, owner: Principal, life: nat, now: int)
    requires w2.clock == now && w2.lookups == map[] && w2.flights == map[0 := R.Checked(0, None)]
    requires w2.endings == map[1 := Ending(owner, EVERYTHING, {0}, false)]
    requires w2.s.db.tokens == [Token(0, owner, 0, None, life, None, false)]
    ensures SpentAndRevoked(Take(Take(w2, Flip(0, now)), Commit(1, now)), owner, now)
  {
    var w3 := Take(w2, Flip(0, now));
    var spent := w2.s.db.tokens[0].(revokedAt := Some(now));
    assert w3 == w2.(s := w3.s, flights := map[0 := R.Flipped(0, None)]) && w3.s.db.tokens == [spent];
    var w4 := Take(w3, Commit(1, now));
    assert w4 == w3.(s := w4.s, endings := map[1 := Ending(owner, EVERYTHING, {0}, true)]);
    assert w4.s.db.tokens == [spent];
  }

  lemma DroppedAndInserted(w4: World, owner: Principal, now: int, lifetimes: Lifetimes, later: int)
    requires SpentAndRevoked(w4, owner, now) && now <= later < now + lifetimes.For(false)
    ensures CanFinish(w4, owner, now) && !LookupInTheGap(w4, owner, 0)
    ensures IsLive(Take(Take(w4, Drop(1, {}, now)), Insert(0, 1, lifetimes, now)).s, owner, 0, later, true)
  {
    hide IsLive;
    var w5 := Take(w4, Drop(1, {}, now));
    assert w5.s.db == w4.s.db && w5.flights == w4.flights && w5.clock == now;
    assert R.HashFree(w5.s.db.tokens, 1);
    LateInsertLetsInForItsLifetime(w5, 0, 1, lifetimes, now, later);
  }
}
