/** Operation level: each call of `AuthService`, `SessionLivenessService` and `UserService.remove` is atomic. Every
    operation is a function of the tables, the Redis store and the clock. */
module SessionOps {
  import opened Wrappers
  import opened SessionData
  import opened SessionRevocation
  import opened RotationProtocol
  import opened Redis

  const LIVE_MARKER := 1
  const LIVENESS_TTL := 5000  // SESSION_LIVENESS_CACHE_TTL_SECONDS, in milliseconds

  datatype State = State(db: Tables, redis: Store)

  const EMPTY := State(Tables([], map[], []), map[])

  /** The two configured refresh-token lifetimes, in milliseconds. */
  datatype Lifetimes = Lifetimes(standard: nat, remembered: nat)
  {
    /** `refreshTokenLifetime`: "Remember me" can only lengthen. */
    function For(rememberMe: bool): (life: nat)
      ensures standard <= life && (rememberMe ==> remembered <= life)
      ensures life == standard || (rememberMe && life == remembered)
    {
      if rememberMe && remembered >= standard then remembered else standard
    }
  }

  // ---------------------------------------------------------------------------------------------------------------
  // Sign-in
  // ---------------------------------------------------------------------------------------------------------------

  /** `upsertDevice`: only a sign-in revives a signed-out device or stamps its last login. */
  function UpsertDevice(devices: map<DeviceKey, Device>, token: Token, now: int, isSignIn: bool): map<DeviceKey, Device>
    requires token.device.Some?
  {
    var key := DeviceKey(token.owner, token.device.value);
    if key !in devices then devices[key := Device(true, token.hash, now, now, token.expiresAt, token.rememberMe)]
    else if !isSignIn && !devices[key].isActive then devices
    else devices[key := Device(true, token.hash, if isSignIn then now else devices[key].lastLoginAt, now,
                               token.expiresAt, token.rememberMe)]
  }

  /** `issueTokenPair`: insert the refresh token, then create or refresh its device row. */
  function IssueToken(db: Tables, token: Token, now: int, isSignIn: bool): Tables {
    Tables(db.tokens + [token],
           if token.device.Some? then UpsertDevice(db.devices, token, now, isSignIn) else db.devices,
           db.history)
  }

  /** `insertLoginHistory`: a sign-in on a device closes that device's open row before adding its own. */
  function RecordSignIn(history: seq<SignIn>, owner: Principal, device: Option<DeviceId>, now: int): seq<SignIn> {
    (if device.None? then history
     else
       seq(|history|, i requires 0 <= i < |history| =>
         if history[i].owner == owner && history[i].device == device && history[i].logoutAt.None?
         then history[i].(logoutAt := Some(now))
         else history[i]))
    + [SignIn(owner, device, now, None)]
  }

  /** A successful `login`. */
  function AfterLogin(db: Tables, token: Token, now: int): Tables {
    IssueToken(db.(history := RecordSignIn(db.history, token.owner, token.device, now)), token, now, true)
  }

  // ---------------------------------------------------------------------------------------------------------------
  // Ending sessions
  // ---------------------------------------------------------------------------------------------------------------

  /** `forget`: drops the cached answers of `families`, except those whose delete did not reach Redis. */
  function Forget(redis: Store, owner: Principal, families: set<Family>, lost: set<Family>): Store {
    redis - (set f | f in families && f !in lost :: SessionLive(owner, f))
  }

  /** `endSessions`. */
  function EndSessions(s: State, owner: Principal, scope: Scope, now: int, lost: set<Family>): State {
    State(RevokeUserSessions(s.db, owner, scope, now),
          Forget(s.redis, owner, LiveFamilies(s.db.tokens, owner, scope, now), lost))
  }

  /** `familiesOnDevice`: every session that ever had a token on the device, in table order. */
  function FamiliesOnDevice(tokens: seq<Token>, owner: Principal, device: DeviceId): seq<Family> {
    if tokens == [] then []
    else
      var before, t := FamiliesOnDevice(tokens[..|tokens| - 1], owner, device), tokens[|tokens| - 1];
      if t.owner == owner && t.device == Some(device) && t.family !in before then before + [t.family] else before
  }

  /** `UserService.remove` as far as sessions go: it revokes the staff user's tokens and does nothing else. */
  function AfterRemoveUser(db: Tables, userId: nat, now: int): Tables {
    db.(tokens := RevokeTokens(db.tokens, Principal(Staff, userId), EVERYTHING, now))
  }

  // ---------------------------------------------------------------------------------------------------------------
  // Refresh
  // ---------------------------------------------------------------------------------------------------------------

  /** The row with this unique token hash. */
  function FindRow(tokens: seq<Token>, hash: Hash): (row: Option<nat>)
    ensures row.Some? ==> row.value < |tokens| && tokens[row.value].hash == hash
    ensures row.None? ==> forall t | t in tokens :: t.hash != hash
  {
    if tokens == [] then None
    else if tokens[|tokens| - 1].hash == hash then Some(|tokens| - 1)
    else FindRow(tokens[..|tokens| - 1], hash)
  }

  predicate DeviceSignedOut(devices: map<DeviceKey, Device>, owner: Principal, device: Option<DeviceId>) {
    device.Some? && DeviceKey(owner, device.value) in devices && !devices[DeviceKey(owner, device.value)].isActive
  }

  datatype RefreshOutcome =
    | InvalidToken
    | AlreadyUsed
    | ExpiredToken
    | DeviceMismatch
    | SignedOutDevice
    | IdentityRefused
    | Rotated(token: Token)

  /** What `refresh` answers; `identityOk` stands for the account checks made after the rotation. */
  function RefreshVerdict(
    db: Tables, presented: Hash, claimed: Option<DeviceId>, identityOk: bool, hash: Hash, now: int,
    lifetimes: Lifetimes)
    : RefreshOutcome
  {
    var row := FindRow(db.tokens, presented);
    if row.None? then InvalidToken else
    var stored := db.tokens[row.value];
    if !stored.Unrevoked() then AlreadyUsed
    else if stored.expiresAt < now then ExpiredToken
    else if claimed.Some? && stored.device.Some? && stored.device != claimed then DeviceMismatch
    else
      var device := CarriedDevice(stored, claimed);
      if DeviceSignedOut(db.devices, stored.owner, device) then SignedOutDevice
      else if !identityOk then IdentityRefused
      else Rotated(Successor(stored, device, hash, now + lifetimes.For(stored.rememberMe)))
  }

  function FlipRow(db: Tables, row: nat, now: int): Tables
    requires row < |db.tokens|
  {
    db.(tokens := db.tokens[row := db.tokens[row].(revokedAt := Some(now))])
  }

  // ---------------------------------------------------------------------------------------------------------------
  // The liveness check of every request
  // ---------------------------------------------------------------------------------------------------------------

  /** `isLive`: the cached marker, else the database. */
  predicate IsLive(s: State, owner: Principal, sid: Family, now: int, getReached: bool) {
    (getReached && Holds(s.redis, SessionLive(owner, sid), now)) || FamilyLive(s.db.tokens, owner, sid, now)
  }

  /** Only an answer from the database is cached, and only a live one. */
  function AfterIsLive(s: State, owner: Principal, sid: Family, now: int, getReached: bool, setReached: bool): State {
    var key := SessionLive(owner, sid);
    if (getReached && Holds(s.redis, key, now)) || !FamilyLive(s.db.tokens, owner, sid, now) || !setReached then s
    else s.(redis := SetWithTtl(s.redis, key, LIVE_MARKER, LIVENESS_TTL, now))
  }

  // ---------------------------------------------------------------------------------------------------------------
  // Runs
  // ---------------------------------------------------------------------------------------------------------------

  datatype Op =
    | Login(owner: Principal, device: Option<DeviceId>, rememberMe: bool, hash: Hash, family: Family)
    | Refresh(presented: Hash, claimed: Option<DeviceId>, identityOk: bool, hash: Hash)
    | Logout(presented: Hash)
    | LogoutDevice(owner: Principal, on: DeviceId)
    | LogoutAll(owner: Principal, except: seq<Family>)
    | RemoveUser(userId: nat)
    | CheckLive(owner: Principal, sid: Family)

  /** One call: when it ran, the lifetimes configured then, and how Redis behaved for it. */
  datatype Event = Event(op: Op, now: int, lifetimes: Lifetimes, getReached: bool, setReached: bool, lost: set<Family>)

  /** Freshly drawn UUIDs and token hashes never repeat. */
  predicate DrawsFresh(db: Tables, op: Op) {
    match op
    case Login(_, _, _, hash, family) => FindRow(db.tokens, hash).None? && !FamilyKnown(db.tokens, family)
    case Refresh(_, _, _, hash) => FindRow(db.tokens, hash).None?
    case _ => true
  }

  function LoginToken(e: Event): Token
    requires e.op.Login?
  {
    Token(e.op.hash, e.op.owner, e.op.family, e.op.device, e.now + e.lifetimes.For(e.op.rememberMe), None,
          e.op.rememberMe)
  }

  /** Which sessions a call ends through `endSessions`, if it gets that far. */
  function Ends(db: Tables, e: Event): Option<(Principal, Scope)> {
    match e.op
    case Refresh(presented, claimed, identityOk, hash) =>
      (match RefreshVerdict(db, presented, claimed, identityOk, hash, e.now, e.lifetimes)
       case AlreadyUsed | ExpiredToken | SignedOutDevice =>
         var stored := db.tokens[FindRow(db.tokens, presented).value];
         Some((stored.owner, Only([stored.family])))
       case _ => None)
    case Logout(presented) =>
      var row := FindRow(db.tokens, presented);
      if row.None? then None else Some((db.tokens[row.value].owner, Only([db.tokens[row.value].family])))
    case LogoutDevice(owner, device) =>
      if DeviceKey(owner, device) !in db.devices then None
      else Some((owner, Only(FamiliesOnDevice(db.tokens, owner, device))))
    case LogoutAll(owner, except) => Some((owner, Except(except)))
    case _ => None
  }

  /** One call. A draw that is not fresh is a call that cannot happen and changes nothing. */
  function Apply(s: State, e: Event): State {
    if !DrawsFresh(s.db, e.op) then s else
    var ends := Ends(s.db, e);
    if ends.Some? then EndSessions(s, ends.value.0, ends.value.1, e.now, e.lost) else
    match e.op
    case Login(_, _, _, _, _) => s.(db := AfterLogin(s.db, LoginToken(e), e.now))
    case Refresh(presented, claimed, identityOk, hash) =>
      var row := FindRow(s.db.tokens, presented);
      (match RefreshVerdict(s.db, presented, claimed, identityOk, hash, e.now, e.lifetimes)
       case IdentityRefused => s.(db := FlipRow(s.db, row.value, e.now))
       case Rotated(token) => s.(db := IssueToken(FlipRow(s.db, row.value, e.now), token, e.now, false))
       case _ => s)
    case RemoveUser(userId) => s.(db := AfterRemoveUser(s.db, userId, e.now))
    case CheckLive(owner, sid) => AfterIsLive(s, owner, sid, e.now, e.getReached, e.setReached)
    case _ => s
  }

  function Exec(s: State, events: seq<Event>): State {
    if events == [] then s else Apply(Exec(s, events[..|events| - 1]), events[|events| - 1])
  }

  predicate InOrder(events: seq<Event>) {
    forall i, j | 0 <= i < j < |events| :: events[i].now <= events[j].now
  }

  /** The run is over by `now`. */
  predicate UpTo(events: seq<Event>, now: int) {
    InOrder(events) && forall e | e in events :: e.now <= now
  }

  // ---------------------------------------------------------------------------------------------------------------
  // Every operation is an uninterrupted run of protocol steps
  // ---------------------------------------------------------------------------------------------------------------

  function StepsOf(db: Tables, e: Event): seq<Step> {
    if !DrawsFresh(db, e.op) then [] else
    var ends := Ends(db, e);
    if ends.Some? then [Revoke(ends.value.0, ends.value.1, e.now)] else
    match e.op
    case Login(_, _, _, _, _) => [OpenSession(LoginToken(e))]
    case Refresh(presented, claimed, identityOk, hash) =>
      var row := FindRow(db.tokens, presented);
      (match RefreshVerdict(db, presented, claimed, identityOk, hash, e.now, e.lifetimes)
       case IdentityRefused => [Check(0, row.value, claimed, e.now), Flip(0, e.now), Abandon(0)]
       case Rotated(token) => [Check(0, row.value, claimed, e.now), Flip(0, e.now), Insert(0, hash, token.expiresAt)]
       case _ => [])
    case RemoveUser(userId) => [Revoke(Principal(Staff, userId), EVERYTHING, e.now)]
    case _ => []
  }

  lemma RefreshIsThreeSteps(db: Tables, e: Event, parents: seq<Option<nat>>)
    requires e.op.Refresh?
    requires var verdict := RefreshVerdict(db, e.op.presented, e.op.claimed, e.op.identityOk, e.op.hash, e.now,
                                           e.lifetimes);
             DrawsFresh(db, e.op) && (verdict.IdentityRefused? || verdict.Rotated?)
    ensures var after := Run(System(db.tokens, parents, map[]), StepsOf(db, e));
            after.flights == map[] && after.tokens == Apply(State(db, map[]), e).db.tokens
  {
    var s := System(db.tokens, parents, map[]);
    var row := FindRow(db.tokens, e.op.presented).value;
    var verdict := RefreshVerdict(db, e.op.presented, e.op.claimed, e.op.identityOk, e.op.hash, e.now, e.lifetimes);
    var check, flip := Check(0, row, e.op.claimed, e.now), Flip(0, e.now);
    var device := CarriedDevice(db.tokens[row], e.op.claimed);
    var checked := Take(s, check);
    assert checked == s.(flights := map[0 := Checked(row, device)]);
    var flipped := Take(checked, flip);
    assert flipped == System(FlipRow(db, row, e.now).tokens, parents, map[0 := Flipped(row, device)]);
    if verdict.Rotated? {
      RunThree(s, check, flip, Insert(0, e.op.hash, verdict.token.expiresAt));
    } else {
      RunThree(s, check, flip, Abandon(0));
    }
  }

  lemma OpIsStepRun(s: State, e: Event, parents: seq<Option<nat>>)
    ensures var after := Run(System(s.db.tokens, parents, map[]), StepsOf(s.db, e));
            after.flights == map[] && after.tokens == Apply(s, e).db.tokens
  {
    var start, steps := System(s.db.tokens, parents, map[]), StepsOf(s.db, e);
    if |steps| == 1 {
      RunOne(start, steps[0]);
    } else if |steps| == 3 {
      RefreshIsThreeSteps(s.db, e, parents);
    }
  }

  /** The steps of a whole run of operations. */
  function AllSteps(s: State, events: seq<Event>): seq<Step> {
    if events == [] then []
    else
      var before := events[..|events| - 1];
      AllSteps(s, before) + StepsOf(Exec(s, before).db, events[|events| - 1])
  }

  /** Refinement: any run of operations is one schedule of the step-level protocol, in which no refresh is
      interrupted. So everything that holds under every interleaving holds at operation level. */
  lemma {:induction false} RunIsAStepRun(events: seq<Event>)
    ensures var after := Run(START, AllSteps(EMPTY, events));
            after.flights == map[] && after.tokens == Exec(EMPTY, events).db.tokens
  {
    if events != [] {
      var before, last := events[..|events| - 1], events[|events| - 1];
      RunIsAStepRun(before);
      var mid := Run(START, AllSteps(EMPTY, before));
      OpIsStepRun(Exec(EMPTY, before), last, mid.parents);
      RunConcat(START, AllSteps(EMPTY, before), StepsOf(Exec(EMPTY, before).db, last));
    }
  }

  lemma {:induction false} RunIsLinear(events: seq<Event>)
    ensures Linear(Exec(EMPTY, events).db.tokens)
  {
    RunIsAStepRun(events);
    RunKeepsInv(START, AllSteps(EMPTY, events));
  }
}
