/** The three session tables of `src/auth/entities/` and the row predicates every query is built from. Identifiers
    that the source draws at random or hashes (token hash, family UUID, device label) are abstract numbers. */
module SessionData {
  import opened Wrappers

  type Hash = nat
  type Family = nat
  type DeviceId = nat

  datatype PrincipalKind = Staff | Customer

  /** Staff and customer ids are independent spaces, so a principal is always the pair. */
  datatype Principal = Principal(kind: PrincipalKind, userId: nat)

  /** One row of `refresh_tokens`. */
  datatype Token = Token(
    hash: Hash,
    owner: Principal,
    family: Family,
    device: Option<DeviceId>,
    expiresAt: int,
    revokedAt: Option<int>,
    rememberMe: bool)
  {
    predicate Unrevoked() { revokedAt.None? }

    /** What every query means by a live session: `revoked_at IS NULL AND expires_at > now`. */
    predicate Live(now: int) { Unrevoked() && expiresAt > now }

    /** What `refresh` accepts: it refuses only `expiresAt < now`. */
    predicate Usable(now: int) { Unrevoked() && expiresAt >= now }
  }

  datatype DeviceKey = DeviceKey(owner: Principal, device: DeviceId)

  /** One row of `user_devices`; the table is unique on the key. */
  datatype Device = Device(
    isActive: bool,
    tokenHash: Hash,
    lastLoginAt: int,
    lastActivityAt: int,
    expiresAt: int,
    rememberMe: bool)

  /** One row of `user_login_history`. */
  datatype SignIn = SignIn(owner: Principal, device: Option<DeviceId>, loginAt: int, logoutAt: Option<int>)

  /** The database as far as sessions are concerned. `tokens` is in insertion order, so an index is a row id. */
  datatype Tables = Tables(tokens: seq<Token>, devices: map<DeviceKey, Device>, history: seq<SignIn>)

  /** A choice among a principal's sessions: those listed in `only` if it is given, without those listed in `except`. */
  datatype Scope = Scope(only: Option<seq<Family>>, except: Option<seq<Family>>)
  {
    predicate Covers(family: Family) {
      && (only.Some? ==> family in only.value)
      && (except.Some? ==> family !in except.value)
    }
  }

  const EVERYTHING := Scope(None, None)

  function Only(families: seq<Family>): Scope { Scope(Some(families), None) }

  function Except(families: seq<Family>): Scope { Scope(None, Some(families)) }

  predicate FamilyLive(tokens: seq<Token>, owner: Principal, family: Family, now: int) {
    exists t :: t in tokens && t.owner == owner && t.family == family && t.Live(now)
  }

  predicate FamilyUsable(tokens: seq<Token>, family: Family, now: int) {
    exists t :: t in tokens && t.family == family && t.Usable(now)
  }

  predicate FamilyKnown(tokens: seq<Token>, family: Family) {
    exists t :: t in tokens && t.family == family
  }

  /** The order a family is built in: along the table only its last row may be unrevoked, every row has the same
      principal and the same "Remember me" choice, and once a row carries a device all later rows carry that device. */
  ghost predicate Linear(tokens: seq<Token>) {
    forall i, j | 0 <= i < j < |tokens| && tokens[i].family == tokens[j].family ::
      && !tokens[i].Unrevoked()
      && tokens[i].owner == tokens[j].owner
      && tokens[i].rememberMe == tokens[j].rememberMe
      && (tokens[i].device.Some? ==> tokens[j].device == tokens[i].device)
  }

  /** `token_hash` is a unique column. */
  ghost predicate HashesUnique(tokens: seq<Token>) {
    forall i, j | 0 <= i < j < |tokens| :: tokens[i].hash != tokens[j].hash
  }
}
