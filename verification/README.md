# Sessions, lock-out and permission migrations: a verified model

A Dafny model of the backend's most stateful logic and proofs about it, in three parts.

**Refresh-token sessions.** A session is a token family. It is modelled twice. At *step level* (`RotationProtocol`) every read,
conditional UPDATE and INSERT of `refresh` is an atomic step, and any number of refreshes, sign-ins and revocations interleave
freely; the rotation is the one of section 5.2.2.3 of RFC 6819. At *operation level* (`SessionOps`) each service call is atomic
over three tables (refresh tokens, devices, login history), a Redis store that may lose any command, and a non-decreasing clock.
`SessionOps.RunIsAStepRun` proves that every run of operations is a schedule of the step level. On top of that:
`SessionRevocation` (the contract of ending sessions), `SessionCalls` (what each call does, row by row, said of the columns
alone), `SessionTheorems` and `SessionRefusal` (dead stays dead, replay, end-to-end refusal, cache staleness), `LivenessRace`
(refusal when liveness checks, refreshes and endings interleave statement by statement with each other and with every other
call), `SessionDevices` (devices, history, scoped sign-out, the Active Sessions list), `LoginHistory` (the computed statuses).
`AuthServices` holds the services as classes whose methods go through the source's statements and are proved to reach the
operation-level state.

**Lock-out counters.** `Redis` and `LoginAttempts` model the two counter stores as classes; `LockoutRuns` what an
attempt does to a counter. `LockoutBounds` proves the brute-force bound, that it is tight, and exactly when Redis outages break it;
`LockoutEnds` that every lock holds and ends; `MemoryRefinement` that cleaning up the memory store is invisible.

**Policy-statement migrations.** `PolicyStatements` models the statement tables. `AccountConsolidation`, `AccountMigration` and
`AccountMigrationRun` treat the fold of the Settings pages into ACCOUNT and back; `CodeFolding` the three migrations that merge,
correct and retire action codes; `RepairStatements` and `RepairRun` the repair of nulled statements; `PolicyBackfill` and
`BackfillRun` the role-to-policy backfill; `ResourceGrouping` what the last two share. Every `...Run` module and `CodeDatabase`
hold the loops over mutable tables, with their transaction's rollback, proved against the functions the theorems are about.

`dafny verify dfyconfig.toml` checks everything.

Instants and durations are integers in milliseconds. Fresh UUIDs and token hashes are numbers that do not repeat
(`SessionOps.DrawsFresh`). `live` (unrevoked, `expiresAt > now`) and `usable` (unrevoked, `expiresAt >= now`, what `refresh`
accepts) are kept apart. How Redis behaves is an argument of every operation, so the theorems quantify over it. A
resource catalogue is an arbitrary partial map from action code to resource id; every statement effect is Allow.

## What the proofs found

The model follows the code. Where the code and its own documentation or its neighbours disagree, a lemma says exactly when.

- `endSessions` is documented as ending a session for good. At step level the session comes back, for a whole new lifetime, when a
  refresh of it is between its UPDATE and its INSERT (`RevocationFinalIffNoRefreshInTheGap`, `LoserCannotStopTheWinner`,
  `RefreshedWhileSigningOut`), and for five seconds when a liveness check of it is between its SELECT and its SET
  (`CheckedWhileSigningOut`). The only other way back is a token of it that is unrevoked once more by then
  (`ForgettingIsFinalIffNoWayBack`).
- `forget` is given only the sessions live at that instant, so one that has just lapsed keeps its cached marker for up to five
  seconds (`SignedOutYetAcceptedIff`, `LapsedSessionOutlivesItsSignOut`).
- `refresh` refuses only `expiresAt < now` while every query means `expiresAt > now` (`RevivedOnlyAtTheExpiryInstant`,
  `RefreshAtTheExpiryInstantRevives`).
- `getDevices` promises the live sessions but hides one whose device row expired first (`LiveSessionListedIff`,
  `RememberedSessionVanishesFromTheList`).
- `UserService.remove` revokes tokens without closing devices and history, contrary to what
  src/auth/session-revocation.ts:7-10 says of every revocation (`RemovedUserIsHalfEndedIff`, `RemovedUserKeepsTheirDevice`).
- A Redis counter, of an account or a client, passes its limit exactly when it is full, the lock's read of it is lost and the count
  is not (`OvershootsIff`, `WindowsStayWithinIff`, `BlindFailureOvershoots`).
- `down` of the ACCOUNT migration deletes with ACCOUNT every code that belongs to no page (`DownGrants`, `RoundTripKeepsGrantsIff`,
  `CodeOfNoPageIsLost`).
- The merge migration calls itself safe to re-run; after the correction it brings USER_OVERVIEW back
  (`MergingAgainUndoesTheCorrectionIff`, `ViewUserIsLostByMergingAgain`).
- The repair's header says it never inserts a row; it does (`RepairRun.RepairDatabase.InsertMissing`). Its comment names the three
  migrations in an order other than their timestamps; the pipeline agrees with the timestamps (`RepairEqualsReplay`). Its
  check reads soft-deleted rows, so it can pass while live grants are missing (`RepairRestoresLiveGrantsIff`,
  `SoftDeletedNullRowSwallowsTheRepair`).
- The backfill promises every role the same effective access as before. It looks policies up by name without asking whether they are
  soft-deleted, and deleting a policy keeps its name, so such a role ends up with nothing while the self-check passes
  (`BackfillEquivalence`, `RemovedPolicyLeavesItsRolePowerless`). It does not look at the other roles attached to a policy it
  reuses (`ReuseChangesAnotherRoleIff`, `SharedPolicyGivesAnotherRoleACode`, `AttachedRolesGainExactly`).

## Model

| member | source | states |
|---|---|---|
| `RotationProtocol.StepKeepsInv` | src/auth/auth.service.ts:222-320 | any single step of any refresh, sign-in or revocation keeps the family chains linear, every parent link immediate and every refresh under way consistent with its row |
| `RotationProtocol.RunKeepsInv` | src/auth/auth.service.ts:222-320 | so does every interleaving of any length |
| `RotationProtocol.OneWayOn` | src/auth/auth.service.ts:257-320 | under every interleaving, (unrevoked tokens of a family) + (refreshes that flipped one and have not inserted its successor) is at most 1 |
| `RotationProtocol.AtMostOneSuccessor` | src/auth/auth.service.ts:257-320 | every refresh token is rotated into at most one successor however many requests present it, and a token that has one is revoked |
| `RotationProtocol.FamilyIsOneChain` | src/auth/auth.service.ts:735-762 | a family is one rotation chain with one principal and one Remember-me choice, whose device is absent for a prefix and then fixed |
| `RotationProtocol.NoWayOnForever` | src/auth/auth.service.ts:257-270 | a known family with neither an unrevoked token nor an owed successor stays so through every later interleaving |
| `RotationProtocol.RevocationFinalIffNoRefreshInTheGap` | src/auth/auth.service.ts:257-270 | ending a session in any reachable state is final for every continuation if and only if no refresh of it is between its UPDATE and its INSERT; otherwise one INSERT brings it back with whatever expiry it is given |
| `RotationProtocol.LoserCannotStopTheWinner` | src/auth/auth.service.ts:265-270 | the seven-step schedule in which the losing refresh ends the family and the winner's successor still appears, live |
| `SessionRevocation.RevokesExactlyTheScope` | src/auth/session-revocation.ts:61-77 | exactly the principal's unrevoked tokens in scope are stamped, nothing else of any row changes, and the early return for an empty `only` agrees with the scope's meaning |
| `SessionRevocation.RevocationContract` | src/auth/session-revocation.ts:61-111 | afterwards every active device of the principal has a live token, every open history row a live session behind it, and no row of anyone else differs |
| `SessionRevocation.RevocationIdempotent` | src/auth/session-revocation.ts:61-111 | a second revocation of the same scope at the same instant changes nothing |
| `SessionRevocation.LiveFamiliesAreTheOnesEnded` | src/auth/session-revocation.ts:28-51 | the sessions returned are exactly those the revocation takes from live to ended |
| `SessionOps.OpIsStepRun` | src/auth/auth.service.ts:222-320 | each operation acts on the token table as an uninterrupted run of protocol steps |
| `SessionOps.RunIsAStepRun` | src/auth/auth.service.ts:109-376 | refinement: any run of sign-ins, refreshes, sign-outs and liveness checks is one schedule of the step-level protocol, so what holds under every interleaving holds of it |
| `SessionOps.RunIsLinear` | src/auth/auth.service.ts:735-762 | hence in every state reached by operations a family's only unrevoked token is its last |
| `SessionOps.Lifetimes.For` | src/config/runtime-config.ts:42-45 | Remember me only lengthens: the lifetime is never below the standard one, nor, for a remembered session, below the remembered one, and is one of the two |
| `SessionTheorems.TokenTableStep` | src/auth/auth.service.ts:222-320 | an operation only revokes rows and appends at most one: to a new family, or, by a refresh, to a family with a usable token at that instant |
| `SessionTheorems.DeadStaysDead` | src/auth/auth.service.ts:222-270 | once a family has no usable token (unrevoked and not past its expiry) no run of later operations by anyone gives it one |
| `SessionRefusal.MarkersAreBacked` | src/auth/session-liveness.service.ts:37-49 | every cached marker was set while its session had a live token, five seconds before its expiry, and names the session's own principal |
| `SessionRefusal.LivenessIsAtMostFiveSecondsStale` | src/auth/session-liveness.service.ts:37-49 | whatever gets, sets and deletes Redis lost, a `true` means a live token at some instant of the last five seconds, and a session with a live token is never refused |
| `SessionRefusal.ScopeLeavesNothing` | src/auth/session-revocation.ts:68-77 | revoking in a scope that covers a family of the principal leaves the family without any unrevoked token, whichever row led to it |
| `SessionRefusal.EndingLeavesItGone` | src/auth/auth.service.ts:938-951 | one operation that ends a live session, with its cache delete reaching Redis, leaves no unrevoked token and no unexpired marker for any principal |
| `SessionRefusal.GoneForGood` | src/auth/auth.service.ts:938-951 | that state survives any run of later operations and Redis faults |
| `SessionRefusal.EndedSessionIsRefusedForever` | src/auth/strategies/jwt.strategy.ts:64-124 | end-to-end refusal at operation level: every session that `endSessions` returns is refused by every later refresh and every later request carrying its `sid`, from that instant on |
| `SessionRefusal.ReplayEndsTheSession` | src/auth/auth.service.ts:230-234 | presenting any already rotated or revoked token ends its whole family for the rest of the run |
| `SessionRefusal.SignedOutYetAcceptedIff` | src/auth/auth.service.ts:938-951 | just after a sign-out a request with that `sid` is still let in if and only if the session had lapsed before it and an unexpired marker stood |
| `SessionRefusal.LapsedSessionOutlivesItsSignOut` | src/auth/auth.service.ts:938-951 | the run in which it happens, for any lifetime and instants in that order: sign in, be checked, lapse, sign out everywhere, be accepted |
| `SessionCalls.EndSessionsEndsExactly` | src/auth/session-revocation.ts:61-111 | said of the columns alone: the principal's unrevoked tokens of the sessions in scope are revoked, its devices and open history rows without a live token are closed, the markers of the live ones go where the delete arrives, and no other row or entry differs |
| `SessionCalls.LogoutEndsTheSession` | src/auth/auth.service.ts:325-329 | in every reachable state, signing out with any token of a session, a rotated one included, ends exactly that session: none of its tokens is left unrevoked, nothing of its owner is half-ended, and no row of another session differs |
| `SessionCalls.UnknownLogoutDoesNothing` | src/auth/auth.service.ts:325-328 | signing out with an unknown token changes nothing |
| `SessionCalls.LoggedOutForGood` | src/auth/auth.service.ts:325-329 | through every later run no refresh of the session succeeds, and where it was live and its delete arrived no request with its `sid` is let in |
| `SessionCalls.FamiliesOnDeviceAreAll` | src/auth/auth.service.ts:988-998 | the families found are exactly those that ever had a token on the device |
| `SessionCalls.LogoutDeviceEndsWhatItSaw` | src/auth/auth.service.ts:333-345 | exactly the sessions that ever had a token on the device end; an unknown device changes nothing |
| `SessionCalls.LogoutAllEndsTheRest` | src/auth/auth.service.ts:352-376 | exactly the principal's sessions that are not excepted end |
| `SessionCalls.RemovingRevokesTheUser` | src/modules/user/user.service.ts:937-943 | exactly the unrevoked tokens of that staff user are revoked and nothing else changes |
| `SessionCalls.RefusedRefreshEndsTheSession` | src/auth/auth.service.ts:230-255 | in every reachable state, presenting a token that is revoked, past its expiry, or on a device (its own, else the claimed one) that was signed out ends exactly that session, with devices and history closed and every other session's rows as they were |
| `SessionCalls.RefusedRefreshIsFinal` | src/auth/auth.service.ts:230-255 | through every later run no refresh of that session succeeds, and where it was live and its delete arrived no request is let in |
| `SessionCalls.RefreshLeavesAlone` | src/auth/auth.service.ts:222-246 | an unknown token, or a usable one presented with another device's label, changes nothing |
| `SessionCalls.RefreshRotates` | src/auth/auth.service.ts:248-320 | any other usable token is spent and, where the account stands, always succeeded: same session, principal and Remember-me, its own device or the claimed one, the configured lifetime; besides the device row, which then mirrors it, nothing else changes |
| `SessionCalls.RefreshAnswers` | src/auth/auth.service.ts:222-320 | which refusal the caller is told, or that it succeeded, by what is stored |
| `SessionCalls.LoginOpensASession` | src/auth/auth.service.ts:735-764 | a sign-in appends one token of a new session with the configured lifetime, creates or revives its device, closes that device's open history rows, adds its own, and changes nothing else |
| `SessionCalls.LivenessCheckCaches` | src/auth/session-liveness.service.ts:37-49 | a request is let in exactly on an unexpired marker that Redis returns or a live token; a marker is set, for five seconds, exactly when there was none, the session is live and Redis takes it |
| `LivenessRace.EndingInARow` | src/auth/auth.service.ts:938-951 | find, revoke and forget taken without interruption are one `endSessions`, so the step level refines into the operation level |
| `LivenessRace.CheckingInARow` | src/auth/session-liveness.service.ts:37-49 | so are SELECT and SET one missed `isLive` |
| `LivenessRace.RefreshingInARow` | src/auth/auth.service.ts:222-320 | so are the checks, the conditional UPDATE and the INSERT one `refresh` that passes its checks, or the UPDATE alone when the account no longer stands |
| `LivenessRace.CheckEnabledIff` | src/auth/auth.service.ts:222-255 | a refresh passes its checks exactly when the whole call would, uninterrupted, reach its UPDATE |
| `LivenessRace.RefusedForGoodIff` | src/auth/auth.service.ts:938-951 | in every consistent state a session without a marker is refused from then on, at any time and under any interleaving, if and only if no check of it is between its SELECT and its SET, no refresh of it is past its UPDATE or about to flip an unrevoked token, and it has no usable token |
| `LivenessRace.ForgettingIsFinalIffNoWayBack` | src/auth/auth.service.ts:938-951 | in every reachable state, once a committed `endSessions` has forgotten a session it found, the session is refused for good if and only if none of those three ways back is open at that instant |
| `LivenessRace.LateMarkLetsInForFiveSeconds` | src/auth/session-liveness.service.ts:47-47 | a marker set after its session died lets it in for exactly the five seconds it lasts |
| `LivenessRace.LateInsertLetsInForItsLifetime` | src/auth/auth.service.ts:752-762 | a successor inserted after its session was ended lets it in for the whole of the successor's lifetime |
| `LivenessRace.CheckedWhileSigningOut` | src/auth/session-liveness.service.ts:37-56 | the schedule of the first way back: every token is revoked, no refresh is under way, and the next request is accepted |
| `LivenessRace.RefreshedWhileSigningOut` | src/auth/auth.service.ts:257-320 | the schedule of the second: every token is revoked, no check is under way, and the session is accepted throughout a new lifetime |
| `SessionDevices.DeviceInvariant` | src/auth/auth.service.ts:1005-1050 | in every reachable state each live token labelled with a device has an existing, active row for it |
| `SessionDevices.OnlySignInRevives` | src/auth/auth.service.ts:1018-1019 | an inactive device becomes active exactly by a sign-in on that device, never by a refresh |
| `SessionDevices.OnlySignInStampsLastLogin` | src/auth/auth.service.ts:1018-1030 | `lastLoginAt` of an existing device becomes the instant of a sign-in on it and is left alone by everything else |
| `SessionDevices.DeviceMirrorsNewestToken` | src/auth/auth.service.ts:752-764 | in every reachable state each device row carries hash, expiry and Remember-me of the newest token issued on it |
| `SessionDevices.HistoryInvariant` | src/auth/auth.service.ts:897-925 | in every reachable state a (principal, device) has at most one open login-history row |
| `SessionDevices.HistoryOnlyGrowsAndCloses` | src/auth/auth.service.ts:897-925 | only a sign-in adds a history row, and an open row is closed, once and at that instant, only by a new sign-in on its device or because no live session stands behind it |
| `SessionDevices.HistoryIsSorted` | src/auth/auth.service.ts:897-925 | in every reachable state the history is in the order of its sign-ins |
| `SessionDevices.DeviceSignOutEndsEverySessionOnIt` | src/auth/auth.service.ts:333-345 | afterwards no family that ever had a token on the device holds an unrevoked one, and the device is inactive |
| `SessionDevices.SigningOutOthersKeepsOnlyThisSession` | src/auth/auth.service.ts:367-376 | afterwards every unrevoked token of the principal belongs to the request's `sid`, whose tokens and live devices are unchanged; nothing is left half-ended and no token, device or history row of anyone else differs |
| `SessionDevices.AtMostOneCurrentDevice` | src/auth/auth.service.ts:651-684 | the Active Sessions list marks at most one row as the current device |
| `SessionDevices.ListedExactly` | src/auth/auth.service.ts:651-666 | in every reachable state the Active Sessions list has exactly the principal's devices that a live session is on and whose row has not expired |
| `SessionDevices.MarkedCurrentExactly` | src/auth/auth.service.ts:662-683 | it marks as current exactly the listed device that the live session making the request is on |
| `SessionDevices.LiveSessionListedIff` | src/auth/auth.service.ts:664-666 | a live session on a device is listed if and only if the device row, which mirrors the newest token issued there, has not passed its expiry |
| `SessionDevices.RememberedSessionVanishesFromTheList` | src/auth/auth.service.ts:664-666 | a run in which a live, remembered session is missing from its owner's list after a later ordinary sign-in on the device lapses |
| `SessionDevices.RevivedOnlyAtTheExpiryInstant` | src/auth/auth.service.ts:236-242 | a successful refresh brings back a session no query calls live exactly when it comes at the very instant the token expires |
| `SessionDevices.RefreshAtTheExpiryInstantRevives` | src/auth/auth.service.ts:236-242 | the run in which it happens, for any lifetime |
| `SessionDevices.RemovedUserIsHalfEndedIff` | src/modules/user/user.service.ts:937-943 | removing a staff user leaves nothing half-ended if and only if that user had no active device and no open history row |
| `SessionDevices.RemovedUserKeepsTheirDevice` | src/modules/user/user.service.ts:937-943 | the run in which it happens: a user signed in on a device is removed and the device stays active |
| `AuthServices.SessionTables.RevokeUserSessions` | src/auth/session-revocation.ts:61-111 | the three UPDATEs in order, each reading what the one before left, reach the revocation's final tables and leave nothing half-ended |
| `AuthServices.SessionTables.FlipIfUnrevoked` | src/auth/auth.service.ts:257-264 | the conditional UPDATE affects the row exactly when it was unrevoked and changes nothing otherwise |
| `AuthServices.SessionLivenessService.IsLive` | src/auth/session-liveness.service.ts:37-49 | answer and cache as at operation level; never false while the session has a live token; the tables are only read |
| `AuthServices.SessionLivenessService.Forget` | src/auth/session-liveness.service.ts:52-56 | the markers removed are exactly those of the families whose delete reached Redis |
| `AuthServices.AuthService.SessionAccepted` | src/auth/strategies/jwt.strategy.ts:116-124 | accepted without `sid`, refused for a `sid` that is not a non-empty string, otherwise by liveness; the tables are only read |
| `AuthServices.AuthService.EndSessions` | src/auth/auth.service.ts:938-951 | returns the sessions that were live before, and leaves tables and cache as at operation level with nothing half-ended |
| `AuthServices.AuthService.InsertLoginHistory` | src/auth/auth.service.ts:897-925 | the loop over the table closes exactly the open rows of that device before adding the new one |
| `AuthServices.AuthService.Login` | src/auth/auth.service.ts:153-163 | a successful sign-in reaches the operation-level state, with exactly the new token appended |
| `AuthServices.AuthService.Rotate` | src/auth/auth.service.ts:257-320 | from the conditional UPDATE on, over tables another call may have changed: a row found revoked means the race is lost and the family ends, otherwise the row is revoked and, if the account still stands, succeeded |
| `AuthServices.AuthService.Refresh` | src/auth/auth.service.ts:222-320 | every branch, in order, gives the operation-level verdict and state when nothing runs between the read and the UPDATE; a token that is revoked, expired or on a signed-out device ends exactly its session, and success is told exactly for a refreshable token of a standing account |
| `AuthServices.AuthService.Logout` | src/auth/auth.service.ts:325-329 | an unknown token changes nothing, a known one ends exactly its session |
| `AuthServices.AuthService.LogoutDevice` | src/auth/auth.service.ts:333-345 | false and no change for an unknown device, otherwise exactly the sessions ever seen on it end |
| `AuthServices.AuthService.LogoutAll` | src/auth/auth.service.ts:352-376 | exactly the principal's sessions that are not excepted end |
| `AuthServices.AuthService.GetLoginHistory` | src/auth/auth.service.ts:688-723 | each status of a listed row is right against the sessions live now, and active rows never outnumber them |
| `AuthServices.ListedAreTheNewest` | src/auth/auth.service.ts:690-694 | in every reachable state the listed rows run from later to earlier and no row left out is later than one listed |
| `AuthServices.NewestFirstAre` | src/auth/auth.service.ts:690-694 | they are the principal's last rows, as many as asked for or as there are |
| `LoginHistory.ClaimLiveSession` | src/auth/auth.service.ts:702-707 | a row claims a session exactly when one can vouch for it, and claiming uses up exactly one |
| `LoginHistory.StatusesOf` | src/auth/auth.service.ts:698-722 | for any rows newest first: a device with a live session makes exactly its newest open row active, deviceless rows are active while as many sessions remain, others expire, and active rows never outnumber live sessions |
| `LoginHistory.NoMoreClaimsThanSessions` | src/auth/auth.service.ts:700-701 | distinct devices plus deviceless sessions never exceed the live sessions |
| `Redis.RedisService.Get` | src/redis/redis.service.ts:33-40 | a miss and a failure answer alike; an expired entry is a miss |
| `Redis.RedisService.IncrementWithTtl` | src/redis/redis.service.ts:66-82 | the store after each way the command can end, the count and the time left; a running window keeps its expiry and a missing one is set |
| `Redis.RedisService.Counter` | src/redis/redis.service.ts:90-103 | reads the counter and gives a missing expiry one window from now |
| `LoginAttempts.LoginAttemptsService.ReadMemory` | src/auth/login-attempts.service.ts:150-159 | a lapsed entry is deleted and reported absent |
| `LoginAttempts.LoginAttemptsService.Read` | src/auth/login-attempts.service.ts:131-138 | the larger of the two stores' counts, Redis on a tie |
| `LoginAttempts.LoginAttemptsService.LockStateOf` | src/auth/login-attempts.service.ts:96-105 | locked exactly when the account's count has reached `perAccount` or the address's `perIp` |
| `LoginAttempts.LoginAttemptsService.Increment` | src/auth/login-attempts.service.ts:140-148 | memory counts exactly when Redis gave no answer |
| `LoginAttempts.LoginAttemptsService.Prune` | src/auth/login-attempts.service.ts:161-163 | the loop deletes exactly the lapsed entries |
| `LockoutRuns.FailureCountsOnce` | src/auth/login-attempts.service.ts:140-148 | in either store a failure adds one to the running window without moving its end, or starts a window, for its own key only |
| `LockoutRuns.LockedIffAWindowIsFull` | src/auth/login-attempts.service.ts:131-138 | a subject is locked exactly when its running window is full in memory or, if it can be read, in Redis |
| `LockoutRuns.RefusedIff` | src/auth/login-attempts.service.ts:96-105 | an attempt is refused exactly when a window of its account that it can read has counted `perAccount` failures, or one of its address `perIp` |
| `LockoutRuns.ReadIsTheFuller` | src/auth/login-attempts.service.ts:131-159 | the counter read is the larger of the two running windows with its own time left, the one in Redis on a tie, a missing expiry reading as one window |
| `LockoutRuns.AdmittedFailureCounts` | src/auth/login-attempts.service.ts:107-148 | a failure let through adds one for its account and one for its address, in each store its command reached and in memory where Redis gave no answer; a count that ran to its end leaves an expiry |
| `LockoutRuns.SuccessForgivesTheAccountOnly` | src/auth/login-attempts.service.ts:112-117 | a success clears the account's window in memory, and in Redis exactly when the delete arrives; the client's windows stay |
| `LockoutBounds.LockoutBound` | src/auth/login-attempts.service.ts:96-110 | over any run of attempts on any accounts and addresses, in either store, a window holds at most the limit L and any span of one window length at most 2L - 1 admitted failures of a key; for an account the run holds no success, though its right password may be presented and refused while it is locked, and in Redis no attempt overshoots |
| `LockoutBounds.AccountBound` | src/auth/login-attempts.service.ts:96-110 | with the numbers: at most 2 * perAccount - 1 admitted failures of an account in one window length, under the same condition |
| `LockoutBounds.AddressBound` | src/auth/login-attempts.service.ts:96-110 | and at most 2 * perIp - 1 from one address, whatever succeeds in between |
| `LockoutBounds.LockoutBoundIsReached` | src/auth/login-attempts.service.ts:131-148 | both bounds are tight, for every limit and window: one account guessed at reaches 2 * perAccount - 1, and one address guessing at as many accounts as there are guesses reaches 2 * perIp - 1 |
| `LockoutBounds.OvershootsIff` | src/auth/login-attempts.service.ts:131-142 | one attempt takes a window of an account or a client past its limit exactly when it is a failure counted in a full Redis counter that its own read did not reach |
| `LockoutBounds.WindowsStayWithinIff` | src/auth/login-attempts.service.ts:131-148 | over any run with Redis going up and down, each store's window of a key is within the limit after every attempt if and only if no attempt overshoots; in memory always |
| `LockoutBounds.BlindFailureOvershoots` | src/auth/login-attempts.service.ts:131-142 | the run in which Redis goes past the limit, for any limits: the budget is used up, then one read is lost and its count is not |
| `LockoutEnds.NothingExtendsAWindow` | src/redis/redis.service.ts:66-82 | no read, failure or success ever moves the end of a running window later, in either store |
| `LockoutEnds.ExpiriesStayNear` | src/auth/login-attempts.service.ts:131-148 | in every run no stored expiry ever lies further ahead than one window |
| `LockoutEnds.ReachableReadBoundsTheLock` | src/redis/redis.service.ts:90-103 | from such a state, a counter without expiry included, one read that reaches Redis bounds every window of the key by one window length |
| `LockoutEnds.RetryAfterIsBounded` | src/auth/login-attempts.service.ts:96-105 | in every run the wait a locked caller is told is positive and at most one window |
| `LockoutEnds.EveryLockEnds` | src/redis/redis.service.ts:84-103 | after such a read the lock is over one window later in every continuation without an admitted failure of the subject |
| `LockoutEnds.LockHoldsAndEnds` | src/auth/login-attempts.service.ts:96-105 | in every run, once a full window of a subject has been read, every attempt of the subject that can read it is refused until the window ends, at most one window away, and one window later the subject is free |
| `MemoryRefinement.MemoryStaysSmall` | src/auth/login-attempts.service.ts:147-163 | after a count more than 5000 entries are left only if every one of them is still running |
| `MemoryRefinement.MemoryRefinesPlainCounters` | src/auth/login-attempts.service.ts:140-163 | lazy deletion and pruning are invisible: over any run in clock order every read and count answers what a plain never-cleaned counter per key would |
| `AccountConsolidation.OrderedUnionIsTheUnion` | src/migrations/1794100000000-ConsolidateSettingsResourcesIntoAccount.ts:62-67 | the ordered union lists exactly the codes of both lists |
| `AccountConsolidation.CatalogueOrder` | src/migrations/1794100000000-ConsolidateSettingsResourcesIntoAccount.ts:33-45 | ACCOUNT's codes are those of the eight pages, page after page |
| `AccountConsolidation.OrderedUnionIsOrdered` | src/migrations/1794100000000-ConsolidateSettingsResourcesIntoAccount.ts:61-67 | the known codes come first in the catalogue's order, the others after them where they first occur, none twice |
| `AccountConsolidation.ConsolidationMovesExactly` | src/migrations/1794100000000-ConsolidateSettingsResourcesIntoAccount.ts:97-141 | for any table, policy and resource: the per-page grants, and only those, move to ACCOUNT and every other resource keeps what it had |
| `AccountConsolidation.ConsolidationPreservesMeaning` | src/migrations/1794100000000-ConsolidateSettingsResourcesIntoAccount.ts:97-141 | what each policy grants is unchanged and no row is left on a per-page resource |
| `AccountConsolidation.ConsolidationLeavesBystanders` | src/migrations/1794100000000-ConsolidateSettingsResourcesIntoAccount.ts:100-105 | no soft-deleted row comes back and no unrelated row changes |
| `AccountConsolidation.SplittingGivesEachPageItsOwn` | src/migrations/1794100000000-ConsolidateSettingsResourcesIntoAccount.ts:175-195 | splitting gives each page exactly its own codes out of what the policy holds on ACCOUNT |
| `AccountConsolidation.SplittingKeepsTheRest` | src/migrations/1794100000000-ConsolidateSettingsResourcesIntoAccount.ts:176-194 | no row is left on ACCOUNT, every other row stays, soft-deleted ones included, and the rows added are live ones on pages |
| `AccountConsolidation.SplittingGrants` | src/migrations/1794100000000-ConsolidateSettingsResourcesIntoAccount.ts:176-194 | on any table, splitting keeps a policy's grants off ACCOUNT and turns those on it into the page codes among them |
| `AccountMigration.UpPreservesEveryGrant` | src/migrations/1794100000000-ConsolidateSettingsResourcesIntoAccount.ts:72-155 | `up` leaves every policy's grants unchanged in every table, leaves no per-page resource, and run again changes nothing |
| `AccountMigration.UpKeepsWellFormed` | src/migrations/1794100000000-ConsolidateSettingsResourcesIntoAccount.ts:143-154 | every statement still refers to an existing resource, so the RESTRICT key lets the pages be deleted |
| `AccountMigration.UpReplacesThePages` | src/migrations/1794100000000-ConsolidateSettingsResourcesIntoAccount.ts:78-154 | wherever a page exists the pages go and ACCOUNT is there; every other resource keeps its id |
| `AccountMigration.UpGathersOnAccount` | src/migrations/1794100000000-ConsolidateSettingsResourcesIntoAccount.ts:97-141 | ACCOUNT then holds exactly what the policy held on the pages and on ACCOUNT |
| `AccountMigration.DownSplitsAccount` | src/migrations/1794100000000-ConsolidateSettingsResourcesIntoAccount.ts:157-197 | where a page did not exist, `down` gives it exactly its own codes out of ACCOUNT's |
| `AccountMigration.EachPageGetsItsOwn` | src/migrations/1794100000000-ConsolidateSettingsResourcesIntoAccount.ts:33-42 | the same page by page and code by code, for all eight |
| `AccountMigration.DownReplacesAccount` | src/migrations/1794100000000-ConsolidateSettingsResourcesIntoAccount.ts:162-196 | wherever ACCOUNT exists it goes and all eight pages are there; every other resource keeps its id |
| `AccountMigration.DownMovesTheRows` | src/migrations/1794100000000-ConsolidateSettingsResourcesIntoAccount.ts:176-196 | no row of any table is left on ACCOUNT's old id, no other row goes, and every new row is a live one on a page |
| `AccountMigration.DownKeepsWellFormed` | src/migrations/1794100000000-ConsolidateSettingsResourcesIntoAccount.ts:194-196 | every statement still refers to an existing resource, so the RESTRICT key lets ACCOUNT be deleted |
| `AccountMigration.RoundTripResources` | src/migrations/1794100000000-ConsolidateSettingsResourcesIntoAccount.ts:72-197 | after `up` and `down` every page exists and ACCOUNT does not, wherever a page or ACCOUNT existed; every other resource has its old id |
| `AccountMigration.PrimaryKeysStay` | src/migrations/1794100000000-ConsolidateSettingsResourcesIntoAccount.ts:72-197 | both ways keep each table in the order of its primary keys and hand out only new ones |
| `AccountMigration.RoundTripLeaves` | src/migrations/1794100000000-ConsolidateSettingsResourcesIntoAccount.ts:72-197 | after `up` and `down` each page holds those of its own codes the policy held anywhere on the pages or ACCOUNT |
| `AccountMigration.RoundTripRestoresIff` | src/migrations/1794100000000-ConsolidateSettingsResourcesIntoAccount.ts:72-197 | the round trip restores every page of a policy if and only if each page held only its own codes and ACCOUNT added none to them |
| `AccountMigration.DownGrants` | src/migrations/1794100000000-ConsolidateSettingsResourcesIntoAccount.ts:157-197 | `down` keeps what a policy grants on every resource but ACCOUNT and, of what it grants there, the codes of the pages |
| `AccountMigration.RoundTripLeavesGrants` | src/migrations/1794100000000-ConsolidateSettingsResourcesIntoAccount.ts:72-197 | after `up` and `down` a policy grants what it held outside the pages and ACCOUNT, and of what it held on them the codes of the pages |
| `AccountMigration.RoundTripKeepsGrantsIff` | src/migrations/1794100000000-ConsolidateSettingsResourcesIntoAccount.ts:72-197 | the round trip grants nothing new, and gives a policy back all it granted if and only if every code it held on the pages or ACCOUNT belongs to some page or is granted elsewhere too |
| `AccountMigration.CodeOfNoPageIsLost` | src/migrations/1794100000000-ConsolidateSettingsResourcesIntoAccount.ts:183-194 | a database on which it does not: a code of no page on a Profile statement |
| `AccountMigrationRun.GroupByPolicy` | src/migrations/1794100000000-ConsolidateSettingsResourcesIntoAccount.ts:100-109 | the grouping loop; it fails exactly on a live per-page value that cannot be parsed |
| `AccountMigrationRun.FoldOne` | src/migrations/1794100000000-ConsolidateSettingsResourcesIntoAccount.ts:111-141 | one policy's fold; the equivalence check after it cannot fire |
| `AccountMigrationRun.ConsolidateTable` | src/migrations/1794100000000-ConsolidateSettingsResourcesIntoAccount.ts:97-141 | one table's fold; it fails exactly when a value it must parse cannot be, never on a self-check |
| `AccountMigrationRun.SplitTable` | src/migrations/1794100000000-ConsolidateSettingsResourcesIntoAccount.ts:174-195 | one table's split, with the same condition |
| `AccountMigrationRun.MigrationDatabase.Up` | src/migrations/1794100000000-ConsolidateSettingsResourcesIntoAccount.ts:72-155 | succeeds exactly when every value it reads can be parsed, then reaches the specified database, else changes nothing |
| `AccountMigrationRun.MigrationDatabase.Down` | src/migrations/1794100000000-ConsolidateSettingsResourcesIntoAccount.ts:157-197 | likewise for the way back |
| `CodeFolding.FoldingMapsGrants` | src/migrations/1792800000000-ConsolidateDuplicateActionCodes.ts:98-127 | on any table each migration replaces what a policy grants by exactly the image under its code map, duplicates collapsed |
| `CodeFolding.FoldingIdempotent` | src/migrations/1792900000000-RenameUserOverviewToViewUser.ts:40-91 | each of the three migrations is idempotent on any statement table and any active flags |
| `CodeFolding.ReplayedInOnePass` | src/migrations/1793100000000-RetireDeadActionCodes.ts:29-84 | merge, correction and strip in timestamp order are one pass that drops the dead codes and folds the rest |
| `CodeFolding.RepairEqualsReplay` | src/migrations/1793300000000-RepairNullPolicyStatementActions.ts:143-154 | for every set of codes, filtering first and folding afterwards derives what replaying the three migrations on the represented codes leaves |
| `CodeFolding.RepairMatchesMigratedPolicies` | src/migrations/1793300000000-RepairNullPolicyStatementActions.ts:122-154 | a policy whose statements went through the three migrations grants exactly what the repair derives from the codes it started with |
| `CodeFolding.SequenceIdempotent` | src/migrations/1793300000000-RepairNullPolicyStatementActions.ts:143-154 | the composed code map, the whole sequence and the repair's derivation are each idempotent |
| `CodeFolding.MergingAgainUndoesTheCorrectionIff` | src/migrations/1792800000000-ConsolidateDuplicateActionCodes.ts:53-65 | running the merge alone again after the others changes a policy's codes if and only if it holds VIEW_USER, which goes back to the retired USER_OVERVIEW |
| `CodeFolding.MergingTheTableAgain` | src/migrations/1792800000000-ConsolidateDuplicateActionCodes.ts:98-127 | on any table, a policy that grants VIEW_USER after the three grants USER_OVERVIEW instead after the merge runs once more |
| `CodeFolding.ViewUserIsLostByMergingAgain` | src/migrations/1792800000000-ConsolidateDuplicateActionCodes.ts:98-127 | a table on which that happens: one statement granting VIEW_USER |
| `CodeFolding.GrantsAfterTheThree` | src/migrations/1792800000000-ConsolidateDuplicateActionCodes.ts:53-65 | after the three migrations, for every policy and code by code: each surviving code is granted exactly where it or a code folded onto it was, each retired or dead code nowhere, and every code they do not name exactly where it was |
| `CodeFolding.RepairedByCode` | src/migrations/1793300000000-RepairNullPolicyStatementActions.ts:143-154 | the same of what the repair derives, with METER_EDIT and the navigation-only codes dropped |
| `CodeFolding.FlagsByCode` | src/migrations/1792900000000-RenameUserOverviewToViewUser.ts:48-55 | which codes each migration leaves selectable, code by code: those it retires are switched off, VIEW_USER is switched on by the correction, no other flag changes |
| `CodeFolding.FoldedRowsStay` | src/migrations/1792800000000-ConsolidateDuplicateActionCodes.ts:98-112 | a migration changes only the codes of a statement, soft-deleted or not, each to its image; it leaves a statement without an affected code as stored and lists the codes of any other once, where they first occur |
| `CodeFolding.CodeDatabase.Up` | src/migrations/1792800000000-ConsolidateDuplicateActionCodes.ts:70-128 | `up` of the three: fails exactly on a value that is not an array, else reaches the folded table and flags; the check after each rewrite cannot fire |
| `CodeFolding.CodeDatabase.SwitchFlags` | src/migrations/1792900000000-RenameUserOverviewToViewUser.ts:50-58 | the flag updates: affected codes off, VIEW_USER on by the correction, the rest untouched |
| `ResourceGrouping.GroupByKey` | src/migrations/1792600000000-AddIamPolicyBackfill.ts:119-128 | the grouping loop fails exactly on a code without a resource, and otherwise makes one group per resource in order of first need |
| `ResourceGrouping.GroupsPartition` | src/migrations/1792600000000-AddIamPolicyBackfill.ts:119-128 | the groups partition the codes: none is empty and every code is in its own resource's group and no other |
| `ResourceGrouping.Resolve` | src/migrations/1792600000000-AddIamPolicyBackfill.ts:160-170 | the self-check's reading of a policy; it fails exactly on a row that is not an array |
| `ResourceGrouping.WritingAdds` | src/migrations/1792600000000-AddIamPolicyBackfill.ts:144-151 | the written rows add to the policy exactly the codes of their resources |
| `ResourceGrouping.WrittenRowsHoldTheirResource` | src/migrations/1792600000000-AddIamPolicyBackfill.ts:144-151 | every written row is a live row of the policy on a wanted resource, with exactly that resource's codes |
| `RepairStatements.DerivedIs` | src/migrations/1793300000000-RepairNullPolicyStatementActions.ts:143-154 | the pipeline over the query's rows derives exactly the repaired code set |
| `RepairStatements.RepairAddsTheDerivedCodes` | src/migrations/1793300000000-RepairNullPolicyStatementActions.ts:172-202 | filling null rows and inserting missing ones adds the derived codes to what the policy stores, leaves no null row, and touches no other row |
| `RepairStatements.RepairedRowsHoldTheirResource` | src/migrations/1793300000000-RepairNullPolicyStatementActions.ts:174-202 | every row rewritten or inserted lists exactly the derived codes of its own resource |
| `RepairStatements.RepairCheckPassesIff` | src/migrations/1793300000000-RepairNullPolicyStatementActions.ts:204-221 | the self-check passes if and only if every other row of the policy is an array of derived codes; a derived code is never missing |
| `RepairStatements.RepairKeepsKeys` | src/migrations/1793300000000-RepairNullPolicyStatementActions.ts:174-202 | every row keeps its primary key and the rows inserted take the next ones |
| `RepairStatements.RepairRestoresLiveGrantsIff` | src/migrations/1793300000000-RepairNullPolicyStatementActions.ts:112-221 | a passing repair gives the live statements every derived code if and only if none is left to a soft-deleted row alone |
| `RepairStatements.SoftDeletedNullRowSwallowsTheRepair` | src/migrations/1793300000000-RepairNullPolicyStatementActions.ts:174-221 | a table on which it fails: the only null row on a resource is soft-deleted, the check passes and nothing is granted |
| `RepairRun.RepairDatabase.FillNullRows` | src/migrations/1793300000000-RepairNullPolicyStatementActions.ts:174-185 | fails exactly on a null row whose resource no code belongs to |
| `RepairRun.RepairDatabase.InsertMissing` | src/migrations/1793300000000-RepairNullPolicyStatementActions.ts:193-202 | one row per needed resource that no null row covered |
| `RepairRun.RepairDatabase.RepairPolicy` | src/migrations/1793300000000-RepairNullPolicyStatementActions.ts:103-222 | skips a policy without null rows, else succeeds exactly when it can be repaired and reaches the repaired table |
| `RepairRun.RepairDatabase.Up` | src/migrations/1793300000000-RepairNullPolicyStatementActions.ts:71-242 | succeeds exactly when every null-row policy named after a role can be repaired; then each stores what the replay would have left and grants it if and only if no code was left to a soft-deleted row alone, every other null-row policy gains the marker, no null row is left, no other row changed, and a second run changes nothing; else everything is rolled back |
| `PolicyBackfill.CheckPassesIff` | src/migrations/1792600000000-AddIamPolicyBackfill.ts:158-178 | the self-check, which reads soft-deleted rows too, is exact and cannot fire for a newly inserted policy; for a reused one it passes if and only if the policy's rows held nothing beyond the role's codes |
| `PolicyBackfill.NewRowsHoldTheirResource` | src/migrations/1792600000000-AddIamPolicyBackfill.ts:119-151 | each statement written for a role is a live row of its policy with exactly the role's unretired codes of that resource |
| `PolicyBackfill.MigratedRoleEffective` | src/migrations/1792600000000-AddIamPolicyBackfill.ts:130-156 | a role whose check passes may do precisely its codes, or nothing at all when the policy it was given is a soft-deleted one |
| `PolicyBackfill.OtherRoleAfter` | src/migrations/1792600000000-AddIamPolicyBackfill.ts:130-156 | any other role gains in effect exactly what is written on a policy it holds |
| `PolicyBackfill.ReuseChangesAnotherRoleIff` | src/migrations/1792600000000-AddIamPolicyBackfill.ts:130-134 | reusing a policy by name changes what another role may do if and only if that role holds the policy and could not use one of the codes; no check sees it |
| `PolicyBackfill.SharedPolicyGivesAnotherRoleACode` | src/migrations/1792600000000-AddIamPolicyBackfill.ts:130-178 | a database on which that happens although the check's own reading of the other role stays the same |
| `PolicyBackfill.MigratableStays` | src/migrations/1792600000000-AddIamPolicyBackfill.ts:99-179 | whether a role can be migrated does not depend on the roles migrated before it |
| `PolicyBackfill.BackfillCommitsIff` | src/migrations/1792600000000-AddIamPolicyBackfill.ts:99-179 | the run commits exactly when every role not skipped is mapped and its same-named policy, if any, held nothing else; a second run changes nothing |
| `PolicyBackfill.CommitsWhenEveryRoleCan` | src/migrations/1792600000000-AddIamPolicyBackfill.ts:99-179 | in the tables' own terms: the run commits exactly when, for every role without any attachment and with a code other than METER_EDIT, all those codes are mapped and a policy already named after it lists only such codes |
| `PolicyBackfill.MigratedRolesHaveTheirPolicy` | src/migrations/1792600000000-AddIamPolicyBackfill.ts:127-156 | each such role is then attached to the policy of its name and to no other, and may do exactly its codes but METER_EDIT, or nothing if that policy is soft-deleted |
| `PolicyBackfill.NothingElseIsAttached` | src/migrations/1792600000000-AddIamPolicyBackfill.ts:99-107 | every other role keeps exactly the attachments it had, and no policy name or statement goes |
| `PolicyBackfill.BackfillKeepsKeys` | src/migrations/1792600000000-AddIamPolicyBackfill.ts:144-151 | every statement keeps its primary key and the ones inserted take the next ones |
| `PolicyBackfill.BackfillEquivalence` | src/modules/iam/iam.service.ts:563-588 | over what the running program resolves (live statements of live policies): after a committed run a role that had no policy may do precisely what it could before if and only if it has no codes or no soft-deleted policy has its name, and no other role loses anything |
| `PolicyBackfill.RemovedPolicyLeavesItsRolePowerless` | src/modules/iam/iam.service.ts:325-330 | a database on which it fails: the policy with the role's name was deleted through the API, the check passes and the role may do nothing |
| `PolicyBackfill.AttachedRolesGainExactly` | src/migrations/1792600000000-AddIamPolicyBackfill.ts:99-179 | a role that already had policies gains in effect exactly the codes of the migrated roles named after one it holds |
| `BackfillRun.BackfillDatabase.WriteStatements` | src/migrations/1792600000000-AddIamPolicyBackfill.ts:144-151 | one statement per group, in order |
| `BackfillRun.BackfillDatabase.BackfillRole` | src/migrations/1792600000000-AddIamPolicyBackfill.ts:99-179 | one turn of the role loop: skip, reuse or insert, attach and check, as specified |
| `BackfillRun.BackfillDatabase.Up` | src/migrations/1792600000000-AddIamPolicyBackfill.ts:99-179 | the loop over roles; a failing role rolls everything back |

## Left out

- Cryptography, UUIDs and token hashing: abstract numbers that never repeat.
- AuthServices.AuthService.SessionAccepted: `validate` is modelled up to its liveness check; the account and role checks after it,
  like those after the rotation in `refresh` (taken as `identityOk`), are not.
- AuthServices.AuthService.Refresh: runs without interruption, so its UPDATE always wins; losing is in the contract of `Rotate`, which
  it calls, and at step level `RotationProtocol.Flip` on a revoked row followed by `Revoke`.
- AuthServices.AuthService.Login: starts where the credential, account and role checks have passed.
- Legacy tokens without `sid` and the device-label fallback of `sessionsToKeep` and `getDevices`.
- Descriptive device fields, user-agent parsing, audit rows, e-mail masking, logging, message texts.
- `getDevices` as a listing: its row set and the current-device mark are modelled (`SessionDevices.Listed`, `MarkedCurrent`), not
  its order or its fields.
- LoginAttempts.LoginAttemptsService.LockStateOf: `retryAfter` is in exact milliseconds, where the service rounds Redis TTLs to whole
  seconds; a repairing read whose answer was lost is not told from a reached one.
- LockoutBounds.LockoutBound: is about attempts handled one after the other; the two reads or counts of one attempt, issued in
  parallel by the service, run in order. A missing Redis is one that is never reached.
- SQL collation, isolation levels and timestamp rounding: an UPDATE, INSERT or DELETE is one step over rows; a table scan is in
  primary-key order.
- The migrations' guards for a fresh install (`hasTable`), the `down` of the code-folding, repair and backfill migrations, the
  seeding and syncing of `resources`, and the renaming of the sessions action.
- Statement values that are JSON text of something other than an array, and action codes that happen to be names of JavaScript's
  built-in object properties.
- Which of several failures a migration reports: only that it fails, when, and that it rolls back. The two look-ups from an action
  code to a resource id are one map, so an unmapped code and a missing resource are one failure.
- PolicyBackfill.BackfillEquivalence: covers what a role may do through its policies; inline policies, which came with later
  migrations, and the business-approval codes withheld from SUPER_ADMIN are not modelled, and a statement that is not an array,
  on which the resolver throws, grants nothing here.
- Workflow, billing, tariff and meter logic, HTTP plumbing, and the other migrations: nothing here depends on them.
