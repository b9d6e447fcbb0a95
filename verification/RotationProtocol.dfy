/** Step level of refresh-token rotation: every read, UPDATE and INSERT of `AuthService.refresh` is one atomic step, and
    any number of refreshes, sign-ins and revocations interleave in any order, at any times. */
module RotationProtocol {
  import opened Wrappers
  import opened SessionData
  import opened SessionRevocation

  /** A refresh that is under way for the token in `row`; `device` is the label its successor will carry. */
  datatype Flight =
    | Checked(row: nat, device: Option<DeviceId>)  // passed the early checks, has not tried the conditional UPDATE
    | Flipped(row: nat, device: Option<DeviceId>)  // its UPDATE revoked the row, its successor is not inserted yet

  /** The token table, the row each token was rotated from, and the refreshes under way by request. */
  datatype System = System(tokens: seq<Token>, parents: seq<Option<nat>>, flights: map<nat, Flight>)

  const START := System([], [], map[])

  datatype Step =
    | OpenSession(token: Token)
    | Check(request: nat, presented: nat, claimed: Option<DeviceId>, now: int)
    | Flip(request: nat, now: int)
    | Insert(request: nat, hash: Hash, expiresAt: int)
    | Abandon(request: nat)
    | Revoke(owner: Principal, scope: Scope, now: int)

  /** What `refresh` checks before its UPDATE: found, not revoked, not past its expiry, and not on another device. */
  predicate PassesChecks(tokens: seq<Token>, row: nat, claimed: Option<DeviceId>, now: int) {
    && row < |tokens|
    && tokens[row].Usable(now)
    && !(claimed.Some? && tokens[row].device.Some? && tokens[row].device != claimed)
  }

  /** A session keeps its device; the label of the request only fills in a missing one. */
  function CarriedDevice(stored: Token, claimed: Option<DeviceId>): Option<DeviceId> {
    if stored.device.Some? then stored.device else claimed
  }

  function Successor(stored: Token, device: Option<DeviceId>, hash: Hash, expiresAt: int): Token {
    Token(hash, stored.owner, stored.family, device, expiresAt, None, stored.rememberMe)
  }

  /** A freshly drawn token never hashes to one already in the table. */
  predicate HashFree(tokens: seq<Token>, hash: Hash) { forall t | t in tokens :: t.hash != hash }

  predicate Enabled(s: System, step: Step) {
    match step
    case OpenSession(token) =>
      token.Unrevoked() && !FamilyKnown(s.tokens, token.family) && HashFree(s.tokens, token.hash)  // both fresh
    case Check(request, row, claimed, now) => request !in s.flights && PassesChecks(s.tokens, row, claimed, now)
    case Flip(request, _) => request in s.flights && s.flights[request].Checked? && s.flights[request].row < |s.tokens|
    case Insert(request, hash, _) =>
      && request in s.flights && s.flights[request].Flipped? && s.flights[request].row < |s.tokens|
      && HashFree(s.tokens, hash)
    case Abandon(request) => request in s.flights
    case Revoke(_, _, _) => true
  }

  /** One atomic step; a step that is not enabled leaves the system as it is. */
  function Take(s: System, step: Step): System {
    if !Enabled(s, step) then s else
    match step
    case OpenSession(token) => s.(tokens := s.tokens + [token], parents := s.parents + [None])
    case Check(request, row, claimed, _) =>
      s.(flights := s.flights[request := Checked(row, CarriedDevice(s.tokens[row], claimed))])
    case Flip(request, now) =>
      var flight := s.flights[request];
      var row := flight.row;
      if s.tokens[row].Unrevoked()  // SET revoked_at ... WHERE id = ? AND revoked_at IS NULL
      then s.(tokens := s.tokens[row := s.tokens[row].(revokedAt := Some(now))],
              flights := s.flights[request := Flipped(row, flight.device)])
      else s.(flights := s.flights - {request})
    case Insert(request, hash, expiresAt) =>
      var flight := s.flights[request];
      System(s.tokens + [Successor(s.tokens[flight.row], flight.device, hash, expiresAt)],
             s.parents + [Some(flight.row)],
             s.flights - {request})
    case Abandon(request) => s.(flights := s.flights - {request})
    case Revoke(owner, scope, now) => s.(tokens := RevokeTokens(s.tokens, owner, scope, now))
  }

  function Run(s: System, steps: seq<Step>): System
    decreases |steps|
  {
    if steps == [] then s else Run(Take(s, steps[0]), steps[1..])
  }

  // ---------------------------------------------------------------------------------------------------------------
  // The inductive invariant
  // ---------------------------------------------------------------------------------------------------------------

  ghost predicate LastOfFamily(tokens: seq<Token>, row: nat)
    requires row < |tokens|
  {
    forall j | row < j < |tokens| :: tokens[j].family != tokens[row].family
  }

  ghost predicate FlightOk(s: System, flight: Flight) {
    && flight.row < |s.tokens|
    && (s.tokens[flight.row].device.Some? ==> flight.device == s.tokens[flight.row].device)
    && (flight.Flipped? ==> !s.tokens[flight.row].Unrevoked() && LastOfFamily(s.tokens, flight.row))
  }

  /** The parent of a row is the row before it in its family, and only a family's first row has none. */
  ghost predicate ParentOk(s: System, row: nat)
    requires row < |s.tokens| == |s.parents|
  {
    match s.parents[row]
    case None => forall i | 0 <= i < row :: s.tokens[i].family != s.tokens[row].family
    case Some(p) =>
      && p < row
      && s.tokens[p].family == s.tokens[row].family
      && forall i | p < i < row :: s.tokens[i].family != s.tokens[row].family
  }

  ghost predicate Inv(s: System) {
    && Linear(s.tokens)
    && |s.parents| == |s.tokens|
    && (forall row | 0 <= row < |s.tokens| :: ParentOk(s, row))
    && (forall r | r in s.flights :: FlightOk(s, s.flights[r]))
    && (forall q, r | q in s.flights && r in s.flights && q != r && s.flights[q].Flipped? && s.flights[r].Flipped? ::
          s.flights[q].row != s.flights[r].row)
  }

  /** What a family has left to continue with: its unrevoked rows and the refreshes that owe it a successor. */
  function UnrevokedRows(s: System, family: Family): set<nat> {
    set i: nat | i < |s.tokens| && s.tokens[i].family == family && s.tokens[i].Unrevoked()
  }

  function OwedSuccessors(s: System, family: Family): set<nat> {
    set r | r in s.flights && s.flights[r].Flipped? && s.flights[r].row < |s.tokens|
            && s.tokens[s.flights[r].row].family == family
  }

  function SuccessorsOf(s: System, row: nat): set<nat> {
    set j: nat | j < |s.parents| && s.parents[j] == Some(row)
  }

  /** Revoking, or revoking one row, keeps every field but `revokedAt` and never un-revokes. */
  ghost predicate OnlyRevokes(before: seq<Token>, after: seq<Token>) {
    && |after| == |before|
    && forall i | 0 <= i < |before| ::
         && after[i].(revokedAt := before[i].revokedAt) == before[i]
         && (after[i].Unrevoked() ==> before[i].Unrevoked())
  }

  lemma RevokingKeepsInv(s: System, after: seq<Token>)
    requires Inv(s) && OnlyRevokes(s.tokens, after)
    ensures Inv(s.(tokens := after))
  {
    var s' := s.(tokens := after);
    forall row | 0 <= row < |s'.tokens| ensures ParentOk(s', row) {
      assert ParentOk(s, row);
    }
    forall r | r in s'.flights ensures FlightOk(s', s'.flights[r]) {
      assert FlightOk(s, s.flights[r]);
    }
  }

  lemma AppendKeepsInv(s: System, token: Token, parent: Option<nat>)
    requires Inv(s)
    requires forall r | r in s.flights && s.flights[r].Flipped? :: s.tokens[s.flights[r].row].family != token.family
    requires match parent
             case None => forall i | 0 <= i < |s.tokens| :: s.tokens[i].family != token.family
             case Some(p) =>
               && p < |s.tokens| && LastOfFamily(s.tokens, p) && !s.tokens[p].Unrevoked()
               && token == Successor(s.tokens[p], token.device, token.hash, token.expiresAt)
               && (s.tokens[p].device.Some? ==> token.device == s.tokens[p].device)
    ensures Inv(s.(tokens := s.tokens + [token], parents := s.parents + [parent]))
  {
    var s' := s.(tokens := s.tokens + [token], parents := s.parents + [parent]);
    forall row | 0 <= row < |s'.tokens| ensures ParentOk(s', row) {
      if row < |s.tokens| { assert ParentOk(s, row); }
    }
    forall r | r in s'.flights ensures FlightOk(s', s'.flights[r]) {
      assert FlightOk(s, s.flights[r]);
    }
  }

  lemma FlipKeepsInv(s: System, request: nat, now: int)
    requires Inv(s) && Enabled(s, Flip(request, now))
    ensures Inv(Take(s, Flip(request, now)))
  {
    var flight := s.flights[request];
    var row := flight.row;
    assert FlightOk(s, flight);
    if s.tokens[row].Unrevoked() {
      var after := s.tokens[row := s.tokens[row].(revokedAt := Some(now))];
      RevokingKeepsInv(s, after);
      var mid := s.(tokens := after);
      var s' := Take(s, Flip(request, now));
      assert forall i | 0 <= i < |after| :: ParentOk(mid, i) ==> ParentOk(s', i);
      forall r | r in s'.flights ensures FlightOk(s', s'.flights[r]) {
        assert FlightOk(mid, mid.flights[r]);
      }
      forall r | r in s.flights && r != request && s.flights[r].Flipped? ensures s.flights[r].row != row {
        assert FlightOk(s, s.flights[r]);
      }
    } else {
      DroppingAFlightKeepsInv(s, request);
    }
  }

  lemma DroppingAFlightKeepsInv(s: System, request: nat)
    requires Inv(s)
    ensures Inv(s.(flights := s.flights - {request}))
  {
    var s' := s.(flights := s.flights - {request});
    forall row | 0 <= row < |s'.tokens| ensures ParentOk(s', row) {
      assert ParentOk(s, row);
    }
    forall r | r in s'.flights ensures FlightOk(s', s'.flights[r]) {
      assert FlightOk(s, s.flights[r]);
    }
  }

  lemma InsertKeepsInv(s: System, request: nat, hash: Hash, expiresAt: int)
    requires Inv(s) && Enabled(s, Insert(request, hash, expiresAt))
    ensures Inv(Take(s, Insert(request, hash, expiresAt)))
  {
    var flight := s.flights[request];
    assert FlightOk(s, flight);
    var s1 := s.(flights := s.flights - {request});
    DroppingAFlightKeepsInv(s, request);
    forall r | r in s1.flights && s1.flights[r].Flipped?
      ensures s1.tokens[s1.flights[r].row].family != s.tokens[flight.row].family
    {
      assert FlightOk(s, s.flights[r]);
    }
    AppendKeepsInv(s1, Successor(s.tokens[flight.row], flight.device, hash, expiresAt), Some(flight.row));
  }

  lemma StepKeepsInv(s: System, step: Step)
    requires Inv(s)
    ensures Inv(Take(s, step))
  {
    if Enabled(s, step) {
      match step
      case OpenSession(token) =>
        forall r | r in s.flights && s.flights[r].Flipped? ensures s.tokens[s.flights[r].row].family != token.family {
          assert FlightOk(s, s.flights[r]);
        }
        AppendKeepsInv(s, token, None);
      case Check(request, row, claimed, now) =>
        var s' := Take(s, step);
        forall i | 0 <= i < |s'.tokens| ensures ParentOk(s', i) {
          assert ParentOk(s, i);
        }
        forall r | r in s'.flights ensures FlightOk(s', s'.flights[r]) {
          if r != request { assert FlightOk(s, s.flights[r]); }
        }
      case Flip(request, now) => FlipKeepsInv(s, request, now);
      case Insert(request, hash, expiresAt) => InsertKeepsInv(s, request, hash, expiresAt);
      case Abandon(request) => DroppingAFlightKeepsInv(s, request);
      case Revoke(owner, scope, now) => RevokingKeepsInv(s, RevokeTokens(s.tokens, owner, scope, now));
    }
  }

  lemma {:induction false} RunKeepsInv(s: System, steps: seq<Step>)
    requires Inv(s)
    ensures Inv(Run(s, steps))
    decreases |steps|
  {
    if steps != [] {
      StepKeepsInv(s, steps[0]);
      RunKeepsInv(Take(s, steps[0]), steps[1..]);
    }
  }

  // ---------------------------------------------------------------------------------------------------------------
  // Theorems over every interleaving
  // ---------------------------------------------------------------------------------------------------------------

  lemma AllEqualHasAtMostOne<T>(s: set<T>)
    requires forall x, y | x in s && y in s :: x == y
    ensures |s| <= 1
  {
    if s != {} {
      var x :| x in s;
      assert s == {x};
    }
  }

  /** However many refreshes present a family's tokens in parallel, the family never has more than one way on:
      one unrevoked token, or one refresh that still owes it a successor. */
  lemma OneWayOn(steps: seq<Step>, family: Family)
    ensures var s := Run(START, steps);
            |UnrevokedRows(s, family)| + |OwedSuccessors(s, family)| <= 1
  {
    var s := Run(START, steps);
    RunKeepsInv(START, steps);
    var rows, owed := UnrevokedRows(s, family), OwedSuccessors(s, family);
    forall q, r | q in owed && r in owed ensures q == r {
      assert FlightOk(s, s.flights[q]) && FlightOk(s, s.flights[r]);
    }
    AllEqualHasAtMostOne(rows);
    AllEqualHasAtMostOne(owed);
    forall r | r in owed ensures rows == {} {
      assert FlightOk(s, s.flights[r]);
    }
  }

  /** Each refresh token is rotated into at most one successor, and a token that has one is no longer valid. */
  lemma AtMostOneSuccessor(steps: seq<Step>, row: nat)
    ensures var s := Run(START, steps);
            && |SuccessorsOf(s, row)| <= 1
            && (row < |s.tokens| && SuccessorsOf(s, row) != {} ==> !s.tokens[row].Unrevoked())
  {
    var s := Run(START, steps);
    RunKeepsInv(START, steps);
    forall j, k | j in SuccessorsOf(s, row) && k in SuccessorsOf(s, row) ensures j == k {
      assert ParentOk(s, j) && ParentOk(s, k);
    }
    AllEqualHasAtMostOne(SuccessorsOf(s, row));
    forall j | j in SuccessorsOf(s, row) ensures row < |s.tokens| && !s.tokens[row].Unrevoked() {
      assert ParentOk(s, j);
    }
  }

  /** A family is one rotation chain: every token is the successor of the one before it in the family, all of them have
      one principal and one "Remember me" choice, and the device is absent for a prefix and then one fixed device. */
  lemma FamilyIsOneChain(steps: seq<Step>, i: nat, j: nat)
    requires var s := Run(START, steps); i < j < |s.tokens| && s.tokens[i].family == s.tokens[j].family
    ensures var s := Run(START, steps);
            && s.tokens[i].owner == s.tokens[j].owner
            && s.tokens[i].rememberMe == s.tokens[j].rememberMe
            && (s.tokens[i].device.Some? ==> s.tokens[j].device == s.tokens[i].device)
            && j < |s.parents|
            && ((forall k | i < k < j :: s.tokens[k].family != s.tokens[j].family) <==> s.parents[j] == Some(i))
  {
    RunKeepsInv(START, steps);
    assert ParentOk(Run(START, steps), j);
  }

  // ---------------------------------------------------------------------------------------------------------------
  // When a revocation is final
  // ---------------------------------------------------------------------------------------------------------------

  ghost predicate NoWayOn(s: System, family: Family) {
    FamilyKnown(s.tokens, family) && UnrevokedRows(s, family) == {} && OwedSuccessors(s, family) == {}
  }

  lemma KnownStaysKnown(s: System, step: Step, family: Family)
    requires FamilyKnown(s.tokens, family)
    ensures FamilyKnown(Take(s, step).tokens, family)
  {
    var s' := Take(s, step);
    var t :| t in s.tokens && t.family == family;
    var i :| 0 <= i < |s.tokens| && s.tokens[i] == t;
    assert s'.tokens[i].family == family && s'.tokens[i] in s'.tokens;
  }

  lemma NoWayOnIsStable(s: System, step: Step, family: Family)
    requires Inv(s) && NoWayOn(s, family)
    ensures NoWayOn(Take(s, step), family)
  {
    var s' := Take(s, step);
    KnownStaysKnown(s, step, family);
    forall i | 0 <= i < |s.tokens| && s.tokens[i].family == family ensures !s.tokens[i].Unrevoked() {
      assert i !in UnrevokedRows(s, family);
    }
    forall r | r in s.flights
      ensures FlightOk(s, s.flights[r]) && (s.flights[r].Flipped? ==> s.tokens[s.flights[r].row].family != family)
    {
      assert r !in OwedSuccessors(s, family);
    }
    forall i | 0 <= i < |s'.tokens| && s'.tokens[i].family == family ensures !s'.tokens[i].Unrevoked() {
    }
    forall r | r in s'.flights && s'.flights[r].Flipped? ensures s'.tokens[s'.flights[r].row].family != family {
    }
  }

  lemma {:induction false} NoWayOnForever(s: System, steps: seq<Step>, family: Family)
    requires Inv(s) && NoWayOn(s, family)
    ensures NoWayOn(Run(s, steps), family)
    decreases |steps|
  {
    if steps != [] {
      StepKeepsInv(s, steps[0]);
      NoWayOnIsStable(s, steps[0], family);
      NoWayOnForever(Take(s, steps[0]), steps[1..], family);
    }
  }

  /** Whatever happens from here on, the family never has an unrevoked token again. */
  ghost predicate EndedForGood(s: System, family: Family) {
    forall steps: seq<Step> :: UnrevokedRows(Run(s, steps), family) == {}
  }

  lemma NothingOwedIsFinal(s: System, owner: Principal, family: Family, now: int)
    requires Inv(s) && OwedSuccessors(s, family) == {}
    requires exists t :: t in s.tokens && t.family == family && t.owner == owner
    ensures EndedForGood(Take(s, Revoke(owner, Only([family]), now)), family)
  {
    var step := Revoke(owner, Only([family]), now);
    var ended := Take(s, step);
    StepKeepsInv(s, step);
    KnownStaysKnown(s, step, family);
    forall i | 0 <= i < |s.tokens| && s.tokens[i].family == family ensures !ended.tokens[i].Unrevoked() {
      RevokesExactlyTheScope(s.tokens, owner, Only([family]), now, i);
    }
    forall r | r in s.flights && s.flights[r].Flipped? ensures ended.tokens[s.flights[r].row].family != family {
      assert r !in OwedSuccessors(s, family) && FlightOk(s, s.flights[r]);
    }
    forall steps: seq<Step> ensures UnrevokedRows(Run(ended, steps), family) == {} {
      NoWayOnForever(ended, steps, family);
    }
  }

  lemma {:induction false} NumberAbove(used: set<nat>) returns (n: nat)
    ensures forall x | x in used :: x < n
  {
    n := 0;
    if used != {} {
      var x :| x in used;
      var above := NumberAbove(used - {x});
      n := if above <= x then x + 1 else above;
      assert forall y | y in used :: y in used - {x} || y == x;
    }
  }

  lemma FreeHashExists(tokens: seq<Token>) returns (hash: Hash)
    ensures HashFree(tokens, hash)
  {
    var used := set t | t in tokens :: t.hash;
    hash := NumberAbove(used);
    forall t | t in tokens ensures t.hash != hash {
      assert t.hash in used;
    }
  }

  /** One step from here the family has an unrevoked token that runs until `expiresAt`. */
  ghost predicate ComesBack(s: System, family: Family, expiresAt: int) {
    exists step: Step :: Enabled(s, step) && HasUnrevoked(Take(s, step).tokens, family, expiresAt)
  }

  predicate HasUnrevoked(tokens: seq<Token>, family: Family, expiresAt: int) {
    exists t :: t in tokens && t.family == family && t.Unrevoked() && t.expiresAt == expiresAt
  }

  lemma OwedSuccessorArrives(s: System, family: Family, request: nat, expiresAt: int)
    requires request in OwedSuccessors(s, family)
    ensures ComesBack(s, family, expiresAt) && !EndedForGood(s, family)
  {
    var hash := FreeHashExists(s.tokens);
    var step := Insert(request, hash, expiresAt);
    var after := Take(s, step);
    assert after.tokens[|s.tokens|] in after.tokens && HasUnrevoked(after.tokens, family, expiresAt);
    assert |s.tokens| in UnrevokedRows(after, family);
    RunOne(s, step);
    assert UnrevokedRows(Run(s, [step]), family) != {};
  }

  /** Ending a session between the winner's UPDATE and its INSERT does not hold: the successor appears afterwards, with
      whatever expiry it is given. Ending it is final, whatever happens next, exactly when no refresh of the session is
      in that gap. */
  lemma RevocationFinalIffNoRefreshInTheGap(before: seq<Step>, owner: Principal, family: Family, now: int)
    requires exists t :: t in Run(START, before).tokens && t.family == family && t.owner == owner
    ensures var ended := Take(Run(START, before), Revoke(owner, Only([family]), now));
            && (EndedForGood(ended, family) <==> OwedSuccessors(Run(START, before), family) == {})
            && (!EndedForGood(ended, family) ==> forall expiresAt: int :: ComesBack(ended, family, expiresAt))
  {
    var s := Run(START, before);
    RunKeepsInv(START, before);
    if request :| request in OwedSuccessors(s, family) {
      forall expiresAt: int
        ensures ComesBack(Take(s, Revoke(owner, Only([family]), now)), family, expiresAt)
      {
        OwedSuccessorArrives(Take(s, Revoke(owner, Only([family]), now)), family, request, expiresAt);
      }
      OwedSuccessorArrives(Take(s, Revoke(owner, Only([family]), now)), family, request, now);
    } else {
      NothingOwedIsFinal(s, owner, family, now);
    }
  }

  lemma {:induction false} RunConcat(s: System, a: seq<Step>, b: seq<Step>)
    ensures Run(s, a + b) == Run(Run(s, a), b)
    decreases |a|
  {
    if a == [] {
      assert a + b == b;
    } else {
      assert (a + b)[1..] == a[1..] + b;
      RunConcat(Take(s, a[0]), a[1..], b);
    }
  }

  lemma RunOne(s: System, a: Step)
    ensures Run(s, [a]) == Take(s, a)
  {
    assert [a][1..] == [];
  }

  lemma RunThree(s: System, a: Step, b: Step, c: Step)
    ensures Run(s, [a, b, c]) == Take(Take(Take(s, a), b), c)
  {
    RunOne(Take(Take(s, a), b), c);
    assert [b, c][1..] == [c] && Run(Take(s, a), [b, c]) == Run(Take(Take(s, a), b), [c]);
    assert [a, b, c][1..] == [b, c];
  }

  /** The state in which two refreshes of one token have both passed the early checks. */
  function BothChecked(token: Token): System {
    System([token], [None], map[0 := Checked(0, None), 1 := Checked(0, None)])
  }

  lemma BothPassTheChecks(token: Token, now: int)
    requires token.Usable(now) && token.device.None?
    ensures Run(START, [OpenSession(token), Check(0, 0, None, now), Check(1, 0, None, now)]) == BothChecked(token)
  {
    var s1 := System([token], [None], map[]);
    assert Take(START, OpenSession(token)) == s1;
    var s2 := s1.(flights := map[0 := Checked(0, None)]);
    assert Take(s1, Check(0, 0, None, now)) == s2;
    assert Take(s2, Check(1, 0, None, now)) == BothChecked(token);
    RunThree(START, OpenSession(token), Check(0, 0, None, now), Check(1, 0, None, now));
  }

  lemma WinnerOutlivesTheLoser(token: Token, now: int)
    requires token.Usable(now) && token.device.None?
    ensures var after := Run(Take(BothChecked(token), Flip(0, now)),
                             [Flip(1, now), Revoke(token.owner, Only([token.family]), now),
                              Insert(0, token.hash + 1, now + 1)]);
            UnrevokedRows(after, token.family) == {1}
  {
    var spent := token.(revokedAt := Some(now));
    var s4 := System([spent], [None], map[0 := Flipped(0, None), 1 := Checked(0, None)]);
    assert Take(BothChecked(token), Flip(0, now)) == s4;
    var s5 := System([spent], [None], map[0 := Flipped(0, None)]);
    assert Take(s4, Flip(1, now)).flights == s5.flights;
    assert Take(s5, Revoke(token.owner, Only([token.family]), now)).tokens == [spent];
    var s7 := System([spent, Successor(spent, None, token.hash + 1, now + 1)], [None, Some(0)], map[]);
    assert Take(s5, Insert(0, token.hash + 1, now + 1)) == s7;
    RunThree(s4, Flip(1, now), Revoke(token.owner, Only([token.family]), now), Insert(0, token.hash + 1, now + 1));
  }

  /** The gap is reachable: two refreshes of one token, the loser ends the family, the winner then inserts. */
  lemma LoserCannotStopTheWinner(token: Token, now: int)
    requires token.Usable(now) && token.device.None?
    ensures var steps := [OpenSession(token), Check(0, 0, None, now), Check(1, 0, None, now), Flip(0, now),
                          Flip(1, now), Revoke(token.owner, Only([token.family]), now),
                          Insert(0, token.hash + 1, now + 1)];
            UnrevokedRows(Run(START, steps), token.family) == {1}
  {
    var opening := [OpenSession(token), Check(0, 0, None, now), Check(1, 0, None, now)];
    var rest := [Flip(1, now), Revoke(token.owner, Only([token.family]), now), Insert(0, token.hash + 1, now + 1)];
    BothPassTheChecks(token, now);
    WinnerOutlivesTheLoser(token, now);
    RunConcat(START, opening, [Flip(0, now)] + rest);
    RunConcat(BothChecked(token), [Flip(0, now)], rest);
    RunOne(BothChecked(token), Flip(0, now));
    assert opening + ([Flip(0, now)] + rest)
        == [OpenSession(token), Check(0, 0, None, now), Check(1, 0, None, now), Flip(0, now), Flip(1, now),
            Revoke(token.owner, Only([token.family]), now), Insert(0, token.hash + 1, now + 1)];
  }
}
