/** What sessions guarantee over whole runs of operations. */
module SessionTheorems {
  import opened Wrappers
  import opened SessionData
  import opened RotationProtocol
  import opened SessionOps

  // ---------------------------------------------------------------------------------------------------------------
  // What one operation can do to the token table
  // ---------------------------------------------------------------------------------------------------------------

  /** The row an operation appends, if it appends one. */
  function Issued(s: State, e: Event): Option<Token> {
    if !DrawsFresh(s.db, e.op) || Ends(s.db, e).Some? then None
    else if e.op.Login? then Some(LoginToken(e))
    else if e.op.Refresh? then
      (match RefreshVerdict(s.db, e.op.presented, e.op.claimed, e.op.identityOk, e.op.hash, e.now, e.lifetimes)
       case Rotated(token) => Some(token)
       case _ => None)
    else None
  }

  /** Rows are only ever revoked, and at most one is appended: to a new family, or, by a refresh, to the family of a row
      that was still usable at that instant. */
  lemma TokenTableStep(s: State, e: Event)
    ensures var before, after, issued := s.db.tokens, Apply(s, e).db.tokens, Issued(s, e);
            && |after| == |before| + (if issued.Some? then 1 else 0)
            && OnlyRevokes(before, after[..|before|])
            && (issued.Some? ==> after[|before|] == issued.value)
            && (issued.Some? && e.op.Login? ==> !FamilyKnown(before, issued.value.family))
            && (issued.Some? && !e.op.Login? ==> FamilyUsable(before, issued.value.family, e.now))
  {
    if e.op.Refresh? && Issued(s, e).Some? {
      var stored := s.db.tokens[FindRow(s.db.tokens, e.op.presented).value];
      assert stored in s.db.tokens && stored.family == Issued(s, e).value.family && stored.Usable(e.now);
    }
  }

  lemma RowsComeFromBefore(s: State, e: Event, t: Token) returns (u: Token)
    requires t in Apply(s, e).db.tokens && Issued(s, e) != Some(t)
    ensures u in s.db.tokens && t.(revokedAt := u.revokedAt) == u && (t.Unrevoked() ==> t == u)
  {
    TokenTableStep(s, e);
    var after := Apply(s, e).db.tokens;
    var i :| 0 <= i < |after| && after[i] == t;
    assert i < |s.db.tokens|;
    assert after[..|s.db.tokens|][i] == t;
    u := s.db.tokens[i];
  }

  lemma RowsStay(s: State, e: Event, u: Token) returns (t: Token)
    requires u in s.db.tokens
    ensures t in Apply(s, e).db.tokens && t.(revokedAt := u.revokedAt) == u
  {
    TokenTableStep(s, e);
    var i :| 0 <= i < |s.db.tokens| && s.db.tokens[i] == u;
    t := Apply(s, e).db.tokens[i];
    assert Apply(s, e).db.tokens[..|s.db.tokens|][i] == t;
  }

  lemma HashesStayUnique(s: State, e: Event)
    requires HashesUnique(s.db.tokens)
    ensures HashesUnique(Apply(s, e).db.tokens)
  {
    TokenTableStep(s, e);
    var before, after := s.db.tokens, Apply(s, e).db.tokens;
    assert forall i | 0 <= i < |before| :: after[i] == after[..|before|][i] && after[i].hash == before[i].hash;
    if Issued(s, e).Some? {
      assert forall i | 0 <= i < |before| :: before[i] in before && before[i].hash != Issued(s, e).value.hash;
    }
  }

  // ---------------------------------------------------------------------------------------------------------------
  // Dead stays dead
  // ---------------------------------------------------------------------------------------------------------------

  /** A session that exists and has no token a refresh would accept. */
  predicate Dead(s: State, family: Family, now: int) {
    FamilyKnown(s.db.tokens, family) && !FamilyUsable(s.db.tokens, family, now)
  }

  lemma DeadAfterOne(s: State, e: Event, family: Family, now: int)
    requires Dead(s, family, now) && now <= e.now
    ensures Dead(Apply(s, e), family, e.now)
  {
    var u :| u in s.db.tokens && u.family == family;
    var t := RowsStay(s, e, u);
    if w :| w in Apply(s, e).db.tokens && w.family == family && w.Usable(e.now) {
      TokenTableStep(s, e);
      var v := RowsComeFromBefore(s, e, w);
      assert v in s.db.tokens && v.family == family && v.Usable(now);
    }
  }

  /** Once a session has no usable token, no later operation by anyone ever gives it one. */
  lemma {:induction false} DeadStaysDead(s: State, events: seq<Event>, family: Family, now: int, later: int)
    requires Dead(s, family, now) && now <= later
    requires UpTo(events, later) && forall e | e in events :: now <= e.now
    ensures Dead(Exec(s, events), family, later)
    decreases |events|
  {
    if events != [] {
      var before, last := events[..|events| - 1], events[|events| - 1];
      assert last in events;
      DeadStaysDead(s, before, family, now, last.now);
      DeadAfterOne(Exec(s, before), last, family, last.now);
      assert Dead(Exec(s, events), family, last.now);
    }
  }
}
