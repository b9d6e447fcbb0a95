/** Migration 1792600000000: each role's permissions become one policy attached to it. */
module PolicyBackfill {
  import opened Wrappers
  import opened PolicyStatements
  import opened ResourceGrouping
  import opened CodeFolding

  /** A role and the codes of its live permissions, in query order. */
  datatype Role = Role(id: nat, name: string, raw: seq<Code>)

  /** `policies` by their unique name, `policy_statements`, and `role_policies` as (role, policy) pairs; `removed`
      are the soft-deleted policies, which keep their name, and `dropped` the soft-deleted attachments. */
  datatype Iam = Iam(
    policies: map<string, nat>,
    nextPolicy: nat,
    removed: set<nat>,
    table: Table,
    attached: set<(nat, nat)>,
    dropped: set<(nat, nat)>)
  {
    /** Names, foreign keys and the next policy id are consistent. */
    ghost predicate Valid() {
      && (forall n, m | n in policies && m in policies && policies[n] == policies[m] :: n == m)
      && (forall n | n in policies :: policies[n] < nextPolicy)
      && (forall id | id in removed :: id < nextPolicy)
      && (forall row | row in table.rows :: row.policy < nextPolicy)
      && (forall pair | pair in attached :: pair.1 < nextPolicy)
      && dropped <= attached
    }

    predicate Attached(role: nat) { exists pair :: pair in attached && pair.0 == role }

    /** What the self-check reads for a role: every attachment and every statement, soft-deleted ones included. */
    function SelfCheckReads(role: nat): set<Code> {
      set row, code | row in table.rows && (role, row.policy) in attached && code in Held(row) :: code
    }

    /** The role holds the policy as far as the running program can see. */
    predicate Holds(role: nat, policy: nat) {
      (role, policy) in attached && (role, policy) !in dropped && policy !in removed
    }

    /** What a role may do through its policies: live statements of live policies over live attachments. */
    function Effective(role: nat): set<Code> {
      set row, code | row in table.rows && Holds(role, row.policy) && !row.deleted && code in Held(row) :: code
    }

    predicate RemovedByName(name: string) { name in policies && policies[name] in removed }
  }

  function PolicyName(role: Role): string { role.name + " Policy" }

  /** The role's codes before the migration, each once. */
  function Wanted(role: Role): seq<Code> { Distinct(Keep(role.raw, SetOf(role.raw) - RETIRED)) }

  lemma WantedIs(role: Role)
    ensures SetOf(Wanted(role)) == SetOf(role.raw) - RETIRED
  {
    DistinctKeepsAll(Keep(role.raw, SetOf(role.raw) - RETIRED));
  }

  predicate Skipped(iam: Iam, role: Role) { iam.Attached(role.id) || Wanted(role) == [] }

  /** The policy the role gets: the one that already has its name, or a new one. */
  function PolicyFor(iam: Iam, role: Role): nat {
    if PolicyName(role) in iam.policies then iam.policies[PolicyName(role)] else iam.nextPolicy
  }

  predicate Migratable(iam: Iam, role: Role, place: map<Code, nat>) {
    && Mapped(Wanted(role), place)
    && AllIterable(iam.table.rows, PolicyFor(iam, role))
    && Stored(iam.table.rows, PolicyFor(iam, role)) <= SetOf(Wanted(role))
  }

  function NewRows(iam: Iam, role: Role, place: map<Code, nat>): seq<Statement>
    requires Mapped(Wanted(role), place)
  {
    Written(KeysOf(Wanted(role), place), PolicyFor(iam, role), Wanted(role), place, iam.table.nextId)
  }

  function AfterRole(iam: Iam, role: Role, place: map<Code, nat>): Iam
    requires Mapped(Wanted(role), place)
  {
    var policy, written := PolicyFor(iam, role), NewRows(iam, role, place);
    Iam(iam.policies[PolicyName(role) := policy],
        if PolicyName(role) in iam.policies then iam.nextPolicy else iam.nextPolicy + 1,
        iam.removed,
        Table(iam.table.rows + written, iam.table.nextId + |written|),
        iam.attached + {(role.id, policy)},
        iam.dropped)
  }

  function Step(iam: Iam, role: Role, place: map<Code, nat>): Option<Iam> {
    if Skipped(iam, role) then Some(iam)
    else if Migratable(iam, role, place) then Some(AfterRole(iam, role, place))
    else None
  }

  function Backfill(iam: Iam, roles: seq<Role>, place: map<Code, nat>): Option<Iam> {
    if roles == [] then Some(iam)
    else
      match Backfill(iam, roles[..|roles| - 1], place)
      case None => None
      case Some(before) => Step(before, roles[|roles| - 1], place)
  }

  // ---------------------------------------------------------------------------------------------------------------
  // One role
  // ---------------------------------------------------------------------------------------------------------------

  lemma AfterRoleStores(iam: Iam, role: Role, place: map<Code, nat>)
    requires Mapped(Wanted(role), place)
    ensures var after := AfterRole(iam, role, place).table.rows;
            && Stored(after, PolicyFor(iam, role)) == Stored(iam.table.rows, PolicyFor(iam, role)) + SetOf(Wanted(role))
            && Granted(after, PolicyFor(iam, role))
               == Granted(iam.table.rows, PolicyFor(iam, role)) + SetOf(Wanted(role))
            && (forall row: Statement | row.policy != PolicyFor(iam, role) :: row in after <==> row in iam.table.rows)
  {
    var codes, keys, policy := Wanted(role), KeysOf(Wanted(role), place), PolicyFor(iam, role);
    WritingAdds(iam.table.rows, keys, policy, codes, place, iam.table.nextId);
    GroupsPartition(codes, place);
  }

  /** Each statement written for a role is a live row of its policy with exactly the role's codes of that resource. */
  lemma NewRowsHoldTheirResource(iam: Iam, role: Role, place: map<Code, nat>, row: Statement)
    requires Mapped(Wanted(role), place) && row in NewRows(iam, role, place)
    ensures row.policy == PolicyFor(iam, role) && !row.deleted && row.actions.Array?
    ensures forall c :: c in Held(row) <==> c in role.raw && c !in RETIRED && c in place && place[c] == row.resource
  {
    WrittenRowsHoldTheirResource(KeysOf(Wanted(role), place), PolicyFor(iam, role), Wanted(role), place,
                                 iam.table.nextId, row);
    WantedIs(role);
    forall c ensures c in Wanted(role) <==> c in role.raw && c !in RETIRED {
      assert c in SetOf(Wanted(role)) <==> c in SetOf(role.raw) - RETIRED;
    }
  }

  /** What is read for a role attached to one policy only. */
  lemma ReadThroughOne(iam: Iam, role: nat, policy: nat)
    requires forall pair | pair in iam.attached && pair.0 == role :: pair.1 == policy
    requires (role, policy) in iam.attached
    ensures iam.SelfCheckReads(role) == Stored(iam.table.rows, policy)
  {
  }

  lemma AfterRoleReads(iam: Iam, role: Role, place: map<Code, nat>)
    requires !iam.Attached(role.id) && Mapped(Wanted(role), place)
    ensures AfterRole(iam, role, place).SelfCheckReads(role.id)
         == Stored(iam.table.rows, PolicyFor(iam, role)) + SetOf(Wanted(role))
  {
    AfterRoleStores(iam, role, place);
    ReadThroughOne(AfterRole(iam, role, place), role.id, PolicyFor(iam, role));
  }

  lemma NoRowsYet(iam: Iam, role: Role)
    requires iam.Valid() && PolicyName(role) !in iam.policies
    ensures forall row | row in iam.table.rows :: row.policy != PolicyFor(iam, role)
    ensures Stored(iam.table.rows, PolicyFor(iam, role)) == {}
  {
  }

  /** The equivalence check is exact, and for a newly inserted policy it cannot fire. For a reused one it passes if
      and only if the policy's rows, soft-deleted ones included, held nothing beyond the role's codes. */
  lemma CheckPassesIff(iam: Iam, role: Role, place: map<Code, nat>)
    requires iam.Valid() && !Skipped(iam, role) && Mapped(Wanted(role), place)
    ensures var after := AfterRole(iam, role, place);
            && (Migratable(iam, role, place)
                <==> (AllIterable(after.table.rows, PolicyFor(iam, role))
                      && after.SelfCheckReads(role.id) == SetOf(role.raw) - RETIRED))
            && (PolicyName(role) !in iam.policies ==> Migratable(iam, role, place))
  {
    WantedIs(role);
    AfterRoleReads(iam, role, place);
    var written := NewRows(iam, role, place);
    assert forall row | row in written :: row.actions.Array?;
    if PolicyName(role) !in iam.policies {
      NoRowsYet(iam, role);
    }
  }

  /** What the check would read for another role: it gains what the step writes on a policy it is attached to. */
  lemma OtherRoleReads(iam: Iam, role: Role, place: map<Code, nat>, other: nat)
    requires other != role.id && Mapped(Wanted(role), place)
    ensures AfterRole(iam, role, place).SelfCheckReads(other)
         == iam.SelfCheckReads(other)
            + if (other, PolicyFor(iam, role)) in iam.attached then SetOf(Wanted(role)) else {}
  {
    AfterRoleStores(iam, role, place);
    var policy, after := PolicyFor(iam, role), AfterRole(iam, role, place);
    forall code
      ensures code in after.SelfCheckReads(other)
         <==> code in iam.SelfCheckReads(other) || ((other, policy) in iam.attached && code in SetOf(Wanted(role)))
    {
      if row :| row in after.table.rows && (other, row.policy) in after.attached && code in Held(row) {
        if row.policy == policy {
          assert code in Stored(after.table.rows, policy);
        }
      }
      if (other, policy) in iam.attached && code in SetOf(Wanted(role)) {
        assert code in Stored(after.table.rows, policy);
      }
    }
  }

  // -- effective access

  lemma EffectiveThroughOne(iam: Iam, role: nat, policy: nat)
    requires forall pair | pair in iam.attached && pair.0 == role :: pair.1 == policy
    ensures iam.Effective(role) == if iam.Holds(role, policy) then Granted(iam.table.rows, policy) else {}
  {
    forall row | row in iam.table.rows && iam.Holds(role, row.policy) ensures row.policy == policy {
      assert (role, row.policy) in iam.attached && (role, row.policy).0 == role;
    }
  }

  /** A role whose check passes may do precisely what it could before if and only if the policy it got is not a
      soft-deleted one; through that it may do nothing. */
  lemma MigratedRoleEffective(iam: Iam, role: Role, place: map<Code, nat>)
    requires iam.Valid() && !Skipped(iam, role) && Migratable(iam, role, place)
    ensures AfterRole(iam, role, place).Effective(role.id)
         == if iam.RemovedByName(PolicyName(role)) then {} else SetOf(role.raw) - RETIRED
  {
    var after, policy := AfterRole(iam, role, place), PolicyFor(iam, role);
    AfterRoleStores(iam, role, place);
    WantedIs(role);
    assert (role.id, policy) !in iam.attached by {
      assert (role.id, policy).0 == role.id;
    }
    EffectiveThroughOne(after, role.id, policy);
    assert Granted(iam.table.rows, policy) <= Stored(iam.table.rows, policy);
  }

  /** Any other role gains in effect exactly what is written on a policy it holds, and otherwise keeps what it had. */
  lemma OtherRoleAfter(iam: Iam, role: Role, place: map<Code, nat>, other: nat)
    requires other != role.id && Mapped(Wanted(role), place)
    ensures AfterRole(iam, role, place).Effective(other)
         == iam.Effective(other) + if iam.Holds(other, PolicyFor(iam, role)) then SetOf(Wanted(role)) else {}
  {
    AfterRoleStores(iam, role, place);
    var policy, after := PolicyFor(iam, role), AfterRole(iam, role, place);
    forall code
      ensures code in after.Effective(other)
         <==> code in iam.Effective(other) || (iam.Holds(other, policy) && code in SetOf(Wanted(role)))
    {
      if row :| row in after.table.rows && after.Holds(other, row.policy) && !row.deleted && code in Held(row) {
        if row.policy == policy {
          assert code in Granted(after.table.rows, policy);
        }
      }
      if iam.Holds(other, policy) && code in SetOf(Wanted(role)) {
        assert code in Granted(after.table.rows, policy);
      }
    }
  }

  /** Reusing a policy by name is not checked against the other roles that hold it: it changes what one of them may
      do if and only if it holds the policy and the migrated role has a code it could not use. */
  lemma ReuseChangesAnotherRoleIff(iam: Iam, role: Role, place: map<Code, nat>, other: nat)
    requires other != role.id && Mapped(Wanted(role), place)
    ensures AfterRole(iam, role, place).Effective(other) != iam.Effective(other)
       <==> iam.Holds(other, PolicyFor(iam, role)) && !(SetOf(role.raw) - RETIRED <= iam.Effective(other))
  {
    OtherRoleAfter(iam, role, place, other);
    WantedIs(role);
  }

  // ---------------------------------------------------------------------------------------------------------------
  // The whole run
  // ---------------------------------------------------------------------------------------------------------------

  /** Role ids and role names are unique. */
  predicate DistinctRoles(roles: seq<Role>) {
    forall i, j | 0 <= i < j < |roles| :: roles[i].id != roles[j].id && roles[i].name != roles[j].name
  }

  /** The check reads a migrated role's own codes, through the policy with its name only. */
  ghost predicate RolesSince(before: Iam, now: Iam, roles: seq<Role>) {
    && (forall r | r in roles && !before.Attached(r.id) :: now.SelfCheckReads(r.id) == SetOf(r.raw) - RETIRED)
    && (forall r, pair | r in roles && !before.Attached(r.id) && pair in now.attached && pair.0 == r.id ::
          PolicyName(r) in now.policies && pair.1 == now.policies[PolicyName(r)])
    && (forall r | r in roles :: Skipped(now, r))
  }

  /** Only migrated roles gain attachments. */
  ghost predicate AttachmentsSince(before: Iam, now: Iam, roles: seq<Role>) {
    && before.attached <= now.attached && now.dropped == before.dropped
    && (forall pair | pair in now.attached && pair !in before.attached ::
          !before.Attached(pair.0) && exists r :: r in roles && r.id == pair.0)
  }

  /** Only policies named after migrated roles are added, with new ids. */
  ghost predicate PoliciesSince(before: Iam, now: Iam, roles: seq<Role>) {
    && before.nextPolicy <= now.nextPolicy && now.removed == before.removed
    && (forall n | n in before.policies :: n in now.policies && now.policies[n] == before.policies[n])
    && (forall n | n in now.policies && n !in before.policies ::
          now.policies[n] >= before.nextPolicy && exists r :: r in roles && PolicyName(r) == n)
  }

  /** The role a row of the policy was written for. */
  predicate WrittenFor(r: Role, row: Statement, before: Iam, policies: map<string, nat>) {
    !before.Attached(r.id) && Wanted(r) != [] && PolicyName(r) in policies && policies[PolicyName(r)] == row.policy
  }

  /** Rows are only added, and only to policies named after migrated roles. */
  ghost predicate RowsSince(before: Iam, now: Iam, roles: seq<Role>) {
    && (forall row | row in before.table.rows :: row in now.table.rows)
    && (forall row | row in now.table.rows && row !in before.table.rows ::
          exists r :: r in roles && WrittenFor(r, row, before, now.policies))
  }

  ghost predicate Since(before: Iam, now: Iam, roles: seq<Role>) {
    && now.Valid()
    && RolesSince(before, now, roles)
    && AttachmentsSince(before, now, roles)
    && PoliciesSince(before, now, roles)
    && RowsSince(before, now, roles)
  }

  predicate NewTo(role: Role, roles: seq<Role>) { forall r | r in roles :: r.id != role.id && r.name != role.name }

  lemma NamesAreApart(role: Role, roles: seq<Role>)
    requires NewTo(role, roles)
    ensures forall r | r in roles :: PolicyName(r) != PolicyName(role)
  {
    forall r | r in roles && |r.name| == |role.name| ensures PolicyName(r) != PolicyName(role) {
      var i :| 0 <= i < |r.name| && r.name[i] != role.name[i];
      assert PolicyName(r)[i] != PolicyName(role)[i];
    }
  }

  lemma StillUnattached(before: Iam, now: Iam, roles: seq<Role>, role: Role)
    requires Since(before, now, roles) && NewTo(role, roles)
    ensures now.Attached(role.id) <==> before.Attached(role.id)
  {
  }

  lemma SkippingKeepsSince(before: Iam, now: Iam, roles: seq<Role>, role: Role)
    requires Since(before, now, roles) && NewTo(role, roles) && Skipped(now, role)
    ensures Since(before, now, roles + [role])
  {
    StillUnattached(before, now, roles, role);
    WantedIs(role);
    assert forall r :: r in roles + [role] <==> r in roles || r == role;
  }

  /** Whether a role can be migrated does not depend on the roles migrated before it. */
  lemma MigratableStays(before: Iam, now: Iam, roles: seq<Role>, role: Role, place: map<Code, nat>)
    requires before.Valid() && Since(before, now, roles) && NewTo(role, roles)
    ensures Migratable(now, role, place) <==> Migratable(before, role, place)
    ensures PolicyName(role) in now.policies <==> PolicyName(role) in before.policies
  {
    NamesAreApart(role, roles);
    var policy := PolicyFor(now, role);
    if PolicyName(role) in before.policies {
      assert forall row: Statement | row.policy == policy :: row in now.table.rows <==> row in before.table.rows;
      assert Stored(now.table.rows, policy) == Stored(before.table.rows, policy);
    } else {
      NoRowsYet(now, role);
      NoRowsYet(before, role);
    }
  }

  lemma MigratingKeepsValid(iam: Iam, role: Role, place: map<Code, nat>)
    requires iam.Valid() && Mapped(Wanted(role), place)
    ensures AfterRole(iam, role, place).Valid()
  {
    assert forall row | row in NewRows(iam, role, place) :: row.policy == PolicyFor(iam, role);
  }

  lemma MigratingKeepsReading(before: Iam, now: Iam, roles: seq<Role>, role: Role, place: map<Code, nat>, r: Role)
    requires before.Valid() && Since(before, now, roles) && NewTo(role, roles) && !Skipped(now, role)
    requires Migratable(now, role, place)
    requires r in roles + [role] && !before.Attached(r.id)
    ensures AfterRole(now, role, place).SelfCheckReads(r.id) == SetOf(r.raw) - RETIRED
  {
    NamesAreApart(role, roles);
    if r == role {
      CheckPassesIff(now, role, place);
    } else {
      assert r in roles;
      OtherRoleReads(now, role, place, r.id);
    }
  }

  lemma MigratingKeepsRoles(before: Iam, now: Iam, roles: seq<Role>, role: Role, place: map<Code, nat>)
    requires before.Valid() && Since(before, now, roles) && NewTo(role, roles) && !Skipped(now, role)
    requires Migratable(now, role, place)
    ensures RolesSince(before, AfterRole(now, role, place), roles + [role])
  {
    var after, policy := AfterRole(now, role, place), PolicyFor(now, role);
    assert forall r :: r in roles + [role] <==> r in roles || r == role;
    forall r | r in roles + [role] && !before.Attached(r.id)
      ensures after.SelfCheckReads(r.id) == SetOf(r.raw) - RETIRED
    {
      MigratingKeepsReading(before, now, roles, role, place, r);
    }
    NamesAreApart(role, roles);
    forall r | r in roles + [role] ensures Skipped(after, r) {
      assert (role.id, policy) in after.attached && (role.id, policy).0 == role.id;
      if r in roles && now.Attached(r.id) {
        var pair :| pair in now.attached && pair.0 == r.id;
        assert pair in after.attached;
      }
    }
  }

  lemma MigratingKeepsTheRest(before: Iam, now: Iam, roles: seq<Role>, role: Role, place: map<Code, nat>)
    requires before.Valid() && Since(before, now, roles) && NewTo(role, roles) && !Skipped(now, role)
    requires Migratable(now, role, place)
    ensures AttachmentsSince(before, AfterRole(now, role, place), roles + [role])
    ensures PoliciesSince(before, AfterRole(now, role, place), roles + [role])
  {
    assert forall r :: r in roles + [role] <==> r in roles || r == role;
    StillUnattached(before, now, roles, role);
    MigratableStays(before, now, roles, role, place);
  }

  lemma MigratingKeepsRows(before: Iam, now: Iam, roles: seq<Role>, role: Role, place: map<Code, nat>)
    requires before.Valid() && Since(before, now, roles) && NewTo(role, roles) && !Skipped(now, role)
    requires Migratable(now, role, place)
    ensures RowsSince(before, AfterRole(now, role, place), roles + [role])
  {
    var after := AfterRole(now, role, place);
    StillUnattached(before, now, roles, role);
    NamesAreApart(role, roles);
    forall row | row in after.table.rows && row !in before.table.rows
      ensures exists r :: r in roles + [role] && WrittenFor(r, row, before, after.policies)
    {
      if row in now.table.rows {
        var r :| r in roles && WrittenFor(r, row, before, now.policies);
        assert r in roles + [role] && WrittenFor(r, row, before, after.policies);
      } else {
        assert row in NewRows(now, role, place);
        assert role in roles + [role] && WrittenFor(role, row, before, after.policies);
      }
    }
  }

  lemma StepKeepsSince(before: Iam, now: Iam, roles: seq<Role>, role: Role, place: map<Code, nat>)
    requires before.Valid() && Since(before, now, roles) && NewTo(role, roles)
    ensures Step(now, role, place).Some? <==> Skipped(before, role) || Migratable(before, role, place)
    ensures Step(now, role, place).Some? ==> Since(before, Step(now, role, place).value, roles + [role])
  {
    StillUnattached(before, now, roles, role);
    MigratableStays(before, now, roles, role, place);
    if Skipped(now, role) {
      SkippingKeepsSince(before, now, roles, role);
    } else if Migratable(now, role, place) {
      MigratingKeepsValid(now, role, place);
      MigratingKeepsRoles(before, now, roles, role, place);
      MigratingKeepsTheRest(before, now, roles, role, place);
      MigratingKeepsRows(before, now, roles, role, place);
    }
  }

  lemma {:induction false} RunKeepsSince(before: Iam, roles: seq<Role>, place: map<Code, nat>)
    requires before.Valid() && DistinctRoles(roles)
    ensures Backfill(before, roles, place).Some?
       <==> forall r | r in roles :: Skipped(before, r) || Migratable(before, r, place)
    ensures Backfill(before, roles, place).Some? ==> Since(before, Backfill(before, roles, place).value, roles)
  {
    if roles != [] {
      var front, last := roles[..|roles| - 1], roles[|roles| - 1];
      assert roles == front + [last];
      RunKeepsSince(before, front, place);
      if Backfill(before, front, place).Some? {
        StepKeepsSince(before, Backfill(before, front, place).value, front, last, place);
      }
    }
  }

  lemma {:induction false} SecondRunSkips(iam: Iam, roles: seq<Role>, place: map<Code, nat>)
    requires forall r | r in roles :: Skipped(iam, r)
    ensures Backfill(iam, roles, place) == Some(iam)
  {
    if roles != [] {
      SecondRunSkips(iam, roles[..|roles| - 1], place);
    }
  }

  /** The run commits exactly when each role it does not skip has its codes mapped to resources and, where a policy
      already has its name, that policy's rows held nothing beyond them; and a second run skips every role and
      changes nothing. */
  lemma BackfillCommitsIff(before: Iam, roles: seq<Role>, place: map<Code, nat>)
    requires before.Valid() && DistinctRoles(roles)
    ensures Backfill(before, roles, place).Some?
       <==> forall r | r in roles :: Skipped(before, r) || Migratable(before, r, place)
    ensures Backfill(before, roles, place).Some?
            ==> Backfill(Backfill(before, roles, place).value, roles, place) == Backfill(before, roles, place)
  {
    RunKeepsSince(before, roles, place);
    if Backfill(before, roles, place).Some? {
      SecondRunSkips(Backfill(before, roles, place).value, roles, place);
    }
  }

  // -- what the roles may do after the run

  lemma PolicyHoldsTheRole(before: Iam, now: Iam, roles: seq<Role>, r: Role)
    requires Since(before, now, roles) && r in roles && !before.Attached(r.id) && Wanted(r) != []
    ensures PolicyName(r) in now.policies && (r.id, now.policies[PolicyName(r)]) in now.attached
    ensures Stored(now.table.rows, now.policies[PolicyName(r)]) == SetOf(r.raw) - RETIRED
  {
    var pair :| pair in now.attached && pair.0 == r.id;
    assert pair == (r.id, now.policies[PolicyName(r)]);
    ReadThroughOne(now, r.id, pair.1);
  }

  /** The rows a committed run wrote for the roles it migrated are live and hold all of the roles' codes. */
  ghost predicate GrantsSince(before: Iam, now: Iam, roles: seq<Role>) {
    forall r | r in roles && !before.Attached(r.id) && Wanted(r) != [] && PolicyName(r) in now.policies ::
      SetOf(r.raw) - RETIRED <= Granted(now.table.rows, now.policies[PolicyName(r)])
  }

  lemma StepKeepsNamedGrants(iam: Iam, role: Role, place: map<Code, nat>, name: string)
    requires Step(iam, role, place).Some? && name != PolicyName(role)
    ensures var after := Step(iam, role, place).value;
            && (name in after.policies <==> name in iam.policies)
            && (name in iam.policies ==>
                  && after.policies[name] == iam.policies[name]
                  && Granted(iam.table.rows, iam.policies[name]) <= Granted(after.table.rows, iam.policies[name]))
  {
  }

  lemma StepKeepsGrants(before: Iam, now: Iam, roles: seq<Role>, role: Role, place: map<Code, nat>)
    requires before.Valid() && Since(before, now, roles) && NewTo(role, roles) && GrantsSince(before, now, roles)
    requires Step(now, role, place).Some?
    ensures GrantsSince(before, Step(now, role, place).value, roles + [role])
  {
    hide Wanted;
    var after := Step(now, role, place).value;
    forall r | r in roles + [role] && !before.Attached(r.id) && Wanted(r) != [] && PolicyName(r) in after.policies
      ensures SetOf(r.raw) - RETIRED <= Granted(after.table.rows, after.policies[PolicyName(r)])
    {
      if r == role {
        StillUnattached(before, now, roles, role);
        AfterRoleStores(now, role, place);
        WantedIs(role);
      } else {
        assert r in roles;
        NamesAreApart(role, roles);
        StepKeepsNamedGrants(now, role, place, PolicyName(r));
      }
    }
  }

  lemma {:induction false} RunKeepsGrants(before: Iam, roles: seq<Role>, place: map<Code, nat>)
    requires before.Valid() && DistinctRoles(roles) && Backfill(before, roles, place).Some?
    ensures GrantsSince(before, Backfill(before, roles, place).value, roles)
  {
    if roles != [] {
      var front, last := roles[..|roles| - 1], roles[|roles| - 1];
      assert roles == front + [last];
      RunKeepsGrants(before, front, place);
      RunKeepsSince(before, front, place);
      StepKeepsGrants(before, Backfill(before, front, place).value, front, last, place);
    }
  }

  lemma MigratedPolicyGrantsExactly(before: Iam, now: Iam, roles: seq<Role>, r: Role)
    requires Since(before, now, roles) && GrantsSince(before, now, roles)
    requires r in roles && !before.Attached(r.id) && Wanted(r) != []
    ensures PolicyName(r) in now.policies
    ensures Granted(now.table.rows, now.policies[PolicyName(r)]) == SetOf(r.raw) - RETIRED
  {
    PolicyHoldsTheRole(before, now, roles, r);
    var policy := now.policies[PolicyName(r)];
    assert Granted(now.table.rows, policy) <= Stored(now.table.rows, policy);
  }

  lemma RemovalsByNameStay(before: Iam, now: Iam, roles: seq<Role>, name: string)
    requires before.Valid() && PoliciesSince(before, now, roles)
    ensures now.RemovedByName(name) <==> before.RemovedByName(name)
  {
  }

  lemma MigratedRoleMay(before: Iam, now: Iam, roles: seq<Role>, r: Role)
    requires before.Valid() && Since(before, now, roles) && GrantsSince(before, now, roles)
    requires r in roles && !before.Attached(r.id)
    ensures now.Effective(r.id)
         == if before.RemovedByName(PolicyName(r)) then {} else SetOf(r.raw) - RETIRED
  {
    WantedIs(r);
    RemovalsByNameStay(before, now, roles, PolicyName(r));
    if Wanted(r) == [] {
      assert now.Effective(r.id) <= now.SelfCheckReads(r.id);
    } else {
      MigratedPolicyGrantsExactly(before, now, roles, r);
      PolicyHoldsTheRole(before, now, roles, r);
      var policy := now.policies[PolicyName(r)];
      EffectiveThroughOne(now, r.id, policy);
      assert (r.id, policy) !in before.attached by {
        assert (r.id, policy).0 == r.id;
      }
    }
  }

  /** Backfill equivalence. After a committed run every role that had no policy may do precisely what its permissions
      allowed before, if and only if no soft-deleted policy has the name of such a role with codes to migrate: the
      run takes that policy, its self-check passes, and the role may do nothing. No other role loses anything. */
  lemma BackfillEquivalence(before: Iam, roles: seq<Role>, place: map<Code, nat>)
    requires before.Valid() && DistinctRoles(roles) && Backfill(before, roles, place).Some?
    ensures var now := Backfill(before, roles, place).value;
            && (forall r | r in roles && !before.Attached(r.id) ::
                  now.Effective(r.id) == SetOf(r.raw) - RETIRED
                  <==> Wanted(r) == [] || !before.RemovedByName(PolicyName(r)))
            && (forall r | r in roles && !before.Attached(r.id) && before.RemovedByName(PolicyName(r)) ::
                  now.Effective(r.id) == {})
            && (forall other :: before.Effective(other) <= now.Effective(other))
  {
    RunKeepsSince(before, roles, place);
    RunKeepsGrants(before, roles, place);
    var now := Backfill(before, roles, place).value;
    forall r | r in roles && !before.Attached(r.id)
      ensures now.Effective(r.id) == if before.RemovedByName(PolicyName(r)) then {} else SetOf(r.raw) - RETIRED
      ensures SetOf(r.raw) - RETIRED == {} <==> Wanted(r) == []
    {
      MigratedRoleMay(before, now, roles, r);
      WantedIs(r);
      assert Wanted(r) != [] ==> Wanted(r)[0] in SetOf(Wanted(r));
    }
  }

  /** The codes of the migrated roles whose name is that of a policy `other` already holds in effect. */
  function Spilled(before: Iam, roles: seq<Role>, other: nat): set<Code> {
    set r, c | r in roles && !before.Attached(r.id) && PolicyName(r) in before.policies
               && before.Holds(other, before.policies[PolicyName(r)]) && c in SetOf(r.raw) && c !in RETIRED :: c
  }

  /** A role that already had policies gains in effect exactly the codes of the migrated roles named after one it
      holds, which no check looks at; where no policy is named after a migrated role beforehand, that is nothing. */
  lemma AttachedRolesGainExactly(before: Iam, roles: seq<Role>, place: map<Code, nat>, other: nat)
    requires before.Valid() && DistinctRoles(roles) && Backfill(before, roles, place).Some? && before.Attached(other)
    ensures Backfill(before, roles, place).value.Effective(other)
         == before.Effective(other) + Spilled(before, roles, other)
  {
    RunKeepsSince(before, roles, place);
    RunKeepsGrants(before, roles, place);
    var now := Backfill(before, roles, place).value;
    forall row, c | row in now.table.rows && now.Holds(other, row.policy) && !row.deleted && c in Held(row)
      ensures c in before.Effective(other) || c in Spilled(before, roles, other)
    {
      assert (other, row.policy) in before.attached;
      if row !in before.table.rows {
        var r :| r in roles && WrittenFor(r, row, before, now.policies);
        MigratedPolicyGrantsExactly(before, now, roles, r);
        assert c in Granted(now.table.rows, row.policy);
      }
    }
    forall r, c | r in roles && !before.Attached(r.id) && PolicyName(r) in before.policies
                  && before.Holds(other, before.policies[PolicyName(r)]) && c in SetOf(r.raw) && c !in RETIRED
      ensures c in now.Effective(other)
    {
      WantedIs(r);
      assert c in SetOf(Wanted(r));
      MigratedPolicyGrantsExactly(before, now, roles, r);
      assert c in Granted(now.table.rows, before.policies[PolicyName(r)]);
    }
  }

  // ---------------------------------------------------------------------------------------------------------------
  // The same in the tables' own terms
  // ---------------------------------------------------------------------------------------------------------------

  /** There is something to migrate: no attachment, not even a soft-deleted one, and a code other than METER_EDIT. */
  predicate ToMigrate(iam: Iam, r: Role) {
    && (forall pair | pair in iam.attached :: pair.0 != r.id)
    && exists c :: c in r.raw && c != METER_EDIT
  }

  /** Every code but METER_EDIT has a resource, and a policy that already has the role's name lists, in soft-deleted
      rows too, only codes of the role. */
  predicate CanMigrate(iam: Iam, r: Role, place: map<Code, nat>) {
    && (forall c | c in r.raw && c != METER_EDIT :: c in place)
    && (r.name + " Policy" in iam.policies
        ==> forall row | row in iam.table.rows && row.policy == iam.policies[r.name + " Policy"] ::
            Iterable(row.actions) && forall c | c in Held(row) :: c in r.raw && c != METER_EDIT)
  }

  lemma WantedHas(r: Role, c: Code)
    ensures c in Wanted(r) <==> c in r.raw && c != METER_EDIT
  {
    WantedIs(r);
    assert c in SetOf(Wanted(r)) <==> c in SetOf(r.raw) - RETIRED;
  }

  lemma SkippedIff(iam: Iam, r: Role)
    ensures Skipped(iam, r) <==> !ToMigrate(iam, r)
  {
    if Wanted(r) != [] {
      WantedHas(r, Wanted(r)[0]);
    }
    forall c | c in r.raw && c != METER_EDIT ensures Wanted(r) != [] {
      WantedHas(r, c);
    }
  }

  lemma MigratableIff(iam: Iam, r: Role, place: map<Code, nat>)
    requires iam.Valid()
    ensures Migratable(iam, r, place) <==> CanMigrate(iam, r, place)
  {
    hide Wanted;
    forall c ensures c in Wanted(r) <==> c in r.raw && c != METER_EDIT {
      WantedHas(r, c);
    }
    if r.name + " Policy" in iam.policies {
      var policy := iam.policies[r.name + " Policy"];
      assert PolicyFor(iam, r) == policy;
      if Stored(iam.table.rows, policy) <= SetOf(Wanted(r)) {
        forall row, c | row in iam.table.rows && row.policy == policy && c in Held(row) ensures c in Wanted(r) {
          assert c in Stored(iam.table.rows, policy);
        }
      }
    } else {
      NoRowsYet(iam, r);
    }
  }

  /** The run commits exactly when every role that has something to migrate can be migrated. */
  lemma CommitsWhenEveryRoleCan(before: Iam, roles: seq<Role>, place: map<Code, nat>)
    requires before.Valid() && DistinctRoles(roles)
    ensures Backfill(before, roles, place).Some?
       <==> forall r | r in roles && ToMigrate(before, r) :: CanMigrate(before, r, place)
  {
    hide Backfill, Skipped, Migratable, ToMigrate, CanMigrate;
    BackfillCommitsIff(before, roles, place);
    forall r | r in roles
      ensures Skipped(before, r) <==> !ToMigrate(before, r)
      ensures Migratable(before, r, place) <==> CanMigrate(before, r, place)
    {
      SkippedIff(before, r);
      MigratableIff(before, r, place);
    }
  }

  /** After a committed run each role that had something to migrate is attached to the policy of its name and to no
      other, the one that was there already or a new one, and may do its codes but METER_EDIT, or nothing if that
      policy is soft-deleted. */
  lemma MigratedRolesHaveTheirPolicy(before: Iam, roles: seq<Role>, place: map<Code, nat>, r: Role)
    requires before.Valid() && DistinctRoles(roles) && Backfill(before, roles, place).Some?
    requires r in roles && ToMigrate(before, r)
    ensures var now, name := Backfill(before, roles, place).value, r.name + " Policy";
            && name in now.policies
            && (forall policy :: (r.id, policy) in now.attached <==> policy == now.policies[name])
            && (if name in before.policies then now.policies[name] == before.policies[name]
                else now.policies[name] >= before.nextPolicy)
            && now.Effective(r.id) == if now.policies[name] in before.removed then {}
                                      else set c | c in r.raw && c != METER_EDIT
  {
    hide Backfill, Wanted;
    var now := Backfill(before, roles, place).value;
    RunKeepsSince(before, roles, place);
    RunKeepsGrants(before, roles, place);
    SkippedIff(before, r);
    PolicyHoldsTheRole(before, now, roles, r);
    MigratedRoleMay(before, now, roles, r);
    forall policy | (r.id, policy) in now.attached ensures policy == now.policies[PolicyName(r)] {
      assert (r.id, policy).0 == r.id;
    }
    assert SetOf(r.raw) - RETIRED == set c | c in r.raw && c != METER_EDIT;
  }

  /** Every other attachment is as it was, and no policy loses its name or its rows. */
  lemma {:induction false} NothingElseIsAttached(before: Iam, roles: seq<Role>, place: map<Code, nat>, role: nat)
    requires before.Valid() && DistinctRoles(roles) && Backfill(before, roles, place).Some?
    requires forall r | r in roles && r.id == role :: !ToMigrate(before, r)
    ensures var now := Backfill(before, roles, place).value;
            && (forall policy :: (role, policy) in now.attached <==> (role, policy) in before.attached)
            && now.removed == before.removed && now.dropped == before.dropped
            && (forall name | name in before.policies ::
                  name in now.policies && now.policies[name] == before.policies[name])
            && (forall row | row in before.table.rows :: row in now.table.rows)
  {
    if roles != [] {
      var front, last := roles[..|roles| - 1], roles[|roles| - 1];
      assert roles == front + [last];
      NothingElseIsAttached(before, front, place, role);
      RunKeepsSince(before, front, place);
      OneMoreAttachesOnlyItsOwn(before, Backfill(before, front, place).value, front, last, place, role);
    }
  }

  lemma OneMoreAttachesOnlyItsOwn(
    before: Iam, now: Iam, roles: seq<Role>, last: Role, place: map<Code, nat>, role: nat)
    requires before.Valid() && Since(before, now, roles) && NewTo(last, roles)
    requires Step(now, last, place).Some? && (last.id == role ==> !ToMigrate(before, last))
    ensures var after := Step(now, last, place).value;
            && (forall policy :: (role, policy) in after.attached <==> (role, policy) in now.attached)
            && after.removed == now.removed && after.dropped == now.dropped
            && (forall name | name in now.policies ::
                  name in after.policies && after.policies[name] == now.policies[name])
            && (forall row | row in now.table.rows :: row in after.table.rows)
  {
    hide Wanted;
    StillUnattached(before, now, roles, last);
    SkippedIff(before, last);
  }

  /** The run gives the statements it inserts the next primary keys and leaves the others theirs. */
  lemma {:induction false} BackfillKeepsKeys(before: Iam, roles: seq<Role>, place: map<Code, nat>)
    requires InKeyOrder(before.table) && Backfill(before, roles, place).Some?
    ensures InKeyOrder(Backfill(before, roles, place).value.table)
  {
    hide InKeyOrder, Wanted, Skipped;
    if roles != [] {
      var front, last := roles[..|roles| - 1], roles[|roles| - 1];
      BackfillKeepsKeys(before, front, place);
      var now := Backfill(before, front, place).value;
      if Mapped(Wanted(last), place) {
        WrittenKeepsKeys(now.table, KeysOf(Wanted(last), place), PolicyFor(now, last), Wanted(last), place);
      }
    }
  }

  // ---------------------------------------------------------------------------------------------------------------
  // Where it fails
  // ---------------------------------------------------------------------------------------------------------------

  /** `removePolicy` deletes a policy's statements, soft-deletes the policy and leaves its name taken. */
  function WithRemovedPolicy(role: Role): Iam {
    Iam(map[PolicyName(role) := 1], 2, {1}, Table([], 1), {}, {})
  }

  lemma RemovedPolicyIsTaken(role: Role, place: map<Code, nat>)
    requires TARIFF_VIEW in role.raw && Mapped(Wanted(role), place)
    ensures var before := WithRemovedPolicy(role);
            && before.Valid() && !before.Attached(role.id) && before.RemovedByName(PolicyName(role))
            && Migratable(before, role, place)
    ensures TARIFF_VIEW in SetOf(role.raw) - RETIRED && Wanted(role) != []
  {
    WantedIs(role);
    assert TARIFF_VIEW in SetOf(Wanted(role));
  }

  /** After that the backfill of a role by this name commits, its check passes, and the role may do nothing. */
  lemma RemovedPolicyLeavesItsRolePowerless(role: Role, place: map<Code, nat>)
    requires TARIFF_VIEW in role.raw && Mapped(Wanted(role), place)
    ensures var before, run := WithRemovedPolicy(role), Backfill(WithRemovedPolicy(role), [role], place);
            && before.Valid() && DistinctRoles([role]) && run.Some?
            && run.value.SelfCheckReads(role.id) == SetOf(role.raw) - RETIRED
            && run.value.Effective(role.id) == {} != SetOf(role.raw) - RETIRED
  {
    hide WithRemovedPolicy, Backfill, Wanted, Migratable, SetOf;
    RemovedPolicyIsTaken(role, place);
    RunKeepsSince(WithRemovedPolicy(role), [role], place);
    BackfillEquivalence(WithRemovedPolicy(role), [role], place);
    assert role in [role];
  }

  /** Another role holds the policy with this role's name, whose only statement was soft-deleted. */
  function WithSharedPolicy(role: Role, other: nat): Iam {
    Iam(map[PolicyName(role) := 1], 2, {}, Table([Statement(1, 1, 1, Array([TARIFF_VIEW]), true)], 2), {(other, 1)}, {})
  }

  lemma SharedPolicyIsTaken(role: Role, other: nat, place: map<Code, nat>)
    requires role.raw == [TARIFF_VIEW] && TARIFF_VIEW in place && other != role.id
    ensures var before := WithSharedPolicy(role, other);
            && before.Valid() && Migratable(before, role, place) && !Skipped(before, role)
            && before.Effective(other) == {} && before.SelfCheckReads(other) == {TARIFF_VIEW}
            && before.Holds(other, PolicyFor(before, role)) && (other, PolicyFor(before, role)) in before.attached
    ensures SetOf(Wanted(role)) == {TARIFF_VIEW} && Mapped(Wanted(role), place)
  {
    hide Wanted;
    var before := WithSharedPolicy(role, other);
    WantedIs(role);
    assert SetOf(role.raw) - RETIRED == {TARIFF_VIEW};
    assert forall c :: c in Wanted(role) <==> c in SetOf(Wanted(role));
    assert before.table.rows[0] in before.table.rows && Held(before.table.rows[0]) == {TARIFF_VIEW};
  }

  lemma OneRoleRun(iam: Iam, role: Role, place: map<Code, nat>)
    requires !Skipped(iam, role) && Migratable(iam, role, place)
    ensures Backfill(iam, [role], place) == Some(AfterRole(iam, role, place))
  {
    assert [role][..0] == [];
  }

  /** The check passes, what it would read for the other role is as before, and the other role can suddenly view
      tariffs. */
  lemma SharedPolicyGivesAnotherRoleACode(role: Role, other: nat, place: map<Code, nat>)
    requires role.raw == [TARIFF_VIEW] && TARIFF_VIEW in place && other != role.id
    ensures var before, run := WithSharedPolicy(role, other), Backfill(WithSharedPolicy(role, other), [role], place);
            && before.Valid() && DistinctRoles([role]) && run.Some?
            && run.value.SelfCheckReads(other) == before.SelfCheckReads(other)
            && before.Effective(other) == {} && run.value.Effective(other) == {TARIFF_VIEW}
  {
    hide WithSharedPolicy, Backfill, Wanted, Migratable, SetOf, AfterRole;
    var before := WithSharedPolicy(role, other);
    SharedPolicyIsTaken(role, other, place);
    OneRoleRun(before, role, place);
    OtherRoleReads(before, role, place, other);
    OtherRoleAfter(before, role, place, other);
  }
}
