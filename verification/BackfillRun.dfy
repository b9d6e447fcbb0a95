/** `up` of migration 1792600000000 as it runs, role by role. */
module BackfillRun {
  import opened Wrappers
  import opened PolicyStatements
  import opened ResourceGrouping
  import opened PolicyBackfill

  /** The IAM tables, and the resource id each action code belongs to. */
  class BackfillDatabase {
    var policies: map<string, nat>
    var nextPolicy: nat
    var rows: seq<Statement>
    var nextId: nat
    var attached: set<(nat, nat)>
    const removed: set<nat>
    const dropped: set<(nat, nat)>
    const place: map<Code, nat>

    ghost function State(): Iam
      reads this
    {
      Iam(policies, nextPolicy, removed, Table(rows, nextId), attached, dropped)
    }

    constructor (start: Iam, place: map<Code, nat>)
      ensures State() == start && this.place == place
    {
      policies, nextPolicy, attached := start.policies, start.nextPolicy, start.attached;
      rows, nextId := start.table.rows, start.table.nextId;
      removed, dropped := start.removed, start.dropped;
      this.place := place;
    }

    /** One statement per resource group. */
    method WriteStatements(policy: nat, ghost codes: seq<Code>, keys: seq<nat>, groups: map<nat, seq<Code>>)
      requires Grouped(codes, place, keys, groups)
      modifies this`rows, this`nextId
      ensures rows == old(rows) + Written(keys, policy, codes, place, old(nextId))
      ensures nextId == old(nextId) + |keys|
    {
      for i := 0 to |keys|
        invariant nextId == old(nextId) + i
        invariant rows == old(rows) + Written(keys[..i], policy, codes, place, old(nextId))
      {
        assert keys[i] in SetOf(keys);
        assert keys[..i + 1][..i] == keys[..i];
        rows := rows + [Statement(nextId, policy, keys[i], Array(groups[keys[i]]), false)];
        nextId := nextId + 1;
      }
      assert keys[..|keys|] == keys;
    }

    /** The policy with the role's name, inserted if there is none. */
    method EnsurePolicy(role: Role) returns (policy: nat)
      modifies this`policies, this`nextPolicy
      ensures policy == PolicyFor(old(State()), role)
      ensures policies == old(policies)[PolicyName(role) := policy]
      ensures nextPolicy == if PolicyName(role) in old(policies) then old(nextPolicy) else old(nextPolicy) + 1
    {
      var name := PolicyName(role);
      if name in policies {
        return policies[name];
      }
      policy := nextPolicy;
      policies, nextPolicy := policies[name := policy], nextPolicy + 1;
    }

    /** One role. The check resolves the role afresh from the rows of the policy it is attached to, by now just one. */
    method BackfillRole(role: Role) returns (done: bool)
      modifies this
      ensures done <==> Step(old(State()), role, place).Some?
      ensures done ==> Some(State()) == Step(old(State()), role, place)
    {
      ghost var before := State();
      if exists pair :: pair in attached && pair.0 == role.id { return true; }
      var codes := Wanted(role);
      if codes == [] { return true; }
      var ok, keys, groups := GroupByKey(codes, place);
      if !ok { return false; }
      var policy := EnsurePolicy(role);
      WriteStatements(policy, codes, keys, groups);
      attached := attached + {(role.id, policy)};
      assert State() == AfterRole(before, role, place);
      OnlyAttachment(before, role, place);
      CheckIsMigratable(before, role, place);
      var resolved;
      ok, resolved := Resolve(rows, policy);
      done := ok && resolved == SetOf(codes);
    }

    /** `up`: a failing role rolls everything back. */
    method Up(roles: seq<Role>) returns (done: bool)
      modifies this
      ensures done <==> Backfill(old(State()), roles, place).Some?
      ensures done ==> Some(State()) == Backfill(old(State()), roles, place)
      ensures !done ==> State() == old(State())
    {
      var saved := Iam(policies, nextPolicy, removed, Table(rows, nextId), attached, dropped);
      for i := 0 to |roles|
        invariant Backfill(saved, roles[..i], place) == Some(State())
      {
        assert roles[..i + 1][..i] == roles[..i];
        done := BackfillRole(roles[i]);
        if !done {
          FailureStays(saved, roles, i + 1, place);
          policies, nextPolicy, attached := saved.policies, saved.nextPolicy, saved.attached;
          rows, nextId := saved.table.rows, saved.table.nextId;
          return;
        }
      }
      assert roles[..|roles|] == roles;
      done := true;
    }
  }

  /** The role had no policy, so the rows its check joins are those of the new attachment. */
  lemma OnlyAttachment(before: Iam, role: Role, place: map<Code, nat>)
    requires !before.Attached(role.id) && Mapped(Wanted(role), place)
    ensures var after := AfterRole(before, role, place);
            forall policy :: (role.id, policy) in after.attached <==> policy == PolicyFor(before, role)
  {
    forall policy ensures (role.id, policy) !in before.attached {
      var pair := (role.id, policy);
      assert pair in before.attached ==> before.Attached(role.id);
    }
  }

  /** The check, read off the rows after writing, is what `Migratable` says of the rows before. */
  lemma CheckIsMigratable(before: Iam, role: Role, place: map<Code, nat>)
    requires Mapped(Wanted(role), place)
    ensures var after := AfterRole(before, role, place).table.rows;
            Migratable(before, role, place)
            <==> (AllIterable(after, PolicyFor(before, role))
                  && Stored(after, PolicyFor(before, role)) == SetOf(Wanted(role)))
  {
    AfterRoleStores(before, role, place);
    assert forall row | row in NewRows(before, role, place) :: row.actions.Array?;
  }

  lemma {:induction false} FailureStays(start: Iam, roles: seq<Role>, failed: nat, place: map<Code, nat>)
    requires failed <= |roles| && Backfill(start, roles[..failed], place).None?
    ensures Backfill(start, roles, place).None?
  {
    if failed == |roles| {
      assert roles[..failed] == roles;
    } else {
      assert roles[..|roles| - 1][..failed] == roles[..failed];
      FailureStays(start, roles[..|roles| - 1], failed, place);
    }
  }
}
