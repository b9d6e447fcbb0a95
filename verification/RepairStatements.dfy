/** Migration 1793300000000: statements whose `actions` went null get their codes back from the role's own grants. */
module RepairStatements {
  import opened PolicyStatements
  import opened ResourceGrouping
  import opened CodeFolding

  /** A policy named after a role, and the action codes of that role's grants in query order. */
  datatype Source = Source(policy: nat, raw: seq<Code>)

  predicate Represented(code: Code) { code !in RETIRED && code !in DEAD && code !in NAV_ONLY }

  /** The pipeline: drop what no statement represents, fold the rest. */
  function Pipeline(raw: seq<Code>): seq<Code> {
    if raw == [] then []
    else
      var last := raw[|raw| - 1];
      Pipeline(raw[..|raw| - 1]) + if Represented(last) then [Corrected(Merged(last))] else []
  }

  function Derived(raw: seq<Code>): seq<Code> { Distinct(Pipeline(raw)) }

  lemma {:induction false} PipelineIs(raw: seq<Code>)
    ensures SetOf(Pipeline(raw)) == RepairedCodes(SetOf(raw))
  {
    if raw != [] {
      var before, last := raw[..|raw| - 1], raw[|raw| - 1];
      PipelineIs(before);
      assert SetOf(raw) == SetOf(before) + {last} by { assert raw == before + [last]; }
      assert RepairedCodes(SetOf(raw))
          == RepairedCodes(SetOf(before)) + if Represented(last) then {Corrected(Merged(last))} else {};
    }
  }

  lemma DerivedIs(raw: seq<Code>)
    ensures SetOf(Derived(raw)) == RepairedCodes(SetOf(raw))
  {
    PipelineIs(raw);
    DistinctKeepsAll(Pipeline(raw));
  }

  // ---------------------------------------------------------------------------------------------------------------
  // One policy
  // ---------------------------------------------------------------------------------------------------------------

  predicate Broken(row: Statement, policy: nat) { row.policy == policy && row.actions.Null? }

  predicate HasBroken(rows: seq<Statement>, policy: nat) { exists row :: row in rows && Broken(row, policy) }

  /** The resources a null row of the policy is on; soft-deleted rows count. */
  function BrokenOn(rows: seq<Statement>, policy: nat): set<nat> {
    set row | row in rows && Broken(row, policy) :: row.resource
  }

  function FilledRow(row: Statement, policy: nat, codes: seq<Code>, place: map<Code, nat>): Statement {
    if Broken(row, policy) then row.(actions := Array(On(codes, place, row.resource))) else row
  }

  function Filled(rows: seq<Statement>, policy: nat, codes: seq<Code>, place: map<Code, nat>): (filled: seq<Statement>)
    ensures |filled| == |rows|
    ensures forall i | 0 <= i < |rows| :: filled[i] == FilledRow(rows[i], policy, codes, place)
  {
    if rows == [] then []
    else Filled(rows[..|rows| - 1], policy, codes, place) + [FilledRow(rows[|rows| - 1], policy, codes, place)]
  }

  /** The resources the codes need and no null row covers. */
  function Missing(rows: seq<Statement>, policy: nat, codes: seq<Code>, place: map<Code, nat>): seq<nat>
    requires Mapped(codes, place)
  {
    Uncovered(KeysOf(codes, place), BrokenOn(rows, policy))
  }

  function Uncovered(keys: seq<nat>, covered: set<nat>): seq<nat> {
    if keys == [] then []
    else
      var last := keys[|keys| - 1];
      Uncovered(keys[..|keys| - 1], covered) + if last in covered then [] else [last]
  }

  lemma {:induction false} UncoveredHas(keys: seq<nat>, covered: set<nat>, key: nat)
    ensures key in Uncovered(keys, covered) <==> key in keys && key !in covered
  {
    if keys != [] {
      assert keys == keys[..|keys| - 1] + [keys[|keys| - 1]];
      UncoveredHas(keys[..|keys| - 1], covered, key);
    }
  }

  function Repaired(table: Table, policy: nat, codes: seq<Code>, place: map<Code, nat>): Table
    requires Mapped(codes, place)
  {
    var missing := Missing(table.rows, policy, codes, place);
    Table(Filled(table.rows, policy, codes, place) + Written(missing, policy, codes, place, table.nextId),
          table.nextId + |missing|)
  }

  /** What a policy with a null row must meet for its repair to go through. */
  predicate Repairable(rows: seq<Statement>, policy: nat, codes: seq<Code>, place: map<Code, nat>) {
    && Mapped(codes, place)
    && (forall row | row in rows && Broken(row, policy) :: row.resource in KeysOf(codes, place))
    && (forall row | row in rows && row.policy == policy && !row.actions.Null? ::
          Iterable(row.actions) && Held(row) <= SetOf(codes))
  }

  lemma FilledRowHolds(row: Statement, policy: nat, codes: seq<Code>, place: map<Code, nat>, c: Code)
    requires Mapped(codes, place)
    ensures c in Held(FilledRow(row, policy, codes, place))
       <==> c in Held(row) || (Broken(row, policy) && c in codes && place[c] == row.resource)
  {
    OnHolds(codes, place, row.resource, c);
  }

  predicate LiveBroken(rows: seq<Statement>, policy: nat, resource: nat) {
    exists row :: row in rows && Broken(row, policy) && !row.deleted && row.resource == resource
  }

  lemma BrokenOneMore(rows: seq<Statement>, row: Statement, policy: nat, resource: nat)
    ensures BrokenOn(rows + [row], policy)
         == BrokenOn(rows, policy) + if Broken(row, policy) then {row.resource} else {}
    ensures LiveBroken(rows + [row], policy, resource)
       <==> LiveBroken(rows, policy, resource) || (Broken(row, policy) && !row.deleted && row.resource == resource)
  {
    if Broken(row, policy) && !row.deleted && row.resource == resource {
      assert row in rows + [row];
    }
    if r :| r in rows && Broken(r, policy) && !r.deleted && r.resource == resource {
      assert r in rows + [row];
    }
  }

  /** Filling the null rows adds, among all rows and among the live ones, exactly the codes of their resources. */
  lemma {:induction false} FilledStores(
    rows: seq<Statement>, policy: nat, codes: seq<Code>, place: map<Code, nat>, c: Code)
    requires Mapped(codes, place)
    ensures c in Stored(Filled(rows, policy, codes, place), policy)
       <==> c in Stored(rows, policy) || (c in codes && place[c] in BrokenOn(rows, policy))
  {
    if rows != [] {
      var before, last := rows[..|rows| - 1], rows[|rows| - 1];
      var filled, row := Filled(before, policy, codes, place), FilledRow(last, policy, codes, place);
      assert rows == before + [last] && Filled(rows, policy, codes, place) == filled + [row];
      FilledStores(before, policy, codes, place, c);
      FilledRowHolds(last, policy, codes, place, c);
      StoredAppend(before, last, policy);
      StoredAppend(filled, row, policy);
      BrokenOneMore(before, last, policy, 0);
    }
  }

  lemma {:induction false} FilledGrants(
    rows: seq<Statement>, policy: nat, codes: seq<Code>, place: map<Code, nat>, c: Code)
    requires Mapped(codes, place)
    ensures c in Granted(Filled(rows, policy, codes, place), policy)
       <==> c in Granted(rows, policy) || (c in codes && LiveBroken(rows, policy, place[c]))
  {
    if rows != [] {
      var before, last := rows[..|rows| - 1], rows[|rows| - 1];
      var filled, row := Filled(before, policy, codes, place), FilledRow(last, policy, codes, place);
      assert rows == before + [last] && Filled(rows, policy, codes, place) == filled + [row];
      FilledGrants(before, policy, codes, place, c);
      FilledRowHolds(last, policy, codes, place, c);
      GrantedAppend(before, last, policy);
      GrantedAppend(filled, row, policy);
      if c in codes {
        BrokenOneMore(before, last, policy, place[c]);
      }
    }
  }

  /** The repair adds the derived codes to what the policy stores and touches no other policy; no null row of it is
      left. */
  lemma RepairAddsTheDerivedCodes(table: Table, policy: nat, codes: seq<Code>, place: map<Code, nat>)
    requires Mapped(codes, place)
    ensures var after := Repaired(table, policy, codes, place).rows;
            && Stored(after, policy) == Stored(table.rows, policy) + SetOf(codes)
            && !HasBroken(after, policy)
            && (forall row | row in table.rows && !Broken(row, policy) :: row in after)
            && (forall row: Statement | row.policy != policy :: row in after <==> row in table.rows)
  {
    var rows, filled, missing := table.rows, Filled(table.rows, policy, codes, place),
                                 Missing(table.rows, policy, codes, place);
    var after := Repaired(table, policy, codes, place).rows;
    forall c ensures c in Stored(after, policy) <==> c in Stored(rows, policy) || c in codes {
      FilledStores(rows, policy, codes, place, c);
      WritingAdds(filled, missing, policy, codes, place, table.nextId);
      if c in codes {
        KeysOfHas(codes, place, place[c]);
        UncoveredHas(KeysOf(codes, place), BrokenOn(rows, policy), place[c]);
      }
    }
    RepairedRows(table, policy, codes, place);
  }

  lemma RepairedRows(table: Table, policy: nat, codes: seq<Code>, place: map<Code, nat>)
    requires Mapped(codes, place)
    ensures var after := Repaired(table, policy, codes, place).rows;
            && (forall row | row in after :: row in table.rows || (row.policy == policy && row.actions.Array?))
            && !HasBroken(after, policy)
            && (forall row | row in table.rows && !Broken(row, policy) :: row in after)
  {
    var rows, filled := table.rows, Filled(table.rows, policy, codes, place);
    forall row | row in rows && !Broken(row, policy) ensures row in filled {
      var i :| 0 <= i < |rows| && rows[i] == row;
      assert filled[i] == row;
    }
  }

  /** Every row the repair rewrites or inserts lists exactly the derived codes of its own resource. */
  lemma RepairedRowsHoldTheirResource(
    table: Table, policy: nat, codes: seq<Code>, place: map<Code, nat>, row: Statement)
    requires Mapped(codes, place)
    requires row in Repaired(table, policy, codes, place).rows && row !in table.rows
    ensures row.policy == policy && HoldsItsResource(row, codes, place)
  {
    var filled := Filled(table.rows, policy, codes, place);
    if row in filled {
      var i :| 0 <= i < |filled| && filled[i] == row;
      assert table.rows[i] in table.rows;
      forall c ensures c in Held(row) <==> c in codes && c in place && place[c] == row.resource {
        OnHolds(codes, place, row.resource, c);
      }
    } else {
      WrittenRowsHoldTheirResource(Missing(table.rows, policy, codes, place), policy, codes, place, table.nextId, row);
    }
  }

  /** The self-check is exact: with the null rows filled it passes if and only if every other row of the policy is an
      array of derived codes. A derived code is never missing. */
  lemma RepairCheckPassesIff(table: Table, policy: nat, codes: seq<Code>, place: map<Code, nat>)
    requires Mapped(codes, place)
    requires forall row | row in table.rows && Broken(row, policy) :: row.resource in KeysOf(codes, place)
    ensures var after := Repaired(table, policy, codes, place).rows;
            Repairable(table.rows, policy, codes, place)
            <==> AllIterable(after, policy) && Stored(after, policy) == SetOf(codes)
  {
    RepairAddsTheDerivedCodes(table, policy, codes, place);
    RepairedRows(table, policy, codes, place);
    var after := Repaired(table, policy, codes, place).rows;
    if Repairable(table.rows, policy, codes, place) {
      assert Stored(table.rows, policy) <= SetOf(codes);
    }
    if AllIterable(after, policy) && Stored(after, policy) == SetOf(codes) {
      forall row | row in table.rows && row.policy == policy && !row.actions.Null?
        ensures Iterable(row.actions) && Held(row) <= SetOf(codes)
      {
        assert row in after;
        assert Held(row) <= Stored(table.rows, policy);
      }
    }
  }

  /** The check reads soft-deleted rows, so a passing repair gives the policy's live statements every derived code if
      and only if no code is left to a soft-deleted row: each one a live row already held, or has a live null row on
      its resource, or has no null row there at all. */
  lemma RepairRestoresLiveGrantsIff(table: Table, policy: nat, codes: seq<Code>, place: map<Code, nat>)
    requires Repairable(table.rows, policy, codes, place)
    ensures Granted(Repaired(table, policy, codes, place).rows, policy) <= SetOf(codes)
    ensures Granted(Repaired(table, policy, codes, place).rows, policy) == SetOf(codes)
       <==> forall c | c in codes :: ReachesALiveRow(table.rows, policy, place[c], c)
  {
    var rows, filled, missing := table.rows, Filled(table.rows, policy, codes, place),
                                 Missing(table.rows, policy, codes, place);
    var after := Repaired(table, policy, codes, place).rows;
    RepairCheckPassesIff(table, policy, codes, place);
    assert Granted(after, policy) <= Stored(after, policy);
    forall c | c in codes ensures c in Granted(after, policy) <==> ReachesALiveRow(rows, policy, place[c], c) {
      FilledGrants(rows, policy, codes, place, c);
      WritingAdds(filled, missing, policy, codes, place, table.nextId);
      KeysOfHas(codes, place, place[c]);
      UncoveredHas(KeysOf(codes, place), BrokenOn(rows, policy), place[c]);
    }
  }

  predicate ReachesALiveRow(rows: seq<Statement>, policy: nat, resource: nat, c: Code) {
    || c in Granted(rows, policy)
    || LiveBroken(rows, policy, resource)
    || resource !in BrokenOn(rows, policy)
  }

  /** The repair keeps every row's primary key, and gives the rows it inserts the next ones. */
  lemma RepairKeepsKeys(table: Table, policy: nat, codes: seq<Code>, place: map<Code, nat>)
    requires Mapped(codes, place) && InKeyOrder(table)
    ensures InKeyOrder(Repaired(table, policy, codes, place))
  {
    hide InKeyOrder, Missing;
    var filled := Filled(table.rows, policy, codes, place);
    SameKeys(table, filled);
    WrittenKeepsKeys(Table(filled, table.nextId), Missing(table.rows, policy, codes, place), policy, codes, place);
  }

  /** A policy whose only statement on a resource went null and is soft-deleted: the repair goes through, its check
      passes, and the policy grants nothing. */
  lemma SoftDeletedNullRowSwallowsTheRepair(policy: nat, resource: nat, code: Code)
    ensures var table := Table([Statement(1, policy, resource, Null, true)], 2);
            var codes, place := [code], map[code := resource];
            var after := Repaired(table, policy, codes, place).rows;
            && Repairable(table.rows, policy, codes, place)
            && AllIterable(after, policy) && Stored(after, policy) == SetOf(codes)
            && Granted(after, policy) == {} != SetOf(codes)
  {
    hide Repaired;
    var row := Statement(1, policy, resource, Null, true);
    var table, codes, place := Table([row], 2), [code], map[code := resource];
    assert codes[0] == code && table.rows[0] == row;
    assert code in codes && place[code] == resource;
    KeysOfHas(codes, place, resource);
    assert forall r | r in table.rows :: r == row;
    assert Broken(row, policy) && resource in BrokenOn(table.rows, policy);
    RepairCheckPassesIff(table, policy, codes, place);
    RepairRestoresLiveGrantsIff(table, policy, codes, place);
    assert !ReachesALiveRow(table.rows, policy, resource, code);
    assert SetOf(codes) == {code};
  }
}
