/** The ACCOUNT migration as it runs: the loops of `up` and `down` over a mutable database, in one transaction. */
module AccountMigrationRun {
  import opened Wrappers
  import opened PolicyStatements
  import opened AccountConsolidation
  import AccountMigration

  /** Every `actions` value the fold of one table has to parse is an array or the text of one. */
  ghost predicate FoldReadable(rows: seq<Statement>, account: nat, oldIds: set<nat>) {
    && (forall row | row in rows && LiveOld(row, oldIds) :: row.actions.Readable())
    && (forall p | p in FoldedPolicies(rows, oldIds) :: FirstReadable(rows, p, account))
  }

  ghost predicate SplitReadable(rows: seq<Statement>, account: nat) {
    forall row | row in LiveRowsOn(rows, account) :: row.actions.Readable()
  }

  predicate FirstReadable(rows: seq<Statement>, policy: nat, account: nat) {
    var first := FirstAccount(rows, policy, account);
    first.Some? ==> rows[first.value].actions.Readable()
  }

  lemma FirstIs(rows: seq<Statement>, policy: nat, account: nat, i: nat)
    requires i < |rows| && LiveAccount(rows[i], policy, account)
    requires forall j | 0 <= j < i :: !LiveAccount(rows[j], policy, account)
    ensures FirstAccount(rows, policy, account) == Some(i)
  {
    var first := FirstAccount(rows, policy, account);
    assert rows[i] in rows && first.Some?;
  }

  lemma NoFirst(rows: seq<Statement>, policy: nat, account: nat)
    requires forall j | 0 <= j < |rows| :: !LiveAccount(rows[j], policy, account)
    ensures FirstAccount(rows, policy, account) == None
  {
  }

  lemma SameFirst(rows: seq<Statement>, after: seq<Statement>, policy: nat, account: nat)
    requires |rows| <= |after|
    requires forall i | 0 <= i < |rows| ::
               if LiveAccount(rows[i], policy, account) then after[i] == rows[i]
               else !LiveAccount(after[i], policy, account)
    requires forall i | |rows| <= i < |after| :: !LiveAccount(after[i], policy, account)
    ensures var first := FirstAccount(rows, policy, account);
            FirstAccount(after, policy, account) == first && (first.Some? ==> after[first.value] == rows[first.value])
  {
    match FirstAccount(rows, policy, account)
    case Some(i) => FirstIs(after, policy, account, i);
    case None =>
      forall i | 0 <= i < |after| ensures !LiveAccount(after[i], policy, account) {
        if i < |rows| { assert rows[i] in rows; }
      }
      NoFirst(after, policy, account);
  }

  lemma FoldingAnotherKeepsFirst(table: Table, policy: nat, account: nat, folded: seq<Code>, other: nat)
    requires other != policy
    ensures var rows, after := table.rows, FoldPolicy(table, policy, account, folded).rows;
            var first := FirstAccount(rows, other, account);
            FirstAccount(after, other, account) == first && (first.Some? ==> after[first.value] == rows[first.value])
  {
    SameFirst(table.rows, FoldPolicy(table, policy, account, folded).rows, other, account);
  }

  lemma {:induction false} FoldingOthersKeepsFirst(
    table: Table, policies: seq<nat>, account: nat, source: seq<Statement>, oldIds: set<nat>, other: nat)
    requires other !in policies
    ensures var rows, after := table.rows, FoldPolicies(table, policies, account, source, oldIds).rows;
            var first := FirstAccount(rows, other, account);
            FirstAccount(after, other, account) == first && (first.Some? ==> after[first.value] == rows[first.value])
  {
    if policies != [] {
      var before, last := policies[..|policies| - 1], policies[|policies| - 1];
      FoldingOthersKeepsFirst(table, before, account, source, oldIds, other);
      FoldingAnotherKeepsFirst(
        FoldPolicies(table, before, account, source, oldIds), last, account, FoldedCodes(source, last, oldIds), other);
    }
  }

  /** After the fold the policy's first ACCOUNT statement holds every folded code, so the equivalence check cannot
      fire. */
  lemma RereadHoldsTheFold(table: Table, policy: nat, account: nat, folded: seq<Code>)
    ensures var after := FoldPolicy(table, policy, account, folded).rows;
            var reread := FirstAccount(after, policy, account);
            reread.Some? && SetOf(folded) <= Held(after[reread.value])
  {
    var after := FoldPolicy(table, policy, account, folded).rows;
    match FirstAccount(table.rows, policy, account)
    case None =>
      OrderedUnionIsTheUnion([], folded);
      assert forall i | 0 <= i < |table.rows| :: table.rows[i] in table.rows;
      FirstIs(after, policy, account, |table.rows|);
    case Some(i) =>
      OrderedUnionIsTheUnion(table.rows[i].actions.Parse(), folded);
      FirstIs(after, policy, account, i);
  }

  /** `codes` holds, for each of `policies`, what its live per-page statements among `rows` list. */
  ghost predicate GroupedSoFar(rows: seq<Statement>, oldIds: set<nat>, policies: seq<nat>, codes: map<nat, seq<Code>>) {
    && policies == FoldedPolicies(rows, oldIds)
    && forall p :: if p in policies then p in codes && codes[p] == FoldedCodes(rows, p, oldIds)
                   else p !in codes && FoldedCodes(rows, p, oldIds) == []
  }

  lemma GroupOneMore(
    rows: seq<Statement>, row: Statement, oldIds: set<nat>, policies: seq<nat>, codes: map<nat, seq<Code>>)
    requires GroupedSoFar(rows, oldIds, policies, codes)
    ensures if !LiveOld(row, oldIds) then GroupedSoFar(rows + [row], oldIds, policies, codes)
            else if row.policy in codes
            then GroupedSoFar(rows + [row], oldIds, policies,
                              codes[row.policy := codes[row.policy] + row.actions.Parse()])
            else GroupedSoFar(rows + [row], oldIds, policies + [row.policy], codes[row.policy := row.actions.Parse()])
  {
    assert (rows + [row])[..|rows|] == rows;
    assert row.policy in codes <==> row.policy in policies;
    forall p
      ensures FoldedCodes(rows + [row], p, oldIds)
           == FoldedCodes(rows, p, oldIds) + if LiveOld(row, oldIds) && row.policy == p then row.actions.Parse()
              else []
    {
    }
  }

  /** The live per-page statements of one table, grouped by policy; none when a value cannot be parsed. */
  method GroupByPolicy(rows: seq<Statement>, oldIds: set<nat>)
    returns (grouped: Option<(seq<nat>, map<nat, seq<Code>>)>)
    ensures grouped.None? <==> exists row :: row in rows && LiveOld(row, oldIds) && !row.actions.Readable()
    ensures grouped.Some? ==> GroupedSoFar(rows, oldIds, grouped.value.0, grouped.value.1)
  {
    var policies: seq<nat> := [];
    var codes: map<nat, seq<Code>> := map[];
    for i := 0 to |rows|
      invariant GroupedSoFar(rows[..i], oldIds, policies, codes)
      invariant forall j | 0 <= j < i :: LiveOld(rows[j], oldIds) ==> rows[j].actions.Readable()
    {
      var row := rows[i];
      GroupOneMore(rows[..i], row, oldIds, policies, codes);
      assert rows[..i + 1] == rows[..i] + [row];
      if LiveOld(row, oldIds) {
        if row.actions.BadText? {
          return None;
        }
        if row.policy in codes {
          codes := codes[row.policy := codes[row.policy] + row.actions.Parse()];
        } else {
          policies, codes := policies + [row.policy], codes[row.policy := row.actions.Parse()];
        }
      }
    }
    assert rows[..|rows|] == rows;
    grouped := Some((policies, codes));
  }

  /** Folds one policy's codes; nothing when its ACCOUNT statement cannot be parsed. The equivalence check of the
      source is the assertion at the end: it cannot fire. */
  method FoldOne(table: Table, policy: nat, account: nat, folded: seq<Code>) returns (result: Option<Table>)
    ensures result.Some? <==> FirstReadable(table.rows, policy, account)
    ensures result.Some? ==> result.value == FoldPolicy(table, policy, account, folded)
  {
    var existing := FirstAccount(table.rows, policy, account);
    var after;
    if existing.Some? {
      var row := table.rows[existing.value];
      if row.actions.BadText? {
        return None;
      }
      var merged := OrderedUnion(row.actions.Parse(), folded);
      after := Table(table.rows[existing.value := row.(actions := Array(merged))], table.nextId);
    } else {
      var inserted := Statement(table.nextId, policy, account, Array(OrderedUnion([], folded)), false);
      after := Table(table.rows + [inserted], table.nextId + 1);
    }
    RereadHoldsTheFold(table, policy, account, folded);
    var reread := FirstAccount(after.rows, policy, account);
    var missing := Keep(folded, SetOf(folded) - Held(after.rows[reread.value]));
    KeepsNothing(folded, SetOf(folded) - Held(after.rows[reread.value]));
    assert missing == [];
    result := Some(after);
  }

  /** The fold loop over the grouped policies. */
  method FoldGroups(table: Table, policies: seq<nat>, codes: map<nat, seq<Code>>, account: nat, oldIds: set<nat>)
    returns (result: Option<Table>)
    requires forall i, j | 0 <= i < j < |policies| :: policies[i] != policies[j]
    requires forall p | p in policies :: p in codes && codes[p] == FoldedCodes(table.rows, p, oldIds)
    ensures result.Some? <==> forall p | p in policies :: FirstReadable(table.rows, p, account)
    ensures result.Some? ==> result.value == FoldPolicies(table, policies, account, table.rows, oldIds)
  {
    var current := table;
    for k := 0 to |policies|
      invariant current == FoldPolicies(table, policies[..k], account, table.rows, oldIds)
      invariant forall j | 0 <= j < k :: FirstReadable(table.rows, policies[j], account)
    {
      var policy := policies[k];
      assert policies[..k + 1][..k] == policies[..k];
      FoldingOthersKeepsFirst(table, policies[..k], account, table.rows, oldIds, policy);
      var folded := FoldOne(current, policy, account, codes[policy]);
      if folded.None? {
        assert policy in policies;
        return None;
      }
      current := folded.value;
    }
    assert policies[..|policies|] == policies;
    result := Some(current);
  }

  /** The fold of one table; nothing when a value it reads cannot be parsed. The last assertion is the check that no
      row refers to a per-page resource any more: it cannot fire either. */
  method ConsolidateTable(table: Table, account: nat, oldIds: set<nat>) returns (result: Option<Table>)
    ensures result.Some? <==> FoldReadable(table.rows, account, oldIds)
    ensures result.Some? ==> result.value == Consolidated(table, account, oldIds)
  {
    var grouped := GroupByPolicy(table.rows, oldIds);
    if grouped.None? {
      return None;
    }
    FoldedPoliciesAre(table.rows, oldIds);
    result := FoldGroups(table, grouped.value.0, grouped.value.1, account, oldIds);
    if result.Some? {
      var folded := result.value;
      var kept := WithoutResources(folded.rows, oldIds);
      assert forall row | row in kept :: row.resource !in oldIds;
      result := Some(Table(kept, folded.nextId));
    }
  }

  /** The pages of one ACCOUNT statement. */
  method SplitOne(table: Table, statement: Statement, pages: seq<ResourceCode>, pageIds: map<ResourceCode, nat>)
    returns (after: Table)
    requires forall page | page in pages :: page in pageIds
    ensures after == SplitStatement(table, statement, pages, pageIds)
  {
    var held := Held(statement);
    after := table;
    for k := 0 to |pages|
      invariant after == SplitStatement(table, statement, pages[..k], pageIds)
    {
      assert pages[..k + 1][..k] == pages[..k];
      var codes := Keep(PageActions(pages[k]), held);
      if codes != [] {
        var added := Statement(after.nextId, statement.policy, pageIds[pages[k]], Array(codes), false);
        after := Table(after.rows + [added], after.nextId + 1);
      }
    }
    assert pages[..|pages|] == pages;
  }

  lemma SplitOneMore(
    table: Table, statements: seq<Statement>, statement: Statement, pages: seq<ResourceCode>,
    pageIds: map<ResourceCode, nat>)
    requires forall page | page in pages :: page in pageIds
    ensures SplitStatements(table, statements + [statement], pages, pageIds)
         == SplitStatement(SplitStatements(table, statements, pages, pageIds), statement, pages, pageIds)
  {
    assert (statements + [statement])[..|statements|] == statements;
  }

  /** The split loop; it stops at a statement that cannot be parsed. */
  method SplitAll(table: Table, statements: seq<Statement>, pages: seq<ResourceCode>, pageIds: map<ResourceCode, nat>)
    returns (result: Option<Table>)
    requires forall page | page in pages :: page in pageIds
    ensures result.Some? <==> forall statement | statement in statements :: statement.actions.Readable()
    ensures result.Some? ==> result.value == SplitStatements(table, statements, pages, pageIds)
  {
    hide SplitStatement;
    var current := table;
    for i := 0 to |statements|
      invariant current == SplitStatements(table, statements[..i], pages, pageIds)
      invariant forall j | 0 <= j < i :: statements[j].actions.Readable()
    {
      var statement := statements[i];
      assert statement in statements;
      if statement.actions.BadText? {
        return None;
      }
      SplitOneMore(table, statements[..i], statement, pages, pageIds);
      assert statements[..i + 1] == statements[..i] + [statement];
      current := SplitOne(current, statement, pages, pageIds);
    }
    assert statements[..|statements|] == statements;
    result := Some(current);
  }

  /** The split of one table; nothing when a live ACCOUNT statement cannot be parsed. */
  method SplitTable(table: Table, account: nat, pages: seq<ResourceCode>, pageIds: map<ResourceCode, nat>)
    returns (result: Option<Table>)
    requires forall page | page in pages :: page in pageIds
    ensures result.Some? <==> SplitReadable(table.rows, account)
    ensures result.Some? ==> result.value == Split(table, account, pages, pageIds)
  {
    result := SplitAll(table, LiveRowsOn(table.rows, account), pages, pageIds);
    if result.Some? {
      result := Some(Table(WithoutResources(result.value.rows, {account}), result.value.nextId));
    }
  }

  /** The database a migration runs on. */
  class MigrationDatabase {
    var resources: map<ResourceCode, nat>
    var nextResource: nat
    var tables: map<TableName, Table>

    constructor (db: AccountMigration.Db)
      ensures Snapshot() == db
    {
      resources, nextResource, tables := db.resources, db.nextResource, db.tables;
    }

    function Snapshot(): AccountMigration.Db
      reads this
    {
      AccountMigration.Db(resources, nextResource, tables)
    }

    method EnsureResource(code: ResourceCode)
      modifies this
      ensures Snapshot() == AccountMigration.EnsureResource(old(Snapshot()), code)
    {
      if code !in resources {
        resources := resources[code := nextResource];
        nextResource := nextResource + 1;
      }
    }

    method EnsureAll(codes: seq<ResourceCode>)
      modifies this
      ensures Snapshot() == AccountMigration.EnsureResources(old(Snapshot()), codes)
    {
      for k := 0 to |codes|
        invariant Snapshot() == AccountMigration.EnsureResources(old(Snapshot()), codes[..k])
      {
        assert codes[..k + 1][..k] == codes[..k];
        EnsureResource(codes[k]);
      }
      assert codes[..|codes|] == codes;
    }

    method ConsolidateOne(t: TableName, account: nat, oldIds: set<nat>) returns (done: bool)
      modifies this`tables
      ensures done <==> (t in old(tables) ==> FoldReadable(old(tables)[t].rows, account, oldIds))
      ensures tables
           == if done && t in old(tables) then old(tables)[t := Consolidated(old(tables)[t], account, oldIds)]
              else old(tables)
    {
      if t !in tables { return true; }
      var folded := ConsolidateTable(tables[t], account, oldIds);
      done := folded.Some?;
      if done {
        tables := tables[t := folded.value];
      }
    }

    /** The statement tables of `up`, all or none. */
    method ConsolidateTables(account: nat, oldIds: set<nat>) returns (done: bool)
      modifies this`tables
      ensures done <==> forall t | t in old(tables) :: FoldReadable(old(tables)[t].rows, account, oldIds)
      ensures tables
           == if done then map t | t in old(tables) :: Consolidated(old(tables)[t], account, oldIds) else old(tables)
    {
      var saved := tables;
      for k := 0 to |TABLES|
        invariant tables.Keys == saved.Keys
        invariant forall t | t in tables ::
            tables[t] == if t in TABLES[..k] then Consolidated(saved[t], account, oldIds) else saved[t]
        invariant forall t | t in tables && t in TABLES[..k] :: FoldReadable(saved[t].rows, account, oldIds)
      {
        var t := TABLES[k];
        assert TABLES[..k + 1] == TABLES[..k] + [t] && t !in TABLES[..k];
        done := ConsolidateOne(t, account, oldIds);
        if !done {
          tables := saved;
          return;
        }
      }
      EveryTable();
      assert TABLES[..|TABLES|] == TABLES;
      done := true;
    }

    /** `up`. It fails, rolling everything back, exactly when a value it must parse is not an array; never on a
        self-check. */
    method Up() returns (done: bool)
      requires AccountMigration.WellFormed(Snapshot())
      modifies this
      ensures Snapshot() == if done then AccountMigration.Up(old(Snapshot())) else old(Snapshot())
      ensures done <==> UpReadable(old(Snapshot()))
    {
      var oldIds := AccountMigration.OldIds(resources);
      if oldIds == {} {
        return true;
      }
      ghost var before := Snapshot();
      var savedResources, savedNext := resources, nextResource;
      EnsureResource(ACCOUNT);
      done := ConsolidateTables(resources[ACCOUNT], oldIds);
      if done {
        resources := resources - SetOf(PAGES);
        assert tables == AccountMigration.Up(before).tables;
      } else {
        resources, nextResource := savedResources, savedNext;
      }
    }

    /** `down`, with the same rollback. */
    method Down() returns (done: bool)
      modifies this
      ensures Snapshot() == if done then AccountMigration.Down(old(Snapshot())) else old(Snapshot())
      ensures done <==> DownReadable(old(Snapshot()))
    {
      if ACCOUNT !in resources {
        return true;
      }
      ghost var before := Snapshot();
      var account := resources[ACCOUNT];
      var savedResources, savedNext := resources, nextResource;
      EnsureAll(PAGES);
      done := SplitTables(account, PAGES, AccountMigration.PageIds(Snapshot()));
      if done {
        resources := resources - {ACCOUNT};
        assert tables == AccountMigration.Down(before).tables;
      } else {
        resources, nextResource := savedResources, savedNext;
      }
    }

    /** The statement tables of `down`, all or none. */
    method SplitTables(account: nat, pages: seq<ResourceCode>, pageIds: map<ResourceCode, nat>) returns (done: bool)
      requires forall page | page in pages :: page in pageIds
      modifies this`tables
      ensures done <==> forall t | t in old(tables) :: SplitReadable(old(tables)[t].rows, account)
      ensures tables
           == if done then map t | t in old(tables) :: Split(old(tables)[t], account, pages, pageIds) else old(tables)
    {
      var saved := tables;
      for k := 0 to |TABLES|
        invariant tables.Keys == saved.Keys
        invariant forall t | t in tables ::
            tables[t] == if t in TABLES[..k] then Split(saved[t], account, pages, pageIds) else saved[t]
        invariant forall t | t in tables && t in TABLES[..k] :: SplitReadable(saved[t].rows, account)
      {
        var t := TABLES[k];
        assert TABLES[..k + 1] == TABLES[..k] + [t] && t !in TABLES[..k];
        if t in tables {
          var split := SplitTable(tables[t], account, pages, pageIds);
          if split.None? {
            tables := saved;
            return false;
          }
          tables := tables[t := split.value];
        }
      }
      EveryTable();
      assert TABLES[..|TABLES|] == TABLES;
      done := true;
    }
  }

  lemma EveryTable()
    ensures forall t: TableName :: t in TABLES
  {
    forall t: TableName ensures t in TABLES {
      match t
      case POLICY_STATEMENTS => assert TABLES[0] == t;
      case ROLE_INLINE_POLICY_STATEMENTS => assert TABLES[1] == t;
      case USER_INLINE_POLICY_STATEMENTS => assert TABLES[2] == t;
    }
  }

  ghost predicate UpReadable(db: AccountMigration.Db) {
    var oldIds := AccountMigration.OldIds(db.resources);
    oldIds != {} ==>
      forall t | t in db.tables ::
        FoldReadable(db.tables[t].rows, AccountMigration.EnsureResource(db, ACCOUNT).resources[ACCOUNT], oldIds)
  }

  ghost predicate DownReadable(db: AccountMigration.Db) {
    ACCOUNT in db.resources ==> forall t | t in db.tables :: SplitReadable(db.tables[t].rows, db.resources[ACCOUNT])
  }
}
