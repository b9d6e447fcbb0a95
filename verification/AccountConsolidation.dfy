/** `src/migrations/1794100000000-ConsolidateSettingsResourcesIntoAccount.ts`: the eight per-page Settings resources
    become the one resource ACCOUNT, statement by statement, and back. */
module AccountConsolidation {
  import opened Wrappers
  import opened PolicyStatements

  datatype ResourceCode =
    | ACCOUNT
    | SETTINGS_PROFILE | SETTINGS_APPEARANCE | SETTINGS_REGIONAL | SETTINGS_DISPLAY
    | SETTINGS_NOTIFICATIONS | SETTINGS_PASSWORD | SETTINGS_SESSIONS | SETTINGS_LOGIN_HISTORY
    | OtherResource(name: string)

  datatype TableName = POLICY_STATEMENTS | ROLE_INLINE_POLICY_STATEMENTS | USER_INLINE_POLICY_STATEMENTS

  const PAGES: seq<ResourceCode> :=
    [SETTINGS_PROFILE, SETTINGS_APPEARANCE, SETTINGS_REGIONAL, SETTINGS_DISPLAY,
     SETTINGS_NOTIFICATIONS, SETTINGS_PASSWORD, SETTINGS_SESSIONS, SETTINGS_LOGIN_HISTORY]

  const TABLES: seq<TableName> := [POLICY_STATEMENTS, ROLE_INLINE_POLICY_STATEMENTS, USER_INLINE_POLICY_STATEMENTS]

  function PageActions(page: ResourceCode): seq<Code> {
    match page
    case SETTINGS_PROFILE => [SETTINGS_PROFILE_VIEW, SETTINGS_PROFILE_UPDATE]
    case SETTINGS_APPEARANCE => [SETTINGS_APPEARANCE_VIEW, SETTINGS_APPEARANCE_UPDATE]
    case SETTINGS_REGIONAL => [SETTINGS_REGIONAL_VIEW, SETTINGS_REGIONAL_UPDATE]
    case SETTINGS_DISPLAY => [SETTINGS_DISPLAY_VIEW, SETTINGS_DISPLAY_UPDATE]
    case SETTINGS_NOTIFICATIONS => [SETTINGS_NOTIFICATIONS_VIEW, SETTINGS_NOTIFICATIONS_UPDATE]
    case SETTINGS_PASSWORD => [SETTINGS_PASSWORD_VIEW, SETTINGS_PASSWORD_UPDATE]
    case SETTINGS_SESSIONS => [SETTINGS_SESSIONS_VIEW, SETTINGS_SESSIONS_UPDATE]
    case SETTINGS_LOGIN_HISTORY => [SETTINGS_LOGIN_HISTORY_VIEW]
    case _ => []
  }

  function ActionsOf(pages: seq<ResourceCode>): seq<Code> {
    if pages == [] then [] else PageActions(pages[0]) + ActionsOf(pages[1..])
  }

  /** ACCOUNT's codes in the catalogue's order. */
  const ACCOUNT_CODES: seq<Code> := ActionsOf(PAGES)

  /** `orderedUnion`: unique codes, the catalogue's in its order first, any other where it first occurs. */
  function OrderedUnion(a: seq<Code>, b: seq<Code>): seq<Code> {
    Keep(ACCOUNT_CODES, SetOf(a + b)) + Keep(Distinct(a + b), SetOf(a + b) - SetOf(ACCOUNT_CODES))
  }

  /** The catalogue lists each page's own codes, page after page. */
  lemma CatalogueOrder()
    ensures ACCOUNT_CODES
         == [SETTINGS_PROFILE_VIEW, SETTINGS_PROFILE_UPDATE, SETTINGS_APPEARANCE_VIEW, SETTINGS_APPEARANCE_UPDATE]
            + [SETTINGS_REGIONAL_VIEW, SETTINGS_REGIONAL_UPDATE, SETTINGS_DISPLAY_VIEW, SETTINGS_DISPLAY_UPDATE]
            + [SETTINGS_NOTIFICATIONS_VIEW, SETTINGS_NOTIFICATIONS_UPDATE]
            + [SETTINGS_PASSWORD_VIEW, SETTINGS_PASSWORD_UPDATE]
            + [SETTINGS_SESSIONS_VIEW, SETTINGS_SESSIONS_UPDATE, SETTINGS_LOGIN_HISTORY_VIEW]
  {
    hide ActionsOf;
    FourPages(SETTINGS_PROFILE, SETTINGS_APPEARANCE, SETTINGS_REGIONAL, SETTINGS_DISPLAY, PAGES[4..]);
    FourPages(SETTINGS_NOTIFICATIONS, SETTINGS_PASSWORD, SETTINGS_SESSIONS, SETTINGS_LOGIN_HISTORY, []);
    assert PAGES == [SETTINGS_PROFILE, SETTINGS_APPEARANCE, SETTINGS_REGIONAL, SETTINGS_DISPLAY] + PAGES[4..];
    assert PAGES[4..]
        == [SETTINGS_NOTIFICATIONS, SETTINGS_PASSWORD, SETTINGS_SESSIONS, SETTINGS_LOGIN_HISTORY] + [];
  }

  lemma FourPages(a: ResourceCode, b: ResourceCode, c: ResourceCode, d: ResourceCode, rest: seq<ResourceCode>)
    ensures ActionsOf([a, b, c, d] + rest)
         == PageActions(a) + PageActions(b) + PageActions(c) + PageActions(d) + ActionsOf(rest)
    ensures ActionsOf([]) == []
  {
    hide PageActions, ActionsOf;
    assert [a, b, c, d] + rest == [a] + ([b] + ([c] + ([d] + rest)));
    FirstPage(a, [b] + ([c] + ([d] + rest)));
    FirstPage(b, [c] + ([d] + rest));
    FirstPage(c, [d] + rest);
    FirstPage(d, rest);
  }

  lemma FirstPage(page: ResourceCode, rest: seq<ResourceCode>)
    ensures ActionsOf([page] + rest) == PageActions(page) + ActionsOf(rest)
    ensures ActionsOf([]) == []
  {
    hide PageActions;
    assert ([page] + rest)[1..] == rest;
  }

  lemma OrderedUnionIsTheUnion(a: seq<Code>, b: seq<Code>)
    ensures SetOf(OrderedUnion(a, b)) == SetOf(a) + SetOf(b)
  {
    DistinctKeepsAll(a + b);
    assert SetOf(a + b) == SetOf(a) + SetOf(b);
    forall c | c in a + b ensures c in OrderedUnion(a, b) {
      assert c in SetOf(Distinct(a + b));
    }
  }

  lemma CatalogueIsInOrder()
    ensures InOrderOf(ACCOUNT_CODES, ACCOUNT_CODES)
  {
    hide ActionsOf, InOrderOf;
    CatalogueOrder();
    InOrderOfItself(ACCOUNT_CODES);
  }

  /** It lists the catalogue's codes first, in the catalogue's order, and the others after them in the order in which
      they first occur; no code comes twice. */
  lemma OrderedUnionIsOrdered(a: seq<Code>, b: seq<Code>)
    ensures exists known, rest ::
              && OrderedUnion(a, b) == known + rest && InOrderOf(known, ACCOUNT_CODES) && InOrderOf(rest, a + b)
              && forall c | c in rest :: c !in ACCOUNT_CODES
  {
    hide ActionsOf, InOrderOf;
    var known := Keep(ACCOUNT_CODES, SetOf(a + b));
    var rest := Keep(Distinct(a + b), SetOf(a + b) - SetOf(ACCOUNT_CODES));
    CatalogueIsInOrder();
    KeepKeepsOrder(ACCOUNT_CODES, SetOf(a + b), ACCOUNT_CODES);
    DistinctKeepsOrder(a + b);
    KeepKeepsOrder(Distinct(a + b), SetOf(a + b) - SetOf(ACCOUNT_CODES), a + b);
    assert OrderedUnion(a, b) == known + rest;
    assert forall c | c in rest :: c !in SetOf(ACCOUNT_CODES);
  }

  // ---------------------------------------------------------------------------------------------------------------
  // One table, forwards
  // ---------------------------------------------------------------------------------------------------------------

  predicate LiveOld(row: Statement, oldIds: set<nat>) { row.resource in oldIds && !row.deleted }

  predicate LiveAccount(row: Statement, policy: nat, account: nat) {
    row.policy == policy && row.resource == account && !row.deleted
  }

  /** The codes the live per-page statements of a policy list, in table order. */
  function FoldedCodes(rows: seq<Statement>, policy: nat, oldIds: set<nat>): seq<Code> {
    if rows == [] then []
    else
      var last := rows[|rows| - 1];
      FoldedCodes(rows[..|rows| - 1], policy, oldIds)
      + if LiveOld(last, oldIds) && last.policy == policy then last.actions.Parse() else []
  }

  /** The policies that have a live per-page statement, in order of first occurrence. */
  function FoldedPolicies(rows: seq<Statement>, oldIds: set<nat>): seq<nat> {
    if rows == [] then []
    else
      var before, last := FoldedPolicies(rows[..|rows| - 1], oldIds), rows[|rows| - 1];
      if LiveOld(last, oldIds) && last.policy !in before then before + [last.policy] else before
  }

  /** The policy's first live ACCOUNT statement. */
  function FirstAccount(rows: seq<Statement>, policy: nat, account: nat): (first: Option<nat>)
    ensures first.Some? ==> first.value < |rows| && LiveAccount(rows[first.value], policy, account)
                            && forall i | 0 <= i < first.value :: !LiveAccount(rows[i], policy, account)
    ensures first.None? ==> forall row | row in rows :: !LiveAccount(row, policy, account)
  {
    if rows == [] then None
    else if LiveAccount(rows[0], policy, account) then Some(0)
    else match FirstAccount(rows[1..], policy, account) case None => None case Some(i) => Some(i + 1)
  }

  /** Folds one policy: into its ACCOUNT statement if it has one, else into a new one. */
  function FoldPolicy(table: Table, policy: nat, account: nat, folded: seq<Code>): Table {
    match FirstAccount(table.rows, policy, account)
    case Some(i) =>
      var merged := OrderedUnion(table.rows[i].actions.Parse(), folded);
      table.(rows := table.rows[i := table.rows[i].(actions := Array(merged))])
    case None =>
      Table(table.rows + [Statement(table.nextId, policy, account, Array(OrderedUnion([], folded)), false)],
            table.nextId + 1)
  }

  function FoldPolicies(
    table: Table, policies: seq<nat>, account: nat, source: seq<Statement>, oldIds: set<nat>): Table {
    if policies == [] then table
    else
      var before, last := FoldPolicies(table, policies[..|policies| - 1], account, source, oldIds),
                          policies[|policies| - 1];
      FoldPolicy(before, last, account, FoldedCodes(source, last, oldIds))
  }

  function Consolidated(table: Table, account: nat, oldIds: set<nat>): Table {
    var folded := FoldPolicies(table, FoldedPolicies(table.rows, oldIds), account, table.rows, oldIds);
    Table(WithoutResources(folded.rows, oldIds), folded.nextId)
  }

  // -- what folding does to a policy's codes

  lemma {:induction false} FoldedCodesAre(rows: seq<Statement>, policy: nat, oldIds: set<nat>)
    ensures SetOf(FoldedCodes(rows, policy, oldIds)) == LiveOn(rows, policy, oldIds)
  {
    if rows != [] {
      var before, last := rows[..|rows| - 1], rows[|rows| - 1];
      assert rows == before + [last];
      FoldedCodesAre(before, policy, oldIds);
      assert LiveOn(rows, policy, oldIds)
          == LiveOn(before, policy, oldIds) + if LiveOld(last, oldIds) && last.policy == policy then Held(last) else {};
    }
  }

  lemma {:induction false} FoldedPoliciesAre(rows: seq<Statement>, oldIds: set<nat>)
    ensures forall p :: p in FoldedPolicies(rows, oldIds)
                        <==> exists row :: row in rows && LiveOld(row, oldIds) && row.policy == p
    ensures forall i, j | 0 <= i < j < |FoldedPolicies(rows, oldIds)| ::
              FoldedPolicies(rows, oldIds)[i] != FoldedPolicies(rows, oldIds)[j]
  {
    if rows != [] {
      var before, last := rows[..|rows| - 1], rows[|rows| - 1];
      assert rows == before + [last];
      FoldedPoliciesAre(before, oldIds);
    }
  }

  /** Replacing one live row's codes by those and more adds just those. */
  lemma LiveOnGrows(rows: seq<Statement>, i: nat, actions: Column, more: set<Code>, p: nat, r: nat)
    requires i < |rows| && !rows[i].deleted && SetOf(actions.Parse()) == Held(rows[i]) + more
    ensures LiveOn(rows[i := rows[i].(actions := actions)], p, {r})
         == LiveOn(rows, p, {r}) + if rows[i].policy == p && rows[i].resource == r then more else {}
  {
    var after := rows[i := rows[i].(actions := actions)];
    assert rows[i] in rows && after[i] in after && Held(after[i]) == Held(rows[i]) + more;
    forall row | row in rows && row != rows[i] ensures row in after {
      var j :| 0 <= j < |rows| && rows[j] == row;
      assert after[j] == row;
    }
    forall row | row in after && row != after[i] ensures row in rows {
    }
  }

  /** Folding one policy adds exactly the folded codes to what it holds on ACCOUNT and touches nothing else. */
  lemma FoldPolicyEffect(table: Table, policy: nat, account: nat, folded: seq<Code>, p: nat, r: nat)
    ensures LiveOn(FoldPolicy(table, policy, account, folded).rows, p, {r})
         == LiveOn(table.rows, p, {r}) + if p == policy && r == account then SetOf(folded) else {}
  {
    match FirstAccount(table.rows, policy, account)
    case None =>
      OrderedUnionIsTheUnion([], folded);
      LiveOnAppend(table.rows, Statement(table.nextId, policy, account, Array(OrderedUnion([], folded)), false), p,
                   {r});
    case Some(i) =>
      var merged := OrderedUnion(table.rows[i].actions.Parse(), folded);
      OrderedUnionIsTheUnion(table.rows[i].actions.Parse(), folded);
      LiveOnGrows(table.rows, i, Array(merged), SetOf(folded), p, r);
  }

  lemma {:induction false} FoldPoliciesEffect(
    table: Table, policies: seq<nat>, account: nat, source: seq<Statement>, oldIds: set<nat>, p: nat, r: nat)
    ensures LiveOn(FoldPolicies(table, policies, account, source, oldIds).rows, p, {r})
         == LiveOn(table.rows, p, {r}) + if p in policies && r == account then LiveOn(source, p, oldIds) else {}
  {
    if policies != [] {
      var before, last := policies[..|policies| - 1], policies[|policies| - 1];
      assert policies == before + [last];
      FoldPoliciesEffect(table, before, account, source, oldIds, p, r);
      FoldPolicyEffect(FoldPolicies(table, before, account, source, oldIds), last, account,
                       FoldedCodes(source, last, oldIds), p, r);
      FoldedCodesAre(source, last, oldIds);
    }
  }

  /** Every grant of a per-page statement, and only those, moves to ACCOUNT; the per-page resources are left with
      nothing and every other resource as it was. */
  lemma ConsolidationMovesExactly(table: Table, account: nat, oldIds: set<nat>, p: nat, r: nat)
    requires account !in oldIds
    ensures LiveOn(Consolidated(table, account, oldIds).rows, p, {r})
         == if r in oldIds then {}
            else if r == account then LiveOn(table.rows, p, {account}) + LiveOn(table.rows, p, oldIds)
            else LiveOn(table.rows, p, {r})
  {
    var policies := FoldedPolicies(table.rows, oldIds);
    var folded := FoldPolicies(table, policies, account, table.rows, oldIds);
    FoldPoliciesEffect(table, policies, account, table.rows, oldIds, p, r);
    FoldedPoliciesAre(table.rows, oldIds);
    assert p !in policies ==> LiveOn(table.rows, p, oldIds) == {};
    var after := Consolidated(table, account, oldIds).rows;
    assert r !in oldIds ==> LiveOn(after, p, {r}) == LiveOn(folded.rows, p, {r});
  }

  lemma GrantedByResource(rows: seq<Statement>, p: nat, code: Code)
    ensures code in Granted(rows, p) <==> exists r :: code in LiveOn(rows, p, {r})
  {
    if code in Granted(rows, p) {
      var row :| row in rows && row.policy == p && !row.deleted && code in Held(row);
      assert code in LiveOn(rows, p, {row.resource});
    }
  }

  /** Consolidation preserves meaning on any table: what each policy grants is unchanged, no row is left on a per-page
      resource, and every row it has no business with, soft-deleted ACCOUNT rows included, is untouched. */
  lemma ConsolidationPreservesMeaning(table: Table, account: nat, oldIds: set<nat>, p: nat)
    requires account !in oldIds
    ensures Granted(Consolidated(table, account, oldIds).rows, p) == Granted(table.rows, p)
    ensures forall row | row in Consolidated(table, account, oldIds).rows :: row.resource !in oldIds
  {
    var after := Consolidated(table, account, oldIds).rows;
    forall code ensures code in Granted(after, p) <==> code in Granted(table.rows, p) {
      GrantedByResource(after, p, code);
      GrantedByResource(table.rows, p, code);
      ConsolidationMovesExactly(table, account, oldIds, p, account);
      if code in Granted(after, p) {
        var r :| code in LiveOn(after, p, {r});
        ConsolidationMovesExactly(table, account, oldIds, p, r);
      }
      if code in Granted(table.rows, p) {
        var row :| row in table.rows && row.policy == p && !row.deleted && code in Held(row);
        ConsolidationMovesExactly(table, account, oldIds, p, row.resource);
        if row.resource in oldIds {
          assert code in LiveOn(after, p, {account});
        } else {
          assert code in LiveOn(after, p, {row.resource});
        }
      }
    }
  }

  /** A row that is neither per-page nor a live ACCOUNT statement. */
  predicate Bystander(row: Statement, account: nat, oldIds: set<nat>) {
    row.resource !in oldIds && (row.resource != account || row.deleted)
  }

  lemma FoldPolicyLeavesBystanders(
    table: Table, policy: nat, account: nat, folded: seq<Code>, row: Statement, oldIds: set<nat>)
    requires Bystander(row, account, oldIds)
    ensures row in FoldPolicy(table, policy, account, folded).rows <==> row in table.rows
  {
    var after := FoldPolicy(table, policy, account, folded).rows;
    match FirstAccount(table.rows, policy, account)
    case None =>
    case Some(i) =>
      assert forall j | 0 <= j < |after| && j != i :: after[j] == table.rows[j];
      assert LiveAccount(after[i], policy, account);
  }

  lemma {:induction false} FoldPoliciesLeaveBystanders(
    table: Table, policies: seq<nat>, account: nat, source: seq<Statement>, oldIds: set<nat>, row: Statement)
    requires Bystander(row, account, oldIds)
    ensures row in FoldPolicies(table, policies, account, source, oldIds).rows <==> row in table.rows
  {
    if policies != [] {
      var before, last := policies[..|policies| - 1], policies[|policies| - 1];
      FoldPoliciesLeaveBystanders(table, before, account, source, oldIds, row);
      FoldPolicyLeavesBystanders(
        FoldPolicies(table, before, account, source, oldIds), last, account, FoldedCodes(source, last, oldIds), row,
        oldIds);
    }
  }

  /** No soft-deleted row comes back and no unrelated row changes. */
  lemma ConsolidationLeavesBystanders(table: Table, account: nat, oldIds: set<nat>, row: Statement)
    requires Bystander(row, account, oldIds)
    ensures row in Consolidated(table, account, oldIds).rows <==> row in table.rows
  {
    FoldPoliciesLeaveBystanders(table, FoldedPolicies(table.rows, oldIds), account, table.rows, oldIds, row);
  }

  lemma {:induction false} FoldingKeepsKeys(
    table: Table, policies: seq<nat>, account: nat, source: seq<Statement>, oldIds: set<nat>)
    requires InKeyOrder(table)
    ensures InKeyOrder(FoldPolicies(table, policies, account, source, oldIds))
  {
    hide InKeyOrder, FoldPolicy;
    if policies != [] {
      var before, last := policies[..|policies| - 1], policies[|policies| - 1];
      FoldingKeepsKeys(table, before, account, source, oldIds);
      FoldPolicyKeepsKeys(
        FoldPolicies(table, before, account, source, oldIds), last, account, FoldedCodes(source, last, oldIds));
    }
  }

  lemma FoldPolicyKeepsKeys(table: Table, policy: nat, account: nat, folded: seq<Code>)
    requires InKeyOrder(table)
    ensures InKeyOrder(FoldPolicy(table, policy, account, folded))
  {
    hide InKeyOrder;
    match FirstAccount(table.rows, policy, account)
    case None =>
      AppendKeepsKeys(table, Statement(table.nextId, policy, account, Array(OrderedUnion([], folded)), false));
    case Some(i) =>
      SameKeys(table, FoldPolicy(table, policy, account, folded).rows);
  }

  /** Primary keys stay in order and new ones are fresh. */
  lemma ConsolidationKeepsKeys(table: Table, account: nat, oldIds: set<nat>)
    requires InKeyOrder(table)
    ensures InKeyOrder(Consolidated(table, account, oldIds))
  {
    hide InKeyOrder;
    var policies := FoldedPolicies(table.rows, oldIds);
    FoldingKeepsKeys(table, policies, account, table.rows, oldIds);
    var folded := FoldPolicies(table, policies, account, table.rows, oldIds);
    WithoutKeepsKeys(folded.rows, oldIds, folded.nextId);
  }

  // ---------------------------------------------------------------------------------------------------------------
  // One table, backwards
  // ---------------------------------------------------------------------------------------------------------------

  /** The per-page statements one ACCOUNT statement is split into. */
  function SplitStatement(
    table: Table, statement: Statement, pages: seq<ResourceCode>, pageIds: map<ResourceCode, nat>): Table
    requires forall page | page in pages :: page in pageIds
  {
    if pages == [] then table
    else
      var before, page := SplitStatement(table, statement, pages[..|pages| - 1], pageIds), pages[|pages| - 1];
      var codes := Keep(PageActions(page), Held(statement));
      if codes == [] then before
      else Table(before.rows + [Statement(before.nextId, statement.policy, pageIds[page], Array(codes), false)],
                 before.nextId + 1)
  }

  function SplitStatements(
    table: Table, statements: seq<Statement>, pages: seq<ResourceCode>, pageIds: map<ResourceCode, nat>)
    : Table
    requires forall page | page in pages :: page in pageIds
  {
    if statements == [] then table
    else
      var before, last := statements[..|statements| - 1], statements[|statements| - 1];
      SplitStatement(SplitStatements(table, before, pages, pageIds), last, pages, pageIds)
  }

  /** The live statements on a resource. */
  function LiveRowsOn(rows: seq<Statement>, resource: nat): (live: seq<Statement>)
    ensures forall row :: row in live <==> row in rows && row.resource == resource && !row.deleted
  {
    if rows == [] then []
    else if rows[0].resource == resource && !rows[0].deleted then [rows[0]] + LiveRowsOn(rows[1..], resource)
    else LiveRowsOn(rows[1..], resource)
  }

  function Split(table: Table, account: nat, pages: seq<ResourceCode>, pageIds: map<ResourceCode, nat>): Table
    requires forall page | page in pages :: page in pageIds
  {
    var split := SplitStatements(table, LiveRowsOn(table.rows, account), pages, pageIds);
    Table(WithoutResources(split.rows, {account}), split.nextId)
  }

  ghost predicate Injective(ids: map<ResourceCode, nat>) {
    forall a, b | a in ids && b in ids && ids[a] == ids[b] :: a == b
  }

  lemma {:induction false} SplitStatementEffect(
    table: Table, statement: Statement, pages: seq<ResourceCode>, pageIds: map<ResourceCode, nat>, p: nat,
    page: ResourceCode)
    requires forall q | q in pages :: q in pageIds
    requires page in pageIds && Injective(pageIds)
    ensures LiveOn(SplitStatement(table, statement, pages, pageIds).rows, p, {pageIds[page]})
         == LiveOn(table.rows, p, {pageIds[page]})
            + if page in pages && p == statement.policy then SetOf(PageActions(page)) * Held(statement) else {}
  {
    if pages != [] {
      var before, last := pages[..|pages| - 1], pages[|pages| - 1];
      assert pages == before + [last];
      SplitStatementEffect(table, statement, before, pageIds, p, page);
      var mid := SplitStatement(table, statement, before, pageIds);
      var codes := Keep(PageActions(last), Held(statement));
      assert SetOf(codes) == SetOf(PageActions(last)) * Held(statement);
      if codes != [] {
        var added := Statement(mid.nextId, statement.policy, pageIds[last], Array(codes), false);
        LiveOnAppend(mid.rows, added, p, {pageIds[page]});
        assert Held(added) == SetOf(codes);
        assert pageIds[last] == pageIds[page] <==> last == page;
      }
    }
  }

  function HeldTogether(statements: seq<Statement>, policy: nat): set<Code> {
    set s, code | s in statements && s.policy == policy && code in Held(s) :: code
  }

  lemma HeldTogetherAppend(statements: seq<Statement>, last: Statement, policy: nat)
    ensures HeldTogether(statements + [last], policy)
         == HeldTogether(statements, policy) + if last.policy == policy then Held(last) else {}
  {
  }

  lemma {:induction false} SplitStatementsEffect(
    table: Table, statements: seq<Statement>, pages: seq<ResourceCode>, pageIds: map<ResourceCode, nat>, p: nat,
    page: ResourceCode)
    requires forall q | q in pages :: q in pageIds
    requires page in pages && Injective(pageIds)
    ensures LiveOn(SplitStatements(table, statements, pages, pageIds).rows, p, {pageIds[page]})
         == LiveOn(table.rows, p, {pageIds[page]})
            + SetOf(PageActions(page)) * HeldTogether(statements, p)
  {
    if statements != [] {
      var before, last := statements[..|statements| - 1], statements[|statements| - 1];
      assert statements == before + [last];
      SplitStatementsEffect(table, before, pages, pageIds, p, page);
      SplitStatementEffect(SplitStatements(table, before, pages, pageIds), last, pages, pageIds, p, page);
      HeldTogetherAppend(before, last, p);
      var own, held := SetOf(PageActions(page)), if last.policy == p then Held(last) else {};
      assert own * (HeldTogether(before, p) + held) == own * HeldTogether(before, p) + own * held;
    }
  }

  /** Splitting gives each page exactly its own codes out of what the policy holds on ACCOUNT. */
  lemma SplittingGivesEachPageItsOwn(
    table: Table, account: nat, pages: seq<ResourceCode>, pageIds: map<ResourceCode, nat>, p: nat, page: ResourceCode)
    requires forall q | q in pages :: q in pageIds
    requires page in pages && Injective(pageIds) && account !in pageIds.Values
    ensures LiveOn(Split(table, account, pages, pageIds).rows, p, {pageIds[page]})
         == LiveOn(table.rows, p, {pageIds[page]}) + SetOf(PageActions(page)) * LiveOn(table.rows, p, {account})
  {
    var statements := LiveRowsOn(table.rows, account);
    SplitStatementsEffect(table, statements, pages, pageIds, p, page);
    var split := SplitStatements(table, statements, pages, pageIds);
    assert pageIds[page] in pageIds.Values;
    LiveOnWithout(split.rows, {account}, p, {pageIds[page]});
    assert HeldTogether(statements, p) == LiveOn(table.rows, p, {account});
  }

  // -- what splitting does to the rows

  predicate FromAPage(row: Statement, pages: seq<ResourceCode>, pageIds: map<ResourceCode, nat>)
    requires forall page | page in pages :: page in pageIds
  {
    !row.deleted && exists page :: page in pages && row.resource == pageIds[page]
  }

  lemma {:induction false} SplitStatementRows(
    table: Table, statement: Statement, pages: seq<ResourceCode>, pageIds: map<ResourceCode, nat>, row: Statement)
    requires forall page | page in pages :: page in pageIds
    ensures row in table.rows ==> row in SplitStatement(table, statement, pages, pageIds).rows
    ensures row in SplitStatement(table, statement, pages, pageIds).rows
            ==> row in table.rows || FromAPage(row, pages, pageIds)
  {
    hide PageActions;
    if pages != [] {
      SplitStatementRows(table, statement, pages[..|pages| - 1], pageIds, row);
      assert pages[|pages| - 1] in pages;
    }
  }

  lemma {:induction false} SplitStatementsRows(
    table: Table, statements: seq<Statement>, pages: seq<ResourceCode>, pageIds: map<ResourceCode, nat>, row: Statement)
    requires forall page | page in pages :: page in pageIds
    ensures row in table.rows ==> row in SplitStatements(table, statements, pages, pageIds).rows
    ensures row in SplitStatements(table, statements, pages, pageIds).rows
            ==> row in table.rows || FromAPage(row, pages, pageIds)
  {
    hide SplitStatement, FromAPage;
    if statements != [] {
      var before, last := statements[..|statements| - 1], statements[|statements| - 1];
      SplitStatementsRows(table, before, pages, pageIds, row);
      SplitStatementRows(SplitStatements(table, before, pages, pageIds), last, pages, pageIds, row);
    }
  }

  /** Splitting leaves no row on ACCOUNT, keeps every other row, soft-deleted ones included, and adds only live rows on
      pages. */
  lemma SplittingKeepsTheRest(
    table: Table, account: nat, pages: seq<ResourceCode>, pageIds: map<ResourceCode, nat>, row: Statement)
    requires forall page | page in pages :: page in pageIds
    ensures row in Split(table, account, pages, pageIds).rows ==> row.resource != account
    ensures row in table.rows && row.resource != account ==> row in Split(table, account, pages, pageIds).rows
    ensures row in Split(table, account, pages, pageIds).rows && row !in table.rows ==> FromAPage(row, pages, pageIds)
  {
    hide SplitStatements, FromAPage;
    SplitStatementsRows(table, LiveRowsOn(table.rows, account), pages, pageIds, row);
  }

  lemma {:induction false} SplitStatementKeepsKeys(
    table: Table, statement: Statement, pages: seq<ResourceCode>, pageIds: map<ResourceCode, nat>)
    requires (forall page | page in pages :: page in pageIds) && InKeyOrder(table)
    ensures InKeyOrder(SplitStatement(table, statement, pages, pageIds))
  {
    hide InKeyOrder, PageActions;
    if pages != [] {
      var mid, page := SplitStatement(table, statement, pages[..|pages| - 1], pageIds), pages[|pages| - 1];
      SplitStatementKeepsKeys(table, statement, pages[..|pages| - 1], pageIds);
      AppendKeepsKeys(mid, Statement(mid.nextId, statement.policy, pageIds[page],
                                     Array(Keep(PageActions(page), Held(statement))), false));
    }
  }

  lemma {:induction false} SplitStatementsKeepKeys(
    table: Table, statements: seq<Statement>, pages: seq<ResourceCode>, pageIds: map<ResourceCode, nat>)
    requires (forall page | page in pages :: page in pageIds) && InKeyOrder(table)
    ensures InKeyOrder(SplitStatements(table, statements, pages, pageIds))
  {
    hide InKeyOrder, SplitStatement;
    if statements != [] {
      var before := statements[..|statements| - 1];
      SplitStatementsKeepKeys(table, before, pages, pageIds);
      SplitStatementKeepsKeys(
        SplitStatements(table, before, pages, pageIds), statements[|statements| - 1], pages, pageIds);
    }
  }

  lemma SplittingKeepsKeys(table: Table, account: nat, pages: seq<ResourceCode>, pageIds: map<ResourceCode, nat>)
    requires (forall page | page in pages :: page in pageIds) && InKeyOrder(table)
    ensures InKeyOrder(Split(table, account, pages, pageIds))
  {
    hide InKeyOrder;
    SplitStatementsKeepKeys(table, LiveRowsOn(table.rows, account), pages, pageIds);
    var split := SplitStatements(table, LiveRowsOn(table.rows, account), pages, pageIds);
    WithoutKeepsKeys(split.rows, {account}, split.nextId);
  }

  // -- what splitting does to a policy's grants

  lemma {:induction false} ActionsOfHas(pages: seq<ResourceCode>, code: Code)
    ensures code in ActionsOf(pages) <==> exists page :: page in pages && code in PageActions(page)
  {
    hide PageActions;
    if pages != [] {
      ActionsOfHas(pages[1..], code);
      assert pages == [pages[0]] + pages[1..];
    }
  }

  lemma ActionsOfLast(before: seq<ResourceCode>, last: ResourceCode)
    ensures SetOf(ActionsOf(before + [last])) == SetOf(ActionsOf(before)) + SetOf(PageActions(last))
  {
    hide PageActions, ActionsOf;
    forall code ensures code in ActionsOf(before + [last]) <==> code in ActionsOf(before) || code in PageActions(last) {
      ActionsOfHas(before + [last], code);
      ActionsOfHas(before, code);
    }
  }

  lemma LiveOffAppend(rows: seq<Statement>, row: Statement, policy: nat, resources: set<nat>)
    ensures LiveOff(rows + [row], policy, resources)
         == LiveOff(rows, policy, resources)
            + if row.policy == policy && !row.deleted && row.resource !in resources then Held(row) else {}
  {
  }

  lemma {:induction false} SplitStatementAdds(
    table: Table, statement: Statement, account: nat, pages: seq<ResourceCode>, pageIds: map<ResourceCode, nat>, p: nat)
    requires (forall page | page in pages :: page in pageIds) && account !in pageIds.Values
    ensures LiveOff(SplitStatement(table, statement, pages, pageIds).rows, p, {account})
         == LiveOff(table.rows, p, {account})
            + if p == statement.policy then SetOf(ActionsOf(pages)) * Held(statement) else {}
  {
    hide PageActions, LiveOff;
    if pages != [] {
      var before, last := pages[..|pages| - 1], pages[|pages| - 1];
      assert pages == before + [last];
      SplitStatementAdds(table, statement, account, before, pageIds, p);
      ActionsOfLast(before, last);
      var mid := SplitStatement(table, statement, before, pageIds);
      var codes := Keep(PageActions(last), Held(statement));
      assert SetOf(codes) == SetOf(PageActions(last)) * Held(statement);
      if codes != [] {
        var added := Statement(mid.nextId, statement.policy, pageIds[last], Array(codes), false);
        LiveOffAppend(mid.rows, added, p, {account});
        assert Held(added) == SetOf(codes);
      }
    }
  }

  lemma {:induction false} SplitStatementsAdd(
    table: Table, statements: seq<Statement>, account: nat, pages: seq<ResourceCode>, pageIds: map<ResourceCode, nat>,
    p: nat)
    requires (forall page | page in pages :: page in pageIds) && account !in pageIds.Values
    ensures LiveOff(SplitStatements(table, statements, pages, pageIds).rows, p, {account})
         == LiveOff(table.rows, p, {account}) + SetOf(ActionsOf(pages)) * HeldTogether(statements, p)
  {
    hide SplitStatement, ActionsOf, LiveOff;
    if statements != [] {
      var before, last := statements[..|statements| - 1], statements[|statements| - 1];
      assert statements == before + [last];
      SplitStatementsAdd(table, before, account, pages, pageIds, p);
      SplitStatementAdds(SplitStatements(table, before, pages, pageIds), last, account, pages, pageIds, p);
      HeldTogetherAppend(before, last, p);
    }
  }

  /** Splitting leaves a policy what it grants on any resource but ACCOUNT, and of what it grants on ACCOUNT the codes
      that belong to a page. */
  lemma SplittingGrants(
    table: Table, account: nat, pages: seq<ResourceCode>, pageIds: map<ResourceCode, nat>, p: nat)
    requires (forall page | page in pages :: page in pageIds) && account !in pageIds.Values
    ensures Granted(Split(table, account, pages, pageIds).rows, p)
         == LiveOff(table.rows, p, {account}) + SetOf(ActionsOf(pages)) * LiveOn(table.rows, p, {account})
  {
    hide ActionsOf, SplitStatements;
    var statements := LiveRowsOn(table.rows, account);
    SplitStatementsAdd(table, statements, account, pages, pageIds, p);
    assert HeldTogether(statements, p) == LiveOn(table.rows, p, {account});
    assert Granted(Split(table, account, pages, pageIds).rows, p)
        == LiveOff(SplitStatements(table, statements, pages, pageIds).rows, p, {account});
  }
}
