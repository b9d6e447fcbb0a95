/** The ACCOUNT migration on the whole database: `up`, `down`, and what the two do together. */
module AccountMigration {
  import opened PolicyStatements
  import opened AccountConsolidation

  /** The `resources` table and whichever of the three statement tables exist. */
  datatype Db = Db(resources: map<ResourceCode, nat>, nextResource: nat, tables: map<TableName, Table>)

  /** Resource ids are keys, and every statement refers to a resource (the foreign key is RESTRICT). */
  ghost predicate WellFormed(db: Db) {
    && Injective(db.resources)
    && (forall code | code in db.resources :: db.resources[code] < db.nextResource)
    && (forall t, row | t in db.tables && row in db.tables[t].rows :: row.resource in db.resources.Values)
  }

  function OldIds(resources: map<ResourceCode, nat>): set<nat> {
    set page | page in PAGES && page in resources :: resources[page]
  }

  function EnsureResource(db: Db, code: ResourceCode): Db {
    if code in db.resources then db else Db(db.resources[code := db.nextResource], db.nextResource + 1, db.tables)
  }

  function EnsureResources(db: Db, codes: seq<ResourceCode>): (ensured: Db)
    ensures ensured.tables == db.tables
    ensures forall code | code in db.resources ::
              code in ensured.resources && ensured.resources[code] == db.resources[code]
    ensures forall code :: code in ensured.resources <==> code in db.resources || code in codes
  {
    if codes == [] then db else EnsureResource(EnsureResources(db, codes[..|codes| - 1]), codes[|codes| - 1])
  }

  function Up(db: Db): Db {
    var oldIds := OldIds(db.resources);
    if oldIds == {} then db else
    var ensured := EnsureResource(db, ACCOUNT);
    Db(ensured.resources - SetOf(PAGES), ensured.nextResource,
       map t | t in db.tables :: Consolidated(db.tables[t], ensured.resources[ACCOUNT], oldIds))
  }

  function PageIds(db: Db): map<ResourceCode, nat>
    requires forall page | page in PAGES :: page in db.resources
  {
    map page | page in PAGES :: db.resources[page]
  }

  function Down(db: Db): Db {
    if ACCOUNT !in db.resources then db else
    var ensured := EnsureResources(db, PAGES);
    Db(ensured.resources - {ACCOUNT}, ensured.nextResource,
       map t | t in db.tables :: Split(db.tables[t], db.resources[ACCOUNT], PAGES, PageIds(ensured)))
  }

  /** The live codes a policy holds on a resource, named by its code. */
  function CodesAt(db: Db, t: TableName, policy: nat, code: ResourceCode): set<Code>
    requires t in db.tables
  {
    if code in db.resources then LiveOn(db.tables[t].rows, policy, {db.resources[code]}) else {}
  }

  /** What the policy holds on the pages and on ACCOUNT together. */
  function SettingsCodes(db: Db, t: TableName, policy: nat): set<Code>
    requires t in db.tables
  {
    LiveOn(db.tables[t].rows, policy, OldIds(db.resources)) + CodesAt(db, t, policy, ACCOUNT)
  }

  lemma EnsureKeepsIds(db: Db, code: ResourceCode)
    requires Injective(db.resources) && forall c | c in db.resources :: db.resources[c] < db.nextResource
    ensures var ensured := EnsureResource(db, code);
            Injective(ensured.resources) && forall c | c in ensured.resources ::
              ensured.resources[c] < ensured.nextResource
  {
  }

  lemma EnsureKeepsValues(db: Db, code: ResourceCode, id: nat)
    requires id in db.resources.Values
    ensures id in EnsureResource(db, code).resources.Values
  {
    var c :| c in db.resources && db.resources[c] == id;
    if code !in db.resources {
      assert EnsureResource(db, code).resources[c] == id;
    }
  }

  lemma EnsureKeepsWellFormed(db: Db, code: ResourceCode)
    requires WellFormed(db)
    ensures WellFormed(EnsureResource(db, code))
  {
    EnsureKeepsIds(db, code);
    forall t, row | t in db.tables && row in db.tables[t].rows
      ensures row.resource in EnsureResource(db, code).resources.Values
    {
      EnsureKeepsValues(db, code, row.resource);
    }
  }

  lemma {:induction false} EnsureAllKeepsWellFormed(db: Db, codes: seq<ResourceCode>)
    requires WellFormed(db)
    ensures WellFormed(EnsureResources(db, codes))
  {
    if codes != [] {
      EnsureAllKeepsWellFormed(db, codes[..|codes| - 1]);
      EnsureKeepsWellFormed(EnsureResources(db, codes[..|codes| - 1]), codes[|codes| - 1]);
    }
  }

  lemma AccountIsNotAPage(db: Db)
    requires WellFormed(db) && ACCOUNT in db.resources
    ensures db.resources[ACCOUNT] !in OldIds(db.resources)
  {
  }

  // ---------------------------------------------------------------------------------------------------------------
  // Forwards
  // ---------------------------------------------------------------------------------------------------------------

  lemma EnsuredAccountIsNotAPage(db: Db)
    requires WellFormed(db)
    ensures EnsureResource(db, ACCOUNT).resources[ACCOUNT] !in OldIds(db.resources)
    ensures OldIds(EnsureResource(db, ACCOUNT).resources) == OldIds(db.resources)
  {
    EnsureKeepsWellFormed(db, ACCOUNT);
    AccountIsNotAPage(EnsureResource(db, ACCOUNT));
    assert ACCOUNT !in PAGES;
  }

  /** `up` leaves what every policy grants unchanged in every table, leaves no per-page resource, and run again does
      nothing. */
  lemma UpPreservesEveryGrant(db: Db, t: TableName, policy: nat)
    requires WellFormed(db) && t in db.tables
    ensures Granted(Up(db).tables[t].rows, policy) == Granted(db.tables[t].rows, policy)
    ensures OldIds(Up(db).resources) == {} && Up(Up(db)) == Up(db)
  {
    if OldIds(db.resources) != {} {
      EnsuredAccountIsNotAPage(db);
      ConsolidationPreservesMeaning(db.tables[t], EnsureResource(db, ACCOUNT).resources[ACCOUNT], OldIds(db.resources),
                                    policy);
    }
    assert forall page | page in PAGES :: page in SetOf(PAGES);
  }

  lemma ConsolidatedRowsOnKnownResources(table: Table, account: nat, oldIds: set<nat>, row: Statement)
    requires row in Consolidated(table, account, oldIds).rows && row.resource != account
    ensures row in table.rows && row.resource !in oldIds
  {
    ConsolidationLeavesBystanders(table, account, oldIds, row);
  }

  lemma UpKeepsIds(db: Db)
    requires WellFormed(db)
    ensures var after := Up(db);
            Injective(after.resources) && forall code | code in after.resources ::
              after.resources[code] < after.nextResource
  {
    hide Consolidated, OldIds;
    EnsureKeepsIds(db, ACCOUNT);
  }

  lemma UpKeepsOtherResources(db: Db, code: ResourceCode)
    requires code in EnsureResource(db, ACCOUNT).resources && code !in PAGES
    requires OldIds(db.resources) != {}
    ensures EnsureResource(db, ACCOUNT).resources[code] in Up(db).resources.Values
  {
    hide Consolidated, OldIds;
    assert code in Up(db).resources && Up(db).resources[code] == EnsureResource(db, ACCOUNT).resources[code];
  }

  lemma UpRowOnKnownResource(db: Db, t: TableName, row: Statement)
    requires WellFormed(db) && OldIds(db.resources) != {} && t in db.tables
    requires row in
               Consolidated(db.tables[t], EnsureResource(db, ACCOUNT).resources[ACCOUNT], OldIds(db.resources)).rows
    ensures row.resource in Up(db).resources.Values
  {
    hide Consolidated, Up;
    var account := EnsureResource(db, ACCOUNT).resources[ACCOUNT];
    if row.resource == account {
      UpKeepsOtherResources(db, ACCOUNT);
    } else {
      EnsuredAccountIsNotAPage(db);
      ConsolidatedRowsOnKnownResources(db.tables[t], account, OldIds(db.resources), row);
      var code :| code in db.resources && db.resources[code] == row.resource;
      UpKeepsOtherResources(db, code);
    }
  }

  lemma RowsAfterUp(db: Db, t: TableName)
    requires OldIds(db.resources) != {} && t in db.tables
    ensures t in Up(db).tables
    ensures Up(db).tables[t]
         == Consolidated(db.tables[t], EnsureResource(db, ACCOUNT).resources[ACCOUNT], OldIds(db.resources))
  {
    hide Consolidated;
  }

  /** The statements still refer only to resources that exist, so the RESTRICT foreign key lets the pages be deleted. */
  lemma UpKeepsWellFormed(db: Db)
    requires WellFormed(db)
    ensures WellFormed(Up(db))
  {
    if OldIds(db.resources) != {} {
      UpKeepsIds(db);
      assert Up(db).tables.Keys == db.tables.Keys;
      hide Up, Consolidated;
      forall t, row | t in db.tables && row in Up(db).tables[t].rows ensures row.resource in Up(db).resources.Values {
        RowsAfterUp(db, t);
        UpRowOnKnownResource(db, t, row);
      }
    }
  }

  /** `up` replaces the pages by ACCOUNT wherever a page exists, and every other resource keeps its id. */
  lemma UpReplacesThePages(db: Db)
    ensures (exists page :: page in PAGES && page in db.resources)
            ==> Up(db).resources.Keys == db.resources.Keys - SetOf(PAGES) + {ACCOUNT}
    ensures (forall page | page in PAGES :: page !in db.resources) ==> Up(db) == db
    ensures forall code | code in db.resources && code !in PAGES ::
              code in Up(db).resources && Up(db).resources[code] == db.resources[code]
  {
    hide Consolidated;
    PagesHaveNoAccount();
    if page :| page in PAGES && page in db.resources {
      assert db.resources[page] in OldIds(db.resources);
    }
  }

  // ---------------------------------------------------------------------------------------------------------------
  // There and back
  // ---------------------------------------------------------------------------------------------------------------

  /** What `up` leaves on ACCOUNT, for any table. */
  lemma UpGathersOnAccount(db: Db, t: TableName, policy: nat)
    requires WellFormed(db) && t in db.tables
    ensures CodesAt(Up(db), t, policy, ACCOUNT) == SettingsCodes(db, t, policy)
  {
    var rows := db.tables[t].rows;
    if OldIds(db.resources) == {} {
      assert LiveOn(rows, policy, {}) == {};
    } else {
      EnsuredAccountIsNotAPage(db);
      var account := EnsureResource(db, ACCOUNT).resources[ACCOUNT];
      ConsolidationMovesExactly(db.tables[t], account, OldIds(db.resources), policy, account);
      if ACCOUNT !in db.resources {
        forall row | row in rows ensures row.resource != account {
          assert row.resource in db.resources.Values;
        }
        assert LiveOn(rows, policy, {account}) == {};
      }
    }
  }

  lemma {:induction false} NewResourcesAreFresh(db: Db, codes: seq<ResourceCode>, code: ResourceCode)
    requires code in codes && code !in db.resources
    ensures EnsureResources(db, codes).resources[code] >= db.nextResource
    ensures EnsureResources(db, codes).nextResource >= db.nextResource
  {
    var before, last := codes[..|codes| - 1], codes[|codes| - 1];
    assert codes == before + [last];
    NextNeverFalls(db, before);
    if code in before {
      NewResourcesAreFresh(db, before, code);
    }
  }

  lemma {:induction false} NextNeverFalls(db: Db, codes: seq<ResourceCode>)
    ensures EnsureResources(db, codes).nextResource >= db.nextResource
  {
    if codes != [] {
      NextNeverFalls(db, codes[..|codes| - 1]);
    }
  }

  lemma NothingOnFreshResources(db: Db, t: TableName, policy: nat, id: nat)
    requires WellFormed(db) && t in db.tables && id >= db.nextResource
    ensures LiveOn(db.tables[t].rows, policy, {id}) == {}
  {
    forall row | row in db.tables[t].rows ensures row.resource != id {
      assert row.resource in db.resources.Values;
      var code :| code in db.resources && db.resources[code] == row.resource;
    }
  }

  lemma RestoredPages(db: Db)
    requires WellFormed(db) && ACCOUNT in db.resources
    ensures Injective(PageIds(EnsureResources(db, PAGES)))
    ensures db.resources[ACCOUNT] !in PageIds(EnsureResources(db, PAGES)).Values
  {
    var ensured := EnsureResources(db, PAGES);
    EnsureAllKeepsWellFormed(db, PAGES);
    IdsAreApart(ensured);
    assert ensured.resources[ACCOUNT] == db.resources[ACCOUNT];
  }

  lemma IdsAreApart(db: Db)
    requires WellFormed(db) && ACCOUNT in db.resources && forall page | page in PAGES :: page in db.resources
    ensures Injective(PageIds(db)) && db.resources[ACCOUNT] !in PageIds(db).Values
  {
    forall page | page in PAGES ensures db.resources[page] != db.resources[ACCOUNT] {
      PageIsNotAccount(page);
    }
  }

  /** What `down` leaves on a page when no per-page resource exists beforehand. */
  lemma DownSplitsAccount(db: Db, t: TableName, policy: nat, page: ResourceCode)
    requires WellFormed(db) && t in db.tables && page in PAGES && page !in db.resources
    ensures CodesAt(Down(db), t, policy, page) == SetOf(PageActions(page)) * CodesAt(db, t, policy, ACCOUNT)
  {
    if ACCOUNT in db.resources {
      var id := EnsureResources(db, PAGES).resources[page];
      RestoredPages(db);
      NewResourcesAreFresh(db, PAGES, page);
      NothingOnFreshResources(db, t, policy, id);
      SplittingGivesEachPageItsOwn(db.tables[t], db.resources[ACCOUNT], PAGES, PageIds(EnsureResources(db, PAGES)),
                                   policy, page);
      TablesAfterDown(db, t);
      ResourcesAfterDown(db, page);
    } else {
      assert CodesAt(Down(db), t, policy, page) == {};
    }
  }

  lemma PageIsNotAccount(page: ResourceCode)
    requires page in PAGES
    ensures page != ACCOUNT
  {
  }

  lemma TablesAfterDown(db: Db, t: TableName)
    requires t in db.tables && ACCOUNT in db.resources
    ensures Down(db).tables[t] == Split(db.tables[t], db.resources[ACCOUNT], PAGES, PageIds(EnsureResources(db, PAGES)))
  {
  }

  lemma ResourcesAfterDown(db: Db, page: ResourceCode)
    requires page in PAGES && ACCOUNT in db.resources
    ensures page in Down(db).resources && Down(db).resources[page] == PageIds(EnsureResources(db, PAGES))[page]
  {
    PageIsNotAccount(page);
  }

  /** `down` replaces ACCOUNT by the pages wherever ACCOUNT exists; every other resource keeps its id, a page
      that exists already included. */
  lemma DownReplacesAccount(db: Db)
    ensures ACCOUNT in db.resources ==> Down(db).resources.Keys == db.resources.Keys - {ACCOUNT} + SetOf(PAGES)
    ensures ACCOUNT !in db.resources ==> Down(db) == db
    ensures forall code | code in db.resources && code != ACCOUNT ::
              code in Down(db).resources && Down(db).resources[code] == db.resources[code]
  {
    hide Split;
    PagesHaveNoAccount();
  }

  /** No row of any table is left on ACCOUNT's old id, no other row goes, and the rows that are new are live ones on the
      pages. */
  lemma DownMovesTheRows(db: Db, t: TableName, row: Statement)
    requires ACCOUNT in db.resources && t in db.tables
    ensures row in Down(db).tables[t].rows ==> row.resource != db.resources[ACCOUNT]
    ensures row in db.tables[t].rows && row.resource != db.resources[ACCOUNT] ==> row in Down(db).tables[t].rows
    ensures row in Down(db).tables[t].rows && row !in db.tables[t].rows
            ==> !row.deleted && exists page :: page in PAGES && page in Down(db).resources
                                               && row.resource == Down(db).resources[page]
  {
    hide Split, EnsureResources;
    var pageIds := PageIds(EnsureResources(db, PAGES));
    TablesAfterDown(db, t);
    SplittingKeepsTheRest(db.tables[t], db.resources[ACCOUNT], PAGES, pageIds, row);
    if row in Down(db).tables[t].rows && row !in db.tables[t].rows {
      var page :| page in PAGES && row.resource == pageIds[page];
      ResourcesAfterDown(db, page);
    }
  }

  lemma DownKeepsIds(db: Db)
    requires WellFormed(db)
    ensures var after := Down(db);
            && Injective(after.resources)
            && (forall code | code in after.resources :: after.resources[code] < after.nextResource)
            && after.tables.Keys == db.tables.Keys
  {
    hide Split;
    EnsureAllKeepsWellFormed(db, PAGES);
  }

  /** The statements still refer only to resources that exist, so the RESTRICT foreign key lets ACCOUNT be deleted. */
  lemma DownKeepsWellFormed(db: Db)
    requires WellFormed(db)
    ensures WellFormed(Down(db))
  {
    DownKeepsIds(db);
    DownReplacesAccount(db);
    hide Down;
    if ACCOUNT in db.resources {
      forall t, row | t in db.tables && row in Down(db).tables[t].rows
        ensures row.resource in Down(db).resources.Values
      {
        DownMovesTheRows(db, t, row);
        if row in db.tables[t].rows {
          var code :| code in db.resources && db.resources[code] == row.resource;
          assert code in Down(db).resources && Down(db).resources[code] == row.resource;
        }
      }
    }
  }

  /** After `up` and `down` every page exists and ACCOUNT does not, wherever a page or ACCOUNT existed; every other
      resource has its old id. */
  lemma RoundTripResources(db: Db)
    ensures (exists page :: page in PAGES && page in db.resources) || ACCOUNT in db.resources
            ==> Down(Up(db)).resources.Keys == db.resources.Keys - {ACCOUNT} + SetOf(PAGES)
    ensures forall code | code in db.resources && code !in PAGES && code != ACCOUNT ::
              code in Down(Up(db)).resources && Down(Up(db)).resources[code] == db.resources[code]
  {
    hide Up, Down;
    UpReplacesThePages(db);
    DownReplacesAccount(Up(db));
  }

  /** Page by page, in any table: what `down` leaves on each where none exists beforehand. */
  lemma EachPageGetsItsOwn(db: Db, t: TableName, policy: nat)
    requires WellFormed(db) && t in db.tables && forall page | page in PAGES :: page !in db.resources
    ensures var after, held := Down(db), CodesAt(db, t, policy, ACCOUNT);
            && CodesAt(after, t, policy, SETTINGS_PROFILE) == {SETTINGS_PROFILE_VIEW, SETTINGS_PROFILE_UPDATE} * held
            && CodesAt(after, t, policy, SETTINGS_APPEARANCE)
               == {SETTINGS_APPEARANCE_VIEW, SETTINGS_APPEARANCE_UPDATE} * held
            && CodesAt(after, t, policy, SETTINGS_REGIONAL) == {SETTINGS_REGIONAL_VIEW, SETTINGS_REGIONAL_UPDATE} * held
            && CodesAt(after, t, policy, SETTINGS_DISPLAY) == {SETTINGS_DISPLAY_VIEW, SETTINGS_DISPLAY_UPDATE} * held
            && CodesAt(after, t, policy, SETTINGS_NOTIFICATIONS)
               == {SETTINGS_NOTIFICATIONS_VIEW, SETTINGS_NOTIFICATIONS_UPDATE} * held
            && CodesAt(after, t, policy, SETTINGS_PASSWORD) == {SETTINGS_PASSWORD_VIEW, SETTINGS_PASSWORD_UPDATE} * held
            && CodesAt(after, t, policy, SETTINGS_SESSIONS) == {SETTINGS_SESSIONS_VIEW, SETTINGS_SESSIONS_UPDATE} * held
            && CodesAt(after, t, policy, SETTINGS_LOGIN_HISTORY) == {SETTINGS_LOGIN_HISTORY_VIEW} * held
  {
    hide Down, CodesAt, PageActions, SetOf, WellFormed;
    DownKeepsIds(db);
    PageCodes();
    forall i | 0 <= i < |PAGES|
      ensures CodesAt(Down(db), t, policy, PAGES[i]) == SetOf(PageActions(PAGES[i])) * CodesAt(db, t, policy, ACCOUNT)
    {
      DownSplitsAccount(db, t, policy, PAGES[i]);
    }
    assert PAGES[0] == SETTINGS_PROFILE && PAGES[1] == SETTINGS_APPEARANCE && PAGES[2] == SETTINGS_REGIONAL;
    assert PAGES[3] == SETTINGS_DISPLAY && PAGES[4] == SETTINGS_NOTIFICATIONS && PAGES[5] == SETTINGS_PASSWORD;
    assert PAGES[6] == SETTINGS_SESSIONS && PAGES[7] == SETTINGS_LOGIN_HISTORY;
  }

  lemma PageCodes()
    ensures SetOf(PageActions(SETTINGS_PROFILE)) == {SETTINGS_PROFILE_VIEW, SETTINGS_PROFILE_UPDATE}
    ensures SetOf(PageActions(SETTINGS_APPEARANCE)) == {SETTINGS_APPEARANCE_VIEW, SETTINGS_APPEARANCE_UPDATE}
    ensures SetOf(PageActions(SETTINGS_REGIONAL)) == {SETTINGS_REGIONAL_VIEW, SETTINGS_REGIONAL_UPDATE}
    ensures SetOf(PageActions(SETTINGS_DISPLAY)) == {SETTINGS_DISPLAY_VIEW, SETTINGS_DISPLAY_UPDATE}
    ensures SetOf(PageActions(SETTINGS_NOTIFICATIONS)) == {SETTINGS_NOTIFICATIONS_VIEW, SETTINGS_NOTIFICATIONS_UPDATE}
    ensures SetOf(PageActions(SETTINGS_PASSWORD)) == {SETTINGS_PASSWORD_VIEW, SETTINGS_PASSWORD_UPDATE}
    ensures SetOf(PageActions(SETTINGS_SESSIONS)) == {SETTINGS_SESSIONS_VIEW, SETTINGS_SESSIONS_UPDATE}
    ensures SetOf(PageActions(SETTINGS_LOGIN_HISTORY)) == {SETTINGS_LOGIN_HISTORY_VIEW}
  {
  }

  lemma UpRemovesPages(db: Db, page: ResourceCode)
    requires page in PAGES
    ensures page !in Up(db).resources
  {
    if page in db.resources {
      assert db.resources[page] in OldIds(db.resources);
    }
    assert page in SetOf(PAGES);
    assert page != ACCOUNT;
  }

  /** Round trip, exactly: after `up` and `down`, each page holds those of its own codes that the policy held
      anywhere on the pages or on ACCOUNT, in each of the tables. */
  lemma RoundTripLeaves(db: Db, t: TableName, policy: nat, page: ResourceCode)
    requires WellFormed(db) && t in db.tables && page in PAGES
    ensures CodesAt(Down(Up(db)), t, policy, page) == SetOf(PageActions(page)) * SettingsCodes(db, t, policy)
  {
    UpKeepsWellFormed(db);
    UpPreservesEveryGrant(db, t, policy);
    UpRemovesPages(db, page);
    UpGathersOnAccount(db, t, policy);
    DownSplitsAccount(Up(db), t, policy, page);
  }

  /** Each page holds only its own codes, and ACCOUNT holds no page's code that the page itself does not. */
  ghost predicate EachPageHoldsItsOwn(db: Db, t: TableName, policy: nat)
    requires t in db.tables
  {
    forall page | page in PAGES ::
      && CodesAt(db, t, policy, page) <= SetOf(PageActions(page))
      && CodesAt(db, t, policy, ACCOUNT) * SetOf(PageActions(page)) <= CodesAt(db, t, policy, page)
  }

  lemma SettingsCodesByPage(db: Db, t: TableName, policy: nat, code: Code)
    requires t in db.tables
    ensures code in SettingsCodes(db, t, policy)
       <==> code in CodesAt(db, t, policy, ACCOUNT) || exists page ::
              page in PAGES && code in CodesAt(db, t, policy, page)
  {
    var rows := db.tables[t].rows;
    if code in LiveOn(rows, policy, OldIds(db.resources)) {
      var row :| row in rows && row.policy == policy && !row.deleted && row.resource in OldIds(db.resources)
                 && code in Held(row);
      var page :| page in PAGES && page in db.resources && db.resources[page] == row.resource;
      assert code in CodesAt(db, t, policy, page);
    }
    if page :| page in PAGES && code in CodesAt(db, t, policy, page) {
      assert db.resources[page] in OldIds(db.resources);
    }
  }

  /** `down` after `up` restores every page of a policy exactly when each page held only its own codes and ACCOUNT
      added none to them. */
  lemma RoundTripRestoresIff(db: Db, t: TableName, policy: nat)
    requires WellFormed(db) && t in db.tables
    ensures (forall page | page in PAGES :: CodesAt(Down(Up(db)), t, policy, page) == CodesAt(db, t, policy, page))
       <==> EachPageHoldsItsOwn(db, t, policy)
  {
    forall page | page in PAGES
      ensures CodesAt(Down(Up(db)), t, policy, page) == SetOf(PageActions(page)) * SettingsCodes(db, t, policy)
    {
      RoundTripLeaves(db, t, policy, page);
    }
    forall code
      ensures code in SettingsCodes(db, t, policy)
         <==> code in CodesAt(db, t, policy, ACCOUNT) || exists page ::
                page in PAGES && code in CodesAt(db, t, policy, page)
    {
      SettingsCodesByPage(db, t, policy, code);
    }
    if EachPageHoldsItsOwn(db, t, policy) {
      forall page, code | page in PAGES && code in SetOf(PageActions(page)) * SettingsCodes(db, t, policy)
        ensures code in CodesAt(db, t, policy, page)
      {
        if code !in CodesAt(db, t, policy, ACCOUNT) {
          var other :| other in PAGES && code in CodesAt(db, t, policy, other);
          PagesShareNoCode(page, other, code);
        }
      }
    }
  }

  lemma PagesShareNoCode(a: ResourceCode, b: ResourceCode, code: Code)
    requires code in PageActions(a) && code in PageActions(b)
    ensures a == b
  {
  }

  // ---------------------------------------------------------------------------------------------------------------
  // What the way back does to a policy's grants
  // ---------------------------------------------------------------------------------------------------------------

  function SettingsIds(resources: map<ResourceCode, nat>): set<nat> {
    OldIds(resources) + if ACCOUNT in resources then {resources[ACCOUNT]} else {}
  }

  /** What the policy holds on resources that are neither a page nor ACCOUNT. */
  function OtherCodes(db: Db, t: TableName, policy: nat): set<Code>
    requires t in db.tables
  {
    LiveOff(db.tables[t].rows, policy, SettingsIds(db.resources))
  }

  lemma GrantsAreSettingsAndOther(db: Db, t: TableName, policy: nat)
    requires t in db.tables
    ensures Granted(db.tables[t].rows, policy) == SettingsCodes(db, t, policy) + OtherCodes(db, t, policy)
  {
    hide OldIds;
  }

  /** `down` keeps what a policy grants on every other resource, and of what it grants on ACCOUNT the codes of the
      pages; any other code it held there is revoked. */
  lemma DownGrants(db: Db, t: TableName, policy: nat)
    requires WellFormed(db) && t in db.tables && ACCOUNT in db.resources
    ensures Granted(Down(db).tables[t].rows, policy)
         == LiveOff(db.tables[t].rows, policy, {db.resources[ACCOUNT]})
            + SetOf(ACCOUNT_CODES) * CodesAt(db, t, policy, ACCOUNT)
  {
    hide ActionsOf, Split, LiveOff, LiveOn;
    RestoredPages(db);
    TablesAfterDown(db, t);
    SplittingGrants(db.tables[t], db.resources[ACCOUNT], PAGES, PageIds(EnsureResources(db, PAGES)), policy);
  }

  lemma LiveOffByResource(rows: seq<Statement>, policy: nat, resources: set<nat>, code: Code)
    ensures code in LiveOff(rows, policy, resources)
       <==> exists r :: r !in resources && code in LiveOn(rows, policy, {r})
  {
    if code in LiveOff(rows, policy, resources) {
      var row :| row in rows && row.policy == policy && !row.deleted && row.resource !in resources && code in Held(row);
      assert code in LiveOn(rows, policy, {row.resource});
    }
  }

  /** Consolidation leaves what a policy holds off the pages and ACCOUNT. */
  lemma ConsolidationLeavesOtherCodes(table: Table, account: nat, oldIds: set<nat>, p: nat)
    requires account !in oldIds
    ensures LiveOff(Consolidated(table, account, oldIds).rows, p, {account})
         == LiveOff(table.rows, p, oldIds + {account})
  {
    hide Consolidated, LiveOff, LiveOn;
    var after := Consolidated(table, account, oldIds).rows;
    forall code
      ensures code in LiveOff(after, p, {account}) <==> code in LiveOff(table.rows, p, oldIds + {account})
    {
      LiveOffByResource(after, p, {account}, code);
      LiveOffByResource(table.rows, p, oldIds + {account}, code);
      forall r | r != account
        ensures LiveOn(after, p, {r}) == if r in oldIds then {} else LiveOn(table.rows, p, {r})
      {
        ConsolidationMovesExactly(table, account, oldIds, p, r);
      }
    }
  }

  lemma UpLeavesOtherCodes(db: Db, t: TableName, policy: nat)
    requires WellFormed(db) && t in db.tables && OldIds(db.resources) != {}
    ensures LiveOff(Up(db).tables[t].rows, policy, {EnsureResource(db, ACCOUNT).resources[ACCOUNT]})
         == OtherCodes(db, t, policy)
  {
    hide Consolidated, OldIds;
    var account := EnsureResource(db, ACCOUNT).resources[ACCOUNT];
    EnsuredAccountIsNotAPage(db);
    RowsAfterUp(db, t);
    ConsolidationLeavesOtherCodes(db.tables[t], account, OldIds(db.resources), policy);
    if ACCOUNT in db.resources {
      assert OldIds(db.resources) + {account} == SettingsIds(db.resources);
    } else {
      assert SettingsIds(db.resources) == OldIds(db.resources);
      forall row | row in db.tables[t].rows ensures row.resource != account {
        assert row.resource in db.resources.Values;
      }
    }
  }

  lemma RoundTripLeavesGrants(db: Db, t: TableName, policy: nat)
    requires WellFormed(db) && t in db.tables
    ensures Granted(Down(Up(db)).tables[t].rows, policy)
         == OtherCodes(db, t, policy) + SetOf(ACCOUNT_CODES) * SettingsCodes(db, t, policy)
  {
    hide ActionsOf, Consolidated, Split, OldIds, LiveOff, LiveOn, Granted;
    UpKeepsWellFormed(db);
    UpGathersOnAccount(db, t, policy);
    if OldIds(db.resources) != {} {
      assert ACCOUNT in Up(db).resources
             && Up(db).resources[ACCOUNT] == EnsureResource(db, ACCOUNT).resources[ACCOUNT] by {
        PagesHaveNoAccount();
      }
      DownGrants(Up(db), t, policy);
      UpLeavesOtherCodes(db, t, policy);
    } else if ACCOUNT in db.resources {
      DownGrants(db, t, policy);
      assert SettingsIds(db.resources) == {db.resources[ACCOUNT]};
    } else {
      GrantsAreSettingsAndOther(db, t, policy);
      NothingOnNoResource(db.tables[t].rows, policy);
    }
  }

  lemma NothingOnNoResource(rows: seq<Statement>, policy: nat)
    ensures LiveOn(rows, policy, {}) == {}
  {
  }

  lemma PagesHaveNoAccount()
    ensures ACCOUNT !in SetOf(PAGES)
  {
  }

  /** `down` after `up` never grants anything new, and it gives a policy back what it granted exactly when every code
      held on a page or on ACCOUNT belongs to some page or is granted elsewhere too. */
  lemma RoundTripKeepsGrantsIff(db: Db, t: TableName, policy: nat)
    requires WellFormed(db) && t in db.tables
    ensures Granted(Down(Up(db)).tables[t].rows, policy) <= Granted(db.tables[t].rows, policy)
    ensures Granted(Down(Up(db)).tables[t].rows, policy) == Granted(db.tables[t].rows, policy)
       <==> SettingsCodes(db, t, policy) <= SetOf(ACCOUNT_CODES) + OtherCodes(db, t, policy)
  {
    hide Up, Down, ActionsOf, Granted, SettingsCodes, OtherCodes;
    RoundTripLeavesGrants(db, t, policy);
    GrantsAreSettingsAndOther(db, t, policy);
  }

  /** A policy with one code of no page on its Profile statement grants nothing after the round trip. */
  lemma CodeOfNoPageIsLost(policy: nat, name: string)
    ensures var row := Statement(0, policy, 0, Array([OtherCode(name)]), false);
            var db := Db(map[SETTINGS_PROFILE := 0], 1, map[POLICY_STATEMENTS := Table([row], 1)]);
            && WellFormed(db) && Granted(db.tables[POLICY_STATEMENTS].rows, policy) == {OtherCode(name)}
            && Granted(Down(Up(db)).tables[POLICY_STATEMENTS].rows, policy) == {}
  {
    hide Up, Down, ActionsOf;
    var row := Statement(0, policy, 0, Array([OtherCode(name)]), false);
    var db := Db(map[SETTINGS_PROFILE := 0], 1, map[POLICY_STATEMENTS := Table([row], 1)]);
    assert PAGES[0] == SETTINGS_PROFILE;
    assert db.resources[SETTINGS_PROFILE] in OldIds(db.resources) && SettingsIds(db.resources) == {0};
    assert row == db.tables[POLICY_STATEMENTS].rows[0] && Held(row) == {OtherCode(name)};
    assert Granted(db.tables[POLICY_STATEMENTS].rows, policy) == {OtherCode(name)};
    RoundTripLeavesGrants(db, POLICY_STATEMENTS, policy);
    NotAPageCode(name);
    GrantsAreSettingsAndOther(db, POLICY_STATEMENTS, policy);
    assert OtherCodes(db, POLICY_STATEMENTS, policy) == {};
  }

  lemma NotAPageCode(name: string)
    ensures OtherCode(name) !in ACCOUNT_CODES
  {
    hide ActionsOf;
    ActionsOfHas(PAGES, OtherCode(name));
  }

  /** Both ways keep every table in the order of its primary keys and hand out only new ones. */
  lemma PrimaryKeysStay(db: Db, t: TableName)
    requires t in db.tables && InKeyOrder(db.tables[t])
    ensures t in Up(db).tables && InKeyOrder(Up(db).tables[t])
    ensures t in Down(db).tables && InKeyOrder(Down(db).tables[t])
  {
    hide InKeyOrder, Consolidated, Split;
    if OldIds(db.resources) != {} {
      RowsAfterUp(db, t);
      ConsolidationKeepsKeys(db.tables[t], EnsureResource(db, ACCOUNT).resources[ACCOUNT], OldIds(db.resources));
    }
    if ACCOUNT in db.resources {
      TablesAfterDown(db, t);
      SplittingKeepsKeys(db.tables[t], db.resources[ACCOUNT], PAGES, PageIds(EnsureResources(db, PAGES)));
    }
  }
}
