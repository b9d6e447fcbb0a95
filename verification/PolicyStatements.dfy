/** The statement tables the IAM migrations rewrite. A statement grants action codes on one resource to one policy;
    every effect is Allow, so what a policy grants is the union of its live statements. */
module PolicyStatements {
  /** The action codes the migrations name, and any other. */
  datatype Code =
      // the per-page Settings codes
    | SETTINGS_PROFILE_VIEW | SETTINGS_PROFILE_UPDATE
    | SETTINGS_APPEARANCE_VIEW | SETTINGS_APPEARANCE_UPDATE
    | SETTINGS_REGIONAL_VIEW | SETTINGS_REGIONAL_UPDATE
    | SETTINGS_DISPLAY_VIEW | SETTINGS_DISPLAY_UPDATE
    | SETTINGS_NOTIFICATIONS_VIEW | SETTINGS_NOTIFICATIONS_UPDATE
    | SETTINGS_PASSWORD_VIEW | SETTINGS_PASSWORD_UPDATE
    | SETTINGS_SESSIONS_VIEW | SETTINGS_SESSIONS_UPDATE
    | SETTINGS_LOGIN_HISTORY_VIEW
      // the codes folded onto another one, and the ones they are folded onto
    | VIEW_USER | USER_OVERVIEW
    | TARIFF_APPROVAL_VIEW | TARIFF_APPROVAL_QUEUE | TARIFF_APPROVAL_APPROVE | TARIFF_APPROVAL_REJECT
    | TARIFF_VIEW | TARIFF_APPROVE | TARIFF_REJECT
    | BILLING_CYCLE_APPROVAL_VIEW | BILLING_CYCLE_APPROVAL_APPROVE | BILLING_CYCLE_APPROVAL_REJECT
    | VIEW_BILLING_CYCLE | BILLING_CYCLE_APPROVE | BILLING_CYCLE_REJECT
    | REGISTRATION_APPROVAL_VIEW | REGISTRATION_APPROVAL_APPROVE | REGISTRATION_APPROVAL_REJECT
    | VIEW_REGISTRATION_REQUESTS | APPROVE_REGISTRATION_REQUEST | REJECT_REGISTRATION_REQUEST
      // the retired ones
    | CREATE_ATTRIBUTE | DELETE_ATTRIBUTE | EXPORT_BILLING_CYCLE | METER_EDIT
      // the ones no policy statement represents
    | VIEW_POLICY | CREATE_POLICY | EDIT_POLICY | DELETE_POLICY | VIEW_RESOURCE
    | REPAIR_NEEDED_ORIGINAL_VALUE_LOST
    | OtherCode(name: string)

  /** What the `actions` column holds: an array, the JSON text of one, text that does not parse, null, or any other
      JSON. */
  datatype Column = Array(codes: seq<Code>) | Text(parsed: seq<Code>) | BadText | Null | NotAnArray
  {
    predicate Readable() { !BadText? }

    /** `parseActions`; it throws on text that does not parse. */
    function Parse(): seq<Code> {
      match this
      case Array(codes) => codes
      case Text(parsed) => parsed
      case _ => []
    }
  }

  datatype Statement = Statement(id: nat, policy: nat, resource: nat, actions: Column, deleted: bool)

  /** A table in primary-key order, with the next key it will hand out. */
  datatype Table = Table(rows: seq<Statement>, nextId: nat)

  function SetOf<T>(items: seq<T>): set<T> { set x | x in items }

  function Held(row: Statement): set<Code> { SetOf(row.actions.Parse()) }

  /** The codes the live statements of a policy hold on one of `resources`. */
  function LiveOn(rows: seq<Statement>, policy: nat, resources: set<nat>): set<Code> {
    set row, code | row in rows && row.policy == policy && !row.deleted && row.resource in resources
                    && code in Held(row) :: code
  }

  /** Everything a policy grants. */
  function Granted(rows: seq<Statement>, policy: nat): set<Code> {
    set row, code | row in rows && row.policy == policy && !row.deleted && code in Held(row) :: code
  }

  /** What a policy grants by its live statements on any other resource. */
  function LiveOff(rows: seq<Statement>, policy: nat, resources: set<nat>): set<Code> {
    set row, code | row in rows && row.policy == policy && !row.deleted && row.resource !in resources
                    && code in Held(row) :: code
  }

  /** Each item once, where it first occurs. */
  function Distinct<T(==)>(items: seq<T>): seq<T> {
    if items == [] then []
    else
      var before, last := Distinct(items[..|items| - 1]), items[|items| - 1];
      if last in before then before else before + [last]
  }

  lemma {:induction false} DistinctKeepsAll<T>(items: seq<T>)
    ensures SetOf(Distinct(items)) == SetOf(items)
    ensures forall i, j | 0 <= i < j < |Distinct(items)| :: Distinct(items)[i] != Distinct(items)[j]
  {
    if items != [] {
      var before, last := items[..|items| - 1], items[|items| - 1];
      DistinctKeepsAll(before);
      assert items == before + [last];
      assert SetOf(items) == SetOf(before) + {last};
      if last in Distinct(before) {
        assert last in SetOf(Distinct(before));
      } else {
        assert SetOf(Distinct(before) + [last]) == SetOf(Distinct(before)) + {last};
      }
    }
  }

  /** The items that are in `chosen`, in order. */
  function Keep<T(==)>(items: seq<T>, chosen: set<T>): (kept: seq<T>)
    ensures forall x | x in kept :: x in items && x in chosen
    ensures forall x | x in items && x in chosen :: x in kept
  {
    if items == [] then []
    else if items[0] in chosen then [items[0]] + Keep(items[1..], chosen)
    else Keep(items[1..], chosen)
  }

  lemma {:induction false} KeepsNothing<T>(items: seq<T>, chosen: set<T>)
    requires chosen !! SetOf(items)
    ensures Keep(items, chosen) == []
  {
    if items != [] {
      assert items[0] in SetOf(items);
      assert SetOf(items[1..]) <= SetOf(items);
      KeepsNothing(items[1..], chosen);
    }
  }

  // -- order

  function FirstAt<T(==)>(items: seq<T>, x: T): (i: nat)
    requires x in items
    ensures i < |items| && items[i] == x && forall j | 0 <= j < i :: items[j] != x
  {
    if items[0] == x then 0 else FirstAt(items[1..], x) + 1
  }

  /** The items are among those of `whole`, each once, in the order in which they first occur there. */
  ghost predicate InOrderOf<T>(items: seq<T>, whole: seq<T>) {
    && (forall x | x in items :: x in whole)
    && (forall i, j | 0 <= i < j < |items| :: FirstAt(whole, items[i]) < FirstAt(whole, items[j]))
  }

  lemma {:induction false} KeepKeepsOrder<T>(items: seq<T>, chosen: set<T>, whole: seq<T>)
    requires InOrderOf(items, whole)
    ensures InOrderOf(Keep(items, chosen), whole)
  {
    hide InOrderOf;
    if items != [] {
      RestInOrder(items, whole);
      KeepKeepsOrder(items[1..], chosen, whole);
      if items[0] in chosen {
        PrependInOrder(items[0], Keep(items[1..], chosen), whole);
      }
    } else {
      NothingInOrder(whole);
    }
  }

  lemma NothingInOrder<T>(whole: seq<T>)
    ensures InOrderOf([], whole)
  {
  }

  lemma RestInOrder<T>(items: seq<T>, whole: seq<T>)
    requires items != [] && InOrderOf(items, whole)
    ensures InOrderOf(items[1..], whole) && items[0] in whole
    ensures forall x | x in items[1..] :: x in whole && FirstAt(whole, items[0]) < FirstAt(whole, x)
  {
    assert items[0] in items;
    assert forall x | x in items[1..] :: x in items;
  }

  lemma PrependInOrder<T>(item: T, items: seq<T>, whole: seq<T>)
    requires InOrderOf(items, whole) && item in whole
    requires forall x | x in items :: x in whole && FirstAt(whole, item) < FirstAt(whole, x)
    ensures InOrderOf([item] + items, whole)
  {
  }

  lemma {:induction false} DistinctKeepsOrder<T>(items: seq<T>)
    ensures InOrderOf(Distinct(items), items)
  {
    DistinctKeepsAll(items);
    if items != [] {
      var before, last := items[..|items| - 1], items[|items| - 1];
      DistinctKeepsOrder(before);
      assert items == before + [last];
      forall x | x in before ensures FirstAt(items, x) == FirstAt(before, x) {
        assert items[FirstAt(before, x)] == x;
      }
      if last !in Distinct(before) {
        DistinctKeepsAll(before);
        assert last !in before by { assert last !in SetOf(Distinct(before)); }
        assert FirstAt(items, last) == |before|;
      }
    }
  }

  lemma InOrderOfItself<T>(items: seq<T>)
    requires forall i, j | 0 <= i < j < |items| :: items[i] != items[j]
    ensures InOrderOf(items, items)
  {
    forall i | 0 <= i < |items| ensures FirstAt(items, items[i]) == i {
      assert items[FirstAt(items, items[i])] == items[i];
    }
  }

  /** The rows are in the order of their primary keys, and the next key is a new one. */
  ghost predicate InKeyOrder(table: Table) {
    && (forall i, j | 0 <= i < j < |table.rows| :: table.rows[i].id < table.rows[j].id)
    && (forall row | row in table.rows :: row.id < table.nextId)
  }

  lemma AppendKeepsKeys(table: Table, row: Statement)
    requires InKeyOrder(table) && row.id == table.nextId
    ensures InKeyOrder(Table(table.rows + [row], table.nextId + 1))
  {
    assert forall i | 0 <= i < |table.rows| :: table.rows[i] in table.rows;
  }

  lemma {:induction false} WithoutKeepsKeys(rows: seq<Statement>, resources: set<nat>, nextId: nat)
    requires InKeyOrder(Table(rows, nextId))
    ensures InKeyOrder(Table(WithoutResources(rows, resources), nextId))
  {
    hide InKeyOrder;
    if rows != [] {
      var rest := rows[1..];
      RestKeepsKeys(rows, nextId);
      WithoutKeepsKeys(rest, resources, nextId);
      if rows[0].resource !in resources {
        PrependKeepsKeys(rows[0], Table(WithoutResources(rest, resources), nextId));
      }
    }
  }

  lemma RestKeepsKeys(rows: seq<Statement>, nextId: nat)
    requires rows != [] && InKeyOrder(Table(rows, nextId))
    ensures InKeyOrder(Table(rows[1..], nextId)) && rows[0].id < nextId
    ensures forall row | row in rows[1..] :: rows[0].id < row.id
  {
    assert rows[0] in rows;
  }

  lemma PrependKeepsKeys(row: Statement, table: Table)
    requires InKeyOrder(table) && row.id < table.nextId && forall r | r in table.rows :: row.id < r.id
    ensures InKeyOrder(Table([row] + table.rows, table.nextId))
  {
  }

  lemma SameKeys(table: Table, rows: seq<Statement>)
    requires InKeyOrder(table) && |rows| == |table.rows|
    requires forall i | 0 <= i < |rows| :: rows[i].id == table.rows[i].id
    ensures InKeyOrder(Table(rows, table.nextId))
  {
    forall row | row in rows ensures row.id < table.nextId {
      var i :| 0 <= i < |rows| && rows[i] == row;
      assert table.rows[i] in table.rows;
    }
  }

  /** The table without its rows on `resources`. */
  function WithoutResources(rows: seq<Statement>, resources: set<nat>): (kept: seq<Statement>)
    ensures forall row :: row in kept <==> row in rows && row.resource !in resources
  {
    if rows == [] then []
    else if rows[0].resource in resources then WithoutResources(rows[1..], resources)
    else [rows[0]] + WithoutResources(rows[1..], resources)
  }

  /** What one row adds to a policy's grants. */
  function Gain(row: Statement, policy: nat): set<Code> {
    if row.policy == policy && !row.deleted then Held(row) else {}
  }

  lemma GrantedAppend(rows: seq<Statement>, row: Statement, policy: nat)
    ensures Granted(rows + [row], policy) == Granted(rows, policy) + Gain(row, policy)
  {
  }

  lemma LiveOnAppend(rows: seq<Statement>, row: Statement, policy: nat, resources: set<nat>)
    ensures LiveOn(rows + [row], policy, resources)
         == LiveOn(rows, policy, resources)
            + if row.policy == policy && !row.deleted && row.resource in resources then Held(row) else {}
  {
  }

  lemma LiveOnWithout(rows: seq<Statement>, dropped: set<nat>, policy: nat, resources: set<nat>)
    requires resources !! dropped
    ensures LiveOn(WithoutResources(rows, dropped), policy, resources) == LiveOn(rows, policy, resources)
  {
  }
}
