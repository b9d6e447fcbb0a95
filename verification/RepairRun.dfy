/** `up` of migration 1793300000000 as it runs, loop by loop, over the statement table. */
module RepairRun {
  import opened PolicyStatements
  import opened ResourceGrouping
  import opened CodeFolding
  import opened RepairStatements

  const MARKER: seq<Code> := [REPAIR_NEEDED_ORIGINAL_VALUE_LOST]

  /** The policies the join on names finds; names are unique on both sides, so none comes twice. */
  predicate OncePerPolicy(sources: seq<Source>) {
    forall i, j | 0 <= i < j < |sources| :: sources[i].policy != sources[j].policy
  }

  predicate Concerns(sources: seq<Source>, policy: nat) {
    exists i :: 0 <= i < |sources| && sources[i].policy == policy
  }

  predicate SourceRepairable(rows: seq<Statement>, source: Source, place: map<Code, nat>) {
    HasBroken(rows, source.policy) ==> Repairable(rows, source.policy, Derived(source.raw), place)
  }

  predicate SamePolicy(left: seq<Statement>, right: seq<Statement>, policy: nat) {
    && (forall row | row in left && row.policy == policy :: row in right)
    && (forall row | row in right && row.policy == policy :: row in left)
  }

  lemma SamePolicyReadsTheSame(left: seq<Statement>, right: seq<Statement>, source: Source, place: map<Code, nat>)
    requires SamePolicy(left, right, source.policy)
    ensures HasBroken(left, source.policy) == HasBroken(right, source.policy)
    ensures SourceRepairable(left, source, place) == SourceRepairable(right, source, place)
    ensures Stored(left, source.policy) == Stored(right, source.policy)
    ensures Granted(left, source.policy) == Granted(right, source.policy)
    ensures ReachesLiveRows(left, source, place) == ReachesLiveRows(right, source, place)
  {
  }

  /** No derived code of the policy is left to a soft-deleted row alone. */
  predicate ReachesLiveRows(rows: seq<Statement>, source: Source, place: map<Code, nat>) {
    forall c | c in Derived(source.raw) && c in place :: ReachesALiveRow(rows, source.policy, place[c], c)
  }

  lemma WrittenOneMore(keys: seq<nat>, key: nat, policy: nat, codes: seq<Code>, place: map<Code, nat>, id: nat)
    ensures Written(keys + [key], policy, codes, place, id)
         == Written(keys, policy, codes, place, id)
            + [Statement(id + |keys|, policy, key, Array(On(codes, place, key)), false)]
  {
  }

  function Marked(row: Statement): Statement { if row.actions.Null? then row.(actions := Array(MARKER)) else row }

  function MarkedRows(rows: seq<Statement>): (marked: seq<Statement>)
    ensures |marked| == |rows|
    ensures forall i | 0 <= i < |rows| :: marked[i] == Marked(rows[i])
  {
    if rows == [] then [] else MarkedRows(rows[..|rows| - 1]) + [Marked(rows[|rows| - 1])]
  }

  lemma {:induction false} MarkingAdds(rows: seq<Statement>, policy: nat)
    ensures Stored(MarkedRows(rows), policy)
         == Stored(rows, policy) + if HasBroken(rows, policy) then {REPAIR_NEEDED_ORIGINAL_VALUE_LOST} else {}
  {
    if rows != [] {
      var before, last := rows[..|rows| - 1], rows[|rows| - 1];
      MarkingAdds(before, policy);
      StoredAppend(before, last, policy);
      StoredAppend(MarkedRows(before), Marked(last), policy);
      assert rows == before + [last];
      BrokenOneMore(before, last, policy, 0);
      assert HasBroken(rows, policy) <==> BrokenOn(rows, policy) != {} by { HasBrokenMeans(rows, policy); }
      assert HasBroken(before, policy) <==> BrokenOn(before, policy) != {} by { HasBrokenMeans(before, policy); }
    }
  }

  lemma HasBrokenMeans(rows: seq<Statement>, policy: nat)
    ensures HasBroken(rows, policy) <==> BrokenOn(rows, policy) != {}
  {
    if HasBroken(rows, policy) {
      var row :| row in rows && Broken(row, policy);
      assert row.resource in BrokenOn(rows, policy);
    }
  }

  lemma TurnOf(sources: seq<Source>, i: nat)
    requires i < |sources| && OncePerPolicy(sources)
    ensures !Concerns(sources[..i], sources[i].policy)
    ensures forall policy ::
              Concerns(sources[..i + 1], policy) <==> Concerns(sources[..i], policy) || policy == sources[i].policy
  {
    assert forall k | 0 <= k < i :: sources[..i][k] == sources[k];
    assert forall k | 0 <= k <= i :: sources[..i + 1][k] == sources[k];
    assert sources[..i + 1][i].policy == sources[i].policy;
    forall policy | Concerns(sources[..i], policy) ensures Concerns(sources[..i + 1], policy) {
      var k :| 0 <= k < i && sources[..i][k].policy == policy;
      assert sources[..i + 1][k].policy == policy;
    }
  }

  /** What the run promises about a policy named after a role: one with null rows stores the repaired codes, and
      grants them if and only if none was left to a soft-deleted row alone; any other is as it was. */
  ghost predicate Settled(rows: seq<Statement>, before: seq<Statement>, source: Source, place: map<Code, nat>) {
    && !HasBroken(rows, source.policy)
    && if HasBroken(before, source.policy)
       then
         && Stored(rows, source.policy) == RepairedCodes(SetOf(source.raw))
         && (Granted(rows, source.policy) == RepairedCodes(SetOf(source.raw))
             <==> ReachesLiveRows(before, source, place))
       else SamePolicy(rows, before, source.policy)
  }

  lemma MarkingKeepsSettled(rows: seq<Statement>, before: seq<Statement>, source: Source, place: map<Code, nat>)
    requires Settled(rows, before, source, place)
    ensures Settled(MarkedRows(rows), before, source, place)
  {
    var marked := MarkedRows(rows);
    MarkingAdds(rows, source.policy);
    forall row | row in marked && row.policy == source.policy ensures row in rows {
      var i :| 0 <= i < |rows| && marked[i] == row;
      assert !Broken(rows[i], source.policy);
    }
    forall row | row in rows && row.policy == source.policy ensures row in marked {
      var i :| 0 <= i < |rows| && rows[i] == row;
      assert !Broken(rows[i], source.policy) && marked[i] == row;
    }
  }

  /** What the run promises about any other policy. */
  ghost predicate MarkedIfBroken(rows: seq<Statement>, before: seq<Statement>, policy: nat) {
    Stored(rows, policy)
    == Stored(before, policy) + if HasBroken(before, policy) then {REPAIR_NEEDED_ORIGINAL_VALUE_LOST} else {}
  }

  function AfterTurn(table: Table, source: Source, place: map<Code, nat>): Table
    requires SourceRepairable(table.rows, source, place)
  {
    if HasBroken(table.rows, source.policy) then Repaired(table, source.policy, Derived(source.raw), place) else table
  }

  /** How far the outer loop has come: the policies seen are settled, the others untouched. */
  ghost predicate Progress(
    rows: seq<Statement>, before: seq<Statement>, sources: seq<Source>, done: nat, place: map<Code, nat>)
    requires done <= |sources|
  {
    && (forall k | 0 <= k < done ::
          SourceRepairable(before, sources[k], place) && Settled(rows, before, sources[k], place))
    && (forall policy | !Concerns(sources[..done], policy) :: SamePolicy(rows, before, policy))
    && (forall row | row in before && !row.actions.Null? :: row in rows)
  }

  lemma TurnMakesProgress(turn: Table, before: seq<Statement>, sources: seq<Source>, i: nat, place: map<Code, nat>)
    requires i < |sources| && OncePerPolicy(sources)
    requires Progress(turn.rows, before, sources, i, place)
    ensures SourceRepairable(turn.rows, sources[i], place) <==> SourceRepairable(before, sources[i], place)
    ensures SourceRepairable(turn.rows, sources[i], place)
            ==> Progress(AfterTurn(turn, sources[i], place).rows, before, sources, i + 1, place)
  {
    TurnOf(sources, i);
    var source := sources[i];
    SamePolicyReadsTheSame(turn.rows, before, source, place);
    if SourceRepairable(turn.rows, source, place) {
      var after := AfterTurn(turn, source, place).rows;
      if HasBroken(turn.rows, source.policy) {
        RepairSettles(turn, source, place);
      }
      assert forall policy | policy != source.policy :: SamePolicy(after, turn.rows, policy);
      forall k | 0 <= k < i ensures Settled(after, before, sources[k], place) {
        SamePolicyReadsTheSame(after, turn.rows, sources[k], place);
      }
      assert Settled(after, before, source, place);
      forall policy | !Concerns(sources[..i + 1], policy) ensures SamePolicy(after, before, policy) {
        assert SamePolicy(after, turn.rows, policy) && SamePolicy(turn.rows, before, policy);
      }
    }
  }

  lemma MarkingFinishes(rows: seq<Statement>, before: seq<Statement>, sources: seq<Source>, place: map<Code, nat>)
    requires forall i | 0 <= i < |sources| :: Settled(rows, before, sources[i], place)
    requires forall policy | !Concerns(sources, policy) :: SamePolicy(rows, before, policy)
    requires forall row | row in before && !row.actions.Null? :: row in rows
    ensures forall i | 0 <= i < |sources| :: Settled(MarkedRows(rows), before, sources[i], place)
    ensures forall policy | !Concerns(sources, policy) :: MarkedIfBroken(MarkedRows(rows), before, policy)
    ensures forall row | row in before && !row.actions.Null? :: row in MarkedRows(rows)
  {
    forall i | 0 <= i < |sources| ensures Settled(MarkedRows(rows), before, sources[i], place) {
      MarkingKeepsSettled(rows, before, sources[i], place);
    }
    forall policy | !Concerns(sources, policy) ensures MarkedIfBroken(MarkedRows(rows), before, policy) {
      assert SamePolicy(rows, before, policy);
      MarkingAdds(rows, policy);
    }
    forall row | row in before && !row.actions.Null? ensures row in MarkedRows(rows) {
      var i :| 0 <= i < |rows| && rows[i] == row;
      assert MarkedRows(rows)[i] == row;
    }
  }

  lemma RepairSettles(table: Table, source: Source, place: map<Code, nat>)
    requires HasBroken(table.rows, source.policy)
    requires Repairable(table.rows, source.policy, Derived(source.raw), place)
    ensures var after := Repaired(table, source.policy, Derived(source.raw), place).rows;
            && Settled(after, table.rows, source, place)
            && (forall policy | policy != source.policy :: SamePolicy(after, table.rows, policy))
            && (forall row | row in table.rows && !row.actions.Null? :: row in after)
  {
    RepairAddsTheDerivedCodes(table, source.policy, Derived(source.raw), place);
    RepairCheckPassesIff(table, source.policy, Derived(source.raw), place);
    RepairRestoresLiveGrantsIff(table, source.policy, Derived(source.raw), place);
    DerivedIs(source.raw);
  }

  /** The `policy_statements` table, and the resource id each action code belongs to. */
  class RepairDatabase {
    var rows: seq<Statement>
    var nextId: nat
    const place: map<Code, nat>

    constructor (rows: seq<Statement>, nextId: nat, place: map<Code, nat>)
      ensures this.rows == rows && this.nextId == nextId && this.place == place
    {
      this.rows, this.nextId, this.place := rows, nextId, place;
    }

    /** The update loop; it stops at a null row whose resource no code belongs to. */
    method FillNullRows(policy: nat, codes: seq<Code>, keys: seq<nat>, groups: map<nat, seq<Code>>) returns (ok: bool)
      requires Grouped(codes, place, keys, groups)
      modifies this`rows
      ensures ok <==> forall row | row in old(rows) && Broken(row, policy) :: row.resource in keys
      ensures ok ==> rows == Filled(old(rows), policy, codes, place)
    {
      for i := 0 to |rows|
        invariant |rows| == |old(rows)|
        invariant forall j | 0 <= j < |rows| ::
            rows[j] == if j < i then FilledRow(old(rows)[j], policy, codes, place) else old(rows)[j]
        invariant forall j | 0 <= j < i :: Broken(old(rows)[j], policy) ==> old(rows)[j].resource in keys
      {
        var row := rows[i];
        if Broken(row, policy) {
          if row.resource !in groups {
            assert row in old(rows);
            return false;
          }
          rows := rows[i := row.(actions := Array(groups[row.resource]))];
        }
      }
      ok := true;
    }

    method Insert(policy: nat, resource: nat, codes: seq<Code>)
      modifies this`rows, this`nextId
      ensures rows == old(rows) + [Statement(old(nextId), policy, resource, Array(codes), false)]
      ensures nextId == old(nextId) + 1
    {
      rows, nextId := rows + [Statement(nextId, policy, resource, Array(codes), false)], nextId + 1;
    }

    /** The insert loop over the groups no null row covered. */
    method InsertMissing(
      policy: nat, ghost codes: seq<Code>, keys: seq<nat>, groups: map<nat, seq<Code>>, covered: set<nat>)
      requires groups.Keys == SetOf(keys) && forall k | k in groups :: groups[k] == On(codes, place, k)
      modifies this
      ensures rows == old(rows) + Written(Uncovered(keys, covered), policy, codes, place, old(nextId))
      ensures nextId == old(nextId) + |Uncovered(keys, covered)|
    {
      hide Written, On;
      ghost var missing: seq<nat>, first := [], nextId;
      ghost var before := rows;
      for i := 0 to |keys|
        invariant missing == Uncovered(keys[..i], covered)
        invariant rows == before + Written(missing, policy, codes, place, first)
        invariant nextId == first + |missing|
      {
        var key := keys[i];
        assert keys[..i + 1][..i] == keys[..i];
        if key !in covered {
          assert key in SetOf(keys);
          WrittenOneMore(missing, key, policy, codes, place, first);
          Insert(policy, key, groups[key]);
          missing := missing + [key];
        }
      }
      assert keys[..|keys|] == keys;
    }

    /** One turn of the outer loop, for a policy named after a role. */
    method RepairPolicy(source: Source) returns (done: bool)
      modifies this
      ensures done <==> SourceRepairable(old(rows), source, place)
      ensures done ==> Table(rows, nextId) == AfterTurn(Table(old(rows), old(nextId)), source, place)
    {
      var policy, covered := source.policy, BrokenOn(rows, source.policy);
      if covered == {} {
        assert forall row | row in rows && Broken(row, policy) :: row.resource in covered;
        return true;
      }
      ghost var before := Table(rows, nextId);
      var codes := Derived(source.raw);
      var ok, keys, groups := GroupByKey(codes, place);
      if !ok { return false; }
      ok := FillNullRows(policy, codes, keys, groups);
      if !ok { return false; }
      InsertMissing(policy, codes, keys, groups, covered);
      assert Table(rows, nextId) == Repaired(before, policy, codes, place);
      RepairCheckPassesIff(before, policy, codes, place);
      var stored;
      ok, stored := Resolve(rows, policy);
      done := ok && stored == SetOf(codes);
    }

    method MarkTheRest()
      modifies this`rows
      ensures rows == MarkedRows(old(rows))
    {
      for i := 0 to |rows|
        invariant |rows| == |old(rows)|
        invariant forall j | 0 <= j < |rows| :: rows[j] == if j < i then Marked(old(rows)[j]) else old(rows)[j]
      {
        if rows[i].actions.Null? {
          rows := rows[i := rows[i].(actions := Array(MARKER))];
        }
      }
    }

    /** The outer loop; it stops at the first policy that cannot be repaired. */
    method RepairAll(sources: seq<Source>) returns (done: bool)
      requires OncePerPolicy(sources)
      modifies this
      ensures done <==> forall i | 0 <= i < |sources| :: SourceRepairable(old(rows), sources[i], place)
      ensures done ==> Progress(rows, old(rows), sources, |sources|, place)
    {
      ghost var before := rows;
      for i := 0 to |sources|
        invariant Progress(rows, before, sources, i, place)
      {
        TurnMakesProgress(Table(rows, nextId), before, sources, i, place);
        done := RepairPolicy(sources[i]);
        if !done { return; }
      }
      done := true;
    }

    /** `up`. It succeeds exactly when every null-row policy named after a role can be repaired from that role's
        grants, and then each of those holds exactly what the three folding migrations would have left of the grants,
        every other policy with a null row gains the marker, no null row is left and no other row changed. */
    method Up(sources: seq<Source>) returns (done: bool)
      requires OncePerPolicy(sources)
      modifies this
      ensures done <==> forall i | 0 <= i < |sources| :: SourceRepairable(old(rows), sources[i], place)
      ensures !done ==> rows == old(rows) && nextId == old(nextId)
      ensures done ==> forall row | row in rows :: !row.actions.Null?
      ensures done ==> forall row | row in old(rows) && !row.actions.Null? :: row in rows
      ensures done ==> forall i | 0 <= i < |sources| :: Settled(rows, old(rows), sources[i], place)
      ensures done ==> forall policy | !Concerns(sources, policy) :: MarkedIfBroken(rows, old(rows), policy)
      ensures (forall row | row in old(rows) :: !row.actions.Null?)
              ==> done && rows == old(rows) && nextId == old(nextId)
    {
      var savedRows, savedId := rows, nextId;
      if forall row | row in rows :: !row.actions.Null? { return true; }
      done := RepairAll(sources);
      if done {
        assert sources[..|sources|] == sources;
        MarkingFinishes(rows, savedRows, sources, place);
        MarkTheRest();
      } else {
        rows, nextId := savedRows, savedId;
      }
    }
  }
}
