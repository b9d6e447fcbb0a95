/** Grouping a role's codes by the resource they belong to, as the backfill and the repair both do. */
module ResourceGrouping {
  import opened PolicyStatements

  predicate Mapped<R>(codes: seq<Code>, keyOf: map<Code, R>) { forall c | c in codes :: c in keyOf }

  /** The codes that belong to `key`, in order. */
  function On<R(==)>(codes: seq<Code>, keyOf: map<Code, R>, key: R): seq<Code> {
    if codes == [] then []
    else
      var last := codes[|codes| - 1];
      On(codes[..|codes| - 1], keyOf, key) + if last in keyOf && keyOf[last] == key then [last] else []
  }

  /** The keys, in the order the codes first need them. */
  function KeysOf<R(==)>(codes: seq<Code>, keyOf: map<Code, R>): (keys: seq<R>)
    requires Mapped(codes, keyOf)
  {
    if codes == [] then []
    else
      var before, last := KeysOf(codes[..|codes| - 1], keyOf), keyOf[codes[|codes| - 1]];
      if last in before then before else before + [last]
  }

  lemma OnOneMore<R>(codes: seq<Code>, code: Code, keyOf: map<Code, R>, key: R)
    ensures On(codes + [code], keyOf, key)
         == On(codes, keyOf, key) + if code in keyOf && keyOf[code] == key then [code] else []
  {
    assert (codes + [code])[..|codes|] == codes;
  }

  lemma {:induction false} OnHolds<R>(codes: seq<Code>, keyOf: map<Code, R>, key: R, c: Code)
    ensures c in On(codes, keyOf, key) <==> c in codes && c in keyOf && keyOf[c] == key
  {
    if codes != [] {
      assert codes == codes[..|codes| - 1] + [codes[|codes| - 1]];
      OnHolds(codes[..|codes| - 1], keyOf, key, c);
    }
  }

  lemma {:induction false} KeysOfHas<R>(codes: seq<Code>, keyOf: map<Code, R>, key: R)
    requires Mapped(codes, keyOf)
    ensures key in KeysOf(codes, keyOf) <==> exists c :: c in codes && keyOf[c] == key
  {
    if codes != [] {
      var before, last := codes[..|codes| - 1], codes[|codes| - 1];
      assert codes == before + [last];
      KeysOfHas(before, keyOf, key);
    }
  }

  lemma {:induction false} KeysOfDistinct<R>(codes: seq<Code>, keyOf: map<Code, R>)
    requires Mapped(codes, keyOf)
    ensures forall i, j | 0 <= i < j < |KeysOf(codes, keyOf)| :: KeysOf(codes, keyOf)[i] != KeysOf(codes, keyOf)[j]
  {
    if codes != [] {
      KeysOfDistinct(codes[..|codes| - 1], keyOf);
    }
  }

  lemma KeysOfOneMore<R>(codes: seq<Code>, code: Code, keyOf: map<Code, R>)
    requires Mapped(codes, keyOf) && code in keyOf
    ensures Mapped(codes + [code], keyOf)
    ensures KeysOf(codes + [code], keyOf)
         == KeysOf(codes, keyOf) + if keyOf[code] in KeysOf(codes, keyOf) then [] else [keyOf[code]]
    ensures keyOf[code] !in KeysOf(codes, keyOf) ==> On(codes, keyOf, keyOf[code]) == []
  {
    assert (codes + [code])[..|codes|] == codes;
    var key := keyOf[code];
    if On(codes, keyOf, key) != [] {
      OnHolds(codes, keyOf, key, On(codes, keyOf, key)[0]);
      KeysOfHas(codes, keyOf, key);
    }
  }

  /** One group per key, keys in order. */
  ghost predicate Grouped<R>(codes: seq<Code>, keyOf: map<Code, R>, keys: seq<R>, groups: map<R, seq<Code>>) {
    && Mapped(codes, keyOf)
    && keys == KeysOf(codes, keyOf)
    && groups.Keys == SetOf(keys)
    && forall k | k in groups :: groups[k] == On(codes, keyOf, k)
  }

  lemma GroupAfterOneMore<R>(
    codes: seq<Code>, code: Code, keyOf: map<Code, R>, keys: seq<R>, groups: map<R, seq<Code>>, key: R)
    requires Grouped(codes, keyOf, keys, groups) && code in keyOf
    requires key in groups || key == keyOf[code]
    ensures On(codes + [code], keyOf, key)
         == (if key in groups then groups[key] else []) + if key == keyOf[code] then [code] else []
  {
    hide On, KeysOf;
    OnOneMore(codes, code, keyOf, key);
    KeysOfOneMore(codes, code, keyOf);
  }

  lemma AddToItsGroup<R>(codes: seq<Code>, code: Code, keyOf: map<Code, R>, keys: seq<R>, groups: map<R, seq<Code>>)
    requires Grouped(codes, keyOf, keys, groups) && code in keyOf
    ensures keyOf[code] in groups
            ==> Grouped(codes + [code], keyOf, keys, groups[keyOf[code] := groups[keyOf[code]] + [code]])
    ensures keyOf[code] !in groups
            ==> Grouped(codes + [code], keyOf, keys + [keyOf[code]], groups[keyOf[code] := [code]])
  {
    hide On, KeysOf;
    var key := keyOf[code];
    KeysOfOneMore(codes, code, keyOf);
    assert SetOf(keys + [key]) == SetOf(keys) + {key};
    forall k | k in groups || k == key
      ensures On(codes + [code], keyOf, k) == (if k in groups then groups[k] else []) + if k == key then [code] else []
    {
      GroupAfterOneMore(codes, code, keyOf, keys, groups, k);
    }
  }

  /** The grouping loop: it fails exactly on an unmapped code, and otherwise makes one group per key, in order. */
  method GroupByKey<R(==)>(
    codes: seq<Code>, keyOf: map<Code, R>) returns (ok: bool, keys: seq<R>, groups: map<R, seq<Code>>)
    ensures ok <==> Mapped(codes, keyOf)
    ensures ok ==> Grouped(codes, keyOf, keys, groups)
  {
    keys, groups := [], map[];
    for i := 0 to |codes|
      invariant Grouped(codes[..i], keyOf, keys, groups)
    {
      var code := codes[i];
      if code !in keyOf {
        assert code in codes;
        return false, keys, groups;
      }
      AddToItsGroup(codes[..i], code, keyOf, keys, groups);
      assert codes[..i + 1] == codes[..i] + [code];
      var key := keyOf[code];
      if key !in groups {
        keys, groups := keys + [key], groups[key := []];
      }
      groups := groups[key := groups[key] + [code]];
      assert [] + [code] == [code];
    }
    assert codes[..|codes|] == codes;
    ok := true;
  }

  /** The groups partition the codes: none is empty, and every code is in the group of its own key and in no other. */
  lemma GroupsPartition<R>(codes: seq<Code>, keyOf: map<Code, R>)
    requires Mapped(codes, keyOf)
    ensures forall k | k in KeysOf(codes, keyOf) :: On(codes, keyOf, k) != []
    ensures forall c, k | k in KeysOf(codes, keyOf) :: c in On(codes, keyOf, k) <==> c in codes && keyOf[c] == k
    ensures forall c | c in codes :: keyOf[c] in KeysOf(codes, keyOf)
    ensures forall i, j | 0 <= i < j < |KeysOf(codes, keyOf)| :: KeysOf(codes, keyOf)[i] != KeysOf(codes, keyOf)[j]
  {
    hide On, KeysOf;
    KeysOfDistinct(codes, keyOf);
    forall c, k | k in KeysOf(codes, keyOf) ensures c in On(codes, keyOf, k) <==> c in codes && keyOf[c] == k {
      OnHolds(codes, keyOf, k, c);
    }
    forall c | c in codes ensures keyOf[c] in KeysOf(codes, keyOf) {
      KeysOfHas(codes, keyOf, keyOf[c]);
    }
    forall k | k in KeysOf(codes, keyOf) ensures On(codes, keyOf, k) != [] {
      SomeCodeNeeds(codes, keyOf, k);
    }
  }

  lemma SomeCodeNeeds<R>(codes: seq<Code>, keyOf: map<Code, R>, key: R)
    requires Mapped(codes, keyOf) && key in KeysOf(codes, keyOf)
    ensures On(codes, keyOf, key) != []
  {
    KeysOfHas(codes, keyOf, key);
    var c :| c in codes && keyOf[c] == key;
    OnHolds(codes, keyOf, key, c);
  }

  /** Every code stored on a policy, soft-deleted rows included. */
  function Stored(rows: seq<Statement>, policy: nat): set<Code> {
    set row, code | row in rows && row.policy == policy && code in Held(row) :: code
  }

  lemma StoredAppend(rows: seq<Statement>, row: Statement, policy: nat)
    ensures Stored(rows + [row], policy) == Stored(rows, policy) + if row.policy == policy then Held(row) else {}
  {
  }

  /** A stored value that can be iterated. */
  predicate Iterable(column: Column) { column.Array? || column.Text? }

  predicate AllIterable(rows: seq<Statement>, policy: nat) {
    forall row | row in rows && row.policy == policy :: Iterable(row.actions)
  }

  /** The self-checks' reading of a policy: the union of its rows, failing on one that is not an array. */
  method Resolve(rows: seq<Statement>, policy: nat) returns (ok: bool, codes: set<Code>)
    ensures ok <==> AllIterable(rows, policy)
    ensures ok ==> codes == Stored(rows, policy)
  {
    codes := {};
    for i := 0 to |rows|
      invariant AllIterable(rows[..i], policy)
      invariant codes == Stored(rows[..i], policy)
    {
      assert rows[..i + 1] == rows[..i] + [rows[i]];
      if rows[i].policy == policy {
        if !Iterable(rows[i].actions) { return false, codes; }
        codes := codes + Held(rows[i]);
      }
    }
    assert rows[..|rows|] == rows;
    ok := true;
  }

  /** The rows written for `keys`, one each. */
  function Written(
    keys: seq<nat>, policy: nat, codes: seq<Code>, place: map<Code, nat>, id: nat): (rows: seq<Statement>)
    ensures |rows| == |keys|
    ensures forall i | 0 <= i < |keys| ::
              rows[i] == Statement(id + i, policy, keys[i], Array(On(codes, place, keys[i])), false)
  {
    if keys == [] then []
    else
      var before, last := keys[..|keys| - 1], keys[|keys| - 1];
      Written(before, policy, codes, place, id)
      + [Statement(id + |before|, policy, last, Array(On(codes, place, last)), false)]
  }

  /** The row lists exactly the codes that belong to its resource. */
  ghost predicate HoldsItsResource(row: Statement, codes: seq<Code>, place: map<Code, nat>) {
    row.actions.Array? && forall c :: c in Held(row) <==> c in codes && c in place && place[c] == row.resource
  }

  /** Every written row is a live row of the policy on a wanted resource, with exactly that resource's codes. */
  lemma WrittenRowsHoldTheirResource(
    keys: seq<nat>, policy: nat, codes: seq<Code>, place: map<Code, nat>, id: nat, row: Statement)
    requires row in Written(keys, policy, codes, place, id)
    ensures row.policy == policy && !row.deleted && row.resource in keys && HoldsItsResource(row, codes, place)
  {
    var i :| 0 <= i < |keys| && Written(keys, policy, codes, place, id)[i] == row;
    forall c ensures c in Held(row) <==> c in codes && c in place && place[c] == row.resource {
      OnHolds(codes, place, keys[i], c);
    }
  }

  lemma WrittenHold(keys: seq<nat>, policy: nat, codes: seq<Code>, place: map<Code, nat>, id: nat, c: Code)
    requires Mapped(codes, place)
    ensures (exists row :: row in Written(keys, policy, codes, place, id) && c in Held(row))
       <==> c in codes && place[c] in keys
  {
    var written := Written(keys, policy, codes, place, id);
    if c in codes && place[c] in keys {
      var i :| 0 <= i < |keys| && keys[i] == place[c];
      OnHolds(codes, place, keys[i], c);
      assert written[i] in written && c in Held(written[i]);
    }
    if row :| row in written && c in Held(row) {
      var i :| 0 <= i < |keys| && written[i] == row;
      OnHolds(codes, place, keys[i], c);
    }
  }

  /** What rows written on a policy add to it: exactly the codes of the written keys. */
  lemma WritingAdds(rows: seq<Statement>, keys: seq<nat>, policy: nat, codes: seq<Code>, place: map<Code, nat>, id: nat)
    requires Mapped(codes, place)
    ensures forall c :: c in Stored(rows + Written(keys, policy, codes, place, id), policy)
                        <==> c in Stored(rows, policy) || (c in codes && place[c] in keys)
    ensures forall c :: c in Granted(rows + Written(keys, policy, codes, place, id), policy)
                        <==> c in Granted(rows, policy) || (c in codes && place[c] in keys)
  {
    var written := Written(keys, policy, codes, place, id);
    var after := rows + written;
    assert forall row :: row in after <==> row in rows || row in written;
    assert forall row | row in written :: row.policy == policy && !row.deleted;
    forall c
      ensures c in Stored(after, policy) <==> c in Stored(rows, policy) || (c in codes && place[c] in keys)
      ensures c in Granted(after, policy) <==> c in Granted(rows, policy) || (c in codes && place[c] in keys)
    {
      WrittenHold(keys, policy, codes, place, id, c);
    }
  }

  /** Written rows take the next primary keys. */
  lemma WrittenKeepsKeys(table: Table, keys: seq<nat>, policy: nat, codes: seq<Code>, place: map<Code, nat>)
    requires InKeyOrder(table)
    ensures InKeyOrder(Table(table.rows + Written(keys, policy, codes, place, table.nextId), table.nextId + |keys|))
  {
    var written := Written(keys, policy, codes, place, table.nextId);
    assert forall i | 0 <= i < |table.rows| :: table.rows[i] in table.rows;
    forall row | row in table.rows + written ensures row.id < table.nextId + |keys| {
      if row !in table.rows {
        var i :| 0 <= i < |keys| && written[i] == row;
      }
    }
  }
}
