/** The three migrations that fold or retire action codes (1792800000000, 1792900000000, 1793100000000) and the
    derivation the repair migration (1793300000000) replaces them with. */
module CodeFolding {
  import opened Wrappers
  import opened PolicyStatements
  import opened ResourceGrouping

  /** `CODE_MERGE_MAP`. */
  function Merged(code: Code): Code {
    match code
    case VIEW_USER => USER_OVERVIEW
    case TARIFF_APPROVAL_VIEW => TARIFF_VIEW
    case TARIFF_APPROVAL_QUEUE => TARIFF_VIEW
    case TARIFF_APPROVAL_APPROVE => TARIFF_APPROVE
    case TARIFF_APPROVAL_REJECT => TARIFF_REJECT
    case BILLING_CYCLE_APPROVAL_VIEW => VIEW_BILLING_CYCLE
    case BILLING_CYCLE_APPROVAL_APPROVE => BILLING_CYCLE_APPROVE
    case BILLING_CYCLE_APPROVAL_REJECT => BILLING_CYCLE_REJECT
    case REGISTRATION_APPROVAL_VIEW => VIEW_REGISTRATION_REQUESTS
    case REGISTRATION_APPROVAL_APPROVE => APPROVE_REGISTRATION_REQUEST
    case REGISTRATION_APPROVAL_REJECT => REJECT_REGISTRATION_REQUEST
    case _ => code
  }

  /** `USER_OVERVIEW_CORRECTION_MAP`. */
  function Corrected(code: Code): Code { if code.USER_OVERVIEW? then VIEW_USER else code }

  /** `DEAD_ACTION_CODES`. */
  const DEAD: set<Code> := {CREATE_ATTRIBUTE, DELETE_ATTRIBUTE, EXPORT_BILLING_CYCLE}

  /** `NAV_ONLY_ACTION_CODES` and `RETIRED_ACTION_CODES`. */
  const NAV_ONLY: set<Code> := {VIEW_POLICY, CREATE_POLICY, EDIT_POLICY, DELETE_POLICY, VIEW_RESOURCE}
  const RETIRED: set<Code> := {METER_EDIT}

  datatype Migration = Merge | Correct | Strip

  /** What a migration turns one code into; stripped codes into nothing. */
  function Image(m: Migration, code: Code): Option<Code> {
    match m
    case Merge => Some(Merged(code))
    case Correct => Some(Corrected(code))
    case Strip => if code in DEAD then None else Some(code)
  }

  predicate Affected(m: Migration, code: Code) { Image(m, code) != Some(code) }

  function Images(m: Migration, codes: seq<Code>): seq<Code> {
    if codes == [] then []
    else Images(m, codes[..|codes| - 1]) + match Image(m, codes[|codes| - 1]) case Some(c) => [c] case None => []
  }

  function ImageSet(m: Migration, codes: set<Code>): set<Code> {
    set c | c in codes && Image(m, c).Some? :: Image(m, c).value
  }

  predicate AnyAffected(m: Migration, codes: seq<Code>) { exists c :: c in codes && Affected(m, c) }

  /** A statement's codes after the migration: untouched when none is affected, else the images, each once. */
  function FoldedList(m: Migration, codes: seq<Code>): seq<Code> {
    if AnyAffected(m, codes) then Distinct(Images(m, codes)) else codes
  }

  function FoldedRow(m: Migration, row: Statement): Statement {
    if AnyAffected(m, row.actions.Parse()) then row.(actions := Array(FoldedList(m, row.actions.Parse()))) else row
  }

  function FoldedRows(m: Migration, rows: seq<Statement>): (folded: seq<Statement>)
    ensures |folded| == |rows|
    ensures forall i | 0 <= i < |rows| :: folded[i] == FoldedRow(m, rows[i])
  {
    if rows == [] then [] else FoldedRows(m, rows[..|rows| - 1]) + [FoldedRow(m, rows[|rows| - 1])]
  }

  /** The `isActive` flags: the affected codes that exist are switched off, and VIEW_USER back on by the correction. */
  function FoldedFlags(m: Migration, active: map<Code, bool>): map<Code, bool> {
    map c | c in active :: if Affected(m, c) then false else if m.Correct? && c.VIEW_USER? then true else active[c]
  }

  // ---------------------------------------------------------------------------------------------------------------
  // What folding does to grants
  // ---------------------------------------------------------------------------------------------------------------

  lemma ImageOfUnion(m: Migration, left: set<Code>, right: set<Code>)
    ensures ImageSet(m, left + right) == ImageSet(m, left) + ImageSet(m, right)
  {
  }

  lemma ImageOfOne(m: Migration, code: Code)
    ensures ImageSet(m, {code}) == match Image(m, code) case Some(c) => {c} case None => {}
  {
    assert code in {code};
  }

  lemma {:induction false} ImagesAre(m: Migration, codes: seq<Code>)
    ensures SetOf(Images(m, codes)) == ImageSet(m, SetOf(codes))
  {
    if codes != [] {
      var before, last := codes[..|codes| - 1], codes[|codes| - 1];
      ImagesAre(m, before);
      ImageOfUnion(m, SetOf(before), {last});
      ImageOfOne(m, last);
      assert SetOf(codes) == SetOf(before) + {last} by { assert codes == before + [last]; }
      assert SetOf(Images(m, codes)) == SetOf(Images(m, before)) + ImageSet(m, {last});
    }
  }

  lemma FoldedListIsTheImage(m: Migration, codes: seq<Code>)
    ensures SetOf(FoldedList(m, codes)) == ImageSet(m, SetOf(codes))
  {
    ImagesAre(m, codes);
    DistinctKeepsAll(Images(m, codes));
    if !AnyAffected(m, codes) {
      assert forall c | c in SetOf(codes) :: Image(m, c) == Some(c);
    }
  }

  lemma FoldedRowHolds(m: Migration, row: Statement)
    ensures Held(FoldedRow(m, row)) == ImageSet(m, Held(row))
    ensures FoldedRow(m, row) == row.(actions := FoldedRow(m, row).actions)
  {
    FoldedListIsTheImage(m, row.actions.Parse());
  }

  lemma FoldedGain(m: Migration, row: Statement, policy: nat)
    ensures Gain(FoldedRow(m, row), policy) == ImageSet(m, Gain(row, policy))
  {
    FoldedRowHolds(m, row);
    assert ImageSet(m, {}) == {};
  }

  /** A migration replaces what each policy grants by exactly its image, never more and never less. */
  lemma {:induction false} FoldingMapsGrants(m: Migration, rows: seq<Statement>, policy: nat)
    ensures Granted(FoldedRows(m, rows), policy) == ImageSet(m, Granted(rows, policy))
  {
    if rows == [] {
      assert Granted(rows, policy) == {};
    } else {
      var before, last := rows[..|rows| - 1], rows[|rows| - 1];
      calc {
        Granted(FoldedRows(m, rows), policy);
        { GrantedAppend(FoldedRows(m, before), FoldedRow(m, last), policy); }
        Granted(FoldedRows(m, before), policy) + Gain(FoldedRow(m, last), policy);
        { FoldingMapsGrants(m, before, policy); FoldedGain(m, last, policy); }
        ImageSet(m, Granted(before, policy)) + ImageSet(m, Gain(last, policy));
        { ImageOfUnion(m, Granted(before, policy), Gain(last, policy)); }
        ImageSet(m, Granted(before, policy) + Gain(last, policy));
        { GrantedAppend(before, last, policy); assert rows == before + [last]; }
        ImageSet(m, Granted(rows, policy));
      }
    }
  }

  lemma NothingAffectedAfterwards(m: Migration, codes: seq<Code>)
    ensures !AnyAffected(m, FoldedList(m, codes))
  {
    FoldedListIsTheImage(m, codes);
    forall c | c in FoldedList(m, codes) ensures !Affected(m, c) {
      assert c in ImageSet(m, SetOf(codes));
    }
  }

  lemma FoldingARowTwice(m: Migration, row: Statement)
    ensures FoldedRow(m, FoldedRow(m, row)) == FoldedRow(m, row)
  {
    NothingAffectedAfterwards(m, row.actions.Parse());
  }

  lemma FoldingFlagsTwice(m: Migration, active: map<Code, bool>)
    ensures FoldedFlags(m, FoldedFlags(m, active)) == FoldedFlags(m, active)
  {
  }

  /** Each migration is idempotent on any table and any catalogue of flags. */
  lemma FoldingIdempotent(m: Migration, rows: seq<Statement>, active: map<Code, bool>)
    ensures FoldedRows(m, FoldedRows(m, rows)) == FoldedRows(m, rows)
    ensures FoldedFlags(m, FoldedFlags(m, active)) == FoldedFlags(m, active)
  {
    FoldingFlagsTwice(m, active);
    var once := FoldedRows(m, rows);
    forall i | 0 <= i < |rows| ensures FoldedRow(m, once[i]) == once[i] {
      FoldingARowTwice(m, rows[i]);
    }
  }

  // ---------------------------------------------------------------------------------------------------------------
  // The three in sequence, and the repair
  // ---------------------------------------------------------------------------------------------------------------

  function Replayed(codes: set<Code>): set<Code> { ImageSet(Strip, ImageSet(Correct, ImageSet(Merge, codes))) }

  /** The repair's filter-then-fold pipeline. */
  function RepairedCodes(codes: set<Code>): set<Code> {
    set c | c in codes && c !in RETIRED && c !in DEAD && c !in NAV_ONLY :: Corrected(Merged(c))
  }

  function ReplayedRows(rows: seq<Statement>): seq<Statement> {
    FoldedRows(Strip, FoldedRows(Correct, FoldedRows(Merge, rows)))
  }

  /** Folding neither makes a dead code nor moves one. */
  lemma DeadCodesAreFixed(code: Code)
    ensures Corrected(Merged(code)) in DEAD <==> code in DEAD
  {
  }

  /** The three passes over a set of codes are one pass that drops the dead codes and folds the rest. */
  lemma ReplayedInOnePass(codes: set<Code>)
    ensures Replayed(codes) == set c | c in codes && c !in DEAD :: Corrected(Merged(c))
  {
    var merged := ImageSet(Merge, codes);
    var corrected := ImageSet(Correct, merged);
    forall c | c in codes ensures Corrected(Merged(c)) in corrected {
      assert Image(Merge, c) == Some(Merged(c)) && Merged(c) in merged;
      assert Image(Correct, Merged(c)) == Some(Corrected(Merged(c)));
    }
    forall x | x in corrected ensures exists c | c in codes :: x == Corrected(Merged(c)) {
      var a :| a in merged && Image(Correct, a) == Some(x);
      var c :| c in codes && Image(Merge, c) == Some(a);
      assert x == Corrected(Merged(c));
    }
    forall c ensures Corrected(Merged(c)) in DEAD <==> c in DEAD {
      DeadCodesAreFixed(c);
    }
    assert forall x :: x in ImageSet(Strip, corrected) <==> x in corrected && x !in DEAD;
  }

  /** Repair equals replay: filtering first and folding afterwards derives the same codes as running the three
      migrations in timestamp order over what is left once METER_EDIT and the navigation-only codes are dropped. */
  lemma RepairEqualsReplay(codes: set<Code>)
    ensures RepairedCodes(codes) == Replayed(codes - RETIRED - NAV_ONLY)
  {
    ReplayedInOnePass(codes - RETIRED - NAV_ONLY);
  }

  /** So a policy whose statements went through the three migrations grants what the repair derives from the same
      codes. */
  lemma RepairMatchesMigratedPolicies(rows: seq<Statement>, policy: nat, codes: set<Code>)
    requires Granted(rows, policy) == codes - RETIRED - NAV_ONLY
    ensures Granted(ReplayedRows(rows), policy) == RepairedCodes(codes)
  {
    FoldingMapsGrants(Merge, rows, policy);
    FoldingMapsGrants(Correct, FoldedRows(Merge, rows), policy);
    FoldingMapsGrants(Strip, FoldedRows(Correct, FoldedRows(Merge, rows)), policy);
    RepairEqualsReplay(codes);
  }

  /** The composed map is idempotent, so is the whole sequence, and repairing repaired codes changes nothing. */
  lemma SequenceIdempotent(codes: set<Code>)
    ensures forall c: Code :: Corrected(Merged(Corrected(Merged(c)))) == Corrected(Merged(c))
    ensures Replayed(Replayed(codes)) == Replayed(codes)
    ensures RepairedCodes(RepairedCodes(codes)) == RepairedCodes(codes)
  {
    forall c: Code ensures Corrected(Merged(Corrected(Merged(c)))) == Corrected(Merged(c)) {
      FoldingACodeTwice(c);
    }
    forall x | x in Replayed(codes) ensures x !in DEAD && Corrected(Merged(x)) == x {
      ReplayedIsSettled(codes, x);
    }
    SettledStays(Replayed(codes));
    RepairingTwice(codes);
  }

  /** Folding yields no code the repair's filter drops unless it was given one. */
  lemma FoldingKeepsRepresented(code: Code)
    requires code !in RETIRED && code !in DEAD && code !in NAV_ONLY
    ensures Corrected(Merged(code)) !in RETIRED && Corrected(Merged(code)) !in DEAD
            && Corrected(Merged(code)) !in NAV_ONLY
  {
  }

  lemma RepairingTwice(codes: set<Code>)
    ensures RepairedCodes(RepairedCodes(codes)) == RepairedCodes(codes)
  {
    var once := RepairedCodes(codes);
    forall x | x in once ensures x !in RETIRED && x !in DEAD && x !in NAV_ONLY && Corrected(Merged(x)) == x {
      var c :| c in codes && c !in RETIRED && c !in DEAD && c !in NAV_ONLY && x == Corrected(Merged(c));
      FoldingKeepsRepresented(c);
      FoldingACodeTwice(c);
    }
  }

  lemma FoldingACodeTwice(code: Code)
    ensures Corrected(Merged(Corrected(Merged(code)))) == Corrected(Merged(code))
  {
  }

  lemma ReplayedIsSettled(codes: set<Code>, x: Code)
    requires x in Replayed(codes)
    ensures x !in DEAD && Corrected(Merged(x)) == x
  {
    ReplayedInOnePass(codes);
    var c :| c in codes && c !in DEAD && x == Corrected(Merged(c));
    DeadCodesAreFixed(c);
    FoldingACodeTwice(c);
  }

  lemma SettledStays(codes: set<Code>)
    requires forall x | x in codes :: x !in DEAD && Corrected(Merged(x)) == x
    ensures Replayed(codes) == codes
  {
    forall x | x in codes ensures x in Replayed(codes) {
      assert Merged(x) in ImageSet(Merge, codes) by { assert Image(Merge, x).value == Merged(x); }
      assert x in ImageSet(Correct, ImageSet(Merge, codes)) by { assert Image(Correct, Merged(x)).value == x; }
      assert Image(Strip, x) == Some(x);
    }
    forall x | x in Replayed(codes) ensures x in codes {
      var b :| b in ImageSet(Correct, ImageSet(Merge, codes)) && Image(Strip, b) == Some(x);
      var a :| a in ImageSet(Merge, codes) && Image(Correct, a) == Some(b);
      var c :| c in codes && Image(Merge, c) == Some(a);
      assert Corrected(Merged(c)) == b;
    }
  }

  /** The first migration alone is not safe to run again once the correction has run: it takes VIEW_USER back to the
      retired USER_OVERVIEW, exactly where a policy grants VIEW_USER. */
  lemma MergingAgainUndoesTheCorrectionIff(codes: set<Code>)
    ensures ImageSet(Merge, Replayed(codes)) != Replayed(codes) <==> VIEW_USER in Replayed(codes)
    ensures VIEW_USER in Replayed(codes) ==> USER_OVERVIEW in ImageSet(Merge, Replayed(codes))
  {
    var settled := Replayed(codes);
    forall x | x in settled ensures x !in DEAD && Corrected(Merged(x)) == x {
      ReplayedIsSettled(codes, x);
    }
    if VIEW_USER in settled {
      assert Image(Merge, VIEW_USER).value == USER_OVERVIEW;
      assert USER_OVERVIEW !in settled by { assert Corrected(Merged(USER_OVERVIEW)) != USER_OVERVIEW; }
    } else {
      forall x | x in settled ensures Merged(x) == x {
      }
      assert forall x | x in settled :: Image(Merge, x) == Some(x);
    }
  }

  /** So on any table: a policy that may view users after the three migrations may no longer after the merge runs
      once more. */
  lemma MergingTheTableAgain(rows: seq<Statement>, policy: nat)
    requires VIEW_USER in Granted(ReplayedRows(rows), policy)
    ensures var again := Granted(FoldedRows(Merge, ReplayedRows(rows)), policy);
            VIEW_USER !in again && USER_OVERVIEW in again
  {
    hide FoldedRows, ReplayedRows, Granted;
    FoldingMapsGrants(Merge, ReplayedRows(rows), policy);
    assert Image(Merge, VIEW_USER) == Some(USER_OVERVIEW);
  }

  /** One statement that grants VIEW_USER is such a table. */
  lemma ViewUserIsLostByMergingAgain(policy: nat, resource: nat)
    ensures var rows := [Statement(1, policy, resource, Array([VIEW_USER]), false)];
            && Granted(ReplayedRows(rows), policy) == {VIEW_USER}
            && VIEW_USER !in Granted(FoldedRows(Merge, ReplayedRows(rows)), policy)
  {
    hide FoldedRows;
    var rows := [Statement(1, policy, resource, Array([VIEW_USER]), false)];
    assert rows[0] in rows && Held(rows[0]) == {VIEW_USER} && Granted(rows, policy) == {VIEW_USER};
    assert RepairedCodes({VIEW_USER}) == {VIEW_USER} by {
      assert Corrected(Merged(VIEW_USER)) == VIEW_USER && VIEW_USER in {VIEW_USER};
    }
    assert {VIEW_USER} - RETIRED - NAV_ONLY == {VIEW_USER};
    RepairMatchesMigratedPolicies(rows, policy, {VIEW_USER});
    MergingTheTableAgain(rows, policy);
  }

  // ---------------------------------------------------------------------------------------------------------------
  // The same, code by code
  // ---------------------------------------------------------------------------------------------------------------

  lemma MergeByCode(codes: set<Code>, c: Code)
    ensures c in ImageSet(Merge, codes)
       <==> match c
            case USER_OVERVIEW => USER_OVERVIEW in codes || VIEW_USER in codes
            case TARIFF_VIEW => TARIFF_VIEW in codes || TARIFF_APPROVAL_VIEW in codes || TARIFF_APPROVAL_QUEUE in codes
            case TARIFF_APPROVE => TARIFF_APPROVE in codes || TARIFF_APPROVAL_APPROVE in codes
            case TARIFF_REJECT => TARIFF_REJECT in codes || TARIFF_APPROVAL_REJECT in codes
            case VIEW_BILLING_CYCLE => VIEW_BILLING_CYCLE in codes || BILLING_CYCLE_APPROVAL_VIEW in codes
            case BILLING_CYCLE_APPROVE => BILLING_CYCLE_APPROVE in codes || BILLING_CYCLE_APPROVAL_APPROVE in codes
            case BILLING_CYCLE_REJECT => BILLING_CYCLE_REJECT in codes || BILLING_CYCLE_APPROVAL_REJECT in codes
            case VIEW_REGISTRATION_REQUESTS =>
              VIEW_REGISTRATION_REQUESTS in codes || REGISTRATION_APPROVAL_VIEW in codes
            case APPROVE_REGISTRATION_REQUEST =>
              APPROVE_REGISTRATION_REQUEST in codes || REGISTRATION_APPROVAL_APPROVE in codes
            case REJECT_REGISTRATION_REQUEST =>
              REJECT_REGISTRATION_REQUEST in codes || REGISTRATION_APPROVAL_REJECT in codes
            case VIEW_USER | TARIFF_APPROVAL_VIEW | TARIFF_APPROVAL_QUEUE | TARIFF_APPROVAL_APPROVE
              | TARIFF_APPROVAL_REJECT | BILLING_CYCLE_APPROVAL_VIEW | BILLING_CYCLE_APPROVAL_APPROVE
              | BILLING_CYCLE_APPROVAL_REJECT | REGISTRATION_APPROVAL_VIEW | REGISTRATION_APPROVAL_APPROVE
              | REGISTRATION_APPROVAL_REJECT => false
            case _ => c in codes
  {
    forall b | b in codes ensures Merged(b) in ImageSet(Merge, codes) {
      assert Image(Merge, b) == Some(Merged(b));
    }
  }

  lemma CorrectionByCode(codes: set<Code>, c: Code)
    ensures c in ImageSet(Correct, codes)
       <==> match c
            case VIEW_USER => VIEW_USER in codes || USER_OVERVIEW in codes
            case USER_OVERVIEW => false
            case _ => c in codes
  {
    forall b | b in codes ensures Corrected(b) in ImageSet(Correct, codes) {
      assert Image(Correct, b) == Some(Corrected(b));
    }
  }

  lemma StripByCode(codes: set<Code>, c: Code)
    ensures c in ImageSet(Strip, codes)
       <==> match c
            case CREATE_ATTRIBUTE | DELETE_ATTRIBUTE | EXPORT_BILLING_CYCLE => false
            case _ => c in codes
  {
    assert c !in DEAD ==> Image(Strip, c) == Some(c);
  }

  /** What a policy grants after the three migrations, code by code. */
  lemma GrantsAfterTheThree(rows: seq<Statement>, policy: nat, c: Code)
    ensures var before := Granted(rows, policy);
            var granted := c in Granted(ReplayedRows(rows), policy);
            granted == match c
                       case VIEW_USER => VIEW_USER in before || USER_OVERVIEW in before
                       case TARIFF_VIEW =>
                         TARIFF_VIEW in before || TARIFF_APPROVAL_VIEW in before || TARIFF_APPROVAL_QUEUE in before
                       case TARIFF_APPROVE => TARIFF_APPROVE in before || TARIFF_APPROVAL_APPROVE in before
                       case TARIFF_REJECT => TARIFF_REJECT in before || TARIFF_APPROVAL_REJECT in before
                       case VIEW_BILLING_CYCLE => VIEW_BILLING_CYCLE in before || BILLING_CYCLE_APPROVAL_VIEW in before
                       case BILLING_CYCLE_APPROVE =>
                         BILLING_CYCLE_APPROVE in before || BILLING_CYCLE_APPROVAL_APPROVE in before
                       case BILLING_CYCLE_REJECT =>
                         BILLING_CYCLE_REJECT in before || BILLING_CYCLE_APPROVAL_REJECT in before
                       case VIEW_REGISTRATION_REQUESTS =>
                         VIEW_REGISTRATION_REQUESTS in before || REGISTRATION_APPROVAL_VIEW in before
                       case APPROVE_REGISTRATION_REQUEST =>
                         APPROVE_REGISTRATION_REQUEST in before || REGISTRATION_APPROVAL_APPROVE in before
                       case REJECT_REGISTRATION_REQUEST =>
                         REJECT_REGISTRATION_REQUEST in before || REGISTRATION_APPROVAL_REJECT in before
                       case USER_OVERVIEW | TARIFF_APPROVAL_VIEW | TARIFF_APPROVAL_QUEUE | TARIFF_APPROVAL_APPROVE
                         | TARIFF_APPROVAL_REJECT | BILLING_CYCLE_APPROVAL_VIEW | BILLING_CYCLE_APPROVAL_APPROVE
                         | BILLING_CYCLE_APPROVAL_REJECT | REGISTRATION_APPROVAL_VIEW | REGISTRATION_APPROVAL_APPROVE
                         | REGISTRATION_APPROVAL_REJECT => false
                       case CREATE_ATTRIBUTE | DELETE_ATTRIBUTE | EXPORT_BILLING_CYCLE => false
                       case _ => c in before
  {
    hide FoldedRows, Granted, ImageSet;
    var merged, before := FoldedRows(Merge, rows), Granted(rows, policy);
    var corrected := FoldedRows(Correct, merged);
    FoldingMapsGrants(Merge, rows, policy);
    FoldingMapsGrants(Correct, merged, policy);
    FoldingMapsGrants(Strip, corrected, policy);
    StripByCode(Granted(corrected, policy), c);
    CorrectionByCode(Granted(merged, policy), c);
    MergeByCode(before, c);
    MergeByCode(before, USER_OVERVIEW);
  }

  /** What the repair derives from a role's codes, code by code: the same, without METER_EDIT and the codes that only
      gate navigation. */
  lemma RepairedByCode(codes: set<Code>, c: Code)
    ensures c in RepairedCodes(codes)
       <==> match c
            case VIEW_USER => VIEW_USER in codes || USER_OVERVIEW in codes
            case TARIFF_VIEW => TARIFF_VIEW in codes || TARIFF_APPROVAL_VIEW in codes || TARIFF_APPROVAL_QUEUE in codes
            case TARIFF_APPROVE => TARIFF_APPROVE in codes || TARIFF_APPROVAL_APPROVE in codes
            case TARIFF_REJECT => TARIFF_REJECT in codes || TARIFF_APPROVAL_REJECT in codes
            case VIEW_BILLING_CYCLE => VIEW_BILLING_CYCLE in codes || BILLING_CYCLE_APPROVAL_VIEW in codes
            case BILLING_CYCLE_APPROVE => BILLING_CYCLE_APPROVE in codes || BILLING_CYCLE_APPROVAL_APPROVE in codes
            case BILLING_CYCLE_REJECT => BILLING_CYCLE_REJECT in codes || BILLING_CYCLE_APPROVAL_REJECT in codes
            case VIEW_REGISTRATION_REQUESTS =>
              VIEW_REGISTRATION_REQUESTS in codes || REGISTRATION_APPROVAL_VIEW in codes
            case APPROVE_REGISTRATION_REQUEST =>
              APPROVE_REGISTRATION_REQUEST in codes || REGISTRATION_APPROVAL_APPROVE in codes
            case REJECT_REGISTRATION_REQUEST =>
              REJECT_REGISTRATION_REQUEST in codes || REGISTRATION_APPROVAL_REJECT in codes
            case USER_OVERVIEW | TARIFF_APPROVAL_VIEW | TARIFF_APPROVAL_QUEUE | TARIFF_APPROVAL_APPROVE
              | TARIFF_APPROVAL_REJECT | BILLING_CYCLE_APPROVAL_VIEW | BILLING_CYCLE_APPROVAL_APPROVE
              | BILLING_CYCLE_APPROVAL_REJECT | REGISTRATION_APPROVAL_VIEW | REGISTRATION_APPROVAL_APPROVE
              | REGISTRATION_APPROVAL_REJECT => false
            case CREATE_ATTRIBUTE | DELETE_ATTRIBUTE | EXPORT_BILLING_CYCLE | METER_EDIT => false
            case VIEW_POLICY | CREATE_POLICY | EDIT_POLICY | DELETE_POLICY | VIEW_RESOURCE => false
            case _ => c in codes
  {
    hide ImageSet, RepairedCodes;
    var represented := codes - RETIRED - NAV_ONLY;
    RepairEqualsReplay(codes);
    StripByCode(ImageSet(Correct, ImageSet(Merge, represented)), c);
    CorrectionByCode(ImageSet(Merge, represented), c);
    MergeByCode(represented, c);
    MergeByCode(represented, USER_OVERVIEW);
  }

  /** Which codes each migration leaves selectable: it switches off the codes it retires, the correction switches
      VIEW_USER back on, and no other flag changes. */
  lemma FlagsByCode(m: Migration, active: map<Code, bool>, c: Code)
    requires c in active
    ensures c in FoldedFlags(m, active)
    ensures FoldedFlags(m, active).Keys == active.Keys
    ensures FoldedFlags(m, active)[c]
         == match m
            case Merge =>
              (match c
               case VIEW_USER | TARIFF_APPROVAL_VIEW | TARIFF_APPROVAL_QUEUE | TARIFF_APPROVAL_APPROVE
                 | TARIFF_APPROVAL_REJECT | BILLING_CYCLE_APPROVAL_VIEW | BILLING_CYCLE_APPROVAL_APPROVE
                 | BILLING_CYCLE_APPROVAL_REJECT | REGISTRATION_APPROVAL_VIEW | REGISTRATION_APPROVAL_APPROVE
                 | REGISTRATION_APPROVAL_REJECT => false
               case _ => active[c])
            case Correct => (match c case VIEW_USER => true case USER_OVERVIEW => false case _ => active[c])
            case Strip =>
              (match c case CREATE_ATTRIBUTE | DELETE_ATTRIBUTE | EXPORT_BILLING_CYCLE => false case _ => active[c])
  {
  }

  /** A migration changes only the codes of a statement, soft-deleted or not, each to its image. It leaves a statement
      without an affected code as it is stored, and lists the codes of any other once, where they first occur. */
  lemma FoldedRowsStay(m: Migration, rows: seq<Statement>, i: nat)
    requires i < |rows|
    ensures var row, folded := rows[i], FoldedRows(m, rows)[i];
            && folded == row.(actions := folded.actions)
            && Held(folded) == ImageSet(m, Held(row))
            && ((forall c | c in Held(row) :: Image(m, c) == Some(c)) ==> folded == row)
            && ((exists c :: c in Held(row) && Image(m, c) != Some(c))
                ==> folded.actions.Array? && InOrderOf(folded.actions.codes, Images(m, row.actions.Parse())))
  {
    hide InOrderOf, ImageSet;
    DistinctKeepsOrder(Images(m, rows[i].actions.Parse()));
    FoldedRowHolds(m, rows[i]);
    if c :| c in Held(rows[i]) && Image(m, c) != Some(c) {
      assert Affected(m, c) && c in rows[i].actions.Parse();
    }
  }

  // ---------------------------------------------------------------------------------------------------------------
  // The migrations as they run
  // ---------------------------------------------------------------------------------------------------------------

  /** The `actions` catalogue and the `policy_statements` table. */
  class CodeDatabase {
    var active: map<Code, bool>
    var rows: seq<Statement>

    constructor (active: map<Code, bool>, rows: seq<Statement>)
      ensures this.active == active && this.rows == rows
    {
      this.active, this.rows := active, rows;
    }

    /** `up` of each of the three. It fails, rolling back, exactly when some statement's value is not an array; the
        check of each rewritten row against its expected codes is an assertion here and cannot fire. */
    method Up(m: Migration) returns (done: bool)
      modifies this
      ensures done <==> forall row | row in old(rows) :: Iterable(row.actions)
      ensures rows == if done then FoldedRows(m, old(rows)) else old(rows)
      ensures active == if done then FoldedFlags(m, old(active)) else old(active)
    {
      var savedRows, savedActive := rows, active;
      SwitchFlags(m);
      for i := 0 to |rows|
        invariant |rows| == |savedRows|
        invariant active == FoldedFlags(m, savedActive)
        invariant forall j | 0 <= j < |rows| :: rows[j] == if j < i then FoldedRow(m, savedRows[j]) else savedRows[j]
        invariant forall j | 0 <= j < i :: Iterable(savedRows[j].actions)
      {
        var row := rows[i];
        if !Iterable(row.actions) {
          rows, active := savedRows, savedActive;
          return false;
        }
        var before := row.actions.Parse();
        if AnyAffected(m, before) {
          var after := Distinct(Images(m, before));
          rows := rows[i := row.(actions := Array(after))];
          FoldedListIsTheImage(m, before);
          assert SetOf(rows[i].actions.Parse()) == ImageSet(m, SetOf(before));
        }
      }
      done := true;
    }

    method SwitchFlags(m: Migration)
      modifies this`active
      ensures active == FoldedFlags(m, old(active))
    {
      var left := active.Keys;
      while left != {}
        invariant left <= old(active).Keys && active.Keys == old(active).Keys
        invariant forall c | c in active ::
                    active[c] == if c in left then old(active)[c] else FoldedFlags(m, old(active))[c]
        decreases left
      {
        var code :| code in left;
        if Affected(m, code) {
          active := active[code := false];
        } else if m.Correct? && code.VIEW_USER? {
          active := active[code := true];
        }
        left := left - {code};
      }
    }
  }
}
