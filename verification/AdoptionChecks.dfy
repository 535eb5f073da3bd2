/**
 The drift check on an adopted table, and what its silence is worth: which
 tables an adoption leaves clean, and exactly when a clean table has a tenant
 column in every key two tenants could collide on.
 */
module AdoptionChecks {
  import opened Prelude
  import opened Catalogue
  import opened Adoption
  import opened AdoptionForward

  datatype Finding =
    | NoTenantColumn
    | WrongTenantType(found: string)
    | RlsNotForced
    | MissingPolicy(policy: string)
    | UniqueNotLedByTenant(name: Name)

  predicate LedByTenant(columns: seq<string>) {
    columns != [] && columns[0] == TENANT
  }

  function ColumnFindings(t: Table, expected: string): seq<Finding> {
    match ColumnType(t, TENANT)
    case None => [NoTenantColumn]
    case Some(found) => if found == expected then [] else [WrongTenantType(found)]
  }

  function RlsFindings(t: Table): seq<Finding> {
    if t.rlsEnabled && t.rlsForced then [] else [RlsNotForced]
  }

  function PolicyFindings(t: Table, policies: seq<string>): seq<Finding> {
    if policies == [] then []
    else (if policies[0] in t.policies then [] else [MissingPolicy(policies[0])]) + PolicyFindings(t, policies[1..])
  }

  function ConstraintFindings(us: seq<Unique>): seq<Finding> {
    if us == [] then []
    else (if LedByTenant(us[0].columns) then [] else [UniqueNotLedByTenant(us[0].name)]) + ConstraintFindings(us[1..])
  }

  /** The primary key is left alone, and an index behind a constraint is reported through it. */
  predicate IndexReported(x: IndexInfo, backed: set<Name>) {
    && !x.primary
    && !(x.constraint.Some? && x.constraint.value in backed)
    && !LedByTenant(x.columns)
  }

  function IndexFindings(xs: seq<IndexInfo>, backed: set<Name>): seq<Finding> {
    if xs == [] then []
    else
      (if IndexReported(xs[0], backed) then [UniqueNotLedByTenant(xs[0].name)] else [])
      + IndexFindings(xs[1..], backed)
  }

  function Backed(us: seq<Unique>): set<Name> {
    set u <- us :: u.name
  }

  function UniqueFindings(t: Table): seq<Finding> {
    ConstraintFindings(t.uniques) + IndexFindings(UniqueIndexes(t), Backed(t.uniques))
  }

  /** A table the search path does not resolve has nothing to check yet. */
  function TableFindings(tables: Tables, name: string, expected: string): seq<Finding> {
    if name !in tables then []
    else
      var t := tables[name];
      ColumnFindings(t, expected) + RlsFindings(t) + PolicyFindings(t, [ISOLATION, BYPASS]) + UniqueFindings(t)
  }

  lemma ConstraintStep(us: seq<Unique>, i: nat, errors: seq<Finding>)
    requires i < |us|
    ensures errors + ConstraintFindings(us[i..])
         == (if LedByTenant(us[i].columns) then errors else errors + [UniqueNotLedByTenant(us[i].name)])
            + ConstraintFindings(us[i + 1..])
  {
    assert us[i..][1..] == us[i + 1..];
    ConcatAssociates(errors, [UniqueNotLedByTenant(us[i].name)], ConstraintFindings(us[i + 1..]));
  }

  method CheckConstraints(us: seq<Unique>) returns (errors: seq<Finding>, backed: set<Name>)
    ensures errors == ConstraintFindings(us)
    ensures backed == Backed(us)
  {
    errors, backed := [], {};
    for i := 0 to |us|
      invariant backed == Backed(us[..i])
      invariant errors + ConstraintFindings(us[i..]) == ConstraintFindings(us)
    {
      assert us[..i + 1] == us[..i] + [us[i]];
      ConstraintStep(us, i, errors);
      backed := backed + {us[i].name};
      if !LedByTenant(us[i].columns) {
        errors := errors + [UniqueNotLedByTenant(us[i].name)];
      }
    }
    assert us[..|us|] == us;
  }

  method CheckIndexes(xs: seq<IndexInfo>, backed: set<Name>) returns (errors: seq<Finding>)
    ensures errors == IndexFindings(xs, backed)
  {
    errors := [];
    for i := 0 to |xs|
      invariant errors + IndexFindings(xs[i..], backed) == IndexFindings(xs, backed)
    {
      if IndexReported(xs[i], backed) {
        errors := errors + [UniqueNotLedByTenant(xs[i].name)];
      }
    }
  }

  method CheckUniqueForms(t: Table) returns (errors: seq<Finding>)
    ensures errors == UniqueFindings(t)
  {
    var constraints, backed := CheckConstraints(t.uniques);
    var indexes := CheckIndexes(UniqueIndexes(t), backed);
    errors := constraints + indexes;
  }

  lemma PolicyStep(t: Table, policies: seq<string>, i: nat, errors: seq<Finding>)
    requires i < |policies|
    ensures errors + PolicyFindings(t, policies[i..])
         == (if policies[i] in t.policies then errors else errors + [MissingPolicy(policies[i])])
            + PolicyFindings(t, policies[i + 1..])
  {
    assert policies[i..][1..] == policies[i + 1..];
    ConcatAssociates(errors, [MissingPolicy(policies[i])], PolicyFindings(t, policies[i + 1..]));
  }

  method CheckPolicies(t: Table, policies: seq<string>) returns (errors: seq<Finding>)
    ensures errors == PolicyFindings(t, policies)
  {
    errors := [];
    for i := 0 to |policies|
      invariant errors + PolicyFindings(t, policies[i..]) == PolicyFindings(t, policies)
    {
      PolicyStep(t, policies, i, errors);
      if policies[i] !in t.policies {
        errors := errors + [MissingPolicy(policies[i])];
      }
    }
  }

  method CheckTable(tables: Tables, name: string, expected: string) returns (errors: seq<Finding>)
    ensures errors == TableFindings(tables, name, expected)
  {
    errors := [];
    if name !in tables {
      return;
    }
    var t := tables[name];
    match ColumnType(t, TENANT) {
      case None => errors := errors + [NoTenantColumn];
      case Some(found) =>
        if found != expected {
          errors := errors + [WrongTenantType(found)];
        }
    }
    assert errors == ColumnFindings(t, expected);
    if !t.rlsEnabled || !t.rlsForced {
      errors := errors + [RlsNotForced];
    }
    assert errors == ColumnFindings(t, expected) + RlsFindings(t);
    var policies := CheckPolicies(t, [ISOLATION, BYPASS]);
    var uniques := CheckUniqueForms(t);
    errors := errors + policies + uniques;
  }

  // ---- What silence means ----

  lemma {:induction false} NoConstraintFindings(us: seq<Unique>)
    ensures ConstraintFindings(us) == [] <==> forall u :: u in us ==> LedByTenant(u.columns)
  {
    if us != [] {
      NoConstraintFindings(us[1..]);
    }
  }

  lemma {:induction false} NoIndexFindings(xs: seq<IndexInfo>, backed: set<Name>)
    ensures IndexFindings(xs, backed) == [] <==> forall x :: x in xs ==> !IndexReported(x, backed)
  {
    if xs != [] {
      NoIndexFindings(xs[1..], backed);
    }
  }

  /** A table on which the check reports nothing. */
  ghost predicate Clean(t: Table, expected: string) {
    && ColumnType(t, TENANT) == Some(expected)
    && t.rlsEnabled && t.rlsForced
    && ISOLATION in t.policies && BYPASS in t.policies
    && (forall u :: u in t.uniques ==> LedByTenant(u.columns))
    && (forall x :: x in t.indexes && !x.primary ==> LedByTenant(ReportedColumns(x.keys, x.included)))
  }

  lemma NoPolicyFindings(t: Table)
    ensures PolicyFindings(t, [ISOLATION, BYPASS]) == [] <==> ISOLATION in t.policies && BYPASS in t.policies
  {
    assert [ISOLATION, BYPASS][1..] == [BYPASS];
    assert PolicyFindings(t, [BYPASS])
        == (if BYPASS in t.policies then [] else [MissingPolicy(BYPASS)]) + PolicyFindings(t, []);
  }

  lemma NoBareFindings(t: Table)
    ensures IndexFindings(UniqueIndexes(t), Backed(t.uniques)) == []
       <==> forall x :: x in t.indexes && !x.primary ==> LedByTenant(ReportedColumns(x.keys, x.included))
  {
    var xs := UniqueIndexes(t);
    NoIndexFindings(xs, Backed(t.uniques));
    forall i | 0 <= i < |t.indexes|
      ensures xs[|t.uniques| + i] in xs && xs[|t.uniques| + i] == BareIndex(t.indexes[i])
    {
    }
    forall i | 0 <= i < |t.uniques| ensures !IndexReported(xs[i], Backed(t.uniques)) {
      assert t.uniques[i] in t.uniques;
    }
    forall x | x in xs && IndexReported(x, Backed(t.uniques)) ensures exists y :: y in t.indexes && BareIndex(y) == x {
      var i :| 0 <= i < |xs| && xs[i] == x;
      assert BareIndex(t.indexes[i - |t.uniques|]) == x;
    }
  }

  lemma SilenceIsClean(tables: Tables, name: string, expected: string)
    requires name in tables
    ensures TableFindings(tables, name, expected) == [] <==> Clean(tables[name], expected)
  {
    NoConstraintFindings(tables[name].uniques);
    NoPolicyFindings(tables[name]);
    NoBareFindings(tables[name]);
  }

  // ---- One finding for each fault ----

  function BadlyLed(): Unique -> bool {
    (u: Unique) => u.columns == [] || u.columns[0] != TENANT
  }

  /** A bare unique index, the primary key's aside, whose reported columns do not begin with the tenant column. */
  function BadlyLedIndex(): UniqueIndex -> bool {
    (x: UniqueIndex) =>
      var columns := ReportedColumns(x.keys, x.included);
      !x.primary && (columns == [] || columns[0] != TENANT)
  }

  function FindingFor(name: Name): (f: Finding) {
    UniqueNotLedByTenant(name)
  }

  function OfConstraints(us: seq<Unique>): seq<Finding> {
    seq(|us|, i requires 0 <= i < |us| => FindingFor(us[i].name))
  }

  function OfIndexes(xs: seq<UniqueIndex>): seq<Finding> {
    seq(|xs|, i requires 0 <= i < |xs| => FindingFor(xs[i].name))
  }

  lemma {:induction false} EachConstraintOnce(us: seq<Unique>)
    ensures ConstraintFindings(us) == OfConstraints(Filter(BadlyLed(), us))
  {
    if us != [] {
      EachConstraintOnce(us[1..]);
    }
  }

  lemma {:induction false} BackedAreSilent(xs: seq<IndexInfo>, ys: seq<IndexInfo>, backed: set<Name>)
    requires forall x :: x in xs ==> x.constraint.Some? && x.constraint.value in backed
    ensures IndexFindings(xs + ys, backed) == IndexFindings(ys, backed)
  {
    if xs == [] {
      assert xs + ys == ys;
    } else {
      assert (xs + ys)[1..] == xs[1..] + ys;
      BackedAreSilent(xs[1..], ys, backed);
    }
  }

  function BareIndexes(xs: seq<UniqueIndex>): seq<IndexInfo> {
    seq(|xs|, i requires 0 <= i < |xs| => BareIndex(xs[i]))
  }

  lemma {:induction false} EachBareIndexOnce(xs: seq<UniqueIndex>, backed: set<Name>)
    ensures IndexFindings(BareIndexes(xs), backed) == OfIndexes(Filter(BadlyLedIndex(), xs))
  {
    if xs != [] {
      EachBareIndexOnce(xs[1..], backed);
      assert BareIndexes(xs)[1..] == BareIndexes(xs[1..]);
    }
  }

  /** One finding for each constraint, and then for each bare index, that the tenant column does not lead. */
  lemma OneFindingEach(t: Table)
    ensures UniqueFindings(t)
         == OfConstraints(Filter(BadlyLed(), t.uniques)) + OfIndexes(Filter(BadlyLedIndex(), t.indexes))
  {
    EachConstraintOnce(t.uniques);
    var xs := UniqueIndexes(t);
    var backing := xs[..|t.uniques|];
    assert xs == backing + BareIndexes(t.indexes);
    forall x | x in backing ensures x.constraint.Some? && x.constraint.value in Backed(t.uniques) {
      var i :| 0 <= i < |t.uniques| && backing[i] == x;
      assert t.uniques[i] in t.uniques;
    }
    BackedAreSilent(backing, BareIndexes(t.indexes), Backed(t.uniques));
    EachBareIndexOnce(t.indexes, Backed(t.uniques));
  }

  /** Each kind of finding, and the state of the catalogue it reports. */
  lemma FoundExactlyWhen(tables: Tables, name: string, expected: string, f: Finding)
    ensures f in TableFindings(tables, name, expected) <==>
      && name in tables
      && var t := tables[name];
         match f
         case NoTenantColumn => TENANT !in t.columns
         case WrongTenantType(found) =>
           TENANT in t.columns && t.columns[TENANT].pgType == found && found != expected
         case RlsNotForced => !t.rlsEnabled || !t.rlsForced
         case MissingPolicy(p) => (p == ISOLATION || p == BYPASS) && p !in t.policies
         case UniqueNotLedByTenant(n) =>
           || (exists u :: u in t.uniques && BadlyLed()(u) && u.name == n)
           || (exists x :: x in t.indexes && BadlyLedIndex()(x) && x.name == n)
  {
    if name in tables {
      var t := tables[name];
      PoliciesMissing(t, f);
      OneFindingEach(t);
      var us, xs := Filter(BadlyLed(), t.uniques), Filter(BadlyLedIndex(), t.indexes);
      ByConstraint(us, f);
      ByIndex(xs, f);
    }
  }

  lemma PoliciesMissing(t: Table, f: Finding)
    ensures f in PolicyFindings(t, [ISOLATION, BYPASS])
       <==> f.MissingPolicy? && (f.policy == ISOLATION || f.policy == BYPASS) && f.policy !in t.policies
  {
    assert [ISOLATION, BYPASS][1..] == [BYPASS] && [BYPASS][1..] == [];
    assert PolicyFindings(t, [BYPASS])
        == (if BYPASS in t.policies then [] else [MissingPolicy(BYPASS)]) + PolicyFindings(t, []);
  }

  lemma ByConstraint(us: seq<Unique>, f: Finding)
    ensures f in OfConstraints(us) <==> f.UniqueNotLedByTenant? && exists u :: u in us && u.name == f.name
  {
    if f.UniqueNotLedByTenant? && exists u :: u in us && u.name == f.name {
      var u :| u in us && u.name == f.name;
      var i :| 0 <= i < |us| && us[i] == u;
      assert OfConstraints(us)[i] == f;
    }
  }

  lemma ByIndex(xs: seq<UniqueIndex>, f: Finding)
    ensures f in OfIndexes(xs) <==> f.UniqueNotLedByTenant? && exists x :: x in xs && x.name == f.name
  {
    if f.UniqueNotLedByTenant? && exists x :: x in xs && x.name == f.name {
      var x :| x in xs && x.name == f.name;
      var i :| 0 <= i < |xs| && xs[i] == x;
      assert OfIndexes(xs)[i] == f;
    }
  }

  // ---- Adoption leaves a table clean ----

  lemma {:induction false} NoBareIndexes(xs: seq<IndexInfo>)
    requires FirstIndexRefusal(xs).None?
    ensures forall x :: x in xs ==> x.primary || x.constraint.Some?
  {
    if xs != [] {
      NoBareIndexes(xs[1..]);
    }
  }

  lemma NoBareUniqueIndex(t: Table)
    requires FirstIndexRefusal(UniqueIndexes(t)).None?
    ensures forall x :: x in t.indexes ==> x.primary
  {
    NoBareIndexes(UniqueIndexes(t));
    forall x | x in t.indexes ensures x.primary {
      var i :| 0 <= i < |t.indexes| && t.indexes[i] == x;
      assert UniqueIndexes(t)[|t.uniques| + i] == BareIndex(x);
    }
  }

  /** Every table a call planned and completed is clean, whatever other sessions wrote meanwhile. */
  lemma PlannedTableIsClean(p: Project, tables: Tables, m: Model, pgType: string, backfill: Option<string>, s: Session,
                            rows: seq<Row>)
    requires ValidateTable(p, tables, m, pgType, backfill, s).Ok?
    requires ValidateTable(p, tables, m, pgType, backfill, s).value.Some?
    requires m.table in tables && DistinctNames(tables[m.table].uniques) && CurrentTenant(s) == Null
    requires
      var plan := ValidateTable(p, tables, m, pgType, backfill, s).value.value;
      AdoptTable(tables[m.table].(rows := rows), plan, BackfillValue(backfill), s).error.None?
    ensures
      var plan := ValidateTable(p, tables, m, pgType, backfill, s).value.value;
      var t' := AdoptTable(tables[m.table].(rows := rows), plan, BackfillValue(backfill), s).table;
      && t' == AdoptedTable(tables[m.table].(rows := rows), pgType, BackfillValue(backfill))
      && Clean(t', pgType)
      && (forall x :: x in t'.indexes ==> x.primary)
  {
    var t := tables[m.table];
    var plan := ValidateTable(p, tables, m, pgType, backfill, s).value.value;
    RewritesShape(t.uniques);
    AdoptedShape(t.(rows := rows), plan, BackfillValue(backfill), s);
    NoBareUniqueIndex(t);
    forall u | u in RewrittenAll(t.uniques) ensures LedByTenant(u.columns) {
      var i :| 0 <= i < |t.uniques| && RewrittenAll(t.uniques)[i] == u;
    }
  }

  // ---- What the check cannot see ----

  /** The tenant column is one of the keys the index compares. */
  predicate KeyedByTenant(x: UniqueIndex) {
    exists k <- x.keys :: k == Key(TENANT)
  }

  lemma {:induction false} ReportedHead(keys: seq<IndexKey>, included: seq<string>)
    ensures (exists k :: k in keys && k.Key?) ==>
      ReportedColumns(keys, included) != [] && Key(ReportedColumns(keys, included)[0]) in keys
    ensures (forall k :: k in keys ==> k.Expression?) ==> ReportedColumns(keys, included) == included
  {
    if keys != [] && !keys[0].Key? {
      ReportedHead(keys[1..], included);
    }
  }

  /**
   On a clean table every key other than the primary one contains the tenant
   column exactly when no bare unique index is made of expressions alone: such
   an index passes the check only by INCLUDE-ing the column, which it does not
   compare.
   */
  lemma CleanKeysHoldTenantExactlyWhen(t: Table, expected: string)
    requires Clean(t, expected)
    ensures (forall x :: x in t.indexes && !x.primary ==> KeyedByTenant(x))
       <==> (forall x :: x in t.indexes && !x.primary ==> exists k :: k in x.keys && k.Key?)
    ensures forall u :: u in t.uniques ==> TENANT in u.columns
  {
    forall x | x in t.indexes && !x.primary
      ensures KeyedByTenant(x) <==> exists k :: k in x.keys && k.Key?
    {
      ReportedHead(x.keys, x.included);
      if k :| k in x.keys && k.Key? {
        assert Key(TENANT) in x.keys;
      }
    }
  }

  /** UNIQUE (lower(email)) INCLUDE (tenant_id) is reported as led by the tenant column. */
  lemma ExpressionIndexEscapes()
    ensures
      var x := UniqueIndex(Given("email_ci"), [Expression("lower(email)")], [TENANT], None, false);
      && !IndexReported(BareIndex(x), {})
      && !KeyedByTenant(x)
  {
    var x := UniqueIndex(Given("email_ci"), [Expression("lower(email)")], [TENANT], None, false);
    ReportedHead(x.keys, x.included);
  }
}
