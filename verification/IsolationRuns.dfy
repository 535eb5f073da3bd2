/**
 Non-interference over whole runs: tenants working on the same adopted tables,
 their statements interleaved in any way, each see what they would see alone.
 */
module IsolationRuns {
  import opened Prelude
  import Connections
  import opened Catalogue
  import opened Adoption
  import opened AdoptionForward
  import opened AdoptionChecks
  import opened AdoptionCalls
  import opened Isolation

  /** One statement, and the connection it runs on. */
  datatype Item = Item(session: Session, table: string, stmt: Statement)

  function Step(db: Tables, mean: Meaning, i: Item): (Tables, Outcome) {
    if i.table !in db then (db, NoTable)
    else
      var r := Execute(db[i.table], mean, i.session, i.stmt);
      (db[i.table := r.0], r.1)
  }

  /** Every table as the tenant's statements find it. */
  function OwnAll(db: Tables, v: Value): Tables {
    map n | n in db :: Own(db[n], v)
  }

  ghost predicate AllIsolated(db: Tables) {
    forall n :: n in db ==> Isolated(db[n])
  }

  ghost predicate SameOthers(db: Tables, db': Tables, v: Value) {
    db.Keys == db'.Keys && forall n :: n in db ==> Others(db[n], v) == Others(db'[n], v)
  }

  lemma StepSeesOwn(db: Tables, mean: Meaning, i: Item, v: Value)
    requires AllIsolated(db) && Scoped(i.session, v)
    ensures Step(db, mean, i).1 == Step(OwnAll(db, v), mean, i).1
    ensures OwnAll(Step(db, mean, i).0, v) == Step(OwnAll(db, v), mean, i).0
    ensures SameOthers(db, Step(db, mean, i).0, v)
    ensures AllIsolated(Step(db, mean, i).0)
  {
    if i.table in db {
      OwnTableOnly(db[i.table], mean, i.session, v, i.stmt);
    }
  }

  lemma OtherStatementLeavesOwn(t: Table, mean: Meaning, s: Session, stmt: Statement, v: Value, w: Value)
    requires Isolated(t) && Scoped(s, w) && v != w
    ensures Own(Execute(t, mean, s, stmt).0, v) == Own(t, v)
  {
    var t' := Execute(t, mean, s, stmt).0;
    OwnTableOnly(t, mean, s, w, stmt);
    FilterWithin(Mine(v), NotMine(w), t.rows);
    FilterWithin(Mine(v), NotMine(w), t'.rows);
    RulesStay(t, mean, s, stmt);
  }

  /** Another tenant's statement leaves the tenant's part of every table alone. */
  lemma OthersLeaveOwn(db: Tables, mean: Meaning, i: Item, v: Value, w: Value)
    requires AllIsolated(db) && Scoped(i.session, w) && v != w
    ensures OwnAll(Step(db, mean, i).0, v) == OwnAll(db, v)
  {
    if i.table in db {
      OtherStatementLeavesOwn(db[i.table], mean, i.session, i.stmt, v, w);
    }
  }

  lemma UnsetLeavesAll(db: Tables, mean: Meaning, i: Item)
    requires AllIsolated(db) && Unset(i.session)
    ensures Step(db, mean, i).0 == db
  {
    if i.table in db {
      UnsetChangesNothing(db[i.table], mean, i.session, i.stmt);
    }
  }

  lemma RulesStay(t: Table, mean: Meaning, s: Session, stmt: Statement)
    ensures Execute(t, mean, s, stmt).0 == t.(rows := Execute(t, mean, s, stmt).0.rows)
  {
  }

  // ---- Runs ----

  /** A run over the shared tables, and what the items of tenant v returned in it. */
  function Shared(db: Tables, mean: Meaning, items: seq<Item>, v: Value): (Tables, seq<Outcome>) {
    if items == [] then (db, [])
    else
      var r := Step(db, mean, items[0]);
      var rest := Shared(r.0, mean, items[1..], v);
      (rest.0, (if Scoped(items[0].session, v) then [r.1] else []) + rest.1)
  }

  /** The items of tenant v alone. */
  function Alone(db: Tables, mean: Meaning, items: seq<Item>, v: Value): (Tables, seq<Outcome>) {
    if items == [] then (db, [])
    else if !Scoped(items[0].session, v) then Alone(db, mean, items[1..], v)
    else
      var r := Step(db, mean, items[0]);
      var rest := Alone(r.0, mean, items[1..], v);
      (rest.0, [r.1] + rest.1)
  }

  /** Every item runs under some tenant or none, with the admin flag off and a role subject to RLS. */
  ghost predicate TenantItems(items: seq<Item>) {
    forall i :: i in items ==> Scoped(i.session, CurrentTenant(i.session)) || Unset(i.session)
  }

  /**
   Non-interference. In any interleaving of any tenants' statements, and of
   statements under no tenant, tenant v gets the results, the errors and the
   rows it would have got alone, on tables that never held anyone else's.
   */
  lemma {:induction false} SharedIsAlone(db: Tables, mean: Meaning, items: seq<Item>, v: Value)
    requires AllIsolated(db) && TenantItems(items)
    ensures Shared(db, mean, items, v).1 == Alone(OwnAll(db, v), mean, items, v).1
    ensures OwnAll(Shared(db, mean, items, v).0, v) == Alone(OwnAll(db, v), mean, items, v).0
    decreases |items|
  {
    if items != [] {
      var i := items[0];
      var w := CurrentTenant(i.session);
      assert i in items;
      if Unset(i.session) {
        UnsetLeavesAll(db, mean, i);
      } else {
        StepSeesOwn(db, mean, i, w);
        if !Scoped(i.session, v) {
          OthersLeaveOwn(db, mean, i, v, w);
        }
      }
      SharedIsAlone(Step(db, mean, i).0, mean, items[1..], v);
    }
  }

  /** Two databases that agree on v's rows are indistinguishable to v, whatever else they hold. */
  lemma AgreeingDatabasesLookAlike(db1: Tables, db2: Tables, mean: Meaning, items: seq<Item>, v: Value)
    requires AllIsolated(db1) && AllIsolated(db2) && TenantItems(items)
    requires OwnAll(db1, v) == OwnAll(db2, v)
    ensures Shared(db1, mean, items, v).1 == Shared(db2, mean, items, v).1
    ensures OwnAll(Shared(db1, mean, items, v).0, v) == OwnAll(Shared(db2, mean, items, v).0, v)
  {
    SharedIsAlone(db1, mean, items, v);
    SharedIsAlone(db2, mean, items, v);
  }

  // ---- From a clean check, and from an adoption ----

  /** A silent check, boundary's own policies and no expression-only unique index give isolation. */
  lemma CleanIsIsolated(tables: Tables, name: string, expected: string)
    requires name in tables && TableFindings(tables, name, expected) == []
    requires tables[name].policies == map[ISOLATION := IsolationPolicy(TENANT), BYPASS := BYPASS_POLICY]
    requires forall x :: x in tables[name].indexes && !x.primary ==> exists k :: k in x.keys && k.Key?
    ensures Isolated(tables[name])
  {
    SilenceIsClean(tables, name, expected);
    CleanKeysHoldTenantExactlyWhen(tables[name], expected);
  }

  /** One adopted table: no policy before, and so exactly boundary's two after. */
  lemma AdoptedIsIsolated(c: Call, tables: Tables, m: Model, plan: Plan, writers: map<string, seq<Row>>)
    requires Validated(c, tables, m) == Ok(Some(plan)) && m.table in tables && plan.table == m.table
    requires tables[m.table].policies == map[] && DistinctNames(tables[m.table].uniques)
    requires CurrentTenant(c.session) == Null && Locked(c, tables, plan, writers).error.None?
    ensures Isolated(Locked(c, tables, plan, writers).table)
    ensures Clean(Locked(c, tables, plan, writers).table, c.pgType)
  {
    var rows := AtLock(tables[m.table], m.table, writers).rows;
    assert tables[m.table].(rows := rows) == AtLock(tables[m.table], m.table, writers);
    PlannedTableIsClean(c.project, tables, m, c.pgType, c.backfill, c.session, rows);
    assert |ISOLATION| != |BYPASS|;
    var t' := Locked(c, tables, plan, writers).table;
    assert t'.policies == map[ISOLATION := IsolationPolicy(TENANT), BYPASS := BYPASS_POLICY];
    forall u | u in t'.uniques ensures TENANT in u.columns {
      assert u.columns[0] == TENANT;
    }
  }

  // ---- The tables an app has, among all those of an alias ----

  function TablesOf(models: seq<Model>): set<string> {
    set m <- models :: m.table
  }

  function Restrict(db: Tables, names: set<string>): Tables {
    map n | n in db && n in names :: db[n]
  }

  /** Items on some tables run as if the others were not there, and leave them alone. */
  lemma {:induction false} SharedRestricts(db: Tables, names: set<string>, mean: Meaning, items: seq<Item>, v: Value)
    requires forall i :: i in items ==> i.table in names
    ensures Shared(db, mean, items, v).1 == Shared(Restrict(db, names), mean, items, v).1
    ensures Restrict(Shared(db, mean, items, v).0, names) == Shared(Restrict(db, names), mean, items, v).0
    ensures Shared(db, mean, items, v).0.Keys == db.Keys
    ensures forall n :: n in db && n !in names ==> Shared(db, mean, items, v).0[n] == db[n]
    decreases |items|
  {
    if items != [] {
      assert items[0] in items;
      var db1 := Step(db, mean, items[0]).0;
      assert Restrict(db1, names) == Step(Restrict(db, names), mean, items[0]).0;
      SharedRestricts(db1, names, mean, items[1..], v);
    }
  }

  ghost predicate Unadopted(tables: Tables, m: Model) {
    m.table in tables ==>
      && TENANT !in tables[m.table].columns && tables[m.table].policies == map[]
      && DistinctNames(tables[m.table].uniques)
  }

  /** A table a completed call was given was planned, and is isolated and silent under the check. */
  lemma OneIsolates(c: Call, tables: Tables, models: seq<Model>, writers: map<string, seq<Row>>, m: Model, db: Tables)
    requires DistinctTables(models) && CurrentTenant(c.session) == Null
    requires m in models && Unadopted(tables, m)
    requires ForwardAmid(c, tables, models, writers) == (db, None)
    ensures m.table in tables && db.Keys == tables.Keys
    ensures Isolated(db[m.table]) && TableFindings(db, m.table, c.pgType) == []
  {
    CompletedTable(c, tables, models, writers, m);
    NotSkipped(c, tables, m);
    AdoptedIsIsolated(c, tables, m, Validated(c, tables, m).value.value, writers);
    SilenceIsClean(db, m.table, c.pgType);
  }

  lemma NotSkipped(c: Call, tables: Tables, m: Model)
    requires Validated(c, tables, m).Ok? && Unadopted(tables, m)
    ensures Validated(c, tables, m).value.Some?
  {
  }

  /**
   Adopt the tables of an app, on an alias that may hold any others, whatever
   other sessions write to them meanwhile. If the call completes, the check is
   silent on each of them, no tenant can tell there what the others do, and the
   tables that were not adopted are as they were.
   */
  lemma AdoptionIsolates(c: Call, tables: Tables, models: seq<Model>, writers: map<string, seq<Row>>,
                         mean: Meaning, items: seq<Item>, v: Value)
    requires DistinctTables(models) && CurrentTenant(c.session) == Null
    requires ForwardAmid(c, tables, models, writers).1.None?
    requires forall m :: m in models ==> Unadopted(tables, m)
    requires TenantItems(items) && forall i :: i in items ==> i.table in TablesOf(models)
    ensures
      var db, names := ForwardAmid(c, tables, models, writers).0, TablesOf(models);
      var adopted, after := Restrict(db, names), Shared(db, mean, items, v);
      && (forall n :: n in names ==> n in db && TableFindings(db, n, c.pgType) == [])
      && AllIsolated(adopted)
      && after.1 == Alone(OwnAll(adopted, v), mean, items, v).1
      && OwnAll(Restrict(after.0, names), v) == Alone(OwnAll(adopted, v), mean, items, v).0
      && after.0.Keys == tables.Keys
      && (forall n :: n in tables && n !in names ==> after.0[n] == tables[n])
  {
    var db, names := ForwardAmid(c, tables, models, writers).0, TablesOf(models);
    CompletedOthers(c, tables, models, writers);
    forall n | n in names ensures n in db && Isolated(db[n]) && TableFindings(db, n, c.pgType) == [] {
      var m :| m in models && m.table == n;
      OneIsolates(c, tables, models, writers, m, db);
    }
    SharedRestricts(db, names, mean, items, v);
    SharedIsAlone(Restrict(db, names), mean, items, v);
  }

  // ---- Why the check must see expression indexes ----

  const EMAILS := UniqueIndex(Given("email_ci"), [Expression("lower(email)")], [TENANT], None, false)

  /** One row of tenant a, under boundary's policies and a unique index on an expression that includes the tenant. */
  function Accounts(): Table {
    Table(map[TENANT := Column("uuid", true, CurrentTenantId), "email" := Column("text", true, NoDefault)],
          [map[TENANT := Val("a"), "email" := Val("x")]], [], [EMAILS], true, true,
          map[ISOLATION := IsolationPolicy(TENANT), BYPASS := BYPASS_POLICY])
  }

  const SESSION_B := Session(Connections.Vars("b", false), false)

  lemma AccountsAreSilent()
    ensures TableFindings(map["account" := Accounts()], "account", "uuid") == []
  {
    assert |ISOLATION| != |BYPASS|;
    ReportedHead(EMAILS.keys, EMAILS.included);
    assert EMAILS.keys[1..] == [];
    SilenceIsClean(map["account" := Accounts()], "account", "uuid");
  }

  /**
   On a table the check is silent about, tenant b's insert is refused because
   of tenant a's row; on b's own part of it the same insert succeeds.
   */
  lemma EscapedIndexCollides(mean: Meaning)
    requires forall r :: ValueAt(r, "email") == Val("x") ==> mean.value("lower(email)", r) == Val("x")
    ensures TableFindings(map["account" := Accounts()], "account", "uuid") == []
    ensures
      var insert := Insert(map["email" := Val("x")]);
      && Execute(Accounts(), mean, SESSION_B, insert).1 == UniqueViolation(Given("email_ci"))
      && Execute(Own(Accounts(), Val("b")), mean, SESSION_B, insert).1 == Changed(1)
  {
    AccountsAreSilent();
    assert |TENANT| != |"email"| && |ISOLATION| != |BYPASS|;
    var t, values := Accounts(), map["email" := Val("x")];
    var r := NewRow(t, SESSION_B, values);
    assert r == map[TENANT := Val("b"), "email" := Val("x")];
    BothPolicies(t, SESSION_B, r);
    Collides(mean, r);
    assert Own(t, Val("b")).rows == [];
    assert NewRow(Own(t, Val("b")), SESSION_B, values) == r;
    BothPolicies(Own(t, Val("b")), SESSION_B, r);
    assert [EMAILS][1..] == [];
    assert ViolatedIndex(mean, [EMAILS], [], r) == None;
  }

  lemma BothPolicies(t: Table, s: Session, r: Row)
    requires t.policies == map[ISOLATION := IsolationPolicy(TENANT), BYPASS := BYPASS_POLICY]
    requires ValueAt(r, TENANT) != Null && ValueAt(r, TENANT) == CurrentTenant(s)
    ensures Writable(t, s, r)
  {
    assert |ISOLATION| != |BYPASS|;
    assert t.policies[ISOLATION] in t.policies.Values;
  }

  lemma Collides(mean: Meaning, r: Row)
    requires forall q :: ValueAt(q, "email") == Val("x") ==> mean.value("lower(email)", q) == Val("x")
    requires ValueAt(r, "email") == Val("x")
    ensures ViolatedIndex(mean, [EMAILS], Accounts().rows, r) == Some(Given("email_ci"))
  {
    var q := Accounts().rows[0];
    assert |TENANT| != |"email"| && ValueAt(q, "email") == Val("x");
    assert q in Accounts().rows && IndexClash(mean, EMAILS, r, q);
  }
}
