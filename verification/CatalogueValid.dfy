/**
 What PostgreSQL keeps true of a table stays true through every statement of
 this model: each DDL statement, an adoption or its reverse however far it
 gets, and each statement of a session.
 */
module CatalogueValid {
  import opened Prelude
  import opened Catalogue
  import opened Adoption
  import opened AdoptionCalls
  import opened Isolation
  import opened IsolationEffects
  import opened IsolationRuns

  // ---- Rows ----

  /** Rows that agree on a key's columns may stand in for one another. */
  lemma AlikeOn(before: seq<Row>, after: seq<Row>, columns: seq<string>)
    requires |before| == |after| && UniqueOn(before, columns)
    requires forall i, c :: 0 <= i < |before| && c in columns ==> ValueAt(after[i], c) == ValueAt(before[i], c)
    ensures UniqueOn(after, columns)
  {
    forall i, j | 0 <= i < j < |after| ensures !Clash(after[i], after[j], columns) {
      assert !Clash(before[i], before[j], columns);
    }
  }

  lemma {:induction false} FilterUnique(keep: Row -> bool, rows: seq<Row>, columns: seq<string>)
    requires UniqueOn(rows, columns)
    ensures UniqueOn(Filter(keep, rows), columns)
  {
    if rows != [] {
      FilterUnique(keep, rows[1..], columns);
      var rest := Filter(keep, rows[1..]);
      forall j | 0 <= j < |rest| ensures !Clash(rows[0], rest[j], columns) {
        assert rest[j] in rest && rest[j] in rows[1..];
        var k :| 0 <= k < |rows[1..]| && rows[1..][k] == rest[j];
        assert rows[k + 1] == rest[j];
      }
    }
  }

  ghost predicate NamesDiffer(us: seq<Unique>) {
    forall i, j :: 0 <= i < j < |us| ==> us[i].name != us[j].name
  }

  lemma {:induction false} FilterNames(keep: Unique -> bool, us: seq<Unique>)
    requires NamesDiffer(us)
    ensures NamesDiffer(Filter(keep, us))
  {
    if us != [] {
      FilterNames(keep, us[1..]);
      var rest := Filter(keep, us[1..]);
      forall j | 0 <= j < |rest| ensures us[0].name != rest[j].name {
        assert rest[j] in rest && rest[j] in us[1..];
        var k :| 0 <= k < |us[1..]| && us[1..][k] == rest[j];
        assert us[k + 1] == rest[j];
      }
    }
  }

  // ---- The parts of validity ----

  ghost predicate RowFits(t: Table, r: Row) {
    r.Keys == t.columns.Keys && forall c :: c in t.columns && t.columns[c].notNull ==> ValueAt(r, c) != Null
  }

  ghost predicate RowsFit(t: Table) {
    forall i :: 0 <= i < |t.rows| ==> RowFits(t, t.rows[i])
  }

  ghost predicate KeyHolds(t: Table, u: Unique) {
    (forall c :: c in u.columns ==> c in t.columns) && UniqueOn(t.rows, u.columns)
  }

  ghost predicate KeysHold(t: Table) {
    forall u :: u in t.uniques ==> KeyHolds(t, u)
  }

  ghost predicate CatalogueFits(t: Table) {
    && NamesDiffer(t.uniques)
    && (forall u, x :: u in t.uniques && x in t.indexes ==> u.name != x.name)
    && (forall x :: x in t.indexes ==> ColumnsOf(x) <= t.columns.Keys)
    && (forall name, c :: name in t.policies && PolicyMentions(t.policies[name], c) ==> c in t.columns)
  }

  lemma ValidIs(t: Table)
    ensures Valid(t) <==> RowsFit(t) && KeysHold(t) && CatalogueFits(t)
  {
    assert RowsFit(t) <==> forall r :: r in t.rows ==> RowFits(t, r);
  }

  /** Keys still hold of rows that agree with the old ones on the columns of the keys that remain. */
  lemma KeysHoldOn(t: Table, t': Table)
    requires KeysHold(t) && |t'.rows| == |t.rows|
    requires forall u :: u in t'.uniques ==> u in t.uniques && forall c :: c in u.columns ==> c in t'.columns
    requires forall u, i, c :: u in t'.uniques && 0 <= i < |t.rows| && c in u.columns ==>
               ValueAt(t'.rows[i], c) == ValueAt(t.rows[i], c)
    ensures KeysHold(t')
  {
    forall u | u in t'.uniques ensures KeyHolds(t', u) {
      assert KeyHolds(t, u);
      AlikeOn(t.rows, t'.rows, u.columns);
    }
  }

  // ---- One DDL statement ----

  lemma AddColumnKeepsValid(t: Table, c: string, col: Column, s: Session)
    requires Valid(t) && AddColumn(t, c, col, s).Ok?
    ensures Valid(AddColumn(t, c, col, s).value)
  {
    ValidIs(t);
    AddColumnFits(t, c, col, s);
    ValidIs(AddColumn(t, c, col, s).value);
  }

  lemma AddColumnFits(t: Table, c: string, col: Column, s: Session)
    requires RowsFit(t) && KeysHold(t) && CatalogueFits(t) && AddColumn(t, c, col, s).Ok?
    ensures
      var t' := AddColumn(t, c, col, s).value;
      RowsFit(t') && KeysHold(t') && CatalogueFits(t')
  {
    var t' := AddColumn(t, c, col, s).value;
    forall i | 0 <= i < |t'.rows| ensures RowFits(t', t'.rows[i]) {
      assert RowFits(t, t.rows[i]);
    }
    assert forall u :: u in t.uniques ==> KeyHolds(t, u);
    KeysHoldOn(t, t');
  }

  /** An UPDATE of a column in no key, to a value the column may hold. */
  lemma StampKeepsValid(t: Table, c: string, v: Value, visible: Row -> bool)
    requires Valid(t) && c in t.columns && (t.columns[c].notNull ==> v != Null)
    requires forall u :: u in t.uniques ==> c !in u.columns
    ensures Valid(t.(rows := Stamp(t.rows, c, v, visible).0))
  {
    ValidIs(t);
    StampFits(t, c, v, visible);
    ValidIs(t.(rows := Stamp(t.rows, c, v, visible).0));
  }

  lemma StampFits(t: Table, c: string, v: Value, visible: Row -> bool)
    requires RowsFit(t) && KeysHold(t) && c in t.columns && (t.columns[c].notNull ==> v != Null)
    requires forall u :: u in t.uniques ==> c !in u.columns
    ensures var t' := t.(rows := Stamp(t.rows, c, v, visible).0); RowsFit(t') && KeysHold(t')
  {
    var t' := t.(rows := Stamp(t.rows, c, v, visible).0);
    forall i | 0 <= i < |t'.rows| ensures RowFits(t', t'.rows[i]) {
      assert RowFits(t, t.rows[i]);
    }
    assert forall u :: u in t.uniques ==> KeyHolds(t, u);
    KeysHoldOn(t, t');
  }

  lemma ConstrainKeepsValid(t: Table)
    requires Valid(t)
    ensures
      var p := ConstrainColumn(t);
      Valid(p.table) && (TENANT in t.columns ==> TENANT in p.table.columns)
  {
    if SetNotNull(t, TENANT).Ok? {
      var t1 := SetNotNull(t, TENANT).value;
      forall r | r in t.rows ensures ValueAt(r, TENANT) != Null {
        var i :| 0 <= i < |t.rows| && t.rows[i] == r;
      }
      assert Valid(t1);
      if SetDefault(t1, TENANT, CurrentTenantId).Ok? {
        assert Valid(SetDefault(t1, TENANT, CurrentTenantId).value);
      }
    }
  }

  lemma DropUniqueKeepsValid(t: Table, name: Name)
    requires Valid(t) && DropUnique(t, name).Ok?
    ensures Valid(DropUnique(t, name).value)
  {
    FilterNames(NotNamed(name), t.uniques);
  }

  lemma DropColumnKeepsValid(t: Table, c: string)
    requires Valid(t) && DropColumn(t, c).Ok?
    ensures Valid(DropColumn(t, c).value)
  {
    ValidIs(t);
    DropColumnFits(t, c);
    ValidIs(DropColumn(t, c).value);
  }

  lemma DropColumnFits(t: Table, c: string)
    requires RowsFit(t) && KeysHold(t) && CatalogueFits(t) && DropColumn(t, c).Ok?
    ensures
      var t' := DropColumn(t, c).value;
      RowsFit(t') && KeysHold(t') && CatalogueFits(t')
  {
    var t' := DropColumn(t, c).value;
    FilterNames(UniqueWithout(c), t.uniques);
    forall i | 0 <= i < |t'.rows| ensures RowFits(t', t'.rows[i]) {
      assert RowFits(t, t.rows[i]);
    }
    assert forall u :: u in t.uniques ==> KeyHolds(t, u);
    KeysHoldOn(t, t');
    forall name, d | name in t'.policies && PolicyMentions(t'.policies[name], d) ensures d in t'.columns {
      assert t.policies[name] in t.policies.Values;
    }
  }

  lemma CreatePolicyKeepsValid(t: Table, name: string, p: Policy)
    requires Valid(t) && forall c :: PolicyMentions(p, c) ==> c in t.columns
    ensures CreatePolicy(t, name, p).Ok? ==> Valid(CreatePolicy(t, name, p).value)
  {
    if CreatePolicy(t, name, p).Ok? {
      ValidIs(t);
      ValidIs(CreatePolicy(t, name, p).value);
    }
  }

  lemma PoliciesKeepValid(t: Table, c: string)
    requires Valid(t) && c in t.columns
    ensures Valid(CreateTenantPolicies(t, c).table)
  {
    CreatePolicyKeepsValid(t, ISOLATION, IsolationPolicy(c));
    var p := Attempt(t, CreatePolicy(t, ISOLATION, IsolationPolicy(c)));
    CreatePolicyKeepsValid(p.table, BYPASS, BYPASS_POLICY);
  }

  // ---- Adoption ----

  lemma AddTenantColumnKeepsValid(t: Table, plan: Plan, backfill: Value, s: Session)
    requires Valid(t)
    ensures
      var p := AddTenantColumn(t, plan, backfill, s);
      Valid(p.table) && (p.error.None? ==> TENANT in p.table.columns)
  {
    if plan.existingRows == 0 {
      if AddColumn(t, TENANT, ONE_SHOT(plan.pgType), s).Ok? {
        AddColumnKeepsValid(t, TENANT, ONE_SHOT(plan.pgType), s);
      }
    } else {
      ThreeStepsKeepValid(t, plan, backfill, s);
    }
  }

  lemma ThreeStepsKeepValid(t: Table, plan: Plan, backfill: Value, s: Session)
    requires Valid(t) && plan.existingRows != 0
    ensures
      var p := AddTenantColumn(t, plan, backfill, s);
      Valid(p.table) && (p.error.None? ==> TENANT in p.table.columns)
  {
    var col := Column(plan.pgType, false, NoDefault);
    var added := AddColumn(t, TENANT, col, s);
    if added.Ok? {
      AddColumnKeepsValid(t, TENANT, col, s);
      assert forall u :: u in t.uniques ==> TENANT !in u.columns;
      BackfillKeepsValid(added.value, plan, backfill, s);
      ConstrainKeepsValid(Backfill(added.value, plan, backfill, s).table);
    }
  }

  lemma BackfillEitherWay(t: Table, plan: Plan, backfill: Value, s: Session)
    ensures
      var t' := Backfill(t, plan, backfill, s).table;
      t' == t || t' == t.(rows := Stamp(t.rows, TENANT, backfill, VisibleTo(t, s)).0)
  {
  }

  lemma BackfillKeepsValid(t: Table, plan: Plan, backfill: Value, s: Session)
    requires Valid(t) && TENANT in t.columns && !t.columns[TENANT].notNull
    requires forall u :: u in t.uniques ==> TENANT !in u.columns
    ensures Valid(Backfill(t, plan, backfill, s).table)
    ensures Backfill(t, plan, backfill, s).table.columns == t.columns
  {
    BackfillEitherWay(t, plan, backfill, s);
    StampKeepsValid(t, TENANT, backfill, VisibleTo(t, s));
  }

  lemma RewriteKeepsValid(t: Table, drop: Name, name: Name, columns: seq<string>)
    requires Valid(t)
    ensures
      var p := Attempt(t, DropUnique(t, drop));
      && Valid(p.table) && p.table.columns == t.columns
      && var q := Attempt(p.table, AddUnique(p.table, name, columns));
         Valid(q.table) && q.table.columns == t.columns
  {
    if DropUnique(t, drop).Ok? {
      DropUniqueKeepsValid(t, drop);
    }
    var p := Attempt(t, DropUnique(t, drop));
    AddUniqueExactlyWhenValid(p.table, name, columns);
  }

  lemma {:induction false} RewritesKeepValid(t: Table, ws: seq<Rewrite>)
    requires Valid(t)
    ensures Valid(ApplyRewrites(t, ws).table) && ApplyRewrites(t, ws).table.columns == t.columns
    decreases |ws|
  {
    if ws != [] {
      RewriteKeepsValid(t, ws[0].name, Composite(ws[0].name), ws[0].columns);
      RewritesKeepValid(ApplyRewrite(t, ws[0]).table, ws[1..]);
    }
  }

  /** Whatever the plan says, and however far the adoption of a table gets, the table stays valid. */
  lemma AdoptionKeepsValid(t: Table, plan: Plan, backfill: Value, s: Session)
    requires Valid(t)
    ensures Valid(AdoptTable(t, plan, backfill, s).table)
  {
    AddTenantColumnKeepsValid(t, plan, backfill, s);
    var p1 := AddTenantColumn(t, plan, backfill, s);
    if p1.error.None? {
      RewritesKeepValid(p1.table, plan.rewrites);
      var p2 := ApplyRewrites(p1.table, plan.rewrites);
      if p2.error.None? {
        PoliciesKeepValid(EnableRls(p2.table), TENANT);
      }
    }
  }

  lemma {:induction false} RestoresKeepValid(t: Table, live: seq<Unique>, historical: seq<seq<string>>)
    requires Valid(t)
    ensures Valid(RestoreUniques(t, live, historical).table)
    decreases |historical|
  {
    if historical != [] {
      var found := FindUnique(live, [TENANT] + historical[0]);
      if found.Some? {
        RewriteKeepsValid(t, found.value, Derived(historical[0]), historical[0]);
      }
      RestoresKeepValid(RestoreUnique(t, live, historical[0]).table, live, historical[1..]);
    }
  }

  lemma ReverseKeepsValid(t: Table, historical: seq<seq<string>>)
    requires Valid(t)
    ensures Valid(UnadoptTable(t, historical).table)
  {
    var t1 := DisableRls(DropPolicies(t));
    assert Valid(t1);
    RestoresKeepValid(t1, t1.uniques, historical);
    var p := RestoreUniques(t1, t1.uniques, historical);
    if p.error.None? && DropColumn(p.table, TENANT).Ok? {
      DropColumnKeepsValid(p.table, TENANT);
    }
  }

  ghost predicate AllValid(tables: Tables) {
    forall n :: n in tables ==> Valid(tables[n])
  }

  /** The planned tables are there, each valid as its ALTER TABLE will find it. */
  ghost predicate FoundValid(tables: Tables, plans: seq<Plan>, writers: map<string, seq<Row>>) {
    forall p :: p in plans ==> p.table in tables && Valid(AtLock(tables[p.table], p.table, writers))
  }

  lemma LockedIsValid(c: Call, tables: Tables, plans: seq<Plan>, writers: map<string, seq<Row>>, p: Plan)
    requires FoundValid(tables, plans, writers) && p in plans
    ensures Valid(Locked(c, tables, p, writers).table)
  {
    AdoptionKeepsValid(AtLock(tables[p.table], p.table, writers), p, BackfillValue(c.backfill), c.session);
  }

  /** The table after the call, as it was or as its own plan left it. */
  ghost predicate LeftBy(c: Call, tables: Tables, plans: seq<Plan>, writers: map<string, seq<Row>>, n: string,
                         after: Table)
    requires n in tables && forall p :: p in plans ==> p.table in tables
  {
    after == tables[n] || exists p :: p in plans && p.table == n && after == Locked(c, tables, p, writers).table
  }

  lemma LeftByCompleted(c: Call, tables: Tables, plans: seq<Plan>, writers: map<string, seq<Row>>,
                        r: (Tables, Option<Error>), n: string)
    requires n in tables && forall p :: p in plans ==> p.table in tables
    requires PlanByPlan(c, tables, plans, writers, r) && r.1.None?
    ensures LeftBy(c, tables, plans, writers, n, r.0[n])
  {
    if p :| p in plans && p.table == n {
      assert r.0[p.table] == Locked(c, tables, p, writers).table;
    }
  }

  lemma LeftByStopped(c: Call, tables: Tables, plans: seq<Plan>, writers: map<string, seq<Row>>,
                      r: (Tables, Option<Error>), i: nat, n: string)
    requires n in tables && forall p :: p in plans ==> p.table in tables
    requires StoppedAt(c, tables, plans, writers, r, i)
    ensures LeftBy(c, tables, plans, writers, n, r.0[n])
  {
    if j :| 0 <= j <= i && plans[j].table == n {
      assert plans[j] in plans && r.0[n] == Locked(c, tables, plans[j], writers).table;
    }
  }

  lemma LeftIsValid(c: Call, tables: Tables, plans: seq<Plan>, writers: map<string, seq<Row>>, n: string, after: Table)
    requires FoundValid(tables, plans, writers) && n in tables && Valid(tables[n])
    requires LeftBy(c, tables, plans, writers, n, after)
    ensures Valid(after)
  {
    if after != tables[n] {
      var p :| p in plans && p.table == n && after == Locked(c, tables, p, writers).table;
      LockedIsValid(c, tables, plans, writers, p);
    }
  }

  /** Pass two, completed or stopped part way, leaves every table valid. */
  lemma ForwardKeepsAllValid(c: Call, tables: Tables, plans: seq<Plan>, writers: map<string, seq<Row>>)
    requires AllValid(tables) && DistinctPlans(plans) && FoundValid(tables, plans, writers)
    ensures AllValid(PassTwo(c, tables, plans, writers).0)
  {
    var r := PassTwo(c, tables, plans, writers);
    EachPlanByItself(c, tables, plans, writers);
    var i := 0;
    if r.1.Some? {
      i := FailsPartWay(c, tables, plans, writers);
    }
    forall n | n in r.0 ensures Valid(r.0[n]) {
      if r.1.Some? {
        LeftByStopped(c, tables, plans, writers, r, i, n);
      } else {
        LeftByCompleted(c, tables, plans, writers, r, n);
      }
      LeftIsValid(c, tables, plans, writers, n, r.0[n]);
    }
  }

  lemma {:induction false} BackwardKeepsAllValid(tables: Tables, models: seq<Model>)
    requires AllValid(tables)
    ensures AllValid(UnadoptAll(tables, models).0)
  {
    if models != [] {
      var n := models[0].table;
      if n !in tables {
        BackwardKeepsAllValid(tables, models[1..]);
      } else {
        ReverseKeepsValid(tables[n], models[0].historical);
        var p := UnadoptTable(tables[n], models[0].historical);
        if p.error.None? {
          BackwardKeepsAllValid(tables[n := p.table], models[1..]);
        }
      }
    }
  }

  // ---- The statements of a session ----

  lemma UniqueReplaced(done: seq<Row>, before: Row, after: Row, rest: seq<Row>, columns: seq<string>)
    requires UniqueOn(done + [before] + rest, columns)
    requires forall q :: q in done + rest ==> !Clash(after, q, columns)
    ensures UniqueOn(done + [after] + rest, columns)
  {
    var old', new' := done + [before] + rest, done + [after] + rest;
    forall i, j | 0 <= i < j < |new'| ensures !Clash(new'[i], new'[j], columns) {
      if i == |done| {
        assert new'[j] == rest[j - |done| - 1];
      } else if j == |done| {
        assert new'[i] == done[i] && !Clash(after, done[i], columns);
        ClashSwaps(done[i], after, columns);
      } else {
        assert new'[i] == old'[i] && new'[j] == old'[j];
      }
    }
  }

  lemma ClashSwaps(r: Row, q: Row, columns: seq<string>)
    ensures Clash(r, q, columns) == Clash(q, r, columns)
  {
  }

  /** One row of an update, if it is not refused, leaves the rows as fit as they were. */
  lemma ReplacedFits(t: Table, mean: Meaning, s: Session, done: seq<Row>, before: Row, changed: Row, rest: seq<Row>)
    requires var t0 := t.(rows := done + [before] + rest); RowsFit(t0) && KeysHold(t0)
    requires Objection(t, mean, s, done + rest, ChangedRow(t, before, changed)).None?
    ensures var t1 := t.(rows := done + [ChangedRow(t, before, changed)] + rest); RowsFit(t1) && KeysHold(t1)
  {
    var r := ChangedRow(t, before, changed);
    var t0, t1 := t.(rows := done + [before] + rest), t.(rows := done + [r] + rest);
    forall i | 0 <= i < |t1.rows| ensures RowFits(t1, t1.rows[i]) {
      if i != |done| {
        assert t1.rows[i] == t0.rows[i] && RowFits(t0, t0.rows[i]);
      }
    }
    UniquesAllow(t.uniques, done + rest, r);
    forall u | u in t1.uniques ensures KeyHolds(t1, u) {
      assert KeyHolds(t0, u);
      UniqueReplaced(done, before, r, rest, u.columns);
    }
  }

  lemma {:induction false} UpdateFits(t: Table, mean: Meaning, s: Session, matches: Row -> bool, change: Row -> Row,
                                      done: seq<Row>, todo: seq<Row>)
    requires var t0 := t.(rows := done + todo); RowsFit(t0) && KeysHold(t0)
    ensures
      var r := UpdateRows(t, mean, s, matches, change, done, todo);
      r.Ok? ==> RowsFit(t.(rows := r.value.0)) && KeysHold(t.(rows := r.value.0))
    decreases |todo|
  {
    if todo == [] {
      assert done + todo == done;
    } else {
      assert done + todo == done + [todo[0]] + todo[1..];
      if !(Visible(t, s, todo[0]) && matches(todo[0])) {
        UpdateFits(t, mean, s, matches, change, done + [todo[0]], todo[1..]);
      } else {
        var r := ChangedRow(t, todo[0], change(todo[0]));
        if Objection(t, mean, s, done + todo[1..], r).None? {
          ReplacedFits(t, mean, s, done, todo[0], change(todo[0]), todo[1..]);
          UpdateFits(t, mean, s, matches, change, done + [r], todo[1..]);
        }
      }
    }
  }

  lemma DeleteFits(t: Table, keep: Row -> bool)
    requires RowsFit(t) && KeysHold(t)
    ensures RowsFit(t.(rows := Filter(keep, t.rows))) && KeysHold(t.(rows := Filter(keep, t.rows)))
  {
    var t' := t.(rows := Filter(keep, t.rows));
    forall i | 0 <= i < |t'.rows| ensures RowFits(t', t'.rows[i]) {
      assert t'.rows[i] in t'.rows;
      var k :| 0 <= k < |t.rows| && t.rows[k] == t'.rows[i];
      assert RowFits(t, t.rows[k]);
    }
    forall u | u in t'.uniques ensures KeyHolds(t', u) {
      assert KeyHolds(t, u);
      FilterUnique(keep, t.rows, u.columns);
    }
  }

  lemma InsertFits(t: Table, mean: Meaning, s: Session, values: Row)
    requires RowsFit(t) && KeysHold(t) && Objection(t, mean, s, t.rows, NewRow(t, s, values)).None?
    ensures
      var t' := t.(rows := t.rows + [NewRow(t, s, values)]);
      RowsFit(t') && KeysHold(t')
  {
    var r := NewRow(t, s, values);
    var t' := t.(rows := t.rows + [r]);
    forall i | 0 <= i < |t'.rows| ensures RowFits(t', t'.rows[i]) {
      if i < |t.rows| {
        assert RowFits(t, t.rows[i]);
      }
    }
    UniquesAllow(t.uniques, t.rows, r);
    forall u | u in t'.uniques ensures KeyHolds(t', u) {
      assert KeyHolds(t, u);
      UniqueWithRow(t.rows, r, u.columns);
    }
  }

  /** Whoever runs it and whatever it says, a statement leaves a valid table valid. */
  lemma StatementKeepsValid(t: Table, mean: Meaning, s: Session, stmt: Statement)
    requires Valid(t)
    ensures Valid(Execute(t, mean, s, stmt).0)
  {
    ValidIs(t);
    ValidIs(Execute(t, mean, s, stmt).0);
    match stmt
    case Select(_) =>
    case Insert(values) =>
      if values.Keys <= t.columns.Keys && Objection(t, mean, s, t.rows, NewRow(t, s, values)).None? {
        InsertFits(t, mean, s, values);
      }
    case Update(matches, change) =>
      assert [] + t.rows == t.rows;
      UpdateFits(t, mean, s, matches, change, [], t.rows);
    case Delete(matches) => DeleteFits(t, Misses(t, s, matches));
  }

  lemma {:induction false} RunKeepsAllValid(db: Tables, mean: Meaning, items: seq<Item>, v: Value)
    requires AllValid(db)
    ensures AllValid(Shared(db, mean, items, v).0)
    decreases |items|
  {
    if items != [] {
      if items[0].table in db {
        StatementKeepsValid(db[items[0].table], mean, items[0].session, items[0].stmt);
      }
      RunKeepsAllValid(Step(db, mean, items[0]).0, mean, items[1..], v);
    }
  }

  /**
   An adoption that got any distance, then any statements of any sessions, then
   a reverse that gets any distance: what PostgreSQL keeps true of its tables
   is true of all of them at each end.
   */
  lemma LifecycleKeepsAllValid(c: Call, tables: Tables, plans: seq<Plan>, writers: map<string, seq<Row>>,
                               mean: Meaning, items: seq<Item>, v: Value, models: seq<Model>)
    requires AllValid(tables) && DistinctPlans(plans) && FoundValid(tables, plans, writers)
    ensures
      var adopted := PassTwo(c, tables, plans, writers).0;
      var used := Shared(adopted, mean, items, v).0;
      AllValid(adopted) && AllValid(used) && AllValid(UnadoptAll(used, models).0)
  {
    ForwardKeepsAllValid(c, tables, plans, writers);
    var adopted := PassTwo(c, tables, plans, writers).0;
    RunKeepsAllValid(adopted, mean, items, v);
    BackwardKeepsAllValid(Shared(adopted, mean, items, v).0, models);
  }
}
