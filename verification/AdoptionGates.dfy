/**
 What `AdoptTenantApp` refuses before it writes: exactly which tables pass one
 plans, which it skips, and when the whole operation is turned down with
 nothing changed.
 */
module AdoptionGates {
  import opened Prelude
  import opened Catalogue
  import opened Adoption
  import opened AdoptionForward
  import opened AdoptionCalls

  predicate NotDenied(p: Project, m: Model) {
    m.name !in DENIED_MODELS && m.table !in DENIED_TABLES && m.name != p.tenantLabel
  }

  /** Every unique form of the table can be rewritten: no bare unique index, no constraint of a special kind. */
  predicate Expressible(t: Table) {
    && (forall x <- t.indexes :: x.primary)
    && (forall u <- t.uniques :: !u.deferrable && !u.fkTargeted)
  }

  /** A table still to be adopted, whose rows, if the role sees any, have a tenant to go to. */
  predicate Plannable(c: Call, tables: Tables, m: Model) {
    && m.table in tables && TENANT !in tables[m.table].columns && NotDenied(c.project, m)
    && (c.backfill.Some? || forall r <- tables[m.table].rows :: !Visible(tables[m.table], c.session, r))
    && Expressible(tables[m.table])
  }

  predicate AlreadyAdopted(c: Call, tables: Tables, m: Model) {
    && m.table in tables && TENANT in tables[m.table].columns
    && tables[m.table].columns[TENANT].pgType == c.pgType
  }

  // ---- The unique forms ----

  lemma {:induction false} NoIndexRefused(xs: seq<IndexInfo>)
    ensures FirstIndexRefusal(xs).None? <==> forall x :: x in xs ==> x.primary || x.constraint.Some?
  {
    if xs != [] {
      NoIndexRefused(xs[1..]);
    }
  }

  lemma {:induction false} NoUniqueRefused(us: seq<Unique>)
    ensures RewritesOf(us).Ok? <==> forall u :: u in us ==> !u.deferrable && !u.fkTargeted
  {
    if us != [] {
      NoUniqueRefused(us[1..]);
    }
  }

  lemma IndexesArePrimary(t: Table)
    ensures (forall x :: x in UniqueIndexes(t) ==> x.primary || x.constraint.Some?)
       <==> (forall x :: x in t.indexes ==> x.primary)
  {
    var xs := UniqueIndexes(t);
    forall x | x in t.indexes ensures BareIndex(x) in xs {
      var i :| 0 <= i < |t.indexes| && t.indexes[i] == x;
      assert xs[|t.uniques| + i] == BareIndex(x);
    }
    forall x | x in xs ensures x.constraint.Some? || exists y :: y in t.indexes && x == BareIndex(y) {
      var i :| 0 <= i < |xs| && xs[i] == x;
      if i >= |t.uniques| {
        assert x == BareIndex(t.indexes[i - |t.uniques|]);
      }
    }
  }

  lemma RewritesPlannedExactlyWhen(t: Table)
    ensures PlanUniqueRewrites(t).Ok? <==> Expressible(t)
    ensures PlanUniqueRewrites(t).Ok? ==> RewritesFor(PlanUniqueRewrites(t).value, t.uniques)
  {
    NoIndexRefused(UniqueIndexes(t));
    IndexesArePrimary(t);
    NoUniqueRefused(t.uniques);
    if RewritesOf(t.uniques).Ok? {
      RewritesShape(t.uniques);
    }
  }

  lemma {:induction false} NothingCounted(t: Table, s: Session)
    ensures RowCount(t, s) == 0 <==> forall r :: r in t.rows ==> !Visible(t, s, r)
  {
    if forall r :: r in t.rows ==> !Visible(t, s, r) {
      FilterNone(VisibleTo(t, s), t.rows);
    } else {
      var r :| r in t.rows && Visible(t, s, r);
      assert r in Filter(VisibleTo(t, s), t.rows);
    }
  }

  // ---- One table ----

  /**
   Pass one plans a table exactly when it is there, has no tenant column, is
   not denied, has a tenant for the rows the role sees, and only unique forms
   that can be rewritten; it skips a table exactly when the column is there
   with the expected type; and it refuses every other.
   */
  lemma PlannedExactlyWhen(c: Call, tables: Tables, m: Model)
    ensures Validated(c, tables, m) == Ok(None) <==> AlreadyAdopted(c, tables, m)
    ensures Validated(c, tables, m).Ok? && Validated(c, tables, m).value.Some? <==> Plannable(c, tables, m)
    ensures Plannable(c, tables, m) ==>
      var t, plan := tables[m.table], Validated(c, tables, m).value.value;
      && plan.table == m.table && plan.pgType == c.pgType && RewritesFor(plan.rewrites, t.uniques)
      && plan.existingRows == |Filter(VisibleTo(t, c.session), t.rows)|
  {
    if m.table in tables {
      RewritesPlannedExactlyWhen(tables[m.table]);
      NothingCounted(tables[m.table], c.session);
    }
  }

  /** A refusal names something that is so. */
  lemma RefusalsAreTrue(c: Call, tables: Tables, m: Model)
    ensures
      match Validated(c, tables, m)
      case Ok(_) => true
      case Err(WrongColumnType) =>
        m.table in tables && TENANT in tables[m.table].columns && tables[m.table].columns[TENANT].pgType != c.pgType
      case Err(DeniedModel) => !NotDenied(c.project, m)
      case Err(PopulatedTable) =>
        && c.backfill.None? && m.table in tables
        && exists r <- tables[m.table].rows :: Visible(tables[m.table], c.session, r)
      case Err(PartialIndex) => m.table in tables && exists x <- tables[m.table].indexes :: x.partial.Some?
      case Err(ExpressionIndex) =>
        m.table in tables && exists x <- tables[m.table].indexes :: exists k <- x.keys :: k.Expression?
      case Err(BareUniqueIndex) => m.table in tables && exists x <- tables[m.table].indexes :: !x.primary
      case Err(DeferrableUnique) => m.table in tables && exists u <- tables[m.table].uniques :: u.deferrable
      case Err(TargetedUnique) => m.table in tables && exists u <- tables[m.table].uniques :: u.fkTargeted
      case Err(Database(e)) => e == UndefinedTable && m.table !in tables
      case Err(_) => false
  {
    if m.table in tables {
      var t := tables[m.table];
      NothingCounted(t, c.session);
      IndexRefusalsAreTrue(t, UniqueIndexes(t));
      UniqueRefusalsAreTrue(t.uniques);
    }
  }

  lemma {:induction false} IndexRefusalsAreTrue(t: Table, xs: seq<IndexInfo>)
    requires forall x :: x in xs ==> x in UniqueIndexes(t)
    ensures FirstIndexRefusal(xs) == Some(PartialIndex) ==> exists y <- t.indexes :: y.partial.Some?
    ensures FirstIndexRefusal(xs) == Some(ExpressionIndex) ==>
              exists y <- t.indexes :: exists k <- y.keys :: k.Expression?
    ensures FirstIndexRefusal(xs) == Some(BareUniqueIndex) ==> exists y <- t.indexes :: !y.primary
    ensures FirstIndexRefusal(xs) in {None, Some(PartialIndex), Some(ExpressionIndex), Some(BareUniqueIndex)}
  {
    if xs != [] {
      IndexRefusalsAreTrue(t, xs[1..]);
      if IndexRefusal(xs[0]).Some? {
        var all := UniqueIndexes(t);
        assert xs[0] in xs && xs[0] in all;
        var i :| 0 <= i < |all| && all[i] == xs[0];
        assert i >= |t.uniques| && xs[0] == BareIndex(t.indexes[i - |t.uniques|]);
        assert t.indexes[i - |t.uniques|] in t.indexes;
      }
    }
  }

  lemma {:induction false} UniqueRefusalsAreTrue(us: seq<Unique>)
    ensures
      match RewritesOf(us)
      case Ok(_) => true
      case Err(e) =>
        || (e == DeferrableUnique && exists u <- us :: u.deferrable)
        || (e == TargetedUnique && exists u <- us :: u.fkTargeted)
  {
    if us != [] {
      UniqueRefusalsAreTrue(us[1..]);
    }
  }

  // ---- A list of tables ----

  lemma {:induction false} PassOneExactlyWhen(c: Call, tables: Tables, models: seq<Model>)
    ensures Plans(c, tables, models).Ok?
       <==> forall m :: m in models ==> Plannable(c, tables, m) || AlreadyAdopted(c, tables, m)
    decreases |models|
  {
    if models != [] {
      PlannedExactlyWhen(c, tables, models[0]);
      PassOneExactlyWhen(c, tables, models[1..]);
      assert forall m :: m in models <==> m == models[0] || m in models[1..];
    }
  }

  /** One table that can be neither planned nor skipped turns the whole call down, and nothing is written. */
  lemma OneRefusalRefusesAll(c: Call, tables: Tables, models: seq<Model>, writers: map<string, seq<Row>>, m: Model)
    requires m in models && !Plannable(c, tables, m) && !AlreadyAdopted(c, tables, m)
    ensures ForwardAmid(c, tables, models, writers).1.Some? && ForwardAmid(c, tables, models, writers).0 == tables
  {
    PassOneExactlyWhen(c, tables, models);
  }

  /** What the migrating role must find of a table it plans, for no statement to fail for another reason. */
  ghost predicate Sound(c: Call, t: Table) {
    && Valid(t) && !RlsApplies(t, c.session)
    && forall u :: u in t.uniques ==> Fresh(Composite(u.name), t)
  }

  /** No row came or went between the probe and the lock, and neither of boundary's policies is there. */
  predicate Completes(c: Call, tables: Tables, m: Model, writers: map<string, seq<Row>>) {
    && Plannable(c, tables, m)
    && |AtLock(tables[m.table], m.table, writers).rows| == |tables[m.table].rows|
    && ISOLATION !in tables[m.table].policies && BYPASS !in tables[m.table].policies
  }

  /** A planned table is adopted exactly then. */
  lemma PlannedCompletesExactlyWhen(c: Call, tables: Tables, m: Model, plan: Plan, writers: map<string, seq<Row>>)
    requires Validated(c, tables, m) == Ok(Some(plan)) && CurrentTenant(c.session) == Null
    requires m.table in tables
    requires Sound(c, tables[m.table]) && Sound(c, AtLock(tables[m.table], m.table, writers))
    ensures plan.table == m.table
    ensures Locked(c, tables, plan, writers).error.None? <==> Completes(c, tables, m, writers)
  {
    var t := tables[m.table];
    PlannedExactlyWhen(c, tables, m);
    FilterAll(VisibleTo(t, c.session), t.rows);
    if t.rows != [] {
      assert Visible(t, c.session, t.rows[0]);
    }
    AdoptionCompletesExactlyWhen(AtLock(t, m.table, writers), plan, BackfillValue(c.backfill), c.session);
  }

  /**
   A call completes exactly when each table is already adopted, or can be
   planned, kept its number of rows until it was locked, and has neither of
   boundary's policies.
   */
  lemma ForwardCompletesExactlyWhen(c: Call, tables: Tables, models: seq<Model>, writers: map<string, seq<Row>>)
    requires DistinctTables(models) && CurrentTenant(c.session) == Null
    requires forall m :: m in models && Plannable(c, tables, m) ==>
      Sound(c, tables[m.table]) && Sound(c, AtLock(tables[m.table], m.table, writers))
    ensures ForwardAmid(c, tables, models, writers).1.None? <==>
      forall m :: m in models ==>
        AlreadyAdopted(c, tables, m) || Completes(c, tables, m, writers)
  {
    PassOneExactlyWhen(c, tables, models);
    if Plans(c, tables, models).Ok? {
      var plans := Plans(c, tables, models).value;
      PlansAre(c, tables, models);
      EachPlanByItself(c, tables, plans, writers);
      forall m | m in models && !AlreadyAdopted(c, tables, m)
        ensures exists p :: p in plans
                            && (Locked(c, tables, p, writers).error.None? <==> Completes(c, tables, m, writers))
      {
        PlannedExactlyWhen(c, tables, m);
        PlannedCompletesExactlyWhen(c, tables, m, Validated(c, tables, m).value.value, writers);
      }
      forall p | p in plans
        ensures exists m :: m in models && !AlreadyAdopted(c, tables, m)
                            && (Locked(c, tables, p, writers).error.None? <==> Completes(c, tables, m, writers))
      {
        var m :| m in models && m.table == p.table && Validated(c, tables, m) == Ok(Some(p));
        PlannedExactlyWhen(c, tables, m);
        PlannedCompletesExactlyWhen(c, tables, m, p, writers);
      }
    }
  }

  // ---- The whole operation ----

  /**
   The operation gets as far as writing exactly when the app is installed and
   not denied, has a model to adopt, and either the router keeps all its tables
   off the alias, or the alias is PostgreSQL, the tenant key has a type, and
   every table admitted can be planned or skipped.
   */
  lemma DecidesExactlyWhen(p: Project, tables: Tables, app: string, exclude: set<string>, backfill: Option<string>,
                           postgres: bool, denied: set<string>, s: Session)
    ensures Decide(p, tables, app, exclude, backfill, postgres, denied, s).Ok? <==>
      && app !in DENIED_APPS && app in p.apps
      && (exists m :: m in p.apps[app] && Adoptable(p, exclude, m))
      && (|| (forall m :: m in p.apps[app] && Adoptable(p, exclude, m) ==> m.table in denied)
          || (&& postgres && p.keyType.Some?
              && var c := Call(p, p.keyType.value, backfill, s);
                 forall m :: m in p.apps[app] && Adoptable(p, exclude, m) && m.table !in denied ==>
                   Plannable(c, tables, m) || AlreadyAdopted(c, tables, m)))
  {
    if app !in DENIED_APPS && app in p.apps {
      var models := AdoptedModels(p, app, exclude);
      var permitted := Permitted(models, denied);
      assert forall m :: m in models <==> m in p.apps[app] && Adoptable(p, exclude, m);
      assert forall m :: m in permitted <==> m in models && m.table !in denied;
      if models != [] {
        assert models[0] in models;
      }
      if permitted != [] {
        assert permitted[0] in permitted;
      }
      if p.keyType.Some? {
        PassOneExactlyWhen(Call(p, p.keyType.value, backfill, s), tables, permitted);
      }
    }
  }
}
