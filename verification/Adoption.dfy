/**
 `AdoptTenantApp`: which tables an app's adoption covers, what is refused
 before anything is written, and the DDL that scopes a table and unscopes it
 again. The methods follow the operation statement by statement; each is
 proved equal to a function of the catalogue it started from, failures and
 half-done tables included.
 */
module Adoption {
  import opened Prelude
  import opened Catalogue

  // ---- The derived set ----

  /** `historical`: the column lists of the plain uniques the model declares at this migration state. */
  datatype Model = Model(name: string, table: string, concrete: bool, scoped: bool, historical: seq<seq<string>>)

  /** What the settings and the app registry contribute. */
  datatype Project = Project(apps: map<string, seq<Model>>, excluded: set<string>, tenantLabel: string,
                             tenantThrough: set<string>, keyType: Option<string>)

  const DENIED_APPS := {"contenttypes", "sessions", "sites"}
  const DENIED_MODELS := {"auth.Permission", "admin.LogEntry"}
  const DENIED_TABLES := {"django_migrations"}

  datatype Error =
    | DeniedApp | NotInstalled | EmptySet | WrongVendor | UnmappableKey
    | WrongColumnType | DeniedModel | PopulatedTable
    | PartialIndex | ExpressionIndex | BareUniqueIndex | DeferrableUnique | TargetedUnique
    | BackfillMismatch | PolicyViolation | LookupError | Database(e: DbError)

  function RefusalReason(p: Project, app: string): Option<Error> {
    if app in DENIED_APPS then Some(DeniedApp)
    else if app !in p.apps then Some(NotInstalled)
    else None
  }

  function RefusalReasonForModel(p: Project, m: Model): Option<Error> {
    if m.name in DENIED_MODELS || m.table in DENIED_TABLES || m.name == p.tenantLabel then Some(DeniedModel)
    else None
  }

  predicate Adoptable(p: Project, exclude: set<string>, m: Model) {
    && m.concrete
    && m.name !in p.excluded + exclude
    && m.name != p.tenantLabel && m.name !in p.tenantThrough
    && m.name !in DENIED_MODELS && m.table !in DENIED_TABLES
    && !m.scoped
  }

  function AdoptedModels(p: Project, app: string, exclude: set<string>): seq<Model>
    requires app in p.apps
  {
    Filter(AdoptableIn(p, exclude), p.apps[app])
  }

  function AdoptableIn(p: Project, exclude: set<string>): Model -> bool {
    (m: Model) => Adoptable(p, exclude, m)
  }

  // ---- Pass one: what a table would need ----

  datatype Rewrite = Rewrite(name: Name, columns: seq<string>)

  datatype Plan = Plan(table: string, pgType: string, existingRows: nat, rewrites: seq<Rewrite>)

  function IndexRefusal(x: IndexInfo): Option<Error> {
    if x.primary || x.constraint.Some? then None
    else if x.partial then Some(PartialIndex)
    else if x.expression then Some(ExpressionIndex)
    else Some(BareUniqueIndex)
  }

  function FirstIndexRefusal(xs: seq<IndexInfo>): Option<Error> {
    if xs == [] then None
    else if IndexRefusal(xs[0]).Some? then IndexRefusal(xs[0])
    else FirstIndexRefusal(xs[1..])
  }

  function RewritesOf(us: seq<Unique>): Result<seq<Rewrite>, Error> {
    if us == [] then Ok([])
    else if us[0].deferrable then Err(DeferrableUnique)
    else if us[0].fkTargeted then Err(TargetedUnique)
    else
      match RewritesOf(us[1..])
      case Err(e) => Err(e)
      case Ok(rest) => Ok([Rewrite(us[0].name, [TENANT] + us[0].columns)] + rest)
  }

  function PlanUniqueRewrites(t: Table): Result<seq<Rewrite>, Error> {
    match FirstIndexRefusal(UniqueIndexes(t))
    case Some(e) => Err(e)
    case None => RewritesOf(t.uniques)
  }

  /** SELECT COUNT(*) counts what the role may see. */
  function RowCount(t: Table, s: Session): nat {
    |Filter(VisibleTo(t, s), t.rows)|
  }

  /** None for a table that already carries a column of the expected type. */
  function ValidateTable(p: Project, tables: Tables, m: Model, pgType: string,
                         backfill: Option<string>, s: Session): Result<Option<Plan>, Error> {
    if m.table in tables && ColumnType(tables[m.table], TENANT) == Some(pgType) then Ok(None)
    else if m.table in tables && ColumnType(tables[m.table], TENANT).Some? then Err(WrongColumnType)
    else if RefusalReasonForModel(p, m).Some? then Err(DeniedModel)
    else if m.table !in tables then Err(Database(UndefinedTable))
    else
      var t := tables[m.table];
      if RowCount(t, s) != 0 && backfill.None? then Err(PopulatedTable)
      else
        match PlanUniqueRewrites(t)
        case Err(e) => Err(e)
        case Ok(rewrites) => Ok(Some(Plan(m.table, pgType, RowCount(t, s), rewrites)))
  }

  function PlanAll(p: Project, tables: Tables, models: seq<Model>, pgType: string,
                   backfill: Option<string>, s: Session): Result<seq<Plan>, Error> {
    if models == [] then Ok([])
    else
      match ValidateTable(p, tables, models[0], pgType, backfill, s)
      case Err(e) => Err(e)
      case Ok(plan) =>
        match PlanAll(p, tables, models[1..], pgType, backfill, s)
        case Err(e) => Err(e)
        case Ok(rest) => Ok((if plan.Some? then [plan.value] else []) + rest)
  }

  function Prepend(plans: seq<Plan>, r: Result<seq<Plan>, Error>): Result<seq<Plan>, Error> {
    match r
    case Err(e) => Err(e)
    case Ok(rest) => Ok(plans + rest)
  }

  // ---- Pass two: the DDL on one table ----

  /** A table part-way through a sequence of statements, with the error that stopped it, if any. */
  datatype Progress = Progress(table: Table, error: Option<Error>)

  function Attempt(t: Table, r: Result<Table, DbError>): Progress {
    match r
    case Ok(t') => Progress(t', None)
    case Err(e) => Progress(t, Some(Database(e)))
  }

  const ONE_SHOT := (pgType: string) => Column(pgType, true, CurrentTenantId)

  function Backfill(t: Table, plan: Plan, backfill: Value, s: Session): Progress {
    var (rows, updated) := Stamp(t.rows, TENANT, backfill, VisibleTo(t, s));
    if exists i | 0 <= i < |t.rows| :: Visible(t, s, t.rows[i]) && !Writable(t, s, rows[i])
    then Progress(t, Some(PolicyViolation))
    else if updated != plan.existingRows then Progress(t.(rows := rows), Some(BackfillMismatch))
    else Progress(t.(rows := rows), None)
  }

  function AddTenantColumn(t: Table, plan: Plan, backfill: Value, s: Session): Progress {
    if plan.existingRows == 0 then Attempt(t, AddColumn(t, TENANT, ONE_SHOT(plan.pgType), s))
    else
      var p1 := Attempt(t, AddColumn(t, TENANT, Column(plan.pgType, false, NoDefault), s));
      if p1.error.Some? then p1
      else
        var p2 := Backfill(p1.table, plan, backfill, s);
        if p2.error.Some? then p2 else ConstrainColumn(p2.table)
  }

  function ConstrainColumn(t: Table): Progress {
    var p := Attempt(t, SetNotNull(t, TENANT));
    if p.error.Some? then p else Attempt(p.table, SetDefault(p.table, TENANT, CurrentTenantId))
  }

  function ApplyRewrite(t: Table, w: Rewrite): Progress {
    var p := Attempt(t, DropUnique(t, w.name));
    if p.error.Some? then p else Attempt(p.table, AddUnique(p.table, Composite(w.name), w.columns))
  }

  function ApplyRewrites(t: Table, ws: seq<Rewrite>): Progress
    decreases |ws|
  {
    if ws == [] then Progress(t, None)
    else
      var p := ApplyRewrite(t, ws[0]);
      if p.error.Some? then p else ApplyRewrites(p.table, ws[1..])
  }

  const ISOLATION := "boundary_tenant_isolation"
  const BYPASS := "boundary_admin_bypass"

  function IsolationPolicy(column: string): Policy {
    Policy(TenantMatches(column), Some(TenantMatches(column)))
  }

  const BYPASS_POLICY := Policy(AdminFlagSet, None)

  function CreateTenantPolicies(t: Table, column: string): Progress {
    var p := Attempt(t, CreatePolicy(t, ISOLATION, IsolationPolicy(column)));
    if p.error.Some? then p else Attempt(p.table, CreatePolicy(p.table, BYPASS, BYPASS_POLICY))
  }

  function EnableRls(t: Table): Table {
    t.(rlsEnabled := true, rlsForced := true)
  }

  /** The column, the uniques, RLS strictly after the backfill, then the policies. */
  function AdoptTable(t: Table, plan: Plan, backfill: Value, s: Session): Progress {
    var p1 := AddTenantColumn(t, plan, backfill, s);
    if p1.error.Some? then p1
    else
      var p2 := ApplyRewrites(p1.table, plan.rewrites);
      if p2.error.Some? then p2 else CreateTenantPolicies(EnableRls(p2.table), TENANT)
  }

  function BackfillValue(backfill: Option<string>): Value {
    if backfill.Some? then Val(backfill.value) else Null
  }

  /** The table as ALTER TABLE finds it: other sessions may have written since the probe. */
  function AtLock(t: Table, name: string, writers: map<string, seq<Row>>): Table {
    if name in writers then t.(rows := writers[name]) else t
  }

  function AdoptAll(tables: Tables, plans: seq<Plan>, writers: map<string, seq<Row>>, backfill: Value,
                    s: Session): (Tables, Option<Error>) {
    if plans == [] then (tables, None)
    else if plans[0].table !in tables then (tables, Some(Database(UndefinedTable)))
    else
      var name := plans[0].table;
      var p := AdoptTable(AtLock(tables[name], name, writers), plans[0], backfill, s);
      if p.error.Some? then (tables[name := p.table], p.error)
      else AdoptAll(tables[name := p.table], plans[1..], writers, backfill, s)
  }

  // ---- Backwards ----

  function FindUnique(us: seq<Unique>, columns: seq<string>): Option<Name> {
    if us == [] then None
    else if us[0].columns == columns then Some(us[0].name)
    else FindUnique(us[1..], columns)
  }

  /** A composite is dropped and its original recreated only where the live read found one. */
  function RestoreUnique(t: Table, live: seq<Unique>, columns: seq<string>): Progress {
    match FindUnique(live, [TENANT] + columns)
    case None => Progress(t, None)
    case Some(name) =>
      var p := Attempt(t, DropUnique(t, name));
      if p.error.Some? then p else Attempt(p.table, AddUnique(p.table, Derived(columns), columns))
  }

  function RestoreUniques(t: Table, live: seq<Unique>, historical: seq<seq<string>>): Progress
    decreases |historical|
  {
    if historical == [] then Progress(t, None)
    else
      var p := RestoreUnique(t, live, historical[0]);
      if p.error.Some? then p else RestoreUniques(p.table, live, historical[1..])
  }

  function DropPolicies(t: Table): Table {
    DropPolicyIfExists(DropPolicyIfExists(t, ISOLATION), BYPASS)
  }

  function DisableRls(t: Table): Table {
    t.(rlsEnabled := false, rlsForced := false)
  }

  function UnadoptTable(t: Table, historical: seq<seq<string>>): Progress {
    if ColumnType(t, TENANT).None? then Progress(t, None)
    else
      var t1 := DisableRls(DropPolicies(t));
      var p := RestoreUniques(t1, t1.uniques, historical);
      if p.error.Some? then p else Attempt(p.table, DropColumn(p.table, TENANT))
  }

  function UnadoptAll(tables: Tables, models: seq<Model>): (Tables, Option<Error>) {
    if models == [] then (tables, None)
    else if models[0].table !in tables then UnadoptAll(tables, models[1..])
    else
      var name := models[0].table;
      var p := UnadoptTable(tables[name], models[0].historical);
      if p.error.Some? then (tables[name := p.table], p.error)
      else UnadoptAll(tables[name := p.table], models[1..])
  }

  // ---- The whole operation ----

  /** The tables of one alias, its vendor, the tables its router denies, and the migrating session. */
  class SchemaEditor {
    const postgres: bool
    const denied: set<string>
    const session: Session
    var tables: Tables
    var helper: Option<string>

    constructor (postgres: bool, denied: set<string>, session: Session, tables: Tables)
      ensures this.postgres == postgres && this.denied == denied && this.session == session
      ensures this.tables == tables && helper == None
    {
      this.postgres, this.denied, this.session := postgres, denied, session;
      this.tables, this.helper := tables, None;
    }
  }

  function Permitted(models: seq<Model>, denied: set<string>): seq<Model> {
    Filter(AllowedOn(denied), models)
  }

  function AllowedOn(denied: set<string>): Model -> bool {
    (m: Model) => m.table !in denied
  }

  /** Everything that is decided before the first statement: the plans, or the refusal. */
  function Decide(p: Project, tables: Tables, app: string, exclude: set<string>, backfill: Option<string>,
                  postgres: bool, denied: set<string>, s: Session): Result<seq<Plan>, Error> {
    if RefusalReason(p, app).Some? then Err(RefusalReason(p, app).value)
    else
      var models := AdoptedModels(p, app, exclude);
      if models == [] then Err(EmptySet)
      else if Permitted(models, denied) == [] then Ok([])
      else if !postgres then Err(WrongVendor)
      else if p.keyType.None? then Err(UnmappableKey)
      else PlanAll(p, tables, Permitted(models, denied), p.keyType.value, backfill, s)
  }

  class AdoptTenantApp {
    const app: string
    const exclude: set<string>
    const backfill: Option<string>

    constructor (app: string, exclude: set<string>, backfill: Option<string>)
      ensures this.app == app && this.exclude == exclude && this.backfill == backfill
    {
      this.app, this.exclude, this.backfill := app, exclude, backfill;
    }

    method Models(p: Project) returns (models: seq<Model>)
      requires app in p.apps
      ensures models == AdoptedModels(p, app, exclude)
      ensures forall m :: m in models <==>
        && m in p.apps[app] && m.concrete && !m.scoped
        && m.name !in p.excluded && m.name !in exclude
        && m.name != p.tenantLabel && m.name !in p.tenantThrough
        && m.name !in DENIED_MODELS && m.table !in DENIED_TABLES
    {
      models := [];
      var all := p.apps[app];
      for i := 0 to |all|
        invariant models + Filter(AdoptableIn(p, exclude), all[i..]) == Filter(AdoptableIn(p, exclude), all)
      {
        FilterStep(AdoptableIn(p, exclude), models, all[i..]);
        if Adoptable(p, exclude, all[i]) {
          models := models + [all[i]];
        }
      }
    }

    method RouterAllowed(ed: SchemaEditor, models: seq<Model>) returns (r: seq<Model>)
      ensures r == Permitted(models, ed.denied)
      ensures forall m :: m in r <==> m in models && m.table !in ed.denied
    {
      r := [];
      for i := 0 to |models|
        invariant r + Filter(AllowedOn(ed.denied), models[i..]) == Filter(AllowedOn(ed.denied), models)
      {
        FilterStep(AllowedOn(ed.denied), r, models[i..]);
        if models[i].table !in ed.denied {
          r := r + [models[i]];
        }
      }
    }

    /** The read-only pass over the whole derived set. */
    method Validate(p: Project, ed: SchemaEditor, models: seq<Model>, pgType: string)
      returns (r: Result<seq<Plan>, Error>)
      ensures r == PlanAll(p, ed.tables, models, pgType, backfill, ed.session)
    {
      var plans := [];
      assert models[0..] == models;
      assert forall rest: seq<Plan> :: [] + rest == rest;
      for i := 0 to |models|
        invariant PlanAll(p, ed.tables, models, pgType, backfill, ed.session)
               == Prepend(plans, PlanAll(p, ed.tables, models[i..], pgType, backfill, ed.session))
      {
        assert models[i..][1..] == models[i + 1..];
        var plan := ValidateTable(p, ed.tables, models[i], pgType, backfill, ed.session);
        if plan.Err? {
          return Err(plan.error);
        }
        ghost var rest := PlanAll(p, ed.tables, models[i + 1..], pgType, backfill, ed.session);
        if plan.value.Some? {
          assert rest.Ok? ==> plans + ([plan.value.value] + rest.value) == plans + [plan.value.value] + rest.value;
          plans := plans + [plan.value.value];
        } else {
          assert rest.Ok? ==> [] + rest.value == rest.value;
        }
      }
      assert plans + [] == plans;
      r := Ok(plans);
    }

    method AddColumn(ed: SchemaEditor, plan: Plan) returns (error: Option<Error>)
      requires plan.table in ed.tables
      modifies ed`tables
      ensures
        var done := AddTenantColumn(old(ed.tables[plan.table]), plan, BackfillValue(backfill), ed.session);
        ed.tables == old(ed.tables)[plan.table := done.table] && error == done.error
    {
      var t := ed.tables[plan.table];
      if plan.existingRows == 0 {
        var p := Attempt(t, Catalogue.AddColumn(t, TENANT, ONE_SHOT(plan.pgType), ed.session));
        ed.tables := ed.tables[plan.table := p.table];
        return p.error;
      }
      var p := Attempt(t, Catalogue.AddColumn(t, TENANT, Column(plan.pgType, false, NoDefault), ed.session));
      ed.tables := ed.tables[plan.table := p.table];
      if p.error.Some? {
        return p.error;
      }
      p := Backfill(p.table, plan, BackfillValue(backfill), ed.session);
      ed.tables := ed.tables[plan.table := p.table];
      if p.error.Some? {
        return p.error;
      }
      error := Constrain(ed, plan.table);
    }

    method Constrain(ed: SchemaEditor, name: string) returns (error: Option<Error>)
      requires name in ed.tables
      modifies ed`tables
      ensures
        var done := ConstrainColumn(old(ed.tables[name]));
        ed.tables == old(ed.tables)[name := done.table] && error == done.error
    {
      var p := Attempt(ed.tables[name], SetNotNull(ed.tables[name], TENANT));
      if p.error.None? {
        p := Attempt(p.table, SetDefault(p.table, TENANT, CurrentTenantId));
      }
      ed.tables := ed.tables[name := p.table];
      error := p.error;
    }

    /** The original constraint goes before its wider replacement is added. */
    method RewriteUnique(ed: SchemaEditor, name: string, w: Rewrite) returns (error: Option<Error>)
      requires name in ed.tables
      modifies ed`tables
      ensures
        var done := ApplyRewrite(old(ed.tables[name]), w);
        ed.tables == old(ed.tables)[name := done.table] && error == done.error
    {
      var t := ed.tables[name];
      var p := Attempt(t, DropUnique(t, w.name));
      if p.error.None? {
        p := Attempt(p.table, AddUnique(p.table, Composite(w.name), w.columns));
      }
      ed.tables := ed.tables[name := p.table];
      error := p.error;
    }

    method RewriteUniques(ed: SchemaEditor, name: string, rewrites: seq<Rewrite>) returns (error: Option<Error>)
      requires name in ed.tables
      modifies ed`tables
      ensures
        var done := ApplyRewrites(old(ed.tables[name]), rewrites);
        ed.tables == old(ed.tables)[name := done.table] && error == done.error
    {
      for i := 0 to |rewrites|
        invariant name in ed.tables && ed.tables == old(ed.tables)[name := ed.tables[name]]
        invariant ApplyRewrites(ed.tables[name], rewrites[i..]) == ApplyRewrites(old(ed.tables[name]), rewrites)
      {
        assert rewrites[i..][1..] == rewrites[i + 1..];
        error := RewriteUnique(ed, name, rewrites[i]);
        if error.Some? {
          return;
        }
      }
      error := None;
    }

    method Adopt(ed: SchemaEditor, plan: Plan) returns (error: Option<Error>)
      requires plan.table in ed.tables
      modifies ed`tables
      ensures
        var done := AdoptTable(old(ed.tables[plan.table]), plan, BackfillValue(backfill), ed.session);
        ed.tables == old(ed.tables)[plan.table := done.table] && error == done.error
    {
      error := AddColumn(ed, plan);
      if error.Some? {
        return;
      }
      error := RewriteUniques(ed, plan.table, plan.rewrites);
      if error.Some? {
        return;
      }
      var p := CreateTenantPolicies(EnableRls(ed.tables[plan.table]), TENANT);
      ed.tables := ed.tables[plan.table := p.table];
      error := p.error;
    }

    /** A refusal leaves the catalogue exactly as it was; `writers` is what other sessions wrote meanwhile. */
    method DatabaseForwards(p: Project, ed: SchemaEditor, writers: map<string, seq<Row>>) returns (error: Option<Error>)
      modifies ed`tables, ed`helper
      ensures
        match Decide(p, old(ed.tables), app, exclude, backfill, ed.postgres, ed.denied, ed.session)
        case Err(e) => error == Some(e) && ed.tables == old(ed.tables) && ed.helper == old(ed.helper)
        case Ok(plans) =>
          && (ed.tables, error) == AdoptAll(old(ed.tables), plans, writers, BackfillValue(backfill), ed.session)
          && ed.helper == if plans == [] then old(ed.helper) else p.keyType
    {
      var refusal := RefusalReason(p, app);
      if refusal.Some? {
        return refusal;
      }
      var models := Models(p);
      if models == [] {
        return Some(EmptySet);
      }
      models := RouterAllowed(ed, models);
      if models == [] {
        return None;
      }
      if !ed.postgres {
        return Some(WrongVendor);
      }
      if p.keyType.None? {
        return Some(UnmappableKey);
      }
      var validated := Validate(p, ed, models, p.keyType.value);
      if validated.Err? {
        return Some(validated.error);
      }
      var plans := validated.value;
      if plans != [] {
        ed.helper := p.keyType;
      }
      error := AdoptPlans(ed, plans, writers);
    }

    /** ALTER TABLE waits for the writers, then keeps them out. */
    method AdoptLocked(ed: SchemaEditor, plan: Plan, writers: map<string, seq<Row>>) returns (error: Option<Error>)
      requires plan.table in ed.tables
      modifies ed`tables
      ensures
        var t := AtLock(old(ed.tables[plan.table]), plan.table, writers);
        var done := AdoptTable(t, plan, BackfillValue(backfill), ed.session);
        ed.tables == old(ed.tables)[plan.table := done.table] && error == done.error
    {
      ed.tables := ed.tables[plan.table := AtLock(ed.tables[plan.table], plan.table, writers)];
      error := Adopt(ed, plan);
    }

    method AdoptPlans(ed: SchemaEditor, plans: seq<Plan>, writers: map<string, seq<Row>>) returns (error: Option<Error>)
      modifies ed`tables
      ensures (ed.tables, error) == AdoptAll(old(ed.tables), plans, writers, BackfillValue(backfill), ed.session)
    {
      ghost var goal := AdoptAll(ed.tables, plans, writers, BackfillValue(backfill), ed.session);
      for i := 0 to |plans|
        invariant AdoptAll(ed.tables, plans[i..], writers, BackfillValue(backfill), ed.session) == goal
      {
        var name := plans[i].table;
        if name !in ed.tables {
          return Some(Database(UndefinedTable));
        }
        error := AdoptLocked(ed, plans[i], writers);
        if error.Some? {
          return;
        }
      }
      error := None;
    }

    method Unadopt(ed: SchemaEditor, m: Model) returns (error: Option<Error>)
      requires m.table in ed.tables
      modifies ed`tables
      ensures
        var done := UnadoptTable(old(ed.tables[m.table]), m.historical);
        ed.tables == old(ed.tables)[m.table := done.table] && error == done.error
    {
      var t := ed.tables[m.table];
      if ColumnType(t, TENANT).None? {
        return None;
      }
      t := DisableRls(DropPolicies(t));
      ed.tables := ed.tables[m.table := t];
      var live := t.uniques;
      ghost var goal := RestoreUniques(t, live, m.historical);
      for i := 0 to |m.historical|
        invariant m.table in ed.tables && ed.tables == old(ed.tables)[m.table := ed.tables[m.table]]
        invariant RestoreUniques(ed.tables[m.table], live, m.historical[i..]) == goal
      {
        var p := RestoreUnique(ed.tables[m.table], live, m.historical[i]);
        ed.tables := ed.tables[m.table := p.table];
        if p.error.Some? {
          return p.error;
        }
      }
      var p := Attempt(ed.tables[m.table], DropColumn(ed.tables[m.table], TENANT));
      ed.tables := ed.tables[m.table := p.table];
      error := p.error;
    }

    /** No refusal of the forward is repeated; an app no longer installed makes the derivation itself raise. */
    method DatabaseBackwards(p: Project, ed: SchemaEditor) returns (error: Option<Error>)
      modifies ed`tables
      ensures app !in p.apps ==> error == Some(LookupError) && ed.tables == old(ed.tables)
      ensures app in p.apps ==>
        var models := Permitted(AdoptedModels(p, app, exclude), ed.denied);
        if models != [] && !ed.postgres then error == Some(WrongVendor) && ed.tables == old(ed.tables)
        else (ed.tables, error) == UnadoptAll(old(ed.tables), models)
    {
      if app !in p.apps {
        return Some(LookupError);
      }
      var models := Models(p);
      models := RouterAllowed(ed, models);
      if models == [] {
        return None;
      }
      if !ed.postgres {
        return Some(WrongVendor);
      }
      ghost var goal := UnadoptAll(ed.tables, models);
      for i := 0 to |models|
        invariant UnadoptAll(ed.tables, models[i..]) == goal
      {
        // A table the catalogue does not hold has no tenant_id column either.
        if models[i].table in ed.tables {
          error := Unadopt(ed, models[i]);
          if error.Some? {
            return;
          }
        }
      }
      error := None;
    }
  }
}
