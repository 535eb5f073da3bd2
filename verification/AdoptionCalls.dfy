/**
 `AdoptTenantApp` over a whole app: one call, several calls, a second call. The
 outcome of every table depends on that table alone, so how the tables are
 split across calls, and in which order, makes no difference.
 */
module AdoptionCalls {
  import opened Prelude
  import opened Catalogue
  import opened Adoption
  import opened AdoptionForward

  /** What one call is given besides the models. */
  datatype Call = Call(project: Project, pgType: string, backfill: Option<string>, session: Session)

  function Plans(c: Call, tables: Tables, models: seq<Model>): Result<seq<Plan>, Error> {
    PlanAll(c.project, tables, models, c.pgType, c.backfill, c.session)
  }

  /** Both passes; `writers` is what other sessions left in a table by the time its ALTER TABLE got the lock. */
  function ForwardAmid(c: Call, tables: Tables, models: seq<Model>,
                       writers: map<string, seq<Row>>): (Tables, Option<Error>) {
    match Plans(c, tables, models)
    case Err(e) => (tables, Some(e))
    case Ok(plans) => AdoptAll(tables, plans, writers, BackfillValue(c.backfill), c.session)
  }

  /** Both passes, over tables no other session writes meanwhile. */
  function Forward(c: Call, tables: Tables, models: seq<Model>): (Tables, Option<Error>) {
    ForwardAmid(c, tables, models, map[])
  }

  function Validated(c: Call, tables: Tables, m: Model): Result<Option<Plan>, Error> {
    ValidateTable(c.project, tables, m, c.pgType, c.backfill, c.session)
  }

  function Adopted(c: Call, t: Table, plan: Plan): Progress {
    AdoptTable(t, plan, BackfillValue(c.backfill), c.session)
  }

  /** One table by itself: refused, failed, or what it becomes. */
  function TableOutcome(c: Call, tables: Tables, m: Model): Result<Table, Error> {
    match Validated(c, tables, m)
    case Err(e) => Err(e)
    case Ok(None) => if m.table in tables then Ok(tables[m.table]) else Err(Database(UndefinedTable))
    case Ok(Some(plan)) =>
      if m.table !in tables then Err(Database(UndefinedTable))
      else
        var p := Adopted(c, tables[m.table], plan);
        if p.error.Some? then Err(p.error.value) else Ok(p.table)
  }

  ghost predicate DistinctTables(models: seq<Model>) {
    forall i, j :: 0 <= i < j < |models| ==> models[i].table != models[j].table
  }

  lemma ValidatedOwnTable(c: Call, tables: Tables, tables': Tables, m: Model)
    requires m.table in tables <==> m.table in tables'
    requires m.table in tables ==> tables[m.table] == tables'[m.table]
    ensures Validated(c, tables, m) == Validated(c, tables', m)
    ensures TableOutcome(c, tables, m) == TableOutcome(c, tables', m)
  {
  }

  lemma PlanNamesTable(c: Call, tables: Tables, m: Model)
    ensures Validated(c, tables, m).Ok? && Validated(c, tables, m).value.Some? ==>
      Validated(c, tables, m).value.value.table == m.table && m.table in tables
    ensures Validated(c, tables, m).Ok? && Validated(c, tables, m).value.None? ==> m.table in tables
  {
  }

  /** The same call, table after table: validate and adopt each before looking at the next. */
  function OneByOne(c: Call, tables: Tables, models: seq<Model>): Option<Tables> {
    if models == [] then Some(tables)
    else
      match TableOutcome(c, tables, models[0])
      case Err(_) => None
      case Ok(t) => OneByOne(c, tables[models[0].table := t], models[1..])
  }

  /** Validating the whole set first changes neither whether a call completes nor its result. */
  lemma {:induction false} ForwardIsOneByOne(c: Call, tables: Tables, models: seq<Model>)
    requires DistinctTables(models)
    ensures Forward(c, tables, models).1.None? <==> OneByOne(c, tables, models).Some?
    ensures OneByOne(c, tables, models).Some? ==> Forward(c, tables, models).0 == OneByOne(c, tables, models).value
    decreases |models|
  {
    if models != [] {
      var m, rest := models[0], models[1..];
      PlanNamesTable(c, tables, m);
      if Validated(c, tables, m).Ok? {
        if Validated(c, tables, m).value.None? {
          assert tables[m.table := tables[m.table]] == tables;
          ForwardIsOneByOne(c, tables, rest);
          SkippedFirst(c, tables, models);
        } else {
          var plan := Validated(c, tables, m).value.value;
          var p := Adopted(c, tables[m.table], plan);
          var tables' := tables[m.table := p.table];
          PlansUnaffected(c, tables, tables', rest, m.table);
          PlannedFirst(c, tables, models);
          ForwardIsOneByOne(c, tables', rest);
        }
      }
    }
  }

  /** Plans of other tables do not see a change to one. */
  lemma {:induction false} PlansUnaffected(c: Call, tables: Tables, tables': Tables, models: seq<Model>, name: string)
    requires forall m :: m in models ==> m.table != name
    requires forall n :: n != name ==> (n in tables <==> n in tables') && (n in tables ==> tables[n] == tables'[n])
    ensures PlanAll(c.project, tables, models, c.pgType, c.backfill, c.session)
         == PlanAll(c.project, tables', models, c.pgType, c.backfill, c.session)
    decreases |models|
  {
    if models != [] {
      ValidatedOwnTable(c, tables, tables', models[0]);
      PlansUnaffected(c, tables, tables', models[1..], name);
    }
  }

  lemma SkippedFirst(c: Call, tables: Tables, models: seq<Model>)
    requires models != [] && Validated(c, tables, models[0]) == Ok(None)
    ensures Forward(c, tables, models) == Forward(c, tables, models[1..])
  {
    var rest := PlanAll(c.project, tables, models[1..], c.pgType, c.backfill, c.session);
    assert rest.Ok? ==> [] + rest.value == rest.value;
  }

  lemma PlannedFirst(c: Call, tables: Tables, models: seq<Model>)
    requires models != [] && Validated(c, tables, models[0]).Ok? && Validated(c, tables, models[0]).value.Some?
    requires models[0].table in tables
    ensures
      var plan := Validated(c, tables, models[0]).value.value;
      var rest := PlanAll(c.project, tables, models[1..], c.pgType, c.backfill, c.session);
      var p := Adopted(c, tables[models[0].table], plan);
      && (rest.Err? ==> Forward(c, tables, models) == (tables, Some(rest.error)))
      && (rest.Ok? && p.error.Some? ==> Forward(c, tables, models) == (tables[models[0].table := p.table], p.error))
      && (rest.Ok? && p.error.None? ==>
           Forward(c, tables, models)
           == AdoptAll(tables[models[0].table := p.table], rest.value, map[], BackfillValue(c.backfill), c.session))
  {
    PlanNamesTable(c, tables, models[0]);
    var plan := Validated(c, tables, models[0]).value.value;
    var rest := PlanAll(c.project, tables, models[1..], c.pgType, c.backfill, c.session);
    if rest.Ok? {
      assert ([plan] + rest.value)[1..] == rest.value;
    }
  }

  // ---- The outcome, table by table ----

  /** A call completes exactly when each table's own outcome does, and then changes each to its own. */
  lemma {:induction false} TableByTable(c: Call, tables: Tables, models: seq<Model>)
    requires DistinctTables(models)
    ensures OneByOne(c, tables, models).Some? <==> forall m :: m in models ==> TableOutcome(c, tables, m).Ok?
    ensures OneByOne(c, tables, models).Some? ==>
      var tables' := OneByOne(c, tables, models).value;
      && tables'.Keys == tables.Keys
      && (forall m :: m in models ==> m.table in tables && Ok(tables'[m.table]) == TableOutcome(c, tables, m))
      && (forall n :: n in tables && (forall m :: m in models ==> m.table != n) ==> tables'[n] == tables[n])
    decreases |models|
  {
    if models != [] && TableOutcome(c, tables, models[0]).Ok? {
      var m, rest := models[0], models[1..];
      PlanNamesTable(c, tables, m);
      var tables1 := tables[m.table := TableOutcome(c, tables, m).value];
      TableByTable(c, tables1, rest);
      forall m' | m' in rest
        ensures m'.table != m.table && TableOutcome(c, tables1, m') == TableOutcome(c, tables, m')
      {
        var i :| 0 <= i < |rest| && rest[i] == m';
        assert models[i + 1] == m';
        ValidatedOwnTable(c, tables, tables1, m');
      }
      assert forall m' :: m' in models <==> m' == m || m' in rest;
    }
  }

  // ---- Amid other sessions' writes, and when it fails ----

  function PassTwo(c: Call, tables: Tables, plans: seq<Plan>, writers: map<string, seq<Row>>): (Tables, Option<Error>) {
    AdoptAll(tables, plans, writers, BackfillValue(c.backfill), c.session)
  }

  ghost predicate DistinctPlans(plans: seq<Plan>) {
    forall i, j :: 0 <= i < j < |plans| ==> plans[i].table != plans[j].table
  }

  /** Pass one plans each table once, and each as it would by itself. */
  lemma {:induction false} PlansAre(c: Call, tables: Tables, models: seq<Model>)
    requires DistinctTables(models) && Plans(c, tables, models).Ok?
    ensures
      var plans := Plans(c, tables, models).value;
      && DistinctPlans(plans)
      && (forall p :: p in plans ==>
            && p.table in tables
            && exists m :: m in models && m.table == p.table && Validated(c, tables, m) == Ok(Some(p)))
      && (forall m :: m in models ==>
            && Validated(c, tables, m).Ok? && m.table in tables
            && (Validated(c, tables, m).value.Some? ==> Validated(c, tables, m).value.value in plans))
    decreases |models|
  {
    if models != [] {
      var m, rest := models[0], models[1..];
      PlansAre(c, tables, rest);
      PlanNamesTable(c, tables, m);
      forall m' | m' in rest ensures m'.table != m.table {
        var i :| 0 <= i < |rest| && rest[i] == m';
        assert models[i + 1] == m';
      }
      var plans := Plans(c, tables, rest).value;
      forall p | p in plans ensures p.table != m.table {
      }
      var own := Validated(c, tables, m).value;
      assert Plans(c, tables, models).value == (if own.Some? then [own.value] else []) + plans;
      assert forall m' :: m' in models <==> m' == m || m' in rest;
    }
  }

  function Locked(c: Call, tables: Tables, plan: Plan, writers: map<string, seq<Row>>): Progress
    requires plan.table in tables
  {
    Adopted(c, AtLock(tables[plan.table], plan.table, writers), plan)
  }

  /** Adopting the first planned table leaves every other plan its table. */
  lemma OthersUnlocked(c: Call, tables: Tables, plans: seq<Plan>, writers: map<string, seq<Row>>)
    requires plans != [] && DistinctPlans(plans) && forall p :: p in plans ==> p.table in tables
    ensures
      var tables1 := tables[plans[0].table := Locked(c, tables, plans[0], writers).table];
      forall q :: q in plans[1..] ==>
        && q.table != plans[0].table && q.table in tables
        && Locked(c, tables1, q, writers) == Locked(c, tables, q, writers)
  {
    forall q | q in plans[1..] ensures q.table != plans[0].table && q in plans {
      var i :| 0 <= i < |plans[1..]| && plans[1..][i] == q;
      assert plans[i + 1] == q;
    }
  }

  /** Each plan completes or not by itself, and touches its own table alone. */
  ghost predicate PlanByPlan(c: Call, tables: Tables, plans: seq<Plan>, writers: map<string, seq<Row>>,
                             r: (Tables, Option<Error>))
    requires forall p :: p in plans ==> p.table in tables
  {
    && r.0.Keys == tables.Keys
    && (forall n :: n in tables && (forall p :: p in plans ==> p.table != n) ==> r.0[n] == tables[n])
    && (r.1.None? <==> forall p :: p in plans ==> Locked(c, tables, p, writers).error.None?)
    && (r.1.None? ==> forall p :: p in plans ==> r.0[p.table] == Locked(c, tables, p, writers).table)
  }

  lemma PlanByPlanStep(c: Call, tables: Tables, plans: seq<Plan>, writers: map<string, seq<Row>>,
                       r: (Tables, Option<Error>))
    requires plans != [] && DistinctPlans(plans) && forall p :: p in plans ==> p.table in tables
    requires Locked(c, tables, plans[0], writers).error.None?
    requires
      var tables1 := tables[plans[0].table := Locked(c, tables, plans[0], writers).table];
      PlanByPlan(c, tables1, plans[1..], writers, r)
    ensures PlanByPlan(c, tables, plans, writers, r)
  {
    OthersUnlocked(c, tables, plans, writers);
    assert forall q :: q in plans <==> q == plans[0] || q in plans[1..];
    assert r.0[plans[0].table] == Locked(c, tables, plans[0], writers).table;
  }

  lemma {:induction false} EachPlanByItself(c: Call, tables: Tables, plans: seq<Plan>, writers: map<string, seq<Row>>)
    requires DistinctPlans(plans) && forall p :: p in plans ==> p.table in tables
    ensures PlanByPlan(c, tables, plans, writers, PassTwo(c, tables, plans, writers))
    decreases |plans|
  {
    if plans != [] {
      var done := Locked(c, tables, plans[0], writers);
      assert plans[0] in plans;
      if done.error.None? {
        OthersUnlocked(c, tables, plans, writers);
        EachPlanByItself(c, tables[plans[0].table := done.table], plans[1..], writers);
        PlanByPlanStep(c, tables, plans, writers, PassTwo(c, tables, plans, writers));
      }
    }
  }

  /** In a call that completes, a table is planned as by itself and becomes what its plan makes of it. */
  lemma CompletedTable(c: Call, tables: Tables, models: seq<Model>, writers: map<string, seq<Row>>, m: Model)
    requires DistinctTables(models) && ForwardAmid(c, tables, models, writers).1.None? && m in models
    ensures Validated(c, tables, m).Ok? && m.table in tables
    ensures ForwardAmid(c, tables, models, writers).0.Keys == tables.Keys
    ensures Validated(c, tables, m).value.Some? ==>
      var plan := Validated(c, tables, m).value.value;
      && plan.table == m.table && Locked(c, tables, plan, writers).error.None?
      && ForwardAmid(c, tables, models, writers).0[m.table] == Locked(c, tables, plan, writers).table
  {
    PlansAre(c, tables, models);
    EachPlanByItself(c, tables, Plans(c, tables, models).value, writers);
    PlanNamesTable(c, tables, m);
  }

  /** And every other table is as it was. */
  lemma CompletedOthers(c: Call, tables: Tables, models: seq<Model>, writers: map<string, seq<Row>>)
    requires DistinctTables(models) && ForwardAmid(c, tables, models, writers).1.None?
    ensures
      var tables' := ForwardAmid(c, tables, models, writers).0;
      && tables'.Keys == tables.Keys
      && forall n :: n in tables && (forall m :: m in models ==> m.table != n) ==> tables'[n] == tables[n]
  {
    PlansAre(c, tables, models);
    EachPlanByItself(c, tables, Plans(c, tables, models).value, writers);
  }

  /** The tables before the i-th plan adopted, the i-th part-way through, all others as they were. */
  ghost predicate StoppedAt(c: Call, tables: Tables, plans: seq<Plan>, writers: map<string, seq<Row>>,
                            r: (Tables, Option<Error>), i: nat)
    requires forall p :: p in plans ==> p.table in tables
  {
    && i < |plans| && r.0.Keys == tables.Keys
    && (forall j :: 0 <= j < i ==> Locked(c, tables, plans[j], writers) == Progress(r.0[plans[j].table], None))
    && Locked(c, tables, plans[i], writers) == Progress(r.0[plans[i].table], r.1)
    && (forall n :: n in tables && (forall j :: 0 <= j <= i ==> plans[j].table != n) ==> r.0[n] == tables[n])
  }

  lemma StoppedLater(c: Call, tables: Tables, plans: seq<Plan>, writers: map<string, seq<Row>>,
                     r: (Tables, Option<Error>), i: nat)
    requires plans != [] && DistinctPlans(plans) && forall p :: p in plans ==> p.table in tables
    requires Locked(c, tables, plans[0], writers).error.None?
    requires
      var tables1 := tables[plans[0].table := Locked(c, tables, plans[0], writers).table];
      StoppedAt(c, tables1, plans[1..], writers, r, i)
    ensures StoppedAt(c, tables, plans, writers, r, i + 1)
  {
    var rest := plans[1..];
    assert forall j :: 0 <= j <= i ==> rest[j] == plans[j + 1] && rest[j].table != plans[0].table;
    assert r.0[plans[0].table] == Locked(c, tables, plans[0], writers).table;
    forall j | 0 <= j < i + 1 ensures Locked(c, tables, plans[j], writers) == Progress(r.0[plans[j].table], None) {
      if j > 0 {
        OtherUnlocked(c, tables, plans, writers, j);
        assert rest[j - 1] == plans[j];
      }
    }
    OtherUnlocked(c, tables, plans, writers, i + 1);
    assert Locked(c, tables, plans[i + 1], writers) == Progress(r.0[plans[i + 1].table], r.1);
    forall n | n in tables && (forall j :: 0 <= j <= i + 1 ==> plans[j].table != n) ensures r.0[n] == tables[n] {
      assert plans[0].table != n;
    }
  }

  lemma OtherUnlocked(c: Call, tables: Tables, plans: seq<Plan>, writers: map<string, seq<Row>>, j: nat)
    requires 1 <= j < |plans| && DistinctPlans(plans) && forall p :: p in plans ==> p.table in tables
    ensures
      var tables1 := tables[plans[0].table := Locked(c, tables, plans[0], writers).table];
      Locked(c, tables1, plans[j], writers) == Locked(c, tables, plans[j], writers)
  {
    assert plans[0].table != plans[j].table;
  }

  /**
   A call that passes validation and then fails has adopted the tables before
   some plan, got part-way through that one, and not begun on those after it.
   */
  lemma {:induction false} FailsPartWay(c: Call, tables: Tables, plans: seq<Plan>, writers: map<string, seq<Row>>)
    returns (i: nat)
    requires DistinctPlans(plans) && forall p :: p in plans ==> p.table in tables
    requires PassTwo(c, tables, plans, writers).1.Some?
    ensures StoppedAt(c, tables, plans, writers, PassTwo(c, tables, plans, writers), i)
    decreases |plans|
  {
    if Locked(c, tables, plans[0], writers).error.Some? {
      i := 0;
    } else {
      var tables1 := tables[plans[0].table := Locked(c, tables, plans[0], writers).table];
      var k := FailsPartWay(c, tables1, plans[1..], writers);
      StoppedLater(c, tables, plans, writers, PassTwo(c, tables, plans, writers), k);
      i := k + 1;
    }
  }

  // ---- Several calls ----

  function Calls(c: Call, tables: Tables, parts: seq<seq<Model>>): (Tables, Option<Error>)
    decreases |parts|
  {
    if parts == [] then (tables, None)
    else
      var r := Forward(c, tables, parts[0]);
      if r.1.Some? then r else Calls(c, r.0, parts[1..])
  }

  function Flatten(parts: seq<seq<Model>>): seq<Model> {
    if parts == [] then [] else parts[0] + Flatten(parts[1..])
  }

  lemma {:induction false} OneByOneConcat(c: Call, tables: Tables, a: seq<Model>, b: seq<Model>)
    ensures OneByOne(c, tables, a + b) ==
            if OneByOne(c, tables, a).None? then None else OneByOne(c, OneByOne(c, tables, a).value, b)
    decreases |a|
  {
    if a == [] {
      assert a + b == b;
    } else {
      assert (a + b)[1..] == a[1..] + b;
      if TableOutcome(c, tables, a[0]).Ok? {
        OneByOneConcat(c, tables[a[0].table := TableOutcome(c, tables, a[0]).value], a[1..], b);
      }
    }
  }

  lemma {:induction false} CallsAreOneByOne(c: Call, tables: Tables, parts: seq<seq<Model>>)
    requires DistinctTables(Flatten(parts))
    ensures Calls(c, tables, parts).1.None? <==> OneByOne(c, tables, Flatten(parts)).Some?
    ensures Calls(c, tables, parts).1.None? ==> Calls(c, tables, parts).0 == OneByOne(c, tables, Flatten(parts)).value
    decreases |parts|
  {
    if parts != [] {
      var all, rest := Flatten(parts), Flatten(parts[1..]);
      forall i, j | 0 <= i < j < |parts[0]| ensures parts[0][i].table != parts[0][j].table {
        assert all[i] == parts[0][i] && all[j] == parts[0][j];
      }
      forall i, j | 0 <= i < j < |rest| ensures rest[i].table != rest[j].table {
        assert all[|parts[0]| + i] == rest[i] && all[|parts[0]| + j] == rest[j];
      }
      ForwardIsOneByOne(c, tables, parts[0]);
      OneByOneConcat(c, tables, parts[0], rest);
      if Forward(c, tables, parts[0]).1.None? {
        CallsAreOneByOne(c, Forward(c, tables, parts[0]).0, parts[1..]);
      }
    }
  }

  /**
   Adopting an app in one call and adopting its tables over any number of
   calls, split and ordered in any way, complete together and end alike.
   */
  lemma SplittingMakesNoDifference(c: Call, tables: Tables, models: seq<Model>, parts: seq<seq<Model>>)
    requires DistinctTables(models) && DistinctTables(Flatten(parts))
    requires forall m :: m in models <==> m in Flatten(parts)
    ensures Forward(c, tables, models).1.None? <==> Calls(c, tables, parts).1.None?
    ensures Forward(c, tables, models).1.None? ==> Forward(c, tables, models).0 == Calls(c, tables, parts).0
  {
    ForwardIsOneByOne(c, tables, models);
    CallsAreOneByOne(c, tables, parts);
    TableByTable(c, tables, models);
    TableByTable(c, tables, Flatten(parts));
    if Forward(c, tables, models).1.None? {
      var t1, t2 := Forward(c, tables, models).0, Calls(c, tables, parts).0;
      forall n | n in tables ensures t1[n] == t2[n] {
        if m :| m in models && m.table == n {
          assert m in Flatten(parts);
        }
      }
    }
  }

  // ---- A second call ----

  lemma {:induction false} RewritesKeepColumns(t: Table, ws: seq<Rewrite>)
    ensures ApplyRewrites(t, ws).table.columns == t.columns
    decreases |ws|
  {
    if ws != [] {
      var p := ApplyRewrite(t, ws[0]);
      RewritesKeepColumns(p.table, ws[1..]);
    }
  }

  /** What a call leaves behind is skipped by the next. */
  lemma OutcomeIsSkipped(c: Call, tables: Tables, m: Model)
    requires TableOutcome(c, tables, m).Ok?
    ensures Validated(c, tables[m.table := TableOutcome(c, tables, m).value], m) == Ok(None)
  {
    PlanNamesTable(c, tables, m);
    if Validated(c, tables, m).value.Some? {
      var plan := Validated(c, tables, m).value.value;
      AddedColumnType(tables[m.table], plan, BackfillValue(c.backfill), c.session);
      var t1 := AddTenantColumn(tables[m.table], plan, BackfillValue(c.backfill), c.session).table;
      RewritesKeepColumns(t1, plan.rewrites);
      PoliciesCreated(EnableRls(ApplyRewrites(t1, plan.rewrites).table), TENANT);
    }
  }

  lemma AddedColumnType(t: Table, plan: Plan, backfill: Value, s: Session)
    requires AddTenantColumn(t, plan, backfill, s).error.None?
    ensures ColumnType(AddTenantColumn(t, plan, backfill, s).table, TENANT) == Some(plan.pgType)
  {
    if plan.existingRows != 0 {
      ThreeSteps(t, plan, backfill, s);
    }
  }

  lemma {:induction false} AllSkipped(c: Call, tables: Tables, models: seq<Model>)
    requires forall m :: m in models ==> Validated(c, tables, m) == Ok(None)
    ensures Forward(c, tables, models) == (tables, None)
    decreases |models|
  {
    if models != [] {
      SkippedFirst(c, tables, models);
      AllSkipped(c, tables, models[1..]);
    }
  }

  /** Running the same adoption again changes nothing and refuses nothing. */
  lemma SecondForwardIsIdentity(c: Call, tables: Tables, models: seq<Model>)
    requires DistinctTables(models) && Forward(c, tables, models).1.None?
    ensures var tables' := Forward(c, tables, models).0; Forward(c, tables', models) == (tables', None)
  {
    ForwardIsOneByOne(c, tables, models);
    TableByTable(c, tables, models);
    var tables' := Forward(c, tables, models).0;
    forall m | m in models ensures Validated(c, tables', m) == Ok(None) {
      OutcomeIsSkipped(c, tables, m);
      ValidatedOwnTable(c, tables[m.table := TableOutcome(c, tables, m).value], tables', m);
    }
    AllSkipped(c, tables', models);
  }
}
