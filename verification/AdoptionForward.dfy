/**
 What adopting a table guarantees: every row stamped with the declared tenant
 whatever other sessions wrote meanwhile, uniques that cannot fail to widen,
 and a result that depends on each table alone.
 */
module AdoptionForward {
  import opened Prelude
  import opened Catalogue
  import opened Adoption

  // ---- The rewritten uniques ----

  function Rewritten(u: Unique): Unique {
    Unique(Composite(u.name), [TENANT] + u.columns, false, false)
  }

  function RewrittenAll(us: seq<Unique>): (r: seq<Unique>)
    ensures |r| == |us|
    ensures forall i :: 0 <= i < |us| ==> r[i] == Rewritten(us[i])
  {
    seq(|us|, i requires 0 <= i < |us| => Rewritten(us[i]))
  }

  function RewriteFor(u: Unique): Rewrite {
    Rewrite(u.name, [TENANT] + u.columns)
  }

  ghost predicate DistinctNames(us: seq<Unique>) {
    forall i, j :: 0 <= i < j < |us| ==> us[i].name != us[j].name
  }

  lemma {:induction false} RewritesShape(us: seq<Unique>)
    requires RewritesOf(us).Ok?
    ensures |RewritesOf(us).value| == |us|
    ensures forall i :: 0 <= i < |us| ==> RewritesOf(us).value[i] == RewriteFor(us[i])
  {
    if us != [] {
      RewritesShape(us[1..]);
    }
  }

  /** Dropping the first of a list of distinctly named uniques leaves the others. */
  lemma DropFirst(t: Table, u: Unique, rest: seq<Unique>)
    requires t.uniques == [u] + rest && DistinctNames(t.uniques)
    ensures DropUnique(t, u.name) == Ok(t.(uniques := rest))
  {
    var keep := NotNamed(u.name);
    assert u in t.uniques;
    forall v | v in rest ensures keep(v) {
      var i :| 0 <= i < |rest| && rest[i] == v;
      assert t.uniques[0].name != t.uniques[i + 1].name;
    }
    FilterAll(keep, rest);
    FilterDrops(keep, [], u, rest);
  }

  function Advanced(us: seq<Unique>, done: seq<Unique>): seq<Unique>
    requires us != []
  {
    us[1..] + (done + [Rewritten(us[0])])
  }

  /** One rewrite moves the first unique, widened, to the end; it fails only where its ADD does. */
  lemma RewriteStep(t: Table, us: seq<Unique>, done: seq<Unique>)
    requires us != [] && t.uniques == us + done && DistinctNames(t.uniques)
    ensures
      var u := us[0];
      var p := ApplyRewrite(t, RewriteFor(u));
      && (p.error.None? <==> AddUnique(t.(uniques := us[1..] + done), Composite(u.name), [TENANT] + u.columns).Ok?)
      && (p.error.None? ==> p.table == t.(uniques := Advanced(us, done)) && DistinctNames(Advanced(us, done)))
  {
    var u, rest := us[0], us[1..] + done;
    assert t.uniques == [u] + rest;
    DropFirst(t, u, rest);
    assert rest + [Rewritten(u)] == Advanced(us, done);
    forall i, j | 0 <= i < j < |rest| ensures rest[i].name != rest[j].name {
      assert t.uniques[i + 1] == rest[i] && t.uniques[j + 1] == rest[j];
    }
  }

  lemma ApplyRewritesUnfold(t: Table, ws: seq<Rewrite>)
    requires ws != []
    ensures
      var p := ApplyRewrite(t, ws[0]);
      ApplyRewrites(t, ws) == if p.error.Some? then p else ApplyRewrites(p.table, ws[1..])
  {
  }

  ghost predicate RewritesFor(ws: seq<Rewrite>, us: seq<Unique>) {
    |ws| == |us| && forall i :: 0 <= i < |us| ==> ws[i] == RewriteFor(us[i])
  }

  /** A rewrite list that succeeds replaces every original by its composite, in order. */
  lemma {:induction false} RewritesReplace(t: Table, us: seq<Unique>, done: seq<Unique>, ws: seq<Rewrite>)
    requires t.uniques == us + done && DistinctNames(t.uniques) && RewritesFor(ws, us)
    requires ApplyRewrites(t, ws).error.None?
    ensures ApplyRewrites(t, ws).table == t.(uniques := done + RewrittenAll(us))
    decreases |us|
  {
    if us == [] {
      assert done + RewrittenAll(us) == t.uniques;
    } else {
      ApplyRewritesUnfold(t, ws);
      RewriteStep(t, us, done);
      RewritesReplace(t.(uniques := Advanced(us, done)), us[1..], done + [Rewritten(us[0])], ws[1..]);
      RewrittenCons(us, done);
    }
  }

  lemma RewrittenCons(us: seq<Unique>, done: seq<Unique>)
    requires us != []
    ensures done + [Rewritten(us[0])] + RewrittenAll(us[1..]) == done + RewrittenAll(us)
  {
    assert [Rewritten(us[0])] + RewrittenAll(us[1..]) == RewrittenAll(us);
  }

  /** Adding a column to a key only weakens it. */
  lemma WiderKeyStillUnique(rows: seq<Row>, columns: seq<string>, c: string)
    requires UniqueOn(rows, columns)
    ensures UniqueOn(rows, [c] + columns)
  {
    forall i, j | 0 <= i < j < |rows| ensures !Clash(rows[i], rows[j], [c] + columns) {
      ClashNarrows(rows[i], rows[j], columns, c);
    }
  }

  lemma ClashNarrows(r1: Row, r2: Row, columns: seq<string>, c: string)
    ensures Clash(r1, r2, [c] + columns) ==> Clash(r1, r2, columns)
  {
    assert forall d :: d in columns ==> d in [c] + columns;
  }

  /** No constraint or index of the table has the name. */
  ghost predicate Fresh(n: Name, t: Table) {
    (forall v :: v in t.uniques ==> v.name != n) && (forall x :: x in t.indexes ==> x.name != n)
  }

  ghost predicate KeysHold(t: Table, us: seq<Unique>) {
    forall u :: u in us ==> (forall c :: c in u.columns ==> c in t.columns) && UniqueOn(t.rows, u.columns)
  }

  /** The composite's ADD cannot meet a duplicate: the narrower key was unique. */
  lemma CompositeFits(t: Table, u: Unique)
    requires TENANT in t.columns && KeysHold(t, [u]) && Fresh(Composite(u.name), t)
    ensures AddUnique(t, Composite(u.name), [TENANT] + u.columns).Ok?
  {
    assert u in [u];
    WiderKeyStillUnique(t.rows, u.columns, TENANT);
  }

  lemma FreshAfterStep(t: Table, us: seq<Unique>, done: seq<Unique>)
    requires us != [] && t.uniques == us + done && DistinctNames(t.uniques)
    requires forall u :: u in us ==> Fresh(Composite(u.name), t)
    ensures Fresh(Composite(us[0].name), t.(uniques := us[1..] + done))
    ensures forall u :: u in us[1..] ==> Fresh(Composite(u.name), t.(uniques := Advanced(us, done)))
  {
    forall u | u in us[1..] ensures Fresh(Composite(u.name), t.(uniques := Advanced(us, done))) {
      var i :| 1 <= i < |us| && us[i] == u;
      assert t.uniques[0] == us[0] && t.uniques[i] == u;
    }
  }

  /** With the original keys unique and the names fresh, a rewrite list succeeds. */
  lemma {:induction false} RewritesSucceed(t: Table, us: seq<Unique>, done: seq<Unique>, ws: seq<Rewrite>)
    requires t.uniques == us + done && DistinctNames(t.uniques) && RewritesFor(ws, us)
    requires forall u :: u in us ==> Fresh(Composite(u.name), t)
    requires TENANT in t.columns && KeysHold(t, us)
    ensures ApplyRewrites(t, ws).error.None?
    decreases |us|
  {
    if us != [] {
      ApplyRewritesUnfold(t, ws);
      FreshAfterStep(t, us, done);
      CompositeFits(t.(uniques := us[1..] + done), us[0]);
      RewriteStep(t, us, done);
      RewritesSucceed(t.(uniques := Advanced(us, done)), us[1..], done + [Rewritten(us[0])], ws[1..]);
    }
  }

  // ---- The backfill ----

  /**
   Whatever the rows at the time of ALTER TABLE, a column addition that
   completes with no tenant active has stamped every one of them with the
   declared tenant, never with the default, and there are as many as the probe
   counted.
   */
  lemma BackfillStampsEveryRow(t: Table, plan: Plan, backfill: Value, s: Session)
    requires AddTenantColumn(t, plan, backfill, s).error.None? && CurrentTenant(s) == Null
    ensures |t.rows| == plan.existingRows && TENANT !in t.columns
    ensures t.rows != [] ==> backfill != Null
    ensures AddTenantColumn(t, plan, backfill, s).table
         == t.(rows := Fill(t.rows, TENANT, backfill), columns := t.columns[TENANT := ONE_SHOT(plan.pgType)])
  {
    if plan.existingRows == 0 {
      assert Fill(t.rows, TENANT, backfill) == Fill(t.rows, TENANT, Null);
    } else {
      ThreeSteps(t, plan, backfill, s);
    }
  }

  /** The table once the nullable column is there, and before it is filled. */
  function NullColumn(t: Table, pgType: string): Table {
    t.(columns := t.columns[TENANT := Column(pgType, false, NoDefault)], rows := Fill(t.rows, TENANT, Null))
  }

  /** A column that was NULL everywhere and is now NULL nowhere was stamped everywhere. */
  lemma StampedEverywhere(rows: seq<Row>, c: string, v: Value, visible: Row -> bool)
    requires rows != []
    requires forall i :: 0 <= i < |rows| ==> ValueAt(Stamp(Fill(rows, c, Null), c, v, visible).0[i], c) != Null
    ensures Stamp(Fill(rows, c, Null), c, v, visible) == (Fill(rows, c, v), |rows|) && v != Null
  {
    var nulls := Fill(rows, c, Null);
    var stamped := Stamp(nulls, c, v, visible).0;
    forall i | 0 <= i < |rows| ensures visible(nulls[i]) && stamped[i] == rows[i][c := v] && v != Null {
      StampedRow(rows[i], c, v, visible, stamped[i]);
    }
    assert stamped == Fill(rows, c, v);
    assert visible(nulls[0]);
  }

  lemma StampedRow(row: Row, c: string, v: Value, visible: Row -> bool, after: Row)
    requires after == if visible(row[c := Null]) then row[c := Null][c := v] else row[c := Null]
    requires ValueAt(after, c) != Null
    ensures visible(row[c := Null]) && after == row[c := v] && v != Null
  {
    assert row[c := Null][c := v] == row[c := v];
  }

  lemma ThreeSteps(t: Table, plan: Plan, backfill: Value, s: Session)
    requires plan.existingRows != 0 && AddTenantColumn(t, plan, backfill, s).error.None?
    ensures |t.rows| == plan.existingRows && TENANT !in t.columns && backfill != Null
    ensures AddTenantColumn(t, plan, backfill, s).table
         == t.(rows := Fill(t.rows, TENANT, backfill), columns := t.columns[TENANT := ONE_SHOT(plan.pgType)])
  {
    var t1 := NullColumn(t, plan.pgType);
    assert AddColumn(t, TENANT, Column(plan.pgType, false, NoDefault), s) == Ok(t1);
    var stamped := Stamp(t1.rows, TENANT, backfill, VisibleTo(t1, s));
    var t2 := t1.(rows := stamped.0);
    FillThenConstrain(t, plan, backfill, s, t1);
    Constrained(t2);
    StampedEverywhere(t.rows, TENANT, backfill, VisibleTo(t1, s));
  }

  lemma FillThenConstrain(t: Table, plan: Plan, backfill: Value, s: Session, t1: Table)
    requires plan.existingRows != 0 && AddTenantColumn(t, plan, backfill, s).error.None?
    requires AddColumn(t, TENANT, Column(plan.pgType, false, NoDefault), s) == Ok(t1)
    ensures
      var stamped := Stamp(t1.rows, TENANT, backfill, VisibleTo(t1, s));
      && stamped.1 == plan.existingRows
      && AddTenantColumn(t, plan, backfill, s) == ConstrainColumn(t1.(rows := stamped.0))
  {
  }

  lemma Constrained(t: Table)
    requires TENANT in t.columns && ConstrainColumn(t).error.None?
    ensures forall i :: 0 <= i < |t.rows| ==> ValueAt(t.rows[i], TENANT) != Null
    ensures ConstrainColumn(t).table
         == t.(columns := t.columns[TENANT := Column(t.columns[TENANT].pgType, true, CurrentTenantId)])
  {
  }

  /** Enabling forced RLS before the backfill would hide every row from a role that does not bypass it. */
  lemma RlsBeforeBackfillRefuses(t: Table, plan: Plan, backfill: Value, s: Session)
    requires TENANT !in t.columns && plan.existingRows > 0
    requires !s.bypassRls && CurrentTenant(s) == Null && !s.vars.admin
    requires t.policies == map[]
    ensures
      var t1 := NullColumn(t, plan.pgType);
      var t2 := CreateTenantPolicies(EnableRls(t1), TENANT).table;
      Backfill(t2, plan, backfill, s) == Progress(t2, Some(BackfillMismatch))
  {
    var t1 := NullColumn(t, plan.pgType);
    var t2 := CreateTenantPolicies(EnableRls(t1), TENANT).table;
    assert t2.policies == map[ISOLATION := IsolationPolicy(TENANT), BYPASS := BYPASS_POLICY] by {
      assert |ISOLATION| != |BYPASS|;
    }
    var visible := VisibleTo(t2, s);
    forall i | 0 <= i < |t2.rows| ensures !visible(t2.rows[i]) {
    }
    assert Stamp(t2.rows, TENANT, backfill, visible).0 == t2.rows;
  }

  // ---- The adopted table ----

  /** What adoption makes of a table: all of it, and nothing else. */
  function AdoptedTable(t: Table, pgType: string, backfill: Value): Table {
    t.(columns := t.columns[TENANT := ONE_SHOT(pgType)],
       rows := Fill(t.rows, TENANT, backfill),
       uniques := RewrittenAll(t.uniques),
       rlsEnabled := true,
       rlsForced := true,
       policies := t.policies[ISOLATION := IsolationPolicy(TENANT)][BYPASS := BYPASS_POLICY])
  }

  lemma PoliciesCreated(t: Table, c: string)
    ensures CreateTenantPolicies(t, c).error.None? <==> ISOLATION !in t.policies && BYPASS !in t.policies
    ensures CreateTenantPolicies(t, c).error.None? ==>
      CreateTenantPolicies(t, c).table
      == t.(policies := t.policies[ISOLATION := IsolationPolicy(c)][BYPASS := BYPASS_POLICY])
  {
    assert |ISOLATION| != |BYPASS|;
  }

  /** An adoption that completes, whatever the rows it found, did exactly this. */
  lemma AdoptedShape(t: Table, plan: Plan, backfill: Value, s: Session)
    requires DistinctNames(t.uniques) && RewritesFor(plan.rewrites, t.uniques)
    requires CurrentTenant(s) == Null && AdoptTable(t, plan, backfill, s).error.None?
    ensures AdoptTable(t, plan, backfill, s).table == AdoptedTable(t, plan.pgType, backfill)
    ensures |t.rows| == plan.existingRows && TENANT !in t.columns && (t.rows != [] ==> backfill != Null)
    ensures ISOLATION !in t.policies && BYPASS !in t.policies
  {
    BackfillStampsEveryRow(t, plan, backfill, s);
    var t1 := AddTenantColumn(t, plan, backfill, s).table;
    RewritesReplace(t1, t.uniques, [], plan.rewrites);
    assert [] + RewrittenAll(t.uniques) == RewrittenAll(t.uniques);
    var t2 := t1.(uniques := RewrittenAll(t.uniques));
    PoliciesCreated(EnableRls(t2), TENANT);
  }

  /**
   For a table whose rows the migrating role sees, and with fresh constraint
   names, adoption completes exactly when the rows are as many as the probe
   counted, there is a tenant to stamp them with, and neither the column nor a
   boundary policy is already there. No ADD UNIQUE can fail.
   */
  lemma AdoptionCompletesExactlyWhen(t: Table, plan: Plan, backfill: Value, s: Session)
    requires Valid(t) && RewritesFor(plan.rewrites, t.uniques) && CurrentTenant(s) == Null && !RlsApplies(t, s)
    requires forall u :: u in t.uniques ==> Fresh(Composite(u.name), t)
    ensures AdoptTable(t, plan, backfill, s).error.None?
       <==> && |t.rows| == plan.existingRows && (t.rows != [] ==> backfill != Null)
            && TENANT !in t.columns && ISOLATION !in t.policies && BYPASS !in t.policies
  {
    if AdoptTable(t, plan, backfill, s).error.None? {
      AdoptedShape(t, plan, backfill, s);
    } else if |t.rows| == plan.existingRows && (t.rows != [] ==> backfill != Null) && TENANT !in t.columns {
      ColumnAdded(t, plan, backfill, s);
      var t1 := t.(rows := Fill(t.rows, TENANT, backfill), columns := t.columns[TENANT := ONE_SHOT(plan.pgType)]);
      KeysStillHold(t, backfill, ONE_SHOT(plan.pgType));
      assert t1.uniques == t.uniques + [];
      RewritesSucceed(t1, t.uniques, [], plan.rewrites);
      RewritesReplace(t1, t.uniques, [], plan.rewrites);
      PoliciesCreated(EnableRls(ApplyRewrites(t1, plan.rewrites).table), TENANT);
    }
  }

  lemma ColumnAdded(t: Table, plan: Plan, backfill: Value, s: Session)
    requires |t.rows| == plan.existingRows && (t.rows != [] ==> backfill != Null)
    requires TENANT !in t.columns && CurrentTenant(s) == Null && !RlsApplies(t, s)
    ensures AddTenantColumn(t, plan, backfill, s)
         == Progress(t.(rows := Fill(t.rows, TENANT, backfill), columns := t.columns[TENANT := ONE_SHOT(plan.pgType)]),
                     None)
  {
    if t.rows == [] {
      assert Fill(t.rows, TENANT, backfill) == Fill(t.rows, TENANT, Null);
    } else {
      var nulls, filled := Fill(t.rows, TENANT, Null), Fill(t.rows, TENANT, backfill);
      var t1 := t.(columns := t.columns[TENANT := Column(plan.pgType, false, NoDefault)], rows := nulls);
      var t2 := t1.(rows := filled);
      var t3 := t.(rows := filled, columns := t.columns[TENANT := ONE_SHOT(plan.pgType)]);
      BackfillSeesAll(t1, t.rows, plan, backfill, s);
      ConstrainedFilled(t2, t.rows, backfill);
      SameColumn(t, t2, t3, plan.pgType);
      StepByStep(t, plan, backfill, s, t1, t2, t3);
    }
  }

  lemma SameColumn(t: Table, t2: Table, t3: Table, pgType: string)
    requires t2 == t.(columns := t.columns[TENANT := Column(pgType, false, NoDefault)], rows := t2.rows)
    requires t3 == t.(columns := t.columns[TENANT := ONE_SHOT(pgType)], rows := t2.rows)
    ensures t3 == t2.(columns := t2.columns[TENANT := Column(t2.columns[TENANT].pgType, true, CurrentTenantId)])
  {
    assert t3.columns == t2.columns[TENANT := ONE_SHOT(pgType)];
  }

  lemma StepByStep(t: Table, plan: Plan, backfill: Value, s: Session, t1: Table, t2: Table, t3: Table)
    requires plan.existingRows != 0
    requires AddColumn(t, TENANT, Column(plan.pgType, false, NoDefault), s) == Ok(t1)
    requires Backfill(t1, plan, backfill, s) == Progress(t2, None)
    requires ConstrainColumn(t2) == Progress(t3, None)
    ensures AddTenantColumn(t, plan, backfill, s) == Progress(t3, None)
  {
  }

  lemma ConstrainedFilled(t: Table, rows: seq<Row>, v: Value)
    requires TENANT in t.columns && v != Null && t.rows == Fill(rows, TENANT, v)
    ensures ConstrainColumn(t)
         == Progress(t.(columns := t.columns[TENANT := Column(t.columns[TENANT].pgType, true, CurrentTenantId)]), None)
  {
    assert forall i :: 0 <= i < |t.rows| ==> ValueAt(t.rows[i], TENANT) == v;
  }

  lemma BackfillSeesAll(t: Table, rows: seq<Row>, plan: Plan, backfill: Value, s: Session)
    requires t.rows == Fill(rows, TENANT, Null) && |rows| == plan.existingRows && !RlsApplies(t, s)
    ensures Backfill(t, plan, backfill, s) == Progress(t.(rows := Fill(rows, TENANT, backfill)), None)
  {
    StampAll(rows, TENANT, backfill, VisibleTo(t, s));
  }

  lemma StampAll(rows: seq<Row>, c: string, v: Value, visible: Row -> bool)
    requires forall i :: 0 <= i < |rows| ==> visible(rows[i][c := Null])
    ensures Stamp(Fill(rows, c, Null), c, v, visible) == (Fill(rows, c, v), |rows|)
  {
    var stamped := Stamp(Fill(rows, c, Null), c, v, visible);
    forall i | 0 <= i < |rows| ensures stamped.0[i] == rows[i][c := v] {
      assert rows[i][c := Null][c := v] == rows[i][c := v];
    }
    assert stamped.0 == Fill(rows, c, v);
  }

  /** Filling in a new column leaves the old keys as they were. */
  lemma KeysStillHold(t: Table, v: Value, col: Column)
    requires Valid(t) && TENANT !in t.columns
    ensures KeysHold(t.(rows := Fill(t.rows, TENANT, v), columns := t.columns[TENANT := col]), t.uniques)
    ensures forall u :: u in t.uniques ==> UniqueOn(Fill(t.rows, TENANT, v), u.columns)
  {
    forall u | u in t.uniques ensures UniqueOn(Fill(t.rows, TENANT, v), u.columns) {
      var rows := Fill(t.rows, TENANT, v);
      forall i, j | 0 <= i < j < |rows| ensures !Clash(rows[i], rows[j], u.columns) {
        SameClash(t.rows[i], t.rows[j], u.columns, v);
      }
    }
  }

  lemma SameClash(r1: Row, r2: Row, columns: seq<string>, v: Value)
    requires TENANT !in columns
    ensures Clash(r1[TENANT := v], r2[TENANT := v], columns) == Clash(r1, r2, columns)
  {
  }
}
