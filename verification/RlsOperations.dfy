/**
 The column-bearing operations: `EnableRLS`, `CreateTenantPolicy` and
 `DropTenantPolicy`. Exactly when one of them is undone by its reverse, and so
 when a list of them, run backwards, retraces every state it went through.
 */
module RlsOperations {
  import opened Prelude
  import opened Catalogue
  import opened Adoption
  import opened AdoptionForward
  import opened AdoptionChecks
  import opened Isolation

  datatype Operation =
    | EnableRLS
    | CreateTenantPolicy(column: string)
    | DropTenantPolicy(column: string)

  /** Past both gates: the statements themselves. */
  function Applied(op: Operation, t: Table): Progress {
    match op
    case EnableRLS => Progress(EnableRls(t), None)
    case CreateTenantPolicy(c) => CreateTenantPolicies(t, c)
    case DropTenantPolicy(_) => Progress(DropPolicies(t), None)
  }

  function Undone(op: Operation, t: Table): Progress {
    match op
    case EnableRLS => Progress(DisableRls(DropPolicies(t)), None)
    case CreateTenantPolicy(_) => Progress(DropPolicies(t), None)
    case DropTenantPolicy(c) => CreateTenantPolicies(t, c)
  }

  /** The router first, then the vendor; either keeps every statement off the alias. */
  predicate Proceeds(ed: SchemaEditor, name: string) {
    name !in ed.denied && ed.postgres
  }

  /** `keyType`: what the type of the tenant model's primary key maps to, for the helper the policies call. */
  method DatabaseForwards(op: Operation, ed: SchemaEditor, name: string, keyType: string) returns (error: Option<Error>)
    requires name in ed.tables
    modifies ed`tables, ed`helper
    ensures ed.helper == if Proceeds(ed, name) && op.CreateTenantPolicy? then Some(keyType) else old(ed.helper)
    ensures
      var t := old(ed.tables[name]);
      var done := if Proceeds(ed, name) then Applied(op, t) else Progress(t, None);
      ed.tables == old(ed.tables)[name := done.table] && error == done.error
  {
    error := None;
    if name in ed.denied || !ed.postgres {
      return;
    }
    var t := ed.tables[name];
    match op {
      case EnableRLS =>
        t := t.(rlsEnabled := true);
        t := t.(rlsForced := true);
      case CreateTenantPolicy(c) =>
        ed.helper := Some(keyType);
        var p := CreateTenantPolicies(t, c);
        t, error := p.table, p.error;
      case DropTenantPolicy(_) =>
        t := DropPolicyIfExists(t, ISOLATION);
        t := DropPolicyIfExists(t, BYPASS);
    }
    ed.tables := ed.tables[name := t];
  }

  /** The helper is never dropped: other tables' policies may call it. */
  method DatabaseBackwards(op: Operation, ed: SchemaEditor, name: string, keyType: string)
    returns (error: Option<Error>)
    requires name in ed.tables
    modifies ed`tables, ed`helper
    ensures ed.helper == if Proceeds(ed, name) && op.DropTenantPolicy? then Some(keyType) else old(ed.helper)
    ensures
      var done := if Proceeds(ed, name) then Undone(op, old(ed.tables[name])) else Progress(old(ed.tables[name]), None);
      ed.tables == old(ed.tables)[name := done.table] && error == done.error
  {
    error := None;
    if name in ed.denied || !ed.postgres {
      return;
    }
    var t := ed.tables[name];
    match op {
      case EnableRLS =>
        t := DropPolicyIfExists(t, ISOLATION);
        t := DropPolicyIfExists(t, BYPASS);
        t := t.(rlsEnabled := false);
        t := t.(rlsForced := false);
      case CreateTenantPolicy(_) =>
        t := DropPolicyIfExists(t, ISOLATION);
        t := DropPolicyIfExists(t, BYPASS);
      case DropTenantPolicy(c) =>
        error := DatabaseForwards(CreateTenantPolicy(c), ed, name, keyType);
        return;
    }
    ed.tables := ed.tables[name := t];
  }

  // ---- One step ----

  predicate NoPolicies(t: Table) {
    ISOLATION !in t.policies && BYPASS !in t.policies
  }

  predicate PoliciesOn(t: Table, c: string) {
    && ISOLATION in t.policies && t.policies[ISOLATION] == IsolationPolicy(c)
    && BYPASS in t.policies && t.policies[BYPASS] == BYPASS_POLICY
  }

  /** The operation changes something, and its reverse knows how to change it back. */
  predicate Fits(op: Operation, t: Table) {
    match op
    case EnableRLS => !t.rlsEnabled && !t.rlsForced && NoPolicies(t)
    case CreateTenantPolicy(_) => NoPolicies(t)
    case DropTenantPolicy(c) => PoliciesOn(t, c)
  }

  /** An operation that succeeds is undone by its reverse exactly when it fits the table it found. */
  lemma UndoneExactlyWhen(op: Operation, t: Table)
    requires Applied(op, t).error.None?
    ensures Undone(op, Applied(op, t).table) == Progress(t, None) <==> Fits(op, t)
  {
    assert |ISOLATION| != |BYPASS|;
    match op
    case EnableRLS =>
      assert NoPolicies(t) ==> t.policies - {ISOLATION} - {BYPASS} == t.policies;
      assert NoPolicies(DropPolicies(t));
    case CreateTenantPolicy(c) =>
      PoliciesCreated(t, c);
      var both := t.policies[ISOLATION := IsolationPolicy(c)][BYPASS := BYPASS_POLICY];
      assert both - {ISOLATION} - {BYPASS} == t.policies;
    case DropTenantPolicy(c) =>
      PoliciesCreated(DropPolicies(t), c);
      var again := (t.policies - {ISOLATION} - {BYPASS})[ISOLATION := IsolationPolicy(c)][BYPASS := BYPASS_POLICY];
      assert PoliciesOn(t, c) ==> again == t.policies;
      assert again[ISOLATION] == IsolationPolicy(c) && again[BYPASS] == BYPASS_POLICY;
  }

  // ---- Lists of operations ----

  /** Running a list forwards on an alias that proceeds. */
  function RunForwards(ops: seq<Operation>, t: Table): Progress
    decreases |ops|
  {
    if ops == [] then Progress(t, None)
    else
      var p := Applied(ops[0], t);
      if p.error.Some? then p else RunForwards(ops[1..], p.table)
  }

  /** Running a list backwards: the last operation first. */
  function RunBackwards(ops: seq<Operation>, t: Table): Progress
    decreases |ops|
  {
    if ops == [] then Progress(t, None)
    else
      var p := Undone(ops[|ops| - 1], t);
      if p.error.Some? then p else RunBackwards(ops[..|ops| - 1], p.table)
  }

  /** Each operation of the list fits the table it finds. */
  predicate AllFit(ops: seq<Operation>, t: Table)
    decreases |ops|
  {
    ops != [] ==> Fits(ops[0], t) && Applied(ops[0], t).error.None? && AllFit(ops[1..], Applied(ops[0], t).table)
  }

  lemma {:induction false} FittingRunSucceeds(ops: seq<Operation>, t: Table)
    requires AllFit(ops, t)
    ensures RunForwards(ops, t).error.None?
    decreases |ops|
  {
    if ops != [] {
      FittingRunSucceeds(ops[1..], Applied(ops[0], t).table);
    }
  }

  lemma {:induction false} BackwardsConcat(a: seq<Operation>, b: seq<Operation>, t: Table)
    ensures
      var p := RunBackwards(b, t);
      RunBackwards(a + b, t) == if p.error.Some? then p else RunBackwards(a, p.table)
    decreases |b|
  {
    if b == [] {
      assert a + b == a;
    } else {
      var b' := b[..|b| - 1];
      assert (a + b)[|a + b| - 1] == b[|b| - 1] && (a + b)[..|a + b| - 1] == a + b';
      var p := Undone(b[|b| - 1], t);
      if p.error.None? {
        BackwardsConcat(a, b', p.table);
      }
    }
  }

  lemma {:induction false} BackwardsUndoesForwards(ops: seq<Operation>, t: Table)
    requires AllFit(ops, t)
    ensures RunForwards(ops, t).error.None? && RunBackwards(ops, RunForwards(ops, t).table) == Progress(t, None)
    decreases |ops|
  {
    if ops != [] {
      var t1 := Applied(ops[0], t).table;
      BackwardsUndoesForwards(ops[1..], t1);
      UndoneExactlyWhen(ops[0], t);
      assert [ops[0]] + ops[1..] == ops;
      BackwardsConcat([ops[0]], ops[1..], RunForwards(ops, t).table);
      assert [ops[0]][..0] == [];
      assert RunBackwards([ops[0]], t1) == Progress(t, None);
    }
  }

  lemma {:induction false} ForwardsConcat(a: seq<Operation>, b: seq<Operation>, t: Table)
    ensures
      var p := RunForwards(a, t);
      RunForwards(a + b, t) == if p.error.Some? then p else RunForwards(b, p.table)
    ensures AllFit(a + b, t) ==> AllFit(a, t) && AllFit(b, RunForwards(a, t).table)
    decreases |a|
  {
    if a == [] {
      assert a + b == b;
    } else {
      assert (a + b)[0] == a[0] && (a + b)[1..] == a[1..] + b;
      ForwardsConcat(a[1..], b, Applied(a[0], t).table);
    }
  }

  /**
   Running a fitting list backwards passes through every state of the forward
   run: undoing the operations after the k-th leads to the state after the k-th.
   */
  lemma BackwardsRetraces(ops: seq<Operation>, t: Table, k: nat)
    requires AllFit(ops, t) && k <= |ops|
    ensures RunForwards(ops, t).error.None? && RunForwards(ops[..k], t).error.None?
    ensures RunBackwards(ops[k..], RunForwards(ops, t).table) == RunForwards(ops[..k], t)
  {
    assert ops[..k] + ops[k..] == ops;
    ForwardsConcat(ops[..k], ops[k..], t);
    FittingRunSucceeds(ops[..k], t);
    BackwardsUndoesForwards(ops[k..], RunForwards(ops[..k], t).table);
  }

  lemma {:induction false} FitsStateByState(ops: seq<Operation>, t: Table)
    requires RunForwards(ops, t).error.None?
    ensures AllFit(ops, t) <==>
      forall k :: 0 <= k < |ops| ==>
        RunForwards(ops[..k], t).error.None? && Fits(ops[k], RunForwards(ops[..k], t).table)
    decreases |ops|
  {
    if ops != [] {
      var t1 := Applied(ops[0], t).table;
      FitsStateByState(ops[1..], t1);
      assert ops[..0] == [];
      forall k | 0 <= k < |ops| - 1 ensures RunForwards(ops[..k + 1], t) == RunForwards(ops[1..][..k], t1) {
        assert ops[..k + 1][1..] == ops[1..][..k] && ops[..k + 1][0] == ops[0];
      }
      assert forall k :: 1 <= k < |ops| ==> ops[k] == ops[1..][k - 1];
      assert RunForwards(ops[..0], t) == Progress(t, None);
      forall k | 1 <= k < |ops| ensures RunForwards(ops[..k], t) == RunForwards(ops[1..][..k - 1], t1) {
        assert ops[..k] == ops[..(k - 1) + 1];
      }
    }
  }

  lemma {:induction false} PrefixesSucceed(ops: seq<Operation>, t: Table, k: nat)
    requires k <= |ops| && RunForwards(ops, t).error.None?
    ensures RunForwards(ops[..k], t).error.None?
    ensures k < |ops| ==>
      && Applied(ops[k], RunForwards(ops[..k], t).table).error.None?
      && RunForwards(ops[..k + 1], t) == Applied(ops[k], RunForwards(ops[..k], t).table)
  {
    assert ops[..k] + ops[k..] == ops;
    ForwardsConcat(ops[..k], ops[k..], t);
    if k < |ops| {
      assert ops[..k] + [ops[k]] == ops[..k + 1];
      ForwardsConcat(ops[..k], [ops[k]], t);
      assert [ops[k]][1..] == [];
    }
  }

  /** A completed run is retraced, state by state, exactly when each operation fitted the table it found. */
  lemma RetracesExactlyWhen(ops: seq<Operation>, t: Table)
    requires RunForwards(ops, t).error.None?
    ensures AllFit(ops, t) <==>
      forall k :: 0 <= k <= |ops| ==> RunBackwards(ops[k..], RunForwards(ops, t).table) == RunForwards(ops[..k], t)
  {
    var end := RunForwards(ops, t).table;
    if AllFit(ops, t) {
      forall k | 0 <= k <= |ops| ensures RunBackwards(ops[k..], end) == RunForwards(ops[..k], t) {
        BackwardsRetraces(ops, t, k);
      }
    } else if forall k :: 0 <= k <= |ops| ==> RunBackwards(ops[k..], end) == RunForwards(ops[..k], t) {
      forall k | 0 <= k < |ops|
        ensures RunForwards(ops[..k], t).error.None? && Fits(ops[k], RunForwards(ops[..k], t).table)
      {
        PrefixesSucceed(ops, t, k);
        RetracedStepFits(ops, t, k);
      }
      FitsStateByState(ops, t);
    }
  }

  lemma RetracedStepFits(ops: seq<Operation>, t: Table, k: nat)
    requires k < |ops| && RunForwards(ops, t).error.None?
    requires RunBackwards(ops[k..], RunForwards(ops, t).table) == RunForwards(ops[..k], t)
    requires RunBackwards(ops[k + 1..], RunForwards(ops, t).table) == RunForwards(ops[..k + 1], t)
    ensures Fits(ops[k], RunForwards(ops[..k], t).table)
  {
    var end := RunForwards(ops, t).table;
    PrefixesSucceed(ops, t, k);
    assert [ops[k]] + ops[k + 1..] == ops[k..];
    BackwardsConcat([ops[k]], ops[k + 1..], end);
    assert [ops[k]][..0] == [];
    UndoneExactlyWhen(ops[k], RunForwards(ops[..k], t).table);
  }

  // ---- What the operations protect ----

  /**
   `EnableRLS` and then `CreateTenantPolicy` complete and leave the table
   isolated exactly when it carried no policy and the tenant column is in every
   key two tenants could collide on.
   */
  lemma EnableThenPolicyIsolatesExactlyWhen(t: Table)
    ensures
      var p := RunForwards([EnableRLS, CreateTenantPolicy(TENANT)], t);
      && (p.error.None? && Isolated(p.table) <==>
            && t.policies == map[]
            && (forall u :: u in t.uniques ==> TENANT in u.columns)
            && (forall x :: x in t.indexes && !x.primary ==> KeyedByTenant(x)))
      && (p.error.None? ==> p.table == t.(rlsEnabled := true, rlsForced := true, policies := p.table.policies))
  {
    assert |ISOLATION| != |BYPASS|;
    var t1 := t.(rlsEnabled := true, rlsForced := true);
    var created := Applied(CreateTenantPolicy(TENANT), t1);
    PoliciesCreated(t1, TENANT);
    TwoOperations(EnableRLS, CreateTenantPolicy(TENANT), t);
    if created.error.None? {
      var alone := map[ISOLATION := IsolationPolicy(TENANT), BYPASS := BYPASS_POLICY];
      assert created.table.policies == alone ==> t.policies.Keys <= alone.Keys - {ISOLATION, BYPASS};
      assert t.policies == map[] ==> created.table.policies == alone;
    }
  }

  lemma TwoOperations(first: Operation, second: Operation, t: Table)
    requires Applied(first, t).error.None?
    ensures RunForwards([first, second], t) == Applied(second, Applied(first, t).table)
  {
    assert [first, second][1..] == [second] && [second][1..] == [];
    assert RunForwards([second], Applied(first, t).table) == Applied(second, Applied(first, t).table);
  }

  /** Dropping the policies of an isolated table hides its rows from everyone RLS applies to. */
  lemma DroppedPoliciesFailClosed(t: Table, s: Session, r: Row)
    requires Isolated(t)
    ensures
      var p := RunForwards([DropTenantPolicy(TENANT)], t);
      p.error.None? && (Visible(p.table, s, r) <==> s.bypassRls) && (Writable(p.table, s, r) <==> s.bypassRls)
  {
    assert [DropTenantPolicy(TENANT)][1..] == [];
    assert t.policies - {ISOLATION} - {BYPASS} == map[];
  }
}
