/**
 What a tenant's statements do to its own part of an isolated table: which rows
 a query returns, a change reaches and a delete takes, and exactly when an
 insert is accepted.
 */
module IsolationEffects {
  import opened Prelude
  import Connections
  import opened Catalogue
  import opened Adoption
  import opened AdoptionChecks
  import opened Isolation

  /** The tenant's rows that meet a condition. */
  function MineAnd(v: Value, matches: Row -> bool): Row -> bool {
    (r: Row) => ValueAt(r, TENANT) == v && matches(r)
  }

  function NotMineAnd(v: Value, matches: Row -> bool): Row -> bool {
    (r: Row) => !(ValueAt(r, TENANT) == v && matches(r))
  }

  lemma HitsAreMineAnd(t: Table, s: Session, v: Value, matches: Row -> bool)
    requires Isolated(t) && Scoped(s, v)
    ensures Filter(Hits(t, s, matches), t.rows) == Filter(MineAnd(v, matches), t.rows)
    ensures Filter(Misses(t, s, matches), t.rows) == Filter(NotMineAnd(v, matches), t.rows)
  {
    forall r | r in t.rows ensures Hits(t, s, matches)(r) == MineAnd(v, matches)(r) {
      VisibleIsMine(t, s, v, r);
    }
    FilterSame(Hits(t, s, matches), MineAnd(v, matches), t.rows);
    FilterSame(Misses(t, s, matches), NotMineAnd(v, matches), t.rows);
  }

  /** A query returns the tenant's rows that match, in order. */
  lemma SelectReturnsItsRows(t: Table, mean: Meaning, s: Session, v: Value, matches: Row -> bool)
    requires Isolated(t) && Scoped(s, v)
    ensures Execute(t, mean, s, Select(matches)) == (t, Rows(Filter(MineAnd(v, matches), t.rows)))
  {
    HitsAreMineAnd(t, s, v, matches);
  }

  /** A delete takes exactly those, and says how many. */
  lemma DeleteTakesItsRows(t: Table, mean: Meaning, s: Session, v: Value, matches: Row -> bool)
    requires Isolated(t) && Scoped(s, v)
    ensures Execute(t, mean, s, Delete(matches))
         == (t.(rows := Filter(NotMineAnd(v, matches), t.rows)), Changed(|Filter(MineAnd(v, matches), t.rows)|))
  {
    HitsAreMineAnd(t, s, v, matches);
  }

  // ---- Inserts ----

  /** The row an insert asks for: the values given, and for the others their columns' defaults. */
  ghost predicate AsksFor(t: Table, v: Value, values: Row, r: Row) {
    && r.Keys == t.columns.Keys
    && forall c :: c in t.columns ==>
         r[c] == if c in values then values[c]
                 else match t.columns[c].default
                      case NoDefault => Null
                      case CurrentTenantId => v
                      case Fixed(x) => x
  }

  /** No bare unique index sets the row against one of those. */
  ghost predicate NoIndexClash(mean: Meaning, t: Table, rows: seq<Row>, r: Row) {
    forall x, q :: x in t.indexes && !x.primary && q in rows ==> !IndexClash(mean, x, r, q)
  }

  ghost predicate NoClash(t: Table, rows: seq<Row>, r: Row) {
    forall u, q :: u in t.uniques && q in rows ==> !Clash(r, q, u.columns)
  }

  ghost predicate NoNull(t: Table, r: Row) {
    forall c :: c in t.columns && t.columns[c].notNull ==> ValueAt(r, c) != Null
  }

  /** Tenant v's own row, with no null where none may be, that repeats no key of the rows it is put beside. */
  ghost predicate Fits(t: Table, mean: Meaning, v: Value, rows: seq<Row>, r: Row) {
    ValueAt(r, TENANT) == v && NoNull(t, r) && NoClash(t, rows, r) && NoIndexClash(mean, t, rows, r)
  }

  lemma StorableExactlyWhen(t: Table, mean: Meaning, s: Session, v: Value, rows: seq<Row>, r: Row)
    requires Isolated(t) && Scoped(s, v)
    ensures Objection(t, mean, s, rows, r).None? <==> Fits(t, mean, v, rows, r)
    ensures Objection(t, mean, s, rows, r).Some? ==> !Objection(t, mean, s, rows, r).value.Changed?
  {
    VisibleIsMine(t, s, v, r);
    UniquesAllow(t.uniques, rows, r);
    IndexesAllow(mean, t.indexes, rows, r);
  }

  lemma {:induction false} UniquesAllow(us: seq<Unique>, rows: seq<Row>, r: Row)
    ensures ViolatedUnique(us, rows, r).None? <==> forall u, q :: u in us && q in rows ==> !Clash(r, q, u.columns)
  {
    if us != [] {
      UniquesAllow(us[1..], rows, r);
      assert forall u :: u in us <==> u == us[0] || u in us[1..];
    }
  }

  lemma {:induction false} IndexesAllow(mean: Meaning, xs: seq<UniqueIndex>, rows: seq<Row>, r: Row)
    ensures ViolatedIndex(mean, xs, rows, r).None?
       <==> forall x, q :: x in xs && !x.primary && q in rows ==> !IndexClash(mean, x, r, q)
  {
    if xs != [] {
      IndexesAllow(mean, xs[1..], rows, r);
      assert forall x :: x in xs <==> x == xs[0] || x in xs[1..];
    }
  }

  lemma UniqueWithRow(rows: seq<Row>, r: Row, columns: seq<string>)
    requires UniqueOn(rows, columns)
    ensures UniqueOn(rows + [r], columns) <==> forall q :: q in rows ==> !Clash(r, q, columns)
  {
    forall q ensures Clash(r, q, columns) == Clash(q, r, columns) {
    }
    if UniqueOn(rows + [r], columns) {
      forall q | q in rows ensures !Clash(q, r, columns) {
        var i :| 0 <= i < |rows| && rows[i] == q;
        assert (rows + [r])[i] == q && (rows + [r])[|rows|] == r;
      }
    } else {
      var i, j :| 0 <= i < j < |rows + [r]| && Clash((rows + [r])[i], (rows + [r])[j], columns);
      assert j == |rows| && rows[i] in rows;
    }
  }

  /** The row fits beside the others: the table with it is as valid as it was. */
  lemma ValidWithRow(t: Table, r: Row)
    requires Valid(t) && r.Keys == t.columns.Keys
    ensures Valid(t.(rows := t.rows + [r])) <==>
      && NoNull(t, r) && NoClash(t, t.rows, r)
  {
    var t' := t.(rows := t.rows + [r]);
    assert forall q :: q in t'.rows <==> q in t.rows || q == r;
    forall u | u in t.uniques
      ensures UniqueOn(t'.rows, u.columns) <==> forall q :: q in t.rows ==> !Clash(r, q, u.columns)
    {
      UniqueWithRow(t.rows, r, u.columns);
    }
    if Valid(t') {
      assert r in t'.rows;
    }
  }

  /**
   A tenant's insert on a valid, isolated table is accepted exactly when it
   names only columns the table has, the row is the tenant's own, the table
   with it is valid, and no bare unique index objects. It then adds that row;
   refused, it adds none.
   */
  lemma InsertAcceptedExactlyWhen(t: Table, mean: Meaning, s: Session, v: Value, values: Row, r: Row)
    requires Valid(t) && Isolated(t) && Scoped(s, v) && AsksFor(t, v, values, r)
    ensures
      var e := Execute(t, mean, s, Insert(values));
      && (e == (t.(rows := t.rows + [r]), Changed(1)) <==>
            && values.Keys <= t.columns.Keys && ValueAt(r, TENANT) == v
            && Valid(t.(rows := t.rows + [r])) && NoIndexClash(mean, t, t.rows, r))
      && (e.1 != Changed(1) ==> e.0 == t)
  {
    assert NewRow(t, s, values) == r;
    StorableExactlyWhen(t, mean, s, v, t.rows, r);
    ValidWithRow(t, r);
  }

  // ---- Updates ----

  /** The row after an update: the columns the change names, and the others as they were. */
  ghost predicate ChangedTo(t: Table, before: Row, change: Row, after: Row) {
    && after.Keys == t.columns.Keys
    && forall c :: c in t.columns ==> after[c] == if c in change then change[c] else ValueAt(before, c)
  }

  function Updated(t: Table, s: Session, matches: Row -> bool, change: Row -> Row, r: Row): Row {
    if Visible(t, s, r) && matches(r) then ChangedRow(t, r, change(r)) else r
  }

  function EachUpdated(t: Table, s: Session, matches: Row -> bool, change: Row -> Row, rows: seq<Row>): (r: seq<Row>)
    ensures |r| == |rows| && forall i :: 0 <= i < |rows| ==> r[i] == Updated(t, s, matches, change, rows[i])
  {
    seq(|rows|, i requires 0 <= i < |rows| => Updated(t, s, matches, change, rows[i]))
  }

  lemma EachUpdatedStep(t: Table, s: Session, matches: Row -> bool, change: Row -> Row, done: seq<Row>, todo: seq<Row>)
    requires todo != []
    ensures done + EachUpdated(t, s, matches, change, todo)
         == done + [Updated(t, s, matches, change, todo[0])] + EachUpdated(t, s, matches, change, todo[1..])
  {
  }

  lemma {:induction false} UpdateRowByRow(t: Table, mean: Meaning, s: Session, matches: Row -> bool, change: Row -> Row,
                                          done: seq<Row>, todo: seq<Row>)
    ensures
      var r := UpdateRows(t, mean, s, matches, change, done, todo);
      r.Ok? ==> r.value == (done + EachUpdated(t, s, matches, change, todo), |Filter(Hits(t, s, matches), todo)|)
    decreases |todo|
  {
    if todo == [] {
      assert done + [] == done;
    } else {
      UpdateRowByRow(t, mean, s, matches, change, done + [Updated(t, s, matches, change, todo[0])], todo[1..]);
      EachUpdatedStep(t, s, matches, change, done, todo);
    }
  }

  lemma {:induction false} UpdateErrors(t: Table, mean: Meaning, s: Session, matches: Row -> bool, change: Row -> Row,
                                        done: seq<Row>, todo: seq<Row>)
    ensures
      var r := UpdateRows(t, mean, s, matches, change, done, todo);
      r.Err? ==> r.error.PolicyDenies? || r.error.NullDenied? || r.error.UniqueViolation?
    decreases |todo|
  {
    if todo != [] {
      UpdateErrors(t, mean, s, matches, change, done + [todo[0]], todo[1..]);
      UpdateErrors(t, mean, s, matches, change, done + [ChangedRow(t, todo[0], change(todo[0]))], todo[1..]);
    }
  }

  /** What an update by tenant v makes of one row. */
  ghost predicate UpdatedTo(t: Table, v: Value, matches: Row -> bool, change: Row -> Row, before: Row, after: Row) {
    if ValueAt(before, TENANT) == v && matches(before) then ChangedTo(t, before, change(before), after)
    else after == before
  }

  lemma OneRowUpdated(t: Table, s: Session, v: Value, matches: Row -> bool, change: Row -> Row, r: Row)
    requires Isolated(t) && Scoped(s, v)
    ensures UpdatedTo(t, v, matches, change, r, Updated(t, s, matches, change, r))
  {
    VisibleIsMine(t, s, v, r);
  }

  lemma RowsUpdated(t: Table, s: Session, v: Value, matches: Row -> bool, change: Row -> Row)
    requires Isolated(t) && Scoped(s, v)
    ensures
      var rows := EachUpdated(t, s, matches, change, t.rows);
      forall i :: 0 <= i < |t.rows| ==> UpdatedTo(t, v, matches, change, t.rows[i], rows[i])
  {
    var rows := EachUpdated(t, s, matches, change, t.rows);
    forall i | 0 <= i < |t.rows| ensures UpdatedTo(t, v, matches, change, t.rows[i], rows[i]) {
      OneRowUpdated(t, s, v, matches, change, t.rows[i]);
    }
  }

  /** An update that is not refused changes the tenant's rows that match, and no other, and says how many. */
  lemma UpdateChangesItsRows(t: Table, mean: Meaning, s: Session, v: Value, matches: Row -> bool, change: Row -> Row)
    requires Isolated(t) && Scoped(s, v)
    ensures
      var e := Execute(t, mean, s, Update(matches, change));
      if e.1.Changed? then
        && e.1.count == |Filter(MineAnd(v, matches), t.rows)|
        && |e.0.rows| == |t.rows| && e.0 == t.(rows := e.0.rows)
        && forall i :: 0 <= i < |t.rows| ==> UpdatedTo(t, v, matches, change, t.rows[i], e.0.rows[i])
      else e.0 == t
  {
    var r := UpdateRows(t, mean, s, matches, change, [], t.rows);
    if r.Ok? {
      UpdateRowByRow(t, mean, s, matches, change, [], t.rows);
      var rows := EachUpdated(t, s, matches, change, t.rows);
      assert [] + rows == rows;
      HitsAreMineAnd(t, s, v, matches);
      RowsUpdated(t, s, v, matches, change);
    } else {
      UpdateErrors(t, mean, s, matches, change, [], t.rows);
    }
  }

  /** The rows an update of the i-th row is checked against: those before it as updated, those after it as they were. */
  function Beside(t: Table, s: Session, matches: Row -> bool, change: Row -> Row, rows: seq<Row>, i: nat): seq<Row>
    requires i < |rows|
  {
    EachUpdated(t, s, matches, change, rows[..i]) + rows[i + 1..]
  }

  lemma BesideStep(t: Table, s: Session, matches: Row -> bool, change: Row -> Row, done: seq<Row>, todo: seq<Row>,
                   i: nat)
    requires 1 <= i < |todo|
    ensures todo[1..][i - 1] == todo[i]
    ensures done + Beside(t, s, matches, change, todo, i)
         == done + [Updated(t, s, matches, change, todo[0])] + Beside(t, s, matches, change, todo[1..], i - 1)
  {
    assert todo[1..][..i - 1] == todo[..i][1..] && todo[1..][i..] == todo[i + 1..];
    EachUpdatedStep(t, s, matches, change, done, todo[..i]);
  }

  predicate StepAllowed(t: Table, mean: Meaning, s: Session, matches: Row -> bool, change: Row -> Row, beside: seq<Row>,
                        r: Row)
  {
    Hits(t, s, matches)(r) ==> Objection(t, mean, s, beside, ChangedRow(t, r, change(r))).None?
  }

  lemma {:induction false} UpdateStepByStep(t: Table, mean: Meaning, s: Session, matches: Row -> bool,
                                            change: Row -> Row, done: seq<Row>, todo: seq<Row>)
    ensures UpdateRows(t, mean, s, matches, change, done, todo).Ok? <==>
      forall i :: 0 <= i < |todo| ==>
        StepAllowed(t, mean, s, matches, change, done + Beside(t, s, matches, change, todo, i), todo[i])
    decreases |todo|
  {
    if todo != [] {
      var done' := done + [Updated(t, s, matches, change, todo[0])];
      UpdateStepByStep(t, mean, s, matches, change, done', todo[1..]);
      assert done + Beside(t, s, matches, change, todo, 0) == done + todo[1..];
      forall i | 1 <= i < |todo|
        ensures StepAllowed(t, mean, s, matches, change, done + Beside(t, s, matches, change, todo, i), todo[i])
             == StepAllowed(t, mean, s, matches, change, done' + Beside(t, s, matches, change, todo[1..], i - 1),
                            todo[1..][i - 1])
      {
        BesideStep(t, s, matches, change, done, todo, i);
      }
    }
  }

  /**
   A tenant's update is refused exactly when one of the rows it changes would
   stop being the tenant's own, put a null where none may be, or repeat a key
   of the rows as they stand at that moment.
   */
  lemma UpdateAcceptedExactlyWhen(t: Table, mean: Meaning, s: Session, v: Value, matches: Row -> bool,
                                  change: Row -> Row)
    requires Isolated(t) && Scoped(s, v)
    ensures Execute(t, mean, s, Update(matches, change)).1.Changed? <==>
      forall i :: 0 <= i < |t.rows| && ValueAt(t.rows[i], TENANT) == v && matches(t.rows[i]) ==>
        Fits(t, mean, v, Beside(t, s, matches, change, t.rows, i), ChangedRow(t, t.rows[i], change(t.rows[i])))
  {
    UpdateStepByStep(t, mean, s, matches, change, [], t.rows);
    UpdateErrors(t, mean, s, matches, change, [], t.rows);
    forall i | 0 <= i < |t.rows|
      ensures StepAllowed(t, mean, s, matches, change, [] + Beside(t, s, matches, change, t.rows, i), t.rows[i])
         <==> (ValueAt(t.rows[i], TENANT) == v && matches(t.rows[i]) ==>
                 Fits(t, mean, v, Beside(t, s, matches, change, t.rows, i),
                      ChangedRow(t, t.rows[i], change(t.rows[i]))))
    {
      var beside := Beside(t, s, matches, change, t.rows, i);
      assert [] + beside == beside;
      VisibleIsMine(t, s, v, t.rows[i]);
      StorableExactlyWhen(t, mean, s, v, beside, ChangedRow(t, t.rows[i], change(t.rows[i])));
    }
  }

  // ---- Why the policies must be forced ----

  /** With boundary's policies, sessions of v see exactly v's rows if and only if RLS is enabled and forced. */
  lemma MineAloneExactlyWhenForced(t: Table, v: Value)
    requires t.policies == map[ISOLATION := IsolationPolicy(TENANT), BYPASS := BYPASS_POLICY]
    requires v.Val? && v.text != ""
    ensures (forall s, r :: Scoped(s, v) ==> (Visible(t, s, r) <==> ValueAt(r, TENANT) == v))
       <==> t.rlsEnabled && t.rlsForced
  {
    assert |ISOLATION| != |BYPASS|;
    assert t.policies[ISOLATION] in t.policies.Values && t.policies[BYPASS] in t.policies.Values;
    if !(t.rlsEnabled && t.rlsForced) {
      var s: Session := Session(Connections.Vars(v.text, false), false);
      var r: Row := map[];
      assert Scoped(s, v) && Visible(t, s, r) && ValueAt(r, TENANT) != v;
    }
  }

  /** Who reaches a row of an isolated table: an exempt role, the admin flag, and the row's own tenant. */
  lemma AccessExactlyWhen(t: Table, s: Session, r: Row)
    requires Isolated(t)
    ensures Visible(t, s, r) <==>
      s.bypassRls || s.vars.admin || (ValueAt(r, TENANT) != Null && ValueAt(r, TENANT) == CurrentTenant(s))
    ensures Writable(t, s, r) <==> Visible(t, s, r)
  {
    assert |ISOLATION| != |BYPASS|;
    assert t.policies[ISOLATION] in t.policies.Values && t.policies[BYPASS] in t.policies.Values;
  }
}
