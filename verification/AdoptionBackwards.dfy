/**
 The reverse of `AdoptTenantApp` over a whole app: every table for itself, where
 it stops when it fails, and what a forward followed by it leaves.
 */
module AdoptionBackwards {
  import opened Prelude
  import opened Catalogue
  import opened Adoption
  import opened AdoptionForward
  import opened AdoptionCalls
  import opened AdoptionReverse

  /** One table by itself, reversed. */
  function Reversed(tables: Tables, m: Model): Progress
    requires m.table in tables
  {
    UnadoptTable(tables[m.table], m.historical)
  }

  /** Every table there is reversed as by itself, and no other touched. */
  ghost predicate EachReversed(tables: Tables, models: seq<Model>, r: (Tables, Option<Error>)) {
    && r.0.Keys == tables.Keys
    && (forall n :: n in tables && (forall m :: m in models ==> m.table != n) ==> r.0[n] == tables[n])
    && (r.1.None? <==> forall m :: m in models && m.table in tables ==> Reversed(tables, m).error.None?)
    && (r.1.None? ==> forall m :: m in models && m.table in tables ==> r.0[m.table] == Reversed(tables, m).table)
  }

  lemma OthersUnreversed(tables: Tables, models: seq<Model>)
    requires models != [] && DistinctTables(models) && models[0].table in tables
    ensures
      var tables1 := tables[models[0].table := Reversed(tables, models[0]).table];
      forall m :: m in models[1..] ==>
        m.table != models[0].table && (m.table in tables ==> Reversed(tables1, m) == Reversed(tables, m))
  {
    forall m | m in models[1..] ensures m.table != models[0].table {
      var i :| 0 <= i < |models[1..]| && models[1..][i] == m;
      assert models[i + 1] == m;
    }
  }

  lemma EachReversedStep(tables: Tables, models: seq<Model>, r: (Tables, Option<Error>))
    requires models != [] && DistinctTables(models) && models[0].table in tables
    requires Reversed(tables, models[0]).error.None?
    requires EachReversed(tables[models[0].table := Reversed(tables, models[0]).table], models[1..], r)
    ensures EachReversed(tables, models, r)
  {
    OthersUnreversed(tables, models);
    assert forall m :: m in models <==> m == models[0] || m in models[1..];
    assert r.0[models[0].table] == Reversed(tables, models[0]).table;
  }

  /**
   The reverse completes exactly when it would on each table there is by
   itself, and then makes of each what it would alone, and leaves every other.
   */
  lemma {:induction false} EachTableByItself(tables: Tables, models: seq<Model>)
    requires DistinctTables(models)
    ensures EachReversed(tables, models, UnadoptAll(tables, models))
    decreases |models|
  {
    if models != [] {
      var m := models[0];
      assert m in models && forall m' :: m' in models <==> m' == m || m' in models[1..];
      if m.table !in tables {
        EachTableByItself(tables, models[1..]);
      } else if Reversed(tables, m).error.None? {
        EachTableByItself(tables[m.table := Reversed(tables, m).table], models[1..]);
        EachReversedStep(tables, models, UnadoptAll(tables, models));
      }
    }
  }

  // ---- When it fails ----

  /** The tables before the i-th model reversed, the i-th part-way through, all others as they were. */
  ghost predicate StoppedAt(tables: Tables, models: seq<Model>, r: (Tables, Option<Error>), i: nat) {
    && i < |models| && r.0.Keys == tables.Keys && models[i].table in tables
    && (forall j :: 0 <= j < i && models[j].table in tables ==>
          Reversed(tables, models[j]) == Progress(r.0[models[j].table], None))
    && Reversed(tables, models[i]) == Progress(r.0[models[i].table], r.1)
    && (forall n :: n in tables && (forall j :: 0 <= j <= i ==> models[j].table != n) ==> r.0[n] == tables[n])
  }

  lemma StoppedLater(tables: Tables, models: seq<Model>, r: (Tables, Option<Error>), i: nat)
    requires models != [] && DistinctTables(models)
    requires models[0].table in tables ==> Reversed(tables, models[0]).error.None?
    requires
      var m := models[0];
      var tables1 := if m.table in tables then tables[m.table := Reversed(tables, m).table] else tables;
      StoppedAt(tables1, models[1..], r, i)
    ensures StoppedAt(tables, models, r, i + 1)
  {
    var rest := models[1..];
    assert forall j :: 0 <= j <= i ==> rest[j] == models[j + 1] && models[j + 1].table != models[0].table;
    forall j | 0 <= j < i + 1 && models[j].table in tables
      ensures Reversed(tables, models[j]) == Progress(r.0[models[j].table], None)
    {
      if j > 0 {
        assert rest[j - 1] == models[j];
      }
    }
    assert models[i + 1] == rest[i];
    forall n | n in tables && (forall j :: 0 <= j <= i + 1 ==> models[j].table != n) ensures r.0[n] == tables[n] {
      assert models[0].table != n;
    }
  }

  lemma {:induction false} StopsPartWay(tables: Tables, models: seq<Model>) returns (i: nat)
    requires DistinctTables(models) && UnadoptAll(tables, models).1.Some?
    ensures StoppedAt(tables, models, UnadoptAll(tables, models), i)
    decreases |models|
  {
    var m := models[0];
    if m.table in tables && Reversed(tables, m).error.Some? {
      i := 0;
    } else {
      var tables1 := if m.table in tables then tables[m.table := Reversed(tables, m).table] else tables;
      var k := StopsPartWay(tables1, models[1..]);
      StoppedLater(tables, models, UnadoptAll(tables, models), k);
      i := k + 1;
    }
  }

  // ---- The whole app, forwards and back ----

  /** A table the forward found untouched, with the uniques its model declares, each once. */
  ghost predicate Pristine(t: Table, m: Model) {
    Untouched(t, m.historical) && Declares(t.uniques, m.historical) && DistinctLists(m.historical)
  }

  /** What one table is after the round trip: as the lock found it, its uniques under derived names. */
  function Returned(tables: Tables, m: Model, writers: map<string, seq<Row>>): Table
    requires m.table in tables
  {
    AtLock(tables[m.table], m.table, writers).(uniques := RestoredAll(m.historical))
  }

  lemma TableReturns(c: Call, tables: Tables, models: seq<Model>, writers: map<string, seq<Row>>, m: Model)
    requires DistinctTables(models) && CurrentTenant(c.session) == Null && m in models
    requires ForwardAmid(c, tables, models, writers).1.None?
    requires m.table in tables ==> Pristine(AtLock(tables[m.table], m.table, writers), m)
    ensures
      var db := ForwardAmid(c, tables, models, writers).0;
      && m.table in tables && m.table in db
      && Reversed(db, m) == Progress(Returned(tables, m, writers), None)
      && UnadoptTable(Returned(tables, m, writers), m.historical) == Progress(Returned(tables, m, writers), None)
  {
    CompletedTable(c, tables, models, writers, m);
    PlanOf(c, tables, m);
    var t := AtLock(tables[m.table], m.table, writers);
    RoundTrip(t, Validated(c, tables, m).value.value, BackfillValue(c.backfill), c.session, m.historical);
  }

  /** A table without the column is planned, and its plan rewrites its uniques. */
  lemma PlanOf(c: Call, tables: Tables, m: Model)
    requires Validated(c, tables, m).Ok? && m.table in tables && TENANT !in tables[m.table].columns
    ensures Validated(c, tables, m).value.Some?
    ensures RewritesFor(Validated(c, tables, m).value.value.rewrites, tables[m.table].uniques)
  {
    RewritesShape(tables[m.table].uniques);
  }

  /**
   A forward that completed, and then the reverse: it completes, every table of
   the app is as the lock found it but for the names of its uniques, every
   other table is as it was, and reversing again changes nothing.
   */
  lemma AppRoundTrip(c: Call, tables: Tables, models: seq<Model>, writers: map<string, seq<Row>>)
    requires DistinctTables(models) && CurrentTenant(c.session) == Null
    requires ForwardAmid(c, tables, models, writers).1.None?
    requires forall m :: m in models && m.table in tables ==> Pristine(AtLock(tables[m.table], m.table, writers), m)
    ensures
      var r := UnadoptAll(ForwardAmid(c, tables, models, writers).0, models);
      && r.1.None? && r.0.Keys == tables.Keys
      && (forall m :: m in models ==> m.table in tables && r.0[m.table] == Returned(tables, m, writers))
      && (forall n :: n in tables && (forall m :: m in models ==> m.table != n) ==> r.0[n] == tables[n])
      && UnadoptAll(r.0, models) == (r.0, None)
  {
    var db := ForwardAmid(c, tables, models, writers).0;
    var r := UnadoptAll(db, models);
    CompletedOthers(c, tables, models, writers);
    forall m | m in models
      ensures m.table in tables && m.table in db && Reversed(db, m) == Progress(Returned(tables, m, writers), None)
      ensures UnadoptTable(Returned(tables, m, writers), m.historical) == Progress(Returned(tables, m, writers), None)
    {
      TableReturns(c, tables, models, writers, m);
    }
    EachTableByItself(db, models);
    NothingToReverse(r.0, models);
  }

  /** Where reversing each table changes nothing, neither does reversing them all. */
  lemma {:induction false} NothingToReverse(tables: Tables, models: seq<Model>)
    requires forall m :: m in models ==> m.table in tables && Reversed(tables, m) == Progress(tables[m.table], None)
    ensures UnadoptAll(tables, models) == (tables, None)
  {
    if models != [] {
      assert models[0] in models;
      assert tables[models[0].table := tables[models[0].table]] == tables;
      NothingToReverse(tables, models[1..]);
    }
  }

  /**
   After any writes the reverse of an app completes exactly when on none of its
   tables two tenants' rows share a restored key.
   */
  lemma AppReverseExactlyWhen(before: Tables, tables: Tables, models: seq<Model>, pgType: string)
    requires DistinctTables(models) && forall m :: m in models ==> m.table in before && m.table in tables
    requires forall m :: m in models ==>
      && Pristine(before[m.table], m) && KeptPerTenant(tables[m.table].rows, m.historical)
      && tables[m.table] == AdoptedWith(before[m.table], pgType, tables[m.table].rows)
    ensures UnadoptAll(tables, models).1.None? <==>
      forall m, h, i, j ::
        m in models && h in m.historical && 0 <= i < j < |tables[m.table].rows|
        && ValueAt(tables[m.table].rows[i], TENANT) != ValueAt(tables[m.table].rows[j], TENANT) ==>
        !Clash(tables[m.table].rows[i], tables[m.table].rows[j], h)
  {
    EachTableByItself(tables, models);
    forall m | m in models
      ensures Reversed(tables, m).error.None? <==> NoneShared(tables[m.table].rows, m.historical)
    {
      ReverseAfterWrites(before[m.table], m.historical, pgType, tables[m.table].rows);
    }
    if m :| m in models && !NoneShared(tables[m.table].rows, m.historical) {
      assert UnadoptAll(tables, models).1.Some?;
    }
  }

  ghost predicate NoneShared(rows: seq<Row>, historical: seq<seq<string>>) {
    forall h, i, j ::
      h in historical && 0 <= i < j < |rows| && ValueAt(rows[i], TENANT) != ValueAt(rows[j], TENANT) ==>
      !Clash(rows[i], rows[j], h)
  }
}
