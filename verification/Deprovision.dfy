/**
 `boundary_deprovision`: count a tenant's rows, export them, delete them table
 by table, and then the tenant. A scoped table is deleted through the ORM, which
 follows foreign keys; an adopted one by a bare DELETE, which the database
 refuses when it would leave a reference to a row that is gone.
 */
module Deprovision {
  import opened Prelude

  datatype Ref = Ref(table: string, pk: string)

  /** What deleting the target of a foreign key does to the row that holds it: ON DELETE CASCADE or SET NULL. */
  datatype Link = Link(target: Ref, cascades: bool)

  /** `links`: the foreign keys that are not NULL. `tenantId`: the raw column of an adopted table. */
  datatype Record = Record(links: map<string, Link>, tenantId: Option<Ref>)

  type Db = map<Ref, Record>

  /** `path`: the foreign keys from a row to its tenant, one of them for a model with its own tenant column. */
  datatype Model = Scoped(table: string, path: seq<string>) | Adopted(table: string)

  // ---- The ORM's delete ----

  predicate CascadesInto(rec: Record, gone: set<Ref>) {
    exists f <- rec.links :: rec.links[f].cascades && rec.links[f].target in gone
  }

  predicate ClosedUnder(db: Db, gone: set<Ref>) {
    forall r <- db :: CascadesInto(db[r], gone) ==> r in gone
  }

  /** Everything that goes when `gone` goes. */
  function Closure(db: Db, gone: set<Ref>): (all: set<Ref>)
    ensures gone <= all && all <= gone + db.Keys && ClosedUnder(db, all)
    decreases db.Keys - gone
  {
    var next := set r | r in db && r !in gone && CascadesInto(db[r], gone);
    if next == {} then
      assert forall r <- db :: r !in gone && CascadesInto(db[r], gone) ==> r in next;
      gone
    else
      assert exists r :: r in next;
      Closure(db, gone + next)
  }

  function Detach(rec: Record, gone: set<Ref>): Record {
    rec.(links := map f | f in rec.links && rec.links[f].target !in gone :: rec.links[f])
  }

  function Without(db: Db, gone: set<Ref>): Db {
    map r | r in db && r !in gone :: Detach(db[r], gone)
  }

  function Cascade(db: Db, gone: set<Ref>): Db {
    Without(db, Closure(db, gone))
  }

  // ---- The tenant's rows ----

  /** Where a path of foreign keys leads, if none of them is NULL. */
  function Follow(db: Db, r: Ref, path: seq<string>): Option<Ref>
    decreases |path|
  {
    if path == [] then Some(r)
    else if r in db && path[0] in db[r].links then Follow(db, db[r].links[path[0]].target, path[1..])
    else None
  }

  predicate Matches(db: Db, m: Model, t: Ref, r: Ref) {
    && r in db && r.table == m.table
    && match m
       case Scoped(_, path) => Follow(db, r, path) == Some(t)
       case Adopted(_) => db[r].tenantId == Some(t)
  }

  function Matching(db: Db, m: Model, t: Ref): set<Ref> {
    set r | r in db && Matches(db, m, t, r)
  }

  function AllMatching(db: Db, ms: seq<Model>, t: Ref): set<Ref> {
    if ms == [] then {} else Matching(db, ms[0], t) + AllMatching(db, ms[1..], t)
  }

  // ---- One table, and a list of them ----

  datatype Progress = Progress(db: Db, raised: bool)

  /** Some row outside `gone` still refers to one inside. */
  predicate Dangling(db: Db, gone: set<Ref>) {
    exists r <- db :: r !in gone && exists f <- db[r].links :: db[r].links[f].target in gone
  }

  function DeleteTable(db: Db, m: Model, t: Ref): Progress {
    var gone := Matching(db, m, t);
    match m
    case Scoped(_, _) => Progress(Cascade(db, gone), false)
    case Adopted(_) => if Dangling(db, gone) then Progress(db, true) else Progress(db - gone, false)
  }

  function DeleteTables(db: Db, ms: seq<Model>, t: Ref): Progress
    decreases |ms|
  {
    if ms == [] then Progress(db, false)
    else
      var p := DeleteTable(db, ms[0], t);
      if p.raised then p else DeleteTables(p.db, ms[1..], t)
  }

  /** The tables with a row of the tenant, and how many. */
  function Affected(db: Db, ms: seq<Model>, t: Ref): seq<(Model, nat)> {
    if ms == [] then []
    else (if Matching(db, ms[0], t) == {} then [] else [(ms[0], |Matching(db, ms[0], t)|)]) + Affected(db, ms[1..], t)
  }

  lemma AffectedStep(db: Db, ms: seq<Model>, t: Ref, done: seq<(Model, nat)>)
    requires ms != []
    ensures done + Affected(db, ms, t) ==
            (if Matching(db, ms[0], t) == {} then done else done + [(ms[0], |Matching(db, ms[0], t)|)])
            + Affected(db, ms[1..], t)
  {
  }

  function Models(affected: seq<(Model, nat)>): (ms: seq<Model>)
    ensures |ms| == |affected|
  {
    seq(|affected|, i requires 0 <= i < |affected| => affected[i].0)
  }

  /** A confirmed run: the tables that were counted, then the tenant. */
  function Deprovisioned(db: Db, ms: seq<Model>, t: Ref): Progress {
    var p := DeleteTables(db, Models(Affected(db, ms, t)), t);
    if p.raised then p else Progress(Cascade(p.db, {t}), false)
  }

  // ---- The export ----

  datatype Line = Line(model: Model, ref: Ref, record: Record)

  function LineFor(db: Db, m: Model, r: Ref): Line
    requires r in db
  {
    Line(m, r, db[r])
  }

  /** In no particular order within a table. */
  function Lines(db: Db, m: Model, t: Ref): set<Line> {
    set r | r in Matching(db, m, t) :: LineFor(db, m, r)
  }

  function AllLines(db: Db, ms: seq<Model>, t: Ref): multiset<Line> {
    if ms == [] then multiset{} else multiset(Lines(db, ms[0], t)) + AllLines(db, ms[1..], t)
  }

  datatype Options = Options(dryRun: bool, confirmed: bool, exporting: bool)

  datatype Outcome = DryRun(affected: seq<(Model, nat)>) | Aborted | ForeignKeyViolation | Deleted

  class Command {
    /** Every scoped model, then every adopted one. */
    const models: seq<Model>
    var db: Db
    var file: seq<Line>

    constructor (models: seq<Model>, db: Db)
      ensures this.models == models && this.db == db && file == []
    {
      this.models, this.db, file := models, db, [];
    }

    method CollectAffected(t: Ref) returns (result: seq<(Model, nat)>)
      ensures result == Affected(db, models, t)
    {
      result := [];
      for i := 0 to |models|
        invariant result + Affected(db, models[i..], t) == Affected(db, models, t)
      {
        AffectedStep(db, models[i..], t, result);
        var count := |Matching(db, models[i], t)|;
        if count > 0 {
          result := result + [(models[i], count)];
        }
      }
    }

    /** One table's lines, in whatever order the database returns them. */
    method ExportRows(m: Model, t: Ref)
      modifies this`file
      ensures multiset(file) == multiset(old(file)) + multiset(Lines(db, m, t))
    {
      var todo := Lines(db, m, t);
      while todo != {}
        invariant multiset(file) + multiset(todo) == multiset(old(file)) + multiset(Lines(db, m, t))
        decreases todo
      {
        var line :| line in todo;
        file := file + [line];
        todo := todo - {line};
      }
    }

    method Export(t: Ref)
      modifies this`file
      ensures multiset(file) == AllLines(db, models, t)
    {
      file := [];
      for i := 0 to |models|
        invariant multiset(file) + AllLines(db, models[i..], t) == AllLines(db, models, t)
      {
        ExportRows(models[i], t);
      }
    }

    method DeleteRows(m: Model, t: Ref) returns (raised: bool)
      modifies this`db
      ensures Progress(db, raised) == DeleteTable(old(db), m, t)
    {
      var gone := Matching(db, m, t);
      raised := false;
      if m.Scoped? {
        db := Cascade(db, gone);
      } else if Dangling(db, gone) {
        raised := true;
      } else {
        db := db - gone;
      }
    }

    method Handle(t: Ref, options: Options) returns (outcome: Outcome)
      modifies this`db, this`file
      ensures options.dryRun ==> outcome == DryRun(Affected(db, models, t))
      ensures !options.dryRun && !options.confirmed ==> outcome == Aborted
      ensures options.dryRun || !options.confirmed ==> db == old(db) && file == old(file)
      ensures !options.dryRun && options.confirmed ==>
        && outcome == (if Deprovisioned(old(db), models, t).raised then ForeignKeyViolation else Deleted)
        && db == Deprovisioned(old(db), models, t).db
        && if options.exporting then multiset(file) == AllLines(old(db), models, t) else file == old(file)
    {
      var affected := CollectAffected(t);
      if options.dryRun {
        return DryRun(affected);
      }
      if !options.confirmed {
        return Aborted;
      }
      if options.exporting {
        Export(t);
      }
      ghost var ms := Models(affected);
      for i := 0 to |affected|
        invariant if options.exporting then multiset(file) == AllLines(old(db), models, t) else file == old(file)
        invariant DeleteTables(db, ms[i..], t) == DeleteTables(old(db), ms, t)
      {
        assert ms[i..][1..] == ms[i + 1..];
        var raised := DeleteRows(affected[i].0, t);
        if raised {
          return ForeignKeyViolation;
        }
      }
      db := Cascade(db, {t});
      outcome := Deleted;
    }
  }
}
