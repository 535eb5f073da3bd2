/**
 What row level security and tenant-led keys together give: a tenant's
 statements behave on the shared tables exactly as they would on tables that
 held only that tenant's rows, errors included, and touch no other row.
 */
module Isolation {
  import opened Prelude
  import opened Catalogue
  import opened Adoption
  import opened AdoptionForward
  import opened AdoptionChecks

  datatype Statement =
    | Select(matches: Row -> bool)
    | Insert(values: Row)
    | Update(matches: Row -> bool, change: Row -> Row)
    | Delete(matches: Row -> bool)

  datatype Outcome =
    | Rows(rows: seq<Row>) | Changed(count: nat)
    | UnknownColumn | PolicyDenies | NullDenied | UniqueViolation(name: Name) | NoTable

  /** What index expressions and predicates evaluate to. */
  datatype Meaning = Meaning(value: (string, Row) -> Value, holds: (string, Row) -> bool)

  // ---- Statements ----

  function KeyValue(mean: Meaning, k: IndexKey, r: Row): Value {
    match k
    case Key(c) => ValueAt(r, c)
    case Expression(e) => mean.value(e, r)
  }

  /** INCLUDE columns take no part in the comparison. */
  predicate IndexClash(mean: Meaning, x: UniqueIndex, r1: Row, r2: Row) {
    && (x.partial.Some? ==> mean.holds(x.partial.value, r1) && mean.holds(x.partial.value, r2))
    && forall k <- x.keys :: KeyValue(mean, k, r1) != Null && KeyValue(mean, k, r1) == KeyValue(mean, k, r2)
  }

  function ViolatedUnique(us: seq<Unique>, rows: seq<Row>, r: Row): Option<Name> {
    if us == [] then None
    else if exists q <- rows :: Clash(r, q, us[0].columns) then Some(us[0].name)
    else ViolatedUnique(us[1..], rows, r)
  }

  /** The primary key is a surrogate: always fresh, never compared here. */
  function ViolatedIndex(mean: Meaning, xs: seq<UniqueIndex>, rows: seq<Row>, r: Row): Option<Name> {
    if xs == [] then None
    else if !xs[0].primary && exists q <- rows :: IndexClash(mean, xs[0], r, q) then Some(xs[0].name)
    else ViolatedIndex(mean, xs[1..], rows, r)
  }

  function Violated(t: Table, mean: Meaning, rows: seq<Row>, r: Row): Option<Name> {
    var u := ViolatedUnique(t.uniques, rows, r);
    if u.Some? then u else ViolatedIndex(mean, t.indexes, rows, r)
  }

  /** Why a row may not be stored beside `rows`, if it may not: the policies first, then NOT NULL, then the keys. */
  function Objection(t: Table, mean: Meaning, s: Session, rows: seq<Row>, r: Row): Option<Outcome> {
    if !Writable(t, s, r) then Some(PolicyDenies)
    else if exists c <- t.columns :: t.columns[c].notNull && ValueAt(r, c) == Null then Some(NullDenied)
    else
      match Violated(t, mean, rows, r)
      case Some(name) => Some(UniqueViolation(name))
      case None => None
  }

  function NewRow(t: Table, s: Session, values: Row): Row {
    map c | c in t.columns :: if c in values then values[c] else Evaluate(t.columns[c].default, s)
  }

  function ChangedRow(t: Table, r: Row, changed: Row): Row {
    map c | c in t.columns :: if c in changed then changed[c] else ValueAt(r, c)
  }

  function UpdateRows(t: Table, mean: Meaning, s: Session, matches: Row -> bool, change: Row -> Row,
                      done: seq<Row>, todo: seq<Row>): Result<(seq<Row>, nat), Outcome>
    decreases |todo|
  {
    if todo == [] then Ok((done, 0))
    else if !(Visible(t, s, todo[0]) && matches(todo[0]))
    then UpdateRows(t, mean, s, matches, change, done + [todo[0]], todo[1..])
    else
      var r := ChangedRow(t, todo[0], change(todo[0]));
      match Objection(t, mean, s, done + todo[1..], r)
      case Some(e) => Err(e)
      case None =>
        match UpdateRows(t, mean, s, matches, change, done + [r], todo[1..])
        case Err(e) => Err(e)
        case Ok(rest) => Ok((rest.0, rest.1 + 1))
  }

  function Hits(t: Table, s: Session, matches: Row -> bool): Row -> bool {
    (r: Row) => Visible(t, s, r) && matches(r)
  }

  function Misses(t: Table, s: Session, matches: Row -> bool): Row -> bool {
    (r: Row) => !(Visible(t, s, r) && matches(r))
  }

  /** One statement, atomically: an error leaves the table as it was. */
  function Execute(t: Table, mean: Meaning, s: Session, stmt: Statement): (Table, Outcome) {
    match stmt
    case Select(matches) => (t, Rows(Filter(Hits(t, s, matches), t.rows)))
    case Insert(values) =>
      if !(values.Keys <= t.columns.Keys) then (t, UnknownColumn)
      else
        var r := NewRow(t, s, values);
        (match Objection(t, mean, s, t.rows, r)
         case Some(e) => (t, e)
         case None => (t.(rows := t.rows + [r]), Changed(1)))
    case Update(matches, change) =>
      (match UpdateRows(t, mean, s, matches, change, [], t.rows)
       case Err(e) => (t, e)
       case Ok(done) => (t.(rows := done.0), Changed(done.1)))
    case Delete(matches) =>
      (t.(rows := Filter(Misses(t, s, matches), t.rows)), Changed(|Filter(Hits(t, s, matches), t.rows)|))
  }

  // ---- A tenant's own part of a table ----

  function Mine(v: Value): Row -> bool {
    (r: Row) => ValueAt(r, TENANT) == v
  }

  function NotMine(v: Value): Row -> bool {
    (r: Row) => ValueAt(r, TENANT) != v
  }

  function Own(t: Table, v: Value): Table {
    t.(rows := Filter(Mine(v), t.rows))
  }

  function Others(t: Table, v: Value): seq<Row> {
    Filter(NotMine(v), t.rows)
  }

  /** RLS forced, boundary's two policies and no other, and the tenant column in every non-primary key. */
  ghost predicate Isolated(t: Table) {
    && t.rlsEnabled && t.rlsForced
    && t.policies == map[ISOLATION := IsolationPolicy(TENANT), BYPASS := BYPASS_POLICY]
    && (forall u :: u in t.uniques ==> TENANT in u.columns)
    && (forall x :: x in t.indexes && !x.primary ==> KeyedByTenant(x))
  }

  /** A connection that carries v's key, with the admin flag off and a role subject to RLS. */
  predicate Scoped(s: Session, v: Value) {
    v != Null && CurrentTenant(s) == v && !s.vars.admin && !s.bypassRls
  }

  /** A connection no tenant was set on, subject to RLS: the state row level security fails closed in. */
  predicate Unset(s: Session) {
    s.vars.tenant == "" && !s.vars.admin && !s.bypassRls
  }

  lemma NothingIsVisible(t: Table, s: Session, r: Row)
    requires Isolated(t) && Unset(s)
    ensures !Visible(t, s, r) && !Writable(t, s, r)
  {
    assert |ISOLATION| != |BYPASS|;
  }

  lemma VisibleIsMine(t: Table, s: Session, v: Value, r: Row)
    requires Isolated(t) && Scoped(s, v)
    ensures Visible(t, s, r) <==> Mine(v)(r)
    ensures Writable(t, s, r) <==> Mine(v)(r)
  {
    assert |ISOLATION| != |BYPASS|;
    assert t.policies[ISOLATION] in t.policies.Values && t.policies[BYPASS] in t.policies.Values;
  }

  /** Only the tenant's own rows can stand in the way of one of its rows. */
  lemma {:induction false} UniqueSeesOwn(us: seq<Unique>, rows: seq<Row>, r: Row, v: Value)
    requires forall u :: u in us ==> TENANT in u.columns
    requires Mine(v)(r)
    ensures ViolatedUnique(us, rows, r) == ViolatedUnique(us, Filter(Mine(v), rows), r)
  {
    if us != [] {
      assert us[0] in us;
      assert forall q :: q in rows && Clash(r, q, us[0].columns) ==> Mine(v)(q);
      UniqueSeesOwn(us[1..], rows, r, v);
    }
  }

  lemma {:induction false} IndexSeesOwn(mean: Meaning, xs: seq<UniqueIndex>, rows: seq<Row>, r: Row, v: Value)
    requires forall x :: x in xs && !x.primary ==> KeyedByTenant(x)
    requires Mine(v)(r)
    ensures ViolatedIndex(mean, xs, rows, r) == ViolatedIndex(mean, xs, Filter(Mine(v), rows), r)
  {
    if xs != [] {
      assert xs[0] in xs;
      assert !xs[0].primary ==> forall q :: q in rows && IndexClash(mean, xs[0], r, q) ==> Mine(v)(q) by {
        if !xs[0].primary {
          assert Key(TENANT) in xs[0].keys;
        }
      }
      IndexSeesOwn(mean, xs[1..], rows, r, v);
    }
  }

  lemma ObjectionSeesOwn(t: Table, mean: Meaning, s: Session, v: Value, rows: seq<Row>, r: Row)
    requires Isolated(t) && Scoped(s, v)
    ensures Objection(t, mean, s, rows, r) == Objection(t, mean, s, Filter(Mine(v), rows), r)
    ensures Objection(t, mean, s, rows, r).None? ==> Mine(v)(r)
  {
    VisibleIsMine(t, s, v, r);
    if Mine(v)(r) {
      UniqueSeesOwn(t.uniques, rows, r, v);
      IndexSeesOwn(mean, t.indexes, rows, r, v);
    }
  }

  // ---- Statement by statement ----

  lemma UpdateSkips(t: Table, mean: Meaning, s: Session, matches: Row -> bool, change: Row -> Row,
                    done: seq<Row>, r: Row, rest: seq<Row>)
    requires !(Visible(t, s, r) && matches(r))
    ensures UpdateRows(t, mean, s, matches, change, done, [r] + rest)
         == UpdateRows(t, mean, s, matches, change, done + [r], rest)
  {
    assert ([r] + rest)[1..] == rest;
  }

  /** An update that reached a row: refused there, or one more than what follows. */
  function AfterHit(objection: Option<Outcome>,
                    after: Result<(seq<Row>, nat), Outcome>): Result<(seq<Row>, nat), Outcome> {
    match objection
    case Some(e) => Err(e)
    case None => if after.Err? then after else Ok((after.value.0, after.value.1 + 1))
  }

  lemma UpdateHits(t: Table, mean: Meaning, s: Session, matches: Row -> bool, change: Row -> Row,
                   done: seq<Row>, r: Row, rest: seq<Row>)
    requires Visible(t, s, r) && matches(r)
    ensures
      var r' := ChangedRow(t, r, change(r));
      UpdateRows(t, mean, s, matches, change, done, [r] + rest)
      == AfterHit(Objection(t, mean, s, done + rest, r'), UpdateRows(t, mean, s, matches, change, done + [r'], rest))
  {
    assert ([r] + rest)[1..] == rest;
  }

  ghost predicate UpdateAgrees(v: Value, all: Result<(seq<Row>, nat), Outcome>, own: Result<(seq<Row>, nat), Outcome>,
                               others: seq<Row>) {
    if all.Err? then own == all
    else own == Ok((Filter(Mine(v), all.value.0), all.value.1)) && Filter(NotMine(v), all.value.0) == others
  }

  lemma {:induction false} UpdateSeesOwn(t: Table, mean: Meaning, s: Session, v: Value, matches: Row -> bool,
                                         change: Row -> Row,
                                         done: seq<Row>, todo: seq<Row>)
    requires Isolated(t) && Scoped(s, v)
    ensures UpdateAgrees(v,
                         UpdateRows(t, mean, s, matches, change, done, todo),
                         UpdateRows(t, mean, s, matches, change, Filter(Mine(v), done), Filter(Mine(v), todo)),
                         Filter(NotMine(v), done) + Filter(NotMine(v), todo))
    decreases |todo|, 0
  {
    if todo == [] {
      assert Filter(NotMine(v), done) + [] == Filter(NotMine(v), done);
    } else {
      var r, rest := todo[0], todo[1..];
      assert todo == [r] + rest;
      if Mine(v)(r) && matches(r) {
        UpdateHitSeesOwn(t, mean, s, v, matches, change, done, r, rest);
      } else {
        UpdateSeesOwn(t, mean, s, v, matches, change, done + [r], rest);
        BothSkip(t, mean, s, v, matches, change, done, r, rest);
      }
    }
  }

  /** A row the update does not reach passes over in both tables, or in the shared one alone. */
  lemma BothSkip(t: Table, mean: Meaning, s: Session, v: Value, matches: Row -> bool, change: Row -> Row,
                 done: seq<Row>, r: Row, rest: seq<Row>)
    requires Isolated(t) && Scoped(s, v) && !(Mine(v)(r) && matches(r))
    ensures UpdateRows(t, mean, s, matches, change, done, [r] + rest)
         == UpdateRows(t, mean, s, matches, change, done + [r], rest)
    ensures UpdateRows(t, mean, s, matches, change, Filter(Mine(v), done), Filter(Mine(v), [r] + rest))
         == UpdateRows(t, mean, s, matches, change, Filter(Mine(v), done + [r]), Filter(Mine(v), rest))
    ensures Filter(NotMine(v), done) + Filter(NotMine(v), [r] + rest)
         == Filter(NotMine(v), done + [r]) + Filter(NotMine(v), rest)
  {
    VisibleIsMine(t, s, v, r);
    UpdateSkips(t, mean, s, matches, change, done, r, rest);
    FilterAround(NotMine(v), done, r, rest);
    if Mine(v)(r) {
      OwnSkips(t, mean, s, v, matches, change, done, r, rest);
    } else {
      NotMineStays(done, r, rest, v);
    }
  }

  lemma OwnSkips(t: Table, mean: Meaning, s: Session, v: Value, matches: Row -> bool, change: Row -> Row,
                 done: seq<Row>, r: Row, rest: seq<Row>)
    requires Mine(v)(r) && !matches(r)
    ensures UpdateRows(t, mean, s, matches, change, Filter(Mine(v), done), Filter(Mine(v), [r] + rest))
         == UpdateRows(t, mean, s, matches, change, Filter(Mine(v), done + [r]), Filter(Mine(v), rest))
  {
    MineMoves(done, r, r, rest, v);
    UpdateSkips(t, mean, s, matches, change, Filter(Mine(v), done), r, Filter(Mine(v), rest));
  }

  lemma {:induction false} UpdateHitSeesOwn(t: Table, mean: Meaning, s: Session, v: Value, matches: Row -> bool,
                                            change: Row -> Row,
                                            done: seq<Row>, r: Row, rest: seq<Row>)
    requires Isolated(t) && Scoped(s, v) && Mine(v)(r) && matches(r)
    ensures UpdateAgrees(v,
                         UpdateRows(t, mean, s, matches, change, done, [r] + rest),
                         UpdateRows(t, mean, s, matches, change, Filter(Mine(v), done), Filter(Mine(v), [r] + rest)),
                         Filter(NotMine(v), done) + Filter(NotMine(v), [r] + rest))
    decreases |rest|, 1
  {
    var r' := ChangedRow(t, r, change(r));
    var ownDone, ownRest := Filter(Mine(v), done), Filter(Mine(v), rest);
    var o := Objection(t, mean, s, done + rest, r');
    var all := UpdateRows(t, mean, s, matches, change, done + [r'], rest);
    var own := UpdateRows(t, mean, s, matches, change, ownDone + [r'], ownRest);
    MineMoves(done, r, r, rest, v);
    BothHit(t, mean, s, v, matches, change, done, r, rest);
    if o.None? {
      ObjectionSeesOwn(t, mean, s, v, done + rest, r');
      MineMoves(done, r, r', rest, v);
      UpdateSeesOwn(t, mean, s, v, matches, change, done + [r'], rest);
      assert UpdateAgrees(v, all, own, Filter(NotMine(v), done) + Filter(NotMine(v), rest));
    }
    AfterHitAgrees(v, o, all, own, Filter(NotMine(v), done) + Filter(NotMine(v), rest));
  }

  lemma AfterHitAgrees(v: Value, o: Option<Outcome>, all: Result<(seq<Row>, nat), Outcome>,
                       own: Result<(seq<Row>, nat), Outcome>, others: seq<Row>)
    requires o.None? ==> UpdateAgrees(v, all, own, others)
    ensures UpdateAgrees(v, AfterHit(o, all), AfterHit(o, own), others)
  {
  }

  lemma BothHit(t: Table, mean: Meaning, s: Session, v: Value, matches: Row -> bool, change: Row -> Row,
                done: seq<Row>, r: Row, rest: seq<Row>)
    requires Isolated(t) && Scoped(s, v) && Mine(v)(r) && matches(r)
    ensures
      var r' := ChangedRow(t, r, change(r));
      var ownDone, ownRest := Filter(Mine(v), done), Filter(Mine(v), rest);
      var o := Objection(t, mean, s, done + rest, r');
      && UpdateRows(t, mean, s, matches, change, done, [r] + rest)
         == AfterHit(o, UpdateRows(t, mean, s, matches, change, done + [r'], rest))
      && UpdateRows(t, mean, s, matches, change, ownDone, [r] + ownRest)
         == AfterHit(o, UpdateRows(t, mean, s, matches, change, ownDone + [r'], ownRest))
  {
    VisibleIsMine(t, s, v, r);
    FilterConcat(Mine(v), done, rest);
    ObjectionSeesOwn(t, mean, s, v, done + rest, ChangedRow(t, r, change(r)));
    UpdateHits(t, mean, s, matches, change, done, r, rest);
    UpdateHits(t, mean, s, matches, change, Filter(Mine(v), done), r, Filter(Mine(v), rest));
  }

  /** A row of another tenant passes to the done side unseen. */
  lemma NotMineStays(done: seq<Row>, r: Row, rest: seq<Row>, v: Value)
    requires !Mine(v)(r)
    ensures Filter(Mine(v), done + [r]) == Filter(Mine(v), done)
    ensures Filter(Mine(v), [r] + rest) == Filter(Mine(v), rest)
    ensures Filter(NotMine(v), done + [r]) == Filter(NotMine(v), done) + [r]
    ensures Filter(NotMine(v), [r] + rest) == [r] + Filter(NotMine(v), rest)
  {
    FilterDrops(Mine(v), done, r, rest);
    FilterKeeps(NotMine(v), done, r, rest);
  }

  /** A row of the tenant passes over, perhaps changed. */
  lemma MineMoves(done: seq<Row>, r: Row, r': Row, rest: seq<Row>, v: Value)
    requires Mine(v)(r) && Mine(v)(r')
    ensures Filter(Mine(v), done + [r']) == Filter(Mine(v), done) + [r']
    ensures Filter(Mine(v), [r] + rest) == [r] + Filter(Mine(v), rest)
    ensures Filter(NotMine(v), done + [r']) == Filter(NotMine(v), done)
    ensures Filter(NotMine(v), [r] + rest) == Filter(NotMine(v), rest)
  {
    FilterKeeps(Mine(v), done, r', rest);
    FilterKeeps(Mine(v), done, r, rest);
    FilterDrops(NotMine(v), done, r', rest);
    FilterDrops(NotMine(v), done, r, rest);
  }

  /**
   One statement under tenant v on an isolated table does what it would do on
   the table of v's own rows, returns the same, and leaves every other row.
   */
  lemma OwnTableOnly(t: Table, mean: Meaning, s: Session, v: Value, stmt: Statement)
    requires Isolated(t) && Scoped(s, v)
    ensures Execute(t, mean, s, stmt).1 == Execute(Own(t, v), mean, s, stmt).1
    ensures Own(Execute(t, mean, s, stmt).0, v) == Execute(Own(t, v), mean, s, stmt).0
    ensures Others(Execute(t, mean, s, stmt).0, v) == Others(t, v)
    ensures Isolated(Execute(t, mean, s, stmt).0)
  {
    match stmt
    case Select(matches) => HitsAreOwn(t, s, v, matches);
    case Insert(values) => InsertSeesOwn(t, mean, s, v, values);
    case Update(matches, change) =>
      UpdateSeesOwn(t, mean, s, v, matches, change, [], t.rows);
      SameRules(t, Own(t, v), mean, s, matches, change, [], Own(t, v).rows);
      assert Filter(NotMine(v), []) + Others(t, v) == Others(t, v);
    case Delete(matches) =>
      HitsAreOwn(t, s, v, matches);
      MissesAreOwn(t, s, v, matches);
  }

  lemma AllHitsMine(t: Table, s: Session, v: Value, matches: Row -> bool)
    requires Isolated(t) && Scoped(s, v)
    ensures forall r :: r in t.rows && Hits(t, s, matches)(r) ==> Mine(v)(r)
    ensures forall r :: r in t.rows && NotMine(v)(r) ==> Misses(t, s, matches)(r)
  {
    forall r | r in t.rows
      ensures Hits(t, s, matches)(r) ==> Mine(v)(r)
      ensures NotMine(v)(r) ==> Misses(t, s, matches)(r)
    {
      VisibleIsMine(t, s, v, r);
    }
  }

  lemma HitsAreOwn(t: Table, s: Session, v: Value, matches: Row -> bool)
    requires Isolated(t) && Scoped(s, v)
    ensures Filter(Hits(t, s, matches), t.rows) == Filter(Hits(Own(t, v), s, matches), Own(t, v).rows)
  {
    AllHitsMine(t, s, v, matches);
    FilterWithin(Hits(t, s, matches), Mine(v), t.rows);
    FilterSame(Hits(t, s, matches), Hits(Own(t, v), s, matches), Own(t, v).rows);
  }

  lemma MissesAreOwn(t: Table, s: Session, v: Value, matches: Row -> bool)
    requires Isolated(t) && Scoped(s, v)
    ensures Filter(Mine(v), Filter(Misses(t, s, matches), t.rows))
         == Filter(Misses(Own(t, v), s, matches), Own(t, v).rows)
    ensures Filter(NotMine(v), Filter(Misses(t, s, matches), t.rows)) == Others(t, v)
  {
    AllHitsMine(t, s, v, matches);
    FilterSwap(Mine(v), Misses(t, s, matches), t.rows);
    FilterSame(Misses(t, s, matches), Misses(Own(t, v), s, matches), Own(t, v).rows);
    FilterWithin(NotMine(v), Misses(t, s, matches), t.rows);
  }

  lemma InsertSeesOwn(t: Table, mean: Meaning, s: Session, v: Value, values: Row)
    requires Isolated(t) && Scoped(s, v)
    ensures
      var all, own := Execute(t, mean, s, Insert(values)), Execute(Own(t, v), mean, s, Insert(values));
      && all.1 == own.1 && Own(all.0, v) == own.0 && Others(all.0, v) == Others(t, v)
  {
    var r := NewRow(t, s, values);
    ObjectionSeesOwn(t, mean, s, v, t.rows, r);
    assert Objection(Own(t, v), mean, s, Own(t, v).rows, r) == Objection(t, mean, s, Own(t, v).rows, r);
    if values.Keys <= t.columns.Keys && Objection(t, mean, s, t.rows, r).None? {
      FilterKeeps(Mine(v), t.rows, r, []);
      FilterDrops(NotMine(v), t.rows, r, []);
    }
  }

  /** An update consults a table's rules, not its rows. */
  lemma {:induction false} SameRules(t: Table, t': Table, mean: Meaning, s: Session, matches: Row -> bool,
                                     change: Row -> Row,
                                     done: seq<Row>, todo: seq<Row>)
    requires t' == t.(rows := t'.rows)
    ensures UpdateRows(t, mean, s, matches, change, done, todo) == UpdateRows(t', mean, s, matches, change, done, todo)
    decreases |todo|
  {
    if todo != [] {
      var r := todo[0];
      var r' := ChangedRow(t, r, change(r));
      SameRules(t, t', mean, s, matches, change, done + [r], todo[1..]);
      SameRules(t, t', mean, s, matches, change, done + [r'], todo[1..]);
      assert Objection(t, mean, s, done + todo[1..], r') == Objection(t', mean, s, done + todo[1..], r');
    }
  }

  /** Without a tenant no statement changes an isolated table. */
  lemma UnsetChangesNothing(t: Table, mean: Meaning, s: Session, stmt: Statement)
    requires Isolated(t) && Unset(s)
    ensures Execute(t, mean, s, stmt).0 == t
  {
    forall r ensures !Visible(t, s, r) && !Writable(t, s, r) {
      NothingIsVisible(t, s, r);
    }
    match stmt
    case Select(_) =>
    case Insert(_) =>
    case Update(matches, change) =>
      NothingUpdated(t, mean, s, matches, change, [], t.rows);
      assert [] + t.rows == t.rows;
    case Delete(matches) => FilterAll(Misses(t, s, matches), t.rows);
  }

  lemma {:induction false} NothingUpdated(t: Table, mean: Meaning, s: Session, matches: Row -> bool, change: Row -> Row,
                                          done: seq<Row>, todo: seq<Row>)
    requires forall r :: !Visible(t, s, r)
    ensures UpdateRows(t, mean, s, matches, change, done, todo) == Ok((done + todo, 0))
    decreases |todo|
  {
    if todo == [] {
      assert done + todo == done;
    } else {
      NothingUpdated(t, mean, s, matches, change, done + [todo[0]], todo[1..]);
      assert done + [todo[0]] + todo[1..] == done + todo;
    }
  }
}
