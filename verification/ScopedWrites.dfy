/**
 The scoped manager's reads and writes on a model with its own tenant column:
 whose rows they touch, and whose name the rows they insert carry. `defaults`
 is the caller's own dictionary, and the manager writes into it.
 */
module ScopedWrites {
  import opened Prelude

  type Fields = map<string, string>

  datatype Row = Row(tenant: Option<string>, fields: Fields)

  /** Rows by primary key; `next` is the key the database gives out next. */
  datatype Table = Table(rows: map<nat, Row>, next: nat)

  /** Keyword arguments; `named`: the tenant, when the caller gave it by either name, possibly None. */
  datatype Kwargs = Kwargs(named: Option<Option<string>>, fields: Fields)

  const NO_KWARGS := Kwargs(None, map[])

  datatype Reply =
    | Found(pks: set<nat>) | Created(pk: nat) | Updated(pks: set<nat>) | Inserted(first: nat, count: nat)
    | Multiple | OtherTenant(i: nat)

  ghost predicate Valid(tb: Table) {
    forall p :: p in tb.rows ==> p < tb.next
  }

  // ---- The pieces ----

  /** Never overwrites what the caller supplied. */
  function Injected(kw: Kwargs, active: string): Kwargs {
    if kw.named.Some? then kw else kw.(named := Some(Some(active)))
  }

  predicate Meets(row: Row, lookup: Kwargs) {
    && (lookup.named.Some? ==> row.tenant == lookup.named.value)
    && forall f <- lookup.fields :: f in row.fields && row.fields[f] == lookup.fields[f]
  }

  /** The manager's queryset, narrowed by a lookup. */
  function Lookup(tb: Table, active: string, lookup: Kwargs): set<nat> {
    set p | p in tb.rows && tb.rows[p].tenant == Some(active) && Meets(tb.rows[p], lookup)
  }

  /** What `create` is called with: the defaults on top of the lookup. */
  function Params(lookup: Kwargs, defaults: Kwargs): Kwargs {
    Kwargs(if defaults.named.Some? then defaults.named else lookup.named, lookup.fields + defaults.fields)
  }

  /** `save()` fills in a missing tenant. */
  function Stamped(tenant: Option<string>, active: string): Option<string> {
    if tenant.Some? then tenant else Some(active)
  }

  function Saved(kw: Kwargs, active: string): Row {
    Row(Stamped(if kw.named.Some? then kw.named.value else None, active), kw.fields)
  }

  function Insert(tb: Table, row: Row): Table {
    Table(tb.rows[tb.next := row], tb.next + 1)
  }

  function InsertAll(tb: Table, rows: seq<Row>): Table
    decreases |rows|
  {
    if rows == [] then tb else InsertAll(Insert(tb, rows[0]), rows[1..])
  }

  function StampAll(rows: seq<Row>, active: string): (r: seq<Row>)
    ensures |r| == |rows|
    ensures forall i :: 0 <= i < |rows| ==> r[i] == rows[i].(tenant := Stamped(rows[i].tenant, active))
  {
    seq(|rows|, i requires 0 <= i < |rows| => rows[i].(tenant := Stamped(rows[i].tenant, active)))
  }

  function Changed(row: Row, active: string, update: Kwargs): Row {
    Saved(Kwargs(if update.named.Some? then update.named else Some(row.tenant), row.fields + update.fields), active)
  }

  // ---- The operations ----

  function GetOrCreate(tb: Table, active: string, lookup: Kwargs, defaults: Kwargs): (Table, Reply) {
    var found := Lookup(tb, active, lookup);
    if found == {} then (Insert(tb, Saved(Params(lookup, defaults), active)), Created(tb.next))
    else if |found| > 1 then (tb, Multiple)
    else (tb, Found(found))
  }

  function UpdateOrCreate(tb: Table, active: string, lookup: Kwargs, update: Kwargs, create: Kwargs): (Table, Reply) {
    var r := GetOrCreate(tb, active, lookup, create);
    if !r.1.Found? then r
    else (tb.(rows := map p | p in tb.rows :: if p in r.1.pks then Changed(tb.rows[p], active, update) else tb.rows[p]),
          Updated(r.1.pks))
  }

  /** The position of the first object of another tenant, or the length of the list. */
  function FirstForeign(objs: seq<(nat, Row)>, active: string): (k: nat)
    ensures k <= |objs|
    ensures forall i :: 0 <= i < k ==> objs[i].1.tenant == Some(active)
    ensures k < |objs| ==> objs[k].1.tenant != Some(active)
  {
    if objs == [] || objs[0].1.tenant != Some(active) then 0 else 1 + FirstForeign(objs[1..], active)
  }

  /** Of several objects with one key the first wins. */
  function Overlay(row: Row, p: nat, objs: seq<(nat, Row)>, names: set<string>): Row {
    if objs == [] then row
    else if objs[0].0 == p
    then row.(fields := row.fields + (map f | f in names && f in objs[0].1.fields :: objs[0].1.fields[f]))
    else Overlay(row, p, objs[1..], names)
  }

  function Keys(objs: seq<(nat, Row)>): set<nat> {
    set o <- objs :: o.0
  }

  /** The check reads the objects; the update itself is still narrowed to the tenant's rows. */
  function BulkUpdate(tb: Table, active: string, objs: seq<(nat, Row)>, names: set<string>): (Table, Reply) {
    var hit := set p | p in tb.rows && p in Keys(objs) && tb.rows[p].tenant == Some(active);
    if FirstForeign(objs, active) < |objs| then (tb, OtherTenant(FirstForeign(objs, active)))
    else (tb.(rows := map p | p in tb.rows :: if p in hit then Overlay(tb.rows[p], p, objs, names) else tb.rows[p]),
          Updated(hit))
  }

  class Dict {
    var kw: Kwargs

    constructor (kw: Kwargs)
      ensures this.kw == kw
    {
      this.kw := kw;
    }
  }

  class TenantManager {
    var table: Table

    constructor (table: Table)
      ensures this.table == table
    {
      this.table := table;
    }

    /** The objects are the caller's, and keep the tenant they are given. */
    method BulkCreate(objs: array<Row>, active: string) returns (reply: Reply)
      modifies this, objs
      ensures objs[..] == StampAll(old(objs[..]), active)
      ensures table == InsertAll(old(table), objs[..])
      ensures reply == Inserted(old(table).next, objs.Length)
    {
      var start := table.next;
      for i := 0 to objs.Length
        modifies objs
        invariant objs[..i] == StampAll(old(objs[..]), active)[..i]
        invariant objs[i..] == old(objs[..])[i..]
      {
        assert objs[i] == old(objs[..])[i];
        if objs[i].tenant == None {
          objs[i] := objs[i].(tenant := Some(active));
        }
        assert objs[..i + 1] == objs[..i] + [objs[i]];
      }
      var rows := objs[..];
      for i := 0 to |rows|
        invariant objs[..] == rows && InsertAll(table, rows[i..]) == InsertAll(old(table), rows)
      {
        table := Insert(table, rows[i]);
      }
      reply := Inserted(start, objs.Length);
    }

    method BulkUpdateObjects(objs: seq<(nat, Row)>, names: set<string>, active: string) returns (reply: Reply)
      modifies this
      ensures (table, reply) == BulkUpdate(old(table), active, objs, names)
    {
      for i := 0 to |objs|
        invariant i <= FirstForeign(objs, active)
      {
        if objs[i].1.tenant != Some(active) {
          return OtherTenant(i);
        }
      }
      var r := BulkUpdate(table, active, objs, names);
      table, reply := r.0, r.1;
    }

    /** `_inject_tenant_kwargs` on one of the caller's dictionaries. */
    method Inject(d: Dict?, active: string)
      modifies d
      ensures d != null ==> d.kw == Injected(old(d.kw), active)
    {
      if d != null && d.kw.named.None? {
        d.kw := d.kw.(named := Some(Some(active)));
      }
    }

    method GetOrCreateObject(defaults: Dict?, lookup: Kwargs, active: string) returns (reply: Reply)
      modifies this, defaults
      ensures defaults != null ==> defaults.kw == Injected(old(defaults.kw), active)
      ensures (table, reply) == GetOrCreate(old(table), active, Injected(lookup, active),
                                            if defaults == null then NO_KWARGS else defaults.kw)
    {
      Inject(defaults, active);
      var given := if defaults == null then NO_KWARGS else defaults.kw;
      var r := GetOrCreate(table, active, Injected(lookup, active), given);
      table, reply := r.0, r.1;
    }

    /** Without `create_defaults` the defaults serve both ends. */
    method UpdateOrCreateObject(defaults: Dict?, createDefaults: Dict?, lookup: Kwargs, active: string)
      returns (reply: Reply)
      modifies this, defaults, createDefaults
      ensures defaults != null ==> defaults.kw == Injected(old(defaults.kw), active)
      ensures createDefaults != null ==> createDefaults.kw == Injected(old(createDefaults.kw), active)
      ensures
        var update := if defaults == null then NO_KWARGS else defaults.kw;
        var create := if createDefaults == null then update else createDefaults.kw;
        (table, reply) == UpdateOrCreate(old(table), active, Injected(lookup, active), update, create)
    {
      Inject(defaults, active);
      Inject(createDefaults, active);
      var update := if defaults == null then NO_KWARGS else defaults.kw;
      var create := if createDefaults == null then update else createDefaults.kw;
      var r := UpdateOrCreate(table, active, Injected(lookup, active), update, create);
      table, reply := r.0, r.1;
    }
  }

  // ---- Runs ----

  datatype Op =
    | Read(matches: Row -> bool)
    | Update(matches: Row -> bool, change: Row -> Row)
    | Delete(matches: Row -> bool)
    | Create(objs: seq<Row>)
    | Amend(changed: seq<(nat, Row)>, names: set<string>)
    | GetElseCreate(lookup: Kwargs, defaults: Option<string>)
    | UpdateElseCreate(lookup: Kwargs, defaults: Option<string>, createDefaults: Option<string>)

  /** One call, under the tenant active at the time; dictionaries are known by name. */
  datatype Call = Call(active: string, op: Op)

  datatype State = State(table: Table, dicts: map<string, Kwargs>)

  function Uses(op: Op, d: string): bool {
    match op
    case GetElseCreate(_, defaults) => defaults == Some(d)
    case UpdateElseCreate(_, defaults, create) => defaults == Some(d) || create == Some(d)
    case _ => false
  }

  function DictAt(dicts: map<string, Kwargs>, d: Option<string>, absent: Kwargs): Kwargs {
    if d.Some? && d.value in dicts then dicts[d.value] else absent
  }

  function Mine(tb: Table, active: string, matches: Row -> bool): set<nat> {
    set p | p in tb.rows && tb.rows[p].tenant == Some(active) && matches(tb.rows[p])
  }

  function Do(st: State, c: Call): State {
    var tb, active := st.table, c.active;
    var dicts := map d | d in st.dicts :: if Uses(c.op, d) then Injected(st.dicts[d], active) else st.dicts[d];
    match c.op
    case Read(_) => st
    case Update(matches, change) =>
      var hit := Mine(tb, active, matches);
      st.(table := tb.(rows := map p | p in tb.rows :: if p in hit then change(tb.rows[p]) else tb.rows[p]))
    case Delete(matches) => st.(table := tb.(rows := tb.rows - Mine(tb, active, matches)))
    case Create(objs) => st.(table := InsertAll(tb, StampAll(objs, active)))
    case Amend(objs, names) => st.(table := BulkUpdate(tb, active, objs, names).0)
    case GetElseCreate(lookup, d) =>
      State(GetOrCreate(tb, active, Injected(lookup, active), DictAt(dicts, d, NO_KWARGS)).0, dicts)
    case UpdateElseCreate(lookup, d, e) =>
      var update := DictAt(dicts, d, NO_KWARGS);
      State(UpdateOrCreate(tb, active, Injected(lookup, active), update, DictAt(dicts, e, update)).0, dicts)
  }

  function Run(st: State, calls: seq<Call>): State
    decreases |calls|
  {
    if calls == [] then st else Run(Do(st, calls[0]), calls[1..])
  }

  // ---- No row of another tenant is touched ----

  lemma {:induction false} InsertAllKeeps(tb: Table, rows: seq<Row>, p: nat)
    requires Valid(tb)
    ensures Valid(InsertAll(tb, rows)) && InsertAll(tb, rows).next == tb.next + |rows|
    ensures p in tb.rows ==> p in InsertAll(tb, rows).rows && InsertAll(tb, rows).rows[p] == tb.rows[p]
    ensures p !in tb.rows && p in InsertAll(tb, rows).rows ==>
      tb.next <= p < tb.next + |rows| && InsertAll(tb, rows).rows[p] == rows[p - tb.next]
    decreases |rows|
  {
    if rows != [] {
      InsertAllKeeps(Insert(tb, rows[0]), rows[1..], p);
    }
  }

  lemma CallKeepsOthers(st: State, c: Call, p: nat)
    requires Valid(st.table) && p in st.table.rows && st.table.rows[p].tenant != Some(c.active)
    ensures p in Do(st, c).table.rows && Do(st, c).table.rows[p] == st.table.rows[p]
  {
    if c.op.Create? {
      InsertAllKeeps(st.table, StampAll(c.op.objs, c.active), p);
    }
  }

  lemma CallKeepsValid(st: State, c: Call)
    requires Valid(st.table)
    ensures Valid(Do(st, c).table)
  {
    if c.op.Create? {
      InsertAllKeeps(st.table, StampAll(c.op.objs, c.active), 0);
    }
  }

  /** Over any run, a row stays exactly as it was while its own tenant is not active. */
  lemma {:induction false} OtherTenantsRowsAreKept(st: State, calls: seq<Call>, p: nat)
    requires Valid(st.table) && p in st.table.rows
    requires forall c :: c in calls ==> st.table.rows[p].tenant != Some(c.active)
    ensures p in Run(st, calls).table.rows && Run(st, calls).table.rows[p] == st.table.rows[p]
    decreases |calls|
  {
    if calls != [] {
      CallKeepsOthers(st, calls[0], p);
      CallKeepsValid(st, calls[0]);
      OtherTenantsRowsAreKept(Do(st, calls[0]), calls[1..], p);
    }
  }

  /** `bulk_update` is refused exactly when it is given another tenant's object, and then changes nothing. */
  lemma AllOrNothing(tb: Table, active: string, objs: seq<(nat, Row)>, names: set<string>, p: nat)
    ensures BulkUpdate(tb, active, objs, names).1.OtherTenant?
       <==> exists i :: 0 <= i < |objs| && objs[i].1.tenant != Some(active)
    ensures BulkUpdate(tb, active, objs, names).1.OtherTenant? ==> BulkUpdate(tb, active, objs, names).0 == tb
    ensures p in tb.rows ==> p in BulkUpdate(tb, active, objs, names).0.rows
                             && BulkUpdate(tb, active, objs, names).0.rows[p].tenant == tb.rows[p].tenant
  {
    if p in tb.rows {
      OverlayKeepsTenant(tb.rows[p], p, objs, names);
    }
  }

  lemma {:induction false} OverlayKeepsTenant(row: Row, p: nat, objs: seq<(nat, Row)>, names: set<string>)
    ensures Overlay(row, p, objs, names).tenant == row.tenant
  {
    if objs != [] {
      OverlayKeepsTenant(row, p, objs[1..], names);
    }
  }

  // ---- What a call makes of each row ----

  /** The row with the named fields of an object written over its own, and its tenant as it was. */
  ghost predicate WrittenFrom(before: Row, fields: Fields, names: set<string>, after: Row) {
    && after.tenant == before.tenant
    && after.fields.Keys == before.fields.Keys + fields.Keys * names
    && forall f :: f in after.fields ==>
         after.fields[f] == if f in names && f in fields then fields[f] else before.fields[f]
  }

  lemma {:induction false} FirstObjectWins(row: Row, p: nat, objs: seq<(nat, Row)>, names: set<string>, i: nat)
    requires i < |objs| && objs[i].0 == p && forall j :: 0 <= j < i ==> objs[j].0 != p
    ensures WrittenFrom(row, objs[i].1.fields, names, Overlay(row, p, objs, names))
    decreases i
  {
    if i > 0 {
      assert objs[0].0 != p && objs[1..][i - 1] == objs[i];
      FirstObjectWins(row, p, objs[1..], names, i - 1);
    }
  }

  /** `bulk_update` writes the named fields of the first object with a key to the tenant's row of that key alone. */
  lemma BulkUpdateWritesExactly(tb: Table, active: string, objs: seq<(nat, Row)>, names: set<string>, p: nat)
    requires p in tb.rows && forall i :: 0 <= i < |objs| ==> objs[i].1.tenant == Some(active)
    ensures
      var r := BulkUpdate(tb, active, objs, names);
      && r.1.Updated? && r.0.rows.Keys == tb.rows.Keys && r.0.next == tb.next
      && (p in r.1.pks <==> tb.rows[p].tenant == Some(active) && exists i :: 0 <= i < |objs| && objs[i].0 == p)
      && (p !in r.1.pks ==> r.0.rows[p] == tb.rows[p])
      && (forall i :: 0 <= i < |objs| && objs[i].0 == p && p in r.1.pks && p !in Keys(objs[..i]) ==>
            WrittenFrom(tb.rows[p], objs[i].1.fields, names, r.0.rows[p]))
  {
    var r := BulkUpdate(tb, active, objs, names);
    assert forall i :: 0 <= i < |objs| ==> objs[i] in objs;
    forall i | 0 <= i < |objs| && objs[i].0 == p && p in r.1.pks && p !in Keys(objs[..i])
      ensures WrittenFrom(tb.rows[p], objs[i].1.fields, names, r.0.rows[p])
    {
      assert forall j :: 0 <= j < i ==> objs[..i][j] == objs[j] && objs[j].0 in Keys(objs[..i]);
      FirstObjectWins(tb.rows[p], p, objs, names, i);
    }
  }

  /** The active tenant's row, with every field as the lookup says; a lookup that names another tenant has no answer. */
  ghost predicate Answers(row: Row, active: string, lookup: Kwargs) {
    && row.tenant == Some(active) && (lookup.named.Some? ==> lookup.named.value == Some(active))
    && forall f :: f in lookup.fields ==> f in row.fields && row.fields[f] == lookup.fields[f]
  }

  ghost predicate OnlyAnswer(tb: Table, active: string, lookup: Kwargs, p: nat) {
    && p in tb.rows && Answers(tb.rows[p], active, lookup)
    && forall q :: q in tb.rows && Answers(tb.rows[q], active, lookup) ==> q == p
  }

  lemma OneOrMore(found: set<nat>)
    ensures |found| > 1 <==> exists p, q :: p in found && q in found && p != q
  {
    if p :| p in found {
      assert found == {p} + (found - {p});
      if |found| > 1 {
        var q :| q in found - {p};
      }
    }
  }

  /**
   `get_or_create`: the one answer, or an error when there are several, and the
   table as it was; with no answer, one more row, the defaults over the lookup.
   */
  lemma GetsOrCreates(tb: Table, active: string, lookup: Kwargs, defaults: Kwargs)
    ensures
      var r := GetOrCreate(tb, active, Injected(lookup, active), defaults);
      && (forall p :: OnlyAnswer(tb, active, lookup, p) <==> r.1 == Found({p}))
      && (r.1.Created? <==> forall p :: p in tb.rows ==> !Answers(tb.rows[p], active, lookup))
      && (r.1.Created? || r.1.Multiple? || exists p :: r.1 == Found({p}))
      && (!r.1.Created? ==> r.0 == tb)
      && (r.1.Created? ==>
            && r.1 == Created(tb.next) && r.0.next == tb.next + 1 && tb.next in r.0.rows
            && r.0.rows == tb.rows[tb.next := r.0.rows[tb.next]]
            && CreatedFrom(active, lookup, defaults, r.0.rows[tb.next]))
  {
    var given := Injected(lookup, active);
    var found := Lookup(tb, active, given);
    assert forall p :: p in found <==> p in tb.rows && Answers(tb.rows[p], active, lookup);
    OneOrMore(found);
    if found != {} && |found| <= 1 {
      var p :| p in found;
      assert found == {p};
    }
    forall p: nat | OnlyAnswer(tb, active, lookup, p) ensures found == {p} {
    }
  }

  ghost predicate CreatedFrom(active: string, lookup: Kwargs, defaults: Kwargs, row: Row) {
    && row.tenant == Some(match (if defaults.named.Some? then defaults.named else lookup.named)
                          case Some(Some(t)) => t
                          case _ => active)
    && row.fields.Keys == lookup.fields.Keys + defaults.fields.Keys
    && forall f :: f in row.fields ==>
         row.fields[f] == if f in defaults.fields then defaults.fields[f] else lookup.fields[f]
  }

  /** `update_or_create` on the one answer: the defaults over its fields, and every other row as it was. */
  lemma UpdatesTheOneAnswer(tb: Table, active: string, lookup: Kwargs, update: Kwargs, create: Kwargs, p: nat, q: nat)
    requires OnlyAnswer(tb, active, lookup, p) && q in tb.rows
    ensures
      var r := UpdateOrCreate(tb, active, Injected(lookup, active), update, create);
      && r.1 == Updated({p}) && r.0.next == tb.next && r.0.rows.Keys == tb.rows.Keys
      && (q != p ==> r.0.rows[q] == tb.rows[q])
      && CreatedFrom(active, Kwargs(None, tb.rows[p].fields), update, r.0.rows[p])
  {
    GetsOrCreates(tb, active, lookup, create);
  }

  /** With no answer, or several, it does what `get_or_create` does with the other dictionary. */
  lemma CreatesOtherwise(tb: Table, active: string, lookup: Kwargs, update: Kwargs, create: Kwargs)
    requires forall p :: !OnlyAnswer(tb, active, lookup, p)
    ensures
      var given := Injected(lookup, active);
      UpdateOrCreate(tb, active, given, update, create) == GetOrCreate(tb, active, given, create)
  {
    GetsOrCreates(tb, active, lookup, create);
  }

  /** A queryset's update and delete reach the active tenant's rows that match, and no other. */
  lemma QuerysetReachesExactly(st: State, c: Call, p: nat)
    requires p in st.table.rows
    ensures
      var row, rows := st.table.rows[p], Do(st, c).table.rows;
      match c.op
      case Update(matches, change) =>
        p in rows && rows[p] == if row.tenant == Some(c.active) && matches(row) then change(row) else row
      case Delete(matches) =>
        && (p in rows <==> row.tenant != Some(c.active) || !matches(row))
        && (p in rows ==> rows[p] == row)
      case _ => true
  {
  }

  // ---- Whose name an inserted row carries ----

  /** The tenants whose calls were given the dictionary, in order. */
  function Users(calls: seq<Call>, d: string): seq<string> {
    if calls == [] then []
    else (if Uses(calls[0].op, d) then [calls[0].active] else []) + Users(calls[1..], d)
  }

  /** The first call a dictionary is passed to writes its tenant into it, for good. */
  lemma {:induction false} DictKeepsItsFirstUser(st: State, calls: seq<Call>, d: string)
    requires d in st.dicts
    ensures
      var users := Users(calls, d);
      var kw := st.dicts[d];
      && d in Run(st, calls).dicts
      && Run(st, calls).dicts[d] == if users == [] then kw else Injected(kw, users[0])
    decreases |calls|
  {
    if calls != [] {
      DictKeepsItsFirstUser(Do(st, calls[0]), calls[1..], d);
    }
  }

  /**
   A row that `get_or_create` inserts, when neither the lookup nor the
   dictionary ever named a tenant, carries the first tenant that passed the
   dictionary in: the active one exactly when nobody else did so before.
   */
  lemma InsertedRowCarriesTheFirstUser(st: State, calls: seq<Call>, d: string, lookup: Kwargs, active: string)
    requires d in st.dicts && st.dicts[d].named.None? && lookup.named.None?
    requires
      var before := Run(st, calls);
      Lookup(before.table, active, Injected(lookup, active)) == {}
    ensures
      var before := Run(st, calls);
      var after := Do(before, Call(active, GetElseCreate(lookup, Some(d))));
      var users := Users(calls, d);
      var first := if users == [] then active else users[0];
      && after.table.next == before.table.next + 1
      && after.table.rows[before.table.next].tenant == Some(first)
      && (after.table.rows[before.table.next].tenant == Some(active) <==> users == [] || users[0] == active)
  {
    DictKeepsItsFirstUser(st, calls, d);
  }

  /** The defaults contradict neither the active tenant nor the lookup. */
  predicate Consistent(lookup: Kwargs, defaults: Kwargs, active: string) {
    && (defaults.named.None? || defaults.named.value.None? || defaults.named.value == Some(active))
    && forall f <- lookup.fields :: f in defaults.fields ==> defaults.fields[f] == lookup.fields[f]
  }

  /**
   A row that `get_or_create` inserts is found by the same call again exactly
   when the defaults are consistent; otherwise the call inserts another.
   */
  lemma FoundAgainExactlyWhen(tb: Table, active: string, lookup: Kwargs, defaults: Kwargs)
    requires Valid(tb) && lookup.named.None? && Lookup(tb, active, Injected(lookup, active)) == {}
    ensures
      var first := GetOrCreate(tb, active, Injected(lookup, active), defaults);
      var again := GetOrCreate(first.0, active, Injected(lookup, active), defaults);
      && first.1 == Created(tb.next)
      && (again == (first.0, Found({tb.next})) <==> Consistent(lookup, defaults, active))
      && (!Consistent(lookup, defaults, active) ==> again.1 == Created(tb.next + 1))
  {
    var given := Injected(lookup, active);
    var row := Saved(Params(given, defaults), active);
    var tb1 := Insert(tb, row);
    assert forall p :: p in Lookup(tb1, active, given) ==> p == tb.next || p in Lookup(tb, active, given);
    if Consistent(lookup, defaults, active) {
      assert row.tenant == Some(active) && Meets(row, given);
      assert Lookup(tb1, active, given) == {tb.next};
    } else {
      assert row.tenant == Some(active) ==> !Meets(row, given) by {
        if row.tenant == Some(active) {
          var f :| f in lookup.fields && f in defaults.fields && defaults.fields[f] != lookup.fields[f];
          assert row.fields[f] != given.fields[f];
        }
      }
      assert Lookup(tb1, active, given) == {};
    }
  }

  /** `bulk_create` stamps the active tenant on what carried none, and keeps what the caller named. */
  lemma CreatedRowsCarryTheirTenant(st: State, active: string, objs: seq<Row>, i: nat)
    requires Valid(st.table) && i < |objs|
    ensures
      var after := Do(st, Call(active, Create(objs))).table;
      && st.table.next + i in after.rows
      && after.rows[st.table.next + i] == objs[i].(tenant := Stamped(objs[i].tenant, active))
  {
    InsertedAt(st.table, StampAll(objs, active), i);
  }

  lemma {:induction false} InsertedAt(tb: Table, rows: seq<Row>, i: nat)
    requires Valid(tb) && i < |rows|
    ensures tb.next + i in InsertAll(tb, rows).rows && InsertAll(tb, rows).rows[tb.next + i] == rows[i]
    decreases |rows|
  {
    var tb1 := Insert(tb, rows[0]);
    if i == 0 {
      InsertAllKeeps(tb1, rows[1..], tb.next);
    } else {
      InsertedAt(tb1, rows[1..], i - 1);
    }
  }

  /** The first tenant to pass a dictionary in, counting the call at hand. */
  function FirstUser(calls: seq<Call>, d: string, active: string): string {
    if Users(calls, d) == [] then active else Users(calls, d)[0]
  }

  /** What a dictionary no caller named a tenant in says at the call at hand. */
  lemma DictAtCall(st: State, calls: seq<Call>, d: string, active: string)
    requires d in st.dicts && st.dicts[d].named.None?
    ensures d in Run(st, calls).dicts
    ensures Injected(Run(st, calls).dicts[d], active)
         == Kwargs(Some(Some(FirstUser(calls, d, active))), st.dicts[d].fields)
  {
    DictKeepsItsFirstUser(st, calls, d);
  }

  /**
   `update_or_create` on a row it finds, when neither the lookup nor the
   dictionary ever named a tenant, leaves the row with the first tenant that
   passed the defaults in: it keeps its own exactly when nobody else did before.
   */
  lemma UpdatedRowKeepsItsTenantExactlyWhen(st: State, calls: seq<Call>, d: string, create: Option<string>,
                                            lookup: Kwargs, active: string, p: nat)
    requires d in st.dicts && st.dicts[d].named.None? && lookup.named.None?
    requires Lookup(Run(st, calls).table, active, Injected(lookup, active)) == {p}
    ensures
      var before := Run(st, calls);
      var after := Do(before, Call(active, UpdateElseCreate(lookup, Some(d), create)));
      && p in before.table.rows && before.table.rows[p].tenant == Some(active)
      && p in after.table.rows && after.table.rows[p].tenant == Some(FirstUser(calls, d, active))
      && (after.table.rows[p].tenant == before.table.rows[p].tenant
          <==> Users(calls, d) == [] || Users(calls, d)[0] == active)
  {
    DictAtCall(st, calls, d, active);
    assert p in Lookup(Run(st, calls).table, active, Injected(lookup, active));
  }

  /** The dictionary an insert by `update_or_create` reads: `create_defaults` when given, else the defaults. */
  function CreatesFrom(defaults: Option<string>, create: Option<string>): Option<string> {
    if create.Some? then create else defaults
  }

  /** A row it inserts carries the first tenant that passed in the dictionary it creates from, if there is one. */
  lemma UpsertedRowCarriesTheFirstUser(st: State, calls: seq<Call>, defaults: Option<string>, create: Option<string>,
                                       lookup: Kwargs, active: string)
    requires lookup.named.None? && (defaults.Some? ==> defaults.value in st.dicts)
    requires
      var e := CreatesFrom(defaults, create);
      e.Some? ==> e.value in st.dicts && st.dicts[e.value].named.None?
    requires Lookup(Run(st, calls).table, active, Injected(lookup, active)) == {}
    ensures
      var before, e := Run(st, calls), CreatesFrom(defaults, create);
      var after := Do(before, Call(active, UpdateElseCreate(lookup, defaults, create)));
      var first := if e.Some? then FirstUser(calls, e.value, active) else active;
      && after.table.next == before.table.next + 1
      && after.table.rows[before.table.next].tenant == Some(first)
      && (after.table.rows[before.table.next].tenant == Some(active)
          <==> e.None? || Users(calls, e.value) == [] || Users(calls, e.value)[0] == active)
  {
    var e := CreatesFrom(defaults, create);
    if defaults.Some? {
      DictKeepsItsFirstUser(st, calls, defaults.value);
    }
    if e.Some? {
      DictAtCall(st, calls, e.value, active);
    }
  }

  /**
   One dictionary, two tenants: the row created while the second is active
   belongs to the first, and an update moves the second's own row to the first.
   */
  lemma ReusedDefaultsCrossTenants(tb: Table, lookup: Kwargs, first: string, second: string, d: string, kw: Kwargs,
                                   p: nat)
    requires first != second && kw.named.None? && lookup.named.None? && Valid(tb)
    requires Lookup(tb, first, Injected(lookup, first)) == {}
    ensures
      var calls := [Call(first, GetElseCreate(lookup, Some(d)))];
      var before := Run(State(tb, map[d := kw]), calls);
      && (Lookup(before.table, second, Injected(lookup, second)) == {} ==>
            Do(before, Call(second, GetElseCreate(lookup, Some(d)))).table.rows[before.table.next].tenant
            == Some(first))
      && (Lookup(before.table, second, Injected(lookup, second)) == {p} ==>
            p in before.table.rows && before.table.rows[p].tenant == Some(second)
            && Do(before, Call(second, UpdateElseCreate(lookup, Some(d), None))).table.rows[p].tenant == Some(first))
  {
    var calls := [Call(first, GetElseCreate(lookup, Some(d)))];
    var st := State(tb, map[d := kw]);
    var before := Run(st, calls);
    DictKeepsItsFirstUser(st, calls, d);
    assert Users(calls, d) == [first] by {
      assert calls[1..] == [];
    }
    if Lookup(before.table, second, Injected(lookup, second)) == {} {
      InsertedRowCarriesTheFirstUser(st, calls, d, lookup, second);
    } else if Lookup(before.table, second, Injected(lookup, second)) == {p} {
      assert p in Lookup(before.table, second, Injected(lookup, second));
    }
  }
}
