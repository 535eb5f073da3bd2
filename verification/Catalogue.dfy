/**
 A PostgreSQL table as adoption meets it: its rows, and the parts of the
 catalogue that decide who may see a row and which rows may coexist. Each DDL
 statement is a partial operation: it either fails, changing nothing, or
 yields the changed table.
 */
module Catalogue {
  import opened Prelude
  import Connections

  const TENANT := "tenant_id"

  /** A column value by its canonical text; a tenant key is one of these. */
  datatype Value = Null | Val(text: string)

  type Row = map<string, Value>

  datatype Default = NoDefault | CurrentTenantId | Fixed(value: Value)

  datatype Column = Column(pgType: string, notNull: bool, default: Default)

  /** Constraint and index names: given, `_tenant`-suffixed from another, or derived by the schema editor. */
  datatype Name = Given(text: string) | Composite(original: Name) | Derived(columns: seq<string>)

  /** A UNIQUE constraint; the index that backs it is the same object. */
  datatype Unique = Unique(name: Name, columns: seq<string>, deferrable: bool, fkTargeted: bool)

  datatype IndexKey = Key(column: string) | Expression(text: string)

  /** A unique index that backs no UNIQUE constraint: the primary key's, or a bare one. */
  datatype UniqueIndex = UniqueIndex(name: Name, keys: seq<IndexKey>, included: seq<string>, partial: Option<string>,
                                     primary: bool)

  datatype PolicyExpr = TenantMatches(column: string) | AdminFlagSet | Everything

  datatype Policy = Policy(using: PolicyExpr, check: Option<PolicyExpr>)

  datatype Table = Table(
    columns: map<string, Column>,
    rows: seq<Row>,
    uniques: seq<Unique>,
    indexes: seq<UniqueIndex>,
    rlsEnabled: bool,
    rlsForced: bool,
    policies: map<string, Policy>)

  type Tables = map<string, Table>

  datatype DbError =
    | UndefinedTable | DuplicateColumn | UndefinedColumn | NullsPresent | DependentPolicy
    | DuplicateName | UndefinedName | DuplicateKey | DuplicatePolicy

  // ---- Who sees what ----

  /** A connection's variables and what its role is exempt from. */
  datatype Session = Session(vars: Connections.Vars, bypassRls: bool)

  /** `boundary_current_tenant_id()`: NULL when the variable is empty. */
  function CurrentTenant(s: Session): Value {
    if s.vars.tenant == "" then Null else Val(s.vars.tenant)
  }

  function ValueAt(row: Row, c: string): Value {
    if c in row then row[c] else Null
  }

  /** A comparison with NULL is not true. */
  predicate Holds(e: PolicyExpr, s: Session, row: Row) {
    match e
    case TenantMatches(c) => ValueAt(row, c) != Null && ValueAt(row, c) == CurrentTenant(s)
    case AdminFlagSet => s.vars.admin
    case Everything => true
  }

  /** FORCE extends the policies to the table's owner; only BYPASSRLS escapes them then. */
  predicate RlsApplies(t: Table, s: Session) {
    t.rlsEnabled && t.rlsForced && !s.bypassRls
  }

  /** Permissive policies are OR'd. */
  predicate Visible(t: Table, s: Session, row: Row) {
    !RlsApplies(t, s) || exists p <- t.policies.Values :: Holds(p.using, s, row)
  }

  /** USING stands in for a missing WITH CHECK. */
  predicate Writable(t: Table, s: Session, row: Row) {
    || !RlsApplies(t, s)
    || exists p <- t.policies.Values :: Holds(if p.check.Some? then p.check.value else p.using, s, row)
  }

  // ---- Uniqueness ----

  /** Two rows collide on a key when it is equal and nowhere NULL in both. */
  predicate Clash(r1: Row, r2: Row, columns: seq<string>) {
    forall c <- columns :: ValueAt(r1, c) != Null && ValueAt(r1, c) == ValueAt(r2, c)
  }

  ghost predicate UniqueOn(rows: seq<Row>, columns: seq<string>) {
    forall i, j :: 0 <= i < j < |rows| ==> !Clash(rows[i], rows[j], columns)
  }

  predicate HasDuplicates(rows: seq<Row>, columns: seq<string>)
    ensures HasDuplicates(rows, columns) <==> !UniqueOn(rows, columns)
  {
    exists i, j | 0 <= i < j < |rows| :: Clash(rows[i], rows[j], columns)
  }

  // ---- DDL ----

  function Names(t: Table): set<Name> {
    (set u <- t.uniques :: u.name) + (set x <- t.indexes :: x.name)
  }

  function ColumnsOf(x: UniqueIndex): set<string> {
    (set k <- x.keys | k.Key? :: k.column) + (set c <- x.included)
  }

  function Mentions(e: PolicyExpr, c: string): bool {
    e == TenantMatches(c)
  }

  predicate PolicyMentions(p: Policy, c: string) {
    Mentions(p.using, c) || (p.check.Some? && Mentions(p.check.value, c))
  }

  function Evaluate(d: Default, s: Session): Value {
    match d
    case NoDefault => Null
    case CurrentTenantId => CurrentTenant(s)
    case Fixed(v) => v
  }

  function Fill(rows: seq<Row>, c: string, v: Value): (r: seq<Row>)
    ensures |r| == |rows|
    ensures forall i :: 0 <= i < |rows| ==> r[i] == rows[i][c := v]
  {
    seq(|rows|, i requires 0 <= i < |rows| => rows[i][c := v])
  }

  function Strip(rows: seq<Row>, c: string): (r: seq<Row>)
    ensures |r| == |rows|
    ensures forall i :: 0 <= i < |rows| ==> r[i] == rows[i] - {c}
  {
    seq(|rows|, i requires 0 <= i < |rows| => rows[i] - {c})
  }

  /** ADD COLUMN evaluates the default once and stamps every existing row with it. */
  function AddColumn(t: Table, c: string, col: Column, s: Session): Result<Table, DbError> {
    var v := Evaluate(col.default, s);
    if c in t.columns then Err(DuplicateColumn)
    else if col.notNull && v == Null && t.rows != [] then Err(NullsPresent)
    else Ok(t.(columns := t.columns[c := col], rows := Fill(t.rows, c, v)))
  }

  function VisibleTo(t: Table, s: Session): Row -> bool {
    (r: Row) => Visible(t, s, r)
  }

  /** UPDATE without a WHERE clause reaches the rows the role may see. */
  function Stamp(rows: seq<Row>, c: string, v: Value, visible: Row -> bool): (r: (seq<Row>, nat))
    ensures |r.0| == |rows| && r.1 <= |rows|
    ensures forall i :: 0 <= i < |rows| ==> r.0[i] == if visible(rows[i]) then rows[i][c := v] else rows[i]
    ensures r.1 == |rows| <==> forall i :: 0 <= i < |rows| ==> visible(rows[i])
    ensures r.1 == 0 <==> forall i :: 0 <= i < |rows| ==> !visible(rows[i])
  {
    if rows == [] then ([], 0)
    else
      var rest := Stamp(rows[1..], c, v, visible);
      if visible(rows[0]) then ([rows[0][c := v]] + rest.0, 1 + rest.1) else ([rows[0]] + rest.0, rest.1)
  }

  function SetNotNull(t: Table, c: string): Result<Table, DbError> {
    if c !in t.columns then Err(UndefinedColumn)
    else if exists i | 0 <= i < |t.rows| :: ValueAt(t.rows[i], c) == Null then Err(NullsPresent)
    else Ok(t.(columns := t.columns[c := t.columns[c].(notNull := true)]))
  }

  function SetDefault(t: Table, c: string, d: Default): Result<Table, DbError> {
    if c !in t.columns then Err(UndefinedColumn)
    else Ok(t.(columns := t.columns[c := t.columns[c].(default := d)]))
  }

  /** DROP COLUMN takes the constraints and indexes that mention the column with it. */
  function DropColumn(t: Table, c: string): Result<Table, DbError> {
    if c !in t.columns then Err(UndefinedColumn)
    else if exists p <- t.policies.Values :: PolicyMentions(p, c) then Err(DependentPolicy)
    else Ok(t.(columns := t.columns - {c},
               rows := Strip(t.rows, c),
               uniques := Filter(UniqueWithout(c), t.uniques),
               indexes := Filter(IndexWithout(c), t.indexes)))
  }

  function UniqueWithout(c: string): Unique -> bool {
    (u: Unique) => c !in u.columns
  }

  function IndexWithout(c: string): UniqueIndex -> bool {
    (x: UniqueIndex) => c !in ColumnsOf(x)
  }

  function NotNamed(name: Name): Unique -> bool {
    (u: Unique) => u.name != name
  }

  function DropUnique(t: Table, name: Name): Result<Table, DbError> {
    if exists u <- t.uniques :: u.name == name
    then Ok(t.(uniques := Filter(NotNamed(name), t.uniques)))
    else Err(UndefinedName)
  }

  function AddUnique(t: Table, name: Name, columns: seq<string>): Result<Table, DbError> {
    if name in Names(t) then Err(DuplicateName)
    else if exists c <- columns :: c !in t.columns then Err(UndefinedColumn)
    else if HasDuplicates(t.rows, columns) then Err(DuplicateKey)
    else Ok(t.(uniques := t.uniques + [Unique(name, columns, false, false)]))
  }

  function CreatePolicy(t: Table, name: string, p: Policy): Result<Table, DbError> {
    if name in t.policies then Err(DuplicatePolicy) else Ok(t.(policies := t.policies[name := p]))
  }

  function DropPolicyIfExists(t: Table, name: string): Table {
    t.(policies := t.policies - {name})
  }

  /** What PostgreSQL itself keeps true of a table. */
  ghost predicate Valid(t: Table) {
    && (forall r <- t.rows :: r.Keys == t.columns.Keys)
    && (forall r <- t.rows, c <- t.columns :: t.columns[c].notNull ==> ValueAt(r, c) != Null)
    && (forall u <- t.uniques :: (forall c <- u.columns :: c in t.columns) && UniqueOn(t.rows, u.columns))
    && (forall i, j :: 0 <= i < j < |t.uniques| ==> t.uniques[i].name != t.uniques[j].name)
    && (forall u <- t.uniques, x <- t.indexes :: u.name != x.name)
    && (forall x <- t.indexes :: ColumnsOf(x) <= t.columns.Keys)
    && (forall name <- t.policies, c :: PolicyMentions(t.policies[name], c) ==> c in t.columns)
  }

  /** On a valid table ADD UNIQUE succeeds exactly when the table it leads to is valid. */
  lemma AddUniqueExactlyWhenValid(t: Table, name: Name, columns: seq<string>)
    requires Valid(t)
    ensures
      var t' := t.(uniques := t.uniques + [Unique(name, columns, false, false)]);
      && (AddUnique(t, name, columns).Ok? <==> Valid(t'))
      && (AddUnique(t, name, columns).Ok? ==> AddUnique(t, name, columns).value == t')
  {
    var u := Unique(name, columns, false, false);
    var t' := t.(uniques := t.uniques + [u]);
    assert t'.uniques[|t.uniques|] == u;
    forall v | v in t'.uniques ensures v == u || v in t.uniques {
    }
    if AddUnique(t, name, columns).Ok? {
      forall i | 0 <= i < |t.uniques| ensures t.uniques[i].name != name {
        assert t.uniques[i].name in Names(t);
      }
      forall x | x in t.indexes ensures x.name != name {
        assert x.name in Names(t);
      }
    } else if Valid(t') {
      NameIsTaken(t, t', name);
    }
  }

  lemma NameIsTaken(t: Table, t': Table, name: Name)
    requires Valid(t') && |t'.uniques| > 0 && t'.indexes == t.indexes
    requires t'.uniques[|t'.uniques| - 1].name == name && t'.uniques[..|t'.uniques| - 1] == t.uniques
    ensures name !in Names(t)
  {
    var n := |t'.uniques| - 1;
    assert t'.uniques[n] in t'.uniques;
    forall u | u in t.uniques ensures u.name != name {
      var i :| 0 <= i < |t.uniques| && t.uniques[i] == u;
      assert t'.uniques[i] == u;
    }
  }

  // ---- Catalogue readers ----

  function ColumnType(t: Table, c: string): Option<string> {
    if c in t.columns then Some(t.columns[c].pgType) else None
  }

  /** One row of the `unique_indexes` reader. */
  datatype IndexInfo = IndexInfo(name: Name, columns: seq<string>, primary: bool, partial: bool, expression: bool,
                                 constraint: Option<Name>)

  /** The plain columns of an index in key order, then the INCLUDE columns: expressions leave no trace. */
  function ReportedColumns(keys: seq<IndexKey>, included: seq<string>): seq<string> {
    if keys == [] then included
    else (if keys[0].Key? then [keys[0].column] else []) + ReportedColumns(keys[1..], included)
  }

  function BackingIndex(u: Unique): IndexInfo {
    IndexInfo(u.name, u.columns, false, false, false, Some(u.name))
  }

  function BareIndex(x: UniqueIndex): IndexInfo {
    IndexInfo(x.name, ReportedColumns(x.keys, x.included), x.primary, x.partial.Some?,
              exists k <- x.keys :: k.Expression?, if x.primary then Some(x.name) else None)
  }

  /** Every unique index on the table, those that back a constraint included. */
  function UniqueIndexes(t: Table): (r: seq<IndexInfo>)
    ensures |r| == |t.uniques| + |t.indexes|
    ensures forall i :: 0 <= i < |t.uniques| ==> r[i] == BackingIndex(t.uniques[i])
    ensures forall i :: 0 <= i < |t.indexes| ==> r[|t.uniques| + i] == BareIndex(t.indexes[i])
  {
    seq(|t.uniques|, i requires 0 <= i < |t.uniques| => BackingIndex(t.uniques[i]))
    + seq(|t.indexes|, i requires 0 <= i < |t.indexes| => BareIndex(t.indexes[i]))
  }
}
