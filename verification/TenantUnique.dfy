/**
 `tenant_unique`: a unique constraint whose field list is completed when a model
 is prepared, and which Django keeps copying. Whatever the order of copies and
 preparations, the tenant column is put in front exactly once.
 */
module TenantUnique {
  import opened Prelude

  /** Resolution is detected by comparing the two lists; nothing else records it. */
  class TenantUniqueConstraint {
    const tenantFields: seq<string>
    var fields: seq<string>

    ghost function Abs(): Constraint
      reads this
    {
      Constraint(tenantFields, fields)
    }

    /** `fields` is given when the constraint is rebuilt from a deconstructed one. */
    constructor (tenantFields: seq<string>, fields: Option<seq<string>>)
      ensures Abs() == Constraint(tenantFields, if fields.Some? then fields.value else tenantFields)
    {
      this.tenantFields := tenantFields;
      this.fields := if fields.Some? then fields.value else tenantFields;
    }

    /** `clone()`: a new object, rebuilt from what `deconstruct()` returns. */
    method Clone() returns (copy: TenantUniqueConstraint)
      ensures fresh(copy) && copy.Abs() == Abs()
    {
      copy := new TenantUniqueConstraint(tenantFields, Some(fields));
    }

    /** `column`: the tenant column of the model being prepared, "" when it has none. */
    method Resolve(column: string) returns (raised: bool)
      modifies this`fields
      ensures Abs() == Resolved(old(Abs()), column)
      ensures raised <==> Refuses(old(Abs()), column)
    {
      raised := false;
      if fields != tenantFields {
        return;
      }
      if column == "" {
        return true;
      }
      fields := [column] + tenantFields;
    }
  }

  /** The `class_prepared` receiver; the first constraint to raise ends it. */
  method ResolveAll(constraints: seq<TenantUniqueConstraint>, column: string) returns (raised: bool)
    requires forall i, j :: 0 <= i < j < |constraints| ==> constraints[i] != constraints[j]
    modifies constraints
    ensures raised <==> exists c :: c in constraints && Refuses(old(c.Abs()), column)
    ensures raised ==> forall c :: c in constraints ==> c.Abs() == old(c.Abs())
    ensures !raised ==> forall c :: c in constraints ==> c.Abs() == Resolved(old(c.Abs()), column)
  {
    raised := false;
    for i := 0 to |constraints|
      invariant forall c :: c in constraints[..i] ==>
        !Refuses(old(c.Abs()), column) && c.Abs() == Resolved(old(c.Abs()), column)
      invariant forall c :: c in constraints[i..] ==> c.Abs() == old(c.Abs())
    {
      assert constraints[..i + 1] == constraints[..i] + [constraints[i]];
      assert constraints[i] !in constraints[..i] && constraints[i] !in constraints[i + 1..];
      raised := constraints[i].Resolve(column);
      if raised {
        // Only a model without a column raises, and such a model resolves nothing.
        assert forall c :: c in constraints ==> c in constraints[..i] || c in constraints[i..];
        assert forall c :: c in constraints[..i] ==> Resolved(old(c.Abs()), "") == old(c.Abs());
        return;
      }
    }
    assert constraints[..|constraints|] == constraints;
  }

  // ---- Every object of a history ----

  datatype Constraint = Constraint(tenantFields: seq<string>, fields: seq<string>)

  predicate Refuses(c: Constraint, column: string) {
    c.fields == c.tenantFields && column == ""
  }

  function Resolved(c: Constraint, column: string): Constraint {
    if c.fields != c.tenantFields || column == "" then c else c.(fields := [column] + c.tenantFields)
  }

  /** Objects are numbered in the order they come into being. */
  datatype Event = CloneOf(i: nat) | Prepare(i: nat, column: string)

  function Apply(objects: seq<Constraint>, e: Event): seq<Constraint> {
    if e.i >= |objects| then objects
    else
      match e
      case CloneOf(i) => objects + [objects[i]]
      case Prepare(i, column) => objects[i := Resolved(objects[i], column)]
  }

  function Run(objects: seq<Constraint>, events: seq<Event>): seq<Constraint>
    decreases |events|
  {
    if events == [] then objects else Run(Apply(objects, events[0]), events[1..])
  }

  /** The columns an object's own line of descent was prepared with, oldest first. */
  function Lines(lines: seq<seq<string>>, events: seq<Event>): seq<seq<string>>
    decreases |events|
  {
    if events == [] then lines
    else
      var e := events[0];
      Lines(if e.i >= |lines| then lines
            else if e.CloneOf? then lines + [lines[e.i]]
            else lines[e.i := lines[e.i] + [e.column]],
            events[1..])
  }

  predicate IsColumn(column: string) {
    column != ""
  }

  function Columns(line: seq<string>): seq<string> {
    Filter(IsColumn, line)
  }

  /** The author's list, led by the first tenant column met, if one has been met. */
  function Expected(author: seq<string>, line: seq<string>): Constraint {
    Constraint(author, if Columns(line) == [] then author else [Columns(line)[0]] + author)
  }

  ghost predicate AllExpected(author: seq<string>, objects: seq<Constraint>, lines: seq<seq<string>>) {
    |objects| == |lines| && forall i :: 0 <= i < |objects| ==> objects[i] == Expected(author, lines[i])
  }

  lemma PreparedIsExpected(author: seq<string>, line: seq<string>, column: string)
    ensures Resolved(Expected(author, line), column) == Expected(author, line + [column])
  {
    FilterConcat(IsColumn, line, [column]);
    if Columns(line) != [] {
      assert |[Columns(line)[0]] + author| != |author|;
    }
  }

  lemma {:induction false} RunIsExpected(author: seq<string>, objects: seq<Constraint>, lines: seq<seq<string>>,
                                         events: seq<Event>)
    requires AllExpected(author, objects, lines)
    ensures AllExpected(author, Run(objects, events), Lines(lines, events))
    decreases |events|
  {
    if events != [] {
      var e := events[0];
      if e.i >= |objects| {
        RunIsExpected(author, objects, lines, events[1..]);
      } else if e.CloneOf? {
        RunIsExpected(author, objects + [objects[e.i]], lines + [lines[e.i]], events[1..]);
      } else {
        PreparedIsExpected(author, lines[e.i], e.column);
        RunIsExpected(author, Apply(objects, e), lines[e.i := lines[e.i] + [e.column]], events[1..]);
      }
    }
  }

  /**
   After any history of copies and preparations of one `tenant_unique` call,
   every object there is carries the author's fields, led by the first tenant
   column its own line of descent met, once; and a preparation refuses it
   exactly when that line has met none and the model offers none.
   */
  lemma TenantColumnLeadsOnce(author: seq<string>, events: seq<Event>, i: nat, column: string)
    requires i < |Run([Constraint(author, author)], events)|
    ensures
      var c := Run([Constraint(author, author)], events)[i];
      && i < |Lines([[]], events)|
      && c == Expected(author, Lines([[]], events)[i])
      && (Refuses(c, column) <==> Columns(Lines([[]], events)[i] + [column]) == [])
  {
    RunIsExpected(author, [Constraint(author, author)], [[]], events);
    var line := Lines([[]], events)[i];
    FilterConcat(IsColumn, line, [column]);
    if Columns(line) != [] {
      assert |[Columns(line)[0]] + author| != |author|;
    }
  }
}
