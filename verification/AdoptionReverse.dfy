/**
 Reversing an adoption: exactly when it can, and what it restores. The reverse
 re-derives the original uniques from the model's historical column lists, so
 the theorems speak of column lists and not of names.
 */
module AdoptionReverse {
  import opened Prelude
  import opened Catalogue
  import opened Adoption
  import opened AdoptionForward

  function Restored(columns: seq<string>): Unique {
    Unique(Derived(columns), columns, false, false)
  }

  function RestoredAll(historical: seq<seq<string>>): (r: seq<Unique>)
    ensures |r| == |historical|
    ensures forall i :: 0 <= i < |historical| ==> r[i] == Restored(historical[i])
  {
    seq(|historical|, i requires 0 <= i < |historical| => Restored(historical[i]))
  }

  ghost predicate DistinctLists(lists: seq<seq<string>>) {
    forall i, j :: 0 <= i < j < |lists| ==> lists[i] != lists[j]
  }

  ghost predicate DistinctColumns(us: seq<Unique>) {
    forall i, j :: 0 <= i < j < |us| ==> us[i].columns != us[j].columns
  }

  /** The composites still in place are those of the column lists still to restore. */
  ghost predicate StillToRestore(remaining: seq<Unique>, historical: seq<seq<string>>) {
    && (forall u :: u in remaining ==> |u.columns| > 0 && u.columns[0] == TENANT && u.columns[1..] in historical)
    && (forall h :: h in historical ==> exists u :: u in remaining && u.columns == [TENANT] + h)
  }

  lemma {:induction false} FindsTheOne(us: seq<Unique>, u: Unique)
    requires u in us && DistinctColumns(us)
    ensures FindUnique(us, u.columns) == Some(u.name)
  {
    if us[0] != u {
      assert us[1..] == us[1..];
      var i :| 1 <= i < |us| && us[i] == u;
      assert us[0].columns != us[i].columns;
      assert us[1..][i - 1] == u;
      FindsTheOne(us[1..], u);
    }
  }

  lemma {:induction false} FindsOnlyListed(us: seq<Unique>, columns: seq<string>)
    ensures FindUnique(us, columns).Some? ==>
      exists u :: u in us && u.name == FindUnique(us, columns).value && u.columns == columns
  {
    if us != [] && us[0].columns != columns {
      FindsOnlyListed(us[1..], columns);
    }
  }

  // ---- A composite that is already gone ----

  ghost predicate NameGone(us: seq<Unique>, name: Name) {
    forall u :: u in us ==> u.name != name
  }

  /** The live constraints are read once: a second historical list with the same columns drops a name that is gone. */
  lemma {:induction false} RestoringTwiceFails(t: Table, live: seq<Unique>, historical: seq<seq<string>>,
                                               h: seq<string>)
    requires h in historical
    requires FindUnique(live, [TENANT] + h).Some? && FindUnique(live, [TENANT] + h).value.Composite?
    requires NameGone(t.uniques, FindUnique(live, [TENANT] + h).value)
    ensures RestoreUniques(t, live, historical).error.Some?
    decreases |historical|
  {
    if historical[0] != h {
      var p := RestoreUnique(t, live, historical[0]);
      if p.error.None? {
        assert NameGone(p.table.uniques, FindUnique(live, [TENANT] + h).value);
        RestoringTwiceFails(p.table, live, historical[1..], h);
      }
    }
  }

  // ---- Restoring ----

  lemma RestoreUnfold(t: Table, live: seq<Unique>, historical: seq<seq<string>>)
    requires historical != []
    ensures
      var p := RestoreUnique(t, live, historical[0]);
      RestoreUniques(t, live, historical) == if p.error.Some? then p else RestoreUniques(p.table, live, historical[1..])
  {
  }

  function Without(us: seq<Unique>, name: Name): seq<Unique> {
    Filter(NotNamed(name), us)
  }

  /** Dropping one composite and recreating its original: it fails only on a duplicate. */
  lemma RestoreStep(t: Table, live: seq<Unique>, remaining: seq<Unique>, done: seq<Unique>, u: Unique, h: seq<string>)
    requires t.uniques == remaining + done && u in remaining && u.columns == [TENANT] + h
    requires FindUnique(live, u.columns) == Some(u.name) && NameGone(done, u.name)
    requires Fresh(Derived(h), t) && (forall c :: c in h ==> c in t.columns)
    ensures
      var p := RestoreUnique(t, live, h);
      && (p.error.None? <==> UniqueOn(t.rows, h))
      && (p.error.None? ==> p.table == t.(uniques := Without(remaining, u.name) + (done + [Restored(h)])))
  {
    var t1 := t.(uniques := Without(remaining, u.name) + done);
    assert DropUnique(t, u.name) == Ok(t1) by {
      FilterConcat(NotNamed(u.name), remaining, done);
      FilterAll(NotNamed(u.name), done);
      assert u in t.uniques;
    }
    assert Fresh(Derived(h), t1) && Derived(h) !in Names(t1);
    assert t1.uniques + [Restored(h)] == Without(remaining, u.name) + (done + [Restored(h)]);
  }

  lemma {:induction false} WithoutKeepsDistinct(us: seq<Unique>, name: Name)
    requires DistinctNames(us) && DistinctColumns(us)
    ensures DistinctNames(Without(us, name)) && DistinctColumns(Without(us, name))
  {
    if us != [] {
      WithoutKeepsDistinct(us[1..], name);
      var rest := Without(us[1..], name);
      forall w | w in rest ensures w.name != us[0].name && w.columns != us[0].columns {
        var i :| 0 <= i < |us[1..]| && us[1..][i] == w;
        assert us[i + 1] == w;
      }
    }
  }

  /**
   With the composites of exactly these column lists in place, restoring
   succeeds exactly when the lists are distinct and no two rows collide on one
   of them, and leaves exactly the originals.
   */
  lemma {:induction false} RestoresExactlyWhen(t: Table, live: seq<Unique>, remaining: seq<Unique>, done: seq<Unique>,
                                               historical: seq<seq<string>>)
    requires t.uniques == remaining + done && DistinctNames(remaining) && DistinctColumns(remaining)
    requires StillToRestore(remaining, historical)
    requires forall u :: u in remaining ==> FindUnique(live, u.columns) == Some(u.name) && u.name.Composite?
    requires forall u :: u in done ==> !u.name.Composite?
    requires forall h :: h in historical ==> Fresh(Derived(h), t) && forall c :: c in h ==> c in t.columns
    ensures RestoreUniques(t, live, historical).error.None?
       <==> DistinctLists(historical) && forall h :: h in historical ==> UniqueOn(t.rows, h)
    ensures RestoreUniques(t, live, historical).error.None? ==>
      RestoreUniques(t, live, historical).table == t.(uniques := done + RestoredAll(historical))
    decreases |historical|, 2
  {
    if historical == [] {
      if remaining != [] {
        var u := AnyOf(remaining);
        assert false;
      }
      assert t.uniques == done + RestoredAll(historical);
    } else {
      var u :| u in remaining && u.columns == [TENANT] + historical[0];
      RestoresAfterFirst(t, live, remaining, done, historical, u);
    }
  }

  lemma {:induction false} RestoresAfterFirst(t: Table, live: seq<Unique>, remaining: seq<Unique>, done: seq<Unique>,
                                              historical: seq<seq<string>>, u: Unique)
    requires historical != [] && u in remaining && u.columns == [TENANT] + historical[0]
    requires t.uniques == remaining + done && DistinctNames(remaining) && DistinctColumns(remaining)
    requires StillToRestore(remaining, historical)
    requires forall w :: w in remaining ==> FindUnique(live, w.columns) == Some(w.name) && w.name.Composite?
    requires forall w :: w in done ==> !w.name.Composite?
    requires forall h :: h in historical ==> Fresh(Derived(h), t) && forall c :: c in h ==> c in t.columns
    ensures RestoreUniques(t, live, historical).error.None?
       <==> DistinctLists(historical) && forall h :: h in historical ==> UniqueOn(t.rows, h)
    ensures RestoreUniques(t, live, historical).error.None? ==>
      RestoreUniques(t, live, historical).table == t.(uniques := done + RestoredAll(historical))
    decreases |historical|, 1
  {
    var h := historical[0];
    var t1 := t.(uniques := Without(remaining, u.name) + (done + [Restored(h)]));
    assert NameGone(done, u.name);
    RestoreHead(t, t1, live, remaining, done, historical, u);
    AllUnique(t.rows, historical);
    if h in historical[1..] {
      RestoringTwiceFails(t1, live, historical[1..], h);
      NotDistinct(historical);
    } else {
      RestoreTail(t, t1, live, remaining, done, historical, u);
    }
  }

  /** What restoring does once the first list has been seen to. */
  lemma RestoreHead(t: Table, t1: Table, live: seq<Unique>, remaining: seq<Unique>, done: seq<Unique>,
                    historical: seq<seq<string>>, u: Unique)
    requires historical != [] && t.uniques == remaining + done
    requires u in remaining && u.columns == [TENANT] + historical[0]
    requires FindUnique(live, u.columns) == Some(u.name) && NameGone(done, u.name)
    requires Fresh(Derived(historical[0]), t) && forall c :: c in historical[0] ==> c in t.columns
    requires t1 == t.(uniques := Without(remaining, u.name) + (done + [Restored(historical[0])]))
    ensures
      var whole, tail := RestoreUniques(t, live, historical), RestoreUniques(t1, live, historical[1..]);
      && (whole.error.None? <==> UniqueOn(t.rows, historical[0]) && tail.error.None?)
      && (whole.error.None? ==> whole == tail)
  {
    RestoreUnfold(t, live, historical);
    RestoreStep(t, live, remaining, done, u, historical[0]);
  }

  lemma AllUnique(rows: seq<Row>, lists: seq<seq<string>>)
    requires lists != []
    ensures (forall h :: h in lists ==> UniqueOn(rows, h))
       <==> UniqueOn(rows, lists[0]) && forall h :: h in lists[1..] ==> UniqueOn(rows, h)
  {
    assert forall h :: h in lists <==> h == lists[0] || h in lists[1..];
  }

  lemma AnyOf(us: seq<Unique>) returns (u: Unique)
    requires us != []
    ensures u in us
  {
    u := us[0];
  }

  lemma NotDistinct(lists: seq<seq<string>>)
    requires lists != [] && lists[0] in lists[1..]
    ensures !DistinctLists(lists)
  {
    var i :| 0 <= i < |lists[1..]| && lists[1..][i] == lists[0];
    assert lists[i + 1] == lists[0];
  }

  lemma DistinctTail(lists: seq<seq<string>>)
    requires lists != [] && lists[0] !in lists[1..]
    ensures DistinctLists(lists) <==> DistinctLists(lists[1..])
  {
    if DistinctLists(lists[1..]) {
      forall i, j | 0 <= i < j < |lists| ensures lists[i] != lists[j] {
        assert lists[1..][j - 1] == lists[j];
        if i > 0 {
          assert lists[1..][i - 1] == lists[i];
        }
      }
    } else {
      var i, j :| 0 <= i < j < |lists[1..]| && lists[1..][i] == lists[1..][j];
      assert lists[i + 1] == lists[j + 1];
    }
  }

  lemma {:induction false} RestoreTail(t: Table, t1: Table, live: seq<Unique>, remaining: seq<Unique>,
                                       done: seq<Unique>,
                                       historical: seq<seq<string>>, u: Unique)
    requires historical != [] && historical[0] !in historical[1..]
    requires DistinctNames(remaining) && DistinctColumns(remaining) && StillToRestore(remaining, historical)
    requires u in remaining && u.columns == [TENANT] + historical[0]
    requires t.uniques == remaining + done
    requires t1 == t.(uniques := Without(remaining, u.name) + (done + [Restored(historical[0])]))
    requires forall w :: w in remaining ==> FindUnique(live, w.columns) == Some(w.name) && w.name.Composite?
    requires forall w :: w in done ==> !w.name.Composite?
    requires forall h :: h in historical ==> Fresh(Derived(h), t) && forall c :: c in h ==> c in t.columns
    ensures RestoreUniques(t1, live, historical[1..]).error.None?
       <==> DistinctLists(historical) && forall h :: h in historical[1..] ==> UniqueOn(t.rows, h)
    ensures RestoreUniques(t1, live, historical[1..]).error.None? ==>
      RestoreUniques(t1, live, historical[1..]).table == t.(uniques := done + RestoredAll(historical))
    decreases |historical|, 0
  {
    var rest := historical[1..];
    var done' := done + [Restored(historical[0])];
    WithoutKeepsDistinct(remaining, u.name);
    DistinctTail(historical);
    StillAfterStep(remaining, historical, u);
    StillFresh(t, remaining, done, historical, u.name);
    RestoresExactlyWhen(t1, live, Without(remaining, u.name), done', rest);
    RestoredCons(historical, done);
  }

  lemma RestoredCons(historical: seq<seq<string>>, done: seq<Unique>)
    requires historical != []
    ensures done + [Restored(historical[0])] + RestoredAll(historical[1..]) == done + RestoredAll(historical)
  {
    assert [Restored(historical[0])] + RestoredAll(historical[1..]) == RestoredAll(historical);
  }

  lemma StillFresh(t: Table, remaining: seq<Unique>, done: seq<Unique>, historical: seq<seq<string>>, name: Name)
    requires historical != [] && historical[0] !in historical[1..] && t.uniques == remaining + done
    requires forall h :: h in historical ==> Fresh(Derived(h), t)
    ensures forall h :: h in historical[1..] ==>
      Fresh(Derived(h), t.(uniques := Without(remaining, name) + (done + [Restored(historical[0])])))
  {
    forall h | h in historical[1..]
      ensures Fresh(Derived(h), t.(uniques := Without(remaining, name) + (done + [Restored(historical[0])])))
    {
      assert h in historical && h != historical[0];
    }
  }

  lemma StillAfterStep(remaining: seq<Unique>, historical: seq<seq<string>>, u: Unique)
    requires historical != [] && historical[0] !in historical[1..] && StillToRestore(remaining, historical)
    requires DistinctColumns(remaining) && DistinctNames(remaining)
    requires u in remaining && u.columns == [TENANT] + historical[0]
    ensures StillToRestore(Without(remaining, u.name), historical[1..])
  {
    var rest := Without(remaining, u.name);
    var j :| 0 <= j < |remaining| && remaining[j] == u;
    forall w | w in rest ensures w.columns[1..] in historical[1..] {
      var i :| 0 <= i < |remaining| && remaining[i] == w;
      assert w.columns == [TENANT] + w.columns[1..];
      var k :| 0 <= k < |historical| && historical[k] == w.columns[1..];
      assert historical[1..][k - 1] == w.columns[1..];
    }
    forall h | h in historical[1..] ensures exists w :: w in rest && w.columns == [TENANT] + h {
      assert h in historical;
      var w :| w in remaining && w.columns == [TENANT] + h;
      var i :| 0 <= i < |remaining| && remaining[i] == w;
      assert w.columns[1..] == h && u.columns[1..] == historical[0];
      assert i != j;
      assert w in rest;
    }
  }

  // ---- The whole reverse ----

  /** The column lists of the table's uniques are those the model declares, each once. */
  ghost predicate Declares(us: seq<Unique>, historical: seq<seq<string>>) {
    && DistinctColumns(us)
    && (forall u :: u in us ==> u.columns in historical)
    && (forall h :: h in historical ==> exists u :: u in us && u.columns == h)
  }

  /** A table boundary had not touched, holding no name its schema editor would derive. */
  ghost predicate Untouched(t: Table, historical: seq<seq<string>>) {
    && Valid(t) && TENANT !in t.columns
    && !t.rlsEnabled && !t.rlsForced
    && ISOLATION !in t.policies && BYPASS !in t.policies
    && (forall x, h :: x in t.indexes && h in historical ==> x.name != Derived(h))
  }

  /** An adopted table after any writes: its rules unchanged, its rows any that satisfy them. */
  function AdoptedWith(t: Table, pgType: string, rows: seq<Row>): Table {
    AdoptedTable(t, pgType, Null).(rows := rows)
  }

  lemma CompositesAwait(us: seq<Unique>, historical: seq<seq<string>>)
    requires DistinctNames(us) && Declares(us, historical)
    ensures
      var live := RewrittenAll(us);
      && DistinctNames(live) && DistinctColumns(live) && StillToRestore(live, historical)
      && (forall u :: u in live ==> FindUnique(live, u.columns) == Some(u.name) && u.name.Composite?)
  {
    var live := RewrittenAll(us);
    forall i, j | 0 <= i < j < |live| ensures live[i].name != live[j].name && live[i].columns != live[j].columns {
      assert us[i].name != us[j].name && us[i].columns != us[j].columns;
      assert live[i].columns[1..] == us[i].columns && live[j].columns[1..] == us[j].columns;
    }
    forall u | u in live
      ensures |u.columns| > 0 && u.columns[0] == TENANT && u.columns[1..] in historical
      ensures FindUnique(live, u.columns) == Some(u.name) && u.name.Composite?
    {
      var i :| 0 <= i < |live| && live[i] == u;
      assert u.columns[1..] == us[i].columns && us[i] in us;
      FindsTheOne(live, u);
    }
    forall h | h in historical ensures exists u :: u in live && u.columns == [TENANT] + h {
      var u :| u in us && u.columns == h;
      var i :| 0 <= i < |us| && us[i] == u;
      assert live[i] in live;
    }
  }

  /** Dropping the column takes nothing else with it. */
  lemma OnlyTheColumn(t: Table, historical: seq<seq<string>>, pgType: string, rows: seq<Row>)
    requires Untouched(t, historical) && forall h :: h in historical ==> forall c :: c in h ==> c in t.columns
    ensures
      var t1 := t.(columns := t.columns[TENANT := ONE_SHOT(pgType)], rows := rows, uniques := RestoredAll(historical));
      DropColumn(t1, TENANT) == Ok(t.(rows := Strip(rows, TENANT), uniques := RestoredAll(historical)))
  {
    var t1 := t.(columns := t.columns[TENANT := ONE_SHOT(pgType)], rows := rows, uniques := RestoredAll(historical));
    assert t1.columns - {TENANT} == t.columns;
    forall p | p in t.policies.Values ensures !PolicyMentions(p, TENANT) {
      var name :| name in t.policies && t.policies[name] == p;
    }
    forall u | u in t1.uniques ensures UniqueWithout(TENANT)(u) {
      var i :| 0 <= i < |historical| && t1.uniques[i] == u;
      assert historical[i] in historical;
    }
    FilterAll(UniqueWithout(TENANT), t1.uniques);
    FilterAll(IndexWithout(TENANT), t.indexes);
  }

  lemma BackToUntouched(t: Table, historical: seq<seq<string>>, pgType: string, rows: seq<Row>)
    requires Untouched(t, historical)
    ensures DisableRls(DropPolicies(AdoptedWith(t, pgType, rows)))
         == t.(columns := t.columns[TENANT := ONE_SHOT(pgType)], rows := rows, uniques := RewrittenAll(t.uniques))
  {
    assert |ISOLATION| != |BYPASS|;
    var both := t.policies[ISOLATION := IsolationPolicy(TENANT)][BYPASS := BYPASS_POLICY];
    assert both - {ISOLATION} - {BYPASS} == t.policies;
  }

  /**
   Whatever was written since the adoption, the reverse succeeds exactly when
   the model declares each column list once and no two rows collide on one of
   them; it then leaves the table as it was, over the rows there are now, with
   the declared uniques and a derived name for each.
   */
  lemma ReverseExactlyWhen(t: Table, historical: seq<seq<string>>, pgType: string, rows: seq<Row>)
    requires Untouched(t, historical) && Declares(t.uniques, historical)
    ensures
      var p := UnadoptTable(AdoptedWith(t, pgType, rows), historical);
      && (p.error.None? <==> DistinctLists(historical) && forall h :: h in historical ==> UniqueOn(rows, h))
      && (p.error.None? ==> p.table == t.(rows := Strip(rows, TENANT), uniques := RestoredAll(historical)))
  {
    var live := RewrittenAll(t.uniques);
    var t1 := t.(columns := t.columns[TENANT := ONE_SHOT(pgType)], rows := rows, uniques := live);
    BackToUntouched(t, historical, pgType, rows);
    UnadoptUnfold(AdoptedWith(t, pgType, rows), t1, historical);
    RestoresOriginals(t, t1, historical);
    if RestoreUniques(t1, live, historical).error.None? {
      DeclaredColumnsExist(t, historical);
      OnlyTheColumn(t, historical, pgType, rows);
    }
  }

  lemma UnadoptUnfold(t: Table, t1: Table, historical: seq<seq<string>>)
    requires TENANT in t.columns && t1 == DisableRls(DropPolicies(t))
    ensures
      var p := RestoreUniques(t1, t1.uniques, historical);
      UnadoptTable(t, historical) == if p.error.Some? then p else Attempt(p.table, DropColumn(p.table, TENANT))
  {
  }

  lemma RestoresOriginals(t: Table, t1: Table, historical: seq<seq<string>>)
    requires Untouched(t, historical) && Declares(t.uniques, historical)
    requires t1.uniques == RewrittenAll(t.uniques) && t1.indexes == t.indexes
    requires t1.columns.Keys == t.columns.Keys + {TENANT}
    ensures RestoreUniques(t1, t1.uniques, historical).error.None?
       <==> DistinctLists(historical) && forall h :: h in historical ==> UniqueOn(t1.rows, h)
    ensures RestoreUniques(t1, t1.uniques, historical).error.None? ==>
      RestoreUniques(t1, t1.uniques, historical).table == t1.(uniques := RestoredAll(historical))
  {
    CompositesAwait(t.uniques, historical);
    DeclaredColumnsExist(t, historical);
    assert t1.uniques + [] == t1.uniques && [] + RestoredAll(historical) == RestoredAll(historical);
    RestoresExactlyWhen(t1, t1.uniques, t1.uniques, [], historical);
  }

  lemma DeclaredColumnsExist(t: Table, historical: seq<seq<string>>)
    requires Valid(t) && Declares(t.uniques, historical)
    ensures forall h :: h in historical ==> forall c :: c in h ==> c in t.columns
  {
  }

  /** Rows the adopted table can hold: each has a tenant, and no tenant has a duplicate. */
  ghost predicate KeptPerTenant(rows: seq<Row>, historical: seq<seq<string>>) {
    && (forall r :: r in rows ==> ValueAt(r, TENANT) != Null)
    && (forall h :: h in historical ==> UniqueOn(rows, [TENANT] + h))
  }

  /** What stands in the way of the reverse is always a pair of rows of different tenants. */
  lemma OnlyOtherTenantsCollide(rows: seq<Row>, historical: seq<seq<string>>, h: seq<string>)
    requires KeptPerTenant(rows, historical) && h in historical
    ensures UniqueOn(rows, h) <==>
      forall i, j :: 0 <= i < j < |rows| && ValueAt(rows[i], TENANT) != ValueAt(rows[j], TENANT) ==>
        !Clash(rows[i], rows[j], h)
  {
    forall i, j | 0 <= i < j < |rows| && ValueAt(rows[i], TENANT) == ValueAt(rows[j], TENANT)
      ensures !Clash(rows[i], rows[j], h)
    {
      assert rows[i] in rows;
      assert !Clash(rows[i], rows[j], [TENANT] + h);
    }
  }

  /**
   The round trip with writes in between: the reverse of a completed adoption
   succeeds exactly when no two rows of different tenants share a non-NULL
   value of a declared key.
   */
  lemma ReverseAfterWrites(t: Table, historical: seq<seq<string>>, pgType: string, rows: seq<Row>)
    requires Untouched(t, historical) && Declares(t.uniques, historical) && DistinctLists(historical)
    requires KeptPerTenant(rows, historical)
    ensures UnadoptTable(AdoptedWith(t, pgType, rows), historical).error.None? <==>
      forall h, i, j ::
        h in historical && 0 <= i < j < |rows| && ValueAt(rows[i], TENANT) != ValueAt(rows[j], TENANT) ==>
        !Clash(rows[i], rows[j], h)
  {
    ReverseExactlyWhen(t, historical, pgType, rows);
    forall h | h in historical
      ensures UniqueOn(rows, h) <==>
        forall i, j :: 0 <= i < j < |rows| && ValueAt(rows[i], TENANT) != ValueAt(rows[j], TENANT) ==>
          !Clash(rows[i], rows[j], h)
    {
      OnlyOtherTenantsCollide(rows, historical, h);
    }
  }

  /**
   The round trip: adopting an untouched table and reversing it restores its
   rows, columns, RLS flags, policies and indexes and the same set of unique
   column lists; a second reverse changes nothing.
   */
  lemma RoundTrip(t: Table, plan: Plan, backfill: Value, s: Session, historical: seq<seq<string>>)
    requires Untouched(t, historical) && Declares(t.uniques, historical) && DistinctLists(historical)
    requires RewritesFor(plan.rewrites, t.uniques) && CurrentTenant(s) == Null
    requires AdoptTable(t, plan, backfill, s).error.None?
    ensures
      var p := UnadoptTable(AdoptTable(t, plan, backfill, s).table, historical);
      && p.error.None?
      && p.table == t.(uniques := RestoredAll(historical))
      && (set u | u in p.table.uniques :: u.columns) == (set u | u in t.uniques :: u.columns)
      && UnadoptTable(p.table, historical) == p
  {
    var rows := Fill(t.rows, TENANT, backfill);
    AdoptedShape(t, plan, backfill, s);
    assert AdoptTable(t, plan, backfill, s).table == AdoptedWith(t, plan.pgType, rows);
    ReverseExactlyWhen(t, historical, plan.pgType, rows);
    KeysStillHold(t, backfill, ONE_SHOT(plan.pgType));
    StripFill(t, backfill);
    SameColumnLists(t.uniques, historical);
    assert TENANT !in t.(uniques := RestoredAll(historical)).columns;
  }

  lemma StripFill(t: Table, v: Value)
    requires Valid(t) && TENANT !in t.columns
    ensures Strip(Fill(t.rows, TENANT, v), TENANT) == t.rows
  {
    forall i | 0 <= i < |t.rows| ensures t.rows[i][TENANT := v] - {TENANT} == t.rows[i] {
      assert t.rows[i] in t.rows;
    }
  }

  lemma SameColumnLists(us: seq<Unique>, historical: seq<seq<string>>)
    requires Declares(us, historical)
    ensures (set u | u in RestoredAll(historical) :: u.columns) == (set u | u in us :: u.columns)
  {
    var restored := RestoredAll(historical);
    forall h | h in historical ensures exists u :: u in restored && u.columns == h {
      var i :| 0 <= i < |historical| && historical[i] == h;
      assert restored[i] in restored;
    }
    forall u | u in restored ensures u.columns in historical {
      var i :| 0 <= i < |restored| && restored[i] == u;
    }
  }
}
