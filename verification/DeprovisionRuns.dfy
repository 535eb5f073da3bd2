/**
 What a confirmed deprovision takes: which of the tenant's rows its tables reach
 in the order they come, and, exactly when no other row refers to what goes,
 nothing else. Also when the run cannot complete.
 */
module DeprovisionRuns {
  import opened Prelude
  import opened Deprovision

  // ---- Cascades ----

  /** The closure is the least set that contains what was asked for and loses no cascade. */
  lemma {:induction false} ClosureIsLeast(db: Db, gone: set<Ref>, all: set<Ref>)
    requires gone <= all && ClosedUnder(db, all)
    ensures Closure(db, gone) <= all
    decreases db.Keys - gone
  {
    var next := set r | r in db && r !in gone && CascadesInto(db[r], gone);
    if next != {} {
      assert exists r :: r in next;
      ClosureIsLeast(db, gone + next, all);
    }
  }

  /** Two deletes one after the other take what one delete of both would. */
  lemma ClosureTwice(db: Db, first: set<Ref>, second: set<Ref>)
    ensures Closure(db, first) + Closure(Cascade(db, first), second) == Closure(db, first + second)
  {
    var c1 := Closure(db, first);
    var db1 := Cascade(db, first);
    var c2 := Closure(db1, second);
    var all := Closure(db, first + second);
    ClosureIsLeast(db, first, all);
    assert ClosedUnder(db1, all);
    ClosureIsLeast(db1, second, all);
    forall r | r in db && CascadesInto(db[r], c1 + c2) ensures r in c1 + c2 {
      if !CascadesInto(db[r], c1) && r !in c1 {
        var f :| f in db[r].links && db[r].links[f].cascades && db[r].links[f].target in c1 + c2;
        assert db1[r].links[f] == db[r].links[f];
      }
    }
    ClosureIsLeast(db, first + second, c1 + c2);
  }

  lemma WithoutTwice(db: Db, a: set<Ref>, b: set<Ref>)
    ensures Without(Without(db, a), b) == Without(db, a + b)
  {
    forall r | r in db && r !in a + b ensures Detach(Detach(db[r], a), b) == Detach(db[r], a + b) {
      assert Detach(Detach(db[r], a), b).links == Detach(db[r], a + b).links;
    }
  }

  lemma CascadeTwice(db: Db, first: set<Ref>, second: set<Ref>)
    ensures Cascade(Cascade(db, first), second) == Cascade(db, first + second)
  {
    ClosureTwice(db, first, second);
    WithoutTwice(db, Closure(db, first), Closure(Cascade(db, first), second));
  }

  /** A bare DELETE the database accepts is a cascade that had nothing to follow. */
  lemma AcceptedIsCascade(db: Db, gone: set<Ref>)
    requires !Dangling(db, gone)
    ensures Cascade(db, gone) == db - gone
  {
    assert ClosedUnder(db, gone);
    ClosureIsLeast(db, gone, gone);
    forall r | r in db && r !in gone ensures Detach(db[r], gone) == db[r] {
      assert forall f <- db[r].links :: db[r].links[f].target !in gone;
      assert Detach(db[r], gone).links == db[r].links;
    }
  }

  lemma TableIsCascade(db: Db, m: Model, t: Ref)
    requires !DeleteTable(db, m, t).raised
    ensures DeleteTable(db, m, t).db == Cascade(db, Matching(db, m, t))
  {
    if m.Adopted? {
      AcceptedIsCascade(db, Matching(db, m, t));
    }
  }

  // ---- Paths under deletion ----

  /** Deleting rows gives no row a tenant it did not have. */
  lemma {:induction false} FollowOnlyShrinks(db: Db, gone: set<Ref>, r: Ref, path: seq<string>, t: Ref)
    requires Follow(Without(db, gone), r, path) == Some(t)
    ensures Follow(db, r, path) == Some(t)
    decreases |path|
  {
    if path != [] {
      FollowOnlyShrinks(db, gone, db[r].links[path[0]].target, path[1..], t);
    }
  }

  lemma MatchesOnlyShrink(db: Db, gone: set<Ref>, m: Model, t: Ref)
    ensures Matching(Without(db, gone), m, t) <= Matching(db, m, t)
  {
    forall r | r in Matching(Without(db, gone), m, t) ensures r in Matching(db, m, t) {
      if m.Scoped? {
        FollowOnlyShrinks(db, gone, r, m.path, t);
      }
    }
  }

  /** No foreign key on the way from a row to its tenant targets a row of `gone`. */
  predicate PathClear(db: Db, r: Ref, path: seq<string>, gone: set<Ref>)
    decreases |path|
  {
    path == [] || (r in db && path[0] in db[r].links ==>
      db[r].links[path[0]].target !in gone && PathClear(db, db[r].links[path[0]].target, path[1..], gone))
  }

  /** The tenant's rows of a table that are still there, and still known as the tenant's, once `gone` has gone. */
  function Clear(db: Db, m: Model, t: Ref, gone: set<Ref>): set<Ref> {
    set r | r in Matching(db, m, t) && r !in gone && (m.Scoped? ==> PathClear(db, r, m.path, gone))
  }

  lemma {:induction false} FollowSurvivesExactlyWhen(db: Db, gone: set<Ref>, r: Ref, path: seq<string>, t: Ref)
    requires Follow(db, r, path) == Some(t) && r !in gone
    ensures Follow(Without(db, gone), r, path) == Some(t) <==> PathClear(db, r, path, gone)
    decreases |path|
  {
    if path != [] && db[r].links[path[0]].target !in gone {
      FollowSurvivesExactlyWhen(db, gone, db[r].links[path[0]].target, path[1..], t);
    }
  }

  lemma ClearIsWhatMatches(db: Db, gone: set<Ref>, m: Model, t: Ref)
    ensures Matching(Without(db, gone), m, t) == Clear(db, m, t, gone)
  {
    MatchesOnlyShrink(db, gone, m, t);
    forall r | r in Matching(db, m, t) && r !in gone
      ensures r in Matching(Without(db, gone), m, t) <==> r in Clear(db, m, t, gone)
    {
      if m.Scoped? {
        FollowSurvivesExactlyWhen(db, gone, r, m.path, t);
      }
    }
  }

  // ---- The list of tables ----

  lemma {:induction false} AllMatchingIs(db: Db, ms: seq<Model>, t: Ref, r: Ref)
    ensures r in AllMatching(db, ms, t) <==> exists m :: m in ms && Matches(db, m, t, r)
  {
    if ms != [] {
      AllMatchingIs(db, ms[1..], t, r);
      assert forall m :: m in ms <==> m == ms[0] || m in ms[1..];
    }
  }

  /** A table with nothing to delete could be deleted from at any time. */
  lemma NothingToDelete(db: Db, m: Model, t: Ref)
    requires Matching(db, m, t) == {}
    ensures DeleteTable(db, m, t) == Progress(db, false)
  {
    assert !Dangling(db, {});
    AcceptedIsCascade(db, {});
    assert db - {} == db;
  }

  /** Only counting the tables first makes no difference to what is deleted. */
  lemma {:induction false} CountingFirst(db0: Db, db: Db, ms: seq<Model>, t: Ref)
    requires forall m :: Matching(db, m, t) <= Matching(db0, m, t)
    ensures DeleteTables(db, Models(Affected(db0, ms, t)), t) == DeleteTables(db, ms, t)
    decreases |ms|
  {
    if ms != [] {
      var p := DeleteTable(db, ms[0], t);
      var rest := Affected(db0, ms[1..], t);
      if Matching(db0, ms[0], t) == {} {
        assert Matching(db, ms[0], t) <= {};
        NothingToDelete(db, ms[0], t);
        assert Affected(db0, ms, t) == rest;
        CountingFirst(db0, db, ms[1..], t);
      } else {
        assert Models(Affected(db0, ms, t)) == [ms[0]] + Models(rest);
        assert ([ms[0]] + Models(rest))[1..] == Models(rest);
        if !p.raised {
          TableIsCascade(db, ms[0], t);
          forall m ensures Matching(p.db, m, t) <= Matching(db0, m, t) {
            MatchesOnlyShrink(db, Closure(db, Matching(db, ms[0], t)), m, t);
          }
          CountingFirst(db0, p.db, ms[1..], t);
        }
      }
    }
  }

  lemma {:induction false} DeleteConcat(db: Db, a: seq<Model>, b: seq<Model>, t: Ref)
    ensures
      var p := DeleteTables(db, a, t);
      DeleteTables(db, a + b, t) == if p.raised then p else DeleteTables(p.db, b, t)
    decreases |a|
  {
    if a == [] {
      assert a + b == b;
    } else {
      assert (a + b)[0] == a[0] && (a + b)[1..] == a[1..] + b;
      DeleteConcat(DeleteTable(db, a[0], t).db, a[1..], b, t);
    }
  }

  /** What the tables reach, in the order they come: of each, the rows the earlier ones left clear. */
  function Taken(db: Db, ms: seq<Model>, t: Ref): set<Ref>
    decreases |ms|
  {
    if ms == [] then {}
    else
      var before := Taken(db, ms[..|ms| - 1], t);
      before + Clear(db, ms[|ms| - 1], t, Closure(db, before))
  }

  /** Table by table or all at once: a run that completes is one cascade from what it takes. */
  lemma {:induction false} TablesAreOneCascade(db: Db, ms: seq<Model>, t: Ref)
    requires !DeleteTables(db, ms, t).raised
    ensures DeleteTables(db, ms, t).db == Cascade(db, Taken(db, ms, t))
    decreases |ms|
  {
    if ms == [] {
      assert !Dangling(db, {});
      AcceptedIsCascade(db, {});
      assert db - {} == db;
    } else {
      var before, m := ms[..|ms| - 1], ms[|ms| - 1];
      var taken := Taken(db, before, t);
      var gone := Closure(db, taken);
      assert before + [m] == ms;
      DeleteConcat(db, before, [m], t);
      TablesAreOneCascade(db, before, t);
      OnlyTable(Cascade(db, taken), m, t);
      TableIsCascade(Cascade(db, taken), m, t);
      ClearIsWhatMatches(db, gone, m, t);
      CascadeTwice(db, taken, Clear(db, m, t, gone));
    }
  }

  lemma OnlyTable(db: Db, m: Model, t: Ref)
    ensures DeleteTables(db, [m], t) == DeleteTable(db, m, t)
  {
    assert [m][1..] == [];
  }

  lemma {:induction false} AllMatchingLast(db: Db, ms: seq<Model>, t: Ref)
    requires ms != []
    ensures AllMatching(db, ms, t) == AllMatching(db, ms[..|ms| - 1], t) + Matching(db, ms[|ms| - 1], t)
  {
    if |ms| > 1 {
      AllMatchingLast(db, ms[1..], t);
      assert ms[1..][..|ms| - 2] == ms[..|ms| - 1][1..];
    }
  }

  lemma {:induction false} TakenMatches(db: Db, ms: seq<Model>, t: Ref)
    ensures Taken(db, ms, t) <= AllMatching(db, ms, t)
    decreases |ms|
  {
    if ms != [] {
      AllMatchingLast(db, ms, t);
      TakenMatches(db, ms[..|ms| - 1], t);
    }
  }

  lemma AllMatchingIsHere(db: Db, ms: seq<Model>, t: Ref)
    ensures AllMatching(db, ms, t) <= db.Keys
  {
    forall r | r in AllMatching(db, ms, t) ensures r in db {
      AllMatchingIs(db, ms, t, r);
    }
  }

  /** Two cascades leave the same database exactly when the wider one takes nothing more. */
  lemma SameCascadeExactlyWhen(db: Db, some: set<Ref>, all: set<Ref>)
    requires some <= all && all <= some + db.Keys
    ensures Cascade(db, some) == Cascade(db, all) <==> all <= Closure(db, some)
  {
    var less, more := Closure(db, some), Closure(db, all);
    if all <= less {
      ClosureIsLeast(db, all, less);
      ClosureIsLeast(db, some, more);
      assert less == more;
    } else {
      var r :| r in all && r !in less;
      assert r in db && r in more;
      assert r in Without(db, less) && r !in Without(db, more);
    }
  }

  /**
   The tables, and so every prefix of them, amount to one cascade from all the
   tenant's rows exactly when each row is taken or goes with one that is.
   */
  lemma TablesTakeAllExactlyWhen(db: Db, ms: seq<Model>, t: Ref)
    requires !DeleteTables(db, ms, t).raised
    ensures DeleteTables(db, ms, t).db == Cascade(db, AllMatching(db, ms, t))
       <==> AllMatching(db, ms, t) <= Closure(db, Taken(db, ms, t))
  {
    TablesAreOneCascade(db, ms, t);
    TakenMatches(db, ms, t);
    AllMatchingIsHere(db, ms, t);
    SameCascadeExactlyWhen(db, Taken(db, ms, t), AllMatching(db, ms, t));
  }

  /**
   No table comes too late for its rows: each either goes with the tables
   before it, or none of the foreign keys on its path is cut by them.
   */
  ghost predicate InTime(db: Db, ms: seq<Model>, t: Ref) {
    forall i, r :: 0 <= i < |ms| && r in Matching(db, ms[i], t) ==>
      var gone := Closure(db, AllMatching(db, ms[..i], t));
      r in gone || (ms[i].Scoped? ==> PathClear(db, r, ms[i].path, gone))
  }

  lemma {:induction false} InTimeIsTaken(db: Db, ms: seq<Model>, t: Ref)
    requires InTime(db, ms, t)
    ensures AllMatching(db, ms, t) <= Closure(db, Taken(db, ms, t))
    decreases |ms|
  {
    if ms != [] {
      var n := |ms| - 1;
      var before, taken := AllMatching(db, ms[..n], t), Taken(db, ms[..n], t);
      InTimeBefore(db, ms, t);
      InTimeIsTaken(db, ms[..n], t);
      TakenMatches(db, ms[..n], t);
      AllMatchingLast(db, ms, t);
      ClosureIsLeast(db, before, Closure(db, taken));
      ClosureIsLeast(db, taken, Closure(db, before));
      assert Closure(db, before) == Closure(db, taken);
      ClosureIsLeast(db, taken, Closure(db, Taken(db, ms, t)));
      forall r | r in Matching(db, ms[n], t) ensures r in Closure(db, Taken(db, ms, t)) {
        assert r in Closure(db, taken) || r in Clear(db, ms[n], t, Closure(db, taken));
      }
    }
  }

  lemma InTimeBefore(db: Db, ms: seq<Model>, t: Ref)
    requires ms != [] && InTime(db, ms, t)
    ensures InTime(db, ms[..|ms| - 1], t)
  {
    var before := ms[..|ms| - 1];
    forall i, r | 0 <= i < |before| && r in Matching(db, before[i], t)
      ensures
        var gone := Closure(db, AllMatching(db, before[..i], t));
        r in gone || (before[i].Scoped? ==> PathClear(db, r, before[i].path, gone))
    {
      assert before[i] == ms[i] && before[..i] == ms[..i];
    }
  }

  predicate PathCascades(db: Db, r: Ref, path: seq<string>)
    decreases |path|
  {
    path == [] || (r in db && path[0] in db[r].links ==>
      db[r].links[path[0]].cascades && PathCascades(db, db[r].links[path[0]].target, path[1..]))
  }

  /** Every foreign key on the way from a scoped row to its tenant cascades. */
  ghost predicate PathsCascade(db: Db, ms: seq<Model>) {
    forall m, r :: m in ms && m.Scoped? && r in db && r.table == m.table ==> PathCascades(db, r, m.path)
  }

  lemma {:induction false} CascadingPathIsClear(db: Db, r: Ref, path: seq<string>, gone: set<Ref>)
    requires PathCascades(db, r, path) && ClosedUnder(db, gone) && r !in gone
    ensures PathClear(db, r, path, gone)
    decreases |path|
  {
    if path != [] && r in db && path[0] in db[r].links {
      CascadingPathIsClear(db, db[r].links[path[0]].target, path[1..], gone);
    }
  }

  /** Where every path cascades, every order of the tables is in time. */
  lemma CascadingPathsAreInTime(db: Db, ms: seq<Model>, t: Ref)
    requires PathsCascade(db, ms)
    ensures InTime(db, ms, t)
  {
    forall i, r | 0 <= i < |ms| && r in Matching(db, ms[i], t) && ms[i].Scoped?
      ensures var gone := Closure(db, AllMatching(db, ms[..i], t)); r in gone || PathClear(db, r, ms[i].path, gone)
    {
      var gone := Closure(db, AllMatching(db, ms[..i], t));
      if r !in gone {
        CascadingPathIsClear(db, r, ms[i].path, gone);
      }
    }
  }

  // ---- The theorems ----

  /** A completed run is a single cascade from the tenant and what its tables take. */
  lemma RunIsOneCascade(db: Db, ms: seq<Model>, t: Ref)
    requires !Deprovisioned(db, ms, t).raised
    ensures Deprovisioned(db, ms, t).db == Cascade(db, Taken(db, ms, t) + {t})
  {
    CountingFirst(db, db, ms, t);
    TablesAreOneCascade(db, ms, t);
    CascadeTwice(db, Taken(db, ms, t), {t});
  }

  /**
   It is the cascade from the tenant and all its rows, as if the order of the
   tables did not matter, exactly when every such row is taken or goes with the
   tenant or one that is.
   */
  lemma OrderIsImmaterialExactlyWhen(db: Db, ms: seq<Model>, t: Ref)
    requires !Deprovisioned(db, ms, t).raised
    ensures Deprovisioned(db, ms, t).db == Cascade(db, AllMatching(db, ms, t) + {t})
       <==> AllMatching(db, ms, t) <= Closure(db, Taken(db, ms, t) + {t})
  {
    RunIsOneCascade(db, ms, t);
    TakenMatches(db, ms, t);
    AllMatchingIsHere(db, ms, t);
    SameCascadeExactlyWhen(db, Taken(db, ms, t) + {t}, AllMatching(db, ms, t) + {t});
  }

  /** Tables in time for their rows, and so any order where every path cascades. */
  lemma InTimeTakesAll(db: Db, ms: seq<Model>, t: Ref)
    requires !Deprovisioned(db, ms, t).raised && (InTime(db, ms, t) || PathsCascade(db, ms))
    ensures Deprovisioned(db, ms, t).db == Cascade(db, AllMatching(db, ms, t) + {t})
  {
    if PathsCascade(db, ms) {
      CascadingPathsAreInTime(db, ms, t);
    }
    InTimeIsTaken(db, ms, t);
    ClosureIsLeast(db, Taken(db, ms, t), Closure(db, Taken(db, ms, t) + {t}));
    OrderIsImmaterialExactlyWhen(db, ms, t);
  }

  /** After a completed run no table holds a row of the tenant, whatever the foreign keys do. */
  lemma NothingOfTheTenantIsLeft(db: Db, ms: seq<Model>, t: Ref)
    requires !Deprovisioned(db, ms, t).raised
    ensures t !in Deprovisioned(db, ms, t).db
    ensures AllMatching(Deprovisioned(db, ms, t).db, ms, t) == {}
  {
    CountingFirst(db, db, ms, t);
    var p := DeleteTables(db, ms, t);
    forall m | m in ms ensures Matching(Deprovisioned(db, ms, t).db, m, t) == {} {
      TablesLeaveNone(db, ms, t, m);
      MatchesOnlyShrink(p.db, Closure(p.db, {t}), m, t);
    }
    forall r ensures r !in AllMatching(Deprovisioned(db, ms, t).db, ms, t) {
      AllMatchingIs(Deprovisioned(db, ms, t).db, ms, t, r);
      var left := Deprovisioned(db, ms, t).db;
      assert forall m :: m in ms && Matches(left, m, t, r) ==> r in Matching(left, m, t);
    }
  }

  lemma {:induction false} TablesOnlyShrink(db: Db, ms: seq<Model>, t: Ref, m: Model)
    ensures Matching(DeleteTables(db, ms, t).db, m, t) <= Matching(db, m, t)
    decreases |ms|
  {
    if ms != [] {
      var p := DeleteTable(db, ms[0], t);
      if !p.raised {
        TableIsCascade(db, ms[0], t);
        MatchesOnlyShrink(db, Closure(db, Matching(db, ms[0], t)), m, t);
        TablesOnlyShrink(p.db, ms[1..], t, m);
      }
    }
  }

  lemma {:induction false} TablesLeaveNone(db: Db, ms: seq<Model>, t: Ref, m: Model)
    requires !DeleteTables(db, ms, t).raised && m in ms
    ensures Matching(DeleteTables(db, ms, t).db, m, t) == {}
    decreases |ms|
  {
    var p := DeleteTable(db, ms[0], t);
    TableIsCascade(db, ms[0], t);
    if m == ms[0] {
      MatchesOnlyShrink(db, Closure(db, Matching(db, m, t)), m, t);
      assert Matching(p.db, m, t) == {};
      TablesOnlyShrink(p.db, ms[1..], t, m);
    } else {
      TablesLeaveNone(p.db, ms[1..], t, m);
    }
  }

  /** Some row outside `mine` refers to a row of `gone`. */
  predicate RefersInto(db: Db, mine: set<Ref>, gone: set<Ref>) {
    exists r <- db :: r !in mine && exists f <- db[r].links :: db[r].links[f].target in gone
  }

  ghost predicate OthersKept(db: Db, left: Db, mine: set<Ref>) {
    forall r :: r in db && r !in mine ==> r in left && left[r] == db[r]
  }

  lemma CascadeKeepsExactlyWhen(db: Db, start: set<Ref>, mine: set<Ref>)
    requires start <= mine
    ensures OthersKept(db, Cascade(db, start), mine) <==> !RefersInto(db, mine, Closure(db, start))
  {
    var gone := Closure(db, start);
    if RefersInto(db, mine, gone) {
      var r :| r in db && r !in mine && exists f <- db[r].links :: db[r].links[f].target in gone;
      var f :| f in db[r].links && db[r].links[f].target in gone;
      assert r in Cascade(db, start) ==> f !in Cascade(db, start)[r].links;
    } else {
      assert ClosedUnder(db, gone * mine);
      ClosureIsLeast(db, start, gone * mine);
      forall r | r in db && r !in mine ensures Detach(db[r], gone) == db[r] {
        assert forall f <- db[r].links :: db[r].links[f].target !in gone;
        assert Detach(db[r], gone).links == db[r].links;
      }
    }
  }

  /**
   A completed run leaves every other row in place and unchanged exactly when
   none of them refers to a row that goes.
   */
  lemma OthersKeptExactlyWhen(db: Db, ms: seq<Model>, t: Ref)
    requires !Deprovisioned(db, ms, t).raised
    ensures OthersKept(db, Deprovisioned(db, ms, t).db, AllMatching(db, ms, t) + {t})
       <==> !RefersInto(db, AllMatching(db, ms, t) + {t}, Closure(db, Taken(db, ms, t) + {t}))
  {
    RunIsOneCascade(db, ms, t);
    TakenMatches(db, ms, t);
    CascadeKeepsExactlyWhen(db, Taken(db, ms, t) + {t}, AllMatching(db, ms, t) + {t});
  }

  /** Where all the tenant's rows go: exactly when none of the others refers to them, and then nothing else goes. */
  lemma OnlyTheTenantGoesExactlyWhen(db: Db, ms: seq<Model>, t: Ref)
    requires !Deprovisioned(db, ms, t).raised
    requires AllMatching(db, ms, t) <= Closure(db, Taken(db, ms, t) + {t})
    ensures
      var mine, left := AllMatching(db, ms, t) + {t}, Deprovisioned(db, ms, t).db;
      && (OthersKept(db, left, mine) <==> !Dangling(db, mine))
      && (!Dangling(db, mine) ==> left == db - mine)
  {
    var mine := AllMatching(db, ms, t) + {t};
    OrderIsImmaterialExactlyWhen(db, ms, t);
    CascadeKeepsExactlyWhen(db, mine, mine);
    if Dangling(db, mine) {
      assert RefersInto(db, mine, Closure(db, mine));
    } else {
      AcceptedIsCascade(db, mine);
    }
  }

  // ---- Tenant by tenant, on the stored fields ----

  /** `refs` is the chain of rows that a path of foreign keys goes through. */
  ghost predicate LeadsAlong(db: Db, refs: seq<Ref>, path: seq<string>) {
    && |refs| == |path| + 1
    && forall i :: 0 <= i < |path| ==>
         refs[i] in db && path[i] in db[refs[i]].links && db[refs[i]].links[path[i]].target == refs[i + 1]
  }

  lemma {:induction false} FollowsTheChain(db: Db, refs: seq<Ref>, path: seq<string>)
    requires LeadsAlong(db, refs, path)
    ensures Follow(db, refs[0], path) == Some(refs[|path|])
    decreases |path|
  {
    if path != [] {
      assert LeadsAlong(db, refs[1..], path[1..]) by {
        forall i | 0 <= i < |path| - 1
          ensures && refs[1..][i] in db && path[1..][i] in db[refs[1..][i]].links
                  && db[refs[1..][i]].links[path[1..][i]].target == refs[1..][i + 1]
        {
          assert refs[1..][i] == refs[i + 1] && path[1..][i] == path[i + 1];
        }
      }
      FollowsTheChain(db, refs[1..], path[1..]);
      assert refs[0] in db && path[0] in db[refs[0]].links;
    }
  }

  lemma {:induction false} ChainOf(db: Db, r: Ref, path: seq<string>) returns (refs: seq<Ref>)
    requires Follow(db, r, path).Some?
    ensures LeadsAlong(db, refs, path) && refs[0] == r && refs[|path|] == Follow(db, r, path).value
    decreases |path|
  {
    if path == [] {
      refs := [r];
    } else {
      var rest := ChainOf(db, db[r].links[path[0]].target, path[1..]);
      refs := [r] + rest;
    }
  }

  /** An adopted row is the tenant's exactly when its raw column holds the tenant's key. */
  lemma AdoptedRowsAre(db: Db, table: string, t: Ref, r: Ref)
    ensures r in Matching(db, Adopted(table), t) <==> r in db && r.table == table && db[r].tenantId == Some(t)
  {
  }

  /** A scoped row is the tenant's exactly when its model's foreign keys lead to the tenant. */
  lemma ScopedRowsAre(db: Db, table: string, path: seq<string>, t: Ref, r: Ref)
    ensures r in Matching(db, Scoped(table, path), t)
       <==> r in db && r.table == table
            && exists refs :: LeadsAlong(db, refs, path) && refs[0] == r && refs[|path|] == t
  {
    if r in Matching(db, Scoped(table, path), t) {
      var refs := ChainOf(db, r, path);
    } else if refs :| LeadsAlong(db, refs, path) && refs[0] == r && refs[|path|] == t {
      FollowsTheChain(db, refs, path);
    }
  }

  /** A row goes only by being asked for, or after a row it refers to. */
  lemma KeptWithWhatItRefersTo(db: Db, start: set<Ref>, r: Ref)
    requires r in db && r !in start
    requires forall f :: f in db[r].links ==> db[r].links[f].target in Cascade(db, start)
    ensures r in Cascade(db, start) && Cascade(db, start)[r] == db[r]
  {
    var gone := Closure(db, start);
    forall f | f in db[r].links ensures db[r].links[f].target !in gone {
      assert db[r].links[f].target in Cascade(db, start);
    }
    if r in gone {
      assert ClosedUnder(db, gone - {r});
      ClosureIsLeast(db, start, gone - {r});
      assert false;
    }
    assert Detach(db[r], gone).links == db[r].links;
  }

  /** A completed run for one tenant keeps an adopted row of another, as long as what the row refers to is kept. */
  lemma OtherAdoptedRowIsKept(db: Db, ms: seq<Model>, t: Ref, u: Ref, r: Ref)
    requires !Deprovisioned(db, ms, t).raised && DistinctTables(ms)
    requires Adopted(r.table) in ms && r in db && r != t && db[r].tenantId == Some(u) && u != t
    requires forall f :: f in db[r].links ==> db[r].links[f].target in Deprovisioned(db, ms, t).db
    ensures r in Deprovisioned(db, ms, t).db && Deprovisioned(db, ms, t).db[r] == db[r]
  {
    RunIsOneCascade(db, ms, t);
    TakenMatches(db, ms, t);
    AllMatchingIs(db, ms, t, r);
    forall m | m in ms ensures !Matches(db, m, t, r) {
      if m.table == r.table {
        OneModelPerTable(ms, m, Adopted(r.table));
      }
    }
    KeptWithWhatItRefersTo(db, Taken(db, ms, t) + {t}, r);
  }

  /** And a scoped row whose foreign keys lead to another tenant. */
  lemma OtherScopedRowIsKept(db: Db, ms: seq<Model>, t: Ref, u: Ref, r: Ref, path: seq<string>, refs: seq<Ref>)
    requires !Deprovisioned(db, ms, t).raised && DistinctTables(ms)
    requires Scoped(r.table, path) in ms && r in db && r != t
    requires LeadsAlong(db, refs, path) && refs[0] == r && refs[|path|] == u && u != t
    requires forall f :: f in db[r].links ==> db[r].links[f].target in Deprovisioned(db, ms, t).db
    ensures r in Deprovisioned(db, ms, t).db && Deprovisioned(db, ms, t).db[r] == db[r]
  {
    RunIsOneCascade(db, ms, t);
    TakenMatches(db, ms, t);
    AllMatchingIs(db, ms, t, r);
    FollowsTheChain(db, refs, path);
    forall m | m in ms ensures !Matches(db, m, t, r) {
      if m.table == r.table {
        OneModelPerTable(ms, m, Scoped(r.table, path));
      }
    }
    KeptWithWhatItRefersTo(db, Taken(db, ms, t) + {t}, r);
  }

  lemma OneModelPerTable(ms: seq<Model>, m: Model, n: Model)
    requires DistinctTables(ms) && m in ms && n in ms && m.table == n.table
    ensures m == n
  {
    var i :| 0 <= i < |ms| && ms[i] == m;
    var j :| 0 <= j < |ms| && ms[j] == n;
    assert i == j;
  }

  /** Every foreign key has a row to refer to. */
  ghost predicate Referential(db: Db) {
    forall r, f :: r in db && f in db[r].links ==> db[r].links[f].target in db
  }

  /** A completed run leaves no reference to a row that is gone. */
  lemma ReferencesHold(db: Db, ms: seq<Model>, t: Ref)
    requires !Deprovisioned(db, ms, t).raised && Referential(db)
    ensures Referential(Deprovisioned(db, ms, t).db)
  {
    RunIsOneCascade(db, ms, t);
  }

  // ---- When the run completes ----

  /** What refers to a row of an adopted table is itself deleted, from that table or an earlier one. */
  ghost predicate ChildrenFirst(db: Db, ms: seq<Model>, t: Ref) {
    forall i, r, f :: 0 <= i < |ms| && r in db && f in db[r].links && db[r].links[f].target in Matching(db, ms[i], t)
      ==> DeletedBy(db, ms, t, r, i)
  }

  ghost predicate DeletedBy(db: Db, ms: seq<Model>, t: Ref, r: Ref, i: nat) {
    exists j :: 0 <= j <= i < |ms| && r in Matching(db, ms[j], t)
  }

  lemma AdoptedMatching(db: Db, gone: set<Ref>, m: Model, t: Ref)
    requires m.Adopted?
    ensures Matching(db - gone, m, t) == Matching(db, m, t) - gone
  {
  }

  lemma ChildrenFirstAfterHead(db: Db, ms: seq<Model>, t: Ref)
    requires ms != [] && forall m :: m in ms ==> m.Adopted?
    requires ChildrenFirst(db, ms, t)
    ensures ChildrenFirst(db - Matching(db, ms[0], t), ms[1..], t)
  {
    var db', rest := db - Matching(db, ms[0], t), ms[1..];
    forall i, r, f | 0 <= i < |rest| && r in db' && f in db'[r].links
                     && db'[r].links[f].target in Matching(db', rest[i], t)
      ensures DeletedBy(db', rest, t, r, i)
    {
      AdoptedMatching(db, Matching(db, ms[0], t), ms[i + 1], t);
      assert DeletedBy(db, ms, t, r, i + 1);
      var j :| 0 <= j <= i + 1 && r in Matching(db, ms[j], t);
      AdoptedMatching(db, Matching(db, ms[0], t), ms[j], t);
      assert r in Matching(db', rest[j - 1], t);
    }
  }

  lemma ChildrenFirstWithHead(db: Db, ms: seq<Model>, t: Ref)
    requires ms != [] && forall m :: m in ms ==> m.Adopted?
    requires !Dangling(db, Matching(db, ms[0], t))
    requires ChildrenFirst(db - Matching(db, ms[0], t), ms[1..], t)
    ensures ChildrenFirst(db, ms, t)
  {
    var gone := Matching(db, ms[0], t);
    var db', rest := db - gone, ms[1..];
    forall i, r, f | 0 <= i < |ms| && r in db && f in db[r].links && db[r].links[f].target in Matching(db, ms[i], t)
      ensures DeletedBy(db, ms, t, r, i)
    {
      if r !in gone {
        assert db[r].links[f].target !in gone;
        AdoptedMatching(db, gone, ms[i], t);
        assert r in db' && f in db'[r].links && db'[r].links[f].target in Matching(db', rest[i - 1], t);
        assert DeletedBy(db', rest, t, r, i - 1);
        var j :| 0 <= j <= i - 1 && r in Matching(db', rest[j], t);
        AdoptedMatching(db, gone, ms[j + 1], t);
        assert r in Matching(db, ms[j + 1], t);
      }
    }
  }

  lemma {:induction false} AdoptedCompleteExactlyWhen(db: Db, ms: seq<Model>, t: Ref)
    requires forall m :: m in ms ==> m.Adopted?
    ensures DeleteTables(db, ms, t).raised <==> !ChildrenFirst(db, ms, t)
    decreases |ms|
  {
    if ms != [] {
      var gone := Matching(db, ms[0], t);
      assert ms[0] in ms;
      if Dangling(db, gone) {
        var r :| r in db && r !in gone && exists f <- db[r].links :: db[r].links[f].target in gone;
        var f :| f in db[r].links && db[r].links[f].target in Matching(db, ms[0], t);
        assert !DeletedBy(db, ms, t, r, 0);
      } else {
        AdoptedCompleteExactlyWhen(db - gone, ms[1..], t);
        if ChildrenFirst(db, ms, t) {
          ChildrenFirstAfterHead(db, ms, t);
        } else if ChildrenFirst(db - gone, ms[1..], t) {
          ChildrenFirstWithHead(db, ms, t);
        }
      }
    }
  }

  lemma {:induction false} ScopedThenRest(db: Db, scoped: seq<Model>, rest: seq<Model>, t: Ref)
    requires forall m :: m in scoped ==> m.Scoped?
    ensures !DeleteTables(db, scoped, t).raised
    ensures DeleteTables(db, scoped + rest, t) == DeleteTables(DeleteTables(db, scoped, t).db, rest, t)
    decreases |scoped|
  {
    if scoped == [] {
      assert scoped + rest == rest;
    } else {
      assert (scoped + rest)[1..] == scoped[1..] + rest;
      ScopedThenRest(DeleteTable(db, scoped[0], t).db, scoped[1..], rest, t);
    }
  }

  /**
   The run completes exactly when, once the scoped tables are done, every row
   that refers to one of the tenant's adopted rows goes no later than it. When
   it does not, the scoped rows are already gone.
   */
  lemma CompletesExactlyWhen(db: Db, scoped: seq<Model>, adopted: seq<Model>, t: Ref)
    requires (forall m :: m in scoped ==> m.Scoped?) && (forall m :: m in adopted ==> m.Adopted?)
    ensures
      var run := Deprovisioned(db, scoped + adopted, t);
      && (run.raised <==> !ChildrenFirst(DeleteTables(db, scoped, t).db, adopted, t))
      && (forall m :: m in scoped ==> Matching(run.db, m, t) == {})
  {
    var db1 := DeleteTables(db, scoped, t).db;
    var run := Deprovisioned(db, scoped + adopted, t);
    CountingFirst(db, db, scoped + adopted, t);
    ScopedThenRest(db, scoped, adopted, t);
    AdoptedCompleteExactlyWhen(db1, adopted, t);
    forall m | m in scoped ensures Matching(run.db, m, t) == {} {
      TablesLeaveNone(db, scoped, t, m);
      TablesOnlyShrink(db1, adopted, t, m);
      var p := DeleteTables(db1, adopted, t);
      MatchesOnlyShrink(p.db, Closure(p.db, {t}), m, t);
    }
  }

  // ---- Counts and the export ----

  ghost predicate DistinctTables(ms: seq<Model>) {
    forall i, j :: 0 <= i < j < |ms| ==> ms[i].table != ms[j].table
  }

  function Total(affected: seq<(Model, nat)>): nat {
    if affected == [] then 0 else affected[0].1 + Total(affected[1..])
  }

  function HoldsRows(db: Db, t: Ref): Model -> bool {
    (m: Model) => exists r <- db :: Matches(db, m, t, r)
  }

  lemma HoldsExactlyWhen(db: Db, m: Model, t: Ref)
    ensures HoldsRows(db, t)(m) <==> Matching(db, m, t) != {}
  {
    if HoldsRows(db, t)(m) {
      var r :| r in db && Matches(db, m, t, r);
      assert r in Matching(db, m, t);
    }
  }

  /** An operator is shown exactly the tables that hold a row of the tenant, in their order. */
  lemma {:induction false} ShownInOrder(db: Db, ms: seq<Model>, t: Ref)
    ensures Models(Affected(db, ms, t)) == Filter(HoldsRows(db, t), ms)
  {
    if ms != [] {
      ShownInOrder(db, ms[1..], t);
      HoldsExactlyWhen(db, ms[0], t);
      var rest := Affected(db, ms[1..], t);
      var n := |Matching(db, ms[0], t)|;
      assert Models([(ms[0], n)] + rest) == [ms[0]] + Models(rest);
      assert [] + rest == rest;
    }
  }

  /** Each with the number of its rows. */
  lemma {:induction false} ShownExactlyWhen(db: Db, ms: seq<Model>, t: Ref, m: Model, n: nat)
    ensures (m, n) in Affected(db, ms, t) <==> m in ms && n == |Matching(db, m, t)| && Matching(db, m, t) != {}
  {
    if ms != [] {
      ShownExactlyWhen(db, ms[1..], t, m, n);
      assert m in ms <==> m == ms[0] || m in ms[1..];
    }
  }

  /** The counts an operator confirms sum to the number of the tenant's rows. */
  lemma {:induction false} CountsSumToTheRows(db: Db, ms: seq<Model>, t: Ref)
    requires DistinctTables(ms)
    ensures Total(Affected(db, ms, t)) == |AllMatching(db, ms, t)|
  {
    if ms != [] {
      var first, rest := Matching(db, ms[0], t), AllMatching(db, ms[1..], t);
      CountsSumToTheRows(db, ms[1..], t);
      forall r | r in first ensures r !in rest {
        AllMatchingIs(db, ms[1..], t, r);
      }
      assert |first + rest| == |first| + |rest|;
      if first == {} {
        assert Affected(db, ms, t) == Affected(db, ms[1..], t);
      } else {
        assert Affected(db, ms, t)[1..] == Affected(db, ms[1..], t);
      }
    }
  }

  /** One line for each row of the tenant, as it was before the first delete, and no other line. */
  lemma {:induction false} ExportIsExactlyTheRows(db: Db, ms: seq<Model>, t: Ref, line: Line)
    requires DistinctTables(ms)
    ensures AllLines(db, ms, t)[line] ==
            if line.model in ms && Matches(db, line.model, t, line.ref) && line.record == db[line.ref] then 1 else 0
  {
    if ms != [] {
      ExportIsExactlyTheRows(db, ms[1..], t, line);
      assert line in Lines(db, ms[0], t) <==>
             line.model == ms[0] && line.ref in Matching(db, ms[0], t) && line == LineFor(db, ms[0], line.ref);
      assert forall m :: m in ms <==> m == ms[0] || m in ms[1..];
      assert ms[0] !in ms[1..];
    }
  }

  // ---- Where the claims fail ----

  const T := Ref("tenant", "a")
  const ADDRESS := Ref("emailaddress", "1")
  const CONFIRMATION := Ref("emailconfirmation", "1")
  const ADDRESSES := Adopted("emailaddress")
  const CONFIRMATIONS := Adopted("emailconfirmation")

  function MailDb(): Db {
    map[T := Record(map[], None),
        ADDRESS := Record(map[], Some(T)),
        CONFIRMATION := Record(map["address" := Link(ADDRESS, true)], Some(T))]
  }

  lemma AddressesFirst()
    ensures !ChildrenFirst(MailDb(), [ADDRESSES, CONFIRMATIONS], T)
  {
    var db, ms := MailDb(), [ADDRESSES, CONFIRMATIONS];
    assert "address" in db[CONFIRMATION].links && db[CONFIRMATION].links["address"].target in Matching(db, ms[0], T);
    assert CONFIRMATION !in Matching(db, ms[0], T);
    assert !DeletedBy(db, ms, T, CONFIRMATION, 0);
  }

  lemma ConfirmationsFirst()
    ensures ChildrenFirst(MailDb(), [CONFIRMATIONS, ADDRESSES], T)
  {
    var db, ms := MailDb(), [CONFIRMATIONS, ADDRESSES];
    assert CONFIRMATION in Matching(db, ms[0], T);
    assert forall i :: 0 <= i < 2 ==> DeletedBy(db, ms, T, CONFIRMATION, i);
  }

  /**
   Two adopted tables, the second referring to the first: taken in that order
   the run is refused; in the other it completes.
   */
  lemma ParentTableFirstIsRefused()
    ensures Deprovisioned(MailDb(), [ADDRESSES, CONFIRMATIONS], T).raised
    ensures !Deprovisioned(MailDb(), [CONFIRMATIONS, ADDRESSES], T).raised
  {
    assert [] + [ADDRESSES, CONFIRMATIONS] == [ADDRESSES, CONFIRMATIONS];
    assert [] + [CONFIRMATIONS, ADDRESSES] == [CONFIRMATIONS, ADDRESSES];
    CompletesExactlyWhen(MailDb(), [], [ADDRESSES, CONFIRMATIONS], T);
    CompletesExactlyWhen(MailDb(), [], [CONFIRMATIONS, ADDRESSES], T);
    AddressesFirst();
    ConfirmationsFirst();
  }

  const DESTINATION := Ref("destination", "1")
  const LOG := Ref("log", "1")
  const DESTINATIONS := Scoped("destination", ["tenant"])
  const LOGS := Scoped("log", ["destination", "tenant"])

  /** A log reaches its tenant through a foreign key that deleting the destination sets to NULL. */
  function LogDb(): Db {
    map[T := Record(map[], None),
        DESTINATION := Record(map["tenant" := Link(T, true)], None),
        LOG := Record(map["destination" := Link(DESTINATION, false)], None)]
  }

  lemma LogDbMatching()
    ensures Matching(LogDb(), DESTINATIONS, T) == {DESTINATION}
    ensures Matching(LogDb(), LOGS, T) == {LOG}
  {
    var db := LogDb();
    assert Follow(db, DESTINATION, ["tenant"]) == Follow(db, T, ["tenant"][1..]) == Some(T);
    assert ["destination", "tenant"][1..] == ["tenant"];
    assert Follow(db, LOG, ["destination", "tenant"]) == Some(T);
  }

  function NulledDb(): Db {
    map[T := Record(map[], None), LOG := Record(map[], None)]
  }

  lemma DestinationGoes()
    ensures Cascade(LogDb(), {DESTINATION}) == NulledDb()
  {
    ClosureIsLeast(LogDb(), {DESTINATION}, {DESTINATION});
    assert Detach(LogDb()[LOG], {DESTINATION}).links == map[];
    assert Detach(LogDb()[T], {DESTINATION}).links == map[];
  }

  lemma LogStays()
    ensures Matching(NulledDb(), LOGS, T) == {}
    ensures LOG in Cascade(NulledDb(), {T})
  {
    ClosureIsLeast(NulledDb(), {T}, {T});
  }

  lemma OneThenAnother(db: Db, first: Model, second: Model, t: Ref)
    requires first.Scoped? && second.Scoped?
    ensures Deprovisioned(db, [first, second], t).db
         == Cascade(DeleteTable(Cascade(db, Matching(db, first, t)), second, t).db, {t})
  {
    var db1 := DeleteTable(db, first, t).db;
    CountingFirst(db, db, [first, second], t);
    assert [first, second][1..] == [second];
    assert DeleteTables(db, [first, second], t) == DeleteTables(db1, [second], t);
    OnlyTable(db1, second, t);
  }

  /**
   A row scoped through a nullable foreign key, in a table taken after the one
   it refers to, outlives its tenant; taken before, it does not.
   */
  lemma NulledPathOutlivesItsTenant()
    ensures LOG in AllMatching(LogDb(), [DESTINATIONS, LOGS], T)
    ensures LOG in Deprovisioned(LogDb(), [DESTINATIONS, LOGS], T).db
    ensures LOG !in Deprovisioned(LogDb(), [LOGS, DESTINATIONS], T).db
  {
    LogDbMatching();
    AllMatchingIs(LogDb(), [DESTINATIONS, LOGS], T, LOG);
    assert LOGS in [DESTINATIONS, LOGS];
    OneThenAnother(LogDb(), DESTINATIONS, LOGS, T);
    DestinationGoes();
    LogStays();
    NothingToDelete(NulledDb(), LOGS, T);
    OneThenAnother(LogDb(), LOGS, DESTINATIONS, T);
    assert LOG !in Cascade(LogDb(), {LOG});
  }
}
