/**
 The one way a well-nested run can leave the ContextVar and a connection
 disagreeing: a tenant whose key is refused on a later alias after it was
 written on an earlier one. Exactly when such an entry breaks agreement with
 the tenant that stays active, and exactly when it leaves a stray key.
 */
module ContextFailures {
  import opened Prelude
  import opened Connections
  import opened Context
  import opened ContextRuns

  ghost predicate HeldAliasesAgree(m: Machine) {
    forall a :: m.st.current.Some? && a in ActiveHeld(m.stack) && a in m.st.conns && !m.st.conns[a].aborted ==>
      m.st.conns[a].vars.tenant == m.st.current.value.key
  }

  /** Every key on a live alias is that of a tenant some open scope set there. */
  ghost predicate NoStray(cfg: Settings, base: string, m: Machine) {
    forall a :: a in m.st.conns && !m.st.conns[a].aborted && m.st.conns[a].vars.tenant != "" ==>
      Carried(cfg, base, m.stack, a, m.st.conns[a].vars.tenant)
  }

  predicate Refused(cfg: Settings, base: string, m: Machine, kind: Kind, t: Option<Tenant>) {
    var b := BaseOf(kind, base);
    t.Some? && EnterRaises(cfg, m.st, t, b, Atomics(cfg, kind, t, b))
  }

  /** One connection after the refusal: the new key where it was left, and nothing else changed. */
  lemma AliasAfterRefusal(cfg: Settings, base: string, m: Machine, kind: Kind, t: Option<Tenant>, a: string)
    requires Inv(cfg, base, m, Except({})) && Refused(cfg, base, m, kind, t) && a in m.st.conns
    ensures
      var m' := Enter(cfg, base, m, kind, t);
      && m'.stack == m.stack && m'.st.current == m.st.current && m'.st.conns.Keys == m.st.conns.Keys
      && m'.st.conns[a].aborted == m.st.conns[a].aborted
      && m'.st.conns[a].vars.tenant ==
           if a in LeftWritten(cfg, BaseOf(kind, base), m.st.conns, t) then t.value.key else m.st.conns[a].vars.tenant
  {
    var b, c := BaseOf(kind, base), m.st.conns[a];
    var begun := Opened(cfg, m.st.conns, Atomics(cfg, kind, t, b));
    FailedEnterShape(cfg, base, m, kind, t);
    FirstRaisingAfterOpen(cfg, base, m.stack, m.st.conns, Except({}), begun, AliasesFor(cfg, t, b));
    assert AliasInv(cfg, base, true, m.stack, a, c) && cfg.setSessionVar by {
      assert a in Except({});
    }
    ConnAfterRefusal(cfg, b, m.st.conns, begun, t, a);
    assert Enter(cfg, base, m, kind, t).st.conns
        == CloseOn(WrittenConns(cfg, m.st.conns, begun, WrittenBefore(cfg, b, m.st.conns, t), t), begun, true);
  }

  lemma ConnAfterRefusal(cfg: Settings, b: string, conns: Connections, begun: set<string>, t: Option<Tenant>, a: string)
    requires cfg.setSessionVar && t.Some? && a in conns
    requires FirstRaising(cfg, conns, AliasesFor(cfg, t, b)) < |AliasesFor(cfg, t, b)|
    requires a in begun ==> !conns[a].InAtomicBlock()
    requires !conns[a].InAtomicBlock() ==> !conns[a].aborted
    requires conns[a].InAtomicBlock() ==> conns[a].open
    ensures
      var c := EndedConn(begun, a, WrittenConn(cfg, begun, a, conns[a], WrittenBefore(cfg, b, conns, t), t), true);
      && c.aborted == conns[a].aborted
      && c.vars.tenant == if a in LeftWritten(cfg, b, conns, t) then t.value.key else conns[a].vars.tenant
  {
    var aliases, written := AliasesFor(cfg, t, b), WrittenBefore(cfg, b, conns, t);
    if a in written {
      var i :| 0 <= i < |written| && written[i] == a;
      assert !WriteRaises(cfg, conns, aliases[i]);
    }
  }

  lemma HeldIsLive(cfg: Settings, base: string, m: Machine, a: string)
    requires Inv(cfg, base, m, Except({})) && a in ActiveHeld(m.stack)
    ensures IsPostgres(m.st.conns, a) && m.st.conns[a].InAtomicBlock()
    ensures !m.st.conns[a].aborted && m.st.current.Some? ==> m.st.conns[a].vars.tenant == m.st.current.value.key
  {
    HeldIsTarget(cfg, base, m.stack, m.st.current, m.st.depth, m.st.conns);
    assert AliasInv(cfg, base, true, m.stack, a, m.st.conns[a]);
    ReliedOnInTransaction(cfg, base, true, m.stack, a, true, m.st.conns[a].frames);
  }

  /** No alias is left with the new key in an aborted transaction: its write would have been the one to raise. */
  lemma LeftIsLive(cfg: Settings, base: string, m: Machine, kind: Kind, t: Option<Tenant>, a: string)
    requires Inv(cfg, base, m, Except({})) && a in LeftWritten(cfg, BaseOf(kind, base), m.st.conns, t)
    ensures a in m.st.conns && !m.st.conns[a].aborted
  {
    var aliases := AliasesFor(cfg, t, BaseOf(kind, base));
    var written := aliases[..FirstRaising(cfg, m.st.conns, aliases)];
    var i :| 0 <= i < |written| && written[i] == a;
    assert !WriteRaises(cfg, m.st.conns, aliases[i]);
    assert AliasInv(cfg, base, true, m.stack, a, m.st.conns[a]);
  }

  /**
   An entry that raises keeps agreement for the tenant that stays active
   exactly when it had not yet written a different key on an alias that tenant
   relies on.
   */
  lemma FailedEntryAgreesExactlyWhen(cfg: Settings, base: string, m: Machine, kind: Kind, t: Option<Tenant>)
    requires Inv(cfg, base, m, Except({})) && m.st.current.Some? && Refused(cfg, base, m, kind, t)
    ensures
      var aliases := AliasesFor(cfg, t, BaseOf(kind, base));
      HeldAliasesAgree(Enter(cfg, base, m, kind, t))
      <==> t.value.key == m.st.current.value.key
           || forall i :: 0 <= i < FirstRaising(cfg, m.st.conns, aliases) ==> aliases[i] !in ActiveHeld(m.stack)
  {
    var left := LeftWritten(cfg, BaseOf(kind, base), m.st.conns, t);
    var m' := Enter(cfg, base, m, kind, t);
    LeftAndHeld(cfg, base, m, kind, t);
    RefusalKeepsScopes(cfg, base, m, kind, t);
    forall a | a in ActiveHeld(m.stack)
      ensures HeldAfter(m, m', left, t.value.key, a)
      ensures a in left ==> !m.st.conns[a].aborted
    {
      HeldAfterRefusal(cfg, base, m, kind, t, a);
      if a in left {
        LeftIsLive(cfg, base, m, kind, t, a);
      }
    }
    AgreesExactlyWhen(m, m', left, t.value.key);
  }

  lemma RefusalKeepsScopes(cfg: Settings, base: string, m: Machine, kind: Kind, t: Option<Tenant>)
    requires Refused(cfg, base, m, kind, t)
    ensures Enter(cfg, base, m, kind, t).stack == m.stack
    ensures Enter(cfg, base, m, kind, t).st.current == m.st.current
  {
    FailedEnterShape(cfg, base, m, kind, t);
  }

  /** An alias the active tenant relies on, before and after: the new key on `left`, its own elsewhere. */
  predicate HeldAfter(m: Machine, m': Machine, left: set<string>, key: string, a: string)
    requires m.st.current.Some?
  {
    && a in m.st.conns && a in m'.st.conns && m'.st.conns[a].aborted == m.st.conns[a].aborted
    && (m.st.conns[a].aborted
        || m'.st.conns[a].vars.tenant == if a in left then key else m.st.current.value.key)
  }

  lemma AgreesExactlyWhen(m: Machine, m': Machine, left: set<string>, key: string)
    requires m.st.current.Some? && m'.st.current == m.st.current && m'.stack == m.stack
    requires forall a :: a in ActiveHeld(m.stack) ==>
      HeldAfter(m, m', left, key, a) && (a in left ==> !m.st.conns[a].aborted)
    ensures HeldAliasesAgree(m')
       <==> key == m.st.current.value.key || forall a :: a in left ==> a !in ActiveHeld(m.stack)
  {
    if key != m.st.current.value.key {
      if a :| a in left && a in ActiveHeld(m.stack) {
        assert HeldAfter(m, m', left, key, a);
      }
    }
  }

  lemma HeldAfterRefusal(cfg: Settings, base: string, m: Machine, kind: Kind, t: Option<Tenant>, a: string)
    requires Inv(cfg, base, m, Except({})) && m.st.current.Some? && Refused(cfg, base, m, kind, t)
    requires a in ActiveHeld(m.stack)
    ensures HeldAfter(m, Enter(cfg, base, m, kind, t), LeftWritten(cfg, BaseOf(kind, base), m.st.conns, t),
                      t.value.key, a)
  {
    HeldIsLive(cfg, base, m, a);
    AliasAfterRefusal(cfg, base, m, kind, t, a);
  }

  lemma LeftAndHeld(cfg: Settings, base: string, m: Machine, kind: Kind, t: Option<Tenant>)
    requires Inv(cfg, base, m, Except({})) && Refused(cfg, base, m, kind, t)
    ensures
      var aliases := AliasesFor(cfg, t, BaseOf(kind, base));
      (forall i :: 0 <= i < FirstRaising(cfg, m.st.conns, aliases) ==> aliases[i] !in ActiveHeld(m.stack))
      <==> (forall a :: a in LeftWritten(cfg, BaseOf(kind, base), m.st.conns, t) ==> a !in ActiveHeld(m.stack))
  {
    var aliases := AliasesFor(cfg, t, BaseOf(kind, base));
    var n := FirstRaising(cfg, m.st.conns, aliases);
    forall i | 0 <= i < n && aliases[i] in ActiveHeld(m.stack)
      ensures aliases[i] in LeftWritten(cfg, BaseOf(kind, base), m.st.conns, t)
    {
      WrittenAndHeldIsLeft(cfg, base, m, kind, t, i);
    }
    forall a | a in LeftWritten(cfg, BaseOf(kind, base), m.st.conns, t)
      ensures exists i :: 0 <= i < n && aliases[i] == a
    {
      var i :| 0 <= i < |aliases[..n]| && aliases[..n][i] == a;
      assert aliases[i] == a;
    }
  }

  lemma WrittenAndHeldIsLeft(cfg: Settings, base: string, m: Machine, kind: Kind, t: Option<Tenant>, i: nat)
    requires Inv(cfg, base, m, Except({})) && Refused(cfg, base, m, kind, t)
    requires i < FirstRaising(cfg, m.st.conns, AliasesFor(cfg, t, BaseOf(kind, base)))
    requires AliasesFor(cfg, t, BaseOf(kind, base))[i] in ActiveHeld(m.stack)
    ensures AliasesFor(cfg, t, BaseOf(kind, base))[i] in LeftWritten(cfg, BaseOf(kind, base), m.st.conns, t)
  {
    var b := BaseOf(kind, base);
    var aliases := AliasesFor(cfg, t, b);
    var begun := Opened(cfg, m.st.conns, Atomics(cfg, kind, t, b));
    HeldIsLive(cfg, base, m, aliases[i]);
    FirstRaisingAfterOpen(cfg, base, m.stack, m.st.conns, Except({}), begun, aliases);
    assert aliases[..FirstRaising(cfg, m.st.conns, aliases)][i] == aliases[i];
  }

  /**
   An entry that raises leaves no stray key exactly when every alias it had
   written inside an open transaction is one on which an open scope had set
   that key already.
   */
  lemma FailedEntryStraysExactlyWhen(cfg: Settings, base: string, m: Machine, kind: Kind, t: Option<Tenant>)
    requires Inv(cfg, base, m, Except({})) && Refused(cfg, base, m, kind, t) && t.value.key != ""
    ensures NoStray(cfg, base, Enter(cfg, base, m, kind, t))
       <==> forall a :: a in LeftWritten(cfg, BaseOf(kind, base), m.st.conns, t) ==>
              Carried(cfg, base, m.stack, a, t.value.key)
  {
    var left := LeftWritten(cfg, BaseOf(kind, base), m.st.conns, t);
    var m' := Enter(cfg, base, m, kind, t);
    FailedEnterShape(cfg, base, m, kind, t);
    if a :| a in left && !Carried(cfg, base, m.stack, a, t.value.key) {
      LeftIsLive(cfg, base, m, kind, t, a);
      AliasAfterRefusal(cfg, base, m, kind, t, a);
      assert !NoStray(cfg, base, m');
    } else {
      forall a | a in m'.st.conns && !m'.st.conns[a].aborted && m'.st.conns[a].vars.tenant != ""
        ensures Carried(cfg, base, m.stack, a, m'.st.conns[a].vars.tenant)
      {
        AliasAfterRefusal(cfg, base, m, kind, t, a);
        assert AliasInv(cfg, base, true, m.stack, a, m.st.conns[a]);
      }
    }
  }

  // ---- Runs that break agreement ----

  const CFG := Settings({"eu"}, true, true)
  const OUTER := Tenant("a", "")
  const INNER := Tenant("b", "eu")
  const IDLE := Conn(true, true, false, NOTHING, [])
  const STEPS := [EnterContext(Using, Some(OUTER)), EnterAtomic("eu"), FailingStatement("eu"),
                  EnterContext(Using, Some(INNER))]

  lemma Aliases()
    ensures AliasesFor(CFG, Some(OUTER), DEFAULT) == [DEFAULT]
    ensures AliasesFor(CFG, Some(INNER), DEFAULT) == [DEFAULT, "eu"]
  {
    assert |DEFAULT| != |"eu"|;
    assert [DEFAULT][1..] == [] && [DEFAULT, "eu"][1..] == ["eu"] && ["eu"][1..] == [];
  }

  const LIVE := Conn(true, true, false, Vars("a", false), [NOTHING])
  const FAILED := Conn(true, true, true, NOTHING, [NOTHING])

  function Two(d: Conn, eu: Conn): Connections {
    map[DEFAULT := d, "eu" := eu]
  }

  lemma TwoAliases(d: Conn, eu: Conn, conns: Connections)
    ensures DEFAULT in Two(d, eu) && Two(d, eu)[DEFAULT] == d && "eu" in Two(d, eu) && Two(d, eu)["eu"] == eu
    ensures conns.Keys == Two(d, eu).Keys && conns[DEFAULT] == d && conns["eu"] == eu ==> conns == Two(d, eu)
  {
    assert |DEFAULT| != |"eu"|;
  }

  lemma OuterEntered(m: Machine)
    requires m.st == State(None, map[], Two(IDLE, IDLE))
    ensures Next(CFG, DEFAULT, m, EnterContext(Using, Some(OUTER))).st == State(Some(OUTER), map[], Two(LIVE, IDLE))
  {
    Aliases();
    TwoAliases(IDLE, IDLE, m.st.conns);
    assert |DEFAULT| != |"eu"|;
    var begun := Opened(CFG, m.st.conns, [DEFAULT]);
    assert begun == {DEFAULT};
    assert FirstRaising(CFG, OpenOn(m.st.conns, begun), [DEFAULT]) == 1;
    EnterShape(CFG, DEFAULT, m, Using, Some(OUTER));
    TwoAliases(LIVE, IDLE, WrittenConns(CFG, m.st.conns, begun, [DEFAULT], Some(OUTER)));
  }

  lemma BlockFails(m: Machine)
    requires m.st == State(Some(OUTER), map[], Two(LIVE, IDLE))
    ensures Next(CFG, DEFAULT, Next(CFG, DEFAULT, m, EnterAtomic("eu")), FailingStatement("eu")).st
         == State(Some(OUTER), map[], Two(LIVE, FAILED))
  {
    TwoAliases(LIVE, IDLE, m.st.conns);
    assert |DEFAULT| != |"eu"|;
    var m1 := Next(CFG, DEFAULT, m, EnterAtomic("eu"));
    TwoAliases(LIVE, IDLE.Begin(), m1.st.conns);
    var m2 := Next(CFG, DEFAULT, m1, FailingStatement("eu"));
    TwoAliases(LIVE, FAILED, m2.st.conns);
  }

  lemma InnerRaisesSecond(conns: Connections)
    requires conns == Two(LIVE, FAILED)
    ensures Opened(CFG, conns, [DEFAULT, "eu"]) == {}
    ensures FirstRaising(CFG, conns, [DEFAULT, "eu"]) == 1
  {
    TwoAliases(LIVE, FAILED, conns);
    assert [DEFAULT, "eu"][1..] == ["eu"];
    assert FirstRaising(CFG, conns, ["eu"]) == 0;
  }

  lemma InnerRefused(m: Machine)
    requires m.st == State(Some(OUTER), map[], Two(LIVE, FAILED))
    ensures Next(CFG, DEFAULT, m, EnterContext(Using, Some(INNER))).st
         == State(Some(OUTER), map[], Two(LIVE.(vars := Vars("b", false)), FAILED))
  {
    Aliases();
    TwoAliases(LIVE, FAILED, m.st.conns);
    InnerRaisesSecond(m.st.conns);
    assert OpenOn(m.st.conns, {}) == m.st.conns;
    FailedEnterShape(CFG, DEFAULT, m, Using, Some(INNER));
    assert [DEFAULT, "eu"][..1] == [DEFAULT];
    var conns' := WrittenConns(CFG, m.st.conns, {}, [DEFAULT], Some(INNER));
    CloseNone(conns', true);
    assert "eu" !in [DEFAULT] by { assert |DEFAULT| != |"eu"|; }
    TwoAliases(LIVE.(vars := Vars("b", false)), FAILED, conns');
  }

  lemma RunFour(cfg: Settings, base: string, m: Machine, steps: seq<Step>)
    requires |steps| == 4
    ensures Run(cfg, base, m, steps)
         == Next(cfg, base,
                 Next(cfg, base, Next(cfg, base, Next(cfg, base, m, steps[0]), steps[1]), steps[2]), steps[3])
  {
    var s1 := steps[1..];
    var s2 := s1[1..];
    var s3 := s2[1..];
    var m1 := Next(cfg, base, m, steps[0]);
    var m2 := Next(cfg, base, m1, steps[1]);
    assert Run(cfg, base, m, steps) == Run(cfg, base, m1, s1);
    assert Run(cfg, base, m1, s1) == Run(cfg, base, m2, s2);
    assert Run(cfg, base, m2, s2) == Run(cfg, base, Next(cfg, base, m2, steps[2]), s3);
    assert s3[1..] == [];
  }

  /**
   Inside `using(a)`, a statement fails in a block on the regional alias, and
   `using(b)` for a tenant of that region then raises. Tenant a is active
   again, and the live default connection carries b.
   */
  lemma HalfWrittenTenantSurvives()
    ensures Run(CFG, DEFAULT, Start(Two(IDLE, IDLE)), STEPS).st
         == State(Some(OUTER), map[], Two(LIVE.(vars := Vars(INNER.key, false)), FAILED))
  {
    var m0 := Start(Two(IDLE, IDLE));
    RunFour(CFG, DEFAULT, m0, STEPS);
    OuterEntered(m0);
    var m1 := Next(CFG, DEFAULT, m0, EnterContext(Using, Some(OUTER)));
    BlockFails(m1);
    InnerRefused(Next(CFG, DEFAULT, Next(CFG, DEFAULT, m1, EnterAtomic("eu")), FailingStatement("eu")));
  }

  // ---- A run that leaves a stray key ----

  const STRAY_STEPS := [EnterAtomic(DEFAULT), EnterAtomic("eu"), FailingStatement("eu"),
                        EnterContext(Using, Some(INNER))]
  const OPEN := Conn(true, true, false, NOTHING, [NOTHING])

  lemma BlocksOpened(m: Machine)
    requires m.st == State(None, map[], Two(IDLE, IDLE))
    ensures
      var m1 := Next(CFG, DEFAULT, Next(CFG, DEFAULT, m, EnterAtomic(DEFAULT)), EnterAtomic("eu"));
      Next(CFG, DEFAULT, m1, FailingStatement("eu")).st == State(None, map[], Two(OPEN, FAILED))
  {
    TwoAliases(IDLE, IDLE, m.st.conns);
    assert |DEFAULT| != |"eu"|;
    var m0 := Next(CFG, DEFAULT, m, EnterAtomic(DEFAULT));
    TwoAliases(OPEN, IDLE, m0.st.conns);
    var m1 := Next(CFG, DEFAULT, m0, EnterAtomic("eu"));
    TwoAliases(OPEN, OPEN, m1.st.conns);
    TwoAliases(OPEN, FAILED, Next(CFG, DEFAULT, m1, FailingStatement("eu")).st.conns);
  }

  lemma StrayRaisesSecond(conns: Connections)
    requires conns == Two(OPEN, FAILED)
    ensures Opened(CFG, conns, [DEFAULT, "eu"]) == {}
    ensures FirstRaising(CFG, conns, [DEFAULT, "eu"]) == 1
  {
    TwoAliases(OPEN, FAILED, conns);
    assert [DEFAULT, "eu"][1..] == ["eu"];
    assert FirstRaising(CFG, conns, ["eu"]) == 0;
  }

  lemma StrayRefused(m: Machine)
    requires m.st == State(None, map[], Two(OPEN, FAILED))
    ensures Next(CFG, DEFAULT, m, EnterContext(Using, Some(INNER))).st
         == State(None, map[], Two(OPEN.(vars := Vars("b", false)), FAILED))
  {
    Aliases();
    TwoAliases(OPEN, FAILED, m.st.conns);
    StrayRaisesSecond(m.st.conns);
    assert OpenOn(m.st.conns, {}) == m.st.conns;
    FailedEnterShape(CFG, DEFAULT, m, Using, Some(INNER));
    assert [DEFAULT, "eu"][..1] == [DEFAULT];
    var conns' := WrittenConns(CFG, m.st.conns, {}, [DEFAULT], Some(INNER));
    CloseNone(conns', true);
    assert "eu" !in [DEFAULT] by { assert |DEFAULT| != |"eu"|; }
    TwoAliases(OPEN.(vars := Vars("b", false)), FAILED, conns');
  }

  /**
   With no tenant active, inside `atomic()` on both aliases, a statement fails
   on the regional one and `using(b)` raises. No tenant is active, and the live
   default connection carries b.
   */
  lemma StrayTenantSurvives()
    ensures Run(CFG, DEFAULT, Start(Two(IDLE, IDLE)), STRAY_STEPS).st
         == State(None, map[], Two(OPEN.(vars := Vars(INNER.key, false)), FAILED))
  {
    var m0 := Start(Two(IDLE, IDLE));
    RunFour(CFG, DEFAULT, m0, STRAY_STEPS);
    BlocksOpened(m0);
    var m1 := Next(CFG, DEFAULT, Next(CFG, DEFAULT, m0, EnterAtomic(DEFAULT)), EnterAtomic("eu"));
    StrayRefused(Next(CFG, DEFAULT, m1, FailingStatement("eu")));
  }
}
