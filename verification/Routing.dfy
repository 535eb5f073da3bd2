/**
 The regional router, and where its answers meet the context layer's: a query
 of the active tenant lands on a connection that carries that tenant's key, and
 there row level security and the manager's filter select the same rows.
 */
module Routing {
  import opened Prelude
  import opened Connections
  import opened Context
  import opened ContextRuns
  import opened Catalogue
  import opened Adoption
  import opened Isolation

  const MAX_WARNINGS: nat := 10_000

  /** A tenant whose region is missing or unconfigured, and that region. */
  type Pair = (string, string)

  predicate Routable(cfg: Settings, t: Option<Tenant>) {
    t.Some? && t.value.region != "" && t.value.region in cfg.regions
  }

  /** `pinned` is the region of an enclosing `specific_region`, "" outside any. */
  function RouteOf(cfg: Settings, pinned: string, tenantModel: bool, t: Option<Tenant>): string {
    if cfg.regions == {} then DEFAULT
    else if pinned != "" then (if pinned in cfg.regions then pinned else DEFAULT)
    else if tenantModel && Routable(cfg, t) then t.value.region
    else DEFAULT
  }

  /** The router got as far as the tenant's region and could not use it. */
  predicate FallsBack(cfg: Settings, pinned: string, tenantModel: bool, t: Option<Tenant>) {
    cfg.regions != {} && pinned == "" && tenantModel && t.Some? && !Routable(cfg, t)
  }

  function WarnedAfter(warned: set<Pair>, p: Pair): set<Pair> {
    if p in warned then warned else (if |warned| >= MAX_WARNINGS then {} else warned) + {p}
  }

  class RegionalRouter {
    const cfg: Settings
    var pinned: string
    var warned: set<Pair>

    constructor (cfg: Settings)
      ensures this.cfg == cfg && pinned == "" && warned == {}
    {
      this.cfg, pinned, warned := cfg, "", {};
    }

    method WarnOnce(p: Pair) returns (logged: bool)
      requires |warned| <= MAX_WARNINGS
      modifies this`warned
      ensures logged <==> p !in old(warned)
      ensures p in warned && (|old(warned)| < MAX_WARNINGS ==> warned == old(warned) + {p})
      ensures warned == WarnedAfter(old(warned), p) && |warned| <= MAX_WARNINGS
    {
      logged := false;
      if p in warned {
        return;
      }
      if |warned| >= MAX_WARNINGS {
        warned := {};
      }
      warned := warned + {p};
      logged := true;
    }

    method Route(tenantModel: bool, active: Option<Tenant>) returns (alias: string)
      requires |warned| <= MAX_WARNINGS
      modifies this`warned
      ensures alias == RouteOf(cfg, pinned, tenantModel, active)
      ensures |warned| <= MAX_WARNINGS
      ensures warned == if FallsBack(cfg, pinned, tenantModel, active)
                        then WarnedAfter(old(warned), (active.value.key, active.value.region)) else old(warned)
    {
      if cfg.regions == {} {
        return DEFAULT;
      }
      if pinned != "" {
        return if pinned in cfg.regions then pinned else DEFAULT;
      }
      if !tenantModel || active.None? {
        return DEFAULT;
      }
      if active.value.region == "" || active.value.region !in cfg.regions {
        var _ := WarnOnce((active.value.key, active.value.region));
        return DEFAULT;
      }
      alias := active.value.region;
    }

    /** Enter `specific_region`; the result is what its exit puts back. */
    method Pin(region: string) returns (previous: string)
      modifies this`pinned
      ensures previous == old(pinned) && pinned == region
    {
      previous := pinned;
      pinned := region;
    }

    method Unpin(previous: string)
      modifies this`pinned
      ensures pinned == previous
    {
      pinned := previous;
    }

    /** One query inside `with specific_region(region)`, and the pin as it was. */
    method RouteIn(region: string, tenantModel: bool, active: Option<Tenant>) returns (alias: string)
      requires |warned| <= MAX_WARNINGS
      modifies this`pinned, this`warned
      ensures alias == RouteOf(cfg, region, tenantModel, active)
      ensures pinned == old(pinned) && |warned| <= MAX_WARNINGS
      ensures region != "" ==> warned == old(warned)
    {
      var previous := Pin(region);
      alias := Route(tenantModel, active);
      Unpin(previous);
    }

    /** `require_region`: the argument, or else the active tenant, or an error. */
    method RequireRegion(given: Option<Tenant>, active: Option<Tenant>) returns (r: Result<string, ()>)
      ensures var t := if given.Some? then given else active;
              r == if Routable(cfg, t) then Ok(t.value.region) else Err(())
    {
      if cfg.regions == {} {
        return Err(());
      }
      var t := if given.Some? then given else active;
      if t.None? || t.value.region == "" || t.value.region !in cfg.regions {
        return Err(());
      }
      r := Ok(t.value.region);
    }
  }

  // ---- Warnings ----

  /** Which of a sequence of fallbacks are logged. */
  function Logged(warned: set<Pair>, pairs: seq<Pair>): seq<bool>
    decreases |pairs|
  {
    if pairs == [] then [] else [pairs[0] !in warned] + Logged(WarnedAfter(warned, pairs[0]), pairs[1..])
  }

  function Distinct(pairs: seq<Pair>): set<Pair> {
    set p | p in pairs
  }

  /** Up to the cap, a pair is logged the first time it is met and never again. */
  lemma {:induction false} LoggedOncePerPair(warned: set<Pair>, pairs: seq<Pair>, i: nat)
    requires |warned + Distinct(pairs)| <= MAX_WARNINGS && i < |pairs|
    ensures |Logged(warned, pairs)| == |pairs|
    ensures Logged(warned, pairs)[i] <==> pairs[i] !in warned && pairs[i] !in pairs[..i]
    decreases |pairs|
  {
    var p, rest := pairs[0], pairs[1..];
    if p !in warned {
      Smaller(warned, warned + Distinct(pairs), p);
    }
    assert WarnedAfter(warned, p) + Distinct(rest) == warned + Distinct(pairs);
    if rest != [] {
      LoggedOncePerPair(WarnedAfter(warned, p), rest, if i == 0 then 0 else i - 1);
    }
    if i > 0 {
      assert pairs[..i] == [p] + rest[..i - 1];
    }
  }

  lemma Smaller(small: set<Pair>, large: set<Pair>, p: Pair)
    requires small <= large && p in large && p !in small
    ensures |small| < |large|
  {
    assert |small + (large - small)| == |small| + |large - small|;
    assert small + (large - small) == large;
  }

  // ---- Router and context ----

  /** Without a pin the router and the context layer name the same connection for a tenant's rows. */
  lemma RouteIsTheTenantsAlias(cfg: Settings, t: Option<Tenant>, base: string)
    ensures RouteOf(cfg, "", true, t) ==
            match RegionalAlias(cfg, t) { case None => DEFAULT case Some(region) => region }
    ensures RouteOf(cfg, "", true, t) in AliasesFor(cfg, t, base)
  {
  }

  /**
   A query goes to a region's connection exactly when the region is configured
   and either pinned, or home to the active tenant of an unpinned tenant model.
   */
  lemma RoutedToRegionExactlyWhen(cfg: Settings, pinned: string, tenantModel: bool, t: Option<Tenant>, region: string)
    requires region != "" && region != DEFAULT
    ensures RouteOf(cfg, pinned, tenantModel, t) == region <==>
      && region in cfg.regions
      && (pinned == region || (pinned == "" && tenantModel && t.Some? && t.value.region == region))
  {
  }

  /** A pin leaves the tenant's aliases exactly when it names a configured region that is not one of them. */
  lemma PinLeavesTheAliasesExactlyWhen(cfg: Settings, pinned: string, tenantModel: bool, t: Option<Tenant>,
                                       base: string)
    requires pinned != ""
    ensures RouteOf(cfg, pinned, tenantModel, t) !in AliasesFor(cfg, t, base)
       <==> pinned in cfg.regions && pinned != base && pinned != DEFAULT && (t.None? || pinned != t.value.region)
  {
  }

  /** `objects` under tenant v: the caller's condition, and the tenant column. */
  function ManagerSelect(v: Value, matches: Row -> bool): Statement {
    Select(Both(v, matches))
  }

  function Both(v: Value, matches: Row -> bool): Row -> bool {
    (r: Row) => Mine(v)(r) && matches(r)
  }

  /** What the query asks for, with neither the manager nor the policies in the way of it. */
  function Wanted(table: Table, v: Value, matches: Row -> bool): seq<Row> {
    Filter(Both(v, matches), table.rows)
  }

  function SessionAt(c: Conn): Session {
    Session(c.vars, false)
  }

  lemma VisibleExactlyWhen(table: Table, s: Session, r: Row)
    requires Isolated(table) && !s.bypassRls
    ensures Visible(table, s, r)
       <==> s.vars.admin || (ValueAt(r, TENANT) != Null && ValueAt(r, TENANT) == CurrentTenant(s))
  {
    assert |ISOLATION| != |BYPASS|;
    assert table.policies[ISOLATION] in table.policies.Values && table.policies[BYPASS] in table.policies.Values;
  }

  /**
   On any connection whatever, a query of `objects` returns the tenant's rows
   when the connection carries its key or the admin flag, and otherwise none.
   */
  lemma ManagerSelectIsAllOrNothing(table: Table, mean: Meaning, c: Conn, v: Value, matches: Row -> bool)
    requires Isolated(table) && v != Null
    ensures Execute(table, mean, SessionAt(c), ManagerSelect(v, matches)).1 ==
            Rows(if c.vars.admin || CurrentTenant(SessionAt(c)) == v then Wanted(table, v, matches) else [])
  {
    var s := SessionAt(c);
    var hits := Hits(table, s, Both(v, matches));
    forall r | r in table.rows
      ensures hits(r) == (Both(v, matches)(r) && (c.vars.admin || CurrentTenant(s) == v))
    {
      VisibleExactlyWhen(table, s, r);
    }
    if c.vars.admin || CurrentTenant(s) == v {
      FilterSame(hits, Both(v, matches), table.rows);
    } else {
      FilterNone(hits, table.rows);
    }
  }

  /**
   The two layers agree. At every point of every run inside `using(t)`, with no
   bypass open, no pin and the connection not half-written, a query of a tenant
   model reaches a connection where row level security alone, the manager alone,
   and both together select the same rows: t's.
   */
  lemma RoutedQuerySeesTheTenantsRows(cfg: Settings, base: string, conns: Connections, steps: seq<Step>, m: Machine,
                                      tables: Tables, mean: Meaning, matches: Row -> bool)
    requires cfg.setSessionVar && cfg.wrapAtomic && Reached(cfg, base, conns, steps, m)
    requires forall step :: step in steps ==> SameBase(base, step)
    requires m.st.current.Some? && m.st.current.value.key != "" && InnermostKind(m.stack) == Some(Using)
    requires
      var a := RouteOf(cfg, "", true, m.st.current);
      && IsPostgres(m.st.conns, a) && !m.st.conns[a].aborted && Depth(m.stack, a) == 0
      && a !in Lost(cfg, base, conns, steps)
      && a in tables && Isolated(tables[a])
    ensures
      var a := RouteOf(cfg, "", true, m.st.current);
      var v := Val(m.st.current.value.key);
      var s := SessionAt(m.st.conns[a]);
      && Scoped(s, v)
      && Execute(tables[a], mean, s, Select(matches)).1 == Rows(Wanted(tables[a], v, matches))
      && Execute(tables[a], mean, s, ManagerSelect(v, matches)).1 == Rows(Wanted(tables[a], v, matches))
  {
    var a := RouteOf(cfg, "", true, m.st.current);
    var v := Val(m.st.current.value.key);
    var c := m.st.conns[a];
    RouteIsTheTenantsAlias(cfg, m.st.current, base);
    SessionAgreement(cfg, base, conns, steps, m, a);
    BypassExactlyWhileOpen(cfg, base, conns, steps, m, a);
    ManagerSelectIsAllOrNothing(tables[a], mean, c, v, matches);
    forall r | r in tables[a].rows ensures Hits(tables[a], SessionAt(c), matches)(r) == Both(v, matches)(r) {
      VisibleIsMine(tables[a], SessionAt(c), v, r);
    }
    FilterSame(Hits(tables[a], SessionAt(c), matches), Both(v, matches), tables[a].rows);
  }

  /**
   Pinned to a connection that no open scope set a tenant on, a query under an
   active tenant finds nothing; it is never answered with another tenant's rows.
   */
  lemma PinnedElsewhereFindsNothing(cfg: Settings, base: string, conns: Connections, steps: seq<Step>, m: Machine,
                                    pinned: string, tables: Tables, mean: Meaning, matches: Row -> bool)
    requires cfg.setSessionVar && Reached(cfg, base, conns, steps, m) && m.st.current.Some?
    requires forall step :: step in steps ==> SameBase(base, step)
    requires
      var a := RouteOf(cfg, pinned, true, m.st.current);
      && IsPostgres(m.st.conns, a) && !m.st.conns[a].aborted && Depth(m.stack, a) == 0
      && a !in Lost(cfg, base, conns, steps)
      && a in tables && Isolated(tables[a])
      && forall key :: !Carried(cfg, base, m.stack, a, key)
    ensures
      var a := RouteOf(cfg, pinned, true, m.st.current);
      var s := SessionAt(m.st.conns[a]);
      && Execute(tables[a], mean, s, Select(matches)).1 == Rows([])
      && Execute(tables[a], mean, s, ManagerSelect(Val(m.st.current.value.key), matches)).1 == Rows([])
  {
    var a := RouteOf(cfg, pinned, true, m.st.current);
    var c := m.st.conns[a];
    if c.vars.tenant != "" {
      NoStrayTenant(cfg, base, conns, steps, m, a);
    }
    BypassExactlyWhileOpen(cfg, base, conns, steps, m, a);
    ManagerSelectIsAllOrNothing(tables[a], mean, c, Val(m.st.current.value.key), matches);
    forall r | r in tables[a].rows ensures !Hits(tables[a], SessionAt(c), matches)(r) {
      VisibleExactlyWhen(tables[a], SessionAt(c), r);
    }
    FilterNone(Hits(tables[a], SessionAt(c), matches), tables[a].rows);
  }
}
