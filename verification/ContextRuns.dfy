/**
 Whole runs of the context layer: any well-nested mix of tenant scopes, admin
 bypasses and transaction blocks on any aliases, with failing statements and
 exceptions caught anywhere. One invariant ties every connection, and every
 snapshot it may be rolled back to, to the scopes still open. Its part about
 frames and the admin flag holds in every run; its part about tenant keys holds
 of the aliases no failed entry has left half-written.
 */
module ContextRuns {
  import opened Prelude
  import opened Connections
  import opened Context

  /** `using(t)`, a bare `set`/`clear` pair, and the middleware's or a task's `set`. */
  datatype Kind = Using | Bare | Request

  /** `held`: the PostgreSQL aliases of the tenant that were in a transaction when it was set. */
  datatype Scope =
    | ContextScope(kind: Kind, tenant: Option<Tenant>, previous: Option<Tenant>, begun: set<string>, held: set<string>)
    | BypassScope(alias: string, token: BypassToken)
    | AtomicScope(alias: string)

  /** The open scopes, innermost first. */
  datatype Stack = Empty | Push(top: Scope, rest: Stack)

  datatype Machine = Machine(st: State, stack: Stack)

  /** `Exit` leaves the innermost scope, by an exception or not; nothing need follow an exception. */
  datatype Step =
    | EnterContext(kind: Kind, tenant: Option<Tenant>)
    | EnterBypass(alias: string)
    | EnterAtomic(alias: string)
    | Exit(raised: bool)
    | FailingStatement(alias: string)
    | Statement(alias: string)
    | Disconnect(alias: string)

  /** The middleware and a task name no base alias, so theirs is the default one. */
  function BaseOf(kind: Kind, base: string): string {
    if kind.Request? then DEFAULT else base
  }

  function Atomics(cfg: Settings, kind: Kind, t: Option<Tenant>, base: string): seq<string> {
    match kind
    case Using => AliasesFor(cfg, t, base)
    case Bare => []
    case Request => [DEFAULT]
  }

  function HeldBy(cfg: Settings, conns: Connections, t: Option<Tenant>, base: string): set<string> {
    set a | a in AliasesFor(cfg, t, base) && t.Some? && a in conns && conns[a].postgres && conns[a].InAtomicBlock()
  }

  function Enter(cfg: Settings, base: string, m: Machine, kind: Kind, t: Option<Tenant>): Machine {
    var b := BaseOf(kind, base);
    var atomics := Atomics(cfg, kind, t, b);
    var st := EnterState(cfg, m.st, t, b, atomics);
    if EnterRaises(cfg, m.st, t, b, atomics) then Machine(st, m.stack)
    else
      var begun := Opened(cfg, m.st.conns, atomics);
      Machine(st, Push(ContextScope(kind, t, m.st.current, begun, HeldBy(cfg, st.conns, t, b)), m.stack))
  }

  function ExitTop(cfg: Settings, base: string, st: State, top: Scope, raised: bool): State {
    match top
    case ContextScope(kind, t, previous, begun, _) =>
      var b := BaseOf(kind, base);
      if kind.Using?
      then UsingExitState(cfg, st, UsingToken(previous, AliasesFor(cfg, t, b), begun), b, raised)
      else ClearExitState(cfg, st, previous, b, begun, raised)
    case BypassScope(a, token) =>
      if a in st.conns then BypassExitState(st, a, token, raised) else st
    case AtomicScope(a) =>
      st.(conns := CloseOn(st.conns, {a}, raised))
  }

  function Next(cfg: Settings, base: string, m: Machine, step: Step): Machine {
    match step
    case EnterContext(kind, t) => Enter(cfg, base, m, kind, t)
    case EnterBypass(a) =>
      var st := BypassEnterState(cfg, m.st, a);
      if BypassRaises(cfg, m.st, a) then Machine(st, m.stack)
      else Machine(st, Push(BypassScope(a, BypassTokenFor(cfg, m.st, a)), m.stack))
    case EnterAtomic(a) =>
      // A savepoint cannot be opened in an aborted transaction.
      if a !in m.st.conns || m.st.conns[a].aborted then m
      else Machine(m.st.(conns := OpenOn(m.st.conns, {a})), Push(AtomicScope(a), m.stack))
    case Exit(raised) =>
      if m.stack.Empty? then m
      else Machine(ExitTop(cfg, base, m.st, m.stack.top, raised), m.stack.rest)
    case FailingStatement(a) =>
      if a !in m.st.conns then m else m.(st := m.st.(conns := m.st.conns[a := m.st.conns[a].Fail()]))
    case Statement(a) =>
      if a !in m.st.conns then m else m.(st := m.st.(conns := m.st.conns[a := m.st.conns[a].(open := true)]))
    case Disconnect(a) =>
      if a !in m.st.conns || m.st.conns[a].InAtomicBlock() then m
      else m.(st := m.st.(conns := m.st.conns[a := m.st.conns[a].(open := false)]))
  }

  function Run(cfg: Settings, base: string, m: Machine, steps: seq<Step>): Machine
    decreases |steps|
  {
    if steps == [] then m else Run(cfg, base, Next(cfg, base, m, steps[0]), steps[1..])
  }

  predicate Fresh(c: Conn) {
    c.frames == [] && !c.aborted && c.vars == NOTHING
  }

  /** Outside any scope: no transaction open, nothing set. */
  function Start(conns: Connections): Machine {
    Machine(State(None, map[], conns), Empty)
  }

  // ---- What the open scopes say ----

  function Active(s: Stack): Option<Tenant> {
    match s
    case Empty => None
    case Push(top, rest) => if top.ContextScope? then top.tenant else Active(rest)
  }

  function ActiveHeld(s: Stack): set<string> {
    match s
    case Empty => {}
    case Push(top, rest) => if top.ContextScope? then top.held else ActiveHeld(rest)
  }

  function Depth(s: Stack, a: string): nat {
    match s
    case Empty => 0
    case Push(top, rest) => Depth(rest, a) + if top.BypassScope? && top.token.Held? && top.alias == a then 1 else 0
  }

  /** `key` is that of a tenant set by an open scope, and `a` is one of its aliases. */
  ghost predicate Carried(cfg: Settings, base: string, s: Stack, a: string, key: string) {
    match s
    case Empty => false
    case Push(top, rest) =>
      || (top.ContextScope? && top.tenant.Some? && top.tenant.value.key == key
          && a in AliasesFor(cfg, top.tenant, base))
      || Carried(cfg, base, rest, a, key)
  }

  /** The variables an alias may hold while exactly the scopes of `s` are open; `k`: its key is accounted for. */
  ghost predicate Agrees(cfg: Settings, base: string, k: bool, s: Stack, a: string, postgres: bool, vars: Vars) {
    && (k && Active(s).Some? && a in ActiveHeld(s) ==> vars.tenant == Active(s).value.key)
    && (k && vars.tenant != "" ==> postgres && Carried(cfg, base, s, a, vars.tenant))
    && (vars.admin <==> Depth(s, a) > 0)
  }

  /** The scope needs a transaction on the alias for as long as it is open. */
  predicate Needs(scope: Scope, a: string) {
    match scope
    case ContextScope(_, _, _, _, held) => a in held
    case BypassScope(b, token) => token.Held? && a == b
    case AtomicScope(_) => false
  }

  /** The scope opened a frame on the alias. */
  predicate Owns(scope: Scope, a: string) {
    match scope
    case ContextScope(_, _, _, begun, _) => a in begun
    case BypassScope(b, token) => token.Held? && a in token.begun
    case AtomicScope(b) => a == b
  }

  /** The frames of an alias are those its open scopes own, each over a snapshot that agreed. */
  ghost predicate Frames(cfg: Settings, base: string, k: bool, s: Stack, a: string, postgres: bool, frames: seq<Vars>) {
    match s
    case Empty => frames == []
    case Push(top, rest) =>
      && (Needs(top, a) ==> frames != [])
      && if Owns(top, a) then
           && frames != []
           && Agrees(cfg, base, k, rest, a, postgres, frames[|frames| - 1])
           && Frames(cfg, base, k, rest, a, postgres, frames[..|frames| - 1])
         else Frames(cfg, base, k, rest, a, postgres, frames)
  }

  ghost predicate AliasInv(cfg: Settings, base: string, k: bool, s: Stack, a: string, c: Conn) {
    && Frames(cfg, base, k, s, a, c.postgres, c.frames)
    && (!c.aborted ==> Agrees(cfg, base, k, s, a, c.postgres, c.vars))
    && (c.aborted ==> c.postgres && c.frames != [])
    && (c.frames != [] ==> c.open)
    && (c.frames + [c.vars])[0] == NOTHING
  }

  /** The two ContextVars, and what each open scope remembers of them. */
  ghost predicate StackInv(cfg: Settings, base: string, s: Stack, current: Option<Tenant>, depth: map<string, nat>,
                           conns: Connections) {
    && current == Active(s)
    && (forall a :: DepthAt(depth, a) == Depth(s, a))
    && match s
       case Empty => true
       case Push(top, rest) =>
         match top
         case ContextScope(kind, t, previous, begun, held) =>
           && held <= HeldBySet(cfg, conns, t, BaseOf(kind, base))
           && (kind.Using? && cfg.wrapAtomic ==> held == HeldBySet(cfg, conns, t, base))
           && (kind.Request? && cfg.wrapAtomic && t.Some? && IsPostgres(conns, DEFAULT) ==> DEFAULT in held)
           && StackInv(cfg, base, rest, previous, depth, conns)
         case BypassScope(a, token) =>
           && (token.Held? ==>
                && IsPostgres(conns, a)
                && token.begun <= {a}
                && (token.alreadyActive <==> Depth(rest, a) > 0))
           && StackInv(cfg, base, rest, current, if token.Held? then token.previousDepth else depth, conns)
         case AtomicScope(a) =>
           StackInv(cfg, base, rest, current, depth, conns)
  }

  function HeldBySet(cfg: Settings, conns: Connections, t: Option<Tenant>, base: string): set<string> {
    set a | a in AliasesFor(cfg, t, base) && t.Some? && IsPostgres(conns, a)
  }

  /** Every open tenant scope has the run's base alias: a request's is always the default one. */
  ghost predicate OneBase(base: string, s: Stack) {
    match s
    case Empty => true
    case Push(top, rest) => (top.ContextScope? ==> BaseOf(top.kind, base) == base) && OneBase(base, rest)
  }

  /** Keys can be accounted for only where they are written at all, and from one base. */
  ghost predicate Keyed(cfg: Settings, base: string, s: Stack) {
    cfg.setSessionVar && OneBase(base, s)
  }

  /** `tracked`: the aliases whose keys are accounted for. */
  ghost predicate Inv(cfg: Settings, base: string, m: Machine, tracked: iset<string>) {
    && StackInv(cfg, base, m.stack, m.st.current, m.st.depth, m.st.conns)
    && AliasesInv(cfg, base, m.stack, m.st.conns, tracked)
    && (tracked != iset{} ==> Keyed(cfg, base, m.stack))
  }

  ghost predicate AliasesInv(cfg: Settings, base: string, s: Stack, conns: Connections, tracked: iset<string>) {
    forall a :: a in conns ==> AliasInv(cfg, base, a in tracked, s, a, conns[a])
  }

  /**
   The aliases an entry that raises leaves with the new key: written before the
   one that refused, in a transaction that was already open. `set` puts the
   ContextVar back but not them.
   */
  function LeftWritten(cfg: Settings, b: string, conns: Connections, t: Option<Tenant>): set<string> {
    var aliases := AliasesFor(cfg, t, b);
    var n := FirstRaising(cfg, conns, aliases);
    set a | a in aliases[..n] && t.Some? && n < |aliases| && IsPostgres(conns, a) && conns[a].InAtomicBlock()
  }

  function LeftBy(cfg: Settings, base: string, m: Machine, step: Step): set<string> {
    if step.EnterContext? then LeftWritten(cfg, BaseOf(step.kind, base), m.st.conns, step.tenant) else {}
  }

  predicate InTransaction(conns: Connections, a: string) {
    a in conns && conns[a].InAtomicBlock()
  }

  /** The aliases half-written in the transaction they are still in; `sofar` before the first step. */
  function HalfWritten(cfg: Settings, base: string, m: Machine, steps: seq<Step>, sofar: set<string>): set<string>
    decreases |steps|
  {
    if steps == [] then sofar
    else
      var m' := Next(cfg, base, m, steps[0]);
      HalfWritten(cfg, base, m', steps[1..],
                  set a | a in sofar + LeftBy(cfg, base, m, steps[0]) && InTransaction(m'.st.conns, a))
  }

  ghost function Except(lost: set<string>): iset<string> {
    iset a: string | a !in lost
  }

  /** Requests run beside scopes of the default base only. */
  predicate SameBase(base: string, step: Step) {
    step.EnterContext? && step.kind.Request? ==> base == DEFAULT
  }

  // ---- Facts about stacks ----

  /** An alias some open scope relies on is in a transaction. */
  lemma {:induction false} ReliedOnInTransaction(cfg: Settings, base: string, k: bool, s: Stack, a: string,
                                                 postgres: bool, frames: seq<Vars>)
    requires Frames(cfg, base, k, s, a, postgres, frames)
    ensures a in ActiveHeld(s) || Depth(s, a) > 0 ==> frames != []
  {
    if s.Push? {
      if Owns(s.top, a) {
      } else {
        ReliedOnInTransaction(cfg, base, k, s.rest, a, postgres, frames);
      }
    }
  }

  lemma {:induction false} ActiveIsCarried(cfg: Settings, base: string, s: Stack, a: string)
    requires Active(s).Some? && a in AliasesFor(cfg, Active(s), base)
    ensures Carried(cfg, base, s, a, Active(s).value.key)
  {
    if s.Push? && !s.top.ContextScope? {
      ActiveIsCarried(cfg, base, s.rest, a);
    }
  }

  lemma {:induction false} HeldIsTarget(cfg: Settings, base: string, s: Stack, current: Option<Tenant>,
                                        depth: map<string, nat>, conns: Connections)
    requires StackInv(cfg, base, s, current, depth, conns)
    ensures ActiveHeld(s) <= HeldBySet(cfg, conns, Active(s), base)
  {
    if s.Push? {
      match s.top
      case ContextScope(kind, t, _, _, _) =>
        assert HeldBySet(cfg, conns, t, BaseOf(kind, base)) <= HeldBySet(cfg, conns, t, base);
      case BypassScope(_, token) =>
        HeldIsTarget(cfg, base, s.rest, current, if token.Held? then token.previousDepth else depth, conns);
      case AtomicScope(_) =>
        HeldIsTarget(cfg, base, s.rest, current, depth, conns);
    }
  }

  /** `StackInv` looks at connections only for which aliases are PostgreSQL. */
  lemma {:induction false} StackInvVendor(cfg: Settings, base: string, s: Stack, current: Option<Tenant>,
                                          depth: map<string, nat>, conns: Connections, conns': Connections)
    requires StackInv(cfg, base, s, current, depth, conns)
    requires forall a :: IsPostgres(conns, a) <==> IsPostgres(conns', a)
    ensures StackInv(cfg, base, s, current, depth, conns')
  {
    if s.Push? {
      match s.top
      case ContextScope(kind, t, previous, _, _) =>
        assert HeldBySet(cfg, conns, t, base) == HeldBySet(cfg, conns', t, base);
        assert HeldBySet(cfg, conns, t, BaseOf(kind, base)) == HeldBySet(cfg, conns', t, BaseOf(kind, base));
        StackInvVendor(cfg, base, s.rest, previous, depth, conns, conns');
      case BypassScope(_, token) =>
        StackInvVendor(cfg, base, s.rest, current, if token.Held? then token.previousDepth else depth, conns, conns');
      case AtomicScope(_) =>
        StackInvVendor(cfg, base, s.rest, current, depth, conns, conns');
    }
  }

  /** What is claimed of an alias with its key is claimed without it. */
  lemma {:induction false} FramesForget(cfg: Settings, base: string, s: Stack, a: string, postgres: bool,
                                        frames: seq<Vars>)
    requires Frames(cfg, base, true, s, a, postgres, frames)
    ensures Frames(cfg, base, false, s, a, postgres, frames)
  {
    if s.Push? {
      FramesForget(cfg, base, s.rest, a, postgres, if Owns(s.top, a) then frames[..|frames| - 1] else frames);
    }
  }

  lemma Forget(cfg: Settings, base: string, k: bool, s: Stack, a: string, c: Conn)
    requires AliasInv(cfg, base, k, s, a, c)
    ensures AliasInv(cfg, base, false, s, a, c)
  {
    if k {
      FramesForget(cfg, base, s, a, c.postgres, c.frames);
    }
  }

  /** An alias outside any transaction holds nothing, so its key is accounted for again. */
  lemma {:induction false} IdleFrames(cfg: Settings, base: string, s: Stack, a: string, postgres: bool)
    requires Frames(cfg, base, false, s, a, postgres, [])
    ensures Frames(cfg, base, true, s, a, postgres, [])
  {
    if s.Push? {
      IdleFrames(cfg, base, s.rest, a, postgres);
    }
  }

  lemma IdleIsTracked(cfg: Settings, base: string, s: Stack, a: string, c: Conn)
    requires AliasInv(cfg, base, false, s, a, c) && !c.InAtomicBlock()
    ensures AliasInv(cfg, base, true, s, a, c)
  {
    IdleFrames(cfg, base, s, a, c.postgres);
    ReliedOnInTransaction(cfg, base, false, s, a, c.postgres, c.frames);
    assert c.vars == NOTHING;
  }

  // ---- Leaving a scope ----

  /** Leaving a frame its scope owns brings the alias back to what agreed when it was opened. */
  lemma EndKeepsInv(cfg: Settings, base: string, k: bool, top: Scope, rest: Stack, a: string, c: Conn, raised: bool)
    requires Owns(top, a)
    requires Frames(cfg, base, k, Push(top, rest), a, c.postgres, c.frames)
    requires !c.aborted ==> Agrees(cfg, base, k, rest, a, c.postgres, c.vars)
    requires c.open && (c.frames + [c.vars])[0] == NOTHING
    ensures AliasInv(cfg, base, k, rest, a, c.End(raised))
  {
    var n := |c.frames| - 1;
    assert c.frames[0] == NOTHING;
    if n > 0 {
      assert c.frames[..n][0] == NOTHING;
    }
  }

  /** What restoring the outer tenant makes of one connection, before any transaction ends. */
  function RestoredConn(cfg: Settings, b: string, previous: Option<Tenant>, a: string, c: Conn,
                        cleared: seq<string>): (r: Conn)
    ensures r.postgres == c.postgres && r.frames == c.frames && r.aborted == c.aborted && r.open == c.open
    ensures r.vars.admin == c.vars.admin && (c.frames == [] ==> r.vars == c.vars)
  {
    var c1 := if a in cleared then WriteConn(cfg, c, "") else c;
    if previous.Some? && a in AliasesFor(cfg, previous, b) then WriteConn(cfg, c1, previous.value.key) else c1
  }

  function EndedConn(begun: set<string>, a: string, c: Conn, raised: bool): (r: Conn)
    ensures r.postgres == c.postgres
  {
    if a in begun && c.InAtomicBlock() then c.End(raised) else c
  }

  /** The variables of a live alias after the inner scope's key is cleared and the outer one's written. */
  lemma RestoreAgrees(cfg: Settings, base: string, top: Scope, rest: Stack, a: string, c: Conn,
                      cleared: seq<string>, depth: map<string, nat>, conns: Connections)
    requires cfg.setSessionVar && top.ContextScope? && a in conns && conns[a] == c
    requires AliasInv(cfg, base, true, Push(top, rest), a, c) && !c.aborted
    requires StackInv(cfg, base, rest, top.previous, depth, conns)
    requires top.tenant.Some? ==> forall b :: b in AliasesFor(cfg, top.tenant, base) ==> b in cleared
    ensures Agrees(cfg, base, true, rest, a, c.postgres, RestoredConn(cfg, base, top.previous, a, c, cleared).vars)
  {
    HeldIsTarget(cfg, base, rest, top.previous, depth, conns);
    assert Depth(Push(top, rest), a) == Depth(rest, a);
    if c.frames == [] {
      assert c.vars == NOTHING;
      ReliedOnInTransaction(cfg, base, true, Push(top, rest), a, c.postgres, c.frames);
      ReliedOnInTransaction(cfg, base, true, rest, a, c.postgres, c.frames);
    } else if top.previous.Some? && a in AliasesFor(cfg, top.previous, base) {
      ActiveIsCarried(cfg, base, rest, a);
    }
  }

  lemma ContextExitAlias(cfg: Settings, base: string, k: bool, top: Scope, rest: Stack, a: string, c: Conn,
                         raised: bool,
                         depth: map<string, nat>, conns: Connections)
    requires top.ContextScope? && a in conns && conns[a] == c
    requires k ==> Keyed(cfg, base, Push(top, rest))
    requires AliasInv(cfg, base, k, Push(top, rest), a, c)
    requires StackInv(cfg, base, rest, top.previous, depth, conns)
    ensures AliasInv(cfg, base, k, rest, a, LeftConn(cfg, base, top, a, c, raised))
  {
    var cleared := ClearedAtExit(cfg, base, top);
    var c2 := RestoredConn(cfg, BaseOf(top.kind, base), top.previous, a, c, cleared);
    if !c.aborted && k {
      RestoreAgrees(cfg, base, top, rest, a, c, cleared, depth, conns);
    }
    assert Depth(Push(top, rest), a) == Depth(rest, a);
    if a in top.begun {
      EndKeepsInv(cfg, base, k, top, rest, a, c2, raised);
    }
  }

  function ClearedAtExit(cfg: Settings, base: string, top: Scope): seq<string>
    requires top.ContextScope?
  {
    var b := BaseOf(top.kind, base);
    if top.kind.Using? then AliasesFor(cfg, top.tenant, b) else ClearedBy(cfg, top.tenant, b)
  }

  function LeftConn(cfg: Settings, base: string, top: Scope, a: string, c: Conn, raised: bool): (r: Conn)
    requires top.ContextScope?
    ensures r.postgres == c.postgres
  {
    var cleared := ClearedAtExit(cfg, base, top);
    EndedConn(top.begun, a, RestoredConn(cfg, BaseOf(top.kind, base), top.previous, a, c, cleared), raised)
  }

  function LeftConns(cfg: Settings, base: string, top: Scope, conns: Connections, raised: bool): Connections
    requires top.ContextScope?
  {
    map a | a in conns :: LeftConn(cfg, base, top, a, conns[a], raised)
  }

  lemma RestoredConns(cfg: Settings, b: string, st: State, cleared: seq<string>, previous: Option<Tenant>)
    ensures RestoreState(cfg, st, cleared, previous, b)
         == State(previous, st.depth, map a | a in st.conns :: RestoredConn(cfg, b, previous, a, st.conns[a], cleared))
  {
  }

  lemma ContextExitShape(cfg: Settings, base: string, top: Scope, st: State, raised: bool)
    requires top.ContextScope? && st.current == top.tenant
    ensures ExitTop(cfg, base, st, top, raised)
         == State(top.previous, st.depth, LeftConns(cfg, base, top, st.conns, raised))
  {
    var b := BaseOf(top.kind, base);
    var cleared := ClearedAtExit(cfg, base, top);
    var st1 := RestoreState(cfg, st, cleared, top.previous, b);
    assert ExitTop(cfg, base, st, top, raised) == st1.(conns := CloseOn(st1.conns, top.begun, raised));
    RestoredConns(cfg, b, st, cleared, top.previous);
  }

  lemma ContextExitAliases(cfg: Settings, base: string, top: Scope, rest: Stack, conns: Connections,
                           depth: map<string, nat>, raised: bool, tracked: iset<string>)
    requires top.ContextScope? && (tracked != iset{} ==> Keyed(cfg, base, Push(top, rest)))
    requires AliasesInv(cfg, base, Push(top, rest), conns, tracked)
    requires StackInv(cfg, base, rest, top.previous, depth, conns)
    ensures AliasesInv(cfg, base, rest, LeftConns(cfg, base, top, conns, raised), tracked)
  {
    forall a | a in conns
      ensures AliasInv(cfg, base, a in tracked, rest, a, LeftConns(cfg, base, top, conns, raised)[a])
    {
      ContextExitAlias(cfg, base, a in tracked, top, rest, a, conns[a], raised, depth, conns);
    }
  }

  lemma ContextExitKeepsInv(cfg: Settings, base: string, top: Scope, rest: Stack, st: State, raised: bool,
                            tracked: iset<string>)
    requires top.ContextScope? && Inv(cfg, base, Machine(st, Push(top, rest)), tracked)
    ensures Inv(cfg, base, Machine(ExitTop(cfg, base, st, top, raised), rest), tracked)
  {
    var conns' := LeftConns(cfg, base, top, st.conns, raised);
    ContextExitShape(cfg, base, top, st, raised);
    ContextExitAliases(cfg, base, top, rest, st.conns, st.depth, raised, tracked);
    StackInvVendor(cfg, base, rest, top.previous, st.depth, st.conns, conns');
  }

  function UnflaggedConn(token: BypassToken, c: Conn): Conn {
    if token.Quiet? || token.alreadyActive || c.aborted then c
    else c.(open := true).SetConfig(c.vars.(admin := false))
  }

  /** Only the outermost bypass on the alias clears the flag. */
  lemma BypassExitAlias(cfg: Settings, base: string, k: bool, top: Scope, rest: Stack, c: Conn, raised: bool)
    requires top.BypassScope? && top.token.Held? && (top.token.alreadyActive <==> Depth(rest, top.alias) > 0)
    requires AliasInv(cfg, base, k, Push(top, rest), top.alias, c)
    ensures AliasInv(cfg, base, k, rest, top.alias,
                     EndedConn(top.token.begun, top.alias, UnflaggedConn(top.token, c), raised))
  {
    var c1 := UnflaggedConn(top.token, c);
    if top.alias in top.token.begun {
      EndKeepsInv(cfg, base, k, top, rest, top.alias, c1, raised);
    }
  }

  /** A scope that neither holds the alias nor owns a frame on it says nothing about it. */
  lemma UnrelatedAlias(cfg: Settings, base: string, k: bool, top: Scope, rest: Stack, a: string, c: Conn)
    requires !top.ContextScope? && !Needs(top, a) && !Owns(top, a)
    ensures AliasInv(cfg, base, k, Push(top, rest), a, c) <==> AliasInv(cfg, base, k, rest, a, c)
  {
  }

  lemma BypassExitShape(cfg: Settings, base: string, st: State, a: string, token: BypassToken, raised: bool)
    requires token.Held? && a in st.conns && token.begun <= {a}
    ensures ExitTop(cfg, base, st, BypassScope(a, token), raised) ==
            State(st.current, token.previousDepth,
                  st.conns[a := EndedConn(token.begun, a, UnflaggedConn(token, st.conns[a]), raised)])
  {
  }

  lemma BypassExitKeepsInv(cfg: Settings, base: string, top: Scope, rest: Stack, st: State, raised: bool,
                           tracked: iset<string>)
    requires top.BypassScope? && Inv(cfg, base, Machine(st, Push(top, rest)), tracked)
    ensures Inv(cfg, base, Machine(ExitTop(cfg, base, st, top, raised), rest), tracked)
  {
    if top.token.Quiet? {
      forall a | a in st.conns ensures AliasInv(cfg, base, a in tracked, rest, a, st.conns[a]) {
        UnrelatedAlias(cfg, base, a in tracked, top, rest, a, st.conns[a]);
      }
    } else {
      var c := EndedConn(top.token.begun, top.alias, UnflaggedConn(top.token, st.conns[top.alias]), raised);
      var conns' := st.conns[top.alias := c];
      BypassExitShape(cfg, base, st, top.alias, top.token, raised);
      BypassExitAlias(cfg, base, top.alias in tracked, top, rest, st.conns[top.alias], raised);
      forall a | a in conns' && a != top.alias ensures AliasInv(cfg, base, a in tracked, rest, a, conns'[a]) {
        UnrelatedAlias(cfg, base, a in tracked, top, rest, a, st.conns[a]);
      }
      StackInvVendor(cfg, base, rest, st.current, top.token.previousDepth, st.conns, conns');
    }
  }

  lemma AtomicExitAliases(cfg: Settings, base: string, top: Scope, rest: Stack, conns: Connections, raised: bool,
                          tracked: iset<string>)
    requires top.AtomicScope? && AliasesInv(cfg, base, Push(top, rest), conns, tracked)
    ensures AliasesInv(cfg, base, rest, CloseOn(conns, {top.alias}, raised), tracked)
  {
    var conns' := CloseOn(conns, {top.alias}, raised);
    forall a | a in conns' ensures AliasInv(cfg, base, a in tracked, rest, a, conns'[a]) {
      assert AliasInv(cfg, base, a in tracked, Push(top, rest), a, conns[a]);
      if a == top.alias {
        EndKeepsInv(cfg, base, a in tracked, top, rest, a, conns[a], raised);
      } else {
        UnrelatedAlias(cfg, base, a in tracked, top, rest, a, conns[a]);
      }
    }
  }

  lemma AtomicExitKeepsInv(cfg: Settings, base: string, top: Scope, rest: Stack, st: State, raised: bool,
                           tracked: iset<string>)
    requires top.AtomicScope? && Inv(cfg, base, Machine(st, Push(top, rest)), tracked)
    ensures Inv(cfg, base, Machine(ExitTop(cfg, base, st, top, raised), rest), tracked)
  {
    AtomicExitAliases(cfg, base, top, rest, st.conns, raised, tracked);
    StackInvVendor(cfg, base, rest, st.current, st.depth, st.conns, CloseOn(st.conns, {top.alias}, raised));
  }

  lemma ExitKeepsInv(cfg: Settings, base: string, m: Machine, raised: bool, tracked: iset<string>)
    requires m.stack.Push? && Inv(cfg, base, m, tracked)
    ensures Inv(cfg, base, Next(cfg, base, m, Exit(raised)), tracked)
  {
    var top, rest := m.stack.top, m.stack.rest;
    assert m == Machine(m.st, Push(top, rest));
    match top {
      case ContextScope(_, _, _, _, _) => ContextExitKeepsInv(cfg, base, top, rest, m.st, raised, tracked);
      case BypassScope(_, _) => BypassExitKeepsInv(cfg, base, top, rest, m.st, raised, tracked);
      case AtomicScope(_) => AtomicExitKeepsInv(cfg, base, top, rest, m.st, raised, tracked);
    }
  }

  // ---- Entering a scope ----

  function BegunConn(begun: set<string>, a: string, c: Conn): (r: Conn)
    ensures r.postgres == c.postgres
  {
    if a in begun then c.Begin() else c
  }

  function WrittenConn(cfg: Settings, begun: set<string>, a: string, c: Conn, written: seq<string>,
                       t: Option<Tenant>): (r: Conn)
    ensures r.postgres == c.postgres
  {
    var c1 := BegunConn(begun, a, c);
    if t.Some? && a in written then WriteConn(cfg, c1, t.value.key) else c1
  }

  lemma EnteredAlias(cfg: Settings, base: string, k: bool, s: Stack, a: string, c: Conn, scope: Scope)
    requires scope.ContextScope? && AliasInv(cfg, base, k, s, a, c)
    requires k ==> cfg.setSessionVar && BaseOf(scope.kind, base) == base
    requires a in scope.begun ==> c.frames == []
    requires a in AliasesFor(cfg, scope.tenant, BaseOf(scope.kind, base)) && scope.tenant.Some? ==>
               !(WriteIssued(cfg, BegunConn(scope.begun, a, c)) && c.aborted)
    requires a in scope.held ==>
               && scope.tenant.Some? && a in AliasesFor(cfg, scope.tenant, BaseOf(scope.kind, base))
               && c.postgres && (c.frames != [] || a in scope.begun)
    ensures
      var aliases := AliasesFor(cfg, scope.tenant, BaseOf(scope.kind, base));
      AliasInv(cfg, base, k, Push(scope, s), a, WrittenConn(cfg, scope.begun, a, c, aliases, scope.tenant))
  {
    ReliedOnInTransaction(cfg, base, k, s, a, c.postgres, c.frames);
    var s' := Push(scope, s);
    var c1 := BegunConn(scope.begun, a, c);
    assert Depth(s', a) == Depth(s, a);
    assert a in scope.begun ==> c1.frames[..|c1.frames| - 1] == c.frames;
    assert Frames(cfg, base, k, s', a, c.postgres, c1.frames);
    if !k {
      var aliases := AliasesFor(cfg, scope.tenant, BaseOf(scope.kind, base));
      assert WrittenConn(cfg, scope.begun, a, c, aliases, scope.tenant).frames == c1.frames;
    }
  }

  /** `k'`: the alias is still accounted for, unless the entry had written it inside an open transaction. */
  lemma FailedEntryAlias(cfg: Settings, base: string, k: bool, k': bool, s: Stack, a: string, c: Conn,
                         begun: set<string>, written: seq<string>, t: Option<Tenant>)
    requires AliasInv(cfg, base, k, s, a, c)
    requires a in begun ==> c.frames == []
    requires k' ==> k && !(t.Some? && a in written && c.postgres && c.frames != [])
    ensures AliasInv(cfg, base, k', s, a, EndedConn(begun, a, WrittenConn(cfg, begun, a, c, written, t), true))
  {
    if !k' {
      Forget(cfg, base, k, s, a, c);
    }
    if a in begun {
      assert [c.vars][..0] == c.frames;
    }
  }

  function WrittenConns(cfg: Settings, conns: Connections, begun: set<string>, written: seq<string>,
                        t: Option<Tenant>): Connections {
    map a | a in conns :: WrittenConn(cfg, begun, a, conns[a], written, t)
  }

  lemma WrittenShape(cfg: Settings, conns: Connections, begun: set<string>, written: seq<string>, t: Option<Tenant>)
    ensures WrittenConns(cfg, conns, begun, written, t)
         == if t.Some? then WriteOn(cfg, OpenOn(conns, begun), written, t.value.key) else OpenOn(conns, begun)
  {
  }

  /** The machine after an entry that succeeds, connection by connection. */
  lemma EnterShape(cfg: Settings, base: string, m: Machine, kind: Kind, t: Option<Tenant>)
    requires var b := BaseOf(kind, base); !EnterRaises(cfg, m.st, t, b, Atomics(cfg, kind, t, b))
    ensures
      var b := BaseOf(kind, base);
      var begun := Opened(cfg, m.st.conns, Atomics(cfg, kind, t, b));
      var conns' := WrittenConns(cfg, m.st.conns, begun, AliasesFor(cfg, t, b), t);
      Enter(cfg, base, m, kind, t)
        == Machine(State(t, m.st.depth, conns'),
                   Push(ContextScope(kind, t, m.st.current, begun, HeldBy(cfg, conns', t, b)), m.stack))
  {
    var b := BaseOf(kind, base);
    var begun := Opened(cfg, m.st.conns, Atomics(cfg, kind, t, b));
    WrittenShape(cfg, m.st.conns, begun, AliasesFor(cfg, t, b), t);
  }

  /** What an entry that raises had written before it raised. */
  function WrittenBefore(cfg: Settings, b: string, conns: Connections, t: Option<Tenant>): seq<string> {
    AliasesFor(cfg, t, b)[..FirstRaising(cfg, conns, AliasesFor(cfg, t, b))]
  }

  lemma FailedEnterShape(cfg: Settings, base: string, m: Machine, kind: Kind, t: Option<Tenant>)
    requires var b := BaseOf(kind, base); EnterRaises(cfg, m.st, t, b, Atomics(cfg, kind, t, b))
    ensures
      var b := BaseOf(kind, base);
      var begun := Opened(cfg, m.st.conns, Atomics(cfg, kind, t, b));
      var conns1 := WrittenConns(cfg, m.st.conns, begun, WrittenBefore(cfg, b, OpenOn(m.st.conns, begun), t), t);
      Enter(cfg, base, m, kind, t) == Machine(m.st.(conns := CloseOn(conns1, begun, true)), m.stack)
  {
    var b := BaseOf(kind, base);
    var begun := Opened(cfg, m.st.conns, Atomics(cfg, kind, t, b));
    WrittenShape(cfg, m.st.conns, begun, WrittenBefore(cfg, b, OpenOn(m.st.conns, begun), t), t);
  }

  /** Opening transactions changes nothing about which writes raise. */
  lemma {:induction false} FirstRaisingAfterOpen(cfg: Settings, base: string, s: Stack, conns: Connections,
                                                 tracked: iset<string>, begun: set<string>, aliases: seq<string>)
    requires AliasesInv(cfg, base, s, conns, tracked)
    requires forall a :: a in begun && a in conns ==> !conns[a].InAtomicBlock()
    ensures FirstRaising(cfg, OpenOn(conns, begun), aliases) == FirstRaising(cfg, conns, aliases)
    decreases |aliases|
  {
    if aliases != [] {
      var a := aliases[0];
      assert a in conns ==> AliasInv(cfg, base, a in tracked, s, a, conns[a]);
      assert WriteRaises(cfg, OpenOn(conns, begun), a) == WriteRaises(cfg, conns, a);
      FirstRaisingAfterOpen(cfg, base, s, conns, tracked, begun, aliases[1..]);
    }
  }

  lemma FailedEntryKeepsAliases(cfg: Settings, base: string, s: Stack, conns: Connections, begun: set<string>,
                                written: seq<string>, t: Option<Tenant>, tracked: iset<string>, tracked': iset<string>)
    requires AliasesInv(cfg, base, s, conns, tracked)
    requires forall a :: a in begun && a in conns ==> conns[a].frames == []
    requires forall a :: a in tracked' && a in conns ==>
      a in tracked && !(t.Some? && a in written && conns[a].postgres && conns[a].frames != [])
    ensures AliasesInv(cfg, base, s, CloseOn(WrittenConns(cfg, conns, begun, written, t), begun, true), tracked')
  {
    forall a | a in conns
      ensures AliasInv(cfg, base, a in tracked', s, a,
                       EndedConn(begun, a, WrittenConn(cfg, begun, a, conns[a], written, t), true))
    {
      FailedEntryAlias(cfg, base, a in tracked, a in tracked', s, a, conns[a], begun, written, t);
    }
  }

  /** What an entry adds to the aliases not accounted for. */
  ghost function After(cfg: Settings, base: string, m: Machine, step: Step, tracked: iset<string>): iset<string> {
    iset a | a in tracked && a !in LeftBy(cfg, base, m, step)
  }

  /** The connections after an entry that raises. */
  function RefusedConns(cfg: Settings, b: string, conns: Connections, begun: set<string>,
                        t: Option<Tenant>): Connections {
    CloseOn(WrittenConns(cfg, conns, begun, WrittenBefore(cfg, b, OpenOn(conns, begun), t), t), begun, true)
  }

  lemma RefusedKeepsAliases(cfg: Settings, base: string, b: string, s: Stack, conns: Connections, begun: set<string>,
                            t: Option<Tenant>, tracked: iset<string>, tracked': iset<string>)
    requires AliasesInv(cfg, base, s, conns, tracked) && t.Some?
    requires forall a :: a in begun && a in conns ==> !conns[a].InAtomicBlock()
    requires FirstRaising(cfg, OpenOn(conns, begun), AliasesFor(cfg, t, b)) < |AliasesFor(cfg, t, b)|
    requires forall a :: a in tracked' ==> a in tracked && a !in LeftWritten(cfg, b, conns, t)
    ensures AliasesInv(cfg, base, s, RefusedConns(cfg, b, conns, begun, t), tracked')
  {
    var written := WrittenBefore(cfg, b, OpenOn(conns, begun), t);
    FirstRaisingAfterOpen(cfg, base, s, conns, tracked, begun, AliasesFor(cfg, t, b));
    forall a | a in tracked' && a in conns ensures !(a in written && conns[a].postgres && conns[a].frames != []) {
      assert a !in LeftWritten(cfg, b, conns, t);
    }
    FailedEntryKeepsAliases(cfg, base, s, conns, begun, written, t, tracked, tracked');
  }

  lemma RefusedVendor(cfg: Settings, b: string, conns: Connections, begun: set<string>, t: Option<Tenant>)
    ensures forall a :: IsPostgres(conns, a) <==> IsPostgres(RefusedConns(cfg, b, conns, begun, t), a)
  {
  }

  lemma SameStack(cfg: Settings, base: string, m: Machine, conns: Connections, tracked: iset<string>,
                  tracked': iset<string>)
    requires Inv(cfg, base, m, tracked) && AliasesInv(cfg, base, m.stack, conns, tracked')
    requires forall a :: IsPostgres(m.st.conns, a) <==> IsPostgres(conns, a)
    requires tracked == iset{} ==> tracked' == iset{}
    ensures Inv(cfg, base, Machine(m.st.(conns := conns), m.stack), tracked')
  {
    StackInvVendor(cfg, base, m.stack, m.st.current, m.st.depth, m.st.conns, conns);
  }

  lemma FailedEntryKeepsInv(cfg: Settings, base: string, m: Machine, kind: Kind, t: Option<Tenant>,
                            tracked: iset<string>)
    requires Inv(cfg, base, m, tracked)
    requires var b := BaseOf(kind, base); EnterRaises(cfg, m.st, t, b, Atomics(cfg, kind, t, b))
    ensures Inv(cfg, base, Enter(cfg, base, m, kind, t), After(cfg, base, m, EnterContext(kind, t), tracked))
  {
    var b, conns := BaseOf(kind, base), m.st.conns;
    var begun := Opened(cfg, conns, Atomics(cfg, kind, t, b));
    var conns' := RefusedConns(cfg, b, conns, begun, t);
    var tracked' := After(cfg, base, m, EnterContext(kind, t), tracked);
    FailedEnterShape(cfg, base, m, kind, t);
    RefusedKeepsAliases(cfg, base, b, m.stack, conns, begun, t, tracked, tracked');
    RefusedVendor(cfg, b, conns, begun, t);
    assert tracked == iset{} ==> tracked' == iset{};
    SameStack(cfg, base, m, conns', tracked, tracked');
  }

  lemma EntryKeepsAliases(cfg: Settings, base: string, s: Stack, conns: Connections, scope: Scope,
                          tracked: iset<string>)
    requires scope.ContextScope? && AliasesInv(cfg, base, s, conns, tracked)
    requires tracked != iset{} ==> cfg.setSessionVar && BaseOf(scope.kind, base) == base
    requires forall a :: a in scope.begun ==> a in conns && !conns[a].InAtomicBlock()
    requires
      var aliases := AliasesFor(cfg, scope.tenant, BaseOf(scope.kind, base));
      && (scope.tenant.Some? ==> FirstRaising(cfg, OpenOn(conns, scope.begun), aliases) == |aliases|)
      && scope.held == HeldBy(cfg, WrittenConns(cfg, conns, scope.begun, aliases, scope.tenant), scope.tenant,
                              BaseOf(scope.kind, base))
    ensures
      var aliases := AliasesFor(cfg, scope.tenant, BaseOf(scope.kind, base));
      AliasesInv(cfg, base, Push(scope, s), WrittenConns(cfg, conns, scope.begun, aliases, scope.tenant), tracked)
  {
    var aliases := AliasesFor(cfg, scope.tenant, BaseOf(scope.kind, base));
    forall a | a in conns
      ensures AliasInv(cfg, base, a in tracked, Push(scope, s), a,
                       WrittenConn(cfg, scope.begun, a, conns[a], aliases, scope.tenant))
    {
      if a in aliases && scope.tenant.Some? {
        var i :| 0 <= i < |aliases| && aliases[i] == a;
        assert !WriteRaises(cfg, OpenOn(conns, scope.begun), aliases[i]);
      }
      EnteredAlias(cfg, base, a in tracked, s, a, conns[a], scope);
    }
  }

  /** An entry that succeeds has not left any alias half-written. */
  lemma NothingLeft(cfg: Settings, base: string, m: Machine, kind: Kind, t: Option<Tenant>, tracked: iset<string>)
    requires AliasesInv(cfg, base, m.stack, m.st.conns, tracked)
    requires var b := BaseOf(kind, base); !EnterRaises(cfg, m.st, t, b, Atomics(cfg, kind, t, b))
    ensures LeftBy(cfg, base, m, EnterContext(kind, t)) == {}
  {
    var b := BaseOf(kind, base);
    var begun := Opened(cfg, m.st.conns, Atomics(cfg, kind, t, b));
    FirstRaisingAfterOpen(cfg, base, m.stack, m.st.conns, tracked, begun, AliasesFor(cfg, t, b));
  }

  lemma EntryKeepsInv(cfg: Settings, base: string, m: Machine, kind: Kind, t: Option<Tenant>, tracked: iset<string>)
    requires Inv(cfg, base, m, tracked)
    requires tracked != iset{} ==> BaseOf(kind, base) == base
    requires var b := BaseOf(kind, base); !EnterRaises(cfg, m.st, t, b, Atomics(cfg, kind, t, b))
    ensures Inv(cfg, base, Enter(cfg, base, m, kind, t), tracked)
  {
    var b, conns := BaseOf(kind, base), m.st.conns;
    var begun := Opened(cfg, conns, Atomics(cfg, kind, t, b));
    var conns' := WrittenConns(cfg, conns, begun, AliasesFor(cfg, t, b), t);
    var scope := ContextScope(kind, t, m.st.current, begun, HeldBy(cfg, conns', t, b));
    EnterShape(cfg, base, m, kind, t);
    EntryKeepsAliases(cfg, base, m.stack, conns, scope, tracked);
    StackInvVendor(cfg, base, m.stack, m.st.current, m.st.depth, conns, conns');
    HeldAfterEntry(cfg, b, conns, kind, t);
  }

  lemma HeldAfterEntry(cfg: Settings, b: string, conns: Connections, kind: Kind, t: Option<Tenant>)
    ensures
      var begun := Opened(cfg, conns, Atomics(cfg, kind, t, b));
      var conns' := WrittenConns(cfg, conns, begun, AliasesFor(cfg, t, b), t);
      var held := HeldBy(cfg, conns', t, b);
      && held <= HeldBySet(cfg, conns', t, b)
      && (kind.Using? && cfg.wrapAtomic ==> held == HeldBySet(cfg, conns', t, b))
      && (kind.Request? && cfg.wrapAtomic && t.Some? && IsPostgres(conns', DEFAULT) ==> DEFAULT in held)
  {
  }

  // ---- Every step, and every run ----

  lemma BypassEntryAlias(cfg: Settings, base: string, k: bool, s: Stack, a: string, c: Conn, token: BypassToken,
                         begun: bool)
    requires AliasInv(cfg, base, k, s, a, c) && c.postgres && !c.aborted
    requires token.Held? && token.begun == if begun then {a} else {}
    requires if begun then c.frames == [] else c.frames != []
    ensures AliasInv(cfg, base, k, Push(BypassScope(a, token), s), a, FlagConn(if begun then c.Begin() else c))
  {
    var c1 := if begun then c.Begin() else c;
    if begun {
      assert c1.frames[..0] == c.frames;
    }
  }

  /** One connection changes under a scope that concerns only it. */
  lemma OneAliasChanges(cfg: Settings, base: string, scope: Scope, s: Stack, conns: Connections, a: string, c: Conn,
                        tracked: iset<string>)
    requires AliasesInv(cfg, base, s, conns, tracked) && !scope.ContextScope?
    requires forall b :: b != a ==> !Needs(scope, b) && !Owns(scope, b)
    requires AliasInv(cfg, base, a in tracked, Push(scope, s), a, c)
    ensures AliasesInv(cfg, base, Push(scope, s), conns[a := c], tracked)
  {
    forall b | b in conns && b != a ensures AliasInv(cfg, base, b in tracked, Push(scope, s), b, conns[b]) {
      UnrelatedAlias(cfg, base, b in tracked, scope, s, b, conns[b]);
    }
  }

  /** The machine after a bypass of a PostgreSQL alias begins. */
  lemma BypassEntryShape(cfg: Settings, base: string, m: Machine, a: string)
    requires IsPostgres(m.st.conns, a) && !BypassRaises(cfg, m.st, a)
    ensures Next(cfg, base, m, EnterBypass(a)) ==
      Machine(State(m.st.current, m.st.depth[a := DepthAt(m.st.depth, a) + 1],
                    m.st.conns[a := FlagConn(EnsuredConn(cfg, m.st.conns, a))]),
              Push(BypassScope(a, BypassTokenFor(cfg, m.st, a)), m.stack))
  {
  }

  lemma HeldBypassStack(cfg: Settings, base: string, s: Stack, st: State, a: string, conns: Connections)
    requires StackInv(cfg, base, s, st.current, st.depth, st.conns) && IsPostgres(st.conns, a)
    requires forall b :: IsPostgres(st.conns, b) <==> IsPostgres(conns, b)
    ensures StackInv(cfg, base, Push(BypassScope(a, BypassTokenFor(cfg, st, a)), s), st.current,
                     st.depth[a := DepthAt(st.depth, a) + 1], conns)
  {
    StackInvVendor(cfg, base, s, st.current, st.depth, st.conns, conns);
    OneAlias(cfg, st.conns, a);
    var scope := BypassScope(a, BypassTokenFor(cfg, st, a));
    assert Active(Push(scope, s)) == Active(s);
    forall b ensures DepthAt(st.depth[a := DepthAt(st.depth, a) + 1], b) == Depth(Push(scope, s), b) {
      assert DepthAt(st.depth, b) == Depth(s, b);
    }
  }

  lemma HeldBypassAliases(cfg: Settings, base: string, m: Machine, a: string, tracked: iset<string>)
    requires AliasesInv(cfg, base, m.stack, m.st.conns, tracked)
    requires IsPostgres(m.st.conns, a) && !BypassRaises(cfg, m.st, a)
    ensures AliasesInv(cfg, base, Push(BypassScope(a, BypassTokenFor(cfg, m.st, a)), m.stack),
                       m.st.conns[a := FlagConn(EnsuredConn(cfg, m.st.conns, a))], tracked)
  {
    var token := BypassTokenFor(cfg, m.st, a);
    var c := FlagConn(EnsuredConn(cfg, m.st.conns, a));
    BypassEntryAlias(cfg, base, a in tracked, m.stack, a, m.st.conns[a], token, OpensAtomic(cfg, m.st.conns, a));
    OneAliasChanges(cfg, base, BypassScope(a, token), m.stack, m.st.conns, a, c, tracked);
  }

  lemma BypassEntryKeepsInv(cfg: Settings, base: string, m: Machine, a: string, tracked: iset<string>)
    requires Inv(cfg, base, m, tracked) && !BypassRaises(cfg, m.st, a)
    ensures Inv(cfg, base, Next(cfg, base, m, EnterBypass(a)), tracked)
  {
    if IsPostgres(m.st.conns, a) {
      BypassEntryShape(cfg, base, m, a);
      HeldBypassStack(cfg, base, m.stack, m.st, a, m.st.conns[a := FlagConn(EnsuredConn(cfg, m.st.conns, a))]);
      HeldBypassAliases(cfg, base, m, a, tracked);
    } else {
      var scope := BypassScope(a, Quiet);
      forall b | b in m.st.conns ensures AliasInv(cfg, base, b in tracked, Push(scope, m.stack), b, m.st.conns[b]) {
        UnrelatedAlias(cfg, base, b in tracked, scope, m.stack, b, m.st.conns[b]);
      }
    }
  }

  lemma FailedBypassKeepsInv(cfg: Settings, base: string, m: Machine, a: string, tracked: iset<string>)
    requires Inv(cfg, base, m, tracked) && BypassRaises(cfg, m.st, a)
    ensures Inv(cfg, base, Next(cfg, base, m, EnterBypass(a)), tracked)
  {
    var conns := m.st.conns;
    assert AliasInv(cfg, base, a in tracked, m.stack, a, conns[a]);
    OneAlias(cfg, conns, a);
    assert !OpensAtomic(cfg, conns, a);
    CloseNone(conns[a := conns[a].(open := true)], true);
    SameStackOneAlias(cfg, base, m, a, conns[a].(open := true), tracked);
    assert Next(cfg, base, m, EnterBypass(a)) == m.(st := m.st.(conns := conns[a := conns[a].(open := true)]));
  }

  lemma AtomicEntryAlias(cfg: Settings, base: string, k: bool, s: Stack, a: string, c: Conn)
    requires AliasInv(cfg, base, k, s, a, c) && !c.aborted
    ensures AliasInv(cfg, base, k, Push(AtomicScope(a), s), a, c.Begin())
  {
    assert c.Begin().frames[..|c.frames|] == c.frames;
  }

  lemma AtomicEntryShape(cfg: Settings, base: string, m: Machine, a: string)
    requires a in m.st.conns && !m.st.conns[a].aborted
    ensures Next(cfg, base, m, EnterAtomic(a))
         == Machine(State(m.st.current, m.st.depth, m.st.conns[a := m.st.conns[a].Begin()]),
                    Push(AtomicScope(a), m.stack))
  {
    assert OpenOn(m.st.conns, {a}) == m.st.conns[a := m.st.conns[a].Begin()];
  }

  lemma AtomicEntryAliases(cfg: Settings, base: string, s: Stack, conns: Connections, a: string, tracked: iset<string>)
    requires AliasesInv(cfg, base, s, conns, tracked) && a in conns && !conns[a].aborted
    ensures AliasesInv(cfg, base, Push(AtomicScope(a), s), conns[a := conns[a].Begin()], tracked)
  {
    AtomicEntryAlias(cfg, base, a in tracked, s, a, conns[a]);
    OneAliasChanges(cfg, base, AtomicScope(a), s, conns, a, conns[a].Begin(), tracked);
  }

  lemma AtomicEntryStack(cfg: Settings, base: string, s: Stack, st: State, a: string)
    requires StackInv(cfg, base, s, st.current, st.depth, st.conns) && a in st.conns
    ensures StackInv(cfg, base, Push(AtomicScope(a), s), st.current, st.depth, st.conns[a := st.conns[a].Begin()])
  {
    StackInvVendor(cfg, base, s, st.current, st.depth, st.conns, st.conns[a := st.conns[a].Begin()]);
    assert Active(Push(AtomicScope(a), s)) == Active(s);
    forall b ensures DepthAt(st.depth, b) == Depth(Push(AtomicScope(a), s), b) {
      assert DepthAt(st.depth, b) == Depth(s, b);
    }
  }

  lemma Together(cfg: Settings, base: string, st: State, s: Stack, tracked: iset<string>)
    requires StackInv(cfg, base, s, st.current, st.depth, st.conns)
    requires AliasesInv(cfg, base, s, st.conns, tracked)
    requires tracked != iset{} ==> Keyed(cfg, base, s)
    ensures Inv(cfg, base, Machine(st, s), tracked)
  {
  }

  lemma AtomicEntered(cfg: Settings, base: string, st: State, s: Stack, a: string, tracked: iset<string>)
    requires Inv(cfg, base, Machine(st, s), tracked) && a in st.conns && !st.conns[a].aborted
    ensures Inv(cfg, base, Machine(State(st.current, st.depth, st.conns[a := st.conns[a].Begin()]),
                                   Push(AtomicScope(a), s)), tracked)
  {
    AtomicEntryAliases(cfg, base, s, st.conns, a, tracked);
    AtomicEntryStack(cfg, base, s, st, a);
    var st' := State(st.current, st.depth, st.conns[a := st.conns[a].Begin()]);
    Together(cfg, base, st', Push(AtomicScope(a), s), tracked);
  }

  lemma AtomicEntryKeepsInv(cfg: Settings, base: string, m: Machine, a: string, tracked: iset<string>)
    requires Inv(cfg, base, m, tracked)
    ensures Inv(cfg, base, Next(cfg, base, m, EnterAtomic(a)), tracked)
  {
    if a in m.st.conns && !m.st.conns[a].aborted {
      AtomicEntryShape(cfg, base, m, a);
      AtomicEntered(cfg, base, m.st, m.stack, a, tracked);
    }
  }

  /** What the surrounding code does to a connection: statements, failures, closing it. */
  lemma EnvironmentKeepsInv(cfg: Settings, base: string, m: Machine, step: Step, tracked: iset<string>)
    requires Inv(cfg, base, m, tracked)
    requires step.FailingStatement? || step.Statement? || step.Disconnect?
    ensures Inv(cfg, base, Next(cfg, base, m, step), tracked)
  {
    var a, conns := step.alias, m.st.conns;
    if a in conns {
      var c := if step.FailingStatement? then conns[a].Fail()
               else if step.Statement? then conns[a].(open := true)
               else if conns[a].InAtomicBlock() then conns[a]
               else conns[a].(open := false);
      SameStackOneAlias(cfg, base, m, a, c, tracked);
      assert Next(cfg, base, m, step) == m.(st := m.st.(conns := conns[a := c]));
    }
  }

  lemma SameStackOneAlias(cfg: Settings, base: string, m: Machine, a: string, c: Conn, tracked: iset<string>)
    requires Inv(cfg, base, m, tracked) && a in m.st.conns && c.postgres == m.st.conns[a].postgres
    requires AliasInv(cfg, base, a in tracked, m.stack, a, m.st.conns[a])
         ==> AliasInv(cfg, base, a in tracked, m.stack, a, c)
    ensures Inv(cfg, base, m.(st := m.st.(conns := m.st.conns[a := c])), tracked)
  {
    SameStack(cfg, base, m, m.st.conns[a := c], tracked, tracked);
  }

  /** Every step keeps the invariant, except of the keys of the aliases it leaves half-written. */
  lemma StepKeepsInv(cfg: Settings, base: string, m: Machine, step: Step, tracked: iset<string>)
    requires Inv(cfg, base, m, tracked) && (tracked != iset{} ==> SameBase(base, step))
    ensures Inv(cfg, base, Next(cfg, base, m, step), After(cfg, base, m, step, tracked))
  {
    var tracked' := After(cfg, base, m, step, tracked);
    match step
    case EnterContext(kind, t) =>
      if EnterRaises(cfg, m.st, t, BaseOf(kind, base), Atomics(cfg, kind, t, BaseOf(kind, base))) {
        FailedEntryKeepsInv(cfg, base, m, kind, t, tracked);
      } else {
        NothingLeft(cfg, base, m, kind, t, tracked);
        assert tracked' == tracked;
        EntryKeepsInv(cfg, base, m, kind, t, tracked);
      }
    case EnterBypass(a) =>
      assert tracked' == tracked;
      if BypassRaises(cfg, m.st, a) {
        FailedBypassKeepsInv(cfg, base, m, a, tracked);
      } else {
        BypassEntryKeepsInv(cfg, base, m, a, tracked);
      }
    case EnterAtomic(a) =>
      assert tracked' == tracked;
      AtomicEntryKeepsInv(cfg, base, m, a, tracked);
    case Exit(raised) =>
      assert tracked' == tracked;
      if m.stack.Push? {
        ExitKeepsInv(cfg, base, m, raised, tracked);
      }
    case _ =>
      assert tracked' == tracked;
      EnvironmentKeepsInv(cfg, base, m, step, tracked);
  }

  /** Frames, depths and flags keep their part of the invariant in every run whatever. */
  lemma {:induction false} RunKeepsFlags(cfg: Settings, base: string, m: Machine, steps: seq<Step>)
    requires Inv(cfg, base, m, iset{})
    ensures Inv(cfg, base, Run(cfg, base, m, steps), iset{})
    decreases |steps|
  {
    if steps != [] {
      StepKeepsInv(cfg, base, m, steps[0], iset{});
      assert After(cfg, base, m, steps[0], iset{}) == iset{};
      RunKeepsFlags(cfg, base, Next(cfg, base, m, steps[0]), steps[1..]);
    }
  }

  /** An alias that has left its last transaction is accounted for again. */
  lemma IdleAliasesAreTracked(cfg: Settings, base: string, m: Machine, lost: set<string>)
    requires Inv(cfg, base, m, Except(lost)) && Keyed(cfg, base, m.stack)
    ensures Inv(cfg, base, m, Except(set a | a in lost && InTransaction(m.st.conns, a)))
  {
    var lost' := set a | a in lost && InTransaction(m.st.conns, a);
    forall a | a in m.st.conns ensures AliasInv(cfg, base, a in Except(lost'), m.stack, a, m.st.conns[a]) {
      if a in lost && a !in lost' {
        IdleIsTracked(cfg, base, m.stack, a, m.st.conns[a]);
      }
    }
  }

  lemma StepKeepsBase(cfg: Settings, base: string, m: Machine, step: Step)
    requires Keyed(cfg, base, m.stack) && SameBase(base, step)
    ensures Keyed(cfg, base, Next(cfg, base, m, step).stack)
  {
  }

  /** The keys keep theirs on every alias not half-written in the transaction it is in. */
  lemma {:induction false} RunKeepsKeys(cfg: Settings, base: string, m: Machine, steps: seq<Step>, lost: set<string>)
    requires Inv(cfg, base, m, Except(lost)) && Keyed(cfg, base, m.stack)
    requires forall step :: step in steps ==> SameBase(base, step)
    ensures Inv(cfg, base, Run(cfg, base, m, steps), Except(HalfWritten(cfg, base, m, steps, lost)))
    ensures Keyed(cfg, base, Run(cfg, base, m, steps).stack)
    decreases |steps|
  {
    if steps != [] {
      var m' := Next(cfg, base, m, steps[0]);
      var lost1 := lost + LeftBy(cfg, base, m, steps[0]);
      StepKeepsInv(cfg, base, m, steps[0], Except(lost));
      StepKeepsBase(cfg, base, m, steps[0]);
      assert After(cfg, base, m, steps[0], Except(lost)) == Except(lost1);
      IdleAliasesAreTracked(cfg, base, m', lost1);
      RunKeepsKeys(cfg, base, m', steps[1..], set a | a in lost1 && InTransaction(m'.st.conns, a));
    }
  }

  /** A state that some run from outside any scope reaches: every prefix of a run is a run. */
  ghost predicate Reached(cfg: Settings, base: string, conns: Connections, steps: seq<Step>, m: Machine) {
    && (forall a :: a in conns ==> Fresh(conns[a]))
    && m == Run(cfg, base, Start(conns), steps)
  }

  lemma ReachedFlags(cfg: Settings, base: string, conns: Connections, steps: seq<Step>, m: Machine)
    requires Reached(cfg, base, conns, steps, m)
    ensures Inv(cfg, base, m, iset{})
  {
    RunKeepsFlags(cfg, base, Start(conns), steps);
  }

  /** The aliases a run has left half-written. */
  function Lost(cfg: Settings, base: string, conns: Connections, steps: seq<Step>): set<string> {
    HalfWritten(cfg, base, Start(conns), steps, {})
  }

  lemma ReachedKeys(cfg: Settings, base: string, conns: Connections, steps: seq<Step>, m: Machine)
    requires cfg.setSessionVar && Reached(cfg, base, conns, steps, m)
    requires forall step :: step in steps ==> SameBase(base, step)
    ensures Inv(cfg, base, m, Except(Lost(cfg, base, conns, steps)))
  {
    RunKeepsKeys(cfg, base, Start(conns), steps, {});
  }

  // ---- The theorems ----

  /** The innermost tenant scope, looking through bypasses and transaction blocks. */
  function InnermostKind(s: Stack): Option<Kind> {
    match s
    case Empty => None
    case Push(top, rest) => if top.ContextScope? then Some(top.kind) else InnermostKind(rest)
  }

  lemma {:induction false} HeldByKind(cfg: Settings, base: string, s: Stack, current: Option<Tenant>,
                                      depth: map<string, nat>, conns: Connections)
    requires StackInv(cfg, base, s, current, depth, conns) && cfg.wrapAtomic
    ensures InnermostKind(s) == Some(Using) ==> ActiveHeld(s) == HeldBySet(cfg, conns, Active(s), base)
    ensures InnermostKind(s) == Some(Request) && Active(s).Some? && IsPostgres(conns, DEFAULT) ==>
      DEFAULT in ActiveHeld(s)
  {
    if s.Push? {
      match s.top
      case ContextScope(_, _, _, _, _) =>
      case BypassScope(_, token) =>
        HeldByKind(cfg, base, s.rest, current, if token.Held? then token.previousDepth else depth, conns);
      case AtomicScope(_) =>
        HeldByKind(cfg, base, s.rest, current, depth, conns);
    }
  }

  /**
   Session agreement. Inside `using(t)`, at every point of every run, every
   live PostgreSQL alias of `t` is in a transaction, and carries t's key unless
   an entry that raised left it half-written in that very transaction; inside a
   request or a task the same holds of the default alias.
   */
  lemma SessionAgreement(cfg: Settings, base: string, conns: Connections, steps: seq<Step>, m: Machine, a: string)
    requires cfg.wrapAtomic && Reached(cfg, base, conns, steps, m)
    requires m.st.current.Some? && IsPostgres(m.st.conns, a) && !m.st.conns[a].aborted
    requires || (InnermostKind(m.stack) == Some(Using) && a in AliasesFor(cfg, m.st.current, base))
             || (InnermostKind(m.stack) == Some(Request) && a == DEFAULT)
    ensures m.st.conns[a].InAtomicBlock()
    ensures
      && cfg.setSessionVar && (forall step :: step in steps ==> SameBase(base, step))
      && a !in Lost(cfg, base, conns, steps)
      ==> m.st.conns[a].vars.tenant == m.st.current.value.key
  {
    ReachedFlags(cfg, base, conns, steps, m);
    HeldByKind(cfg, base, m.stack, m.st.current, m.st.depth, m.st.conns);
    ReliedOnInTransaction(cfg, base, false, m.stack, a, true, m.st.conns[a].frames);
    if cfg.setSessionVar && forall step :: step in steps ==> SameBase(base, step) {
      ReachedKeys(cfg, base, conns, steps, m);
    }
  }

  /** A key found on a live alias belongs to a tenant some open scope set there, unless the alias is half-written. */
  lemma NoStrayTenant(cfg: Settings, base: string, conns: Connections, steps: seq<Step>, m: Machine, a: string)
    requires cfg.setSessionVar && Reached(cfg, base, conns, steps, m)
    requires forall step :: step in steps ==> SameBase(base, step)
    requires a in m.st.conns && !m.st.conns[a].aborted && m.st.conns[a].vars.tenant != ""
    requires a !in Lost(cfg, base, conns, steps)
    ensures m.st.conns[a].postgres && Carried(cfg, base, m.stack, a, m.st.conns[a].vars.tenant)
  {
    ReachedKeys(cfg, base, conns, steps, m);
  }

  /** A balanced run, whatever failed in it, ends where it began: no tenant, no flag, no transaction, anywhere. */
  lemma BalancedRunLeavesNothing(cfg: Settings, base: string, conns: Connections, steps: seq<Step>, m: Machine)
    requires Reached(cfg, base, conns, steps, m) && m.stack.Empty?
    ensures m.st.current == None
    ensures forall a :: DepthAt(m.st.depth, a) == 0
    ensures forall a :: a in m.st.conns ==> Fresh(m.st.conns[a])
  {
    ReachedFlags(cfg, base, conns, steps, m);
  }

  /**
   In every run the flag of a live alias is set exactly while some bypass of it
   is open, and then in a transaction.
   */
  lemma BypassExactlyWhileOpen(cfg: Settings, base: string, conns: Connections, steps: seq<Step>, m: Machine, a: string)
    requires Reached(cfg, base, conns, steps, m)
    requires a in m.st.conns && !m.st.conns[a].aborted
    ensures DepthAt(m.st.depth, a) == Depth(m.stack, a)
    ensures m.st.conns[a].vars.admin <==> Depth(m.stack, a) > 0
    ensures m.st.conns[a].vars.admin ==> m.st.conns[a].InAtomicBlock()
  {
    ReachedFlags(cfg, base, conns, steps, m);
    ReliedOnInTransaction(cfg, base, false, m.stack, a, m.st.conns[a].postgres, m.st.conns[a].frames);
  }

  // ---- When an entry succeeds ----

  lemma PushIsDeeper(scope: Scope, s: Stack)
    ensures Push(scope, s) != s
  {
    assert Push(scope, s).rest < Push(scope, s);
  }

  /**
   A bypass of a PostgreSQL alias is refused exactly when the alias is aborted,
   or is in no transaction and none may be opened for it. Otherwise it is one
   deeper, whatever bypasses are open already, and the flag is set.
   */
  lemma BypassEntersExactlyWhen(cfg: Settings, base: string, m: Machine, a: string)
    requires Inv(cfg, base, m, iset{}) && IsPostgres(m.st.conns, a)
    ensures
      var m' := Next(cfg, base, m, EnterBypass(a));
      && (m'.stack == m.stack <==>
            m.st.conns[a].aborted || (!cfg.wrapAtomic && !m.st.conns[a].InAtomicBlock()))
      && (m'.stack != m.stack ==>
            && m'.stack.Push? && m'.stack.rest == m.stack
            && m'.stack.top.BypassScope? && m'.stack.top.alias == a && m'.stack.top.token.Held?
            && Depth(m'.stack, a) == Depth(m.stack, a) + 1 && DepthAt(m'.st.depth, a) == DepthAt(m.st.depth, a) + 1
            && a in m'.st.conns && m'.st.conns[a].InAtomicBlock() && m'.st.conns[a].vars.admin
            && m'.st.conns[a].vars.tenant == m.st.conns[a].vars.tenant)
  {
    assert AliasInv(cfg, base, false, m.stack, a, m.st.conns[a]);
    if !m.st.conns[a].InAtomicBlock() {
      assert m.st.conns[a].vars == NOTHING;
    }
    PushIsDeeper(BypassScope(a, BypassTokenFor(cfg, m.st, a)), m.stack);
    if !BypassRaises(cfg, m.st, a) {
      BypassEntryShape(cfg, base, m, a);
    }
  }

  /** Inside a bypass of a live alias another one begins, and ending it leaves the first in force. */
  lemma BypassesNest(cfg: Settings, base: string, conns: Connections, steps: seq<Step>, m: Machine, a: string,
                     raised: bool)
    requires Reached(cfg, base, conns, steps, m)
    requires Depth(m.stack, a) > 0 && IsPostgres(m.st.conns, a) && !m.st.conns[a].aborted
    ensures
      var inner := Next(cfg, base, m, EnterBypass(a));
      var outer := Next(cfg, base, inner, Exit(raised));
      && inner.stack != m.stack && Depth(inner.stack, a) == Depth(m.stack, a) + 1
      && outer.stack == m.stack && a in outer.st.conns && outer.st.conns[a].vars.admin
      && DepthAt(outer.st.depth, a) == DepthAt(m.st.depth, a)
  {
    ReachedFlags(cfg, base, conns, steps, m);
    ReliedOnInTransaction(cfg, base, false, m.stack, a, true, m.st.conns[a].frames);
    BypassEntersExactlyWhen(cfg, base, m, a);
    var inner := Next(cfg, base, m, EnterBypass(a));
    BypassEntryKeepsInv(cfg, base, m, a, iset{});
    InnerBypassEnds(cfg, base, m, a, raised);
  }

  lemma InnerBypassEnds(cfg: Settings, base: string, m: Machine, a: string, raised: bool)
    requires IsPostgres(m.st.conns, a) && !BypassRaises(cfg, m.st, a)
    requires DepthAt(m.st.depth, a) > 0 && m.st.conns[a].InAtomicBlock()
    ensures
      var outer := Next(cfg, base, Next(cfg, base, m, EnterBypass(a)), Exit(raised));
      && outer.stack == m.stack && outer.st.depth == m.st.depth
      && a in outer.st.conns && outer.st.conns[a].vars.admin
  {
    OneAlias(cfg, m.st.conns, a);
    BypassEntryShape(cfg, base, m, a);
    var inner := Next(cfg, base, m, EnterBypass(a));
    BypassExitShape(cfg, base, inner.st, a, inner.stack.top.token, raised);
  }

  /**
   A tenant scope is refused exactly when the session variable is in use and
   some PostgreSQL alias of the tenant is aborted. Otherwise the tenant is
   active, and its scope is the innermost one.
   */
  lemma EntersExactlyWhen(cfg: Settings, base: string, m: Machine, kind: Kind, t: Option<Tenant>)
    requires Inv(cfg, base, m, iset{})
    ensures
      var m' := Next(cfg, base, m, EnterContext(kind, t));
      && (m'.stack == m.stack <==>
            && t.Some? && cfg.setSessionVar
            && exists a :: a in AliasesFor(cfg, t, BaseOf(kind, base))
                           && IsPostgres(m.st.conns, a) && m.st.conns[a].aborted)
      && (m'.stack == m.stack ==> m'.st.current == m.st.current)
      && (m'.stack != m.stack ==>
            && m'.st.current == t && m'.stack.Push? && m'.stack.rest == m.stack
            && m'.stack.top.ContextScope? && m'.stack.top.kind == kind && m'.stack.top.tenant == t)
  {
    var b := BaseOf(kind, base);
    var begun := Opened(cfg, m.st.conns, Atomics(cfg, kind, t, b));
    var aliases := AliasesFor(cfg, t, b);
    FirstRaisingAfterOpen(cfg, base, m.stack, m.st.conns, iset{}, begun, aliases);
    RaisesExactlyWhen(cfg, m.st.conns, aliases);
    forall a | a in m.st.conns ensures m.st.conns[a].aborted ==> m.st.conns[a].open {
      assert AliasInv(cfg, base, false, m.stack, a, m.st.conns[a]);
    }
    if EnterRaises(cfg, m.st, t, b, Atomics(cfg, kind, t, b)) {
      FailedEnterShape(cfg, base, m, kind, t);
    } else {
      EnterShape(cfg, base, m, kind, t);
      PushIsDeeper(Enter(cfg, base, m, kind, t).stack.top, m.stack);
    }
  }

  /** The aliases a scope guarantees a transaction on. */
  predicate Guarantees(cfg: Settings, base: string, conns: Connections, step: Step, a: string) {
    match step
    case EnterContext(kind, t) =>
      (kind.Using? && a in AliasesFor(cfg, t, base)) || (kind.Request? && a == DEFAULT)
    case EnterBypass(b) => a == b && IsPostgres(conns, a)
    case _ => false
  }

  lemma EntryOpens(cfg: Settings, base: string, m: Machine, kind: Kind, t: Option<Tenant>, a: string)
    requires a in m.st.conns
    ensures
      var m' := Next(cfg, base, m, EnterContext(kind, t));
      && a in m'.st.conns
      && |m'.st.conns[a].frames| == |m.st.conns[a].frames| +
         if m'.stack != m.stack && Guarantees(cfg, base, m.st.conns, EnterContext(kind, t), a)
            && cfg.wrapAtomic && m.st.conns[a].frames == [] then 1 else 0
  {
    if EnterRaises(cfg, m.st, t, BaseOf(kind, base), Atomics(cfg, kind, t, BaseOf(kind, base))) {
      FailedEnterShape(cfg, base, m, kind, t);
    } else {
      EnterShape(cfg, base, m, kind, t);
      PushIsDeeper(Enter(cfg, base, m, kind, t).stack.top, m.stack);
    }
  }

  lemma BypassOpens(cfg: Settings, base: string, m: Machine, b: string, a: string)
    requires a in m.st.conns
    ensures
      var m' := Next(cfg, base, m, EnterBypass(b));
      && a in m'.st.conns
      && |m'.st.conns[a].frames| == |m.st.conns[a].frames| +
         if m'.stack != m.stack && a == b && IsPostgres(m.st.conns, a)
            && cfg.wrapAtomic && m.st.conns[a].frames == [] then 1 else 0
  {
    OneAlias(cfg, m.st.conns, b);
    PushIsDeeper(BypassScope(b, BypassTokenFor(cfg, m.st, b)), m.stack);
    if IsPostgres(m.st.conns, b) && !BypassRaises(cfg, m.st, b) {
      BypassEntryShape(cfg, base, m, b);
    }
  }

  /**
   A scope that begins opens one transaction on each alias it guarantees one on
   that is in none, when wrapping is on, and none elsewhere; a scope that is
   refused leaves no transaction open that was not.
   */
  lemma OpensOneTransactionExactlyWhen(cfg: Settings, base: string, m: Machine, step: Step, a: string)
    requires (step.EnterContext? || step.EnterBypass?) && a in m.st.conns
    ensures
      var m' := Next(cfg, base, m, step);
      && a in m'.st.conns
      && |m'.st.conns[a].frames| == |m.st.conns[a].frames| +
         if m'.stack != m.stack && Guarantees(cfg, base, m.st.conns, step, a)
            && cfg.wrapAtomic && m.st.conns[a].frames == [] then 1 else 0
  {
    match step
    case EnterContext(kind, t) => EntryOpens(cfg, base, m, kind, t, a);
    case EnterBypass(b) => BypassOpens(cfg, base, m, b, a);
  }

  // ---- With the session variable off ----

  /** No tenant on the connection, nor in any snapshot it may be rolled back to. */
  predicate NoTenant(c: Conn) {
    c.vars.tenant == "" && forall v <- c.frames :: v.tenant == ""
  }

  ghost predicate NoTenants(conns: Connections) {
    forall a :: a in conns ==> NoTenant(conns[a])
  }

  lemma WritesNothing(cfg: Settings, conns: Connections, aliases: seq<string>, key: string)
    requires !cfg.setSessionVar
    ensures WriteOn(cfg, conns, aliases, key) == conns
  {
  }

  lemma NoTenantOpened(conns: Connections, begun: set<string>)
    requires NoTenants(conns)
    ensures NoTenants(OpenOn(conns, begun))
  {
  }

  lemma NoTenantClosed(conns: Connections, begun: set<string>, raised: bool)
    requires NoTenants(conns)
    ensures NoTenants(CloseOn(conns, begun, raised))
  {
    forall a | a in conns && conns[a].InAtomicBlock() ensures NoTenant(conns[a].End(raised)) {
      var frames := conns[a].frames;
      assert frames[|frames| - 1] in frames;
    }
  }

  lemma EntryWritesNothing(cfg: Settings, base: string, m: Machine, kind: Kind, t: Option<Tenant>)
    requires !cfg.setSessionVar && NoTenants(m.st.conns)
    ensures NoTenants(Enter(cfg, base, m, kind, t).st.conns)
  {
    var b := BaseOf(kind, base);
    var begun := Opened(cfg, m.st.conns, Atomics(cfg, kind, t, b));
    var live := OpenOn(m.st.conns, begun);
    var aliases := AliasesFor(cfg, t, b);
    NoTenantOpened(m.st.conns, begun);
    RaisesExactlyWhen(cfg, live, aliases);
    if t.Some? {
      WritesNothing(cfg, live, aliases, t.value.key);
    }
  }

  lemma ExitWritesNothing(cfg: Settings, base: string, st: State, top: Scope, raised: bool)
    requires !cfg.setSessionVar && NoTenants(st.conns)
    ensures NoTenants(ExitTop(cfg, base, st, top, raised).conns)
  {
    match top
    case ContextScope(kind, t, previous, begun, _) =>
      var b := BaseOf(kind, base);
      var cleared := if kind.Using? then AliasesFor(cfg, t, b) else ClearedBy(cfg, st.current, b);
      WritesNothing(cfg, st.conns, cleared, "");
      if previous.Some? {
        WritesNothing(cfg, st.conns, AliasesFor(cfg, previous, b), previous.value.key);
      }
      NoTenantClosed(st.conns, begun, raised);
    case BypassScope(a, token) =>
      if a in st.conns && token.Held? {
        var conns' := st.conns[a := UnflaggedConn(token, st.conns[a])];
        assert NoTenant(st.conns[a]);
        NoTenantClosed(conns', token.begun, raised);
      }
    case AtomicScope(a) => NoTenantClosed(st.conns, {a}, raised);
  }

  lemma BypassWritesNothing(cfg: Settings, st: State, a: string)
    requires NoTenants(st.conns)
    ensures NoTenants(BypassEnterState(cfg, st, a).conns)
  {
    if IsPostgres(st.conns, a) {
      var c := EnsuredConn(cfg, st.conns, a);
      var flagged := st.conns[a := if c.aborted then c else FlagConn(c)];
      assert NoTenant(st.conns[a]);
      NoTenantClosed(flagged, Opened(cfg, st.conns, [a]), true);
    }
  }

  lemma StepWritesNothing(cfg: Settings, base: string, m: Machine, step: Step)
    requires !cfg.setSessionVar && NoTenants(m.st.conns)
    ensures NoTenants(Next(cfg, base, m, step).st.conns)
  {
    match step
    case EnterContext(kind, t) => EntryWritesNothing(cfg, base, m, kind, t);
    case EnterBypass(a) => BypassWritesNothing(cfg, m.st, a);
    case EnterAtomic(a) => NoTenantOpened(m.st.conns, {a});
    case Exit(raised) =>
      if m.stack.Push? {
        ExitWritesNothing(cfg, base, m.st, m.stack.top, raised);
      }
    case _ =>
      if step.alias in m.st.conns {
        assert NoTenant(m.st.conns[step.alias]);
      }
  }

  /** With the session variable off, no run ever puts a tenant on a connection. */
  lemma {:induction false} NothingIsWritten(cfg: Settings, base: string, m: Machine, steps: seq<Step>)
    requires !cfg.setSessionVar && NoTenants(m.st.conns)
    ensures NoTenants(Run(cfg, base, m, steps).st.conns)
    decreases |steps|
  {
    if steps != [] {
      StepWritesNothing(cfg, base, m, steps[0]);
      NothingIsWritten(cfg, base, Next(cfg, base, m, steps[0]), steps[1..]);
    }
  }

  // ---- After a rollback ----

  /** Rolling an aborted alias back to the enclosing block restores the active tenant's key. */
  lemma RolledBackAliasAgreesAgain(cfg: Settings, base: string, conns: Connections, steps: seq<Step>, m: Machine,
                                   a: string, raised: bool)
    requires cfg.setSessionVar && Reached(cfg, base, conns, steps, m)
    requires forall step :: step in steps ==> SameBase(base, step)
    requires m.stack.Push? && m.stack.top == AtomicScope(a) && a in m.st.conns
    requires m.st.current.Some? && a in ActiveHeld(m.stack) && a !in Lost(cfg, base, conns, steps)
    ensures
      var m' := Next(cfg, base, m, Exit(raised));
      && m'.st.current == m.st.current
      && !m'.st.conns[a].aborted && m'.st.conns[a].InAtomicBlock()
      && m'.st.conns[a].vars.tenant == m.st.current.value.key
  {
    var tracked := Except(Lost(cfg, base, conns, steps));
    ReachedKeys(cfg, base, conns, steps, m);
    ExitKeepsInv(cfg, base, m, raised, tracked);
    ReliedOnInTransaction(cfg, base, true, m.stack.rest, a, m.st.conns[a].postgres,
                          m.st.conns[a].frames[..|m.st.conns[a].frames| - 1]);
  }
}
