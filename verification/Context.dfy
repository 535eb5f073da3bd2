/**
 The tenant context: which tenant is active, on which connections its key is
 written, and how `set`, `clear`, `using` and `admin_bypass` move both. Each
 method of class `TenantContext` is proved equal to a function of the state
 before it; those functions say, alias by alias, what became of a connection.
 */
module Context {
  import opened Prelude
  import opened Connections

  /** A region of "" is a tenant without one. */
  datatype Tenant = Tenant(key: string, region: string)

  /** `regions` is empty when no regional routing is configured. */
  datatype Settings = Settings(regions: set<string>, wrapAtomic: bool, setSessionVar: bool)

  const DEFAULT := "default"

  // ---- Which aliases a tenant's key is written on ----

  function RegionalAlias(cfg: Settings, t: Option<Tenant>): Option<string> {
    if t.None? || cfg.regions == {} then None
    else if t.value.region == "" || t.value.region !in cfg.regions || t.value.region == DEFAULT then None
    else Some(t.value.region)
  }

  function TargetAliases(cfg: Settings, t: Option<Tenant>): seq<string> {
    match RegionalAlias(cfg, t)
    case None => [DEFAULT]
    case Some(r) => [DEFAULT, r]
  }

  /** The base alias first, then each target alias not already there. */
  function AliasesFor(cfg: Settings, t: Option<Tenant>, base: string): (aliases: seq<string>)
    ensures forall a :: a in aliases <==> a == base || a == DEFAULT || Some(a) == RegionalAlias(cfg, t)
    ensures forall i, j :: 0 <= i < j < |aliases| ==> aliases[i] != aliases[j]
  {
    Extended([base], TargetAliases(cfg, t))
  }

  /** `aliases`, then those of `targets` not yet listed. */
  function Extended(aliases: seq<string>, targets: seq<string>): (r: seq<string>)
    requires forall i, j :: 0 <= i < j < |aliases| ==> aliases[i] != aliases[j]
    ensures forall i, j :: 0 <= i < j < |r| ==> r[i] != r[j]
    ensures forall a :: a in r <==> a in aliases || a in targets
    decreases |targets|
  {
    if targets == [] then aliases
    else Extended(if targets[0] in aliases then aliases else aliases + [targets[0]], targets[1..])
  }

  // ---- What one call does to one connection ----

  /** `_set_db_session` and `_clear_db_session` issue their statement only here. */
  predicate WriteIssued(cfg: Settings, c: Conn) {
    cfg.setSessionVar && c.postgres && c.open
  }

  function WriteConn(cfg: Settings, c: Conn, key: string): Conn {
    if WriteIssued(cfg, c) && !c.aborted then c.SetConfig(c.vars.(tenant := key)) else c
  }

  predicate WriteRaises(cfg: Settings, conns: Connections, a: string) {
    a in conns && WriteIssued(cfg, conns[a]) && conns[a].aborted
  }

  /** `_ensure_atomic` opens a transaction exactly here; otherwise it is a null context. */
  predicate OpensAtomic(cfg: Settings, conns: Connections, a: string) {
    a in conns && cfg.wrapAtomic && !conns[a].InAtomicBlock()
  }

  // ---- What a call does to every connection ----

  function WriteOn(cfg: Settings, conns: Connections, aliases: seq<string>, key: string): Connections {
    map a | a in conns :: if a in aliases then WriteConn(cfg, conns[a], key) else conns[a]
  }

  function AsSet(s: seq<string>): set<string> {
    set a | a in s
  }

  function Opened(cfg: Settings, conns: Connections, aliases: seq<string>): set<string> {
    set a | a in aliases && OpensAtomic(cfg, conns, a)
  }

  function OpenOn(conns: Connections, begun: set<string>): Connections {
    map a | a in conns :: if a in begun then conns[a].Begin() else conns[a]
  }

  function CloseOn(conns: Connections, begun: set<string>, rollback: bool): Connections {
    map a | a in conns :: if a in begun && conns[a].InAtomicBlock() then conns[a].End(rollback) else conns[a]
  }

  /** Closing a stack of distinct aliases one at a time. */
  lemma CloseStep(conns: Connections, stack: seq<string>, i: nat, rollback: bool)
    requires i < |stack|
    requires forall j, k :: 0 <= j < k < |stack| ==> stack[j] != stack[k]
    requires stack[i] in conns && conns[stack[i]].InAtomicBlock()
    ensures
      var before := CloseOn(conns, AsSet(stack[i + 1..]), rollback);
      && before[stack[i]] == conns[stack[i]]
      && before[stack[i] := conns[stack[i]].End(rollback)] == CloseOn(conns, AsSet(stack[i..]), rollback)
  {
    assert stack[i..] == [stack[i]] + stack[i + 1..];
    assert stack[i] !in AsSet(stack[i + 1..]);
    assert AsSet(stack[i..]) == AsSet(stack[i + 1..]) + {stack[i]};
    CloseOneMore(conns, AsSet(stack[i + 1..]), stack[i], rollback);
  }

  lemma CloseOneMore(conns: Connections, begun: set<string>, a: string, rollback: bool)
    requires a in conns && conns[a].InAtomicBlock() && a !in begun
    ensures CloseOn(conns, begun, rollback)[a] == conns[a]
    ensures CloseOn(conns, begun, rollback)[a := conns[a].End(rollback)] == CloseOn(conns, begun + {a}, rollback)
  {
  }

  lemma CloseNone(conns: Connections, rollback: bool)
    ensures CloseOn(conns, {}, rollback) == conns
  {
  }

  lemma OneAlias(cfg: Settings, conns: Connections, a: string)
    ensures AsSet([a]) == {a}
    ensures Opened(cfg, conns, [a]) == if OpensAtomic(cfg, conns, a) then {a} else {}
  {
  }

  /** The position of the first alias whose write raises, or the length of the list. */
  function FirstRaising(cfg: Settings, conns: Connections, aliases: seq<string>): (k: nat)
    ensures k <= |aliases|
    ensures forall j :: 0 <= j < k ==> !WriteRaises(cfg, conns, aliases[j])
    ensures k < |aliases| ==> WriteRaises(cfg, conns, aliases[k])
  {
    if aliases == [] || WriteRaises(cfg, conns, aliases[0]) then 0
    else 1 + FirstRaising(cfg, conns, aliases[1..])
  }

  /** Writing a list one alias at a time. */
  lemma WriteStep(cfg: Settings, conns: Connections, aliases: seq<string>, i: nat, key: string)
    requires i < |aliases|
    ensures WriteOn(cfg, WriteOn(cfg, conns, aliases[..i], key), [aliases[i]], key)
         == WriteOn(cfg, conns, aliases[..i + 1], key)
    ensures WriteRaises(cfg, WriteOn(cfg, conns, aliases[..i], key), aliases[i]) == WriteRaises(cfg, conns, aliases[i])
  {
    assert forall a :: a in aliases[..i + 1] <==> a in aliases[..i] || a == aliases[i];
  }

  datatype State = State(current: Option<Tenant>, depth: map<string, nat>, conns: Connections)

  function DepthAt(depth: map<string, nat>, a: string): nat {
    if a in depth then depth[a] else 0
  }

  /** An open PostgreSQL connection whose transaction is aborted takes no statement. */
  predicate RefusesWrites(conns: Connections, a: string) {
    a in conns && conns[a].postgres && conns[a].open && conns[a].aborted
  }

  /** Some write of the list raises exactly when it reaches a connection that refuses them. */
  lemma {:induction false} RaisesExactlyWhen(cfg: Settings, conns: Connections, aliases: seq<string>)
    ensures FirstRaising(cfg, conns, aliases) < |aliases|
       <==> cfg.setSessionVar && exists a :: a in aliases && RefusesWrites(conns, a)
  {
    if aliases != [] {
      RaisesExactlyWhen(cfg, conns, aliases[1..]);
      assert forall a :: a in aliases <==> a == aliases[0] || a in aliases[1..];
      assert WriteRaises(cfg, conns, aliases[0]) <==> cfg.setSessionVar && RefusesWrites(conns, aliases[0]);
    }
  }

  // ---- set and clear ----

  predicate SetRaises(cfg: Settings, conns: Connections, t: Option<Tenant>, base: string) {
    var aliases := AliasesFor(cfg, t, base);
    t.Some? && FirstRaising(cfg, conns, aliases) < |aliases|
  }

  /**
   `set(None)` writes nothing. When a write raises, the ContextVar goes back
   and the aliases written before it keep the new key.
   */
  function SetState(cfg: Settings, st: State, t: Option<Tenant>, base: string): State {
    var aliases := AliasesFor(cfg, t, base);
    var k := FirstRaising(cfg, st.conns, aliases);
    if t.None? then st.(current := t)
    else if k < |aliases| then st.(conns := WriteOn(cfg, st.conns, aliases[..k], t.value.key))
    else st.(current := t, conns := WriteOn(cfg, st.conns, aliases, t.value.key))
  }

  /** Clear the removed tenant's aliases, then write the previous tenant's key on its own. */
  function RestoreState(cfg: Settings, st: State, cleared: seq<string>, previous: Option<Tenant>, base: string): State {
    var c1 := WriteOn(cfg, st.conns, cleared, "");
    var c2 := if previous.None? then c1
              else WriteOn(cfg, c1, AliasesFor(cfg, previous, base), previous.value.key);
    st.(current := previous, conns := c2)
  }

  function ClearedBy(cfg: Settings, active: Option<Tenant>, base: string): seq<string> {
    if active.Some? then AliasesFor(cfg, active, base) else [base]
  }

  // ---- using ----

  /** What a `using` block remembers between entry and exit. */
  datatype UsingToken = UsingToken(previous: Option<Tenant>, aliases: seq<string>, begun: set<string>)

  /** Enter a scope that guarantees a transaction on `atomics` and then sets the tenant. */
  predicate EnterRaises(cfg: Settings, st: State, t: Option<Tenant>, base: string, atomics: seq<string>) {
    SetRaises(cfg, OpenOn(st.conns, Opened(cfg, st.conns, atomics)), t, base)
  }

  /** A failed entry unwinds the transactions it opened, and only those. */
  function EnterState(cfg: Settings, st: State, t: Option<Tenant>, base: string, atomics: seq<string>): State {
    var begun := Opened(cfg, st.conns, atomics);
    var st2 := SetState(cfg, st.(conns := OpenOn(st.conns, begun)), t, base);
    if EnterRaises(cfg, st, t, base, atomics) then st2.(conns := CloseOn(st2.conns, begun, true)) else st2
  }

  function UsingExitState(cfg: Settings, st: State, token: UsingToken, base: string, raised: bool): State {
    var st1 := RestoreState(cfg, st, token.aliases, token.previous, base);
    st1.(conns := CloseOn(st1.conns, token.begun, raised))
  }

  /** Leave a scope through `clear(token)` rather than through `using`. */
  function ClearExitState(cfg: Settings, st: State, token: Option<Tenant>, base: string, begun: set<string>,
                          raised: bool): State {
    var st1 := RestoreState(cfg, st, ClearedBy(cfg, st.current, base), token, base);
    st1.(conns := CloseOn(st1.conns, begun, raised))
  }

  // ---- admin_bypass ----

  datatype BypassToken = Quiet | Held(alreadyActive: bool, begun: set<string>, previousDepth: map<string, nat>)

  predicate IsPostgres(conns: Connections, a: string) {
    a in conns && conns[a].postgres
  }

  /** The cursor opens the connection; the flag is then set for as long as its transaction. */
  function FlagConn(c: Conn): Conn {
    c.(open := true).SetConfig(c.vars.(admin := true))
  }

  function EnsuredConn(cfg: Settings, conns: Connections, a: string): Conn
    requires a in conns
  {
    if OpensAtomic(cfg, conns, a) then conns[a].Begin() else conns[a]
  }

  /** Either setting the flag fails, or the read-back does not show it. */
  predicate BypassRaises(cfg: Settings, st: State, a: string) {
    && IsPostgres(st.conns, a)
    && var c := EnsuredConn(cfg, st.conns, a);
       c.aborted || !FlagConn(c).vars.admin
  }

  function BypassEnterState(cfg: Settings, st: State, a: string): State {
    if !IsPostgres(st.conns, a) then st
    else
      var c := EnsuredConn(cfg, st.conns, a);
      var flagged := st.conns[a := if c.aborted then c else FlagConn(c)];
      if BypassRaises(cfg, st, a)
      then st.(conns := CloseOn(flagged, Opened(cfg, st.conns, [a]), true))
      else st.(conns := flagged, depth := st.depth[a := DepthAt(st.depth, a) + 1])
  }

  function BypassTokenFor(cfg: Settings, st: State, a: string): BypassToken {
    if !IsPostgres(st.conns, a) then Quiet
    else Held(DepthAt(st.depth, a) > 0, Opened(cfg, st.conns, [a]), st.depth)
  }

  function BypassExitState(st: State, a: string, token: BypassToken, raised: bool): State
    requires token.Held? ==> a in st.conns
  {
    if token.Quiet? then st
    else
      var c := st.conns[a];
      var c1 := if token.alreadyActive || c.aborted then c
                else c.(open := true).SetConfig(c.vars.(admin := false));
      st.(conns := CloseOn(st.conns[a := c1], token.begun, raised), depth := token.previousDepth)
  }

  /** The ContextVars, and the connections of this thread of control. */
  class TenantContext {
    const cfg: Settings
    var current: Option<Tenant>
    var depth: map<string, nat>
    var conns: Connections

    ghost function Abs(): State
      reads this
    {
      State(current, depth, conns)
    }

    constructor (cfg: Settings, conns: Connections)
      ensures this.cfg == cfg && Abs() == State(None, map[], conns)
    {
      this.cfg, this.current, this.depth, this.conns := cfg, None, map[], conns;
    }

    method Aliases(t: Option<Tenant>, base: string) returns (aliases: seq<string>)
      ensures aliases == AliasesFor(cfg, t, base)
    {
      aliases := [base];
      var targets := TargetAliases(cfg, t);
      for i := 0 to |targets|
        invariant base in aliases && forall j, k :: 0 <= j < k < |aliases| ==> aliases[j] != aliases[k]
        invariant Extended(aliases, targets[i..]) == AliasesFor(cfg, t, base)
      {
        if targets[i] != base && targets[i] !in aliases {
          aliases := aliases + [targets[i]];
        }
      }
    }

    /** `_set_db_session`, and with key "" `_clear_db_session`. */
    method WriteSession(a: string, key: string) returns (raised: bool)
      modifies this`conns
      ensures raised == WriteRaises(cfg, old(conns), a)
      ensures conns == WriteOn(cfg, old(conns), [a], key)
    {
      raised := false;
      if !cfg.setSessionVar || a !in conns || !conns[a].postgres {
        assert conns == WriteOn(cfg, conns, [a], key);
        return;
      }
      if conns[a].open {
        if conns[a].aborted {
          raised := true;
        } else {
          conns := conns[a := conns[a].SetConfig(conns[a].vars.(tenant := key))];
        }
      }
    }

    /** Write one key on a list of aliases, logging and swallowing what each write raises. */
    method WriteAllBestEffort(aliases: seq<string>, key: string)
      modifies this`conns
      ensures conns == WriteOn(cfg, old(conns), aliases, key)
    {
      for i := 0 to |aliases|
        invariant conns == WriteOn(cfg, old(conns), aliases[..i], key)
      {
        WriteStep(cfg, old(conns), aliases, i, key);
        var _ := WriteSession(aliases[i], key);
      }
      assert aliases[..|aliases|] == aliases;
    }

    /** Write one key on a list of aliases, up to the first write that raises. */
    method WriteUntilRaised(aliases: seq<string>, key: string) returns (raised: bool)
      modifies this`conns
      ensures raised <==> FirstRaising(cfg, old(conns), aliases) < |aliases|
      ensures conns == WriteOn(cfg, old(conns), aliases[..FirstRaising(cfg, old(conns), aliases)], key)
    {
      ghost var k := FirstRaising(cfg, conns, aliases);
      raised := false;
      for i := 0 to |aliases|
        invariant i <= k && conns == WriteOn(cfg, old(conns), aliases[..i], key)
      {
        WriteStep(cfg, old(conns), aliases, i, key);
        ghost var written := conns;
        raised := WriteSession(aliases[i], key);
        if raised {
          assert i == k && conns == written;
          return;
        }
      }
    }

    method Set(t: Option<Tenant>, base: string) returns (token: Result<Option<Tenant>, ()>)
      modifies this`current, this`conns
      ensures Abs() == SetState(cfg, old(Abs()), t, base)
      ensures token == if SetRaises(cfg, old(conns), t, base) then Err(()) else Ok(old(current))
      ensures token.Err? <==>
        && t.Some? && cfg.setSessionVar
        && exists a :: a in AliasesFor(cfg, t, base) && RefusesWrites(old(conns), a)
    {
      var before := current;
      current := t;
      token := Ok(before);
      if t.Some? {
        var aliases := Aliases(t, base);
        RaisesExactlyWhen(cfg, conns, aliases);
        assert aliases[..|aliases|] == aliases;
        var raised := WriteUntilRaised(aliases, t.value.key);
        if raised {
          current := before;
          token := Err(());
        }
      }
    }

    method Clear(token: Option<Tenant>, base: string)
      modifies this`current, this`conns
      ensures Abs() == RestoreState(cfg, old(Abs()), ClearedBy(cfg, old(current), base), token, base)
    {
      var active := current;
      current := token;
      var previous := current;
      var cleared := [base];
      if active.Some? {
        cleared := Aliases(active, base);
      }
      WriteAllBestEffort(cleared, "");
      if previous.Some? {
        var aliases := Aliases(previous, base);
        WriteAllBestEffort(aliases, previous.value.key);
      }
    }

    /** Enter `_ensure_atomic(a)`; the result says whether it opened a transaction. */
    method EnsureAtomic(a: string) returns (begun: bool)
      modifies this`conns
      ensures begun == OpensAtomic(cfg, old(conns), a)
      ensures conns == OpenOn(old(conns), if begun then {a} else {})
    {
      begun := a in conns && cfg.wrapAtomic && !conns[a].InAtomicBlock();
      if begun {
        conns := conns[a := conns[a].Begin()];
      }
    }

    /** Leave the transactions an ExitStack holds, last entered first. */
    method Unwind(stack: seq<string>, rollback: bool)
      requires forall a :: a in stack ==> a in conns && conns[a].InAtomicBlock()
      requires forall i, j :: 0 <= i < j < |stack| ==> stack[i] != stack[j]
      modifies this`conns
      ensures conns == CloseOn(old(conns), AsSet(stack), rollback)
    {
      var i := |stack|;
      while i > 0
        invariant 0 <= i <= |stack|
        invariant conns == CloseOn(old(conns), AsSet(stack[i..]), rollback)
      {
        i := i - 1;
        CloseStep(old(conns), stack, i, rollback);
        conns := conns[stack[i] := conns[stack[i]].End(rollback)];
      }
      assert stack[0..] == stack;
    }

    method OpenAll(aliases: seq<string>) returns (stack: seq<string>)
      requires forall i, j :: 0 <= i < j < |aliases| ==> aliases[i] != aliases[j]
      modifies this`conns
      ensures AsSet(stack) == Opened(cfg, old(conns), aliases)
      ensures conns == OpenOn(old(conns), AsSet(stack))
      ensures forall a :: a in stack ==> a in conns && conns[a].InAtomicBlock()
      ensures forall i, j :: 0 <= i < j < |stack| ==> stack[i] != stack[j]
    {
      stack := [];
      for i := 0 to |aliases|
        invariant forall a :: a in stack <==> a in aliases[..i] && OpensAtomic(cfg, old(conns), a)
        invariant conns == OpenOn(old(conns), AsSet(stack))
        invariant forall i, j :: 0 <= i < j < |stack| ==> stack[i] != stack[j]
      {
        assert forall a :: a in aliases[..i + 1] <==> a in aliases[..i] || a == aliases[i];
        assert aliases[i] !in stack;
        var begun := EnsureAtomic(aliases[i]);
        if begun {
          stack := stack + [aliases[i]];
        }
      }
      assert aliases[..|aliases|] == aliases;
    }

    method UsingEnter(t: Option<Tenant>, base: string) returns (r: Result<(UsingToken, seq<string>), ()>)
      modifies this`current, this`conns
      ensures Abs() == EnterState(cfg, old(Abs()), t, base, AliasesFor(cfg, t, base))
      ensures EnterRaises(cfg, old(Abs()), t, base, AliasesFor(cfg, t, base)) <==> r.Err?
      ensures r.Ok? ==>
        && r.value.0
           == UsingToken(old(current), AliasesFor(cfg, t, base), Opened(cfg, old(conns), AliasesFor(cfg, t, base)))
        && r.value.0.begun == AsSet(r.value.1)
        && forall i, j :: 0 <= i < j < |r.value.1| ==> r.value.1[i] != r.value.1[j]
    {
      var previous := current;
      var aliases := Aliases(t, base);
      var stack := OpenAll(aliases);
      var token := Set(t, base);
      if token.Err? {
        Unwind(stack, true);
        r := Err(());
      } else {
        r := Ok((UsingToken(previous, aliases, AsSet(stack)), stack));
      }
    }

    method UsingExit(token: UsingToken, stack: seq<string>, base: string, raised: bool)
      requires token.begun == AsSet(stack)
      requires forall a :: a in stack ==> a in conns && conns[a].InAtomicBlock()
      requires forall i, j :: 0 <= i < j < |stack| ==> stack[i] != stack[j]
      modifies this`current, this`conns
      ensures Abs() == UsingExitState(cfg, old(Abs()), token, base, raised)
    {
      current := token.previous;
      WriteAllBestEffort(token.aliases, "");
      if token.previous.Some? {
        var aliases := Aliases(token.previous, base);
        WriteAllBestEffort(aliases, token.previous.value.key);
      }
      Unwind(stack, raised);
    }

    /** A request or a task: `with _ensure_atomic(): token = set(tenant)`. */
    method RequestEnter(t: Option<Tenant>) returns (r: Result<(Option<Tenant>, bool), ()>)
      modifies this`current, this`conns
      ensures Abs() == EnterState(cfg, old(Abs()), t, DEFAULT, [DEFAULT])
      ensures r == if EnterRaises(cfg, old(Abs()), t, DEFAULT, [DEFAULT]) then Err(())
                   else Ok((old(current), OpensAtomic(cfg, old(conns), DEFAULT)))
      ensures r.Ok? && r.value.1 ==> DEFAULT in conns && conns[DEFAULT].InAtomicBlock()
    {
      OneAlias(cfg, conns, DEFAULT);
      var begun := EnsureAtomic(DEFAULT);
      var token := Set(t, DEFAULT);
      if token.Err? {
        CloseNone(conns, true);
        if begun {
          Unwind([DEFAULT], true);
        }
        r := Err(());
      } else {
        r := Ok((token.value, begun));
      }
    }

    /** Its end: `clear(token)`, then the transaction opened on entry. */
    method RequestExit(token: Option<Tenant>, begun: bool, raised: bool)
      requires begun ==> DEFAULT in conns && conns[DEFAULT].InAtomicBlock()
      modifies this`current, this`conns
      ensures Abs() == ClearExitState(cfg, old(Abs()), token, DEFAULT, if begun then {DEFAULT} else {}, raised)
    {
      Clear(token, DEFAULT);
      OneAlias(cfg, conns, DEFAULT);
      CloseNone(conns, raised);
      if begun {
        Unwind([DEFAULT], raised);
      }
    }

    method BypassEnter(a: string) returns (r: Result<BypassToken, ()>)
      modifies this`depth, this`conns
      ensures Abs() == BypassEnterState(cfg, old(Abs()), a)
      ensures r.Err? <==> BypassRaises(cfg, old(Abs()), a)
      ensures r.Err? <==>
        && IsPostgres(old(conns), a)
        && (old(conns)[a].aborted
            || !(cfg.wrapAtomic || old(conns)[a].InAtomicBlock() || old(conns)[a].vars.admin))
      ensures r.Ok? && IsPostgres(old(conns), a) ==> conns[a].vars.admin
      ensures r.Ok? ==> r.value == BypassTokenFor(cfg, old(Abs()), a)
    {
      if a !in conns || !conns[a].postgres {
        return Ok(Quiet);
      }
      OneAlias(cfg, conns, a);
      ghost var c := EnsuredConn(cfg, conns, a);
      var previousDepth := depth;
      var alreadyActive := DepthAt(depth, a) > 0;
      depth := depth[a := DepthAt(depth, a) + 1];
      var begun := EnsureAtomic(a);
      assert conns == old(conns)[a := c];
      var raised := conns[a].aborted;
      if !raised {
        // Set the flag, then read it back.
        conns := conns[a := FlagConn(conns[a])];
        raised := !conns[a].vars.admin;
      }
      assert conns == old(conns)[a := if c.aborted then c else FlagConn(c)];
      if raised {
        CloseNone(conns, true);
        if begun {
          Unwind([a], true);
        }
        depth := previousDepth;
        r := Err(());
      } else {
        r := Ok(Held(alreadyActive, if begun then {a} else {}, previousDepth));
      }
    }

    method BypassExit(a: string, token: BypassToken, raised: bool)
      requires token.Held? ==> a in conns && (token.begun == {} || (token.begun == {a} && conns[a].InAtomicBlock()))
      modifies this`depth, this`conns
      ensures Abs() == BypassExitState(old(Abs()), a, token, raised)
    {
      if token.Quiet? {
        return;
      }
      if !token.alreadyActive && !conns[a].aborted {
        conns := conns[a := conns[a].(open := true).SetConfig(conns[a].vars.(admin := false))];
      }
      OneAlias(cfg, conns, a);
      CloseNone(conns, raised);
      if token.begun != {} {
        Unwind([a], raised);
      }
      depth := token.previousDepth;
    }
  }
}
