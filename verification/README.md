# boundary: tenant isolation, modelled and proved

boundary keeps the rows of many tenants in one set of PostgreSQL tables. Three
things carry the claim that each tenant sees and changes only its own rows: a
context layer that writes the active tenant's key into a session variable of
every connection that tenant uses, an adoption operation that gives tables a
tenant column and the policies that compare it with the variable, and the
resolvers that decide which tenant a request belongs to. This project models
the three, and the router, the scoped manager and the deprovision command that
live on top of them.

**Context** (`Connections`, `Context`, `ContextRuns`, `ContextFailures`). A
connection has a vendor, an open flag, an aborted flag, two transaction-local
variables, and a stack of transaction frames that each snapshot the variables.
Class `TenantContext` follows `set`, `clear`, `using`, `admin_bypass`, the
middleware and the Celery wrapper statement by statement, clean-up failures
included. `ContextRuns` runs them in any well-nested order, mixed with
transaction blocks, failing statements and exceptions caught anywhere, and
keeps one invariant over all such runs. Its part about transactions and the
admin flag needs no hypothesis. Its part about tenant keys excepts the aliases
that an entry which raised left *half-written*: written with the new key, in a
transaction that was already open, before another alias refused it.
`ContextFailures` says exactly what such an entry breaks.

**Adoption** (`Catalogue`, `Adoption`, `AdoptionForward`, `AdoptionCalls`,
`AdoptionGates`, `AdoptionChecks`, `Isolation`, `IsolationEffects`,
`IsolationRuns`, `AdoptionReverse`, `AdoptionBackwards`, `CatalogueValid`,
`RlsOperations`). A table is its rows and the part of the catalogue that
decides who may see a row and which rows may coexist; each DDL statement either
fails or yields the changed table. The chain proved is: a forward that
completes establishes what check E007 decides, a silent E007 gives tables on
which only the tenant's own rows matter, and there any interleaving of tenants
looks to each as if it were alone. The alias may hold any other tables, and
other sessions may write while the tables are adopted. The reverse is
characterised for arbitrary writes in between, table by table and for a whole
app. What pass one refuses is an if-and-only-if on the tables it finds
(`AdoptionGates`), what one statement does to its tenant's rows is stated
outright (`IsolationEffects`), and what PostgreSQL keeps true of a table is
kept by every statement, also where an operation stops half-way
(`CatalogueValid`).

**Resolvers** (`HostParser`, `ResolverCache`, `ResolverHistory`,
`ResolverRuns`). Host parsing as a condition on strings; a bounded, timed,
invalidated cache against the plain database lookup, sequentially and with
threads interleaved.

**On top** (`Routing`, `ScopedWrites`, `TenantUnique`, `Deprovision`,
`DeprovisionRuns`). `Routing` joins the first two parts: at every point of a
run inside `using(t)`, a query of a tenant model reaches a connection on which
the policies alone and the manager's filter select the same rows.

`Prelude` holds the shared vocabulary. Classes follow the objects and module
state the code changes in place; each method is proved equal to a function of
the state before it, and the theorems are about those functions.

## Where an expected claim fails

- A `set()` that raises restores the ContextVar and nothing else
  (`src/boundary/context.py:186-197`), so an alias written before the failing one
  keeps the new key. `ContextFailures.HalfWrittenTenantSurvives` is a run that
  ends with one tenant active and another's key on a live connection, and
  `StrayTenantSurvives` one that ends with no tenant active and a key left over;
  `FailedEntryAgreesExactlyWhen` and `FailedEntryStraysExactlyWhen` give the
  exact conditions.
- E007's fifth condition reads an index's columns with its INCLUDE columns and
  without its expressions (`src/boundary/adoption.py:478-512`), so a unique index
  on an expression can pass as led by `tenant_id`:
  `AdoptionChecks.ExpressionIndexEscapes`, and `IsolationRuns.EscapedIndexCollides`
  for what that does to a tenant.
- A header value cached through the slug fallback survives the creation of a
  tenant whose primary key is that value: `ResolverRuns.HeaderGoesStale`.
- The deprovision command's comment says adopted rows go first
  (`src/boundary/management/commands/boundary_deprovision.py:76-80`); its list
  puts them last, in the order the app declares its models. Under autocommit each
  bare DELETE is committed at once, so where a declared parent precedes its child
  the run fails after the scoped rows are gone:
  `DeprovisionRuns.ParentTableFirstIsRefused`. The model follows the code.
- A row scoped through a nullable foreign key outlives its tenant when its
  parent's table is deleted first: `DeprovisionRuns.NulledPathOutlivesItsTenant`,
  with the exact condition in `OrderIsImmaterialExactlyWhen`.
- `get_or_create` and `update_or_create` write the active tenant into the
  caller's own `defaults`, so one dictionary reused under another tenant stamps
  the first: `ScopedWrites.ReusedDefaultsCrossTenants`, with the exact conditions
  in `InsertedRowCarriesTheFirstUser`, `UpdatedRowKeepsItsTenantExactlyWhen` and
  `UpsertedRowCarriesTheFirstUser`.

## Model

| member | source | states |
|---|---|---|
| `Context.AliasesFor` | src/boundary/context.py:204-216 | the aliases a tenant's key is written on: the base alias, `default`, and the regional alias, each once |
| `Context.TenantContext.Aliases` | src/boundary/context.py:204-216 | the loop over the target aliases yields exactly that list, base first |
| `Context.TenantContext.WriteSession` | src/boundary/context.py:331-370 | a write changes one connection, and raises exactly on an open PostgreSQL connection in an aborted transaction |
| `Context.TenantContext.WriteUntilRaised` | src/boundary/context.py:192-195 | the first alias whose write raises stops the loop; the aliases before it have been written, none after it |
| `Context.TenantContext.WriteAllBestEffort` | src/boundary/context.py:247-252 | clean-up writes reach every alias; what one raises does not stop the next |
| `Context.TenantContext.Set` | src/boundary/context.py:176-202 | `set`: the whole new state, and on a raise the ContextVar as before with the earlier aliases still written |
| `Context.TenantContext.Clear` | src/boundary/context.py:223-262 | `clear`: the outgoing tenant's aliases cleared, then the previous tenant's key written on its own aliases |
| `Context.TenantContext.EnsureAtomic` | src/boundary/context.py:121-170 | a transaction is opened exactly when none is open and wrapping is on |
| `Context.TenantContext.UsingEnter` | src/boundary/context.py:299-307 | entering `using`: transactions on every alias of the tenant, then the key; on a raise, exactly those transactions unwound |
| `Context.TenantContext.UsingExit` | src/boundary/context.py:308-328 | leaving `using`, by an exception or not: ContextVar, keys and transactions |
| `Context.TenantContext.RequestEnter` | src/boundary/middleware.py:134-136 | the middleware's and a task's entry: a transaction on `default` only, then `set` |
| `Context.TenantContext.RequestExit` | src/boundary/middleware.py:137-140 | their exit: `clear`, then the transaction opened on entry |
| `Context.TenantContext.BypassEnter` | src/boundary/context.py:535-574 | `admin_bypass` begins only with the flag read back as set; otherwise depth and transactions are as before |
| `Context.TenantContext.BypassExit` | src/boundary/context.py:585-614 | only the call that turned the flag on clears it, and a clear that fails is swallowed |
| `Context.TenantContext.Unwind` | src/boundary/context.py:304-306 | the transactions an entry opened end last first |
| `ContextRuns.RestoreAgrees` | src/boundary/context.py:311-328 | clearing the inner key and writing the outer one leaves every live alias carrying what the remaining scopes say |
| `ContextRuns.StepKeepsInv` | src/boundary/context.py:176-328 | every entry, exit, failure and statement keeps the invariant that ties connections and snapshots to open scopes, except of the keys of aliases it leaves half-written |
| `ContextRuns.RunKeepsFlags` | src/boundary/context.py:535-614 | frames, depths and flags keep their part of it in every run, whatever fails and whatever the settings |
| `ContextRuns.RunKeepsKeys` | src/boundary/context.py:176-328 | tenant keys keep theirs on every alias not half-written in the transaction it is in |
| `ContextRuns.SessionAgreement` | src/boundary/context.py:275-328 | inside `using(t)`, at every point of every run, every live PostgreSQL alias of t is in a transaction, and carries t's key unless a failed entry left it half-written in that very transaction; inside a request, `default` does |
| `ContextRuns.NoStrayTenant` | src/boundary/context.py:223-262 | in every run, a key on a live alias not half-written is that of a tenant some open scope set there |
| `ContextRuns.BalancedRunLeavesNothing` | src/boundary/context.py:299-328 | every balanced run, whatever failed in it, ends with no tenant, no depth, no transaction, and every variable empty |
| `ContextRuns.BypassExactlyWhileOpen` | src/boundary/context.py:548-614 | in every run the admin flag of a live alias is set exactly while a bypass of it is open, and then in a transaction |
| `ContextRuns.BypassEntersExactlyWhen` | src/boundary/context.py:548-574 | a bypass of a PostgreSQL alias is refused if and only if the alias is aborted, or is in no transaction and wrapping is off; otherwise it is one deeper, however many are open, with the flag set |
| `ContextRuns.BypassesNest` | src/boundary/context.py:585-614 | in every reached state a bypass inside a bypass of a live alias begins, and ending it leaves the outer one in force |
| `ContextRuns.EntersExactlyWhen` | src/boundary/context.py:176-202 | a tenant scope is refused if and only if the session variable is in use and a PostgreSQL alias of the tenant is aborted; refused, the old tenant is active, otherwise the new one |
| `ContextRuns.OpensOneTransactionExactlyWhen` | src/boundary/context.py:121-170 | a scope that begins opens one transaction where it guarantees one, none is open and wrapping is on, and nowhere else; a refused one leaves none behind |
| `ContextRuns.NothingIsWritten` | src/boundary/context.py:331-346 | with the session variable off no run puts a tenant key on any connection or in any snapshot |
| `ContextRuns.RolledBackAliasAgreesAgain` | src/boundary/context.py:318-328 | rolling an aborted alias back to the enclosing block restores the active tenant's key on it |
| `ContextFailures.FailedEntryAgreesExactlyWhen` | src/boundary/context.py:190-197 | an entry that raises keeps agreement exactly when no alias the active tenant relies on had already been given another key |
| `ContextFailures.HalfWrittenTenantSurvives` | src/boundary/context.py:190-197 | a concrete run after which tenant a is active again and the live default connection carries b |
| `ContextFailures.FailedEntryStraysExactlyWhen` | src/boundary/context.py:190-197 | an entry that raises leaves no stray key exactly when an open scope had already set that key on every alias it had written inside a transaction |
| `ContextFailures.StrayTenantSurvives` | src/boundary/context.py:190-197 | a concrete run after which no tenant is active and the live default connection carries b |
| `Routing.RegionalRouter.Route` | src/boundary/routing.py:78-115 | the alias of a query, and which fallback is added to the bounded set of those warned about |
| `Routing.RegionalRouter.WarnOnce` | src/boundary/routing.py:40-51 | a pair is logged exactly when it is not in the set, which never exceeds its cap |
| `Routing.RegionalRouter.RouteIn` | src/boundary/routing.py:168-181 | a query inside `specific_region`, with the pin put back after it |
| `Routing.RegionalRouter.RequireRegion` | src/boundary/routing.py:118-148 | an alias exactly when the tenant, given or active, names a configured region; otherwise an error |
| `Routing.LoggedOncePerPair` | src/boundary/routing.py:36-51 | up to the cap, over any sequence of fallbacks, a pair is logged at its first occurrence and never again |
| `Routing.RouteIsTheTenantsAlias` | src/boundary/context.py:34-56 | router and context layer name the same alias for a tenant's rows |
| `Routing.RoutedToRegionExactlyWhen` | src/boundary/routing.py:78-115 | a query goes to a region if and only if the region is configured and is pinned, or is the active tenant's and the model is a tenant model with no pin |
| `Routing.PinLeavesTheAliasesExactlyWhen` | src/boundary/routing.py:83-88 | a pinned region takes queries off the tenant's aliases exactly when it is configured and none of them |
| `Routing.ManagerSelectIsAllOrNothing` | src/boundary/models.py:272-289 | on any connection a scoped query returns all the tenant's wanted rows or none, according to the key and flag it carries |
| `Routing.RoutedQuerySeesTheTenantsRows` | src/boundary/models.py:272-289 | inside `using(t)`, at every point of every run where the connection is not half-written, RLS alone and RLS with the manager select the same rows: t's |
| `Routing.PinnedElsewhereFindsNothing` | src/boundary/routing.py:168-181 | pinned to a connection no open scope set a tenant on, a query finds nothing |
| `Catalogue.AddUniqueExactlyWhenValid` | src/boundary/migrations_ops.py:1088-1101 | on a valid table ADD UNIQUE succeeds exactly when the table it leads to is valid: fresh name, existing columns, no two rows equal and nowhere NULL in the key |
| `Catalogue.Stamp` | src/boundary/migrations_ops.py:998-999 | an unconditional UPDATE reaches exactly the rows the role may see, and reports how many |
| `CatalogueValid.StatementKeepsValid` | src/boundary/migrations_ops.py:1065-1101 | whoever runs it, a statement leaves a valid table valid: keys hold, no null where none may be |
| `CatalogueValid.AdoptionKeepsValid` | src/boundary/migrations_ops.py:945-1015 | whatever the plan says and however far it gets, the adoption of a table leaves it valid |
| `CatalogueValid.ReverseKeepsValid` | src/boundary/migrations_ops.py:1146-1230 | and so does its reverse |
| `CatalogueValid.LifecycleKeepsAllValid` | src/boundary/migrations_ops.py:715-740 | a pass two that stops anywhere, any statements of any sessions, a reverse that stops anywhere: every table is valid at each end |
| `Adoption.AdoptTenantApp.Models` | src/boundary/adoption.py:195-252 | the loop over an app's models keeps exactly the adoptable ones, in order |
| `Adoption.AdoptTenantApp.RouterAllowed` | src/boundary/migrations_ops.py:742-771 | a table the router denies drops out; the others stay in order |
| `Adoption.AdoptTenantApp.Validate` | src/boundary/migrations_ops.py:715-731 | pass one: a plan per table in order, or the first refusal |
| `AdoptionGates.PlannedExactlyWhen` | src/boundary/migrations_ops.py:867-943 | a table is planned if and only if it is there, has no tenant column, is not denied, has a backfill tenant for any row the role sees, and only unique forms that can be rewritten; skipped if and only if the column has the expected type |
| `AdoptionGates.RefusalsAreTrue` | src/boundary/migrations_ops.py:867-943 | every refusal names something that is so of the table |
| `AdoptionGates.PassOneExactlyWhen` | src/boundary/migrations_ops.py:715-731 | pass one succeeds if and only if each table can be planned or skipped |
| `AdoptionGates.OneRefusalRefusesAll` | src/boundary/migrations_ops.py:715-731 | one table that can be neither turns the call down with every table as it was |
| `Adoption.AdoptTenantApp.AddColumn` | src/boundary/migrations_ops.py:984-1015 | the one-shot and the three-step form, each up to the statement that fails |
| `Adoption.AdoptTenantApp.RewriteUniques` | src/boundary/migrations_ops.py:1088-1101 | each original dropped before its composite is added, up to the first failure |
| `Adoption.AdoptTenantApp.Adopt` | src/boundary/migrations_ops.py:945-982 | column, uniques, RLS after the backfill, policies |
| `Adoption.AdoptTenantApp.DatabaseForwards` | src/boundary/migrations_ops.py:664-740 | any refusal leaves the catalogue and the helper as they were; otherwise every planned table, with whatever other sessions wrote meanwhile |
| `AdoptionGates.DecidesExactlyWhen` | src/boundary/migrations_ops.py:664-731 | the operation gets past its gates if and only if the app is installed and not denied, has a model to adopt, and the router keeps all of them off or vendor, key type and every table admit it |
| `AdoptionGates.ForwardCompletesExactlyWhen` | src/boundary/migrations_ops.py:715-740 | on tables the role sees whole, a call completes if and only if each table is adopted already, or can be planned, kept its number of rows until locked, and carries neither policy |
| `Adoption.AdoptTenantApp.Unadopt` | src/boundary/migrations_ops.py:1146-1166 | the reverse of one table, untouched without the column |
| `Adoption.AdoptTenantApp.DatabaseBackwards` | src/boundary/migrations_ops.py:1105-1144 | an app no longer installed raises; then both gates, then every table up to the first failure |
| `AdoptionBackwards.EachTableByItself` | src/boundary/migrations_ops.py:1143-1166 | the reverse of an app completes if and only if it would on each table there, makes of each what it would alone, and leaves every other |
| `AdoptionBackwards.StopsPartWay` | src/boundary/migrations_ops.py:1143-1166 | one that fails has reversed the tables before some model, got part-way through that one, and not begun on the rest |
| `AdoptionBackwards.AppRoundTrip` | src/boundary/migrations_ops.py:664-740 | a forward that completed amid any writes, then the reverse: every table of the app as its lock found it but for constraint names, every other as it was, a second reverse the identity |
| `AdoptionBackwards.AppReverseExactlyWhen` | src/boundary/migrations_ops.py:1143-1230 | after any writes the reverse of an app completes if and only if on no table two tenants share a restored key |
| `AdoptionForward.WiderKeyStillUnique` | src/boundary/migrations_ops.py:1086 | putting a column in front of a key cannot create a duplicate |
| `AdoptionForward.RewritesReplace` | src/boundary/migrations_ops.py:1088-1101 | the rewrites that complete replace every unique by its tenant-led composite and nothing else |
| `AdoptionForward.RewritesSucceed` | src/boundary/migrations_ops.py:1088-1101 | on keys that hold, with fresh names, no rewrite can fail |
| `AdoptionForward.BackfillStampsEveryRow` | src/boundary/migrations_ops.py:984-1015 | whatever was inserted or deleted after the probe, an ADD COLUMN that completes stamped every row with the declared tenant, never the default |
| `AdoptionForward.RlsBeforeBackfillRefuses` | src/boundary/migrations_ops.py:945-961 | with forced RLS enabled first, the backfill would match no row and be refused |
| `AdoptionForward.KeysStillHold` | src/boundary/migrations_ops.py:984-1015 | the new column leaves every old key unique |
| `AdoptionForward.AdoptedShape` | src/boundary/migrations_ops.py:945-982 | an adoption that completes did exactly the column, the rows, the uniques, the flags and the two policies |
| `AdoptionForward.AdoptionCompletesExactlyWhen` | src/boundary/migrations_ops.py:984-1015 | it completes if and only if the rows are as many as probed, a backfill tenant exists for them, and neither the column nor a policy is there yet |
| `AdoptionCalls.ForwardIsOneByOne` | src/boundary/migrations_ops.py:715-740 | validate-all-then-write-all completes exactly when validating and writing table after table does, and then with the same result |
| `AdoptionCalls.EachPlanByItself` | src/boundary/migrations_ops.py:733-740 | amid any writes of other sessions, pass two completes exactly when each plan by itself does, and touches its own table alone |
| `AdoptionCalls.FailsPartWay` | src/boundary/migrations_ops.py:733-740 | a pass two that fails has adopted the tables before some plan, got part-way through that one, and not begun on the rest |
| `AdoptionCalls.TableByTable` | src/boundary/migrations_ops.py:715-740 | a call completes exactly when each table on its own would, and then makes of each what that table alone determines |
| `AdoptionCalls.SplittingMakesNoDifference` | src/boundary/migrations_ops.py:896-900 | one call equals any partition of its tables over several calls, in any order |
| `AdoptionCalls.SecondForwardIsIdentity` | src/boundary/migrations_ops.py:891-900 | a second forward changes nothing |
| `AdoptionChecks.CheckTable` | src/boundary/checks.py:1069-1164 | the E007 findings of one table, condition by condition, in order |
| `AdoptionChecks.CheckUniqueForms` | src/boundary/checks.py:1167-1236 | condition 5: constraints first, then the unique indexes no constraint backs |
| `AdoptionChecks.CheckConstraints` | src/boundary/checks.py:1186-1209 | findings and the set of constraint-backed names |
| `AdoptionChecks.CheckIndexes` | src/boundary/checks.py:1211-1234 | primary and constraint-backed indexes skipped |
| `AdoptionChecks.SilenceIsClean` | src/boundary/checks.py:1069-1164 | no finding if and only if the column, flags, policies and unique forms are as adoption leaves them |
| `AdoptionChecks.FoundExactlyWhen` | src/boundary/checks.py:1069-1236 | each kind of finding is reported if and only if the catalogue is in the state it names |
| `AdoptionChecks.OneFindingEach` | src/boundary/checks.py:1186-1234 | one finding for each constraint, then for each bare index, that the tenant column does not lead, in order |
| `AdoptionChecks.PlannedTableIsClean` | src/boundary/migrations_ops.py:715-740 | every table a forward planned and completed is silent under the check |
| `AdoptionChecks.CleanKeysHoldTenantExactlyWhen` | src/boundary/checks.py:1210-1218 | on a silent table every bare unique index compares the tenant exactly when each has a plain key column |
| `AdoptionChecks.ExpressionIndexEscapes` | src/boundary/checks.py:1211-1218 | a unique index on an expression that INCLUDEs tenant_id is not reported and does not compare the tenant |
| `IsolationRuns.EscapedIndexCollides` | src/boundary/checks.py:1211-1218 | on a table the check is silent about, tenant b's insert is a unique violation because of a's row, and would succeed on b's own rows |
| `Isolation.VisibleIsMine` | src/boundary/migrations_ops.py:91-131 | under the two policies a session of tenant v sees and may write exactly v's rows |
| `Isolation.ObjectionSeesOwn` | src/boundary/migrations_ops.py:1065-1101 | only the tenant's own rows can make one of its writes fail |
| `Isolation.UpdateSeesOwn` | src/boundary/migrations_ops.py:91-131 | a row-by-row UPDATE acts on the tenant's part alone, errors included |
| `Isolation.OwnTableOnly` | src/boundary/migrations_ops.py:91-131 | any one statement returns and does what it would on a table of the tenant's own rows, and leaves every other row |
| `Isolation.UnsetChangesNothing` | src/boundary/migrations_ops.py:91-131 | without a tenant no statement changes an isolated table |
| `IsolationEffects.SelectReturnsItsRows` | src/boundary/migrations_ops.py:91-131 | a query returns exactly the tenant's rows that match, in order |
| `IsolationEffects.InsertAcceptedExactlyWhen` | src/boundary/migrations_ops.py:91-131 | an insert is accepted if and only if it names existing columns, the row is the tenant's own, the table with it is valid and no bare unique index objects; it adds that row |
| `IsolationEffects.UpdateAcceptedExactlyWhen` | src/boundary/migrations_ops.py:91-131 | an update is refused if and only if a row it changes would leave the tenant, hold a forbidden null, or repeat a key of the rows as they then stand |
| `IsolationEffects.UpdateChangesItsRows` | src/boundary/migrations_ops.py:91-131 | otherwise it changes the named columns of the tenant's matching rows, and no other row, and counts them |
| `IsolationEffects.DeleteTakesItsRows` | src/boundary/migrations_ops.py:91-131 | a delete takes exactly the tenant's rows that match, and counts them |
| `IsolationEffects.AccessExactlyWhen` | src/boundary/migrations_ops.py:91-131 | a row is seen, and may be written, by an exempt role, under the admin flag, and by its own tenant, and by nobody else |
| `IsolationEffects.MineAloneExactlyWhenForced` | src/boundary/migrations_ops.py:351-364 | with boundary's policies every session sees its own tenant's rows alone if and only if RLS is both enabled and forced |
| `IsolationRuns.OthersLeaveOwn` | src/boundary/migrations_ops.py:91-131 | another tenant's statement leaves the tenant's part of every table as it was |
| `IsolationRuns.SharedIsAlone` | src/boundary/migrations_ops.py:91-131 | non-interference: in any interleaving of tenants, and of statements under no tenant, each tenant gets the results, errors and rows it would get alone |
| `IsolationRuns.AgreeingDatabasesLookAlike` | src/boundary/migrations_ops.py:91-131 | databases that agree on v's rows cannot be told apart by v |
| `IsolationRuns.CleanIsIsolated` | src/boundary/checks.py:1069-1236 | no E007 finding, boundary's policies and no expression-only unique index give isolation |
| `IsolationRuns.SharedRestricts` | src/boundary/migrations_ops.py:742-771 | statements on some tables of an alias run as if the others were not there, and leave them alone |
| `IsolationRuns.AdoptionIsolates` | src/boundary/migrations_ops.py:664-740 | from a completed forward, amid other sessions' writes, to a silent check and non-interference on the app's tables, every other table of the alias untouched |
| `AdoptionReverse.RestoresExactlyWhen` | src/boundary/migrations_ops.py:1215-1230 | restoring succeeds if and only if each column list is declared once and no two rows collide on one |
| `AdoptionReverse.RestoringTwiceFails` | src/boundary/migrations_ops.py:1215-1226 | a column list declared twice makes the reverse fail: the live constraints are read once |
| `AdoptionReverse.ReverseExactlyWhen` | src/boundary/migrations_ops.py:1146-1230 | the whole reverse after any writes: when it succeeds, and what it leaves |
| `AdoptionReverse.OnlyOtherTenantsCollide` | src/boundary/migrations_ops.py:168-206 | rows that kept the composites collide on an original key only across tenants |
| `AdoptionReverse.ReverseAfterWrites` | src/boundary/migrations_ops.py:1146-1230 | so the reverse succeeds exactly when no two tenants share a restored non-null key |
| `AdoptionReverse.RoundTrip` | src/boundary/migrations_ops.py:1105-1230 | backwards after forwards restores rows, columns, flags, policies and the set of unique column lists; a second backwards is the identity |
| `RlsOperations.DatabaseForwards` | src/boundary/migrations_ops.py:351-567 | the three operations, forwards, behind both gates, the helper function included |
| `RlsOperations.DatabaseBackwards` | src/boundary/migrations_ops.py:366-567 | and backwards: the helper is never dropped, and is created again when a drop is reversed |
| `RlsOperations.UndoneExactlyWhen` | src/boundary/migrations_ops.py:439-475 | a reverse undoes its operation exactly when the table was as the operation expects |
| `RlsOperations.BackwardsUndoesForwards` | src/boundary/migrations_ops.py:529-567 | a list that fits is undone by running it backwards |
| `RlsOperations.BackwardsRetraces` | src/boundary/migrations_ops.py:351-382 | and every intermediate state is met again |
| `RlsOperations.RetracesExactlyWhen` | src/boundary/migrations_ops.py:351-382 | a list retraces all its states if and only if every operation in it fits |
| `RlsOperations.EnableThenPolicyIsolatesExactlyWhen` | src/boundary/migrations_ops.py:351-458 | `EnableRLS` and `CreateTenantPolicy` complete and isolate a table if and only if it carried no policy and every key holds the tenant column |
| `RlsOperations.DroppedPoliciesFailClosed` | src/boundary/migrations_ops.py:529-538 | without its policies a table shows nothing to anyone RLS applies to, and takes no write from them |
| `HostParser.SlugForConfiguredParent` | src/boundary/resolvers.py:81-104 | returns s exactly when s has no dot and the host is s, a dot, and a configured parent in lower case |
| `HostParser.SlugOfHost` | src/boundary/resolvers.py:110-137 | the slug of a raw host with or without configured parents, as a condition on strings, malformed hosts included |
| `HostParser.NormalExactlyWhen` | src/boundary/resolvers.py:111-115 | a raw host has a normal form if and only if it is that name in some letter case, with any dots after it and perhaps a port |
| `HostParser.NormalIsItself` | src/boundary/resolvers.py:111-115 | a name with no colon, no trailing dot and no capital is its own normal form |
| `HostParser.PortIsDropped` | src/boundary/resolvers.py:111 | whatever follows a colon makes no difference |
| `HostParser.TrailingDotIsDropped` | src/boundary/resolvers.py:112-115 | nor does a dot at the end of the name |
| `HostParser.AnyHostNamesItsLabel` | src/boundary/resolvers.py:110-137 | a label above a configured parent is what the host names, in any letter case of either, with any dots after it and any port |
| `HostParser.JoinSplit` | src/boundary/resolvers.py:99-102 | joining what split returned gives the host back |
| `HostParser.SplitFirst` | src/boundary/resolvers.py:99-102 | a dotless head and a rest split to the head and the labels of the rest |
| `HostParser.NoEmptyLabel` | src/boundary/resolvers.py:125-127 | no label is empty exactly when the host neither begins nor ends with a dot nor holds two together |
| `HostParser.ThreeLabels` | src/boundary/resolvers.py:134-137 | at least three labels, read off the string |
| `HostParser.SlugIsUnique` | src/boundary/resolvers.py:100-103 | whichever parent matches, the slug is the same, so order does not matter |
| `ResolverCache.Cache.Get` | src/boundary/resolvers.py:24-34 | a hit within the time to live; an expired entry is removed |
| `ResolverCache.Cache.OldestEntry` | src/boundary/resolvers.py:41 | the first entry with the least timestamp |
| `ResolverCache.Cache.Set` | src/boundary/resolvers.py:37-43 | the entries after a store; without capacity and without entries it raises |
| `ResolverCache.Cache.Invalidate` | src/boundary/resolvers.py:46-52 | exactly the entries of that tenant go |
| `ResolverCache.SetIs` | src/boundary/resolvers.py:37-43 | a store keeps keys distinct and the bound, and evicts only the oldest, only for a new key at capacity |
| `ResolverHistory.ForgetsOnlyTheOldest` | src/boundary/resolvers.py:37-43 | after any history the bound holds, a hit is the last live store, and a live key is missing only if capacity-many other keys were stored at or after it |
| `ResolverHistory.CacheIsAQueue` | src/boundary/resolvers.py:37-43 | where each store is later than the last, whatever reads and invalidations share its time, the cache holds what an oldest-store-first queue holds |
| `ResolverHistory.StoredIsFound` | src/boundary/resolvers.py:24-52 | a stored tenant is what a read of its key finds while its time has not passed, it was neither replaced nor invalidated, and fewer than capacity-many other keys were stored since |
| `ResolverRuns.Resolve` | src/boundary/resolvers.py:144-156 | cache, lookup, store: the result and the cache after |
| `ResolverRuns.RememberedExactlyWhileFresh` | src/boundary/resolvers.py:24-43 | what a lookup found is returned without another for exactly the time to live; what it did not find is asked for again |
| `ResolverRuns.CachedIsUncached` | src/boundary/resolvers.py:256-267 | in every run of resolutions, saves, deletes and clock steps, subdomain and session resolution return what the database would |
| `ResolverRuns.SaveKeepsAllExactlyWhen` | src/boundary/apps.py:50-62 | a save keeps every entry current exactly when it takes no primary key under which a header value is cached by slug |
| `ResolverRuns.CachedHeaderIsUncached` | src/boundary/resolvers.py:162-197 | in runs with no such save, header resolution is coherent too |
| `ResolverRuns.HeaderGoesStale` | src/boundary/resolvers.py:174-197 | a concrete run in which it is not |
| `ResolverRuns.HitsAreRecentAndOfTheirKey` | src/boundary/resolvers.py:24-43 | with threads interleaved between lookup and store, a hit was stored no earlier than the time to live allows, and for that key |
| `Deprovision.Closure` | src/boundary/management/commands/boundary_deprovision.py:86 | what an ORM delete takes: a superset closed under cascading foreign keys |
| `Deprovision.Command.CollectAffected` | src/boundary/management/commands/boundary_deprovision.py:138-153 | the tables with rows of the tenant, with their counts, in order |
| `DeprovisionRuns.AdoptedRowsAre` | src/boundary/management/commands/boundary_deprovision.py:155-186 | an adopted row counts as the tenant's if and only if its raw column holds that tenant's key |
| `DeprovisionRuns.ScopedRowsAre` | src/boundary/management/commands/boundary_deprovision.py:138-145 | a scoped row if and only if the foreign keys of its path lead to that tenant |
| `DeprovisionRuns.ShownInOrder` | src/boundary/management/commands/boundary_deprovision.py:138-153 | an operator is shown exactly the tables that hold a row of the tenant, in their order |
| `DeprovisionRuns.ShownExactlyWhen` | src/boundary/management/commands/boundary_deprovision.py:138-153 | each with the number of its rows |
| `Deprovision.Command.ExportRows` | src/boundary/management/commands/boundary_deprovision.py:303-313 | one line per row of the table, in any order |
| `Deprovision.Command.Export` | src/boundary/management/commands/boundary_deprovision.py:230-248 | the file holds exactly the lines of every table |
| `Deprovision.Command.DeleteRows` | src/boundary/management/commands/boundary_deprovision.py:81-86 | a scoped table by cascade; an adopted one by a bare DELETE, refused when a reference would dangle |
| `Deprovision.Command.Handle` | src/boundary/management/commands/boundary_deprovision.py:44-88 | a dry run and an unconfirmed run change nothing; a confirmed one exports from the state before the first delete, then deletes |
| `DeprovisionRuns.ClosureIsLeast` | src/boundary/management/commands/boundary_deprovision.py:86 | an ORM delete takes nothing it need not |
| `DeprovisionRuns.CascadeTwice` | src/boundary/management/commands/boundary_deprovision.py:81-87 | deleting twice is deleting the union once |
| `DeprovisionRuns.RunIsOneCascade` | src/boundary/management/commands/boundary_deprovision.py:81-87 | a completed run is one cascade from the tenant and the rows its tables still reach in the order they come |
| `DeprovisionRuns.TablesTakeAllExactlyWhen` | src/boundary/management/commands/boundary_deprovision.py:81-86 | any list of tables, so any prefix of the run, is one cascade from all the tenant's rows in them exactly when each is reached or goes with one that is |
| `DeprovisionRuns.OrderIsImmaterialExactlyWhen` | src/boundary/management/commands/boundary_deprovision.py:81-87 | the same of the whole run and the tenant |
| `DeprovisionRuns.InTimeTakesAll` | src/boundary/management/commands/boundary_deprovision.py:81-87 | so it is wherever no table comes after one that cuts a path to its rows, and in any order where every path cascades |
| `DeprovisionRuns.NothingOfTheTenantIsLeft` | src/boundary/management/commands/boundary_deprovision.py:76-87 | after a completed run no scoped or adopted table holds a row of the tenant |
| `DeprovisionRuns.OthersKeptExactlyWhen` | src/boundary/management/commands/boundary_deprovision.py:76-87 | every other row is in place and unchanged if and only if none of them refers to a row that goes |
| `DeprovisionRuns.OnlyTheTenantGoesExactlyWhen` | src/boundary/management/commands/boundary_deprovision.py:76-87 | where all the tenant's rows go: if and only if none of the others refers to them, and then exactly those go |
| `DeprovisionRuns.OtherAdoptedRowIsKept` | src/boundary/management/commands/boundary_deprovision.py:170-186 | an adopted row that holds another tenant's key is in place and unchanged after a completed run that keeps what it refers to |
| `DeprovisionRuns.OtherScopedRowIsKept` | src/boundary/management/commands/boundary_deprovision.py:81-86 | so is a scoped row whose foreign keys lead to another tenant |
| `DeprovisionRuns.ReferencesHold` | src/boundary/management/commands/boundary_deprovision.py:81-87 | a completed run leaves no reference to a row that is gone |
| `DeprovisionRuns.CompletesExactlyWhen` | src/boundary/management/commands/boundary_deprovision.py:81-87 | the run completes if and only if whatever refers to an adopted row of the tenant is deleted no later than it; refused, it has already deleted the scoped rows |
| `DeprovisionRuns.CountsSumToTheRows` | src/boundary/management/commands/boundary_deprovision.py:218-222 | the counts of a dry run sum to the number of the tenant's rows |
| `DeprovisionRuns.ExportIsExactlyTheRows` | src/boundary/management/commands/boundary_deprovision.py:224-249 | the export has one line for each row of the tenant and no other |
| `DeprovisionRuns.ParentTableFirstIsRefused` | src/boundary/management/commands/boundary_deprovision.py:170-186 | two adopted tables, parent listed before child: refused; child first: completes |
| `DeprovisionRuns.NulledPathOutlivesItsTenant` | src/boundary/management/commands/boundary_deprovision.py:81-86 | a row scoped through a nullable foreign key outlives the tenant when its parent's table comes first |
| `TenantUnique.TenantUniqueConstraint.Clone` | src/boundary/models.py:708-721 | a copy is a new object with the same two lists |
| `TenantUnique.TenantUniqueConstraint.Resolve` | src/boundary/models.py:723-764 | what a preparation makes of the field list, and exactly when it raises |
| `TenantUnique.ResolveAll` | src/boundary/models.py:840-851 | the receiver resolves every constraint of a model, or raises and has changed none |
| `TenantUnique.TenantColumnLeadsOnce` | src/boundary/models.py:708-764 | after any history of copies and preparations each object holds the author's fields led once by the first tenant column its own line met |
| `ScopedWrites.TenantManager.BulkCreate` | src/boundary/models.py:291-306 | objects without a tenant get the active one, in place, and every object is inserted |
| `ScopedWrites.TenantManager.BulkUpdateObjects` | src/boundary/models.py:308-327 | refused at the first object of another tenant, before any update |
| `ScopedWrites.TenantManager.GetOrCreateObject` | src/boundary/models.py:329-338 | the tenant is written into the caller's own dictionary, then the lookup, then perhaps the insert |
| `ScopedWrites.TenantManager.UpdateOrCreateObject` | src/boundary/models.py:340-347 | the same with both dictionaries, which may be one object |
| `ScopedWrites.TenantManager.Inject` | src/boundary/models.py:349-365 | never overwrites a tenant the caller named |
| `ScopedWrites.OtherTenantsRowsAreKept` | src/boundary/models.py:272-365 | over any run of scoped reads and writes a row stays as it was while its own tenant is not active |
| `ScopedWrites.QuerysetReachesExactly` | src/boundary/models.py:272-289 | a queryset's update and delete reach the active tenant's rows that match, and no other |
| `ScopedWrites.AllOrNothing` | src/boundary/models.py:308-327 | `bulk_update` is refused exactly for another tenant's object, then changes nothing, and never moves a row between tenants |
| `ScopedWrites.BulkUpdateWritesExactly` | src/boundary/models.py:308-327 | accepted, it writes the named fields of the first object with a key to the tenant's row of that key, and nothing else |
| `ScopedWrites.GetsOrCreates` | src/boundary/models.py:329-338 | the one row that answers, an error where several do, and where none does one more row, the defaults over the lookup; every other row as it was |
| `ScopedWrites.UpdatesTheOneAnswer` | src/boundary/models.py:340-347 | `update_or_create` puts the defaults over the fields of the one row that answers, and leaves every other |
| `ScopedWrites.CreatesOtherwise` | src/boundary/models.py:340-347 | and does what `get_or_create` does with the creating dictionary where none or several answer |
| `ScopedWrites.CreatedRowsCarryTheirTenant` | src/boundary/models.py:291-306 | an inserted object carries the tenant the caller named, or else the active one |
| `ScopedWrites.InsertedRowCarriesTheFirstUser` | src/boundary/models.py:329-365 | a row `get_or_create` inserts carries the first tenant that passed the dictionary in: the active one exactly when nobody else had |
| `ScopedWrites.UpdatedRowKeepsItsTenantExactlyWhen` | src/boundary/models.py:340-365 | a row `update_or_create` finds is left with the first tenant that passed the defaults in: it keeps its own exactly when nobody else had |
| `ScopedWrites.UpsertedRowCarriesTheFirstUser` | src/boundary/models.py:340-365 | the same for a row it inserts and the dictionary it creates from, `create_defaults` included |
| `ScopedWrites.FoundAgainExactlyWhen` | src/boundary/models.py:329-338 | a row `get_or_create` inserted is found by the same call again exactly when the defaults contradict neither the tenant nor the lookup; otherwise it inserts another |
| `ScopedWrites.ReusedDefaultsCrossTenants` | src/boundary/models.py:349-365 | one dictionary used under two tenants stamps, and moves, rows of the second to the first |

## Left out

- The claims about tenant keys assume `BOUNDARY_SET_DB_SESSION_VAR` on, and `SessionAgreement` also `BOUNDARY_WRAP_ATOMIC` on; with either off the code promises no agreement. The methods and step functions model both settings either way.
- One base alias per run of `using` and bare `set` calls, and for the claims about tenant keys the default one when requests run beside them: on exit the previous tenant is restored on the aliases of the inner call's base alias, so nested calls with different bases do not agree.
- A half-written alias counts as such until it leaves its outermost transaction, also where rolling back an inner block has already restored its key.
- Inside a request or a task, agreement is for `default` only: neither opens a transaction on the regional alias.
- After deep nesting a connection that is not the active tenant's may hold no key where an outer tenant's could be restored; the theorems claim the invariant, not exact restoration there.
- Connection loss inside a transaction, `needs_rollback`, durable and `savepoint=False` blocks, and a COMMIT that itself fails.
- ContextVar copies across asyncio tasks and threads: one run is one thread of control with its own connections.
- SQL text, quoting, psycopg and the schema editor; constraint names are opaque (given, composite, derived) and assumed fresh where a theorem needs it, so the 63-character limit and name collisions by truncation are not covered.
- Restrictive policies, policies on roles or commands, column privileges and views.
- A cast failure inside `boundary_current_tenant_id()` when the variable holds text that is not a key: keys are compared as text.
- Primary keys are surrogates: always fresh, never the source of a unique violation between tenants. Foreign keys, CHECK and exclusion constraints play no part in statement outcomes.
- `nulls_distinct` on unique constraints: assumed unset, as the code's own skip list does not name it.
- Statements are atomic and one at a time; concurrent transactions and their isolation levels are modelled only as the writers between the row-count probe and ALTER TABLE.
- A failed migration's surrounding rollback: a forward that fails after its first statement is modelled with the tables as they then stand.
- Path-scoped models in the RLS theorems: they have no column and no policy by design.
- System checks other than E007's conditions 1 to 5, and the probing loop over aliases that feeds them (`src/boundary/checks.py:578-735`).
- `HostParser.SlugOfHost`: lower-casing is for ASCII letters, and `get_host()`'s own validation of the host is not part of this model.
- JWT, session and header decoding, the resolver chain and its error hooks, inactive tenants, and membership checks in the middleware.
- `_cache_clear` and a cache size or time to live changed while the process runs.
- `ResolverHistory.CacheIsAQueue`: for stores at distinct times only; on a tie the code evicts the first of the oldest in the dictionary's order, which a later store of the same key does not change. `ForgetsOnlyTheOldest` covers ties.
- Tenant lookup, hook and prompt of the deprovision command; the identifier is already resolved and the answer given.
- Deprovision on one database in autocommit, with rows the command's role can see: the scoped branch runs without `admin_bypass()`, and the export's read alias is the write alias. PROTECT, RESTRICT, DO_NOTHING and generic relations are not modelled.
- Scoped writes on path-scoped models (no column to write), `bulk_create` with `update_conflicts` or explicit primary keys, batch sizes, signals, and `validate_cross_tenant_fks`, which no write path calls.
- Provisioning, `boundary_run_all`, the test helpers, ASGI, logging, and wording of messages.
