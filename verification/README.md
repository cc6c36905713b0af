# BigBase: a verified model of its protocols and transformations

BigBase is a backend-as-a-service kernel with pluggable components. Most of its code is HTTP and SQL
plumbing; a handful of files hold protocols, state machines, timed counters and text transformations
whose correctness is not visible from any one function. This project models those in Dafny and proves
what they promise, for every input, every interleaving and every failure point.

`dafny verify dfyconfig.toml` checks everything.

| file | what it models |
|---|---|
| `DeployStates`, `DeployStatus`, `DeployOutcomes`, `DeployRuns`, `DeployEvents`, `DeployOverride`, `DeployRow` | the deployment status protocol: read / compare-and-swap / locked history append by any number of callers on one row, with overrides and failing statements |
| `RefreshTokens` | refresh-token rotation and replay invalidation, statement by statement |
| `Supervisor`, `CrashLoop` | the `Run`/`Stop` handshake and the restarting of crashed instances, and the crash-loop window with its backoff |
| `Kernel` | dependency resolution by three-colour search, ordered start and reverse stop |
| `SqlCondition`, `SqlScope`, `SqlIsolation` | tenant scoping of a SELECT, as text and as meaning, and what it does to texts that are no conditions |
| `SqlDump`, `SqlValues`, `DumpData` | SQLite dump, the statement splitter, restore, and reading names, rows and tables back |
| `LegacyMigration`, `LegacyMigrationRun` | resumable migration of legacy values, cut at any write |
| `TokenBucket`, `SecretRate`, `AuthRate` | fixed-window rate limiting with two kinds of sweeping |
| `LoginLockout`, `LockoutOverlap` | login lockout with second-truncated stored times, and calls that overlap |
| `EnvSort`, `EnvResolver` | layered environment resolution, its flattening and its redaction |
| `Migrator`, `MigratorDuplicates` | the transactional schema migrator, and lists with repeated versions |
| `CiRuns` | the life of CI runs across requests, workers and restarts |
| `Common`, `Strings`, `Clock` | shared definitions |

Concurrency is modelled as a state machine whose actions are the atomic steps of the code (one SQL
statement or one critical section each); a run is any sequence of actions. Code that works in place
is a class or a loop, proved against a specification function that the lemmas then speak about.
Clocks, random numbers, the outcome of statements and processes, decryption and masking are inputs.

## Where code and documentation disagree

The model follows the code. These statements in the repository do not hold of it; each is refuted by
a concrete run and followed by the exact condition under which it holds:

* `forceStatus` says that no transition can slip between its read and its write
  (components/deploy/engine.go:134-136). The compare-and-swap is not taken under that mutex:
  `OverrideCanRecordStaleSource`. Its entry is truthful in every continuation exactly when the status
  it read is `failed` or `rolled_back`: `OverrideIsTruthfulExactly`.
* The parentheses added by `scopeQueryForOrg` are meant to keep an OR from bypassing the filter
  (components/api/api.go:699-703), and the guards do not ask whether the text between WHERE and the
  tail is a condition. `WHERE x) OR (y` passes them and selects foreign rows:
  `GuardsLetBreakoutThrough`, `BreakoutKeepsForeignRow`. The filter holds if no OR stands outside all
  parentheses of the rewritten condition, and if one does, the first disjunct decides alone:
  `IsolationOfRow`, `IsolatesExactly`, `UnbrokenQueriesAreIsolated`.
* `scopeQueryForOrg` panics on a query whose WHERE is followed at once by a tail clause:
  `EmptyConditionPanics`, `PanicsExactlyOnEmptyCondition`.
* The secret limiter promises at most 30 requests per minute (components/api/secret_rate.go:12-16).
  Over an arbitrary minute the worst case is exactly `2 * limit - 1`: `WorstCase`, `GrantsAreBounded`.
  The promise holds of every interval exactly when the limit is at most one or the window empty
  (`WindowPromiseExactly`), and always inside one bucket window (`OneWindowIsLimited`).
* Retry-After is rounded down, so a client that waits exactly that long is denied again unless less
  than a second was left: `RetryComesTooEarly`, `RetryAfterSuffices`.
* The deploy-key limiter forgets users before their window ends (components/auth/middleware.go:33-39):
  `SweepIsInvisibleExactly`, `DeployKeyLimiterForgets`.
* After a migration with a duplicate version has failed, a later `Up` reports success although one of
  the two was never applied: `DuplicateIsNeverApplied`. A successful `Up` has applied all migrations
  exactly when the versions are distinct: `SuccessMeansAllExactly`; a rollback runs the Down scripts of
  all of them: `DownRunsAllScripts`.
* The legacy migration reports a refused value so that it can be fixed
  (components/backup/legacy_migration.go:272-275), but marks the site done, so no later run of the mode
  tries it again, whatever the reason of the refusal: `TransientRefusalLosesValue`. A free key ends up
  with a value exactly when the store took one during the first run: `RefusedValueIsNotRetried`.
* Five failures are meant to lock an account for a quarter of an hour
  (components/auth/loginlockout.go:10-14), but `RecordFailure` loads and stores in two statements: a
  stale store lifts a running lock (`StaleStoreLiftsLock`), and overlapping failures count as one
  (`OverlapDefeatsCount`). A lock survives exactly when no pending call holds an earlier row that it
  would store differently: `LockSurvivesExactly`.
* The dump writes table names with `%q` (components/backup/backup.go:96-131), which escapes with a
  backslash where SQL doubles quotes. A dumped name is read back by SQL as itself exactly when it has
  no double quote, backslash or control character: `NameReadsBackExactly`; %q itself is faithful:
  `UnquoteUndoesEscape`.
* What `ExtractTableRef` does not recognise is run unscoped (components/api/api.go:567-582):
  `UnspacedFromRunsUnscoped`, `UnscopedExactly`.

## Model

| member | source | states |
|---|---|---|
| DeployStates.PathStaysDeclared | components/deploy/state_machine.go:36-68 | table paths from a declared state stay declared and end at the first `failed` or `rolled_back` |
| DeployStates.EntriesByTarget | components/deploy/state_machine.go:36-68 | the table by target: the exact sources from which each state can be entered |
| DeployStatus.MutexHolds | components/deploy/state_transitions.go:146-168 | in every interleaving exactly the caller in the critical section holds the mutex, and the history it loaded is still the stored one when it writes back |
| DeployStatus.HistoryIsConserved | components/deploy/state_transitions.go:38-93 | for every edge: applied status writes = recorded entries + entries still owed between swap and append + entries lost to failed history statements |
| DeployOutcomes.JustifiedHolds | components/deploy/state_transitions.go:38-81 | what every caller has seen so far was true of the row at an instant inside its call |
| DeployOutcomes.OutcomesAreJustified | components/deploy/state_transitions.go:38-118 | nil: the row had the requested status at an instant of the call; invalid transition: a declared state without that edge at such an instant; conflict: at least four writes by others during the call |
| DeployRuns.StatusFollowsTable | components/deploy/state_transitions.go:47-81 | the writes of every run of transitions form a path of the edge table, ending in the current status, and no write leaves an absorbing state |
| DeployRuns.TerminalFailureIsFinal | components/deploy/state_machine.go:38-49 | once `failed` or `rolled_back`, no later call writes the row again |
| DeployRuns.LinkedBalances | components/deploy/state_transitions.go:60-81 | on a linked write log, departures minus arrivals of a state are [state = initial] − [state = current] |
| DeployRuns.IdleHistoryBalances | components/deploy/state_transitions.go:84-93 | when all callers have returned, the recorded history is a permutation of the writes and balances at every state |
| DeployEvents.FailedEventsAreExact | components/deploy/state_transitions.go:95-118 | in every interleaving, also when statements fail, `deploy.failed` events emitted plus those still owed are exactly the writes into `failed` made by transitions |
| DeployEvents.EveryFailureIsAnnounced | components/deploy/state_transitions.go:95-118 | once all callers have returned, every such write has had its event and there is no other event |
| DeployEvents.FailedEventExactlyOnce | components/deploy/state_transitions.go:95-118 | however many transitions race, the event is emitted at most once, and once all have returned exactly if the deployment has failed |
| DeployEvents.CallsEnd | components/deploy/state_transitions.go:33-168 | in every interleaving each step of a caller brings it closer to returning, at most twelve steps away, unless it waits for the mutex, and then the holder's next step does |
| DeployEvents.SoloOverride | components/deploy/engine.go:134-163 | an override run alone installs the requested status, records the edge it took if the status was another, and returns with the mutex free |
| DeployOverride.FrozenHolds | components/deploy/engine.go:137-163 | in every interleaving no swap is pending on an absorbing status, and an override that read one still finds it |
| DeployOverride.OverrideIsTruthfulExactly | components/deploy/engine.go:134-163 | an override's entry names the status it overwrites in every continuation if and only if the status it read is `failed` or `rolled_back` |
| DeployOverride.OverrideCanRecordStaleSource | components/deploy/engine.go:134-163 | a run after which the stored history holds a stale From |
| DeployRow.NonOverlappingHistoryIsChain | components/deploy/state_transitions.go:38-93 | runs of the interleaving machine whose calls do not overlap leave a history that is one chain of allowed edges from the initial to the current status |
| DeployRow.SoloCallIsSequential | components/deploy/state_transitions.go:38-93 | a call run alone in the machine does exactly what the sequential form says, answers nil unless the edge is refused, and leaves the mutex free |
| DeployRow.PathIsWalked | components/deploy/state_transitions.go:38-93 | requests along any path of the table are all granted: each answers nil, the last is the status and the history lists the path's edges in order |
| DeployRow.LifecycleIsGranted | components/deploy/state_machine.go:36-68 | pending, building, deploying, running, draining, stopped, running, rolled back is such a life |
| DeployRow.Deployment.CompareAndSwap | components/deploy/state_transitions.go:123-140 | writes exactly when the row still has the expected status |
| DeployRow.Deployment.TryOnce | components/deploy/state_transitions.go:39-93 | one attempt under others' writes and history entries before the read, before the swap and before the append, and any failing statement: its outcome is justified by an instant, a lost race means a foreign write |
| DeployRow.Deployment.TransitionState | components/deploy/state_transitions.go:33-118 | the retry loop under the same interference: outcome justified inside the call, at most one own entry, the history only grows and mixes own and foreign entries, conflict only after four foreign writes, a database error only if a statement failed, undisturbed calls equal the sequential form |
| RefreshTokens.AtMostOneLivePerFamily | components/auth/refreshtoken.go:108-181 | in every interleaving, unused tokens plus rotations in flight of a family are at most one |
| RefreshTokens.FamiliesAreLinear | components/auth/refreshtoken.go:53-83 | a family is one lineage: each token's parent is the family's previous token, same user, consumed; no token is rotated twice |
| RefreshTokens.DeadFamilyStaysDead | components/auth/refreshtoken.go:134-154 | a family with nothing live never gets a new token under any later steps |
| RefreshTokens.InvalidationKillsIdleFamilies | components/auth/refreshtoken.go:77-83 | an invalidation leaves a family dead if and only if no rotation of it is in flight |
| RefreshTokens.ReplayOnIdleFamilyIsFinal | components/auth/refreshtoken.go:120-125 | a replay seen on an idle family ends as a replay and no refresh in the family ever succeeds again |
| RefreshTokens.RefreshRotatesOrMarks | components/auth/refreshtoken.go:108-181 | a request succeeds exactly for an unused, unexpired, not logged-out token and appends one successor of its family; unknown, expired and replayed tokens are told apart exactly; and which tokens end up used: those used before, those of the logout, the rotated one, and after a replay its family, no other |
| RefreshTokens.FailureIsAnswered | components/auth/refreshtoken.go:108-181 | a failing statement changes no row and ends the request: a server error exactly when the rotation itself failed, unauthorized when the lookup did, replayed when the invalidation did |
| RefreshTokens.RefreshIsRequestAlone | components/auth/refreshtoken.go:108-181 | the sequential form equals the interleaving machine running one request with at most a logout in between |
| RefreshTokens.TokenStore.Login | components/auth/refreshtoken.go:53-72 | a login appends one live token of a new family |
| RefreshTokens.LogoutKillsIdleFamilies | components/auth/refreshtoken.go:204-213 | a logout-all leaves each family of the user dead, for good, if and only if no rotation of it is in flight |
| RefreshTokens.TokenStore.HandleRefresh | components/auth/refreshtoken.go:108-181 | the request as it updates the table equals the specification of a refresh |
| Supervisor.AtMostOneMoreSpawn | components/deploy/supervisor.go:67-134 | after the stop flag is up, `Run` spawns at most one more instance |
| Supervisor.NoInstanceEscapes | components/deploy/supervisor.go:67-150 | once stop was requested and nobody is mid-step, every live instance has been told to stop by `Stop` or by `Run`'s re-check |
| Supervisor.StoppedRunReturns | components/deploy/supervisor.go:67-122 | after stop, every unblocked step of `Run` brings it closer to returning, within five |
| Supervisor.ReturnsOnlyWhenStoppedOrTripped | components/deploy/supervisor.go:67-122 | in every run `Run` has returned only if it was never started, the stop flag is up, or its last own step was a crash-loop test that tripped |
| Supervisor.TripIsFinal | components/deploy/supervisor.go:115-119 | after a trip nothing is spawned until `Run` is started again |
| Supervisor.CrashIsRestarted | components/deploy/supervisor.go:67-122 | from any unstopped state in which `Run` holds no live instance, at most nine of its own steps lead to a new one, live, registered and waited for |
| Supervisor.FailedSpawnIsRetried | components/deploy/supervisor.go:76-85 | a failed spawn goes through the same test and is made again |
| Supervisor.HealthStopIsRestarted | components/deploy/supervisor.go:164-207 | a health-check stop tells the current instance only, is no shutdown, and is made good like a crash |
| CrashLoop.IsCrashLooping | components/deploy/supervisor.go:227-236 | the scan answers whether at least five crashes lie in the window |
| CrashLoop.CrashLoopIsFifthLast | components/deploy/supervisor.go:227-236 | on nondecreasing crash times that is: the fifth-last crash is inside the window |
| CrashLoop.RestartLoop | components/deploy/supervisor.go:68-121 | the loop trips at the first crash for which the test holds, with the crashes up to it as history |
| CrashLoop.CrashesSpreadOneReading | components/deploy/supervisor.go:68-121 | n ≥ 5 crashes without a trip, one clock reading each, span more than 60 s × ⌊(n−1)/4⌋ |
| CrashLoop.CrashesSpread | components/deploy/supervisor.go:68-121 | with separate readings for the record and the test, more than 60 s × ⌊(n−1)/5⌋ |
| CrashLoop.NextBackoff | components/deploy/supervisor.go:214-224 | every delay lies between 0 and its ceiling, and the ceiling below the cap |
| CrashLoop.BackoffCovers | components/deploy/supervisor.go:214-224 | the delays are all of zero up to the ceiling and nothing else, and the first ceiling is one second |
| CrashLoop.CeilingGrows | components/deploy/supervisor.go:214-224 | the ceiling never decreases, doubles until it meets the cap and stays there from the seventh attempt on |
| Kernel.StartOrderImpliesAcyclic | kernel/kernel.go:116-155 | a dependencies-first order exists only if every dependency is registered and there is no cycle |
| Kernel.GrayHitIsCycle | kernel/kernel.go:125-130 | meeting a gray node always exhibits a real cycle |
| Kernel.Resolver.Visit | kernel/kernel.go:124-146 | the recursive search keeps colours, order and stack consistent, lists the node, or returns a real defect |
| Kernel.ResolveOrder | kernel/kernel.go:116-155 | for every iteration order: success if and only if closed and acyclic, and then a duplicate-free dependencies-first permutation; failure names a real defect |
| Kernel.DefectRefutes | kernel/kernel.go:124-146 | a reported missing or circular dependency refutes "closed and acyclic" |
| Kernel.KernelState.StartAll | kernel/kernel.go:42-66 | components start in dependency order whatever call fails; nothing starts if resolution fails; no call made was a failing one, and with none failing all are started |
| Kernel.KernelState.StopAll | kernel/kernel.go:68-82 | each component is stopped after all that depend on it, until a call fails; no call made was a failing one |
| Kernel.PrefixStartedInOrder | kernel/kernel.go:42-66 | any prefix of a start order has started dependencies first |
| Kernel.ReverseStopsDependentsFirst | kernel/kernel.go:68-82 | walking the order backwards stops dependents first, however far it gets |
| SqlScope.ScopeQueryForOrg | components/api/api.go:678-712 | the four-pattern search and splice equal the rewriting at the least tail clause |
| SqlCondition.OrEmbed | components/api/api.go:678-712 | a condition parses the same inside parentheses as alone (with its AND and NOT counterparts) |
| SqlCondition.ScopedConditionParses | components/api/api.go:697-708 | the spliced condition reads as (whole condition) AND org test, for any connectives |
| SqlCondition.WrittenParses | components/api/api.go:697-708 | the grammar of conditions leaves out no combination of NOT, AND and OR: every expression over comparisons has a text that parses back to it |
| SqlScope.ScopeRewritesText | components/api/api.go:678-712 | the rewriting of a query's text is the text of its scoped query and never panics on one |
| SqlScope.ScopingPreservesMeaning | components/api/api.go:678-712 | for every text of the shape of a query whose condition is one, every table and every reading of atoms, select list and tail: scoped query on the table = original on the organisation's rows |
| SqlScope.RenderIsInjective | components/api/api.go:678-712 | a text is the text of at most one query, so the meaning above is well defined |
| SqlScope.PanicsExactlyOnEmptyCondition | components/api/api.go:692-708 | the slice panics if and only if the first tail clause follows the first WHERE at once |
| SqlScope.EmptyConditionPanics | components/api/api.go:692-708 | `SELECT * FROM t WHERE GROUP BY x` is such a text |
| SqlCondition.ParenthesesAreNeeded | components/api/api.go:697-708 | for conditions the parentheses are needed: without them `x OR y` would let foreign rows through |
| SqlScope.ShapePassesGuards | components/api/api.go:616-672 | every text of the shape of a query passes the simplicity guard before and after, condition or not, and the extracted table is the query's |
| SqlScope.SimpleExactly | components/api/api.go:616-625 | a text is simple if and only if it has no JOIN, UNION, INTERSECT, EXCEPT or WITH and no two SELECTs |
| SqlScope.TableBeforeClause | components/api/api.go:651-671 | the extracted table is the word after the first FROM, whichever of the ten clauses follows it, if anything follows the clause |
| SqlIsolation.OrIsBalanced | components/api/api.go:697-708 | what reads as a condition is balanced, and has an OR outside all parentheses exactly when it is read as a disjunction |
| SqlIsolation.ScopedTextStructure | components/api/api.go:697-708 | for any text c whose scoped form reads as a condition: without an outer OR it is a conjunction ending in the org test, with one a disjunction whose last disjunct carries the org test and whose first ends before it |
| SqlIsolation.IsolationOfRow | components/api/api.go:697-708 | accordingly every kept row is the organisation's, or a row is kept whenever the first disjunct holds on it |
| SqlIsolation.IsolatesExactly | components/api/api.go:697-708 | if no comparison stands both negated and not in the first disjunct, and the org test not unnegated: isolation under every reading if and only if there is no outer OR |
| SqlIsolation.ConditionsAreSafe | components/api/api.go:697-708 | a text that is itself a condition never gets an outer OR |
| SqlIsolation.UnbrokenQueriesAreIsolated | components/api/api.go:616-712 | any text of the shape of a query that the database accepts after the rewriting and that has no outer OR selects only the organisation's rows |
| SqlIsolation.GuardsLetBreakoutThrough | components/api/api.go:616-712 | `WHERE x) OR (y` passes the guards and is rewritten to `WHERE (x) OR (y) AND org_id = ?` |
| SqlIsolation.BreakoutKeepsForeignRow | components/api/api.go:697-708 | which keeps a foreign row on which x holds |
| SqlIsolation.UnscopedExactly | components/api/api.go:567-582 | a text runs unscoped if and only if it has no FROM between two lexemes or reads an internal table |
| SqlIsolation.UnspacedFromRunsUnscoped | components/api/api.go:567-582 | `SELECT "x"FROM items` is such a text |
| SqlIsolation.RefusedExactly | components/api/api.go:567-582 | a text is refused if and only if it has a FROM between two lexemes, its table is not internal, and it combines sources or has a second SELECT; what runs scoped does neither |
| SqlIsolation.ShapedRunsScoped | components/api/api.go:567-582 | every text of the shape of a query on a table that is not internal runs as its scoped query |
| SqlDump.SplitSql | components/backup/backup.go:160-189 | the byte loop with its look-ahead for doubled quotes splits as the plain toggling automaton |
| SqlDump.Restore | components/backup/backup.go:144-158 | executes the trimmed non-blank, non-comment pieces in order |
| SqlDump.SkippedExactly | components/backup/backup.go:146-152 | a piece is skipped if and only if it is blank or its trimmed text begins with two dashes |
| SqlDump.QuotedIsQuiet | components/backup/backup.go:223-225 | a quoted text never ends a statement, whatever it contains |
| SqlDump.SplitUndoesWriting | components/backup/backup.go:144-189 | splitting and filtering recover exactly the written statements |
| SqlDump.DumpTable | components/backup/backup.go:96-131 | the dump of a table is its DROP, its definition and one INSERT per row in order, laid out as the restore expects |
| SqlDump.Dump | components/backup/backup.go:58-71 | the whole dump is header, tables and footer in order |
| SqlDump.DumpRestoreRoundTrip | components/backup/backup.go:58-189 | the statements a restore executes on a dump are exactly the dumped ones, for any NULLs, integers, flags and texts (that these carry the data is DumpData.DumpRestoresData) |
| SqlDump.DumpThenRestore | components/backup/backup.go:58-189 | the same for the two loops run one after the other |
| SqlValues.QuoteReadsBack | components/backup/backup.go:223-225 | unquoting a quoted string gives the string |
| SqlValues.LiteralReadsBack | components/backup/backup.go:199-221 | every literal reads back as its value, whatever follows it in the list |
| SqlValues.RowReadsBack | components/backup/backup.go:199-225 | a VALUES list reads back as the row |
| DumpData.NameReadsBackExactly | components/backup/backup.go:96-131 | SQL reads a dumped name as the name if and only if it has no double quote, backslash or ASCII control character |
| DumpData.UnquoteUndoesEscape | components/backup/backup.go:96-131 | unescaping the %q form gives back every name, whatever follows |
| DumpData.DropReadsBack | components/backup/backup.go:96-99 | a DROP statement reads as the name of its table |
| DumpData.InsertReadsBack | components/backup/backup.go:122-128 | an INSERT statement reads as its table's name and the whole row |
| DumpData.DumpRestoresData | components/backup/backup.go:58-189 | what a restore executes on a dump, read as SQL, rebuilds every table under its name and definition with exactly its rows in order |
| LegacyMigration.RedoIsHarmless | components/backup/legacy_migration.go:241-276 | repeating a site's writes after part of them leaves the same secrets |
| LegacyMigration.ResumeAfterCut | components/backup/legacy_migration.go:154-168 | a run after a run cut at any write completes in the same cases with the same secrets |
| LegacyMigration.CrashResumeEquivalence | components/backup/legacy_migration.go:154-284 | any number of cut runs followed by one more end exactly like one uninterrupted run |
| LegacyMigration.SiteLeavesItsValues | components/backup/legacy_migration.go:219-284 | a site's writes leave under each key the last storable runtime value its rows supply for it, and touch no other key |
| LegacyMigration.CompletedRunMigrates | components/backup/legacy_migration.go:154-284 | a completed run has moved every value the store took and invented none: a secret some pending site supplies holds such a value, decrypted; every other secret is unchanged |
| LegacyMigration.RerunChangesNothing | components/backup/legacy_migration.go:154-168 | after a completed run another of the same mode changes nothing, whatever the store would accept by then |
| LegacyMigration.OtherModeStartsOver | components/backup/legacy_migration.go:154-168 | after a completed run, a run of another mode does what it would do had no site been migrated |
| LegacyMigration.BegunSiteIsRedone | components/backup/legacy_migration.go:245-247 | a site whose writes have begun is done for no other mode, wherever the run is cut |
| LegacyMigration.SecretsAreHoused | components/backup/legacy_migration.go:249-254 | wherever a run is cut, no secret is left in a folder that was not made |
| LegacyMigration.RefusedValueIsNotRetried | components/backup/legacy_migration.go:272-284 | a key for which the store took nothing during the run keeps what it had through that run and every rerun; a key that was free has a value in the end if and only if the store took one during the first run |
| LegacyMigration.TransientRefusalLosesValue | components/backup/legacy_migration.go:272-284 | a store that refuses first and would take later: the value is missing after both runs, and would be there after the second alone |
| LegacyMigrationRun.RowsSplitByUse | components/backup/legacy_migration.go:225-243 | values to write plus build-only rows are all rows |
| LegacyMigrationRun.PendingSplitByFit | components/backup/legacy_migration.go:255-276 | values written plus values refused by the store are all values |
| LegacyMigrationRun.Migration.MarkCheckpoint | components/backup/legacy_migration.go:371-382 | upserts the site's checkpoint with the run's mode, if the process still lives |
| LegacyMigrationRun.Migration.CreateOrUpdate | components/backup/legacy_migration.go:255-270 | creates or updates in place; `migrated` counts exactly the keys that are new |
| LegacyMigrationRun.Migration.Validate | components/backup/legacy_migration.go:225-240 | succeeds if and only if every runtime row decrypts, and touches no stored state |
| LegacyMigrationRun.Migration.MigrateSite | components/backup/legacy_migration.go:174-284 | a site that fails validation gets no write; otherwise the writes made are a prefix of the site's writes, all of them unless cut; its rows are counted once |
| LegacyMigrationRun.Migration.MigrateLegacyValues | components/backup/legacy_migration.go:154-168 | the loop leaves the run cut at its last write; a completed run equals the full run, migrated + updated + skipped = rows of the attached sites it processed, and resumed and unattached are the sites found done and those without a project |
| TokenBucket.GrantsAreBounded | components/api/secret_rate.go:69-82 | an interval of n > 0 windows is granted at most (n+1) × limit − 1, an instant at most the limit |
| TokenBucket.WorstCase | components/api/secret_rate.go:69-82 | the maximum (n+1) × limit − 1 is attained for every limit and every n from 1 to the window's length |
| TokenBucket.WindowPromiseExactly | components/api/secret_rate.go:12-16 | at most `limit` in every interval of one window if and only if limit ≤ 1 or the window is empty |
| TokenBucket.OneWindowIsLimited | components/api/secret_rate.go:65-82 | between the opening of a bucket window and its reset at most `limit` are granted |
| TokenBucket.RetryAfterSuffices | components/api/secret_rate.go:74-79 | waiting exactly Retry-After is enough if and only if less than a second was left |
| TokenBucket.RetryAfterIsGreatest | components/api/secret_rate.go:74-79 | Retry-After is the greatest whole number of seconds not past the reset, and at least one |
| TokenBucket.RetryComesTooEarly | components/api/secret_rate.go:74-79 | a run, for every limit and every window of at least a second, whose denied client waits that long and is denied again |
| SecretRate.BucketsAreNotShared | components/api/secret_rate.go:51-96 | two requests share a bucket if and only if they have the same identity and project |
| SecretRate.PruningIsInvisible | components/api/secret_rate.go:57-63 | with a nondecreasing clock sweeping changes no answer, nor the reset time in a denial, for any threshold |
| SecretRate.PruningBounds | components/api/secret_rate.go:57-73 | in every run the map holds at most the threshold, or exactly the keys live at the last request and that request's own |
| SecretRate.ClockOrderIsNeeded | components/api/secret_rate.go:50-63 | readings taken out of the order of the critical sections can make a sweep visible |
| SecretRate.KeysAreIndependent | components/api/secret_rate.go:65-73 | a key's bucket depends only on that key's requests |
| SecretRate.CallersAreLimited | components/api/secret_rate.go:50-83 | the bound holds of each caller and project in the swept limiter, whatever others ask |
| SecretRate.SecretRateLimiter.Sweep | components/api/secret_rate.go:57-63 | deleting one by one in any order removes exactly the expired buckets |
| SecretRate.SecretRateLimiter.Allow | components/api/secret_rate.go:50-83 | the call prunes at the threshold and then serves as specified |
| AuthRate.SweepIsInvisibleExactly | components/auth/ratelimit.go:130-170 | sweeping changes no decision of any run if and only if CleanupEvery ≥ window, or the limit is not positive |
| AuthRate.DeployKeyLimiterForgets | components/auth/middleware.go:33-39 | so it does for the deploy-key limiter and does not for the default one |
| AuthRate.BucketMap.Allow | components/auth/ratelimit.go:51-69 | finding or creating a bucket and taking from it, as specified |
| AuthRate.BucketMap.Cleanup | components/auth/ratelimit.go:144-169 | removes exactly the entries not seen within the cleanup period |
| LoginLockout.LockedExactly | components/auth/loginlockout.go:74-84 | after any run a check finds the account locked if and only if some failure was the fifth recorded of its window, nothing was cleared since, and less than 15 minutes passed since its second |
| LoginLockout.LockoutStore.RecordFailure | components/auth/loginlockout.go:86-140 | the new row and answer as specified; other e-mails untouched |
| LoginLockout.LockoutRestarts | components/auth/loginlockout.go:86-111 | in every run the count is 1..5, locked exactly at 5, and the first failure after an expired lock starts again at 1 |
| LoginLockout.LockLasts | components/auth/loginlockout.go:108-128 | a lock lasts more than 14m59s and at most 15m, and the row does not change meanwhile |
| LoginLockout.FailureAnswersForRow | components/auth/loginlockout.go:86-140 | a failure answers locked if and only if the row it leaves is locked, with the time that lock still runs up to the second lost in storing it |
| LoginLockout.ClearStartsAfresh | components/auth/loginlockout.go:142-145 | after a clear the row is as if nothing had happened before |
| LoginLockout.FailuresAreBounded | components/auth/loginlockout.go:10-14 | without a clear at most 8 failures are recorded in any 14m59s, and five more for each further 14m59s |
| LoginLockout.EightAreReached | components/auth/loginlockout.go:86-140 | eight are reached |
| LockoutOverlap.LockSurvivesExactly | components/auth/loginlockout.go:86-130 | under any interleaving of overlapping calls a lock survives every continuation that clears nothing and starts no call after its end if and only if no pending call holds an earlier row it would store differently |
| LockoutOverlap.StaleStoreLiftsLock | components/auth/loginlockout.go:86-130 | a run in which the fifth failure has locked the account and a stale store of a fourth opens it again |
| LockoutOverlap.OvertakenIsReached | components/auth/loginlockout.go:86-130 | that state is reached from an empty table |
| LockoutOverlap.OverlapDefeatsCount | components/auth/loginlockout.go:86-130 | for every n, n overlapping failures are all stored in one instant and count as one |
| LockoutOverlap.ClearLastsExactly | components/auth/loginlockout.go:86-145 | a clear lasts until another call starts if and only if no pending call found the table without a row |
| LockoutOverlap.PendingCallsCount | components/auth/loginlockout.go:86-111 | in every interleaving a call that found a lock leaves nothing to store: what a pending call would store counts one more than it loaded, or starts at one |
| LockoutOverlap.SoloRunIsSequential | components/auth/loginlockout.go:86-130 | calls that do not overlap leave the row of the sequential runs, so the results about those hold of them |
| EnvSort.InsertionSort | components/deploy/envresolver.go:506-510 | the in-place sort equals functional insertion from the end |
| EnvSort.SortOrders | components/deploy/envresolver.go:506-510 | its result is ordered for every strict weak order |
| EnvSort.SortIsStable | components/deploy/envresolver.go:451-459 | ties keep their order; in particular nothing is lost or duplicated |
| EnvSort.SortIsPermutation | components/deploy/envresolver.go:506-510 | nothing is lost, added or duplicated |
| EnvSort.BeforeIsLexicographic | components/deploy/envresolver.go:506-510 | one text comes before another if and only if, at the first place where they differ, it has ended or has the smaller character |
| EnvSort.SortPairsByLenDesc | components/deploy/envresolver.go:453-459 | substitutions end up longest first, stable within a length |
| EnvResolver.HighestLayerWins | components/deploy/envresolver.go:185-219 | every key has the value of the highest layer defining it: reserved, site, project (later folder first), manifest, platform |
| EnvResolver.ResolveOptions | components/deploy/envresolver.go:185-219 | an environment if and only if everything selected decrypts; then it lists the merged map with its secret keys and collisions |
| EnvResolver.Resolution.ResolveProjectSecrets | components/deploy/envresolver.go:226-264 | overlays all folders in order and collects their keys, or stops at an unreadable value |
| EnvResolver.Resolution.ResolveSiteEnvVars | components/deploy/envresolver.go:271-308 | overlays the site rows, records overridden keys, or stops at an unreadable value |
| EnvResolver.ConflictsAreCollisions | components/deploy/envresolver.go:296-302 | with one row per key the reported conflicts are exactly the keys both stores define |
| EnvResolver.SecretKeysExactly | components/deploy/envresolver.go:226-308 | a key is secret if and only if the stores are read and some selected folder or the site defines it |
| EnvResolver.MapToEnviron | components/deploy/envresolver.go:500-514 | one line per key in strictly increasing key order |
| EnvResolver.ListingIsUnique | components/deploy/envresolver.go:498-514 | the lines do not depend on map iteration order |
| EnvResolver.KeyValueMap | components/deploy/envresolver.go:484-496 | the parsing loop equals overlaying the parsed lines, a line without '=' being an empty value |
| EnvResolver.ListingReparses | components/deploy/envresolver.go:484-514 | the lines parse back to the map if and only if no key contains '=' |
| EnvResolver.Redact | components/deploy/envresolver.go:373-395 | the loop redacts line by line and keeps order and number of lines |
| EnvResolver.RedactionMasksSecrets | components/deploy/envresolver.go:373-395 | redaction keeps all keys and changes exactly the values of secret keys |
| EnvResolver.LogShowsMaskedValues | components/deploy/envresolver.go:185-395 | end to end: a log shows the highest layer's value, masked exactly for keys of a secret store |
| Migrator.SortedByVersion | components/db/migrator.go:37-44 | the runner's list holds the given migrations, versions ascending |
| Migrator.Runner.constructor | components/db/migrator.go:37-44 | the same of the runner as constructed |
| Migrator.Runner.Transact | components/db/migrator.go:102-119 | script and record change together or not at all |
| Migrator.Runner.MigrateUp | components/db/migrator.go:83-122 | the loop equals the specification, failing at any transaction |
| Migrator.Runner.MigrateDown | components/db/migrator.go:126-170 | collects the applied migrations latest first and rolls back n of them as specified |
| Migrator.RecordedIsInEffect | components/db/migrator.go:83-170 | after any sequence of Ups and Downs failing anywhere, the recorded versions are those of a prefix and the schema is what that prefix builds |
| Migrator.DownAllRestores | components/db/migrator.go:126-170 | a successful Down of everything restores the schema and empties the record, whatever came before |
| Migrator.UpDownUp | components/db/migrator.go:83-170 | Up, any Down even partial, Up again ends where the first Up did, and the second Up succeeds if the connection lasts |
| Migrator.UpSucceedsExactly | components/db/migrator.go:83-122 | from an empty record Up succeeds if and only if versions are distinct, no script is blank, all scripts run in turn and the connection lasts |
| Migrator.UpAscends | components/db/migrator.go:83-122 | Up applies migrations in ascending order of version, whatever is already applied and wherever it fails |
| Migrator.DownUndoesGreatest | components/db/migrator.go:126-170 | Down(n) undoes the n applied migrations with the greatest versions, greatest first |
| Migrator.DownSucceedsExactly | components/db/migrator.go:126-170 | with k migrations in effect Down(n) succeeds if and only if no script it runs is blank and the connection lasts for them |
| Migrator.DuplicateIsNeverApplied | components/db/migrator.go:91-122 | of two migrations with one version the second is never applied although a later Up succeeds |
| MigratorDuplicates.UpsApplyFirsts | components/db/migrator.go:83-122 | for any list, after any Ups failing anywhere: committed, recorded and in effect is a prefix of the first migrations of each version, all of it once an Up succeeds |
| MigratorDuplicates.FirstsAreAllExactly | components/db/migrator.go:37-44 | these are all migrations if and only if the versions are distinct |
| MigratorDuplicates.SuccessMeansAllExactly | components/db/migrator.go:83-122 | in every history of Ups success means that all migrations were applied if and only if the versions are distinct, or no Up can succeed |
| MigratorDuplicates.DownRunsAllScripts | components/db/migrator.go:126-170 | after a successful Up a full Down runs the Down scripts of the whole list; they are those of what was applied if and only if the versions are distinct |
| CiRuns.ValidateTransition | components/cici/state.go:139-156 | accepts exactly the edges of the run state machine |
| CiRuns.EntriesByTarget | components/cici/state.go:74-80 | the table by target: runs start from queued, succeed from running, fail or are cancelled from either |
| CiRuns.RunTable.TransitionRun | components/cici/runs.go:89-108 | a validated update guarded by the source status |
| CiRuns.RunTable.FinishRun | components/cici/runs.go:198-231 | records terminal statuses on open rows only |
| CiRuns.RunTable.ReconcileOrphanedRuns | components/cici/runs.go:238-253 | fails and counts every open row; only rows of unknown status stay non-terminal |
| CiRuns.ExecuteRun | components/cici/runs.go:110-139 | success if and only if the workflow parses and no command fails; nothing runs after the first failure |
| CiRuns.RunsAreSound | components/cici/runs.go:55-139 | in every history finish times mark exactly terminal rows, status writes are edges, success comes only from running, and an idle process with no failed write has only terminal rows |
| CiRuns.TerminalIsFinal | components/cici/runs.go:198-253 | a terminal row never changes, neither status nor finish time |
| CiRuns.VerdictsStick | components/cici/runs.go:110-139 | a worker's verdict is never ignored and stays for good |
| CiRuns.TriggeredRunGetsItsVerdict | components/cici/runs.go:55-139 | a run whose statements succeed is queued, reaches a worker and ends with its workflow's verdict, whatever other runs do in between |
| CiRuns.FailedStartFailsRun | components/cici/runs.go:69-79 | a run whose start fails or reports an error ends as failed |
| CiRuns.BootDecidesOrphans | components/cici/runs.go:238-253 | a boot decides every row it finds for good, through all later actions, crashes and boots: open ones stay failed as of that boot, the others stay as they were, and a row open later was triggered since |
| CiRuns.LegacySpellingIsGone | components/cici/cici.go:150-154 | after a boot's renaming no row is ever `pending` again, even if the reconciliation fails; nothing else changes until that; the process is up only when both were made |
| CiRuns.OpenRowsAreHeld | components/cici/runs.go:55-139 | while a process is up an open row is held by one of its goroutines or its last write failed |

## Left out

- HTTP handlers, cookies, JSON, process control, cloning, builds, port probing and the main wiring: I/O without semantics of its own.
- Cryptography, token hashing, `MaskValue`, the native secret store's internals: parameters.
- A database statement that reports an error although it was applied is modelled only in CiRuns; elsewhere a failed statement has no effect.
- `deploy.state_changed` events: emitted for every granted transition, next to `deploy.failed`.
- Supervisor: the outcome of the crash-loop test is an input there; CrashLoop says when it trips.
- The build log written by `compareAndSwapStatus` and the timestamps of history entries.
- Several concurrent `Run` calls for one deployment id; the supervisor's health loop beyond its telling the instance to stop.
- Floating-point rounding in the backoff (reals are used) and `%g` float literals, blobs and timestamps in the dump.
- SqlScope.ScopingPreservesMeaning: queries are lexeme lists with keywords set off by blanks, outside literals and comments; the prefixes, quoting and case folding that `ExtractTableRef` strips are not modelled.
- SqlIsolation.UnbrokenQueriesAreIsolated: says nothing of texts with comments; in `WHERE 1=1) /*` the comment swallows the appended org test, which the lexeme model cannot express.
- SqlIsolation.UnscopedExactly: the refusals before it (internal table names anywhere in the text, semicolons, other first words) and the WITH and EXPLAIN prefixes are not modelled.
- SqlScope.ScopeRewritesText: whitespace normalisation happens before the model begins.
- LegacyMigrationRun.Migration.MigrateSite: within one run the store refuses or takes a key and value always alike, so an error that strikes one of two equal writes is not expressible; across runs the answer may differ.
- LoginLockout.FailuresAreBounded: holds of calls that do not overlap (LockoutOverlap has the others).
- LoginLockout.LockLasts: holds of calls that do not overlap.
- LoginLockout.LockedExactly: holds of calls that do not overlap.
- SqlDump.DumpTable: `%q` escapes of ASCII only; unprintable characters beyond ASCII in a table name are written as they are.
- LegacyMigration.CrashResumeEquivalence: earlier cut runs use the mode of the last; secret versions and timestamps are not values.
- AuthRate.BucketMap.Allow: reads the clock once where the code reads it up to three times, and does not model a sweep deleting a bucket between lookup and use; `Reconfigure` is left out.
- SecretRate.PruningIsInvisible: needs the clock readings to be in the order of the critical sections; the code reads the clock before taking the lock.
- RedactLogText: only its ordering of substitutions is modelled; masks keep suffixes, so absence of secret text is not a property of the code.
- Migrator: `sort.Slice` is not stable, so with duplicate versions the order of the duplicates may differ from the model's; migration lists that change between runs are not followed.
- CiRuns.RunsAreSound: the batch write of the boot reconciliation is covered by BootDecidesOrphans and not part of the logged writes; `cancelled` is written by no code.
- State-machine predicates such as `IsInFlight` and `CanDelete`, policy matrices, name validators and manifest defaults: settled by reading one branch.
