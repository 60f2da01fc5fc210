# passwd-sso: a verified model

A Dafny model of the parts of passwd-sso in which several actors, several passes or several tables
have to agree, with proofs of what holds over every run, log, table or string.

* **Claim registry** (`claim_registry`, `claim_runs`, `claim_history`). `tenant-domain add` and
  `remove` read a claim's row, show it to an operator, wait, and then write with a compare-and-swap
  and one log event. Any number of such commands interleave with sign-ins, deletions and tenant
  drops. The log replays to the tables, every run equals a serial one, and `history` is exact and
  free of gaps even while the log grows.
* **Sign-in** (`sign_in`, `session_cache`). The decision table over claim, membership and bootstrap
  flag, and the move of a user's rows across eighteen tables. One tenant per user, denials that change
  nothing and agree with each other, conservation of rows, and the session cache, whose tombstones are
  written before the migration commits while requests read and store at any moment.
* **Denial report** (`unmapped_report`). What the `unmapped` count means while outbox workers deliver,
  fail, pause, get reaped and purge, and while migrations move logged denials to another tenant.
* **Audit chain** (`audit_chain`, `audit_migration`, `chain_alert`). What a clean verdict means and
  what it does not cover, when the chain the outbox writes gets one, what a migration of audit rows
  does to both tenants' verdicts, and the alert hysteresis over all tenants and ticks.
* **Token migration** (`token_migration`). Keyset pagination with rewriting in place, counters, crashes
  and re-runs.
* **Text and byte formats** (`dotenv`, `env_file`, `word_wrap`, `env_example`, `env_drift`, `utf8`,
  `aad`, `aad_registry`). Escaping and parsing of `.env`, the generated `.env.example` against its
  drift checks, greedy wrapping against every other arrangement, and the length-prefixed encoder
  against a decoder and across all ten encryption contexts.

`prelude`, `sorting`, `text` and `line_reading` hold what these share. Code that changes state is a
class or a method with a loop, proved equal to a function of the old state; the properties are lemmas
about that function. Automatic induction is switched off on every lemma, so that each inductive step
is written out. `dafny verify dfyconfig.toml` checks everything.

## What the proofs say about the code

Where a property that one would expect does not hold as it stands, the model keeps the code as it is,
gives an input (the lemma named in brackets), and proves the exact condition.

* `add` pins the row it showed by id. `remove` matches claim, owner and revocation state only, so it
  can revoke a row that was deleted and registered again while the operator was thinking
  (`RemoveCanHitANewRow`). It acts on the row shown exactly when that row was not deleted in between.
* Repeating a completed `add` writes nothing. It is reported as already done exactly when no `--from`
  was given or `--from` names the new owner; a repeated reassignment is a refusal
  (`RepeatedReassignmentIsRefused`).
* Joining a tenant upserts the membership with an empty update. A user whose membership there was
  deactivated is let in and still has no active membership afterwards (`DeactivatedMemberIsLetIn`).
* The guard before a bootstrap migration counts active members. Three tables are filtered by tenant
  alone, so rows of a former member move as well (`FormerMembersRowsMoveToo`); nobody else's rows move
  exactly when those tables hold none.
* The session cache holds the tenant a user is an active member of; a migration drops the sessions
  whose row names the tenant being left, and dropping is best effort. After a migration the stale
  entries are the mover's cached sessions other than those that were dropped. There are none exactly
  when every cached session of the mover is filed under the tenant being left
  (`SessionFiledElsewhereGoesStale`) and no removal is lost (`LostInvalidationLeavesStale`).
* The tombstones are written inside the migration's transaction, before the new tenant is visible.
  With requests at any moment, the cache stays safe exactly when no migration commits while one of its
  sessions is cached with another tenant, or is being read by a request that no tombstone will stop,
  and no tombstone expires under a request that still holds the old tenant. It is enough that every
  moved session is captured (`UncapturedSessionServesTheOldTenant`), its tombstone is written
  (`LostTombstoneServesTheOldTenant`) and stands until the commit
  (`TombstoneExpiresBeforeTheCommit`), and outlives the requests that began before it
  (`SlowReaderOutlivesTheTombstone`).
* The outbox worker's error and pause paths name the row by id alone. A worker that outlives its lease
  can put a delivered row back, and the report then counts that denial twice
  (`SlowWorkerDoubleCounts`); the report is right at every moment exactly when no step puts back a
  delivered row.
* A bootstrap migration refiles the user's logged denials and not those still in the outbox. The left
  tenant's count falls by as many as the joined tenant's rises.
* The chain hashes id, time, position and metadata. User, action, target and the other columns can be
  edited without the check noticing (`RelabelledRowPasses`); short of a collision, the edits that pass
  are exactly those that leave the hashed columns alone.
* A bootstrap migration moves the user's audit rows with their chain positions. The tenant that was
  left passes its check afterwards exactly when it did before and no chained row moved; the tenant
  joined, exactly when it did before and every row that came in lies beyond its anchor
  (`OneMovedRowFailsBothChecks`).
* The chain that the outbox writes passes the periodic check exactly when its events are in
  chronological order and number between one and the row cap (`LateEventFailsTheCheck`).
* A provider token that starts like ciphertext is never encrypted by the migration
  (`LookalikeStaysInTheClear`).
* A value in `.env` survives writing and reading exactly when it has no `$` and no backslash directly
  before an `n` or `r` (`SomeValuesAreLost`). Every rewrite of the file puts one more backslash before
  each `$`.
* The drift checker also reads keys out of descriptions and multi-line examples
  (`DescriptionCanSpellAKey`). The generated file passes its checks exactly when no key is listed
  twice, no two texts spell the same key, and every key that a text spells is on the allowlist and not
  documented anyway.
* The wrapper keeps a run of spaces inside a line, so it can need a line more than the words alone
  would (`SpacesCanCostALine`). Counting the spaces it is never beaten, and it is set in the fewest
  lines there are exactly when, by the widths alone, its spaces cost no line.
* Lone surrogates all encode as U+FFFD. Two contexts share their authenticated data exactly when they
  are the same context once lone surrogates are replaced (`SurrogatesShareData`).

## Model

| member | source | states |
|---|---|---|
| ClaimRegistry.Registry.ReadForAdd | scripts/tenant-domain.ts:896-956 | the read phase of `add` changes nothing and gives the refusal, the idempotent success, or the plan the operator confirms |
| ClaimRegistry.Registry.CommitAdd | scripts/tenant-domain.ts:1030-1110 | the write phase of `add` in place: reassign, un-revoke or register with its event, or a lost race or a throw that leaves both tables alone |
| ClaimRegistry.Registry.ReadForRemove | scripts/tenant-domain.ts:1208-1236 | the read phase of `remove` changes nothing and gives its refusal, idempotent success or plan |
| ClaimRegistry.Registry.CommitRemove | scripts/tenant-domain.ts:1264-1285 | the write phase of `remove` in place, with its event, or a lost race |
| ClaimRegistry.Registry.Delete | prisma/migrations/20260731190000_tenant_claim_events_column_scoped_insert/migration.sql:135-143 | deleting a row records one `deregister` event with the row's last state |
| ClaimRegistry.Registry.AppendEvent | src/lib/tenant/tenant-claim-event.ts:119-133 | one event is appended with the next sequence number; nothing else changes |
| ClaimRegistry.AddWrites | scripts/tenant-domain.ts:1030-1110 | a confirmed `add` either commits, with exactly one event that tells the old and the new state, or changes nothing |
| ClaimRegistry.RemoveWrites | scripts/tenant-domain.ts:1264-1285 | the same for a confirmed `remove` |
| ClaimRegistry.SignInWrites | src/lib/tenant/tenant-management.ts:330-475 | a registration at sign-in changes one claim and logs exactly that change, or changes nothing |
| ClaimRegistry.DeleteRowWrites | prisma/migrations/20260731190000_tenant_claim_events_column_scoped_insert/migration.sql:135-143 | the same for the deletion of a row |
| ClaimRuns.NextKeeps | scripts/tenant-domain.ts:896-1110 | every step of every actor keeps the table invariants and the agreement of log and tables, and only extends the log |
| ClaimRuns.RunKeeps | scripts/tenant-domain.ts:841-1300 | the same over every interleaved run |
| ClaimRuns.LogReplaysToTables | scripts/tenant-domain.ts:1030-1110 | after every run, replaying a claim's events gives its row's owner and revocation or its absence, and consecutive events on a claim link |
| ClaimRuns.PastIsReplayed | scripts/tenant-domain.ts:65-75 | every past state of the registry can be read off a prefix of the present log |
| ClaimRuns.CommittedWriteIsAtomic | scripts/tenant-domain.ts:1012-1110 | a committed write does what the whole command would have done had it run at that moment |
| ClaimRuns.RunIsSerial | scripts/tenant-domain.ts:896-1110 | every interleaved run ends in the tables and log of the serial run of its successful writes, in write order |
| ClaimRuns.ConfirmActsOnWhatWasShown | scripts/tenant-domain.ts:1016-1041 | a confirmed write that succeeds acted on the owner and revocation state that was shown, with one event from that state; otherwise nothing changes |
| ClaimRuns.OnlyConfirmedCommandsWrite | scripts/tenant-domain.ts:1000-1041 | a run in which no command succeeds, however many were started, refused, aborted or lost their race, leaves both tables alone |
| ClaimRuns.OwnerChangeNamesTheLoser | scripts/tenant-domain.ts:909-945 | an owner changes only in a confirmed `add` whose `--from` is the previous owner, and the claim resolves right after |
| ClaimRuns.ActiveClaimStaysResolved | scripts/tenant-domain.ts:1005-1014 | an active claim stops resolving only by being revoked or deleted, never in between a reassignment |
| ClaimRuns.ProvenanceIsKept | scripts/tenant-domain.ts:1056-1070 | over every run a row keeps its claim, its registrant and its creation time |
| ClaimRuns.RepeatedAddWritesNothing | scripts/tenant-domain.ts:949-956 | repeating a completed `add` writes nothing, and is a success exactly when no `--from` was given or it names the new owner |
| ClaimRuns.RepeatedReassignmentIsRefused | scripts/tenant-domain.ts:916-922 | a reassignment whose repetition is refused |
| ClaimRuns.RepeatedRemoveWritesNothing | scripts/tenant-domain.ts:1233-1236 | repeating a completed `remove` is a success that writes nothing |
| ClaimRuns.AddActsOnTheRowShown | scripts/tenant-domain.ts:1031-1034 | an `add` that commits over an existing row changed the very row that was shown |
| ClaimRuns.RowIsKeptUnlessDeleted | scripts/tenant-domain.ts:65-70 | over every run a claim keeps its row exactly when no step deleted it |
| ClaimRuns.RemoveActsOnTheRowShown | scripts/tenant-domain.ts:1265-1268 | a `remove` that commits acts on the row shown exactly when that row was not deleted in between |
| ClaimRuns.RemoveCanHitANewRow | scripts/tenant-domain.ts:1265-1268 | a run in which `remove` revokes a row registered after the prompt |
| ClaimHistory.MergeIsExact | scripts/tenant-domain.ts:1432-1467 | two capped per-side pages, de-duplicated, sorted and re-cut, equal the single capped query on either side |
| ClaimHistory.HistoryIsExact | scripts/tenant-domain.ts:1428-1469 | a call returns the first rows that match, and reports truncation exactly when there are more |
| ClaimHistory.CursorContinues | scripts/tenant-domain.ts:1428-1430 | what lies beyond the last row of a page is what the page left out |
| ClaimHistory.FollowReadsEverything | scripts/tenant-domain.ts:1507-1551 | following the cursor terminates and returns every matching event once, in order |
| ClaimHistory.FollowGrowingHasNoGaps | scripts/tenant-domain.ts:1507-1551 | with events appended between pages, what was printed is the whole history as of the page that was not capped, or an initial part of it |
| ClaimHistory.RegistryLogsGrow | scripts/tenant-domain.ts:72-75 | over every run of the registry the logs that successive pages find only grow, with increasing numbers |
| ClaimHistory.RegistryPagesHaveNoGaps | scripts/tenant-domain.ts:1507-1551 | paging between the steps of any registry run prints the whole history as of the page that was not capped, or an initial part of it |
| SignIn.Oldest | src/lib/tenant/tenant-management.ts:63-93 | of the tenants whose external id folds onto a claim, the oldest is named |
| SignIn.Store.EnsureMembership | src/auth.ts:209-521 | a sign-in in place, statement by statement, equals the decision function: denied, allowed or rolled back |
| SignIn.Store.CreateTenant | src/lib/tenant/tenant-management.ts:330-475 | find-or-create in place: an owner, a refusal that writes nothing, or a new tenant with its claim and event |
| SignIn.Store.MoveTables | src/auth.ts:405-489 | the eighteen updates in order move exactly the selected rows; the tokens captured are those of the selected sessions |
| SignIn.ResolverAndCreatorAgree | src/lib/tenant/tenant-management.ts:166-475 | resolver and creator agree on every claim, and after a creation the resolver finds the new tenant |
| SignIn.RefusedClaimIsDenied | src/auth.ts:302-394 | a refused claim is denied with the lookup's reason and diagnosis, bound to the claim's owner or else to the user's tenant |
| SignIn.DenialsAgree | src/auth.ts:136-207 | the three denial paths give the same reason, claim and diagnosis, and the same audit tenant whenever the lookup knows an owner |
| SignIn.OnlyAllowedWrites | src/auth.ts:302-394 | a denied or throwing sign-in leaves the database and the cache unchanged |
| SignIn.EffectIs | src/auth.ts:302-520 | an allowed sign-in does nothing, joins one tenant, or moves one estate, with the exact state in each case |
| SignIn.KeepsOneTenant | src/auth.ts:322-338 | every sign-in leaves each user with at most one active membership |
| SignIn.LeavesOnlyABootstrapTenant | src/auth.ts:343-402 | a user leaves a tenant only by an allowed sign-in, and only a bootstrap tenant of which the user is the only active member |
| SignIn.AllowedMeansMember | src/auth.ts:322-338 | after an allowed sign-in the claim resolves, and that tenant is the user's only one, unless the membership there was deactivated |
| SignIn.DeactivatedMemberIsLetIn | src/auth.ts:322-328 | an allowed sign-in after which the user has no active membership |
| SignIn.RunKeeps | src/auth.ts:209-521 | every run of sign-ins keeps the foreign keys, one tenant per user, and the agreement of claim log and claim rows |
| SignIn.EstateIsConserved | src/auth.ts:401-510 | migration keeps every row but for its tenant, moves exactly the selected rows, leaves others' rows alone in user-filtered tables, and leaves none of the user's rows behind |
| SignIn.OthersAreUntouchedIff | src/auth.ts:443-473 | nobody else's row moves exactly when the tables filtered by tenant alone hold no row of another user |
| SignIn.FormerMembersRowsMoveToo | src/auth.ts:44-60 | an allowed sign-in that moves a row of a former member |
| SignIn.CapturedTokensAreTheMovedSessions | src/auth.ts:428-438 | the captured tokens are exactly the sessions whose tenant changes |
| SignIn.StaleAfterSignIn | src/auth.ts:428-517 | judged by active membership, a move from a coherent cache leaves stale exactly the mover's cached sessions that were not both captured and removed; every other sign-in leaves nothing stale |
| SignIn.CacheStaysCoherentIff | src/lib/tenant-context.ts:4-27 | the cache stays coherent exactly when nobody moves, or every cached session of the mover is filed under the left tenant and no removal is lost |
| SignIn.SessionFiledElsewhereGoesStale | src/lib/proxy/auth-gate.ts:91-119 | a migration that loses no removal and still leaves a session cached with the left tenant, because its row was filed under a third |
| SignIn.LostInvalidationLeavesStale | src/auth.ts:515-517 | a migration after which a cached session names the old tenant |
| SessionCache.StepIsSafeIff | src/lib/auth/session/session-cache.ts:176-310 | from a safe cache, a step of a request, a migration or the clock leads to a safe one exactly unless it commits a move over an old entry or an unstopped reader, or expires a tombstone under a late reader |
| SessionCache.RunIsSafeIff | src/auth.ts:401-520 | the same over every interleaving of requests, tombstone writes and losses, commits, rollbacks and expiry |
| SessionCache.NothingIsStale | src/lib/proxy/auth-gate.ts:73-190 | a safe cache holds no session with a tenant other than the one a request would read |
| SessionCache.UnsafeCanGoStale | src/lib/proxy/auth-gate.ts:73-190 | a session outside the safety condition can be served with its old tenant within two steps |
| SessionCache.StaysArmedIff | src/lib/auth/session/session-cache-helpers.ts:22-31 | a migration whose tombstones are all written or still due stays so exactly unless one is lost or expires before the commit |
| SessionCache.ArmedCommitIsSafe | src/auth.ts:512-520 | committing such a migration leaves the cache safe |
| SessionCache.CarefulRunsAreSafe | src/auth.ts:401-520 | over every run in which migrations capture all they move, no tombstone is lost or expires before its commit, and none expires under a late reader, nothing stale is ever served |
| SessionCache.LostTombstoneServesTheOldTenant | src/lib/auth/session/session-cache.ts:277-294 | a run in which a lost tombstone leaves a stale entry |
| SessionCache.UncapturedSessionServesTheOldTenant | src/auth.ts:428-438 | a run in which a moved session that was not captured stays cached with the old tenant |
| SessionCache.TombstoneExpiresBeforeTheCommit | src/lib/tenant-rls.ts:54-73 | a run in which the tombstone expires inside the transaction and a request caches the old tenant again |
| SessionCache.SlowReaderOutlivesTheTombstone | src/lib/auth/session/session-cache.ts:215-249 | a run in which a slow request stores the old tenant after the tombstone has expired |
| UnmappedReport.CountIs | scripts/tenant-domain.ts:480-523 | in every state a group's count is its denials on record, plus the outbox rows of the group that are logged although the outbox says otherwise |
| UnmappedReport.CountInEveryReachableState | scripts/tenant-domain.ts:480-523 | the same after every run of enqueueing, claiming, delivering, failing, pausing, reaping, purging and migrating |
| UnmappedReport.DeliveryCount | src/workers/audit-outbox-worker.ts:205-276 | the exact effect of each delivery step on the count: none, but for putting back a delivered row, delivering it again, and delivering a purged row from memory |
| UnmappedReport.MoveCount | prisma/migrations/20260522000200_audit_log_revoke_via_definer/migration.sql:13-22 | the exact effect of a migration on a count: the left tenant's group loses the user's logged denials, the joined tenant's gains them, no other changes |
| UnmappedReport.MoveKeepsTheSum | prisma/migrations/20260522000200_audit_log_revoke_via_definer/migration.sql:13-22 | the two groups' counts keep their sum |
| UnmappedReport.CountedOnceThroughoutIff | src/workers/audit-outbox-worker.ts:350-366 | over every run each denial is counted once at every moment exactly when no step puts back a delivered row that the report shows |
| UnmappedReport.LeasesCountOnce | src/workers/audit-outbox-worker.ts:107-130 | when workers act only on rows they still hold, every denial is counted exactly once at every moment |
| UnmappedReport.SlowWorkerDoubleCounts | src/workers/audit-outbox-worker.ts:580-644 | a run in which one denial is counted twice |
| UnmappedReport.UndeliveredIsCounted | scripts/tenant-domain.ts:480-523 | the undelivered count never exceeds the count |
| UnmappedReport.HeadingNamesTheRemedy | scripts/lib/tenant-domain-buckets.ts:75-108 | every denial a sign-in produces falls into the bucket that its lookup decides: refused, another tenant's, or unregistered |
| AuditChain.VerifyChainRows | src/lib/audit/audit-chain-verify.ts:91-222 | the loop with its early exit gives the verdict on the whole walk |
| AuditChain.CleanVerdictIff | src/lib/audit/audit-chain-verify.ts:91-222 | a verdict is clean exactly when every row is hashed, linked, numbered and timed correctly, the range is covered and a comparable anchor matches |
| AuditChain.SameHeadSameChain | src/lib/audit/audit-chain.ts:83-91 | two intact chains that end in the same hash agree on every hashed column, or two of the inputs they hash collide |
| AuditChain.CleanVerdictIsUnforgeable | src/lib/audit/audit-chain-verify.ts:91-222 | two tables that pass against one anchor agree on id, time, position, links and hashed metadata of every row, or an input of one collides with an input of the other |
| AuditChain.EditGoesUnseenIff | src/lib/audit/audit-chain.ts:36-67 | short of a collision, a changed table passes where the written one did exactly when every hashed column is unchanged |
| AuditChain.UnhashedEditsGoUnseen | scripts/audit-chain-verify-worker.ts:125-136 | editing only unhashed columns never changes what the check reports |
| AuditChain.RelabelledRowPasses | src/lib/audit/audit-chain.ts:36-67 | a row made to name another user and action passes, whatever the hash |
| AuditChain.DeliveredShape | src/workers/audit-outbox-worker.ts:301-470 | chained delivery writes consecutive, linked rows with the delivered id, time, parsed metadata and other columns, and keeps the anchor at the last |
| AuditChain.SliceIsWhatTheAnchorCovers | scripts/audit-chain-verify-worker.ts:79-162 | rows delivered after the anchor was read do not enter the check |
| AuditChain.HonestChainPassesIff | scripts/audit-chain-verify-worker.ts:79-162 | the chain the outbox wrote passes exactly when it is in time order and has between one and the cap of rows |
| AuditChain.LateEventFailsTheCheck | src/lib/audit/audit-chain-verify.ts:91-222 | an honest chain with one late event that does not pass |
| AuditMigration.PassingSliceIsFull | scripts/audit-chain-verify-worker.ts:79-162 | a check that passes has read one row for each position up to the anchor, and no more |
| AuditMigration.LeftTenantPassesIff | src/auth.ts:449-454 | after a migration the left tenant passes exactly when it passed before and none of its chained rows was the user's |
| AuditMigration.JoinedTenantPassesIff | scripts/audit-chain-verify-worker.ts:125-136 | with foreign rows in its table a tenant passes exactly when it passed before and all of them lie beyond the anchor |
| AuditMigration.BothTenantsPassIff | prisma/migrations/20260522000200_audit_log_revoke_via_definer/migration.sql:13-22 | both tenants pass after a migration exactly when both passed before and no chained row moved |
| AuditMigration.OneMovedRowFailsBothChecks | prisma/migrations/20260522000200_audit_log_revoke_via_definer/migration.sql:13-22 | two passing chains of one row each, of which both fail once the one row is refiled |
| ChainAlert.RunTick | scripts/audit-chain-verify-worker.ts:171-222 | a tick in place updates exactly the tenants it saw, each by its own automaton, and alerts exactly those due |
| ChainAlert.TickStatesAre | scripts/audit-chain-verify-worker.ts:178-222 | after a tick each listed tenant has taken one step of its automaton and no other tenant has moved |
| ChainAlert.RunStaysSane | scripts/audit-chain-verify-worker.ts:166-222 | after every run a tenant is in the failed state exactly when an alert time is set |
| ChainAlert.FirstFailureAlerts | scripts/audit-chain-verify-worker.ts:184-210 | the first failure after a clean state alerts; a later one exactly when the interval has passed |
| ChainAlert.AlertsAreSpaced | scripts/audit-chain-verify-worker.ts:184-210 | alerts within a failing span are at least the interval apart |
| ChainAlert.FewAlerts | scripts/audit-chain-verify-worker.ts:184-210 | a failing span of length L has at most 1 + L / H alerts |
| ChainAlert.FailureWasAlertedRecently | scripts/audit-chain-verify-worker.ts:184-210 | at every failing check an alert was raised less than the interval ago |
| ChainAlert.TickAlertsAre | scripts/audit-chain-verify-worker.ts:178-222 | a tick alerts a tenant once if it is listed and its automaton alerts, and otherwise not |
| ChainAlert.TenantsAreIndependent | scripts/audit-chain-verify-worker.ts:171-222 | over every sequence of ticks the states and the alerts sent equal those of one independent automaton per tenant |
| ChainAlert.SentAlertsAreSpaced | scripts/audit-chain-verify-worker.ts:184-210 | while a tenant has no clean check, the alerts the worker sends for it are the interval apart |
| ChainAlert.FewAlertsAreSent | scripts/audit-chain-verify-worker.ts:184-210 | over a failing stretch of length L the worker sends at most 1 + L / H alerts for a tenant |
| ChainAlert.FailureWasSentRecently | scripts/audit-chain-verify-worker.ts:184-210 | whenever a tenant's last check failed, the worker sent an alert for it less than the interval before |
| TokenMigration.Accounts.Migrate | scripts/migrate-account-tokens-to-encrypted.ts:64-163 | the batch loop terminates, visits every id once in order, and leaves table and counters as one pass over all rows would |
| TokenMigration.Accounts.ProcessBatch | scripts/migrate-account-tokens-to-encrypted.ts:82-160 | one batch rewrites and counts exactly its rows |
| TokenMigration.KeysetContinues | scripts/migrate-account-tokens-to-encrypted.ts:64-81 | the query beyond the cursor returns the next rows of the full order |
| TokenMigration.CountersAddUp | scripts/migrate-account-tokens-to-encrypted.ts:82-163 | scanned equals rewritten, already encrypted, without tokens and failed together |
| TokenMigration.PassIs | scripts/migrate-account-tokens-to-encrypted.ts:64-163 | a pass changes each row by its own outcome and nothing else |
| TokenMigration.CrashesThenCleanPass | scripts/migrate-account-tokens-to-encrypted.ts:64-163 | after any crashed or failing attempts, one clean pass leaves every row as if it had been sealed once |
| TokenMigration.NothingLeftToRewrite | scripts/migrate-account-tokens-to-encrypted.ts:100-120 | over sealed rows a further pass, whatever fails, rewrites nothing |
| TokenMigration.SealedOnce | src/lib/crypto/envelope.ts:27-29 | a sealed token has one layer over its original value, exactly unless the original starts like ciphertext, in which case it has none |
| TokenMigration.LookalikeStaysInTheClear | src/lib/crypto/envelope.ts:27-29 | a token that looks like ciphertext and is not encrypted |
| Dotenv.EscapeIsPerCharacter | scripts/init-env.ts:72-80 | the five replacement passes equal one mapping per character |
| Dotenv.UnescapeEscaped | scripts/init-env.ts:103-124 | what the parser's four passes give back, for every value |
| Dotenv.RoundTripIff | scripts/init-env.ts:72-124 | a value comes back exactly when it has no dollar sign and no n or r directly after a backslash |
| Dotenv.SomeValuesAreLost | scripts/init-env.ts:72-124 | a dollar sign and a backslash before an n that do not come back |
| Dotenv.RoundsAre | scripts/init-env.ts:411-432 | the exact text after n rounds of reading the old file and writing it again: n backslashes before each dollar sign |
| Dotenv.RoundsGrow | scripts/init-env.ts:411-432 | every round lengthens a value by its number of dollar signs |
| Dotenv.SettlesIff | scripts/init-env.ts:411-432 | a value stops changing after one round exactly when it has no dollar sign |
| EnvFile.ParseSimpleDotenv | scripts/init-env.ts:103-124 | the parse loop: comments, blanks and malformed keys are skipped and later lines win |
| EnvFile.AssignmentIsRead | scripts/init-env.ts:103-124 | a written assignment is read as its key and its value as it survives escaping |
| EnvFile.EscapedIsOneLine | scripts/init-env.ts:72-80 | an escaped value spans one line, whatever it holds |
| EnvFile.BuildEnv | scripts/init-env.ts:817-895 | the file is refused exactly when a secret-looking value stands under a key not marked secret; otherwise it parses to exactly the written keys and their surviving values |
| EnvFile.FileRestoresIff | scripts/init-env.ts:817-895 | the parsed file restores all written values exactly when each of them survives escaping |
| WordWrap.WrapDescriptionLines | scripts/generate-env-example.ts:32-56 | the nested loops equal the greedy specification |
| WordWrap.WrapKeepsWords | scripts/generate-env-example.ts:42-53 | all non-empty words are kept, in order |
| WordWrap.WrapFits | scripts/generate-env-example.ts:42-53 | a line exceeds the limit only if it is one word |
| WordWrap.WrapRejoins | scripts/generate-env-example.ts:42-53 | a single-spaced line comes back when its pieces are joined |
| WordWrap.WrapIsShortest | scripts/generate-env-example.ts:42-53 | no legal arrangement of the words, runs of spaces kept, uses fewer lines, for every line |
| WordWrap.SingleSpacedIsShortest | scripts/generate-env-example.ts:42-53 | for a single-spaced line no arrangement of its words uses fewer lines |
| WordWrap.ShortestIff | scripts/generate-env-example.ts:42-53 | a line is set in the fewest lines its words allow exactly when, by widths alone, its spaces cost no line |
| WordWrap.SpacesCanCostALine | scripts/generate-env-example.ts:42-53 | a line whose run of spaces costs a line that its words do not need |
| EnvExample.ParseEnvExample | scripts/check-env-docs.ts:77-103 | the loop collects active keys, commented keys and all keys in order |
| EnvExample.PushItem | scripts/generate-env-example.ts:179-218 | description, setting or placeholder and a blank line; refused exactly for a secret-looking example not marked secret |
| EnvExample.GenerateEnvExample | scripts/generate-env-example.ts:167-273 | the generated file, when not refused, is read by the drift parser as each key where it was documented, active or commented out as decided |
| EnvExample.SettingIsRead | scripts/check-env-docs.ts:86-99 | a setting reads as its key, active or commented out, and then as whatever further lines of the value say |
| EnvDrift.CheckExample | scripts/check-env-docs.ts:509-525 | checks 1, 2 and 7 report exactly the missing, the unknown and the repeated keys |
| EnvDrift.CountKeys | scripts/check-env-docs.ts:579-583 | the counting loop gives each key its number of occurrences |
| EnvDrift.DocumentedKeysAre | scripts/generate-env-example.ts:167-273 | the file documents every item's key and every key that descriptions and multi-line examples spell, each as often as it is listed, and nothing else |
| EnvDrift.GeneratedFilePassesIff | scripts/check-env-docs.ts:509-590 | with descriptions and schema in step, the file passes exactly when item keys are distinct, stray keys are distinct, and every stray key is allowed and not documented anyway |
| EnvDrift.GenerateThenCheck | scripts/check-env-docs.ts:509-590 | generating and then checking never reports a missing key, and reports nothing at all exactly under that condition |
| EnvDrift.DescriptionCanSpellAKey | scripts/check-env-docs.ts:86-99 | a job whose description spells a key nobody knows, so that the file does not pass |
| EnvDrift.PlainFileListsTheKeys | scripts/generate-env-example.ts:167-273 | without strays the file reads as each item's own key, once, in order |
| EnvDrift.PlainFilePassesIff | scripts/check-env-docs.ts:509-590 | without strays the file passes exactly when no key was listed twice |
| EnvDrift.CommentedOutIff | scripts/generate-env-example.ts:66-114 | a key is commented out exactly when it is optional, without default and not required by compose, or its example gave way to the placeholder |
| EnvDrift.InputOrderDoesNotMatter | scripts/generate-env-example.ts:157-165 | however the descriptions are listed, their order in the file is the same |
| EnvDrift.LocaleDoesNotMatter | scripts/generate-env-example.ts:157-165 | when no two items share group and order, every locale sorts them alike |
| EnvDrift.FileIgnoresRank | scripts/generate-env-example.ts:167-273 | the lines written do not depend on the collation order otherwise |
| Utf8.SameBytesIff | src/lib/crypto/crypto-aad.ts:76-79 | two strings encode alike exactly when they agree once lone surrogates are replaced |
| Utf8.CollidesIff | src/lib/crypto/crypto-aad.ts:76-79 | a string shares its bytes with another, well-formed one exactly when it is not well-formed |
| Aad.BuildFixtureAad | scripts/regenerate-account-token-legacy-fixture.ts:49-66 | the loop fills the buffer exactly with header and framed fields |
| Aad.BuildAadBytes | src/lib/crypto/crypto-aad.ts:62-122 | the checked builder refuses a bad scope, a wrong field count or a field over 65535 bytes, in that order, and otherwise gives the same bytes |
| Aad.BytesReadBack | scripts/regenerate-account-token-legacy-fixture.ts:49-66 | a decoder recovers scope and fields for fewer than 256 fields under 65536 bytes |
| Aad.SameAadIff | src/lib/crypto/crypto-aad.ts:62-122 | within those limits equal bytes mean equal scopes and, up to lone surrogates, equal fields |
| AadRegistry.BuildsIff | src/lib/crypto/crypto-aad.ts:133-320 | a builder refuses its arguments only by the webhook guards or for an over-long field |
| AadRegistry.NoTwoContextsShare | src/lib/crypto/crypto-aad.ts:133-320 | two contexts, of one builder or of two, share their data exactly when they are the same context once lone surrogates are replaced |
| AadRegistry.WellFormedContextsDiffer | src/lib/crypto/crypto-aad.ts:133-320 | contexts of well-formed strings share their data exactly when they are the same context |
| AadRegistry.SurrogatesShareData | src/lib/crypto/crypto-aad.ts:62-122 | two different contexts with the same data |
| AadRegistry.PersonalGoldenBytes | ios/PasswdSSOTests/AADParityTests.swift:9-36 | the bytes of a personal entry's blob and overview are those the iOS client expects |

## Left out

- Postgres, Prisma, row-level security and isolation levels: a transaction is one atomic step that
  takes effect as a whole or not at all, and event sequence numbers are taken in commit order.
- Claim normalisation, claim schemas, the external-id fold, tenant references and actor labels: the
  functions and their results are parameters.
- Slug generation and the savepoint retry in tenant creation: a parameter says whether both attempts
  failed.
- Real cryptography: a ciphertext is a value that wraps its plaintext, and the chain's hash is an
  arbitrary function; where a result depends on collisions, the colliding inputs are among those hashed.
- SignIn.CacheStaysCoherentIff: a sign-in is one step there, so requests between the removal of the
  captured tokens and the commit are left to `session_cache`, which models every interleaving of them.
- SessionCache.RunIsSafeIff: entries for invalid sessions, which carry no tenant, and the deletion of
  sessions are not modelled; when entries and tombstones expire is left open, and a migration is the
  only thing that changes a session's tenant.
- AuditMigration.JoinedTenantPassesIff: where a tenant's own rows exactly fill the row cap and a foreign
  row has the last position, the query's order of equal positions decides, and nothing is stated.
- TokenMigration.Accounts.Migrate: accounts written by other processes during the run are not modelled;
  the table changes only through the migration.
- UnmappedReport.CountIs: the report's time window is part of a group; audit rows that the worker
  writes directly for system events carry no denial, and the retention of the audit log itself is not
  modelled.
- AadRegistry.NoTwoContextsShare: key versions are whole numbers; how a fractional or negative version
  would be printed is not modelled.
- EnvFile.BuildEnv: the fixed comments may have any wording of one line each; profile, time stamp and
  group names are one line, and keys match the parser's key pattern.
- EnvExample.GenerateEnvExample: the fixed comments may have any wording that reads as no key, group
  names are one line, and keys are identifiers. The collator is a rank per key.
- The other drift checks (3 to 6 and 8 to 10), which scan compose files and application sources.
- Retention, webhooks, anchor publishing, the clients and the user interface.
- Console output, prompts, flag parsing, display escaping and the atomic file write.
