# Concurrency guarantees of the backend template, in Dafny

The services of this repository state their guarantees in comments: refresh tokens are used once,
every workspace keeps an owner, files and stored objects agree, an ability and the query built from
it mean the same thing. Most of them depend on interleavings of transactions and on calls to Redis,
the object store and the clock that a test cannot exhaust. This project models those services and
proves the guarantees over every run, or gives the exact condition under which they hold.

A protocol is a state, an event type and a total function `Step`; a run is a sequence of events, and
an event that cannot happen leaves the state as it is. Each protocol comes with the transactions as
functions on tables, an invariant every step keeps, and the theorems that follow. Beside it stands
the service as a class whose methods are proved against the same functions, and against what the
tables' columns say before and after, with the constants of the code written out.

| files | subject |
|---|---|
| `SessionCutoff`, `RefreshTokens`, `SessionRuns`, `SessionSafety`, `SessionService` | rotation with reuse detection (section 4.14.2 of RFC 9700), sign-out everywhere, the whole-second cutoff (section 4.1.6 of RFC 7519) |
| `RowLocks`, `DeadlockFreedom` | the lock order and why it cannot deadlock |
| `Ownership`, `OwnershipSafety`, `OwnershipPolicy` | every live workspace keeps a usable owner |
| `FileAssets`, `FileRuns`, `FileSafety`, `FileOrphans`, `CleanupRun`, `CleanupSteps`, `FileService`, `FileUpload` | rows against the object store, and the cleanup job |
| `SubjectKeys`, `Abilities`, `Authority`, `ScopedQuery` | grants to rules, rules to query filters |
| `GrantsCache`, `GrantsCacheSafety`, `PermissionLoader` | the epoch-keyed grants cache |
| `SendLimit`, `SendLimitTightness`, `DestinationSendLimit` | the per-destination send budget |
| `CircuitBreaker` | the Turnstile breaker against its log of answers |
| `RoleAssignment`, `RankSafety`, `RankCeiling` | the rank ceiling |

## Assumptions

- Clocks do not run backwards (the circuit breaker needs no such assumption). A transaction reads the
  clock once, and a timer never fires early.
- User, file and family ids, token digests and storage keys are never used twice; digests and HMAC keys
  are injective.
- Transactions run at READ COMMITTED with the row locks the code takes: a read sees the latest committed
  rows, and locks go at commit or rollback.
- Redis carries out a command or does not, whatever it answers; keys go only by deletion or expiry. In
  particular the epoch key, which has no expiry, is never lost.
- Roles keep their rank and scope; configuration values meet their validation (time to live at least one
  second).
- Identifiers are opaque numbers; in grants, 0 stands for the empty string.

## Where the code does less than it says

- **Stale sign-in.** The comment at `src/modules/auth/refresh-token.service.ts:139-161` says that a session
  revocation during a sign-in refuses it. Cutoffs are rounded up to whole seconds, so a second revocation in
  the second of an earlier one writes the same cutoff and refuses nothing: `StaleSignInExact` gives the exact
  condition, `SecondRevocationInOneSecondMissesASignIn` a run.
- **Revocation boundary.** A session decided on the very millisecond of a revocation survives it when that
  millisecond is a whole second, and only then: `RevocationBoundary`.
- **Ownership.** `UsersService.update` (`src/modules/users/users.service.ts:616-619`) chooses the plain update
  for `isActive: false` from a row read without a lock. Landing on an account that has become usable meanwhile,
  it strands every workspace that account owns alone, and only those: `StaleWriteIsExact`. Such an update is
  reachable, and while it is pending a stranding continuation always exists: `StaleWritesHappen`,
  `AnyStaleWriteCanStrand`.
- **Orphans.** A put that writes its object once the row is gone, or while a cleanup run stands between the
  deletes of that file, leaves an object that can be lost for good; any other stored object has a row that
  outlives it: `LossIsExact`. After a failed put the release (`src/modules/files/files.service.ts:491-496`) is
  then no cover, although nothing dies and no delete fails: `FailedPutIsCoveredExactly`, with the runs
  `FailedPutLeavesAnOrphan` (the row is gone) and `StandingRowDoesNotCover` (it still stands).
- **Lock order.** The comment at `src/common/util/row-lock.util.ts:90-97` puts `file_assets` last. Erasure
  (`src/modules/users/users.service.ts:699-775`) writes files before refresh tokens. It is the only transaction
  that writes both, so the order with files first is one that every transaction keeps, and it is the one in
  `RowLocks`: `ErasureIsOrdered`.
- **invalidateUser.** A load that had read the database before the DEL writes its older grants after it, and
  they are served until they expire: `InvalidationIsExact`, `StalenessBoundIsReached`.
- **Send budget.** The comment at `src/common/send-limit/destination-send-limit.service.ts:34-37` says a
  provider error does not use up the budget. Refused attempts are counted and never given back, so they can:
  `GivenBackSendsLeaveTheRefusals`, `RefusalOutlivesTheFailedSend`.
- **Rank ceiling.** The comment on `changeRole` says the ceiling is enforced under the workspace lock; the
  actor's rank is read before it. It holds at the commit as long as the actor's membership was not rewritten
  meanwhile (`CeilingHoldsWhileTheActorStands`), and a suspension or demotion by another member undoes it
  (`CeilingOutlivesItsActor`). The cap on the whole workspace holds anyway: `RanksDoNotInflate`.

## Model

| member | source | states |
|---|---|---|
| SessionCutoff.NextWholeSecond | src/common/util/session-cutoff.util.ts:22-24 | The result is a whole second, at or after the argument and less than a second later |
| SessionCutoff.NextWholeSecondIsUnique | src/common/util/session-cutoff.util.ts:22-24 | Those bounds determine it |
| SessionCutoff.RevocationBoundary | src/common/util/session-cutoff.util.ts:5-24 | A token decided at or before a revocation passes the `iat` comparison exactly when both fall on the same millisecond and that millisecond is a whole second |
| SessionCutoff.UnroundedCutoffLeaksItsSecond | src/common/util/session-cutoff.util.ts:5-24 | Without the rounding, exactly the tokens of the revocation's own second would survive |
| SessionCutoff.SameCutoff | src/modules/auth/refresh-token.service.ts:160-188 | Two revocations write the same cutoff exactly when no whole second lies between them |
| SessionCutoff.WaitSuffices | src/common/util/session-cutoff.util.ts:48-56 | A session decided once the wait is over carries an accepted `iat` |
| SessionCutoff.AtOrAfterCutoffIsAccepted | src/modules/mcp-oauth/mcp-oauth-provider.service.ts:277-286 | Every token decided at or after the cutoff is accepted |
| SessionRuns.StepKeepsInv | src/modules/auth/refresh-token.service.ts:126-508 | Every step of sign-ins, rotations, revocations, account changes and purges keeps the invariant: one owner and at most one unconsumed live row per family, old rows in dead families, settled refusals in dead families |
| SessionRuns.RunKeepsInv | src/modules/auth/refresh-token.service.ts:126-508 | So does every run |
| SessionSafety.FamilySafety | src/modules/auth/refresh-token.service.ts:199-343 | In every reachable state a family has one owner and at most one unconsumed row, and an unrevoked row is not older than its owner's cutoff |
| SessionSafety.DeadStaysDead | src/modules/auth/refresh-token.service.ts:411-470 | A family with nothing left to exchange stays so under every later run, rotations already past their snapshot included |
| SessionSafety.FamilyRevocationIsFinal | src/modules/auth/refresh-token.service.ts:411-428 | Once `revokeFamily` commits, no row of the family is ever unrevoked again |
| SessionSafety.OneChildPerToken | src/modules/auth/refresh-token.service.ts:289-330 | Of any presenters of one token, at most one obtains a child |
| SessionSafety.ReuseIsDetected | src/modules/auth/refresh-token.service.ts:227-330 | Once another presentation of a token that gave a child has completed and the row stands, the whole family, child included, is revoked, and stays so |
| SessionSafety.SecondPresentationRevokes | src/modules/auth/refresh-token.service.ts:355-378 | Presenting a consumed token revokes its family when the refusal settles |
| SessionSafety.RacingPresentersEndTheFamily | src/modules/auth/refresh-token.service.ts:263-330 | Of two presenters that both passed the unlocked checks, one gets a child and the other ends the family |
| SessionSafety.CutoffRefusalIsIdle | src/modules/auth/refresh-token.service.ts:276-281 | The in-lock cutoff check refuses only rows that are already revoked, and writes nothing |
| SessionSafety.FreshTokensAreAccepted | src/modules/auth/refresh-token.service.ts:539-593 | Every access token signed by `startSession` or `rotate` passes the acceptance comparison at issue |
| SessionSafety.CutoffAdvances | src/modules/auth/refresh-token.service.ts:448-470 | An account's cutoff never moves back, over every run |
| SessionSafety.SignOutEverywhere | src/modules/auth/refresh-token.service.ts:448-487 | After ending an account's sessions every family it holds stays dead, and of its access tokens exactly those decided on the revocation's own whole-second millisecond are still accepted |
| SessionSafety.OvertakenSignInIsRefused | src/modules/auth/refresh-token.service.ts:170-188 | A sign-in whose expected cutoff has been replaced never gets a session |
| SessionSafety.StaleSignInExact | src/modules/auth/refresh-token.service.ts:139-188 | A sign-in that read its cutoff before a revocation can obtain a session after it exactly when the revocation wrote the cutoff it had read |
| SessionSafety.SecondRevocationInOneSecondMissesASignIn | src/modules/auth/refresh-token.service.ts:139-188 | That case is reachable: two revocations within one second, and the sign-in between them survives the second |
| SessionSafety.UninterruptedRotation | src/modules/auth/refresh-token.service.ts:199-378 | With nothing in between, the steps of a run for one exchange do what `rotate` does alone, branch by branch |
| SessionService.RefreshTokenService.IssueForNewSession | src/modules/auth/refresh-token.service.ts:170-188 | Persists one row of a new family exactly when the owner is eligible and the cutoff is the expected one; otherwise changes nothing |
| SessionService.RefreshTokenService.StartSession | src/modules/auth/refresh-token.service.ts:126-138 | Waits out the cutoff, then issues exactly when the owner is eligible and the cutoff is still the expected one; the access token is accepted at once |
| SessionService.RefreshTokenService.PersistRow | src/modules/auth/refresh-token.service.ts:556-593 | From its creation the row can be exchanged exactly while its owner is eligible and its lifetime lasts, and no other row is judged differently |
| SessionService.RefreshTokenService.CommitRotation | src/modules/auth/refresh-token.service.ts:235-330 | The verdict, and every row column by column: granted, the presented row is consumed now, the child lives from now for the configured lifetime under its owner and family, and nothing else changes; refused, nothing changes |
| SessionService.RefreshTokenService.RotateToken | src/modules/auth/refresh-token.service.ts:199-343 | Sequentially and column by column: an unconsumed, unrevoked, unexpired token of an eligible owner with no later cutoff is exchanged; a consumed one revokes exactly its family's rows; an ineligible owner loses every session; anything else changes nothing |
| SessionService.RefreshTokenService.RotateChild | src/modules/auth/refresh-token.service.ts:199-343 | The child of an exchange is itself exchanged later exactly while the owner is active and not deleted, no cutoff has passed its creation, and less than its lifetime has gone by |
| SessionService.RefreshTokenService.Settle | src/modules/auth/refresh-token.service.ts:331-378 | What the rolled-back transaction owes: the family or the account's sessions are revoked |
| SessionService.RefreshTokenService.RevokeTokenFamily | src/modules/auth/refresh-token.service.ts:411-428 | Sets the revocation time on exactly the family's unrevoked rows, and touches no other column or row |
| SessionService.RefreshTokenService.EndSessions | src/modules/auth/refresh-token.service.ts:448-470 | Revokes exactly the account's unrevoked rows, sets its cutoff to the whole second at or next after now, and writes only the flags it was given; other accounts stay as they are |
| SessionService.RefreshTokenService.PurgeExpiredRows | src/modules/auth/refresh-token.service.ts:503-508 | Removes exactly the rows that expired before now, counts them, and leaves every other row as it is |
| RowLocks.SortedUnique | src/common/util/row-lock.util.ts:195-197 | The result is strictly ascending and has the input's elements |
| RowLocks.AscendingIsCanonical | src/common/util/row-lock.util.ts:195-197 | Only one list is strictly ascending with given elements |
| RowLocks.SortedUniqueIgnoresOrderAndRepeats | src/common/util/row-lock.util.ts:195-197 | Two callers naming the same rows lock them in the same order |
| RowLocks.BeforeIsTotal | src/common/util/row-lock.util.ts:3-104 | The lock order compares any two rows, and is strict |
| RowLocks.Transaction.LockUserRow | src/common/util/row-lock.util.ts:116-121 | Taken after locks that all come before it, the lock keeps the transaction in order |
| RowLocks.Transaction.LockUserRows | src/common/util/row-lock.util.ts:124-131 | Takes the rows' locks in ascending order, each once, and keeps the transaction in order |
| RowLocks.Transaction.LockWorkspaceRow | src/common/util/row-lock.util.ts:141-146 | Taken after locks that all come before it, the lock keeps the transaction in order |
| RowLocks.Transaction.LockWorkspaceRows | src/common/util/row-lock.util.ts:161-168 | Takes the rows' locks in ascending order, each once, and keeps the transaction in order |
| RowLocks.Transaction.LockRefreshTokenFamily | src/common/util/row-lock.util.ts:181-186 | Taken after locks that all come before it, the lock keeps the transaction in order |
| RowLocks.DocumentedSequenceIsOrdered | src/common/util/row-lock.util.ts:76-104 | Users, then workspaces, then one family: whatever the lists, each lock comes after those held |
| RowLocks.ErasureIsOrdered | src/modules/users/users.service.ts:719-753 | Erasure keeps the model's order for all its locks, and breaks the documented one exactly when it writes both a file and a session |
| RowLocks.SomeoneProceeds | src/common/util/row-lock.util.ts:3-104 | If every lock held comes before the one its holder wants, somebody can proceed |
| DeadlockFreedom.NoDeadlock | src/common/util/row-lock.util.ts:116-186 | In every reachable state with an unfinished transaction of ascending locks, some transaction can take a step |
| OwnershipSafety.EveryLiveWorkspaceKeepsAnOwner | src/modules/workspaces/workspace-ownership.policy.ts:97-263 | In every interleaving of promotions, demotions, suspensions, joins, transfers, creations, deletions, deactivations and erasures, every live workspace keeps a seat that is an ACTIVE owner's and whose account exists, is active and is not deleted, as long as each plain deactivation update lands on an unusable account, or on one that owns nothing alone and nothing locked by others |
| OwnershipSafety.StaleWriteIsExact | src/modules/users/users.service.ts:616-619 | That update strands a live workspace at once exactly when the account is usable and owns one alone |
| OwnershipSafety.AnyStaleWriteCanStrand | src/modules/users/users.service.ts:616-619 | From every state with such an update pending on an account that is not deleted there is a continuation that strands a live workspace |
| OwnershipSafety.StaleWriteUnderALockCanStrand | src/modules/users/users.service.ts:616-619 | A harmless-looking update still strands a workspace that a suspension past its owner count then leaves |
| OwnershipSafety.StaleWritesHappen | src/modules/users/users.service.ts:589-619 | Such a pending update is reachable |
| OwnershipSafety.RunKeepsInv | src/modules/workspaces/workspace-ownership.policy.ts:44-50 | What a transaction checked or captured under its locks still holds at its commit, in every run |
| OwnershipSafety.WrittenKeepsOwners | src/modules/workspaces/memberships/workspace-memberships.service.ts:370-440 | A membership write made after its checks leaves every live workspace its owner |
| OwnershipSafety.WrittenByColumns | src/modules/workspaces/memberships/workspace-memberships.service.ts:389-753 | What each membership transaction writes: its own seat, role and status as requested, and for a transfer the other ACTIVE owners' role; no other seat, account or workspace |
| OwnershipSafety.RetirementKeepsOwners | src/modules/users/users.service.ts:650-832 | Deleting, deactivating or erasing an account, with the list captured under its lock, strands no live workspace |
| OwnershipSafety.RetiredByColumns | src/modules/users/users.service.ts:650-832 | What each retirement writes: deletion marks the account and leaves it active, deactivation makes it inactive, both only with no workspace left alone; erasure marks it and closes those workspaces; nothing else changes |
| OwnershipSafety.CommitFoundingKeepsInv | src/modules/workspaces/workspaces.service.ts:38-122 | Creating a workspace with its founding owner keeps the invariant |
| OwnershipSafety.LocksAreTakenInOrder | src/common/util/row-lock.util.ts:76-104 | Every lock these transactions hold comes before the one they want |
| OwnershipSafety.NoDeadlock | src/common/util/row-lock.util.ts:76-104 | In every reachable state with an unfinished transaction, one of them has all it waits for |
| OwnershipPolicy.WorkspaceOwnershipPolicy.AssertUserMayHoldActiveMembership | src/modules/workspaces/workspace-ownership.policy.ts:97-111 | Locks the user row, then refuses a missing or deleted account as not found and an inactive one as inactive, and accepts any other |
| OwnershipPolicy.WorkspaceOwnershipPolicy.AssertAnotherActiveOwnerExists | src/modules/workspaces/workspace-ownership.policy.ts:120-135 | Succeeds exactly when another seat of the workspace is an ACTIVE owner's whose account exists, is active and is not deleted |
| OwnershipPolicy.WorkspaceOwnershipPolicy.FindSolelyOwnedLiveWorkspaces | src/modules/workspaces/workspace-ownership.policy.ts:148-190 | Locks every live workspace the account owns, ascending, and returns exactly those where every other ACTIVE owner's account is missing, inactive or deleted |
| OwnershipPolicy.WorkspaceOwnershipPolicy.AssertUserIsNotASoleOwner | src/modules/workspaces/workspace-ownership.policy.ts:207-218 | Refuses, naming the workspaces, exactly when the account is the ACTIVE owner of a live one whose other ACTIVE owners' accounts are all missing, inactive or deleted |
| OwnershipPolicy.WorkspaceOwnershipPolicy.CloseSolelyOwnedWorkspaces | src/modules/workspaces/workspace-ownership.policy.ts:231-263 | Closes exactly those workspaces, changes nothing else, and reports everyone seated in them |
| OwnershipPolicy.RefusalIsExact | src/modules/workspaces/workspace-ownership.policy.ts:207-218 | Retiring an account strands a live workspace if and only if the policy refuses it |
| OwnershipPolicy.ErasureStrandsNothing | src/modules/workspaces/workspace-ownership.policy.ts:231-263 | After closing them an erasure strands nothing, and nothing more was closed |
| FileSafety.StepKeepsInv | src/modules/files/files.service.ts:123-497 | Every step of uploads, attaches, releases, erasures and cleanup keeps the invariant tying rows, objects, uploads and cleanup runs |
| FileSafety.ServableFilesAreStored | src/modules/files/files.service.ts:153-266 | A READY or ATTACHED row always has its object in storage |
| FileSafety.ObjectsGoOnlyForReleasedFiles | src/modules/files/files.service.ts:199-472 | A step removes an object only for a file that is DELETING or gone |
| FileSafety.RankNeverFalls | src/modules/files/files.service.ts:199-472 | A file only moves on: processing, ready, attached, deleting, gone |
| FileSafety.AtMostOneWinner | src/modules/files/files.service.ts:235-333 | Over a whole run a file leaves READY at most once: attached at most once, and never attached as well as released, expired or erased |
| FileSafety.AttachingIsWinning | src/modules/files/files.service.ts:235-266 | An attach that succeeds is the one that takes its file out of READY |
| FileSafety.ReleasedStaysReleased | src/modules/files/files.service.ts:307-333 | DELETING is left only by removal, whatever follows |
| FileSafety.RowStepIsExact | src/modules/files/files.service.ts:123-497 | What every event does to every row, in columns: which rows it removes, which it releases, which it makes ready, attached or retried; all others are equal |
| FileSafety.AttachedUntilMarked | src/modules/files/files.service.ts:307-333 | In every run an ATTACHED row stays exactly as it is until a `markDeleting` names it |
| FileOrphans.LossIsExact | src/modules/files/files.service.ts:153-222 | A stored object can be lost for good, over all continuations, exactly when its row is gone or a cleanup run stands between the two deletes of its file |
| FileOrphans.HealthyLossIsExact | src/modules/files/files.service.ts:185-222 | With nobody dying and no delete failing, exactly the objects at that risk whose put failed, or whose upload is over, can be lost |
| FileOrphans.FailedPutIsCoveredExactly | src/modules/files/files.service.ts:185-193 | The release after a failed put covers the object exactly when, before it, the row stands and no cleanup run is between the file's two deletes |
| FileOrphans.CoveredStaysCovered | src/modules/files/files.service.ts:446-469 | An object not at risk keeps its row for as long as it is stored, whatever dies or fails |
| FileOrphans.NoOtherOrphans | src/modules/files/files.service.ts:153-222 | Every stored object is named by a row and not at risk, or was at risk the moment its put wrote it and its upload is in flight, died, failed to remove it, or released a failed put once the row was not processing |
| FileOrphans.FailedPutLeavesAnOrphan | src/modules/files/files.service.ts:491-496 | An orphan is reachable with no crash and no failed delete: the row goes before the put fails |
| FileOrphans.StandingRowDoesNotCover | src/modules/files/files.service.ts:453-461 | Another is reachable although the row still stands at the release: a cleanup run is between its deletes |
| FileOrphans.AbandonedForever | src/modules/files/files.service.ts:417-472 | An object no row, upload or cleanup run accounts for is never removed |
| CleanupRun.LoopEffect | src/modules/files/files.service.ts:446-469 | The loop handles a prefix of its batch: rows whose deletes went through are gone, the others gain one attempt, nothing else changes |
| CleanupRun.LoopCounts | src/modules/files/files.service.ts:446-471 | The counts are those of the prefix; the loop stops short only over budget or after five consecutive failures, and never makes a sixth |
| CleanupRun.PassPaysDebt | src/modules/files/files.service.ts:433-489 | While a DELETING file waits, in any table, every run that starts a delete pays off part of what the other DELETING files can cost it |
| CleanupRun.NoStarvation | src/modules/files/files.service.ts:433-489 | In any table with a fixed set of DELETING files, one whose deletes succeed is gone within a bounded number of runs, even if others fail, at times or always |
| CleanupRun.CountedFailureGivesWay | src/modules/files/files.service.ts:433-440 | After a failed delete the file comes behind every file it was level with, in every batch |
| CleanupSteps.UninterruptedFile | src/modules/files/files.service.ts:446-469 | The steps of a run for one file of the batch, with nothing in between, are one turn of the loop; the object is gone unless its own delete failed |
| FileUpload.FilesUpload.Upload | src/modules/files/files.service.ts:153-224 | Whatever others do at its awaits, the code is the steps of the run; it completes exactly when the put succeeded and the row was processing after it, and answers the row as it is then, if it is still there |
| FileUpload.FilesUpload.FinishRow | src/modules/files/files.service.ts:196-208 | The last write takes effect exactly if the row is still processing, and makes it READY |
| FileUpload.FilesUpload.RemoveObject | src/modules/files/files.service.ts:209-222 | An upload that lost its row removes the object it wrote, and is over |
| FileUpload.FilesUpload.ReleaseFailedUpload | src/modules/files/files.service.ts:491-496 | A failed upload releases its row only while it is processing |
| FileUpload.OthersLeaveTheUpload | src/modules/files/files.service.ts:153-224 | Nobody else's steps move an upload on or change its key |
| FileService.FilesService.ClaimForAttachment | src/modules/files/files.service.ts:235-266 | Attaches exactly the uploader's own unexpired READY file of the purpose; otherwise nothing changes |
| FileService.FilesService.ReleaseOwnUpload | src/modules/files/files.service.ts:281-299 | Releases the uploader's READY file, is idempotent, and refuses every other state unchanged |
| FileService.FilesService.MarkFilesDeleting | src/modules/files/files.service.ts:307-316 | Releases exactly the given rows that are not DELETING yet, and changes no other |
| FileService.FilesService.MarkUnattachedFilesDeleting | src/modules/files/files.service.ts:322-333 | Releases exactly the uploader's PROCESSING and READY rows, and changes no other |
| FileService.FilesService.ClaimReclaimable | src/modules/files/files.service.ts:417-431 | Releases exactly the READY rows expired by now and the PROCESSING ones created more than fifteen minutes ago, counts them, and leaves every other row equal |
| FileService.FilesService.CleanUp | src/modules/files/files.service.ts:417-472 | The claim, then the bounded loop over the batch the database returned: at most 200 deletes, and every row that was neither DELETING nor reclaimable is still there, unchanged |
| FileService.FilesService.DeleteBatch | src/modules/files/files.service.ts:446-469 | The loop of the job computes what the loop theorems are about |
| FileService.FilesService.CountFailedDelete | src/modules/files/files.service.ts:474-481 | Adds one attempt to a row that is still DELETING, which then gives way to every file it was level with in all later batches |
| Abilities.CreateForUser | src/modules/authorization/ability.factory.ts:61-144 | Compiles the grants in the documented order, or stops at the first subject without a key |
| Abilities.AbilityBuilder.GrantPlatform | src/modules/authorization/ability.factory.ts:156-176 | OWN becomes a rule on the owner key, ANY an unconditional rule, any other ownership no rule |
| Abilities.AbilityBuilder.GrantAllPlatform | src/modules/authorization/ability.factory.ts:73-87 | One platform loop: grants of another scope are skipped |
| Abilities.AbilityBuilder.GrantTenant | src/modules/authorization/ability.factory.ts:125-140 | One membership's loop: only workspace grants, each bound to the tenant key |
| Abilities.AbilityBuilder.GrantMemberships | src/modules/authorization/ability.factory.ts:108-141 | The loop compiles the memberships' outcomes in order, or stops at the first subject without a key |
| Authority.AuthorityIsExact | src/modules/authorization/ability.factory.ts:61-176 | An ability allows an action on a record exactly when an intrinsic or platform grant reaches it, or a grant of a membership that is ACTIVE and has a non-empty workspace id does, and that workspace is the record's; all in the columns of grants and records |
| Authority.FailureIsExact | src/common/authorization/subject-key.ts:66-84 | Compilation fails exactly on an OWN platform grant, or a workspace grant of an ACTIVE membership with a non-empty workspace id, whose subject has no key; the subjects are listed |
| Authority.TenantIsolation | src/modules/authorization/ability.factory.ts:108-141 | With no platform-wide grant over them, a workspace and its invitations are reached only through an ACTIVE membership of that workspace |
| Authority.IdleMembershipsChangeNothing | src/modules/authorization/ability.factory.ts:108-122 | Leaving out a membership that is not ACTIVE, or has no workspace id or an empty one, leaves the ability, or the failure, the same |
| Authority.IntrinsicAuthority | src/common/authorization/permission-catalog.ts:452-462 | With no role and no membership a user may read, update and delete their own account, manage their own devices, read their own memberships, create a workspace, read roles and permissions, and nothing else |
| Authority.MisplacedGrantsChangeNothing | src/modules/authorization/ability.factory.ts:83-176 | Removing grants of a wrong scope and platform grants of unknown ownership leaves the ability, or the failure, the same |
| Authority.CompiledExactly | src/modules/authorization/ability.factory.ts:61-144 | The rules are exactly those the grants yield, and failure is exactly a grant that throws |
| ScopedQuery.QuirkNeedsAnEmptyOr | src/modules/authorization/ability-scoped-query.service.ts:62-79 | A filter with no empty OR selects what it says, at any depth |
| ScopedQuery.BuildWhereMeansTheRules | src/modules/authorization/ability-scoped-query.service.ts:80-106 | `buildWhere` throws exactly when no rule covers the request, and otherwise selects a record exactly when the instance check allows it and the nested caller filter matches |
| ScopedQuery.BuiltWhereIsPlain | src/modules/authorization/ability-scoped-query.service.ts:80-106 | With no empty OR from the caller, the filter means exactly that under the plain reading too |
| ScopedQuery.BuildWhereOrEmptyMeansTheRules | src/modules/authorization/ability-scoped-query.service.ts:118-136 | `buildWhereOrEmpty` never throws and selects exactly what the instance check and the caller's filter allow |
| ScopedQuery.NaiveMergeNeedsARule | src/modules/authorization/ability-scoped-query.service.ts:65-79 | Merging under AND agrees with the rules only if some rule covers the request; with none it lets every row of the caller's filter through |
| ScopedQuery.StubAnswersForItsWorkspace | src/modules/authorization/ability-scoped-query.service.ts:149-159 | For non-ownable tenant subjects the one-key check answers for every record of that workspace |
| ScopedQuery.StubMissesTheOwnRow | src/modules/authorization/ability-scoped-query.service.ts:145-148 | For memberships it does not: a member's own row is readable while the stub is not |
| GrantsCacheSafety.StepKeepsInv | src/modules/authorization/permission-loader.service.ts:95-210 | Every step of loads, increments, invalidations and expiry keeps what each cached and held snapshot has seen |
| GrantsCacheSafety.EpochCoherence | src/modules/authorization/permission-loader.service.ts:95-150 | A load that read the epoch after an increment serves a snapshot taken after it, whatever was in flight |
| GrantsCacheSafety.NobodyElsesGrants | src/modules/authorization/permission-loader.service.ts:95-150 | In every run, whatever fails or races, a load serves what the database held for its own user |
| GrantsCacheSafety.StalenessIsBounded | src/modules/authorization/permission-loader.service.ts:192-210 | Whatever fails or races, served grants are younger than the time to live plus the longest snapshot-to-write delay |
| GrantsCacheSafety.StalenessBoundIsReached | src/modules/authorization/permission-loader.service.ts:104-135 | The bound is reached even after an invalidation that was carried out |
| GrantsCacheSafety.InvalidationIsExact | src/modules/authorization/permission-loader.service.ts:113-135 | A carried-out `invalidateUser` keeps older grants from every later load exactly when no load in flight of the current epoch has read the database and not yet written |
| PermissionLoader.PermissionLoaderService.LoadGrants | src/modules/authorization/permission-loader.service.ts:95-111 | Uninterrupted, it is its four steps of the run, and serves what they serve: the entry of the current epoch's key for the user if it is unexpired and Redis answers, otherwise the database, whose answer is then written under that key for the time to live if Redis told the epoch and carries the write out |
| PermissionLoader.PermissionLoaderService.InvalidateUser | src/modules/authorization/permission-loader.service.ts:116-135 | It is its two steps of the run; carried out, the user's key of the current epoch is gone, and no other entry changes |
| PermissionLoader.PermissionLoaderService.InvalidateAllUsers | src/modules/authorization/permission-loader.service.ts:140-150 | It is the increment step |
| PermissionLoader.PermissionLoaderService.ReadCachedGrants | src/modules/authorization/permission-loader.service.ts:176-190 | Answers an entry only while it is unexpired and Redis answers |
| PermissionLoader.PermissionLoaderService.WriteCachedGrants | src/modules/authorization/permission-loader.service.ts:192-210 | What was written is what a read answers until it expires, and nothing after; no other key answers differently, nor any key when Redis fails |
| SendLimit.GrantsAreBounded | src/common/send-limit/destination-send-limit.service.ts:71-136 | In every interleaving, a window's grants less its own give-backs never exceed the limit plus the give-backs from sends of other windows |
| SendLimit.WindowLastsExactly | src/common/send-limit/destination-send-limit.service.ts:71-100 | A window opened by an attempt at some time lasts from then for exactly its configured length, whatever is reserved, refused or given back: before that no other opens, and from then on its counter is gone |
| SendLimit.GrantsAreBoundedByTheClock | src/common/send-limit/destination-send-limit.service.ts:71-136 | From the moment a window opens until its length has passed, no more sends are granted than the limit and the sends given back meanwhile, in every interleaving |
| SendLimitTightness.GrantBoundIsReached | src/common/send-limit/destination-send-limit.service.ts:13-23 | For every limit and every number of late give-backs, a run reaches that bound |
| SendLimit.GrantIsExact | src/common/send-limit/destination-send-limit.service.ts:71-100 | A reservation is granted exactly when the open window's grants and refusals less its give-backs are under the limit |
| SendLimit.GivenBackSendsLeaveTheRefusals | src/common/send-limit/destination-send-limit.service.ts:36-37 | When all granted sends were given back, the next is granted exactly if the refusals counted meanwhile have not filled the window |
| SendLimit.RefusalOutlivesTheFailedSend | src/common/send-limit/destination-send-limit.service.ts:36-37 | With a limit of one, a refusal during a send that then fails uses up the window |
| SendLimit.GiveBacksOpenNoWindow | src/common/send-limit/destination-send-limit.service.ts:13-23 | Without an attempt to reserve, no give-back ever creates a counter or a window |
| SendLimit.ExpiryIsNear | src/common/send-limit/destination-send-limit.service.ts:77-84 | Seen from any moment of any run, no counter expires later than a window from then |
| SendLimit.HasBudgetPredictsTheReservation | src/common/send-limit/destination-send-limit.service.ts:108-113 | The advisory check answers what an immediate reservation would be told |
| DestinationSendLimit.DestinationSendLimitService.Reserve | src/common/send-limit/destination-send-limit.service.ts:71-100 | Counts the attempt either way, on an expired or missing counter from one with a full window from now, on a live one keeping its expiry; granted exactly while the count is within the limit; touches no other key |
| DestinationSendLimit.DestinationSendLimitService.PeekBudget | src/common/send-limit/destination-send-limit.service.ts:108-113 | Whether budget is left, counting nothing |
| DestinationSendLimit.DestinationSendLimitService.Release | src/common/send-limit/destination-send-limit.service.ts:18-23 | Decrements a live counter and creates none |
| DestinationSendLimit.DestinationSendLimitService.SendReserved | src/common/send-limit/destination-send-limit.service.ts:120-136 | Gives back exactly when the send failed and the script ran; the send's own outcome is reported |
| DestinationSendLimit.DestinationSendLimitService.SendWithinLimit | src/common/send-limit/destination-send-limit.service.ts:143-152 | A refusal never sends; a send that fails within its window leaves the count as it was |
| CircuitBreaker.TurnstileCircuitBreaker.ShouldBypass | src/common/turnstile/turnstile-circuit-breaker.ts:61-66 | True exactly when the log's current failure run has reached three and its last failure is less than 30 seconds ago |
| CircuitBreaker.TurnstileCircuitBreaker.RecordProviderFailure | src/common/turnstile/turnstile-circuit-breaker.ts:68-97 | Extends the log; bypass is active exactly in an outage; newly opened exactly on the run's third failure |
| CircuitBreaker.TurnstileCircuitBreaker.RecordProviderSuccess | src/common/turnstile/turnstile-circuit-breaker.ts:102-108 | Ends the run; true exactly if it had reached three |
| CircuitBreaker.CurrentRunIsUnique | src/common/turnstile/turnstile-circuit-breaker.ts:39-44 | The current failure run is well defined |
| CircuitBreaker.RunGrowsByOne | src/common/turnstile/turnstile-circuit-breaker.ts:69-82 | While a run lasts, every failure adds one to it |
| CircuitBreaker.EachRunOpensOnce | src/common/turnstile/turnstile-circuit-breaker.ts:91-96 | Of a run's failures exactly the third is reported as newly opened |
| CircuitBreaker.LateFailureStartsARun | src/common/turnstile/turnstile-circuit-breaker.ts:69-80 | A failure beyond the memory, measured past the open window, starts a run of its own |
| CircuitBreaker.ThreeFailuresByTheClock | src/common/turnstile/turnstile-circuit-breaker.ts:33-97 | Three failures after a verdict are an outage exactly if each came within a minute of the one before |
| CircuitBreaker.OutageContinuesByTheClock | src/common/turnstile/turnstile-circuit-breaker.ts:69-97 | In an outage a further failure continues it exactly if it comes within a minute of the end of the open window |
| RankSafety.RanksDoNotInflate | src/modules/workspaces/workspace-role-assignment.policy.ts:99-165 | With every ACTIVE member at or below a rank, no run without a `manage all` actor hands out a role, or activates a member, above it, whatever abilities answer and however requests interleave |
| RankSafety.OnlyStaffWithoutAssignRole | src/modules/workspaces/workspace-role-assignment.policy.ts:30-45 | Actors without `assignRole` hand out only the staff role |
| RankSafety.DelegationGainsNothing | src/modules/workspaces/workspace-role-assignment.policy.ts:99-165 | Whoever is given a role by someone with `assignRole` can hand out nothing their patron could not have handed out directly |
| RankSafety.RosterKeepsAnOwner | src/modules/workspaces/memberships/workspace-memberships.service.ts:389-753 | A workspace with a seat that is ACTIVE and holds the owner role keeps one over every run of these requests |
| RankSafety.TransferLeavesOneOwner | src/modules/workspaces/memberships/workspace-memberships.service.ts:559-625 | A transfer that takes effect leaves its target the one ACTIVE holder of the owner role, and every other one an admin; nobody else's seat changes |
| RankSafety.CommittedByColumns | src/modules/workspaces/memberships/workspace-memberships.service.ts:389-440 | What each request's transaction tests again under the workspace lock and writes to its seat: rank, status and last-owner guards and the resulting role and status, column by column; no other seat changes |
| RankCeiling.CeilingHoldsWhileTheActorStands | src/modules/workspaces/memberships/workspace-memberships.service.ts:370-440 | In every run, an assignment checked without `manage all` is within its actor's rank when it commits, as long as no step between check and commit rewrote the actor's membership |
| RankCeiling.CeilingOutlivesItsActor | src/modules/workspaces/memberships/workspace-memberships.service.ts:370-440 | From every state with an assignment pending whose actor another ACTIVE member may suspend, or demote below the role, there is a continuation that still hands the role out |
| RankCeiling.DemotedAdminAppointsAnAdmin | src/modules/workspaces/memberships/workspace-memberships.service.ts:380-388 | Instance: an admin demoted after the check still appoints an admin |
| RankSafety.CommitKeepsTheCap | src/modules/workspaces/memberships/workspace-memberships.service.ts:389-440 | Committing a checked request keeps the cap, even if its actor has changed since |

## Left out

- OwnershipSafety.EveryLiveWorkspaceKeepsAnOwner: excludes runs in which a plain deactivation update lands on a usable account that owns a workspace alone, or one locked by somebody else, because the code can break the guarantee there (StaleWriteIsExact, StaleWriteUnderALockCanStrand).
- FileOrphans.NoOtherOrphans: admits objects whose put wrote them when the row was gone or about to go, because the code leaves those behind.
- CleanupRun.NoStarvation: takes each run to start at least one delete, because one that starts none makes no progress.
- RankSafety.RanksDoNotInflate: admits ownership transfers only under a cap at the owner's rank, because they ask the rank policy nothing.
- SendLimit.RefusalOutlivesTheFailedSend: shows a limit of one, because the condition for every limit is GivenBackSendsLeaveTheRefusals.
- Waiting for locks inside the session and file transactions: each is one step there; locks are small steps in `Ownership` and `DeadlockFreedom`.
- Rank and permission refusals of membership transactions in `Ownership`, which appear as transactions that roll back; their rule is in `RoleAssignment`.
- Workspace restore, and the order in which one multi-row statement locks its own rows.
- Whether the owners counted in `RoleAssignment` have usable accounts; that is in `Ownership`.
- The upload quota and file sizes: the quota is counted without a lock and has no tight invariant.
- The tie-break by `updatedAt` in the cleanup queue: ties are broken in any order.
- The contents of a cached grant set: a snapshot is known by when it was read.
- Column tests of a caller's filter other than equality with a key, which are opaque facts about a record.
- User agents, addresses and audit rows of refresh tokens.
- HTTP, dependency injection, validation, logging, email, SMS and telemetry.
- Password hashing, token signing, HMAC and random ids.
- Image decoding, content sniffing and file names in `FilesService.upload`.
- oidc-provider and its adapter; only the comparison of `isAccountUsable` is modelled.
- Isolation levels other than READ COMMITTED.
- Pagination, app versions, device tokens, audit search and the boot-time integrity checks, which would only add easy members.
