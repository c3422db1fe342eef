# Tiny Password, verified core

Tiny Password is a self-hosted password manager: a Go server over SQLite with
encrypted vault items, sessions, backups and an offline restore, and a mobile
client. These modules model its step protocols and state machines and prove what
they keep, over every input, every run and every interleaving.

A database is a record of rows, the cipher is any pair of functions in which
opening undoes sealing, password hashes are ideal, random ids are fresh, and
transactions and renames are atomic and serialised. Code that changes state
sequentially is a class whose methods follow its statements; each is proved
against a specification, and the guarantees are proved about that. Protocols
whose point is interleaving are state machines over their atomic steps, with the
guarantee stated for every run.

| part | modules |
|---|---|
| Offline restore with crashes and restarts, rekeying | `Restore`, `Rekey` |
| Browsing: bounded heap over keyset batches, paging | `BrowseOrder`, `BrowseHeap`, `Browse`, `BrowsePages`, `BrowseMeaning` |
| Accounts and sessions under interleaving | `AuthState`, `AuthRuns`, `AuthService` |
| Versioned encrypted items, history, moves, import | `VaultState`, `VaultService`, `VaultReference`, `VaultImport` |
| Backup retention | `Retention`, `RetentionRuns` |
| One-shot import confirmation | `Transfer` |
| Idempotency claims | `Idempotency` |
| Argon2 resource gates; PHC strings | `MemoryGate`; `Phc`, `Base64` |
| Rate limiters | `Limiter` |
| Scheduler, daily run time | `Scheduler`, `Daily` |
| Row identities, payloads, framings | `Aad`, `Fingerprint`, `Payload`, `Rows`, `RowIdentity`, `Bytes`, `Order` |
| Mobile session | `Mobile` |

## What turned out not to hold as promised

Each is kept as the code has it, with the exact condition or a run that shows it.

- A rejected session can come back: a touch that read the clock before the idle
  expiry and commits after it renews the session (`AuthRuns.RevivedOnlyByStaleTouch`).
- A clean-up of sessions shows when an event still goes by an older clock reading
  on which a cleaned-up session lives (`AuthRuns.StepCleaner`, `AuthRuns.DiscreetIsCleaner`).
- Importing carries a billing reference along only when the member that is read
  and the one that is rewritten agree: the decoder takes the key in any letter
  case, the rewriting does not (`VaultReference.FollowsIff`).
- A daily time skipped by a clock change does not run at the next valid instant
  but later by the whole shift; a repeated time runs at its second occurrence east
  of Greenwich (`Daily.HowLate`, `Daily.FirstOccurrence`). The comments in
  internal/scheduler/daily.go promise otherwise. Where the shift reaches back over
  midnight the job goes by the date before and does not run if it ran then, and
  where it reaches on over midnight the day has no run (`Daily.DueOnTheDay`,
  `Daily.RunsEveryOrdinaryDay`).
- A date runs twice when the local date moves back to it past another run, or when
  a restart comes between a run and its marker (`Scheduler.TwiceIffMovedBack`,
  `Scheduler.TwiceIff`, `Scheduler.StepMarked`).
- A completed idempotency claim that is deleted allows another business change,
  and inspection deletes by scope and key alone (`Idempotency.SecondChangeIff`,
  `Idempotency.ExpiryAllowsTwo`).
- Signing out of the mobile app wipes nothing when a failed login came before it
  (`Mobile.SignOutAlone`, `Mobile.SignOutAfterFailedLogin`); the comment promises
  an unconditional wipe.
- A restore can report success over the old database if that already carries the
  recorded id: past the switch it asks only whether the live database decrypts and
  carries that id (`Restore.DataDir.Restore`, `Restore.MisleadingRun`).
- A restore can keep failing without an end: exactly past the switch, with a live
  database that this check refuses and a pre-snapshot that is used up, as after a
  rollback that died after its rename (`Restore.DataDir.Restore`).
- Raising a retention limit asks for backups that are gone, but for setting a
  disabled level to one while another is enabled (`Retention.NeverAsksAgainIff`).
- Row identities collide for fields of 4 GiB and more (`Aad.InjectivityBound`).

## Model

| member | source | states |
|---|---|---|
| Restore.Operate | internal/backup/restore.go:111-148 | Any number of attempts, each with its own archive and key, each failing or dying at any step: afterwards the live database is the old one (absent for an empty target) or a complete rekeyed candidate, the old contents are live or in a whole pre-snapshot, and (restored ids not being the old database's marker) every reported success had such a candidate live, readable under that attempt's key. |
| Restore.DataDir.Restore | internal/backup/restore.go:111-148 | Holds the directory invariant at every return, a crash included; success only with a live database that decrypts fully and carries the reported id. Without failures: a fresh attempt succeeds exactly on a usable archive, a 32-byte key and a usable passphrase; a pending switch succeeds if the candidate decrypts and is rolled back otherwise; past the switch an attempt succeeds exactly when the live database, whichever it is, passes the check, and otherwise ends rolled back, or, exactly when the pre-snapshot is used up, leaves everything as it is. With any failures a directory in that last case stays in it. |
| Restore.DataDir.RunRestore | internal/backup/restore.go:184-408 | Success means an archive that opens, matches its manifest and has format 1, a known schema and a 32-byte key, and that the live database is the stamped re-encryption of this archive's snapshot with its exact item, version and session counts, and the previous contents are in the reported pre-snapshot. |
| Restore.DataDir.ResumeRestore | internal/backup/restore.go:410-469 | The same for a recorded attempt: before the switch it starts over, a pending switch is completed or rolled back, past the switch success, roll-back and no end are told apart exactly. |
| Restore.DataDir.CheckLive | internal/backup/restore.go:436-456 | The check of a resumed switch: success exactly when the live database decrypts and carries the recorded id. |
| Restore.DataDir.RollbackRestore | internal/backup/restore.go:473-487 | Brings the contents from before the attempt back, or leaves the live database as it is; keeps the invariant whichever step dies. |
| Restore.DataDir.HookFailure | internal/backup/restore.go:586-597 | A failed stage before the switch leaves the live database untouched and discards candidate and state; whichever of the two removals fails, the invariant holds. |
| Restore.DataDir.PostSwitchCheck | internal/backup/restore.go:537-561 | Passes only a live database that carries the recorded id and decrypts fully under the target key. |
| Restore.DataDir.BuildCandidate | internal/backup/restore.go:288-363 | Copy, rekey, migrate, stamp and verify: a switch-ready state is recorded only over a complete candidate built from the archive. |
| Restore.DataDir.TakePresnapshot | internal/backup/restore.go:255-286 | The recovery state names a whole copy of the live database, or an empty target. |
| Restore.DataDir.MarkedIsGood | internal/backup/restore_marker.go:21-45 | When no presented id is the old database's marker, the marker identifies the candidate. |
| Restore.MisleadingRun | internal/backup/restore.go:473-487 | Why ids must be fresh, from a new directory on: a backup is restored, the service goes on, the same backup is restored again and its rollback dies before removing the state; the next attempt reports success over the database from before. |
| Restore.RepeatedRestore | internal/backup/restore.go:184-487 | The second half of that run, over any readable database that carries the archive's id. |
| Restore.BuiltIsVerified | internal/backup/restore.go:525-532 | A built candidate passes the full decrypt verification under its key carries its archive's id, and has the archive's rows with their plaintexts and none of its sessions, login attempts and idempotency keys. |
| Rekey.DatabaseFile.RekeyCandidate | internal/backup/rekey.go:29-192 | Succeeds exactly when every current and archived payload opens under the source key; then every payload has the plaintext it had, under the target key, with ids, scopes, owners, revisions and times unchanged and authentication state cleared; otherwise nothing changed. |
| Rekey.RekeyRoundTrip | internal/backup/rekey.go:29-192 | Rekeying to another key and back reads exactly as the original did. |
| Rekey.RekeyedIsReadable | internal/backup/restore.go:525-532 | What rekeying produces passes the verification of the restore. |
| Rekey.VerifyCandidate | internal/backup/restore.go:527-532 | The row loop accepts a file exactly when every payload authenticates under its own identity. |
| Rekey.FoldedIdentity | internal/backup/rekey.go:56-104 | The owner-or-creator subject that rekeying binds is the one the vault service encrypted under. |
| Browse.Browse | internal/vault/browse.go:144-226 | Returns exactly the page: authorised, filtered, matched, sorted, after the cursor, cut to the limit, for every order and batch boundary; it errs exactly on bad input or when the scan meets an unreadable row it needs; the scan terminates. |
| BrowseOrder.SqlAgrees | internal/vault/browse.go:40-48 | The text of the SQL keyset comparison and the in-memory comparison are the same order. |
| Browse.SqlPage | internal/vault/browse.go:85-123 | A keyset query returns the next rows of the in-memory order after the cursor. |
| Browse.CursorAdvances | internal/vault/browse.go:163-211 | After a batch, the rows past the new cursor are the rows not yet scanned: no row is skipped or met twice. |
| BrowseHeap.BrowseHeap.Consider | internal/vault/browse.go:187-200 | After each row the bounded heap holds exactly the best rows seen, as a multiset, in heap order. |
| BrowseHeap.BrowseHeap.Down | internal/vault/browse.go:124-137 | Sifting down restores heap order and permutes. |
| BrowseHeap.BestGrows | internal/vault/browse.go:187-200 | What one more row does to the best rows seen: kept, kept instead of the worst, or dropped. |
| Browse.TitleScanIsPage | internal/vault/browse.go:144-226 | The whole-vault title scan ends with the page. |
| Browse.TimestampScanIsPage | internal/vault/browse.go:144-226 | The early-stopping timestamp scan ends with the same page. |
| BrowsePages.BrowsePage | internal/httpapi/items_browse.go:30-57 | One page with its next cursor, which is there exactly when a row follows; out-of-range page sizes are refused. |
| BrowsePages.FollowPages | internal/httpapi/items_browse.go:30-57 | Following the cursors over an unchanged vault yields every match exactly once, in order, in full pages but the last. |
| BrowsePages.PageIsAuthorised | internal/vault/browse.go:51-81 | A page shows only untrashed rows the actor owns or that are shared. |
| BrowseMeaning.ListedIff | internal/vault/browse.go:51-81 | Which rows are listed, column by column: those not in the trash, owned or shared, readable, and meeting every filter that was given; all of them. |
| BrowseMeaning.ListingInOrder | internal/vault/browse.go:22-48 | The order, without the comparison that the scan uses: by title upwards or downwards, by update time upwards or downwards or by creation time downwards, and by id upwards among equals. |
| BrowseMeaning.PageOfListing | internal/vault/browse.go:144-226 | A page is a stretch of that listing: it begins at the first row behind the cursor and ends at the limit. |
| Order.TextLessMeans | internal/vault/browse.go:40-48 | Text order: the first differing byte decides, and a proper prefix comes first. |
| AuthRuns.SessionsMatchPassword | internal/auth/service.go:124-311 | In every interleaving of in-flight logins (with rehash or not), password changes, revocations and administration, an unrevoked session was authenticated with the password its active account has now; idle expiry never exceeds absolute expiry, which is 24 hours after creation; an administrator remains. |
| AuthRuns.ChangeLeavesOne | internal/auth/service.go:236-311 | Right after a committed change exactly one session of the account is unrevoked, the new one, and no login in flight under another password can commit. |
| AuthRuns.LoginIsAccepted | internal/auth/service.go:126-232 | A committed login's session is accepted exactly when the account was active and still had the hash that was verified. |
| AuthRuns.UndisturbedLogin | internal/auth/service.go:126-232 | A login by itself leaves one session with the two expiries, and a new hash exactly when the stored one has other parameters. |
| AuthRuns.RevivedOnlyByStaleTouch | internal/auth/sessions.go:56-64 | A rejected session is accepted later exactly when a touch that read the clock before the rejection commits after it. |
| AuthRuns.RejectionLasts | internal/auth/sessions.go:34-64 | A rejected session stays rejected, at every later time and through the whole run, exactly when no touch of it that read the clock before the rejection is among the events. |
| AuthRuns.StaleTouchRevives | internal/auth/sessions.go:56-64 | A session that is rejected at its idle expiry is accepted there again after a touch of a minute before. |
| AuthRuns.EndedForGood | internal/auth/sessions.go:94-158 | A session that is logged out, revoked by its owner or an administrator, or hit by a disable, a delete or a password change is rejected at every time throughout every continuation, late touches included. |
| AuthRuns.StepCleaner | internal/auth/maintenance.go:13-23 | Per event, exactly: the cleaned tables stay the others less dead rows, unless the event presents a session that was cleaned up yet is live on its older clock reading, passes its other checks, and does more than change dead rows. |
| AuthRuns.DiscreetIsCleaner | internal/auth/maintenance.go:13-23 | Over every run, exactly: the run with its clean-ups and the run without stay alike at every moment if and only if it has no such event. |
| AuthRuns.CleanupInvisible | internal/auth/maintenance.go:13-23 | Then clean-ups at any moments, on any clock readings, change no later answer to any session, no account and no work in flight, and the run is possible without them. |
| AuthRuns.InOrderIsDiscreet | internal/auth/maintenance.go:13-23 | Runs whose clock readings are never older than an earlier clean-up's have no such event. |
| AuthRuns.MissingDoesNothing | internal/auth/maintenance.go:13-23 | An event that presents a cleaned-up session changes nothing on the cleaned tables, and its clock reading is older than the clean-up. |
| AuthRuns.CleanupShowsUnderStaleTouch | internal/auth/maintenance.go:13-23 | One such event: a touch after which the session is accepted only where nothing was cleaned up. |
| AuthRuns.CleanupHidesExpired | internal/auth/sessions.go:124-158 | The one owner's request a clean-up answers differently: revoking a session of theirs that had expired. |
| AuthRuns.SetupGood | internal/bootstrap/service.go:176-183 | The state that setup leaves satisfies the invariant: one administrator, nobody signed in. |
| AuthRuns.RunKeeps | internal/auth/service.go:124-311 | The invariant behind the above is kept by every run. |
| AuthRuns.StepAdminLeft | internal/users/service.go:300-336 | No disable or delete removes the last active administrator. |
| AuthService.AuthTables.BeginLogin | internal/auth/service.go:126-163 | A login goes on exactly for an existing active account and its password; a disabled account is told so only with its password; the rehash follows the target parameters. |
| AuthService.AuthTables.CommitLogin | internal/auth/service.go:164-232 | Compare-and-swap, provisional expiry and audit in one transaction: exactly for an active account that still has the verified hash the hash is replaced and one session with its two expiries is added, or nothing changes. |
| AuthService.AuthTables.CommitChange | internal/auth/service.go:264-311 | Swap, revoke all, mint one, or no change, exactly under the guard on hash, account and live session. |
| AuthService.AuthTables.SetIdleTimeout | internal/auth/sessions.go:165-188 | Accepts 5 to 30 minutes from a settled live session and only ever shortens live sessions. |
| AuthService.AuthTables.Logout | internal/auth/sessions.go:94-122 | Revokes that row and no other, exactly for an accepted session; the session is then rejected at every time. |
| AuthService.AuthTables.RevokeSession | internal/auth/sessions.go:124-158 | Revokes exactly an unrevoked session of the caller's own account. |
| AuthService.AuthTables.Cleanup | internal/auth/maintenance.go:13-23 | Removes exactly the rows that can never authenticate, and counts them. |
| AuthService.AuthTables.Disable | internal/users/service.go:287-362 | Disables and revokes in one transaction under the last-administrator guard; names that guard exactly when it blocks. |
| AuthService.AuthTables.RevokeSessions | internal/users/service.go:415-456 | An administrator's revocation hits all sessions of the account and nothing else, and counts those it revoked. |
| AuthService.AuthTables.Delete | internal/users/service.go:460-525 | Deletes the account with its sessions, every item it owns or created and its idempotency keys, exactly under the checks of the source, or changes nothing. |
| VaultService.VaultTables.Update | internal/vault/service.go:348-454 | Succeeds exactly from the client's own revision of a writable item with an acceptable payload; an ineffective change writes nothing, an effective one makes its envelope current at the next revision, a scope change moves; a stale revision gets the current one and changes nothing; the row has the requested or old favorite flag and tags, the new update time, and otherwise its old columns; every row still opens under its own identity. |
| VaultService.VaultTables.Move | internal/vault/service.go:459-555 | Exactly when the payload is acceptable in the target vault and audited, a new item under its new identity replaces the source in one transaction, with the submitted content. |
| VaultService.VaultTables.ChangeMetadata | internal/vault/service.go:659-731 | Tags and favorite as an ordinary effective update, exactly when the item is writable and the envelope fits; the row then has the requested or old flag and tags, and otherwise its old content and columns. |
| VaultService.VaultTables.RestoreHistory | internal/vault/history.go:54-129 | Succeeds exactly for a writable item and an archived revision, and makes that revision's content current at the next revision, with the row's flag and other columns kept. |
| VaultService.VaultTables.Create | internal/vault/service.go:80-167 | Stores exactly the validated envelope at revision 1 under the creator's ownership, exactly when its checks pass. |
| VaultService.VaultTables.Get | internal/vault/service.go:188-219 | Returns what was last written, exactly to those who may read; in a valid vault decryption never fails. |
| VaultService.VaultTables.UpdateItem | internal/vault/repository.go:195-224 | Applies exactly when the caller's revision is current, not archived yet and not trashed. |
| VaultService.VaultTables.Trash | internal/vault/trash.go:18-53 | Sets the deletion time of exactly a writable item, and nothing else. |
| VaultService.VaultTables.RestoreTrashed | internal/vault/trash.go:57-104 | Clears it again, for its owner or creator. |
| VaultService.PolicyMeans | internal/vault/policy.go:55-80 | On rows that meet the ownership constraint: shared items are read by all, personal ones by their owner, and the one account the row names may change it. |
| VaultService.VaultTables.PurgeExpiredTrash | internal/vault/trash.go:185-212 | Removes exactly the items trashed thirty days ago or longer, all or none. |
| VaultService.TwoWriters | internal/vault/service.go:348-454 | Of two updates from one revision the second conflicts and the first one's content stays. |
| VaultService.UndoUpdate | internal/vault/history.go:54-129 | Restoring what an update superseded brings the old content back two revisions on, with the update in the history. |
| VaultState.WrittenSound | internal/vault/repository.go:195-224 | An effective write keeps the archive at exactly revisions max(1, r-10) to r-1 and every row opening under its own id, scope, subject and revision. |
| VaultState.WriteLosesNothing | internal/vault/repository.go:182-224 | The superseded content is archived where it was; of the others only the eleventh back goes. |
| VaultState.RestorableForTen | internal/vault/repository.go:195-224 | Over any run of writes, a revision's content is archived, and opens, for exactly the next ten writes, and the row ends with the last write's columns, flag and update time. |
| VaultState.PrunedWindow | internal/vault/repository.go:213-222 | Keeping the newest ten revisions leaves exactly the window below the new one. |
| VaultImport.ImportAll | internal/vault/service.go:952-1110 | All or nothing: every archived item becomes one new row under the importer's ownership, no existing row changes, references are carried, the remapped count is the cards whose target got a new id; an unknown commit leaves either nothing or the whole import. |
| VaultImport.ImportedRows | internal/vault/service.go:1056-1110 | Column by column what an imported item becomes; everything that was there still is. |
| VaultImport.Rewrite | internal/vault/service.go:1024-1054 | Rewrites each reference to its target's new id, clears those that point outside, and counts. |
| VaultImport.AssignIds | internal/vault/service.go:1003-1022 | Original ids where free, fresh ones otherwise; all new and distinct. |
| VaultImport.CheckReferences | internal/vault/service.go:982-995 | Accepts exactly the archives whose internal references are to identities every reader of the source can read. |
| VaultReference.FollowsIff | internal/vault/service.go:1024-1054 | Whatever members a payload carries its reference under, and wherever references lead: it is stored with where its validated reference leads exactly when the member that is read and the one that is rewritten agree. |
| VaultReference.GreatestKeyMeans | internal/vault/service.go:1024-1054 | The spelling written last is one of the payload's and none is greater. |
| VaultReference.ExactKeysAgree | internal/vault/service.go:1024-1054 | They agree when every member spells the key exactly, however often it comes. |
| VaultReference.OneMisspelt | internal/vault/service.go:929-937 | A single member in another letter case agrees only if it names nothing. |
| VaultImport.ImportedReferencesResolve | internal/vault/service.go:952-1110 | An imported card whose keys agree, and whose reference is not empty, satisfies the rule that creation enforces. |
| VaultImport.MisspeltReferenceStays | internal/vault/service.go:1024-1054 | A payload without a usable reference under the exact key keeps whatever it has under others. |
| Retention.KeepSet | internal/backup/retention.go:27-68 | The nested loops keep exactly the bucket heads with fewer than the limit of newer buckets at some level, at most daily+weekly+monthly of them. |
| Retention.KeepLevel | internal/backup/retention.go:53-66 | One level, early exit included. |
| Retention.KeptByMeans | internal/backup/retention.go:53-66 | With buckets in the order of time, a level keeps exactly the last backup of each of its most recent buckets that hold any, as many as its limit. |
| Retention.NeverKeptAgain | internal/backup/retention.go:18-68 | The half that the store relies on, for one calendar and one backup. |
| Retention.NeverAsksAgainIff | internal/backup/retention.go:18-68 | Over all calendars, backups and additions: a backup left out stays out under new limits exactly when no level rises above what it was, or above one where some level was enabled. |
| Retention.RaisedLimitAsksAgain | internal/backup/retention.go:18-68 | Two backups where a raised limit asks for the one that was given up. |
| Retention.KeptStaysKept | internal/backup/retention.go:18-26 | Keeping is idempotent. |
| RetentionRuns.BackupTarget.ApplyRetention | internal/backup/retention_apply.go:21-153 | Over any life of publishes, crashes, failed deletions and changes to no higher limits the target holds every archive the whole history's keep set asks for; a pass deletes exactly the rest, spares the newest file, and without failures leaves at most one more than the limits. |
| RetentionRuns.BackupTarget.ChangeLimits | internal/backup/retention.go:18-68 | Changing to limits that are no higher keeps that. |
| RetentionRuns.BackupTarget.NewestIsHeld | internal/backup/retention_apply.go:21-153 | While any level is enabled the target holds the newest recorded backup. |
| RetentionRuns.Reconcile | internal/backup/retention_apply.go:90-120 | The deletion loop removes exactly what is neither newest nor kept nor undeletable. |
| Transfer.AtMostOneImport | internal/transfer/transfer.go:452-542 | Over every interleaving of confirmations, cancels, sweeps, revocations, unknown commits and crashes, one preview leads to at most one applied import; a reported import is that one; a reported cancel means none. |
| Transfer.UndisturbedConfirm | internal/transfer/transfer.go:452-542 | From any state that keeps the invariant, with a whole staged preview and a live session, a confirm that nobody disturbs imports once and answers so; if the commit's fate is unknown it answers that. |
| Transfer.UndisturbedCancel | internal/transfer/transfer.go:544-568 | An undisturbed cancel discards the preview and nothing is imported. |
| Transfer.AnsweredForWhatItDid | internal/transfer/transfer.go:452-568 | Over every run a finished request is answered exactly for what it did itself: imported for its applied commit, unknown for its commit of unknown end, refused for a claim that found nothing staged, cancelled for a cancel that claimed, retryable for its failure. |
| Transfer.CommitsCounted | internal/transfer/transfer.go:513-542 | Over every run what the database has applied is the number of commits that went through, and at most one. |
| Transfer.WhatIsImportedWasChecked | internal/transfer/transfer.go:484-512 | Whatever is committed came after its request found the session live and the payloads there. |
| Transfer.LossesLast | internal/transfer/transfer.go:570-606 | A swept directory is gone for good; without metadata no further request begins; without payloads only a request that read them can still import. |
| Transfer.NoImportAfter | internal/transfer/transfer.go:452-568 | After the session is revoked, a cancel has claimed, a crash left a claim behind, or a sweep took the staged preview, nothing more is imported in any continuation. |
| Transfer.FailureIsRetryable | internal/transfer/transfer.go:479-495 | A failure before the commit gives the preview back. |
| Idempotency.AtMostOneChange | internal/idempotency/service.go:139-264 | In runs without expiry at most one business change commits, in the same step as its record, and every success or replay names its resource. |
| Idempotency.LaterClaims | internal/idempotency/service.go:137-197 | After it, a claim with the same fingerprint replays that resource and any other conflicts, whatever else happens. |
| Idempotency.UndisturbedSuccess | internal/idempotency/service.go:139-235 | A claim by itself makes its change once, records it and is told. |
| Idempotency.UndisturbedFailure | internal/idempotency/service.go:239-246 | A failed one changes nothing and leaves the key free. |
| Idempotency.UndisturbedUntold | internal/idempotency/service.go:216-246 | A commit that took effect but reported an error is told as a failure, and stays recorded. |
| Idempotency.UndisturbedBusy | internal/idempotency/service.go:167-197 | Against a pending row: in flight for the same fingerprint, a conflict for another. |
| Idempotency.UndisturbedReclaim | internal/idempotency/service.go:167-197 | An expired row is reclaimed. |
| Idempotency.UndisturbedLate | internal/idempotency/service.go:216-235 | A claim that expires before its work is done completes nothing. |
| Idempotency.AtMostSixSteps | internal/idempotency/service.go:139-197 | Whatever others do, a claim is over after at most six steps of its own. |
| Idempotency.ChangesBalance | internal/idempotency/service.go:139-274 | Over every run, expiry included: the business changes are the completed rows that were deleted and the one that stands. |
| Idempotency.SecondChangeIff | internal/idempotency/service.go:139-274 | A completion makes a change that is not the first exactly when a completed row was deleted before it, by a stale inspection or a clean-up. |
| Idempotency.ManyChangesIff | internal/idempotency/service.go:139-274 | A run ends with more than one change exactly when two completed rows were deleted, or one and another stands; without expiry none is deleted. |
| Idempotency.AnswersAreBacked | internal/idempotency/service.go:139-264 | Over every run, expiry and crashes included: no change is undone and no request is told of a resource that was not made. |
| Idempotency.ReplaysAreOwn | internal/idempotency/service.go:248-264 | Over every run a replay is of something recorded under the request's own fingerprint. |
| Idempotency.ExpiryAllowsTwo | internal/idempotency/service.go:167-197 | A run that shows it: one expiry, one stale delete, the same request changes the business twice. |
| MemoryGate.EveryScheduleFinishes | internal/auth/password.go:262-271 | For any number of calls and any schedule: memory in use is the sum held and within the budget, at most the configured calls are past the slots, some step is always enabled, and all calls finish in boundedly many steps. |
| MemoryGate.StepAccounted | internal/auth/password.go:129-143 | The 32-bit additions and subtractions never wrap. |
| MemoryGate.StepNoLostWakeup | internal/auth/password.go:129-143 | A parked call whose request fits always has a broadcast coming. |
| MemoryGate.SomeStepEnabled | internal/auth/password.go:262-271 | No schedule gets stuck. |
| Phc.ParseInvertsEncode | internal/auth/password.go:291-334 | Parsing undoes printing for all parameters in range, and refuses short salts and keys that are not 32 bytes. |
| Phc.ParsesIff | internal/auth/password.go:299-334 | Exactly what is accepted: name, version 19, parameters within the bounds, a salt of 8 bytes or more, a key of 32. |
| Phc.EncodeInjective | internal/auth/password.go:291-297 | No two hashes print alike. |
| Phc.NewHashesVerify | internal/auth/password.go:74-106 | A valid policy can verify what it creates, and rehashes exactly what differs from its target. |
| Phc.AcceptsIff | internal/auth/password.go:253-260 | A hash is verified exactly when it fits the maxima and the memory budget. |
| Base64.DecodesEncoded | internal/auth/password.go:291-334 | Unpadded base64 decoding undoes encoding. |
| Base64.BreaksIgnored | internal/auth/password.go:299-334 | A line break anywhere changes nothing. |
| Limiter.LoginLimiter.ReserveAttempt | internal/auth/limiter.go:26-49 | Admitted exactly when the last minute holds fewer than the limit of admitted attempts per user, per source and in all, whatever was deleted; every minute keeps those limits; a denied attempt leaves no trace. |
| Limiter.WithinLimitsMeans | internal/auth/limiter.go:26-49 | In plain terms: of the attempts admitted within any one minute no more than the limits are of one user, from one source, or there at all. |
| Limiter.LoginLimiter.CleanupLoginAttempts | internal/auth/maintenance.go:28-36 | Maintenance with a cutoff no window reaches any more removes exactly the older rows and changes no later answer. |
| Limiter.HitList.Allow | internal/httpapi/csrf.go:142-159 | With in-place compaction: denied exactly when the window is full, and every window of the configured length holds at most the limit. |
| Limiter.HitList.Compact | internal/httpapi/csrf.go:147-152 | The in-place loop leaves exactly the recent hits, in order. |
| Limiter.BoundedMeans | internal/httpapi/csrf.go:142-159 | The bound on windows bounds any set of hits that lie within one span. |
| Limiter.AdmitKeepsBound | internal/auth/limiter.go:26-49 | Admitting when the window that ends now has room keeps every window within the limit. |
| Scheduler.AtMostOncePerDate | internal/scheduler/scheduler.go:214-345 | In every interleaving of evaluations, busy runs, panics, reloads and restarts in which the keyed date does not move back and no restart loses a marker, the counted runs have strictly increasing dates, and one call at a time is inside the job. |
| Scheduler.TwiceIff | internal/scheduler/scheduler.go:214-345 | Over every run, clock moves and restarts included: some date has two counted runs exactly when a run that was not busy started under a date that had one. |
| Scheduler.AgainIffMovedBack | internal/scheduler/scheduler.go:297-345 | While no marker is lost, a run starts under such a date exactly when the date has moved back, to one that ran before the last one did. |
| Scheduler.TwiceIffMovedBack | internal/scheduler/scheduler.go:214-345 | Over every run that loses no marker: some date has two counted runs exactly when a counted run started on a date that the local date had moved back to. |
| Scheduler.StepMarked | internal/scheduler/scheduler.go:214-251 | The marker parts from the last counted date exactly at a restart between a run and its marker. |
| Scheduler.BusyLeavesTheDate | internal/scheduler/scheduler.go:255-281 | A busy run leaves the date open. |
| Scheduler.UndisturbedRun | internal/scheduler/scheduler.go:214-281 | A due evaluation on a date that has not run runs the job once, however it ends, and marks the date unless it was busy; the guard is open again. |
| Scheduler.EveryRunCounts | internal/scheduler/scheduler.go:255-281 | Over every run, one counted date for each run that ended other than busy, and none is forgotten. |
| Scheduler.ClockBackRunsAgain | internal/scheduler/scheduler.go:297-320 | From a new scheduler: one date runs, another, and back on the first it runs again. |
| Scheduler.RestartRunsAgain | internal/scheduler/scheduler.go:233-251 | From a new scheduler: a restart after the run and before its marker, and the date runs again. |
| Scheduler.DecidesAsIsDue | internal/scheduler/scheduler.go:214-231 | The decision of the state machine is the guard and `isDue` at that time. |
| Daily.DailyRunAt | internal/scheduler/daily.go:43-56 | The loop ends, within its four turns, at the instant given by the cases of the offset change. |
| Daily.RunsOnItsDay | internal/scheduler/daily.go:37-56 | The run is on its day at or after the wall time exactly when the time exists, or the skipped stretch leaves room for the shift within the day. |
| Daily.HowLate | internal/scheduler/daily.go:37-56 | An existing time is met exactly; a skipped one runs later by the whole shift, not at the first valid instant. |
| Daily.FirstOccurrence | internal/scheduler/daily.go:37-56 | A repeated time runs at its first occurrence exactly when, read as UTC, it precedes the change. |
| Daily.IsDue | internal/scheduler/scheduler.go:297-320 | Due exactly when the instant has come and its date, not the evaluation's, is not the marker. |
| Daily.DueOnTheDay | internal/scheduler/scheduler.go:297-320 | What every evaluation of a day answers: due from its instant under its own date; or, when the shift reaches back over midnight, under the date before; or, when it reaches on over midnight, never. |
| Daily.RunsEveryOrdinaryDay | internal/scheduler/scheduler.go:297-320 | A job that ran the day before is due at some moment of the day exactly when the shift does not carry its time out of the day. |
| Daily.KeysInOrder | internal/scheduler/scheduler.go:297-320 | With a fixed time and zone and a change inside its day, keyed dates never go back and a local date has one of them. |
| Daily.ThreeZones | internal/scheduler/daily.go:37-56 | Three zones where those cases differ. |
| Aad.InjectivityBound | internal/platform/crypto/aad.go:31-52 | The encoding is injective for fields of a given length exactly up to 4 GiB. |
| Aad.EncodedInjective | internal/platform/crypto/aad.go:31-52 | Different identities encode differently. |
| Aad.Encode | internal/platform/crypto/aad.go:31-52 | The buffer loop writes that encoding. |
| Aad.Vector | internal/platform/crypto/aad.go:31-52 | The bytes of one identity, written out. |
| Fingerprint.FramedInjective | internal/idempotency/service.go:126-135 | The framing fed to the MAC is injective on lists of strings. |
| Fingerprint.Write | internal/idempotency/service.go:126-135 | The loop writes that framing. |
| Fingerprint.Vector | internal/idempotency/service.go:126-135 | The bytes of one field list, written out. |
| Payload.DecodeInvertsEncode | internal/platform/crypto/payload.go:75-97 | Decoding undoes encoding exactly on current-version payloads with at least a tag, and refuses the rest. |
| Payload.EncodeInvertsDecode | internal/platform/crypto/payload.go:75-97 | Every accepted blob is the encoding of what it decodes to. |
| Payload.SealedOpens | internal/platform/crypto/payload.go:101-161 | What is sealed under an identity opens under it from its columns. |
| Payload.OpensOnlyUnderItsIdentity | internal/platform/crypto/payload.go:101-161 | Over the primitive itself: a payload opens under the identity it was sealed for, and is refused under any other whose bytes the primitive refuses, for fields under 4 GiB. |
| RowIdentity.SealedOpensExactlyThere | internal/vault/service.go:787-801 | Over a primitive that does not open one ciphertext under two additional data: what is sealed for a row position opens at a position exactly when item, vault, account (the owner, else the creator), payload version and revision all agree. |
| RowIdentity.KeptOpensOnlyThere | internal/vault/service.go:787-801 | In a sound vault a current or archived payload opens nowhere else: not at another revision, not as another item, not under another owner. |
| RowIdentity.RolledBackRowFails | internal/vault/service.go:787-801 | So a row that took an archived payload of its own no longer decrypts. |
| RowIdentity.RolledBackFileFails | internal/backup/restore.go:525-532 | A database file with such a row fails verification and rekeying. |
| RowIdentity.SwappedFileFails | internal/backup/restore.go:525-532 | So does one in which a row took another item's payload. |
| Mobile.AnyRun | mobile/src/auth/session.ts:91-494 | Over every sequence of stretches: once there has been a sign-out, a server switch, an invalidation, direct or by a 401, or anything else that took the session's token away since a request began, neither its response nor the rest of its action changes phase, account, tokens, cookies or client; a phase with a session always has a client, an account and a token. |
| Mobile.SignOutAlone | mobile/src/auth/session.ts:440-494 | Signing out with nothing else in between wipes account and tokens exactly when the user was not already shown as signed out, or there was nothing to wipe. |
| Mobile.SessionController.Resume | mobile/src/auth/session.ts:91-494 | Exactly what the rest of an action makes of what is shown, kind by kind and response by response, a 401 ending the session included; nothing when it was overtaken; other requests keep their stamps and results. |
| Mobile.SessionController.Arrive | mobile/src/api/client.ts:106-201 | An overtaken response was cancelled, a cancelled one delivers nothing; a timely one changes cookies only, short of a 401, which ends the session exactly when there is one; other requests keep their stamps and results. |
| Mobile.SessionController.SetServerUrl | mobile/src/auth/session.ts:122-149 | A switch starts with no token, account or cookie, and cancels everything from before, which keeps the generation it began under. |
| Mobile.SignOutAfterFailedLogin | mobile/src/auth/session.ts:440-494 | A run where signing out leaves the old token and account behind. |

## Left out

- Restore: 7-Zip and the extraction tree are one verdict on the archive; the candidate's SQLite sidecars, free-space arithmetic, directory permissions, the state's timestamps and the audit row are not modelled; migration preserves content; nothing else writes the live database between attempts; pre-snapshot names of attempts differ (they carry the second they start in); archive ids are not the old database's marker, except in `Restore.MisleadingRun`.
- Restore.DataDir.RollbackRestore: on an empty target a failed removal is ignored, as in the code, so the candidate may stay live; it is then a complete candidate.
- Browse.Browse: cancellation of the request, creator names and `BrowseTags` are left out; lower-cased keys are part of the row rather than computed; the signed cursor's text form is not modelled.
- AuthRuns.SessionsMatchPassword: a bearer token and its public id are one identity; which password a session was authenticated with is a field of the model only; attempts refused before their transaction change nothing and are no events.
- AuthService.AuthTables.BeginLogin: the rate limiter's verdict, failure audits and hashing errors are left out; the limiter is `Limiter`.
- AuthService.AuthTables.BeginChange: the policy for new passwords is a parameter.
- AuthService.AuthTables.Create: the member's idempotency claim is left out here; claims are `Idempotency`. So is the normalisation of names.
- AuthService.AuthTables.Delete: whether the confirmation repeats the display name is a parameter; of items and idempotency keys only whom they belong to is held here; in the vault the same deletion is `VaultService.VaultTables.DeleteMember`.
- VaultService.VaultTables.Update: JSON is an abstract codec, the grammar and field limits of payloads and tags are decided before the call, retries on a busy database and view audits are left out. The rows of `item_versions` are grouped under their item, so their cascade is structural; SQLite's snapshot rules make the row a transaction read the row it updates.
- VaultImport.ImportAll: tag and payload validation are verdicts on the item; of the payload's JSON text only the members that decode into the reference are held; fresh ids are new and distinct from the archive's.
- RetentionRuns.BackupTarget.ApplyRetention: the R2 listing's prefix filter and the audit of deletions are left out; both targets share the loop. Calendar buckets are any functions of the time.
- RowIdentity.SealedOpensExactlyThere: the primitive is asked, pair by pair, not to open one ciphertext under two different additional data; for all data at once that cannot hold.
- Transfer.AtMostOneImport: one preview at a time, since directories of different tokens are independent (names derived from tokens do not collide); token signing, expiry and the lease are any removal at any time. The step form is used because requests interleave at every file operation.
- Idempotency.AtMostOneChange: one scope and key at a time; the step form is used because claims interleave; expiry is excluded here, and counted exactly in `Idempotency.ChangesBalance`.
- Scheduler.AtMostOncePerDate: one job at a time; marker writes succeed; keyed dates that move back and restarts that lose a marker are excluded here, and covered exactly by `Scheduler.TwiceIff`. The keyed date is a part of the state that may change at any time; `Daily` says what it is. A run that a restart interrupts does not count. Results for the administrator's view are left out.
- Daily.DailyRunAt: one offset change, in whole minutes and at most four hours, around the day; evaluations are at whole minutes.
- MemoryGate.EveryScheduleFinishes: spurious wake-ups do not occur with Go's condition variables; the channel of slots is a counter.
- Phc.ParseInvertsEncode: spaces before a number are ASCII; base64 and `%d` follow Go's documented behaviour, leniency about trailing text included.
- Limiter.LoginLimiter.ReserveAttempt: attempts are timestamped in commit order; digests are the texts themselves.
- Limiter.HitList.Allow: one key; keys are independent. The clock does not go back.
- Mobile.SessionController.Resume: activity throttling, listeners, error texts and the age of the pre-auth token are left out; success bodies carry a token. Request numbers are fresh.
- HTTP handlers, SQLite, file systems, archives and R2 themselves, cryptographic primitives, generators, validators, settings and user interfaces: foreign or easy.
