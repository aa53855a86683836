# Verification of linux-temp-admin

linux-temp-admin hands out temporary privileged accounts on a Linux host and
takes them back. Nearly everything it does spans several stores that cannot be
changed together: the passwd entry, sudo and sshd grants, scheduled tasks, a
registry file with a UID high-water mark beside it, an audit log, and a public
mirror of its releases. Any external call may fail, half-succeed, or take effect
and report an error, and the process may be killed between any two steps. These
Dafny modules model that behaviour and prove what the orderings are for.

`dafny verify dfyconfig.toml` checks everything.

## How it is modelled

- A call that may be killed has an outcome for it, and its postcondition holds in
  every state such a kill may leave; the promises therefore hold at every step,
  not only between calls. Choices written `*` are the world's.
- A file replacement (`Storage`) is a visible rename followed by a directory sync.
  `Done` is durable, `NotDurable` is visible and may be lost. A directory remembers
  its unsynced states; power loss falls back to any of them.
- The registry (`Records`, `Tables`, `Sequences`, `Transitions`, `Registry`,
  `RegistryRuns`) keeps real file contents. The store's invariant is over every
  state power loss may leave: readable, v5 only with a covering sequence, and the
  mark at least every UID ever issued in that state's own past.
- The account lifecycle (`Lifecycle`, `Hosts`, `Deletions`, `Revokes`, `Invites`,
  `Histories`, `Gates`) follows one account name. Between any two steps somebody
  else may edit, replace or remove the account. Every host call appends to a
  history; a destructive step that was not permitted when taken is a breach, and
  `Gates` turns permission into what had to happen before. `Safe` holds the promises
  of the state: tasks armed, usable accounts completely on record, deadlines kept.
  The rows a power loss may bring back are part of that state, and so is whether
  somebody tampers: forges or restores identities, or opens logins.
- The sshd side (`Patterns`, `LoginCheck`, `DropIn`, `SshdExceptions`) keeps the
  directory, the daemon's memory and the effective configuration.
- `Sweeps` is the orphan sweep over all names, remembering every account database
  it saw. `Audit` is the log file with torn writes, `Locks` any number of processes
  over the lock files, `Versions` and `Mirror` the published tree.

Loops and objects the program updates in place are methods over class fields,
proved against functions; protocols between processes are transition systems.

## What the proofs found

- The glob loop tests for a literal match before it tests for `*`, so a subject
  that itself contains `*` can defeat it. It is always sound, and agrees with the
  definition on all patterns exactly when the subject has no `*`
  (`Patterns.LoopExactlyWhenNoStarInSubject`). Account names never do.
- A second removal of an sshd exception, after one whose last directory sync
  failed, reports success without syncing. Its success outlives a power loss if and
  only if the first attempt succeeded or left something to be seen
  (`SshdExceptions.Manager.RemoveAndRetry`, `SshdExceptions.UnsyncedRemoval`).
- The documentation's promise that no UID is handed out twice holds for every UID
  handed out or durably in a row (`RegistryRuns.IdentityIsNew`). A row that was
  visible and never synced may vanish together with its mark, and its UID may then
  be handed out again, exactly when a state that comes back has a mark below it
  (`RegistryRuns.TwoRowsOneUID`, `RegistryRuns.CrashMayReuseIff`).
- A quarantine whose registry commit was visible but not synced cancels the expiry
  task all the same. Power loss can then bring back a row that counts on that task,
  and the next handoff whose commit fails cancels the finalizer as well: no task is
  left. It happens exactly when the commit was not `Done`
  (`Revokes.HandoffForsakesIff`, `Revokes.ForsakenLosesBoth`); without it every
  history keeps a task armed (`Histories.Serve`).
- Recreating a lost sequence restores the promises if and only if the operator's
  mark covers everything ever issued (`Registry.RepairMissingIdentitySequence`).
- A rollback that finds its account vanished deletes without the gates. That is
  harmless because an identity carries 128 random bits and does not come back. If
  somebody restores it before the deletion looks, Home and account go without them
  (`Gates.ResurrectionEscapesTheGates`), unless this run had already shut the login,
  passed and drained: that is exactly when an invite is unlawful
  (`Invites.Invite.Run`). Revokes have no such path: they stay lawful under any
  tampering.
- Compaction can drop the row of a name that still has a grant, but only if the
  account was live at one moment of that sweep and absent at another
  (`Sweeps.Sweeper.CompactLocked`); every clean sweep in which it vanishes in
  between does (`Sweeps.SweepVanishing`).
- The closing re-parse check of a quarantine can fire only for a deadline outside
  the years 0 to 9999 (`Transitions.QuarantinedParsesIff`).

## Model

| member | source | states |
|---|---|---|
| Storage.Directory.AtomicWrite | internal/fsutil/fsutil.go:285-350 | Under short writes, errors and kills readers see the old entry or the complete new one; only `Done` is durable, `NotDurable` is visible. |
| Storage.Directory.RemoveFile | internal/fsutil/fsutil.go:360-398 | The entry is gone or still there in full; the same four outcomes, and an absent entry still gets its parent synced. |
| Storage.Directory.Sync | internal/fsutil/fsutil.go:342-350 | Success makes every visible entry durable; failure and a kill change nothing readers see. |
| Storage.Directory.Link | internal/registry/sequence.go:245-262 | A second name appears only if it was free, with the complete content. |
| Storage.Directory.Create | internal/registry/store.go:195-222 | Opening in place adds at most an empty entry and never touches an existing one. |
| Numbers.NumberRoundTrip | internal/registry/record.go:130-150 | A decimal field is read back as the number written, for every 64-bit value, and holds no tab or line break. |
| Times.TimeRoundTrip | internal/registry/store.go:541-541 | A whole second of the years 0 to 9999 survives being written in the form of section 5.6 of RFC 3339 and read back, on one clean line. |
| Records.RowRoundTrip | internal/registry/record.go:130-160 | What a written row is read back as: itself with tabs and line breaks flattened, or nothing exactly when that row is invalid. |
| Records.RowIsOneLine | internal/registry/record.go:120-150 | A written row is one line and can never be taken for a header. |
| Records.CleanRowStays | internal/registry/record.go:120-120 | Flattening changes nothing in a row free of tab, CR and LF. |
| Tables.ReadAll | internal/registry/store.go:266-322 | The line-by-line reader computes exactly the table grammar, refusing a second header, a bad row or a repeated name. |
| Tables.ReadIsValid | internal/registry/store.go:289-320 | Whatever table is read has distinct names and valid rows only. |
| Tables.BuildTable | internal/registry/store.go:420-441 | The builder returns the rendered table, or nothing exactly when it is over the size limit. |
| Tables.TableRoundTrip | internal/registry/store.go:266-322 | Reading what was written for any valid rows returns those rows, flattened, under the v5 header. |
| Tables.CleanTableRoundTrip | internal/registry/store.go:420-441 | For fields free of tab, CR and LF it returns exactly those records, in order. |
| Tables.SanitizedRowIsValid | internal/registry/record.go:120-150 | Flattening keeps a valid row valid and touches only its descriptive fields. |
| Sequences.SequenceRoundTrip | internal/registry/sequence.go:46-52 | Every writable high-water mark and safe-after instant is read back as written. |
| Sequences.ReadIsWritable | internal/registry/sequence.go:295-332 | A sequence file that is read is one this tool could have written. |
| Sequences.CeilSecond | internal/registry/sequence.go:54-60 | The first whole second that is not before the instant, for every instant. |
| Transitions.RecordRows | internal/registry/store.go:447-476 | The loop computes Recorded: the row replaces its name's, a started deletion refuses. |
| Transitions.RemoveRows | internal/registry/store.go:706-737 | The loop computes Removed: the name's row goes, a started deletion refuses. |
| Transitions.CompactRows | internal/registry/store.go:779-819 | Exactly the ordinary rows the callback rejects go; it fails exactly when the callback fails on an ordinary row. |
| Transitions.BeginDeletionRecords | internal/registry/store.go:591-653 | The in-place transition computes DeletionBegun for every valid table. |
| Transitions.BeginQuarantineRecords | internal/registry/store.go:535-578 | The in-place transition computes QuarantineBegun and says whether it fills in the UID. |
| Transitions.FinishDeletionRecords | internal/registry/store.go:684-702 | The loop computes DeletionFinished: only the exact user, UID and generation go. |
| Transitions.AppliedIsValid | internal/registry/store.go:591-653 | Every transition of a valid, name-distinct table yields a valid, name-distinct table. |
| Transitions.OthersUntouched | internal/registry/store.go:447-578 | Every other name keeps its row, and the order of the others stays. |
| Transitions.AppliedUIDs | internal/registry/store.go:342-354 | A transition brings in no UID but the one it names. |
| Transitions.WitnessStays | internal/registry/store.go:447-476 | No mutation alters or drops a started deletion but its own exact finish. |
| Transitions.BoundNeverWeakened | internal/registry/store.go:591-653 | A completed bound row's deletion keeps its UID and generation; it is never weakened to the UID alone. |
| Transitions.QuarantinedParsesIff | internal/registry/store.go:557-562 | The closing re-parse check fires exactly for deadlines outside the years 0 to 9999, never otherwise. |
| Transitions.UnsanitizedIsValid | internal/registry/store.go:447-476 | A row whose flattened form is valid was valid before flattening. |
| Transitions.Parses | internal/registry/store.go:557-562 | The re-parse accepts a row exactly when it is valid once flattened. |
| Registry.HighestRecordedUID | internal/registry/store.go:360-368 | The loop finds the greatest recorded UID, 0 for none. |
| Registry.SafeCovers | internal/registry/sequence.go:110-119 | In every state of the invariant a v5 table has a sequence at or above every recorded UID. |
| Registry.SequenceRaised | internal/registry/sequence.go:65-96 | Writing a sequence that is not lower keeps the invariant and leaves the table alone. |
| Registry.TablePublished | internal/registry/store.go:420-441 | Publishing covered rows keeps the invariant once the sequence covers everything ever issued. |
| Registry.Store.EnsureSequence | internal/registry/sequence.go:65-96 | At every kill and error the mark only rises, the table stays, and success means it is at least the seed. |
| Registry.Store.RequireCovering | internal/registry/sequence.go:98-119 | Success proves a readable sequence that covers the rows; the refusal is reported exactly when it does not. |
| Registry.Store.WriteAll | internal/registry/store.go:420-441 | Publishes exactly these rows, durably on success, and never a table without a covering sequence, also after power loss. |
| Registry.Store.ReadMutationSnapshot | internal/registry/store.go:329-340 | The rows, and whether the format is older; for a current table the mark covers all issued UIDs. |
| Registry.Store.CommitMutation | internal/registry/store.go:342-354 | Migrates first and publishes second: no kill or power loss in between breaks the invariant. |
| Registry.Store.Record | internal/registry/store.go:447-476 | What any outcome may leave in the table: the old one or the recorded one; a UID above the mark is refused. |
| Registry.Store.Remove | internal/registry/store.go:706-737 | The old table or the one without the row; durable once it succeeded with a change. |
| Registry.Store.Compact | internal/registry/store.go:779-819 | Only ordinary rows the callback rejected go, and the count is the number removed. |
| Registry.Store.BeginDeletion | internal/registry/store.go:485-512 | A UID that enters the table by the witness is burned first, at every kill point. |
| Registry.Store.BeginQuarantine | internal/registry/store.go:520-578 | The quarantined row or the old one; another task name or an empty deadline never succeeds. |
| Registry.Store.FinishDeletionRecovery | internal/registry/store.go:660-682 | Drops only the exact deletion; otherwise the table stays. |
| Registry.Store.Init | internal/registry/store.go:56-155 | Fresh setup, v2, v3 and v4 migration and recovery of a lost table keep the invariant at every kill; a loss is observed exactly when the sequence proves prior use. |
| Registry.Store.ReserveIdentity | internal/registry/sequence.go:338-370 | The result is the next free one of the range, above every UID ever issued in its lineage, burned durably; isolated exactly when safe-after has passed. |
| Registry.Store.CheckIntegrity | internal/registry/sequence.go:125-159 | Complains exactly about an unreadable table or a broken sequence beside an older one: no reachable current state is refused. |
| Registry.Store.PowerLoss | internal/fsutil/fsutil.go:24-40 | Any suffix of the unsynced directory changes may go; what is left keeps the invariant. |
| Registry.RepairMissingIdentitySequence | internal/registry/sequence.go:166-204 | An existing file is never replaced; one that appears holds the vouched mark and covers the table, and the invariant holds again if and only if that mark covers everything ever issued. |
| Registry.PublishExclusive | internal/registry/sequence.go:213-274 | Complete content under a name that was free, or nothing; durable on success. |
| Registry.RepairRestores | internal/registry/sequence.go:161-204 | The repaired state keeps the invariant if and only if the vouched mark covers everything ever issued. |
| Registry.Store.WriteSequence | internal/registry/sequence.go:65-96 | Every kill leaves the old mark or the new, never a lower one, and the table untouched. |
| Registry.Store.WithLock | internal/registry/store.go:243-257 | A mutation goes on only if the lock file is there. |
| Registry.Store.Advance | internal/registry/store.go:499-509 | A UID is burned before the row that first records it, and the table stays as it was meanwhile. |
| Registry.Store.CreateLock | internal/registry/store.go:195-210 | Only the lock entry may appear; success means it is durable. |
| Registry.Store.StartEmpty | internal/registry/store.go:104-135 | A fresh v5 table is never visible before its sequence, and keeps the mark of a lost one. |
| Registry.Store.NoteLoss | internal/registry/store.go:112-125 | The loss is recorded exactly when the surviving sequence proves prior use, with its mark. |
| RegistryRuns.Call | internal/registry/store.go:447-737 | Each store call does to the table exactly what its transition says. |
| RegistryRuns.DurableDeletionIsWitnessed | internal/registry/store.go:485-512 | A started deletion with nothing unsynced behind it is in every state that can come back. |
| RegistryRuns.StepKeepsWitness | internal/registry/store.go:447-819 | One call, kill or power loss keeps a started deletion in every state that can come back, unless it asks for its exact finish. |
| RegistryRuns.WitnessLasts | internal/registry/store.go:676-702 | Over any run a started deletion stays in every state that can come back until its exact finish is asked for. |
| RegistryRuns.StaysBurned | internal/registry/sequence.go:338-370 | What every state remembers as issued at one point of a run, every state remembers at all later points. |
| RegistryRuns.IdentityIsNew | internal/registry/sequence.go:338-370 | Over any run an identity is in the range asked for and above every UID handed out or durably recorded before, rows since removed included. |
| RegistryRuns.ReservableIff | internal/registry/sequence.go:338-370 | A reservation can hand out a UID next if and only if the mark is below it. |
| RegistryRuns.CrashMayReuseIff | internal/registry/store.go:485-512 | After power loss a UID can be handed out again if and only if a state that may come back has a mark below it, so never one that is burned in all of them. |
| RegistryRuns.TwoRowsOneUID | internal/registry/store.go:485-512 | A run, write by write, in which one UID is in two rows: a deletion raises the mark and writes its row, neither synced, power is lost, and the UID is reserved and recorded again. |
| RegistryRuns.TakeStep | internal/registry/store.go:447-819 | Each call of the store is a step of such a run. |
| RegistryRuns.Run | internal/registry/sequence.go:338-370 | Any script of calls, failures, kills and power losses: every identity handed out is in its own step's range, above every UID handed out or durably in a row at any earlier point, and still burned at the end. |
| Patterns.MatchSSHDPattern | internal/sysinfo/sshd.go:954-979 | The backtracking loop terminates, is sound against the recursive meaning for all byte strings, and complete for subjects without `*`. |
| Patterns.ScanSound | internal/sysinfo/sshd.go:954-979 | From every loop state a reported match is a real one, though only the last star is remembered. |
| Patterns.ScanComplete | internal/sysinfo/sshd.go:954-979 | From every loop state of a star-free subject a real match is found. |
| Patterns.LoopExactlyWhenNoStarInSubject | internal/sysinfo/sshd.go:960-970 | The loop agrees with the recursive definition on all patterns if and only if the subject holds no `*`. |
| LoginCheck.ParseSSHD | internal/sysinfo/sshd.go:96-111 | The configuration holds, key by key, exactly the words printed for it, in order. |
| LoginCheck.SplitCommas | internal/sysinfo/sshd.go:981-991 | The trimmed, non-empty parts of every value. |
| LoginCheck.ExpandAuthorizedKeysPath | internal/sysinfo/sshd.go:838-877 | The in-place token scan computes the expansion, or nothing exactly for names and tokens it cannot resolve. |
| LoginCheck.ReadsDefaultAuthorizedKeys | internal/sysinfo/sshd.go:820-832 | True exactly when some entry names the managed file. |
| LoginCheck.MatchesUser | internal/sysinfo/sshd.go:900-907 | True exactly when some pattern's user half matches some name. |
| LoginCheck.MatchesAllow | internal/sysinfo/sshd.go:913-926 | Separates outright matches from those that hang on a host part. |
| LoginCheck.UnsureOrNot | internal/sysinfo/sshd.go:913-943 | A list matches if and only if something matches outright or something is left undecided. |
| LoginCheck.CheckAccess | internal/sysinfo/sshd.go:756-790 | Adds exactly the access directives that refuse the account, and every undecided entry. |
| LoginCheck.CheckKeyLogin | internal/sysinfo/sshd.go:705-729 | The report names every blocker and nothing else, with its value and the algorithm directive. |
| LoginCheck.MatchesUserHalf | internal/sysinfo/sshd.go:930-943 | True exactly when the half before the host part matches some name. |
| LoginCheck.CheckAllowUsers | internal/sysinfo/sshd.go:766-782 | Adds the blocker exactly when no entry could match, and lists every undecided one. |
| DropIn.Render | internal/sshdconf/sshdconf.go:571-634 | Renders the file exactly when the report can be lifted; refuses exactly for a missing directive or primary group. |
| DropIn.FileIsScoped | internal/sshdconf/sshdconf.go:553-627 | For every other user the file changes nothing, and it leaves the rest of the configuration global. |
| DropIn.Overrides | internal/sshdconf/sshdconf.go:571-627 | Each reported blocker's directive gets the rendered value, each other one keeps its own. |
| DropIn.ChangesOnlyBlocked | internal/sshdconf/sshdconf.go:571-627 | No directive outside the reported blockers changes. |
| DropIn.ReportSpells | internal/sysinfo/sshd.go:705-729 | A report from CheckKeyLogin always holds what rendering needs, and names the directive in force. |
| DropIn.AlgorithmsGrowByOne | internal/sshdconf/sshdconf.go:596-615 | The algorithm list grows by exactly ssh-ed25519 if it was the blocker, and stays otherwise. |
| DropIn.DropInSuffices | internal/sshdconf/sshdconf.go:571-627 | With the file in force CheckKeyLogin reports no blocker, for every configuration whose report is fixable. |
| DropIn.RenderMethods | internal/sshdconf/sshdconf.go:571-604 | The directives for the method blockers, or nothing exactly when the algorithm directive is missing. |
| DropIn.RenderAccess | internal/sshdconf/sshdconf.go:605-626 | The access directives and the closing scope, unless the primary group is no valid name. |
| SshdExceptions.OwnerOfName | internal/sshdconf/sshdconf.go:428-463 | A file name belongs to an account if and only if it is that account's drop-in or marker. |
| SshdExceptions.Manager.StageRemoval | internal/sshdconf/sshdconf.go:302-343 | Marker first, drop-in second: at every kill a daemon that may hold the exception has a file to find it by; nothing happens where nothing is. |
| SshdExceptions.Manager.FinishRemoval | internal/sshdconf/sshdconf.go:347-364 | The marker goes only after the daemon adopted the directory without the drop-in; a failure that leaves nothing to be seen has left the marker in an unsynced state. |
| SshdExceptions.Manager.Remove | internal/sshdconf/sshdconf.go:279-297 | Success: no drop-in, no marker, a daemon without it, durably if this call found something. A failure that leaves nothing to be seen is not durable, and a call that finds nothing changes nothing. |
| SshdExceptions.Manager.RemoveAndRetry | internal/sshdconf/sshdconf.go:279-297 | A failed removal tried again: its success outlives power loss if and only if the first attempt succeeded or left something to be seen. |
| SshdExceptions.UnsyncedRemoval | internal/sshdconf/sshdconf.go:366-371 | The state in between: the marker is gone from view, the sync failed, and power loss brings it back. |
| SshdExceptions.Manager.Handle | internal/sshdconf/sshdconf.go:137-297 | What one result tells its caller: settled for good, nothing touched, or in doubt. |
| SshdExceptions.Manager.RunKnowing | internal/sshdconf/sshdconf.go:137-364 | Over any requests only accounts whose last effective request failed or was killed can have an exception that is out of view and yet comes back. |
| SshdExceptions.Manager.Rollback | internal/sshdconf/sshdconf.go:192-216 | Taking back without a reload is sound: a reported rollback leaves no file and a daemon that does not hold it. |
| SshdExceptions.Manager.ProveAndAdopt | internal/sshdconf/sshdconf.go:227-265 | The written exception stands only if the effective configuration was proved and the reload did not fail. |
| SshdExceptions.Manager.Grant | internal/sshdconf/sshdconf.go:137-271 | A grant adds exactly the rendered file; a refusal changes nothing; a rollback leaves nothing. |
| SshdExceptions.Manager.All | internal/sshdconf/sshdconf.go:428-463 | Lists exactly the accounts with an artifact, so every exception the daemon may hold is found; errs exactly on a malformed name. |
| SshdExceptions.Manager.Reboot | internal/fsutil/fsutil.go:24-40 | After power loss the daemon comes back with what is on disk, and the marker invariant holds. |
| SshdExceptions.Manager.Run | internal/sshdconf/sshdconf.go:137-364 | Over any requests, kills and power losses the marker invariant holds and a removed exception does not come back before the next grant. |
| SshdExceptions.Manager.ReloadDaemon | internal/sshdconf/sshdconf.go:664-687 | The daemon keeps what it had or adopts the directory, and may do so and still report failure. |
| SshdExceptions.Manager.ClearPending | internal/sshdconf/sshdconf.go:366-371 | Success removes exactly the marker, durably; allowed only once the daemon does not hold the exception. |
| SshdExceptions.Manager.RemoveInRun | internal/sshdconf/sshdconf.go:279-297 | Removing again what is gone changes nothing, and no other account is affected. |
| Lifecycle.SameIdentityIsEquivalence | internal/user/identity.go:78-88 | The identity comparison is reflexive, symmetric and transitive. |
| Lifecycle.QuarantineDeadline | internal/cli/revoke.go:773-780 | For every instant: a whole minute, at least 65 and less than 125 seconds later. |
| Lifecycle.RegistryAgrees | internal/registry/store.go:447-702 | The registry as a whole does to a name's row exactly what the row alone determines. |
| Lifecycle.BecomesSafely | internal/cli/revoke.go:786-845 | A row change allowed before stays safe, synced or not, whoever edits the account meanwhile. |
| Lifecycle.DeletionMayBegin | internal/cli/revoke.go:1029-1078 | Once nobody can use the account, every deletion witness the registry accepts keeps all promises. |
| Lifecycle.WriteIsSafe | internal/registry/store.go:447-578 | A permitted row change keeps every promise, those about the rows power loss may bring back included. |
| Lifecycle.PowerLossIsSafe | internal/fsutil/fsutil.go:24-40 | Whichever row comes back, every promise is kept that was not forfeited before. |
| Lifecycle.PowerLossSparesTasksIff | internal/cli/revoke.go:816-839 | A matching account has its task in every state power loss may leave if and only if it has it now and every row that may come back finds its own task armed. |
| Hosts.Host.RemoveSudoGrant | internal/cli/revoke.go:1312-1322 | Whatever it reports nothing else moves; only success counts as seen gone. |
| Hosts.Host.RemoveSSHDException | internal/cli/revoke.go:1333-1347 | The same for the sshd exception. |
| Hosts.Host.DisableLogin | internal/user/user.go:220-222 | Success shuts the login, and without tampering it stays shut; any outcome keeps every promise. |
| Hosts.Host.Userdel | internal/user/delete.go:153-186 | Permitted or not, whatever the helper reports, the account may be gone; a call without leave is recorded as a breach, and only that. |
| Hosts.Host.Commit | internal/registry/store.go:447-578 | A row change is visible after `Done` and `NotDurable`, not after `Failed`, and either way after a kill; only a synced one leaves no older row that may come back. |
| Hosts.Host.LosePower | internal/fsutil/fsutil.go:24-40 | Any row not yet synced away may come back; tasks and login state stay, and what was known is void. |
| Hosts.Host.NoteRetirement | internal/cli/revoke.go:837-839 | Giving up the expiry task behind an unsynced row puts on record that its account is at risk. |
| Hosts.Host.ScheduleAuto | internal/schedule/schedule.go:170-205 | A failed attempt may leave the old task, the new one or none; success leaves the one bound to this UID and generation. |
| Hosts.Host.ScheduleQuarantine | internal/schedule/schedule.go:211-225 | The same for the finalizer, whose namespace is separate. |
| Hosts.Host.CancelAuto | internal/schedule/schedule.go:229-236 | Only the expiry task may go, never the finalizer. |
| Hosts.Host.CancelQuarantine | internal/schedule/schedule.go:239-248 | Only the finalizer may go, never the expiry task. |
| Hosts.Host.CreatePendingAccount | internal/user/create.go:16-155 | The account may exist whatever is reported; it bears the pending marker and cannot be used. |
| Hosts.Host.ActivateLogin | internal/cli/invite_transaction.go:702-713 | Opening the login is safe only with a complete row, and may take effect although it errs. |
| Hosts.Host.ReadRow | internal/registry/store.go:761-772 | The row as it is at that moment. |
| Hosts.Host.ReadAccount | internal/cli/cli.go:218-223 | The account as it is at that moment, whoever changed it before. |
| Hosts.Host.GrantSudo | internal/cli/invite_transaction.go:621-637 | The grant may be live whatever is reported, and voids what was seen gone. |
| Hosts.Host.GrantSSHD | internal/cli/invite_transaction.go:587-596 | The same for the sshd exception. |
| Hosts.Host.DrainJobs | internal/cli/cli.go:267-272 | Counts as drained only on success and only behind a closed login. |
| Hosts.Host.RemoveHome | internal/user/delete.go:110-112 | Nothing of the state moves; a removal without the complete gate is recorded as a breach, and only that. |
| Hosts.Host.ReleaseRow | internal/cli/revoke.go:1084-1099 | The row is released only when permitted, and only to nothing. |
| Hosts.Host.MarkManaged | internal/user/create.go:225-252 | The pending marker becomes the managed one while the account cannot be used, whatever is reported. |
| Hosts.Host.InstallCredential | internal/cli/invite_transaction.go:570-581 | A credential alone never makes a shut account usable. |
| Hosts.Host.HandOff | internal/cli/revoke.go:811-811 | The instant the deadline is counted from, fixed only behind a closed login and a complete pass. |
| Deletions.StillMatches | internal/cli/revoke.go:1279-1302 | Success: at that moment the account is there and still the expected one. |
| Deletions.Quiesce | internal/cli/revoke.go:1166-1206 | Success behind a closed login means drained, a complete process and job pass, and the identity still there at the end. |
| Deletions.QuiesceImmediate | internal/cli/revoke.go:1220-1250 | The same without the drain. |
| Deletions.DeletionState | internal/user/delete.go:188-211 | Absent, or present with the expected identity as of that read; anything else is an error. |
| Deletions.SweepMail | internal/user/delete.go:82-93 | Success means the name was absent at the last look, and still bears no account of this tool. |
| Deletions.RemoveArtifacts | internal/user/delete.go:104-127 | Home is removed lawfully under the complete gate, and is a breach without it; both removals and the last check in order. |
| Deletions.UserdelChecked | internal/user/delete.go:145-186 | Success means absence was observed after the helper ran; a helper called without leave is a breach. |
| Deletions.DeleteExpected | internal/user/delete.go:54-186 | The whole deletion order: success means last seen absent. Without a last check it is lawful if and only if the gates already held for what it reached, and it reaches Home of a vanished identity only if somebody restored it. |
| Deletions.PersistDeletionStarted | internal/cli/revoke.go:1029-1078 | Success means the witness is on record and, after a pass, the gate on destruction is open; the deadline is the one authorised. |
| Deletions.PersistAndDelete | internal/cli/revoke.go:954-977 | Witness before destruction, at every outcome. |
| Deletions.ShutAndDrain | internal/cli/revoke.go:909-932 | Success: login closed, drained, passed, identity unchanged. |
| Deletions.TeardownLocal | internal/cli/revoke.go:901-932 | Removed means seen absent; every step on the way was lawful. |
| Deletions.TeardownQuarantined | internal/cli/revoke.go:934-949 | The same past a recorded deadline, without the drain. |
| Deletions.FirstPass | internal/cli/revoke.go:1166-1178 | Identity, processes, identity, jobs; clean only if both passes succeeded. |
| Deletions.FinalPass | internal/cli/revoke.go:1256-1274 | The same with no error tolerated, and the identity there at the end. |
| Deletions.CommitWitness | internal/cli/revoke.go:1054-1078 | Success means a started deletion is on record; it is durable if and only if this commit changed the row or nothing was unsynced before. |
| Gates.HomeRemovalGate | internal/cli/revoke.go:207-224 | Before every Home removal, in that run: both grants removed and not granted again, login disabled, then processes, then jobs, then the witness, in this order. |
| Gates.UserdelGate | internal/user/delete.go:70-153 | The same before every userdel, and the last passwd read matches the authorised identity. |
| Gates.UserdelHold | internal/cli/revoke.go:513-553 | Every userdel follows a completed drain behind the closed login, or a deadline read from the row in that run and passed: a whole minute, 65 to 125 seconds after its handoff. |
| Gates.RowReleaseGate | internal/cli/revoke.go:302-342 | A row is released only after both removals succeeded and with the account last seen absent. |
| Gates.HandoffGate | internal/cli/revoke.go:786-811 | Every handoff follows a closed login and a complete pass, with the deadline computed from the clock just read. |
| Gates.ResurrectionEscapesTheGates | internal/cli/invite_transaction.go:775-793 | The history of an invite whose account vanishes unshut and is restored before its deletion looks: exactly the two Home removals and the userdel are unlawful. |
| Revokes.StripGrants | internal/cli/revoke.go:432-441 | Success exactly when both removals succeeded; then neither grant is left. |
| Revokes.CancelTasks | internal/cli/revoke.go:763-771 | Both namespaces are emptied, and no promise depended on them. |
| Revokes.ReleaseRegistry | internal/cli/revoke.go:1084-1099 | The row goes only for a name last seen absent with both grants seen gone. |
| Revokes.GateIsIdentity | internal/cli/revoke.go:443-511 | What the protection check lets pass is exactly this tool's own identity, or an operator's explicit recovery. |
| Revokes.Transaction.StripForUnboundTask | internal/cli/revoke.go:728-757 | An old task only strips grants and retires itself; the row stays. |
| Revokes.Transaction.LoadAccount | internal/cli/revoke.go:274-300 | An absent account ends with nothing left or an error; otherwise the snapshot is tied to the row. |
| Revokes.Transaction.CleanupAbsent | internal/cli/revoke.go:302-342 | `Gone` leaves no grant, no task and no row. |
| Revokes.Transaction.AuthorizeRecovery | internal/cli/revoke.go:344-425 | Legacy and pending recovery are authorised only for an explicit, confirmed, unprotected operator request. |
| Revokes.Transaction.StripGrantsAndCheckProtection | internal/cli/revoke.go:427-511 | Continues only for an account nothing shields. |
| Revokes.Transaction.HonorExistingQuarantine | internal/cli/revoke.go:513-553 | Before the deadline it ends with access closed; it continues only once the deadline has passed or synchronously. |
| Revokes.Transaction.BeginIdentityQuarantine | internal/cli/revoke.go:786-845 | `Started` means login shut, the row quarantined and its own finalizer armed, for every failure pattern. |
| Revokes.Transaction.CommitQuarantine | internal/cli/revoke.go:816-839 | A commit that reports a durability error is proved before it counts; a failed one cancels the finalizer without leaving a task-less account. Once the expiry task is gone, every row that may come back finds its task if and only if the commit was `Done`. |
| Revokes.Transaction.VerifyCommitted | internal/cli/revoke.go:847-864 | Success: the row is exactly the expected one. |
| Revokes.Transaction.RevalidateAndPrepareDeletion | internal/cli/revoke.go:555-650 | Continues only with both grants gone and the identity reread; quarantined means handed over. |
| Revokes.Transaction.SynchronousTeardown | internal/cli/revoke.go:652-680 | Before the deadline it drains, after it need not. |
| Revokes.Transaction.DeleteAndFinalize | internal/cli/revoke.go:652-722 | `Gone` leaves no grant, no task and no row; every other end keeps all promises. |
| Revokes.Transaction.Run | internal/cli/revoke.go:207-224 | For every failure, kill and account replacement: all promises hold, every destructive step was lawful under any tampering, and the two good ends mean what they say. |
| Revokes.HandoffForsakesIff | internal/cli/revoke.go:816-839 | The handoff step by step: power loss can leave a matching account whose row counts on a cancelled expiry task if and only if the quarantine commit was not synced. |
| Revokes.ForsakenIff | internal/cli/revoke.go:816-839 | In any state, power loss can forsake an account exactly when an ordinary row that may come back still counts on a task that is gone. |
| Revokes.ForsakenLosesBoth | internal/cli/revoke.go:812-823 | A forsaken account loses its finalizer too at the next handoff whose commit fails: no task is left. |
| Revokes.Transaction.Authorize | internal/cli/revoke.go:226-511 | Goes on only with the row as it is and the account tied to it. |
| Revokes.Transaction.LoadRegistry | internal/cli/revoke.go:226-272 | A task bound to another UID or generation never goes on, nor does a bound task on an unbound row. |
| Revokes.Transaction.MigrateLegacy | internal/cli/revoke.go:365-399 | Goes on only with the same row and the same identity as before the migration. |
| Revokes.Transaction.RetainPending | internal/cli/revoke.go:412-423 | Strips grants and tasks of an unproved creation and keeps its row. |
| Revokes.Transaction.CloseAccess | internal/cli/revoke.go:795-810 | Success: login shut and one complete process and job pass. |
| Revokes.Transaction.RetireExpiryTask | internal/cli/revoke.go:837-844 | The expiry task may go or stay: the finalizer is armed either way, and whether the row was synced is on record. |
| Revokes.Transaction.ShutAndRetain | internal/cli/revoke.go:587-615 | Ends without deleting, with every promise kept. |
| Revokes.Transaction.Teardown | internal/cli/revoke.go:660-680 | Selects the teardown the recorded deadline allows; an unreadable one deletes nothing. |
| Revokes.Transaction.FinishAbsent | internal/cli/revoke.go:710-722 | Tasks first, row last; `Gone` leaves nothing. |
| Invites.Invite.ClearReusedUsername | internal/cli/invite_transaction.go:215-294 | Goes on only for a name with no account, no row and no grants. |
| Invites.Invite.ReserveAndCreatePendingIdentity | internal/cli/invite_transaction.go:296-442 | Success: the row is on record before the account, and the account is shut, pending and the recorded one. |
| Invites.Invite.CreateAccount | internal/cli/invite_transaction.go:382-421 | Any partial creation ends in the rollback with the release gate closed. |
| Invites.Invite.AddUser | internal/cli/invite_transaction.go:375-382 | Whatever useradd leaves bears the pending marker and is unusable, with the release gate closed before it runs. |
| Invites.Invite.ReconcileAbsent | internal/cli/revoke.go:1125-1148 | Traces of an account that never appeared are cleaned under a recorded deletion. |
| Invites.Invite.DrainAndFinalizeIdentity | internal/cli/invite_transaction.go:444-542 | Success: drained, marked managed and recorded complete, still shut. |
| Invites.Invite.InstallCredentialsAndGrants | internal/cli/invite_transaction.go:544-651 | The account stays shut throughout, and sudo is granted only if it was wanted. |
| Invites.Invite.InstallCredential | internal/cli/invite_transaction.go:544-581 | The credential goes to exactly the entry that was made, which stays shut. |
| Invites.Invite.ScheduleExpiry | internal/cli/invite_transaction.go:657-688 | With auto-revoke wanted the task for this generation is armed and recorded before activation. |
| Invites.Invite.Activate | internal/cli/invite_transaction.go:690-737 | The login opens last, with everything on record. |
| Invites.Invite.OpenLogin | internal/cli/invite_transaction.go:702-713 | The login opens only over a complete, durable record, and an error may come after it took effect. |
| Invites.Invite.RunCleanup | internal/cli/invite_transaction.go:331-418 | The row's release is refused until grants and account are confirmed gone. |
| Invites.Invite.RollbackAccount | internal/cli/invite_transaction.go:744-816 | Success with both grants confirmed gone means seen absent; otherwise absent or disabled, never deleted. Under any tampering. |
| Invites.Invite.RollBack | internal/cli/invite_transaction.go:186-203 | Runs the whole stack in reverse whatever fails; a clean result means the account was last seen absent and no row, grant or task is left. |
| Invites.Invite.Run | internal/cli/invite_transaction.go:64-90 | At every kill point an account that can authenticate is completely on record; success means exactly that row and task, and a failure reported as restored has undone everything. Under any tampering it is lawful if and only if no deletion of a vanished account outran its gates; without tampering always. |
| Invites.Invite.ConfirmSudoRemoved | internal/cli/invite_transaction.go:158-164 | Confirmed exactly by a successful removal, now or before. |
| Invites.Invite.ConfirmSSHDRemoved | internal/cli/invite_transaction.go:166-172 | The same for the sshd exception. |
| Invites.Invite.NothingCreated | internal/cli/invite_transaction.go:382-398 | The release gate opens only if no helper ran or its traces were reconciled. |
| Invites.Invite.RecordAndShut | internal/cli/invite_transaction.go:419-441 | Success: the account is on record with its UID and its login is shut. |
| Invites.Invite.Settle | internal/cli/invite_transaction.go:444-505 | Success: drained, or immediate for a fresh isolated identity, and still the recorded account. |
| Invites.Invite.PromoteIdentity | internal/cli/invite_transaction.go:520-541 | Success: marked managed while shut, and recorded as completed. |
| Invites.Invite.Complete | internal/cli/invite_transaction.go:526-541 | A commit that is visible but not durable leaves the transaction on the row that is there. |
| Invites.Invite.GrantException | internal/cli/invite_transaction.go:587-596 | The deletion gate is closed before the grant and its cleanup registered after it. |
| Invites.Invite.GrantSudo | internal/cli/invite_transaction.go:621-637 | The same for sudo. |
| Invites.Invite.Recheck | internal/cli/invite_transaction.go:550-569 | Nothing but time and outsiders moved, and the account is still the recorded one. |
| Invites.Invite.ScheduleActivateAndReport | internal/cli/invite_transaction.go:653-737 | Success only with the completed row, final sudo state and, if wanted, the recorded task. |
| Invites.Invite.RecordUnit | internal/cli/invite_transaction.go:683-688 | Success: the row names the unit that is armed for its generation. |
| Invites.Invite.TearDown | internal/cli/invite_transaction.go:809-815 | Success means seen absent. |
| Invites.Invite.RetainShut | internal/cli/invite_transaction.go:797-808 | Success means the login is disabled. |
| Invites.Invite.RecoverVanished | internal/cli/invite_transaction.go:776-793 | The deletion goes on record, then runs without a gate; it is a breach exactly where it reaches Home or userdel of a restored identity that this run had not shut, passed and held. |
| Invites.Invite.ReleaseAbsent | internal/cli/invite_transaction.go:343-366 | Success: the account was seen absent and no row, grant or task is left. |
| Histories.Serve | internal/cli/cli.go:643-664 | Any sequence of invites, revokes and power losses of one name, each cut short anywhere, keeps every promise; without tampering it took no unlawful step, and a matching account has its task whatever row comes back, unless an expiry task was cancelled behind an unsynced row. |
| Sweeps.LiveNeedsItsTask | internal/cli/cleanup.go:64-118 | Whatever is live is present and needs its task; a task is needed beyond that only for a started deletion. |
| Sweeps.Sweeper.Orphans | internal/sshdconf/sshdconf.go:482-498 | The scan splits all names by what each account was when looked at, or fails as a whole. |
| Sweeps.Sweeper.SweepSSHD | internal/cli/cleanup.go:236-260 | Only orphans' exceptions go; those that may remain are reported. |
| Sweeps.Sweeper.SweepSudo | internal/cli/cleanup.go:263-288 | The same for sudo files. |
| Sweeps.Sweeper.SweepTasks | internal/cli/cleanup.go:294-322 | No task goes while a scan was incomplete or its name is pinned by a grant. |
| Sweeps.Sweeper.CompactRegistry | internal/cli/cleanup.go:323-345 | Exactly the ordinary rows of names absent at their own look go. |
| Sweeps.Sweeper.CompactLocked | internal/cli/cleanup.go:218-345 | A row or task goes only for a name seen absent or unneeded, and beside a surviving grant only if the account was live at another moment of the sweep; in an unchanged database never. A clean sweep drops exactly the ordinary rows absent at their own look. |
| Sweeps.StillMeansGone | internal/cli/cleanup.go:218-345 | With the account database unchanged nothing absent or unneeded was ever live. |
| Sweeps.SweepVanishing | internal/cli/cleanup.go:323-331 | Why that condition is needed: every clean sweep of an account live until the registry's turn and absent at its look keeps its grant and drops its row. |
| Sweeps.Sweeper.SweepGrants | internal/cli/cleanup.go:228-288 | A grant that remains belongs to an account found live, unless its name is pinned. |
| Audit.LinesAddUp | internal/audit/audit.go:112-121 | Every log is its complete lines plus one partial tail without a newline. |
| Audit.FramingIsUnique | internal/audit/audit.go:112-121 | There is only one way to read a log as lines and tail. |
| Audit.OneMoreLine | internal/audit/audit.go:165-165 | A record and its newline after whole lines is exactly one line more. |
| Audit.PartOfARecordAddsNone | internal/audit/audit.go:281-296 | Any proper part of an append adds no line. |
| Audit.LongerLogKeepsLines | internal/audit/audit.go:231-272 | What is appended to a log changes none of its lines. |
| Audit.CompleteFromBlock | internal/audit/audit.go:256-266 | A newline found in a block from the end gives the end of the last line; none found moves the scan on. |
| Audit.File.LastLineEnd | internal/audit/audit.go:244-267 | The block-wise backward scan finds the end of the last complete line for every file and block size. |
| Audit.File.RepairIncompleteTail | internal/audit/audit.go:231-272 | Cuts back exactly to the last newline, or leaves the file as it was. |
| Audit.File.WriteAll | internal/audit/audit.go:281-296 | Short writes are continued; success means all of the line, failure some part of it. |
| Audit.File.Log | internal/audit/audit.go:122-217 | Success adds exactly this line, durably; nothing ever loses a complete line, adds more than one or outgrows the cap, including states torn by power loss. |
| Audit.File.PowerLoss | internal/audit/audit.go:113-121 | Some prefix of an unsynced state comes back, never less than the synced lines. |
| Audit.Run | internal/audit/audit.go:122-217 | Over any records, kills and power losses every acknowledged record is still there in order, durably, and nothing that was not asked for. |
| Audit.File.Write | internal/audit/audit.go:193-196 | Some bytes of the line are appended, and the count reported may be invalid. |
| Audit.File.Prepare | internal/audit/audit.go:166-192 | The caps before and after the repair: success leaves whole lines with room for the record. |
| Audit.File.Append | internal/audit/audit.go:193-216 | Every state that may surface lies between the old log and the old log with the line. |
| Audit.File.RollBack | internal/audit/audit.go:197-203 | Cuts back to where the write began, or leaves a part of the line. |
| Audit.File.Settle | internal/audit/audit.go:204-216 | Success means file and directory entry are durable. |
| Locks.KeepsLocks | internal/lifecycle/lock.go:65-113 | Every step keeps each account lock held by exactly the processes that think so. |
| Locks.EveryRunIsSound | internal/cli/cli.go:619-730 | Every run of any number of processes keeps all lock invariants. |
| Locks.OneBodyAtATime | internal/cli/cli.go:631-664 | Mutation bodies exclude each other, and none that must respect the uninstall marker runs while it is set. |
| Locks.SomebodyCanMove | internal/cli/cli.go:666-701 | No reachable deadlock: while anyone has not ended somebody can get on with its work. |
| Locks.RunsEnd | internal/cli/cli.go:666-730 | Without new arrivals a run has a bounded number of steps left, so nobody waits for ever. |
| Locks.NameOnlyRevokeNeverQueues | internal/cli/revoke.go:75-97 | A name-only revoke that runs after an invite of its name asked for its lock after that invite released. |
| Locks.DroppedExactlyOnCollision | internal/cli/cli.go:703-721 | It is dropped if and only if an invite of its name held the lock as it asked. |
| Locks.BoundRevokeMayQueue | internal/cli/cli.go:690-701 | A bound revoke does queue: a run where one asked during an invite and ran after it. |
| Versions.ParseReadsTheGrammar | scripts/mirror-receiver.py:155-172 | A tag is accepted with exactly the three numbers of its one reading, if and only if it is canonical, short enough, not below v2 and no prerelease where none is allowed. |
| Versions.PartOrderIsNumeric | scripts/mirror-receiver.py:168-172 | For canonical decimals of any length (length, text) order is numeric order. |
| Versions.KeyOrderIsNumeric | scripts/mirror-receiver.py:155-172 | The order on triples is exactly numeric major, minor, patch order. |
| Versions.KeyOrderIsTotal | scripts/mirror-receiver.py:155-172 | It is a strict total order. |
| Versions.StableTagsAreTotallyOrdered | scripts/mirror-receiver.py:375-378 | On accepted stable tags equal keys mean equal tags, otherwise exactly one is older. |
| Mirror.ManifestRoundTrip | scripts/mirror-receiver.py:381-411 | A manifest is read back as written, and only the canonical line of an accepted stable tag is read as one. |
| Mirror.Site.MatchingStableInstallerVersions | scripts/mirror-receiver.py:623-658 | The scan returns exactly the keys of readable complete stable versions with this installer, or fails on its deadline. |
| Mirror.Site.CurrentLatestState | scripts/mirror-receiver.py:426-434 | Nothing exactly when there is no manifest; otherwise its key and bytes, only while its version is complete. |
| Mirror.Site.PublishFile | scripts/mirror-receiver.py:518-543 | One file appears whole under a free name or not at all. |
| Mirror.Site.PublishVersion | scripts/mirror-receiver.py:545-620 | Fills in only missing files of a validated release; no published file changes; success means exactly the staged release. |
| Mirror.Site.AtomicReplace | scripts/mirror-receiver.py:661-676 | Readers see the old stable file or the whole new one. |
| Mirror.Site.PublishInstaller | scripts/mirror-receiver.py:679-691 | The installer changes only to one of a complete stable version not older than the manifest's. |
| Mirror.Site.PublishManifest | scripts/mirror-receiver.py:692-710 | The manifest changes only to a strictly newer version whose installer is in place. |
| Mirror.Site.PublishStable | scripts/mirror-receiver.py:679-710 | Any other name is refused; each request touches only its own file. |
| Mirror.Site.Serve | scripts/mirror-receiver.py:996-1040 | Over any requests and kills published files never change, the manifest only advances with equal versions byte-equal, and it names a complete version the installer is not behind. |
| Mirror.LatestAdvancesOn | scripts/mirror-receiver.py:697-704 | Advancing is transitive, so the manifest's version never decreases over a whole run. |
| Mirror.GrowthKeepsLatestSound | scripts/mirror-receiver.py:545-620 | Publishing more versions never invalidates the manifest or the installer. |
| Mirror.Site.ValidatePublished | scripts/mirror-receiver.py:346-372 | Success means the version is complete and holds nothing else. |
| Mirror.Site.CleanTemps | scripts/mirror-receiver.py:474-515 | Only private temporaries go, and it may stop half-way. |
| Mirror.Site.Agrees | scripts/mirror-receiver.py:555-573 | True only if every file already there is staged with the same bytes. |
| Mirror.Site.Fill | scripts/mirror-receiver.py:600-620 | Adds missing files only; success means exactly the staged release. |

## Left out

- Hosts.Host.Commit: only the unsynced states of the registry row are followed through a power loss; scheduled tasks, the passwd entry and the grant files count as durable there. A row is synced by a later commit of its own name only, while another name's commit would sync it too, so more may come back here than on a real host.
- Invites.Invite.Run: with tampering only lawfulness, the gate on releasing the row and what a success or a restored failure means are claimed; that tasks and records stay complete is promised on hosts nobody tampers with.
- Records.RowRoundTrip: text is a sequence of characters, so the check that a line is valid UTF-8 is not modelled.
- Tables.ReadAll: the same, and the size limit counts characters.
- Registry.Store.ReserveIdentity: the numbers are compared along one lineage of the disk; nothing is said about a sequence file deleted by hand other than by `Registry.RepairRestores`.
- Registry.Store.Init: the clock is assumed to lie before the year 10000, as the text form of safe-after needs.
- Audit.File.Log: the record is taken as encoded, without a newline; JSON encoding and the metadata checks before opening are not modelled. Another writer that ignores the lock is outside the property.
- Audit.File.PowerLoss: unsynced bytes are lost from the end; blocks written out of order are not modelled.
- Mirror.Site.Serve: power loss is outside the property, and modes, owners, link counts and budgets only appear as checks that may refuse.
- Locks.SomebodyCanMove: a failing unlock is taken as the release that follows when its process ends; forking, and unlinking a lock file while it is held, are not modelled.
- File descriptors, symlinks, ownership, modes and inode checks: only that a write, removal or sync may succeed, fail or take effect without being durable.
- systemctl, at, userdel, groupdel, chage, visudo and sshd themselves, and parsing what they print: each is a call with every outcome it can have.
- sshd_config Include scanning, the probe for unverifiable Match blocks, sudo policy listing and nsswitch parsing.
- The at fallback of the scheduler and its command text; a task is its namespace and the UID and generation it is bound to.
- Fractional seconds in timestamps, white space outside ASCII and the validity of UTF-8: one character is one byte.
- The wording of drop-in comments, warnings and reports, and the sort order of listings.
- Network, signatures, key and password generation, prompts, menus, tables and status output.
- rsync transfer, signals and resource limits of the mirror receiver: a request starts from its private staged tree.
- Hashing and the calendar check of a mirror timestamp: parameters of `Mirror.Site`, any functions at all.
